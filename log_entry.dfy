// The log-entry decorators: a plain entry renders its message with the HTML
// special characters `&`, `<` and `>` escaped, and each decorator wraps the
// rendering of the entry it decorates in its own markup.

module LogEntries {
  import opened Strings

  datatype LogEntry =
    | Plain(message: string)
    | Icon(wrapped: LogEntry, icon: string)
    | Color(wrapped: LogEntry, colorClass: string)
    | Bold(wrapped: LogEntry)

  /** `escapeHtml`: `&` first, then `<` and `>`, each replaced by its entity. */
  function EscapeHtml(text: string): (r: string)
    ensures '<' !in r && '>' !in r
    ensures '&' !in text && '<' !in text && '>' !in text ==> r == text
  {
    EscapeHtmlPerChar(text);
    ReplaceEntities(text)
  }

  /** The three global replacements, in the order `escapeHtml` applies them. */
  function ReplaceEntities(s: string): string {
    ReplaceChar(ReplaceChar(ReplaceChar(s, '&', "&amp;"), '<', "&lt;"), '>', "&gt;")
  }

  /** The entity (or the character itself) that stands for one character. */
  function EscapedChar(c: char): string {
    if c == '&' then "&amp;" else if c == '<' then "&lt;" else if c == '>' then "&gt;" else [c]
  }

  /** Escaping character by character. */
  function HtmlEscaped(s: string): (r: string)
    ensures '<' !in r && '>' !in r
    ensures '&' !in s && '<' !in s && '>' !in s ==> r == s
  {
    if s == [] then []
    else
      var r := EscapedChar(s[0]) + HtmlEscaped(s[1..]);
      assert '&' !in s && '<' !in s && '>' !in s ==> r == [s[0]] + s[1..] == s;
      r
  }

  /** The three global replacements in turn escape each character on its own. */
  lemma {:induction false} EscapeHtmlPerChar(s: string)
    ensures ReplaceEntities(s) == HtmlEscaped(s)
  {
    if s != [] {
      EscapeHtmlPerChar(s[1..]);
      assert s == [s[0]] + s[1..];
      ReplaceEntitiesAppend([s[0]], s[1..]);
      ReplaceEntitiesChar(s[0]);
    }
  }

  lemma ReplaceEntitiesAppend(a: string, b: string)
    ensures ReplaceEntities(a + b) == ReplaceEntities(a) + ReplaceEntities(b)
  {
    var a1, b1 := ReplaceChar(a, '&', "&amp;"), ReplaceChar(b, '&', "&amp;");
    ReplaceCharAppend(a, b, '&', "&amp;");
    var a2, b2 := ReplaceChar(a1, '<', "&lt;"), ReplaceChar(b1, '<', "&lt;");
    ReplaceCharAppend(a1, b1, '<', "&lt;");
    ReplaceCharAppend(a2, b2, '>', "&gt;");
  }

  lemma ReplaceEntitiesChar(c: char)
    ensures ReplaceEntities([c]) == EscapedChar(c)
  {
    ReplaceCharSingle(c, '&', "&amp;");
    if c == '&' {
      ReplaceCharAbsent("&amp;", '<', "&lt;");
      ReplaceCharAbsent("&amp;", '>', "&gt;");
    } else {
      ReplaceCharSingle(c, '<', "&lt;");
      if c == '<' {
        ReplaceCharAbsent("&lt;", '>', "&gt;");
      } else {
        ReplaceCharSingle(c, '>', "&gt;");
      }
    }
  }

  /** Reading the entities back: the inverse of the escaping. */
  function HtmlUnescaped(t: string): string
    decreases |t|
  {
    if t == [] then []
    else if StartsWith(t, "&amp;") then "&" + HtmlUnescaped(t[5..])
    else if StartsWith(t, "&lt;") then "<" + HtmlUnescaped(t[4..])
    else if StartsWith(t, "&gt;") then ">" + HtmlUnescaped(t[4..])
    else [t[0]] + HtmlUnescaped(t[1..])
  }

  /** Escaping loses nothing: the message can be read back from its escaped form. */
  lemma {:induction false} UnescapeEscape(s: string)
    ensures HtmlUnescaped(EscapeHtml(s)) == s
  {
    EscapeHtmlPerChar(s);
    UnescapeEscaped(s);
  }

  lemma {:induction false} UnescapeEscaped(s: string)
    ensures HtmlUnescaped(HtmlEscaped(s)) == s
  {
    if s != [] {
      UnescapeEscaped(s[1..]);
      UnescapeStep(s[0], HtmlEscaped(s[1..]));
      assert [s[0]] + s[1..] == s;
    }
  }

  /** Reading back one escaped character. */
  lemma UnescapeStep(c: char, rest: string)
    ensures HtmlUnescaped(EscapedChar(c) + rest) == [c] + HtmlUnescaped(rest)
  {
    if c == '&' {
      UnescapeAmp(rest);
    } else if c == '<' {
      UnescapeLt(rest);
    } else if c == '>' {
      UnescapeGt(rest);
    } else {
      UnescapeOther(c, rest);
    }
  }

  lemma UnescapeAmp(rest: string)
    ensures HtmlUnescaped("&amp;" + rest) == "&" + HtmlUnescaped(rest)
  {
    var t := "&amp;" + rest;
    assert t[..5] == "&amp;" && t[5..] == rest;
  }

  lemma UnescapeLt(rest: string)
    ensures HtmlUnescaped("&lt;" + rest) == "<" + HtmlUnescaped(rest)
  {
    var t := "&lt;" + rest;
    assert t[..4] == "&lt;" && t[4..] == rest;
    assert !StartsWith(t, "&amp;") by { assert t[1] == 'l'; }
  }

  lemma UnescapeGt(rest: string)
    ensures HtmlUnescaped("&gt;" + rest) == ">" + HtmlUnescaped(rest)
  {
    var t := "&gt;" + rest;
    assert t[..4] == "&gt;" && t[4..] == rest;
    assert !StartsWith(t, "&amp;") by { assert t[1] == 'g'; }
    assert !StartsWith(t, "&lt;") by { assert t[1] == 'g'; }
  }

  lemma UnescapeOther(c: char, rest: string)
    requires c != '&'
    ensures HtmlUnescaped([c] + rest) == [c] + HtmlUnescaped(rest)
  {
    var t := [c] + rest;
    assert t[0] == c && t[1..] == rest;
  }

  /** `render` of each entry kind. */
  function Render(e: LogEntry): string {
    match e
    case Plain(m) => EscapeHtml(m)
    case Icon(w, icon) => "<span class=\"log-icon\">" + icon + "</span> " + Render(w)
    case Color(w, cls) => "<span class=\"log-" + cls + "\">" + Render(w) + "</span>"
    case Bold(w) => "<strong>" + Render(w) + "</strong>"
  }

  /** The message at the centre of a decorator chain. */
  function Message(e: LogEntry): string {
    match e
    case Plain(m) => m
    case Icon(w, _) => Message(w)
    case Color(w, _) => Message(w)
    case Bold(w) => Message(w)
  }

  /** The number of decorators around the plain entry. */
  function Depth(e: LogEntry): nat {
    match e
    case Plain(_) => 0
    case Icon(w, _) => 1 + Depth(w)
    case Color(w, _) => 1 + Depth(w)
    case Bold(w) => 1 + Depth(w)
  }

  /** Icons and colour classes that carry no markup of their own. */
  predicate MarkupFree(e: LogEntry) {
    match e
    case Plain(_) => true
    case Icon(w, icon) => '<' !in icon && MarkupFree(w)
    case Color(w, cls) => '<' !in cls && MarkupFree(w)
    case Bold(w) => MarkupFree(w)
  }

  /** Every decorator keeps the escaped message verbatim inside its rendering. */
  lemma {:induction false} RenderKeepsMessage(e: LogEntry)
    ensures Contains(Render(e), EscapeHtml(Message(e)))
  {
    match e
    case Plain(m) =>
      assert OccursAt(Render(e), EscapeHtml(m), 0);
    case Icon(w, icon) =>
      RenderKeepsMessage(w);
      ContainsWithin("<span class=\"log-icon\">" + icon + "</span> ", Render(w), "", EscapeHtml(Message(w)));
      assert Render(e) == "<span class=\"log-icon\">" + icon + "</span> " + Render(w) + "";
    case Color(w, cls) =>
      RenderKeepsMessage(w);
      ContainsWithin("<span class=\"log-" + cls + "\">", Render(w), "</span>", EscapeHtml(Message(w)));
    case Bold(w) =>
      RenderKeepsMessage(w);
      ContainsWithin("<strong>", Render(w), "</strong>", EscapeHtml(Message(w)));
  }

  lemma ContainsWithin(p: string, s: string, q: string, x: string)
    requires Contains(s, x)
    ensures Contains(p + s + q, x)
  {
    var i :| 0 <= i <= |s| - |x| && OccursAt(s, x, i);
    assert (p + s + q)[|p| + i..|p| + i + |x|] == s[i..i + |x|];
    assert OccursAt(p + s + q, x, |p| + i);
  }

  /** The number of times a character occurs. */
  function CountChar(s: string, c: char): (n: nat)
    ensures n <= |s|
    ensures c !in s ==> n == 0
  {
    if s == [] then 0 else (if s[0] == c then 1 else 0) + CountChar(s[1..], c)
  }

  lemma {:induction false} CountCharAppend(a: string, b: string, c: char)
    ensures CountChar(a + b, c) == CountChar(a, c) + CountChar(b, c)
  {
    if a == [] {
      assert a + b == b;
    } else {
      assert (a + b)[1..] == a[1..] + b;
      CountCharAppend(a[1..], b, c);
    }
  }

  /**
   * The only tags in a rendering are the decorators' own: each decorator
   * opens and closes one, and the escaped message contributes no `<`.
   */
  lemma {:induction false} RenderTags(e: LogEntry)
    requires MarkupFree(e)
    ensures CountChar(Render(e), '<') == 2 * Depth(e)
  {
    IconLiterals();
    ColorLiterals();
    BoldLiterals();
    match e
    case Plain(m) =>
    case Icon(w, icon) =>
      RenderTags(w);
      IconTags("<span class=\"log-icon\">", icon, "</span> ", Render(w));
    case Color(w, cls) =>
      RenderTags(w);
      ColorTags("<span class=\"log-", cls, "\">", Render(w), "</span>");
    case Bold(w) =>
      RenderTags(w);
      BoldTags("<strong>", Render(w), "</strong>");
  }

  /** The icon decorator's markup pieces each open one tag. */
  lemma IconLiterals()
    ensures OneTag("<span class=\"log-icon\">") && OneTag("</span> ")
  {
    assert "<span class=\"log-icon\">"[1..] == "span class=\"log-icon\">";
  }

  /** The colour decorator's markup pieces each open one tag, or none. */
  lemma ColorLiterals()
    ensures OneTag("<span class=\"log-") && '<' !in "\">" && OneTag("</span>")
  {
  }

  /** The bold decorator's markup pieces each open one tag. */
  lemma BoldLiterals()
    ensures OneTag("<strong>") && OneTag("</strong>")
  {
  }

  /** Markup that opens one tag: a `<` and no other. */
  predicate OneTag(s: string) {
    |s| > 0 && s[0] == '<' && '<' !in s[1..]
  }

  lemma IconTags(a: string, icon: string, b: string, inner: string)
    requires OneTag(a) && '<' !in icon && OneTag(b)
    ensures CountChar(a + icon + b + inner, '<') == 2 + CountChar(inner, '<')
  {
    CountCharAppend(a, icon, '<');
    CountCharAppend(a + icon, b, '<');
    CountCharAppend(a + icon + b, inner, '<');
    TagCount(a);
    TagCount(b);
  }

  lemma ColorTags(a: string, cls: string, b: string, inner: string, c: string)
    requires OneTag(a) && '<' !in cls && '<' !in b && OneTag(c)
    ensures CountChar(a + cls + b + inner + c, '<') == 2 + CountChar(inner, '<')
  {
    CountCharAppend(a, cls, '<');
    CountCharAppend(a + cls, b, '<');
    CountCharAppend(a + cls + b, inner, '<');
    CountCharAppend(a + cls + b + inner, c, '<');
    TagCount(a);
    TagCount(c);
  }

  lemma BoldTags(a: string, inner: string, b: string)
    requires OneTag(a) && OneTag(b)
    ensures CountChar(a + inner + b, '<') == 2 + CountChar(inner, '<')
  {
    CountCharAppend(a, inner, '<');
    CountCharAppend(a + inner, b, '<');
    TagCount(a);
    TagCount(b);
  }

  lemma TagCount(s: string)
    requires OneTag(s)
    ensures CountChar(s, '<') == 1
  {
  }
}
