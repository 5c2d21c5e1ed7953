// The JSON flavour of the export skeleton: string escaping, indentation one
// level deeper than the visitor's level (the root is wrapped in an extra
// object), and the directory/file fragments. Section 7 of RFC 8259 defines
// the string syntax the escaping aims at.

module JsonExport {
  import opened Strings

  // ---------------------------------------------------------------------------
  // Escaping

  /** `escape`: backslashes first, then quotes, then newline, carriage return and tab. */
  function JsonEscape(s: string): string {
    ReplaceChar(ReplaceChar(ReplaceChar(ReplaceChar(ReplaceChar(
      s, '\\', "\\\\"), '"', "\\\""), '\n', "\\n"), '\r', "\\r"), '\t', "\\t")
  }

  /** What the replacement chain does to one character. */
  function EscapeChar(c: char): string {
    if c == '\\' then "\\\\"
    else if c == '"' then "\\\""
    else if c == '\n' then "\\n"
    else if c == '\r' then "\\r"
    else if c == '\t' then "\\t"
    else [c]
  }

  function EscapeEach(s: string): string {
    if s == [] then [] else EscapeChar(s[0]) + EscapeEach(s[1..])
  }

  lemma JsonEscapeAppend(a: string, b: string)
    ensures JsonEscape(a + b) == JsonEscape(a) + JsonEscape(b)
  {
    var a1, b1 := ReplaceChar(a, '\\', "\\\\"), ReplaceChar(b, '\\', "\\\\");
    ReplaceCharAppend(a, b, '\\', "\\\\");
    var a2, b2 := ReplaceChar(a1, '"', "\\\""), ReplaceChar(b1, '"', "\\\"");
    ReplaceCharAppend(a1, b1, '"', "\\\"");
    var a3, b3 := ReplaceChar(a2, '\n', "\\n"), ReplaceChar(b2, '\n', "\\n");
    ReplaceCharAppend(a2, b2, '\n', "\\n");
    var a4, b4 := ReplaceChar(a3, '\r', "\\r"), ReplaceChar(b3, '\r', "\\r");
    ReplaceCharAppend(a3, b3, '\r', "\\r");
    ReplaceCharAppend(a4, b4, '\t', "\\t");
  }

  lemma ReplaceOne(x: char, c: char, r: string)
    ensures ReplaceChar([x], c, r) == if x == c then r else [x]
  {
    assert [x][1..] == [];
  }

  lemma JsonEscapeOne(c: char)
    ensures JsonEscape([c]) == EscapeChar(c)
  {
    ReplaceOne(c, '\\', "\\\\");
    var s1 := ReplaceChar([c], '\\', "\\\\");
    if c != '\\' {
      ReplaceOne(c, '"', "\\\"");
      var s2 := ReplaceChar(s1, '"', "\\\"");
      if c != '"' {
        ReplaceOne(c, '\n', "\\n");
        var s3 := ReplaceChar(s2, '\n', "\\n");
        if c != '\n' {
          ReplaceOne(c, '\r', "\\r");
          if c != '\r' {
            ReplaceOne(c, '\t', "\\t");
          }
        }
      }
    }
  }

  /** The replacement chain acts character by character: no replacement touches another's output. */
  lemma {:induction false} JsonEscapeIsPerChar(s: string)
    ensures JsonEscape(s) == EscapeEach(s)
  {
    if s != [] {
      assert s == [s[0]] + s[1..];
      JsonEscapeAppend([s[0]], s[1..]);
      JsonEscapeOne(s[0]);
      JsonEscapeIsPerChar(s[1..]);
    }
  }

  /** Reading escapes back, as a JSON parser does inside a string. */
  function JsonUnescape(s: string): string
    decreases |s|
  {
    if s == [] then []
    else if |s| >= 2 && s[0] == '\\' && s[1] in {'\\', '"', 'n', 'r', 't'} then
      [if s[1] == 'n' then '\n' else if s[1] == 'r' then '\r' else if s[1] == 't' then '\t' else s[1]] + JsonUnescape(s[2..])
    else [s[0]] + JsonUnescape(s[1..])
  }

  lemma UnescapeOne(c: char, t: string)
    ensures JsonUnescape(EscapeChar(c) + t) == [c] + JsonUnescape(t)
  {
    var e := EscapeChar(c) + t;
    if |EscapeChar(c)| == 2 {
      assert e[2..] == t;
    } else {
      assert e[1..] == t;
    }
  }

  /** Escaping loses nothing: reading the escapes back gives the original text. */
  lemma {:induction false} JsonRoundTrip(s: string)
    ensures JsonUnescape(JsonEscape(s)) == s
  {
    JsonEscapeIsPerChar(s);
    EscapeEachRoundTrip(s);
  }

  lemma {:induction false} EscapeEachRoundTrip(s: string)
    ensures JsonUnescape(EscapeEach(s)) == s
  {
    if s != [] {
      UnescapeOne(s[0], EscapeEach(s[1..]));
      EscapeEachRoundTrip(s[1..]);
      assert s == [s[0]] + s[1..];
    }
  }

  /**
   * The body of a JSON string (section 7 of RFC 8259): unescaped characters
   * are at least U+0020 and neither '"' nor '\'; escapes are a backslash and
   * one of `"\/bfnrt` (`\u` escapes are never produced here and are not listed).
   */
  predicate JsonStringBody(s: string)
    decreases |s|
  {
    s == [] ||
    (|s| >= 2 && s[0] == '\\' && s[1] in {'"', '\\', '/', 'b', 'f', 'n', 'r', 't'} && JsonStringBody(s[2..])) ||
    (s[0] != '\\' && s[0] != '"' && s[0] >= ' ' && JsonStringBody(s[1..]))
  }

  /** The control characters the escape handles. */
  predicate OnlyHandledControls(s: string) {
    forall i :: 0 <= i < |s| ==> s[i] >= ' ' || s[i] == '\n' || s[i] == '\r' || s[i] == '\t'
  }

  lemma BodyOne(c: char, t: string)
    requires c >= ' ' || c == '\n' || c == '\r' || c == '\t'
    requires JsonStringBody(t)
    ensures JsonStringBody(EscapeChar(c) + t)
  {
    var e := EscapeChar(c) + t;
    if |EscapeChar(c)| == 2 {
      assert e[2..] == t;
    } else {
      assert e[1..] == t;
    }
  }

  /**
   * Text whose only control characters are newline, carriage return and tab
   * escapes to a well-formed JSON string body.
   */
  lemma {:induction false} JsonEscapeWellFormed(s: string)
    requires OnlyHandledControls(s)
    ensures JsonStringBody(JsonEscape(s))
  {
    JsonEscapeIsPerChar(s);
    EscapeEachWellFormed(s);
  }

  lemma {:induction false} EscapeEachWellFormed(s: string)
    requires OnlyHandledControls(s)
    ensures JsonStringBody(EscapeEach(s))
  {
    if s != [] {
      EscapeEachWellFormed(s[1..]);
      BodyOne(s[0], EscapeEach(s[1..]));
    }
  }

  /** Whatever the text, its escaped form holds no raw newline, carriage return or tab. */
  lemma {:induction false} JsonEscapeNoRawControls(s: string)
    ensures forall i :: 0 <= i < |JsonEscape(s)| ==> JsonEscape(s)[i] !in {'\n', '\r', '\t'}
  {
    JsonEscapeIsPerChar(s);
    EscapeEachNoRawControls(s);
  }

  lemma {:induction false} EscapeEachNoRawControls(s: string)
    ensures forall i :: 0 <= i < |EscapeEach(s)| ==> EscapeEach(s)[i] !in {'\n', '\r', '\t'}
  {
    if s != [] {
      EscapeEachNoRawControls(s[1..]);
      var e := EscapeEach(s);
      forall i | 0 <= i < |e| ensures e[i] !in {'\n', '\r', '\t'} {
        if i >= |EscapeChar(s[0])| {
          assert e[i] == EscapeEach(s[1..])[i - |EscapeChar(s[0])|];
        }
      }
    }
  }

  /** Text without a backslash, a quote, a newline, a carriage return or a tab is left unchanged. */
  lemma {:induction false} JsonEscapeIdentity(s: string)
    requires forall i :: 0 <= i < |s| ==> s[i] !in {'\\', '"', '\n', '\r', '\t'}
    ensures JsonEscape(s) == s
  {
    JsonEscapeIsPerChar(s);
    EscapeEachIdentity(s);
  }

  lemma {:induction false} EscapeEachIdentity(s: string)
    requires forall i :: 0 <= i < |s| ==> s[i] !in {'\\', '"', '\n', '\r', '\t'}
    ensures EscapeEach(s) == s
  {
    if s != [] {
      EscapeEachIdentity(s[1..]);
      assert s == [s[0]] + s[1..];
    }
  }

  /** A control character other than newline, carriage return and tab passes through raw, which JSON forbids. */
  lemma OtherControlsPassThrough()
    ensures JsonEscape("\U{8}") == "\U{8}" && !JsonStringBody(JsonEscape("\U{8}"))
  {
    JsonEscapeOne('\U{8}');
  }

  // ---------------------------------------------------------------------------
  // Fragments

  /** `indent()`: two spaces per level, plus one level for the wrapping object. */
  function Indent(level: nat): (r: string)
    ensures |r| == 2 * (level + 1)
  {
    Spaces(2 * (level + 1))
  }

  /** `formatDirectoryStart`: the root also opens the wrapping object. */
  function DirStart(level: nat, name: string): string {
    if level == 0 then "{\n" + Indent(level) + "\"" + name + "\": {\n"
    else Indent(level) + "\"" + name + "\": {\n"
  }

  /** What `formatDirectoryEnd` returns: the root also closes the wrapping object. */
  function DirEnd(level: nat): string {
    if level == 0 then Indent(level) + "}\n}\n" else Indent(level) + "},\n"
  }

  /** The output rewrite in `formatDirectoryEnd`: one trailing ",\n" becomes "\n". */
  function StripTrailingComma(out: string): (r: string)
    ensures EndsWith(out, ",\n") ==> r == out[..|out| - 2] + "\n"
    ensures !EndsWith(out, ",\n") ==> r == out
  {
    if EndsWith(out, ",\n") then out[..|out| - 2] + "\n" else out
  }

  /** `formatFile`: one member line, always followed by a comma. */
  function FileLine(level: nat, name: string, details: string): string {
    Indent(level) + "\"" + name + "\": \"" + details + "\",\n"
  }
}
