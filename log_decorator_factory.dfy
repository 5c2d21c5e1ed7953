// The log decorator factory: a keyword-based category detector and the
// fixed table that turns a category into a decorator chain.

module LogDecoratorFactory {
  import opened Common
  import opened Strings
  import opened LogEntries

  /** The search event kinds, plus `system`, `command` and `default`. */
  datatype LogCategory = VisitingLog | MatchedLog | CompleteLog | SystemLog | CommandLog | DefaultLog

  datatype DecorateConfig = DecorateConfig(icon: string, colorClass: string, bold: bool)

  /** `DECORATE_MAP` */
  function Config(c: LogCategory): DecorateConfig {
    match c
    case VisitingLog => DecorateConfig("🔍", "dim", false)
    case MatchedLog => DecorateConfig("✅", "green", true)
    case CompleteLog => DecorateConfig("🏁", "cyan", true)
    case SystemLog => DecorateConfig("⚙️", "blue", false)
    case CommandLog => DecorateConfig("⚡", "yellow", false)
    case DefaultLog => DecorateConfig("💬", "default", false)
  }

  predicate ContainsAny(s: string, keys: seq<string>) {
    exists i | 0 <= i < |keys| :: Contains(s, keys[i])
  }

  const MatchedKeys: seq<string> := ["匹配", "MATCH", "✅"]
  const CompleteKeys: seq<string> := ["完成", "🏁"]
  const VisitingKeys: seq<string> := ["進入目錄", "檢查", "🔎"]
  const CommandKeys: seq<string> := ["[Command]", "撤銷", "重做"]
  const SystemKeys: seq<string> := ["[System]", "計算", "匯出"]

  /**
   * `detectLogCategory`: the first group, in the order matched, complete,
   * visiting, command, system, with a keyword in the message; `default` when
   * none has.
   */
  function DetectLogCategory(message: string): (c: LogCategory)
    ensures c == MatchedLog <==> ContainsAny(message, MatchedKeys)
    ensures c == CompleteLog <==> !ContainsAny(message, MatchedKeys) && ContainsAny(message, CompleteKeys)
    ensures c == VisitingLog <==>
      !ContainsAny(message, MatchedKeys) && !ContainsAny(message, CompleteKeys) && ContainsAny(message, VisitingKeys)
    ensures c == CommandLog <==>
      !ContainsAny(message, MatchedKeys) && !ContainsAny(message, CompleteKeys) && !ContainsAny(message, VisitingKeys)
      && ContainsAny(message, CommandKeys)
    ensures c == SystemLog <==>
      !ContainsAny(message, MatchedKeys) && !ContainsAny(message, CompleteKeys) && !ContainsAny(message, VisitingKeys)
      && !ContainsAny(message, CommandKeys) && ContainsAny(message, SystemKeys)
    ensures c == DefaultLog <==>
      !ContainsAny(message, MatchedKeys) && !ContainsAny(message, CompleteKeys) && !ContainsAny(message, VisitingKeys)
      && !ContainsAny(message, CommandKeys) && !ContainsAny(message, SystemKeys)
  {
    AnyOfThree(message, "匹配", "MATCH", "✅");
    AnyOfTwo(message, "完成", "🏁");
    AnyOfThree(message, "進入目錄", "檢查", "🔎");
    AnyOfThree(message, "[Command]", "撤銷", "重做");
    AnyOfThree(message, "[System]", "計算", "匯出");
    if Contains(message, "匹配") || Contains(message, "MATCH") || Contains(message, "✅") then
      MatchedLog
    else if Contains(message, "完成") || Contains(message, "🏁") then
      CompleteLog
    else if Contains(message, "進入目錄") || Contains(message, "檢查") || Contains(message, "🔎") then
      VisitingLog
    else if Contains(message, "[Command]") || Contains(message, "撤銷") || Contains(message, "重做") then
      CommandLog
    else if Contains(message, "[System]") || Contains(message, "計算") || Contains(message, "匯出") then
      SystemLog
    else
      DefaultLog
  }

  lemma AnyOfThree(s: string, a: string, b: string, c: string)
    ensures ContainsAny(s, [a, b, c]) <==> Contains(s, a) || Contains(s, b) || Contains(s, c)
  {
    if Contains(s, a) {
      assert [a, b, c][0] == a;
    } else if Contains(s, b) {
      assert [a, b, c][1] == b;
    } else if Contains(s, c) {
      assert [a, b, c][2] == c;
    }
  }

  lemma AnyOfTwo(s: string, a: string, b: string)
    ensures ContainsAny(s, [a, b]) <==> Contains(s, a) || Contains(s, b)
  {
    if Contains(s, a) {
      assert [a, b][0] == a;
    } else if Contains(s, b) {
      assert [a, b][1] == b;
    }
  }

  /** The table's icons and colour classes carry no markup. */
  lemma ConfigMarkupFree(c: LogCategory)
    ensures '<' !in Config(c).icon && '<' !in Config(c).colorClass
  {
  }

  /** `decorateLogEntry`: Color around the plain entry, then Bold when configured, then Icon outermost. */
  function DecorateLogEntry(message: string, category: Option<LogCategory>): (e: LogEntry)
    ensures Message(e) == message
    ensures var cat := if category.Some? then category.value else DetectLogCategory(message);
      e.Icon? && e.icon == Config(cat).icon
      && (e.wrapped.Bold? <==> cat == MatchedLog || cat == CompleteLog)
      && (if Config(cat).bold then e.wrapped.Bold? && e.wrapped.wrapped == Color(Plain(message), Config(cat).colorClass)
          else e.wrapped == Color(Plain(message), Config(cat).colorClass))
  {
    var cat := if category.Some? then category.value else DetectLogCategory(message);
    var config := Config(cat);
    var colored := Color(Plain(message), config.colorClass);
    assert Message(colored) == message;
    var inner := if config.bold then Bold(colored) else colored;
    Icon(inner, config.icon)
  }

  /** The colour decorator's span around the escaped message, with the category's class. */
  function ColorSpan(message: string, colorClass: string): string {
    "<span class=\"log-" + colorClass + "\">" + EscapeHtml(message) + "</span>"
  }

  /**
   * A decorated entry renders as the icon span, a space, and the colour span
   * holding the escaped message with the category's class, inside `<strong>`
   * exactly when the category is bold; so it holds that colour span and the
   * escaped message, and three tags (icon, bold, colour) exactly when its
   * category is bold: six `<` for matched and complete messages, four for
   * the others.
   */
  lemma DecoratedTags(message: string, category: Option<LogCategory>)
    ensures var cat := if category.Some? then category.value else DetectLogCategory(message);
      var html := Render(DecorateLogEntry(message, category));
      var span := ColorSpan(message, Config(cat).colorClass);
      html == "<span class=\"log-icon\">" + Config(cat).icon + "</span> "
        + (if Config(cat).bold then "<strong>" + span + "</strong>" else span)
      && Contains(html, span)
      && Contains(html, EscapeHtml(message))
      && CountChar(html, '<') == (if cat == MatchedLog || cat == CompleteLog then 6 else 4)
  {
    var e := DecorateLogEntry(message, category);
    RenderKeepsMessage(e);
    var cat := if category.Some? then category.value else DetectLogCategory(message);
    ConfigMarkupFree(cat);
    var colored := Color(Plain(message), Config(cat).colorClass);
    assert Depth(colored) == 1 && MarkupFree(colored);
    var span := ColorSpan(message, Config(cat).colorClass);
    var lead := "<span class=\"log-icon\">" + Config(cat).icon + "</span> ";
    assert Render(colored) == span;
    assert span[0..|span|] == span;
    assert OccursAt(span, span, 0);
    if Config(cat).bold {
      assert e == Icon(Bold(colored), Config(cat).icon);
      ContainsWithin(lead + "<strong>", span, "</strong>", span);
      assert lead + "<strong>" + span + "</strong>" == lead + ("<strong>" + span + "</strong>");
    } else {
      assert e == Icon(colored, Config(cat).icon);
      ContainsWithin(lead, span, "", span);
      assert lead + span + "" == lead + span;
    }
    RenderTags(e);
  }
}
