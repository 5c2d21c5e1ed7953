// The export skeleton shared by the JSON and Markdown exporters (a template
// method over `escape`, `indent`, `formatDirectoryStart/End` and
// `formatFile`). The visitor appends to `output` while walking; the JSON
// directory end first rewrites `output` in place, dropping the comma after
// the last member. The "is last child" flag the source writes onto each
// child object is passed here as a parameter of the visit.

module BaseExport {
  import opened Common
  import opened Strings
  import opened Nodes
  import JsonExport
  import MarkdownExport

  datatype ExportFormat = Json | Markdown

  function Escape(fmt: ExportFormat, s: string): string {
    match fmt
    case Json => JsonExport.JsonEscape(s)
    case Markdown => MarkdownExport.MarkdownEscape(s)
  }

  /** The details shown for a file: `getDetails()` without its parentheses, escaped. */
  function FileDetails(fmt: ExportFormat, n: Node): string {
    Escape(fmt, RemoveChars(Details(n), {'(', ')'}))
  }

  function DirStart(fmt: ExportFormat, level: nat, name: string): (r: string)
    ensures |r| >= 2
  {
    match fmt
    case Json => JsonExport.DirStart(level, name)
    case Markdown => MarkdownExport.DirStart(level, name)
  }

  /** What `formatDirectoryEnd` returns. */
  function DirEnd(fmt: ExportFormat, level: nat): string {
    match fmt
    case Json => JsonExport.DirEnd(level)
    case Markdown => MarkdownExport.DirEnd
  }

  /** How `formatDirectoryEnd` rewrites the output before its result is appended. */
  function DirEndRewrite(fmt: ExportFormat, out: string): string {
    match fmt
    case Json => JsonExport.StripTrailingComma(out)
    case Markdown => out
  }

  /** `formatFile`; neither format uses the last-child flag. */
  function FileLine(fmt: ExportFormat, level: nat, name: string, details: string, isLast: bool): string {
    match fmt
    case Json => JsonExport.FileLine(level, name, details)
    case Markdown => MarkdownExport.FileLine(level, name, details)
  }

  // ---------------------------------------------------------------------------
  // The walk, as a function from the output so far to the output after it

  /** The output after visiting `n` at `level`; `isLast` is the flag set by the parent, if any. */
  function ExportNode(fmt: ExportFormat, out: string, level: nat, n: Node, isLast: Option<bool>): string
    decreases n, 1
  {
    if n.Dir? then ExportDir(fmt, out, level, n)
    else out + FileLine(fmt, level, Escape(fmt, n.name), FileDetails(fmt, n), if isLast.Some? then isLast.value else true)
  }

  function ExportDir(fmt: ExportFormat, out: string, level: nat, d: Node): string
    requires d.Dir?
    decreases d, 0
  {
    var inner := ExportChildren(fmt, out + DirStart(fmt, level, Escape(fmt, d.name)), level + 1, d.children);
    DirEndRewrite(fmt, inner) + DirEnd(fmt, level)
  }

  /** The children in order, each flagged last exactly when it is the final one. */
  function ExportChildren(fmt: ExportFormat, out: string, level: nat, cs: seq<Node>): string
    decreases cs
  {
    if cs == [] then out
    else ExportChildren(fmt, ExportNode(fmt, out, level, cs[0], Some(|cs| == 1)), level, cs[1..])
  }

  /** Each child's own export text, concatenated. */
  function MembersText(fmt: ExportFormat, level: nat, cs: seq<Node>): string {
    if cs == [] then ""
    else ExportNode(fmt, "", level, cs[0], Some(|cs| == 1)) + MembersText(fmt, level, cs[1..])
  }

  lemma StripShift(a: string, b: string)
    requires |b| >= 2
    ensures JsonExport.StripTrailingComma(a + b) == a + JsonExport.StripTrailingComma(b)
  {
    assert (a + b)[|a + b| - 2..] == b[|b| - 2..];
    if EndsWith(b, ",\n") {
      assert (a + b)[..|a + b| - 2] == a + b[..|b| - 2];
    }
  }

  /**
   * Visiting never rewrites what was output before the visit: the export of
   * a node after any text is that text followed by the node's own export.
   */
  lemma {:induction false} ExportAppends(fmt: ExportFormat, a: string, b: string, level: nat, n: Node, isLast: Option<bool>)
    ensures ExportNode(fmt, a + b, level, n, isLast) == a + ExportNode(fmt, b, level, n, isLast)
    decreases n, 1
  {
    if n.Dir? {
      ExportDirAppends(fmt, a, b, level, n);
    } else {
      assert a + b + FileLine(fmt, level, Escape(fmt, n.name), FileDetails(fmt, n), if isLast.Some? then isLast.value else true)
        == a + (b + FileLine(fmt, level, Escape(fmt, n.name), FileDetails(fmt, n), if isLast.Some? then isLast.value else true));
    }
  }

  lemma {:induction false} ExportDirAppends(fmt: ExportFormat, a: string, b: string, level: nat, d: Node)
    requires d.Dir?
    ensures ExportDir(fmt, a + b, level, d) == a + ExportDir(fmt, b, level, d)
    decreases d, 0
  {
    var start := DirStart(fmt, level, Escape(fmt, d.name));
    var inner := ExportChildren(fmt, b + start, level + 1, d.children);
    var outer := ExportChildren(fmt, a + b + start, level + 1, d.children);
    ExportDirUnfold(fmt, b, level, d, b + start, inner);
    ExportDirUnfold(fmt, a + b, level, d, a + b + start, outer);
    assert a + b + start == a + (b + start);
    ExportChildrenAppends(fmt, a, b + start, level + 1, d.children);
    assert outer == a + inner;
    ChildrenKeepOutput(fmt, b + start, level + 1, d.children);
    RewriteShift(fmt, a, inner);
    ConcatAssoc(a, DirEndRewrite(fmt, inner), DirEnd(fmt, level));
  }

  /** The steps of a directory's export: its start, its children one level deeper, the rewritten end. */
  lemma ExportDirUnfold(fmt: ExportFormat, out: string, level: nat, d: Node, started: string, inner: string)
    requires d.Dir?
    requires started == out + DirStart(fmt, level, Escape(fmt, d.name))
    requires inner == ExportChildren(fmt, started, level + 1, d.children)
    ensures ExportDir(fmt, out, level, d) == DirEndRewrite(fmt, inner) + DirEnd(fmt, level)
  {
  }

  /** The children's export only extends what was output before. */
  lemma ChildrenKeepOutput(fmt: ExportFormat, out: string, level: nat, cs: seq<Node>)
    ensures |ExportChildren(fmt, out, level, cs)| >= |out|
    decreases cs, 1
  {
    ExportChildrenAppends(fmt, out, "", level, cs);
    assert out + "" == out;
  }

  /** Rewriting the end of a long enough output leaves text before it alone. */
  lemma RewriteShift(fmt: ExportFormat, a: string, inner: string)
    requires |inner| >= 2
    ensures DirEndRewrite(fmt, a + inner) == a + DirEndRewrite(fmt, inner)
  {
    if fmt == Json {
      StripShift(a, inner);
    }
  }

  lemma {:induction false} ExportChildrenAppends(fmt: ExportFormat, a: string, b: string, level: nat, cs: seq<Node>)
    ensures ExportChildren(fmt, a + b, level, cs) == a + ExportChildren(fmt, b, level, cs)
    decreases cs, 0
  {
    if cs != [] {
      ExportAppends(fmt, a, b, level, cs[0], Some(|cs| == 1));
      ExportChildrenAppends(fmt, a, ExportNode(fmt, b, level, cs[0], Some(|cs| == 1)), level, cs[1..]);
    }
  }

  /** The children's export is each child's own export, in order, each flagged last iff it is the final child. */
  lemma {:induction false} ChildrenAreMembers(fmt: ExportFormat, out: string, level: nat, cs: seq<Node>)
    ensures ExportChildren(fmt, out, level, cs) == out + MembersText(fmt, level, cs)
    decreases cs
  {
    if cs != [] {
      var first := ExportNode(fmt, "", level, cs[0], Some(|cs| == 1));
      var rest := MembersText(fmt, level, cs[1..]);
      assert out + "" == out;
      ExportAppends(fmt, out, "", level, cs[0], Some(|cs| == 1));
      assert ExportNode(fmt, out, level, cs[0], Some(|cs| == 1)) == out + first;
      ChildrenAreMembers(fmt, out + first, level, cs[1..]);
      assert ExportChildren(fmt, out, level, cs) == ExportChildren(fmt, out + first, level, cs[1..]);
      assert MembersText(fmt, level, cs) == first + rest;
      ConcatAssoc(out, first, rest);
    }
  }

  // ---------------------------------------------------------------------------
  // JSON: the comma after the last member is dropped, and only that one

  /** A JSON member's last line: `"...",` for a file, `},` for a directory. */
  predicate EndsMember(t: string) {
    |t| >= 3 && (t[|t| - 3..] == "\",\n" || t[|t| - 3..] == "},\n")
  }

  lemma EndsMemberAppend(a: string, b: string)
    requires EndsMember(b)
    ensures EndsMember(a + b)
  {
    assert (a + b)[|a + b| - 3..] == b[|b| - 3..];
  }

  lemma JsonFileLineEndsMember(level: nat, name: string, details: string)
    ensures EndsMember(JsonExport.FileLine(level, name, details))
  {
    var head := JsonExport.Indent(level) + "\"" + name + "\": \"" + details;
    assert JsonExport.FileLine(level, name, details) == head + "\",\n";
    EndsMemberAppend(head, "\",\n");
  }

  lemma JsonDirEndEndsMember(level: nat)
    requires level >= 1
    ensures EndsMember(JsonExport.DirEnd(level))
  {
    EndsMemberAppend(JsonExport.Indent(level), "},\n");
  }

  /** Below the root, every JSON member ends with a comma. */
  lemma JsonMemberEndsWithComma(level: nat, n: Node, isLast: Option<bool>)
    requires level >= 1
    ensures EndsMember(ExportNode(Json, "", level, n, isLast))
  {
    if n.Dir? {
      var inner := ExportChildren(Json, "" + DirStart(Json, level, Escape(Json, n.name)), level + 1, n.children);
      assert ExportNode(Json, "", level, n, isLast) == DirEndRewrite(Json, inner) + JsonExport.DirEnd(level);
      JsonDirEndEndsMember(level);
      EndsMemberAppend(DirEndRewrite(Json, inner), JsonExport.DirEnd(level));
    } else {
      var line := JsonExport.FileLine(level, Escape(Json, n.name), FileDetails(Json, n));
      assert ExportNode(Json, "", level, n, isLast) == "" + line;
      JsonFileLineEndsMember(level, Escape(Json, n.name), FileDetails(Json, n));
    }
  }

  lemma {:induction false} MembersEndWithComma(level: nat, cs: seq<Node>)
    requires level >= 1 && cs != []
    ensures EndsMember(MembersText(Json, level, cs))
  {
    var first := ExportNode(Json, "", level, cs[0], Some(|cs| == 1));
    var rest := MembersText(Json, level, cs[1..]);
    assert MembersText(Json, level, cs) == first + rest;
    if cs[1..] != [] {
      MembersEndWithComma(level, cs[1..]);
      EndsMemberAppend(first, rest);
    } else {
      JsonMemberEndsWithComma(level, cs[0], Some(|cs| == 1));
      assert first + rest == first;
    }
  }

  /** The members' text is empty for no children and otherwise ends in a member's comma. */
  lemma MembersShape(level: nat, cs: seq<Node>)
    requires level >= 1
    ensures cs == [] ==> MembersText(Json, level, cs) == ""
    ensures cs != [] ==> EndsMember(MembersText(Json, level, cs))
  {
    if cs != [] {
      MembersEndWithComma(level, cs);
    }
  }

  /** A JSON directory's opening line ends with its brace. */
  lemma JsonDirStartEndsWithBrace(level: nat, name: string)
    ensures EndsWith(JsonExport.DirStart(level, name), "{\n")
  {
    var start := JsonExport.DirStart(level, name);
    var head := if level == 0 then "{\n" + JsonExport.Indent(level) + "\"" + name
                else JsonExport.Indent(level) + "\"" + name;
    assert start == head + "\": {\n";
    assert start[|start| - 2..] == "\": {\n"[3..];
  }

  /**
   * A JSON directory is its opening line(s), its members verbatim in order
   * with the final comma turned into a line break, and its closing line; so
   * no member list ends with a trailing comma.
   */
  lemma JsonDirShape(level: nat, d: Node)
    requires d.Dir?
    ensures d.children != [] ==> EndsMember(MembersText(Json, level + 1, d.children))
    ensures var start := DirStart(Json, level, Escape(Json, d.name));
      var m := MembersText(Json, level + 1, d.children);
      ExportDir(Json, "", level, d) ==
        start + (if d.children == [] then "" else m[..|m| - 2] + "\n") + DirEnd(Json, level)
    ensures StartsWith(ExportDir(Json, "", level, d), DirStart(Json, level, Escape(Json, d.name)))
    ensures EndsWith(ExportDir(Json, "", level, d), DirEnd(Json, level))
  {
    var start := DirStart(Json, level, Escape(Json, d.name));
    var m := MembersText(Json, level + 1, d.children);
    JsonDirUnfold(level, d, start, m);
    JsonDirStartEndsWithBrace(level, Escape(Json, d.name));
    MembersShape(level + 1, d.children);
    BodyShape(start, m, DirEnd(Json, level), ExportDir(Json, "", level, d), d.children == []);
  }

  /** A JSON directory's export: its start and its members' text, rewritten, then its end. */
  lemma JsonDirUnfold(level: nat, d: Node, start: string, m: string)
    requires d.Dir?
    requires start == DirStart(Json, level, Escape(Json, d.name))
    requires m == MembersText(Json, level + 1, d.children)
    ensures ExportDir(Json, "", level, d) == JsonExport.StripTrailingComma(start + m) + DirEnd(Json, level)
  {
    ChildrenAreMembers(Json, "" + start, level + 1, d.children);
    assert "" + start == start;
    ExportDirUnfold(Json, "", level, d, start, ExportChildren(Json, start, level + 1, d.children));
  }

  /**
   * The rewrite of a directory's text: with no members it finds no comma after
   * the opening brace; otherwise it turns the last member's comma into a line break.
   */
  lemma BodyShape(start: string, m: string, close: string, r: string, empty: bool)
    requires EndsWith(start, "{\n")
    requires empty ==> m == ""
    requires !empty ==> EndsMember(m)
    requires r == JsonExport.StripTrailingComma(start + m) + close
    ensures !empty ==> |m| >= 2
    ensures r == start + (if empty then "" else m[..|m| - 2] + "\n") + close
    ensures StartsWith(r, start) && EndsWith(r, close)
  {
    if empty {
      EmptyBody(start, m, close, r);
    } else {
      MembersBody(start, m, close, r);
    }
  }

  /** No members: the rewrite finds no comma after the opening brace. */
  lemma EmptyBody(start: string, m: string, close: string, r: string)
    requires m == "" && EndsWith(start, "{\n")
    requires r == JsonExport.StripTrailingComma(start + m) + close
    ensures r == start + "" + close
    ensures StartsWith(r, start) && EndsWith(r, close)
  {
    assert start + m == start;
    assert start[|start| - 2] == '{';
    Framed(r, start, "", close);
  }

  /** Members: the rewrite turns the last member's comma into a line break. */
  lemma MembersBody(start: string, m: string, close: string, r: string)
    requires EndsMember(m)
    requires r == JsonExport.StripTrailingComma(start + m) + close
    ensures |m| >= 2 && r == start + (m[..|m| - 2] + "\n") + close
    ensures StartsWith(r, start) && EndsWith(r, close)
  {
    assert m[|m| - 2..] == m[|m| - 3..][1..];
    assert EndsWith(m, ",\n");
    StripShift(start, m);
    ConcatAssoc(start, m[..|m| - 2], "\n");
    Framed(r, start, m[..|m| - 2] + "\n", close);
  }

  /** The JSON export of a directory opens with its start line and closes with its end line. */
  lemma JsonFramed(d: Node)
    requires d.Dir?
    ensures var r := ExportNode(Json, "", 0, d, None);
      StartsWith(r, DirStart(Json, 0, Escape(Json, d.name))) && EndsWith(r, DirEnd(Json, 0))
  {
    JsonDirShape(0, d);
  }

  lemma Framed(r: string, open: string, middle: string, close: string)
    requires r == open + middle + close
    ensures StartsWith(r, open) && EndsWith(r, close)
  {
    assert r[..|open|] == open;
    assert r[|r| - |close|..] == close;
  }

  /** A Markdown directory is its heading, its members verbatim in order, and a blank line. */
  lemma MarkdownDirShape(level: nat, d: Node)
    requires d.Dir?
    ensures ExportDir(Markdown, "", level, d) ==
      DirStart(Markdown, level, Escape(Markdown, d.name)) + MembersText(Markdown, level + 1, d.children) + "\n"
  {
    var start := DirStart(Markdown, level, Escape(Markdown, d.name));
    ChildrenAreMembers(Markdown, "" + start, level + 1, d.children);
    assert "" + start == start;
  }

  // ---------------------------------------------------------------------------
  // The visitor object

  class BaseExportVisitor {
    const format: ExportFormat
    var output: string
    var indentLevel: nat

    constructor(format: ExportFormat)
      ensures this.format == format && output == "" && indentLevel == 0
    {
      this.format := format;
      output := "";
      indentLevel := 0;
    }

    /** `getResult` */
    function GetResult(): string
      reads this
    {
      output
    }

    /** `reset`: the visitor can be reused from a clean state. */
    method Reset()
      modifies this
      ensures output == "" && indentLevel == 0
    {
      output := "";
      indentLevel := 0;
    }

    /** `node.accept(this)`, the parent having set the last-child flag or not. */
    method Visit(n: Node, isLast: Option<bool>)
      modifies this
      decreases n, 1
      ensures output == ExportNode(format, old(output), old(indentLevel), n, isLast)
      ensures indentLevel == old(indentLevel)
    {
      if n.Dir? {
        VisitDirectory(n);
      } else {
        VisitFile(n, isLast);
      }
    }

    /** `visitDirectory`: start, children one level deeper, then end; the level is restored. */
    method VisitDirectory(d: Node)
      requires d.Dir?
      modifies this
      decreases d, 0
      ensures output == ExportDir(format, old(output), old(indentLevel), d)
      ensures indentLevel == old(indentLevel)
    {
      ghost var before := output;
      var level := indentLevel;
      var escapedName := Escape(format, d.name);
      output := output + DirStart(format, level, escapedName);
      ghost var started := output;
      indentLevel := level + 1;
      VisitChildren(d, d.children);
      indentLevel := level;
      ghost var inner := output;
      var endStr := FormatDirectoryEnd();
      output := output + endStr;
      ExportDirUnfold(format, before, level, d, started, inner);
    }

    /** The `forEach` over a directory's children, flagging the final one. */
    method VisitChildren(ghost d: Node, cs: seq<Node>)
      requires d.Dir? && cs == d.children
      modifies this
      decreases d, 0, 0
      ensures output == ExportChildren(format, old(output), old(indentLevel), cs)
      ensures indentLevel == old(indentLevel)
    {
      for i := 0 to |cs|
        invariant indentLevel == old(indentLevel)
        invariant ExportChildren(format, output, indentLevel, cs[i..]) == ExportChildren(format, old(output), indentLevel, cs)
      {
        assert cs[i] in d.children;
        assert cs[i..][1..] == cs[i + 1..];
        Visit(cs[i], Some(i == |cs| - 1));
      }
    }

    /** `formatDirectoryEnd`: may rewrite `output` (JSON drops a trailing comma) and returns the closing text. */
    method FormatDirectoryEnd() returns (endStr: string)
      modifies this
      ensures output == DirEndRewrite(format, old(output)) && endStr == DirEnd(format, indentLevel)
      ensures indentLevel == old(indentLevel)
    {
      if format == Json {
        output := JsonExport.StripTrailingComma(output);
      }
      endStr := DirEnd(format, indentLevel);
    }

    /** `visit*File`: one line; a file with no flag from a parent counts as the last child. */
    method VisitFile(n: Node, isLast: Option<bool>)
      requires !n.Dir?
      modifies this
      ensures output == ExportNode(format, old(output), old(indentLevel), n, isLast)
      ensures indentLevel == old(indentLevel)
    {
      var last := if isLast.Some? then isLast.value else true;
      output := output + FileLine(format, indentLevel, Escape(format, n.name), FileDetails(format, n), last);
    }
  }
}
