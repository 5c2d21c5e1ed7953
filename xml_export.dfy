// The XML exporter. Unlike the JSON and Markdown exporters it does not share
// the export skeleton: it keeps its own `xml` buffer and indent level. Names
// become tag names through a sanitizer; a file's details are written as the
// element's text unescaped.

module XmlExport {
  import opened Common
  import opened Strings
  import opened Nodes

  // ---------------------------------------------------------------------------
  // sanitizeTagName

  /** The characters `[a-zA-Z0-9一-鿿_-]` keeps. */
  predicate TagChar(c: char) {
    ('a' <= c <= 'z') || ('A' <= c <= 'Z') || ('0' <= c <= '9') ||
    ('\U{4E00}' <= c <= '\U{9FFF}') || c == '_' || c == '-'
  }

  predicate IsDigit(c: char) {
    '0' <= c <= '9'
  }

  /** No two underscores in a row. */
  predicate NoDoubleUnderscore(s: string)
    decreases |s|
  {
    |s| < 2 || (!(s[0] == '_' && s[1] == '_') && NoDoubleUnderscore(s[1..]))
  }

  /** Dropping the last character keeps the property; a final '_' is not preceded by another. */
  lemma {:induction false} NoDoubleUnderscoreDropLast(s: string)
    requires |s| > 0 && NoDoubleUnderscore(s)
    ensures NoDoubleUnderscore(s[..|s| - 1])
    ensures |s| >= 2 && s[|s| - 1] == '_' ==> s[|s| - 2] != '_'
    decreases |s|
  {
    if |s| > 2 {
      NoDoubleUnderscoreDropLast(s[1..]);
      assert s[..|s| - 1][1..] == s[1..][..|s| - 2];
    }
  }

  predicate AllTagChars(s: string) {
    forall i :: 0 <= i < |s| ==> TagChar(s[i])
  }

  /** What the sanitizer guarantees of a tag name. */
  predicate ValidTagName(s: string) {
    |s| > 0 && AllTagChars(s) && !IsDigit(s[0]) && NoDoubleUnderscore(s) && s[|s| - 1] != '_'
  }

  /** `replace(/[^a-zA-Z0-9一-鿿_-]/g, '_')` */
  function ReplaceIllegal(s: string): string {
    if s == [] then [] else [if TagChar(s[0]) then s[0] else '_'] + ReplaceIllegal(s[1..])
  }

  /** Every character outside the allowed set, and only those, becomes '_'. */
  lemma {:induction false} ReplaceIllegalSpec(s: string)
    ensures |ReplaceIllegal(s)| == |s| && AllTagChars(ReplaceIllegal(s))
    ensures forall i :: 0 <= i < |s| ==> ReplaceIllegal(s)[i] == if TagChar(s[i]) then s[i] else '_'
  {
    if s != [] {
      ReplaceIllegalSpec(s[1..]);
      var r := ReplaceIllegal(s);
      assert forall i :: 1 <= i < |s| ==> r[i] == ReplaceIllegal(s[1..])[i - 1] && s[i] == s[1..][i - 1];
    }
  }

  /** The `_` prefix for a name starting with a digit. */
  function PrefixDigit(s: string): string {
    if |s| > 0 && IsDigit(s[0]) then "_" + s else s
  }

  /** The prefix keeps the allowed characters, never leaves a leading digit, and touches nothing else. */
  lemma PrefixDigitSpec(s: string)
    ensures var r := PrefixDigit(s);
      (|r| > 0 <==> |s| > 0) &&
      (|r| > 0 ==> !IsDigit(r[0])) &&
      (AllTagChars(s) ==> AllTagChars(r)) &&
      (|s| > 0 && !IsDigit(s[0]) ==> r == s)
  {
    if |s| > 0 && IsDigit(s[0]) {
      var r := "_" + s;
      assert forall i :: 1 <= i < |r| ==> r[i] == s[i - 1];
    }
  }

  /** `replace(/_+/g, '_')`: every run of underscores becomes one. */
  function CollapseUnderscores(s: string): string {
    if |s| <= 1 then s
    else
      var rest := CollapseUnderscores(s[1..]);
      if s[0] == '_' && s[1] == '_' then rest else [s[0]] + rest
  }

  /** Collapsing keeps the first character and the allowed characters, leaves no run, and changes a name without runs not at all. */
  lemma {:induction false} CollapseSpec(s: string)
    ensures var r := CollapseUnderscores(s);
      (|s| > 0 ==> |r| > 0 && r[0] == s[0]) &&
      (AllTagChars(s) ==> AllTagChars(r)) &&
      NoDoubleUnderscore(r) &&
      (NoDoubleUnderscore(s) ==> r == s)
  {
    if |s| > 1 {
      CollapseSpec(s[1..]);
      var rest := CollapseUnderscores(s[1..]);
      if !(s[0] == '_' && s[1] == '_') {
        var r := [s[0]] + rest;
        assert r[1..] == rest;
        assert forall i :: 1 <= i < |r| ==> r[i] == rest[i - 1];
        assert forall i :: 1 <= i < |s| ==> s[i] == s[1..][i - 1];
        if NoDoubleUnderscore(s) {
          assert s == [s[0]] + s[1..];
        }
      }
    }
  }

  /** Collapsing keeps the last character. */
  lemma {:induction false} CollapseKeepsLast(s: string)
    requires |s| > 0
    ensures var r := CollapseUnderscores(s); |r| > 0 && r[|r| - 1] == s[|s| - 1]
  {
    if |s| > 1 {
      CollapseKeepsLast(s[1..]);
    }
  }

  /** `replace(/_$/, '')` */
  function DropTrailingUnderscore(s: string): (r: string)
    ensures |s| > 0 && s[|s| - 1] == '_' ==> r == s[..|s| - 1]
    ensures !(|s| > 0 && s[|s| - 1] == '_') ==> r == s
  {
    if |s| > 0 && s[|s| - 1] == '_' then s[..|s| - 1] else s
  }

  /**
   * `sanitizeTagName`: illegal characters become '_', a leading digit gets a
   * '_' prefix, underscore runs collapse, one trailing '_' is dropped, and an
   * empty result becomes "_node".
   */
  function SanitizeTagName(name: string): string {
    var trimmed := DropTrailingUnderscore(CollapseUnderscores(PrefixDigit(ReplaceIllegal(name))));
    if trimmed == "" then "_node" else trimmed
  }

  /** Dropping the one trailing '_' of a collapsed name leaves a valid name, unless nothing is left. */
  lemma TrimmedIsValid(collapsed: string)
    requires AllTagChars(collapsed) && NoDoubleUnderscore(collapsed)
    requires |collapsed| > 0 ==> !IsDigit(collapsed[0])
    ensures var t := DropTrailingUnderscore(collapsed); t == "" || ValidTagName(t)
  {
    var t := DropTrailingUnderscore(collapsed);
    if t != "" && t != collapsed {
      NoDoubleUnderscoreDropLast(collapsed);
      assert forall i :: 0 <= i < |t| ==> t[i] == collapsed[i];
    }
  }

  lemma NodeIsValid()
    ensures ValidTagName("_node")
  {
    assert "_node"[1..] == "node";
    assert "node"[1..] == "ode";
    assert "ode"[1..] == "de";
  }

  /** Whatever the name, the sanitizer's result is a valid tag name. */
  lemma SanitizeIsValid(name: string)
    ensures ValidTagName(SanitizeTagName(name))
  {
    ReplaceIllegalSpec(name);
    var prefixed := PrefixDigit(ReplaceIllegal(name));
    PrefixDigitSpec(ReplaceIllegal(name));
    var collapsed := CollapseUnderscores(prefixed);
    CollapseSpec(prefixed);
    TrimmedIsValid(collapsed);
    NodeIsValid();
  }

  /** A valid tag name passes through unchanged. */
  lemma SanitizeKeepsValid(name: string)
    requires ValidTagName(name)
    ensures SanitizeTagName(name) == name
  {
    ReplaceIllegalSpec(name);
    assert ReplaceIllegal(name) == name;
    PrefixDigitSpec(name);
    CollapseSpec(name);
  }

  /** The sanitizer fixes exactly the valid tag names, so applying it twice changes nothing. */
  lemma SanitizeFixedPoints(name: string)
    ensures SanitizeTagName(name) == name <==> ValidTagName(name)
    ensures SanitizeTagName(SanitizeTagName(name)) == SanitizeTagName(name)
  {
    SanitizeIsValid(name);
    if ValidTagName(name) {
      SanitizeKeepsValid(name);
    }
    SanitizeKeepsValid(SanitizeTagName(name));
  }

  // ---------------------------------------------------------------------------
  // The walk

  function XmlIndent(level: nat): string {
    Spaces(2 * level)
  }

  /** `${indent}<${tag}>\n` */
  function OpenLine(level: nat, tag: string): string {
    XmlIndent(level) + "<" + tag + ">\n"
  }

  /** `${indent}</${tag}>\n` */
  function CloseLine(level: nat, tag: string): string {
    XmlIndent(level) + "</" + tag + ">\n"
  }

  /** `${indent}<${tag}>${content}</${tag}>\n` */
  function ElementLine(level: nat, tag: string, content: string): string {
    XmlIndent(level) + "<" + tag + ">" + content + "</" + tag + ">\n"
  }

  /** `appendNode`: one element holding the details without parentheses. */
  function FileElement(level: nat, n: Node): string {
    ElementLine(level, SanitizeTagName(n.name), RemoveChars(Details(n), {'(', ')'}))
  }

  /** The buffer after visiting `n` at `level`. */
  function XmlNode(out: string, level: nat, n: Node): string
    decreases n, 1
  {
    if n.Dir? then XmlDir(out, level, n) else out + FileElement(level, n)
  }

  function XmlDir(out: string, level: nat, d: Node): string
    requires d.Dir?
    decreases d, 0
  {
    var tag := SanitizeTagName(d.name);
    XmlChildren(out + OpenLine(level, tag), level + 1, d.children) + CloseLine(level, tag)
  }

  function XmlChildren(out: string, level: nat, cs: seq<Node>): string
    decreases cs
  {
    if cs == [] then out else XmlChildren(XmlNode(out, level, cs[0]), level, cs[1..])
  }

  /** Each child's own element, concatenated. */
  function XmlMembers(level: nat, cs: seq<Node>): string {
    if cs == [] then "" else XmlNode("", level, cs[0]) + XmlMembers(level, cs[1..])
  }

  /** Visiting only ever appends to the buffer. */
  lemma {:induction false} XmlAppends(a: string, b: string, level: nat, n: Node)
    ensures XmlNode(a + b, level, n) == a + XmlNode(b, level, n)
    decreases n, 1
  {
    if n.Dir? {
      XmlDirAppends(a, b, level, n);
    } else {
      ConcatAssoc(a, b, FileElement(level, n));
    }
  }

  lemma {:induction false} XmlDirAppends(a: string, b: string, level: nat, d: Node)
    requires d.Dir?
    ensures XmlDir(a + b, level, d) == a + XmlDir(b, level, d)
    decreases d, 0
  {
    var tag := SanitizeTagName(d.name);
    var open := OpenLine(level, tag);
    ConcatAssoc(a, b, open);
    XmlChildrenAppends(a, b + open, level + 1, d.children);
    ConcatAssoc(a, XmlChildren(b + open, level + 1, d.children), CloseLine(level, tag));
  }

  lemma {:induction false} XmlChildrenAppends(a: string, b: string, level: nat, cs: seq<Node>)
    ensures XmlChildren(a + b, level, cs) == a + XmlChildren(b, level, cs)
    decreases cs
  {
    if cs != [] {
      XmlAppends(a, b, level, cs[0]);
      XmlChildrenAppends(a, XmlNode(b, level, cs[0]), level, cs[1..]);
    }
  }

  lemma {:induction false} XmlChildrenAreMembers(out: string, level: nat, cs: seq<Node>)
    ensures XmlChildren(out, level, cs) == out + XmlMembers(level, cs)
    decreases cs
  {
    if cs != [] {
      var first := XmlNode("", level, cs[0]);
      var rest := XmlMembers(level, cs[1..]);
      assert out + "" == out;
      XmlAppends(out, "", level, cs[0]);
      XmlChildrenAreMembers(out + first, level, cs[1..]);
      ConcatAssoc(out, first, rest);
    }
  }

  /**
   * A directory is an opening tag line, its children's elements in order one
   * level deeper, and a closing tag line with the same name at the same indent.
   */
  lemma XmlDirShape(level: nat, d: Node)
    requires d.Dir?
    ensures XmlDir("", level, d) ==
      OpenLine(level, SanitizeTagName(d.name)) + XmlMembers(level + 1, d.children) + CloseLine(level, SanitizeTagName(d.name))
  {
    var open := OpenLine(level, SanitizeTagName(d.name));
    assert "" + open == open;
    XmlChildrenAreMembers(open, level + 1, d.children);
  }

  // ---------------------------------------------------------------------------
  // The visitor object

  class XmlExportVisitor {
    var xml: string
    var indentLevel: nat

    constructor()
      ensures xml == "" && indentLevel == 0
    {
      xml := "";
      indentLevel := 0;
    }

    /** `getResult` */
    function GetResult(): string
      reads this
    {
      xml
    }

    /** `node.accept(this)` */
    method Visit(n: Node)
      modifies this
      decreases n, 1
      ensures xml == XmlNode(old(xml), old(indentLevel), n)
      ensures indentLevel == old(indentLevel)
    {
      if n.Dir? {
        VisitDirectory(n);
      } else {
        AppendNode(n);
      }
    }

    /** `visitDirectory` */
    method VisitDirectory(d: Node)
      requires d.Dir?
      modifies this
      decreases d, 0
      ensures xml == XmlDir(old(xml), old(indentLevel), d)
      ensures indentLevel == old(indentLevel)
    {
      var tagName := SanitizeTagName(d.name);
      WriteElement(d, tagName);
    }

    /** The directory's element under a sanitized tag: opening line, children one level deeper, closing line. */
    method WriteElement(d: Node, tagName: string)
      requires d.Dir?
      modifies this
      decreases d, 0, 1
      ensures xml == XmlChildren(old(xml) + OpenLine(old(indentLevel), tagName), old(indentLevel) + 1, d.children) +
        CloseLine(old(indentLevel), tagName)
      ensures indentLevel == old(indentLevel)
    {
      var level := indentLevel;
      xml := xml + OpenLine(level, tagName);
      indentLevel := level + 1;
      VisitChildren(d, d.children);
      indentLevel := level;
      xml := xml + CloseLine(level, tagName);
    }

    /** The `forEach` over a directory's children. */
    method VisitChildren(ghost d: Node, cs: seq<Node>)
      requires d.Dir? && cs == d.children
      modifies this
      decreases d, 0, 0
      ensures xml == XmlChildren(old(xml), old(indentLevel), cs)
      ensures indentLevel == old(indentLevel)
    {
      for i := 0 to |cs|
        invariant indentLevel == old(indentLevel)
        invariant XmlChildren(xml, indentLevel, cs[i..]) == XmlChildren(old(xml), indentLevel, cs)
      {
        assert cs[i] in d.children;
        assert cs[i..][1..] == cs[i + 1..];
        Visit(cs[i]);
      }
    }

    /** `visit*File` through `appendNode`. */
    method AppendNode(n: Node)
      requires !n.Dir?
      modifies this
      ensures xml == XmlNode(old(xml), old(indentLevel), n)
      ensures indentLevel == old(indentLevel)
    {
      var tagName := SanitizeTagName(n.name);
      var content := RemoveChars(Details(n), {'(', ')'});
      xml := xml + ElementLine(indentLevel, tagName, content);
    }
  }
}
