// The Markdown flavour of the export skeleton: backslash escapes for the
// characters Markdown gives a meaning to (section 2.4 of CommonMark),
// headings whose depth follows the directory level, and list items for files.

module MarkdownExport {
  import opened Strings

  // ---------------------------------------------------------------------------
  // Escaping

  /** The characters `escape` puts a backslash before: # * _ [ ] ( ) \ | ` ~ > */
  predicate Special(c: char) {
    c in {'#', '*', '_', '[', ']', '(', ')', '\\', '|', '`', '~', '>'}
  }

  /** `text.replace(/([#*_\[\]()\\|`~>])/g, '\\$1')` */
  function MarkdownEscape(s: string): string
  {
    if s == [] then []
    else (if Special(s[0]) then ['\\', s[0]] else [s[0]]) + MarkdownEscape(s[1..])
  }

  /** How a CommonMark reader takes a backslash escape back to the literal character. */
  function MarkdownUnescape(s: string): string
    decreases |s|
  {
    if s == [] then []
    else if |s| >= 2 && s[0] == '\\' && Special(s[1]) then [s[1]] + MarkdownUnescape(s[2..])
    else [s[0]] + MarkdownUnescape(s[1..])
  }

  /** Reading the escaped text gives back the original text. */
  lemma {:induction false} MarkdownRoundTrip(s: string)
    ensures MarkdownUnescape(MarkdownEscape(s)) == s
  {
    if s != [] {
      var rest := MarkdownEscape(s[1..]);
      var e := MarkdownEscape(s);
      if Special(s[0]) {
        assert e == ['\\', s[0]] + rest;
        assert e[2..] == rest;
      } else {
        assert e == [s[0]] + rest;
        assert e[1..] == rest;
      }
      MarkdownRoundTrip(s[1..]);
      assert s == [s[0]] + s[1..];
    }
  }

  /** Every special character other than the backslash is preceded by a backslash. */
  predicate SpecialsEscaped(e: string) {
    forall i :: 0 <= i < |e| && Special(e[i]) && e[i] != '\\' ==> 0 < i && e[i - 1] == '\\'
  }

  /** In the escaped text every special character is preceded by a backslash: it reads as a literal, not as syntax. */
  lemma {:induction false} MarkdownEscapedSpecials(s: string)
    ensures SpecialsEscaped(MarkdownEscape(s))
  {
    if s != [] {
      MarkdownEscapedSpecials(s[1..]);
      var rest := MarkdownEscape(s[1..]);
      var head := if Special(s[0]) then ['\\', s[0]] else [s[0]];
      var e := MarkdownEscape(s);
      assert e == head + rest;
      forall i | 0 <= i < |e| && Special(e[i]) && e[i] != '\\' ensures 0 < i && e[i - 1] == '\\' {
        if i >= |head| {
          var j := i - |head|;
          assert e[i] == rest[j];
          if j > 0 {
            assert e[i - 1] == rest[j - 1];
          } else {
            assert false;
          }
        }
      }
    }
  }

  // ---------------------------------------------------------------------------
  // Fragments

  /** `indent()`: two spaces per level below the first; headings carry the depth. */
  function Indent(level: nat): (r: string)
    ensures |r| == if level == 0 then 0 else 2 * (level - 1)
  {
    Spaces(if level == 0 then 0 else 2 * (level - 1))
  }

  /** The heading depth: one more than the level, at most six. */
  function HeadingDepth(level: nat): (d: nat)
    ensures 1 <= d <= 6
    ensures level < 6 ==> d == level + 1
  {
    if level + 1 < 6 then level + 1 else 6
  }

  /** `formatDirectoryStart`: a heading line and a blank line. */
  function DirStart(level: nat, name: string): (r: string)
    ensures StartsWith(r, RepeatChar('#', HeadingDepth(level)) + " 📂 ")
  {
    var prefix := RepeatChar('#', HeadingDepth(level)) + " 📂 ";
    assert (prefix + name + "\n\n")[..|prefix|] == prefix;
    prefix + name + "\n\n"
  }

  /** `formatDirectoryEnd`: a blank line. */
  const DirEnd: string := "\n"

  /** `formatFile`: a list item with the name in bold. */
  function FileLine(level: nat, name: string, details: string): string {
    Indent(level) + "- **" + name + "** — " + details + "\n"
  }
}
