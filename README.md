# A verified model of the XD document-tree core

This project models, in Dafny, the core of an Angular demo of design patterns built around a
file tree. The model covers these parts:

- **Composite nodes.** A directory holds an ordered list of children. There are three leaf kinds:
  Word, image and plain-text files. Every node has a unique id, a name and an insertion-ordered
  tag set.
- **Visitors.** An XML exporter, and the template-method JSON and Markdown exporters. An extension
  search publishes visit and match events.
- **Sort strategies.** By name, size, extension and tag, each ascending or descending.
- **Commands and their history.** Copy, paste, delete, tag, sort and restore-sort commands run
  under an undo/redo history.
- **Shared objects and services.** The tag mediator, the label flyweight, the clipboard, the
  search observers, the log-entry decorators with their factory, the view-state service, and the
  file-system and facade services.

Nodes are values (`Nodes.Node`). Node identity, which the program gets from object references, is
the node's id. The id allocator hands out increasing ids, so ids are unique. Objects whose fields
the program updates in place are Dafny classes with `modifies` frames. These are the tree holder,
the clipboard, the history, the mediator, the label pool, the visitors, the observers and the
services. Each of their methods is tied to a pure function of the old state, and the properties
(round trips, undo after execute, sortedness, escaping, counts) are proved as lemmas about those
functions.

The file `common.dfy` holds an insertion-ordered set that stands for JavaScript's `Set`. The file
`strings.dfy` holds the string helpers: decimal printing, `toFixed`, `repeat`, `replace` with a
regular expression of one character, and a code-point order that stands for `localeCompare`.

## Model

| member | source | states |
|---|---|---|
| Common.SetAdd | src/app/models/structural/directory.model.ts:56 | `Set.add`: the result holds exactly the old elements and the new one; a present element leaves the set unchanged, an absent one is appended last |
| Common.SetDelete | src/app/models/behavioral/tag.command.ts:43 | `Set.delete`: the result holds exactly the old elements other than the deleted one, one fewer when it was present, unchanged when absent |
| Common.AddThenDelete | src/app/models/behavioral/tag.command.ts:37-56 | adding an absent tag and deleting it again restores the set, order included |
| Strings.StrCompareAntisymmetric | src/app/strategies/sort-by-name.strategy.ts:18 | the string order standing for `localeCompare` flips sign when its arguments are swapped |
| Strings.StrCompareTransitive | src/app/strategies/sort-by-name.strategy.ts:18 | the string order is transitive |
| Strings.EmptyIsLeast | src/app/strategies/sort-by-extension.strategy.ts:27 | the empty extension of a directory precedes every other string |
| Strings.RemoveCharsSpec | src/app/models/behavioral/base-export.visitor.ts:107 | `replace(/[()]/g, '')` keeps a character exactly when it was there and is not a parenthesis; text without parentheses is kept whole |
| Strings.FixedText | src/app/models/structural/format-size.util.ts:14 | `toFixed(d)`: the integer nearest to abs(x)·10^d, a tie rounded up, zero-padded to d+1 digits with a point before the last d, and a leading `-` for a negative x |
| Strings.NumberText | src/app/models/structural/image-file.model.ts:26 | `${x}` for a size: integers exactly, other values by their decimal expansion of at most 15 fraction digits |
| Strings.StrCompare | src/app/strategies/sort-by-name.strategy.ts:18 | the sign of `localeCompare`, taken as code-point order: the first differing character decides, and a proper prefix comes first |
| Strings.ReplaceChar | src/app/models/behavioral/json-export.visitor.ts:23 | `s.replace(/c/g, r)` for one character: each occurrence of `c` becomes `r` |
| Strings.RemoveChars | src/app/models/behavioral/base-export.visitor.ts:107 | `s.replace(/[...]/g, '')`: every character of the set removed |
| SizeFormat.SuffixIsUnit | src/app/models/structural/format-size.util.ts:11-25 | the output ends in the suffix of the unit chosen, and in no other unit's suffix |
| SizeFormat.BelowOneMegabyte | src/app/models/structural/format-size.util.ts:12-15 | below 1024 KB the size is printed in KB as given |
| SizeFormat.MegabyteRange | src/app/models/structural/format-size.util.ts:17-21 | from 1024 KB up to 1024 MB the size is printed as sizeKB/1024 followed by MB, a value between 1 and 1024 |
| SizeFormat.GigabyteRange | src/app/models/structural/format-size.util.ts:23-24 | from 1024 MB on the size is printed as sizeKB/1024/1024 followed by GB |
| SizeFormat.UnitMonotone | src/app/models/structural/format-size.util.ts:11-25 | a larger size never gets a smaller unit |
| SizeFormat.IntegerAmountsExact | src/app/models/structural/format-size.util.ts:14-20 | a whole number of KB below 1024 prints as its digits with KB, and that many MB prints as its digits with MB |
| SizeFormat.WholeAmount | src/app/models/structural/format-size.util.ts:14 | an integer amount prints as its decimal digits, with no fraction |
| SizeFormat.Example500 | src/app/models/structural/format-size.util.ts:9 | 500 KB prints as "500KB" |
| SizeFormat.ExampleHalf | src/app/models/structural/format-size.util.ts:14 | 0.5 KB prints as "0.5KB", through `toFixed(1)` |
| SizeFormat.ExampleWholeUnits | src/app/models/structural/format-size.util.ts:9 | 2048 KB prints as "2MB" and 1048576 KB as "1GB" |
| SizeFormat.ExampleOneAndAHalfMegabytes | src/app/models/structural/format-size.util.ts:9 | 1536 KB prints as "1.5MB" |
| SizeFormat.UnitFor | src/app/models/structural/format-size.util.ts:12-23 | the unit `formatSize` picks: KB below 1024 KB, MB while sizeKB/1024 stays below 1024, GB otherwise |
| SizeFormat.Amount | src/app/models/structural/format-size.util.ts:17-23 | the size in that unit: sizeKB, sizeKB/1024, or sizeKB/1024/1024 |
| SizeFormat.AmountText | src/app/models/structural/format-size.util.ts:14 | `Number.isInteger(v) ? `${v}` : v.toFixed(1)`: integers as digits, other values with one fraction digit |
| SizeFormat.FormatSize | src/app/models/structural/format-size.util.ts:11-25 | `formatSize`: the amount text followed by the unit suffix |
| Nodes.TagsArray | src/app/models/structural/file-system-node.model.ts:31-33 | `getTagsArray` lists every tag of the node and no other, each once |
| Nodes.SizeIsLeafTotal | src/app/models/structural/directory.model.ts:45-47 | a node's size is the total of the leaves below it, whatever the nesting, and those leaves are files |
| Nodes.SizeIsLeafTotalOf | src/app/models/structural/directory.model.ts:46 | the `reduce` over children equals the total of all leaves below them |
| Nodes.SumSizesAppend | src/app/models/structural/directory.model.ts:46 | the children's size sum is additive over concatenation |
| Nodes.LeafTotalAppend | src/app/models/structural/directory.model.ts:46 | the leaf total is additive over concatenation |
| Nodes.IndexOf | src/app/models/structural/directory.model.ts:21 | `indexOf`: -1 exactly when no child has the id; otherwise the child there has it and no earlier child does |
| Nodes.Add | src/app/models/structural/directory.model.ts:15-17 | `add`: the old children are kept in order, and the node follows them |
| Nodes.Remove | src/app/models/structural/directory.model.ts:20-26 | `remove`: returns the `indexOf` result; on -1 the children are unchanged, otherwise exactly that child is cut out |
| Nodes.SpliceStart | src/app/models/structural/directory.model.ts:29-31 | where `splice` inserts: an in-range index as given, any index clamped into the list |
| Nodes.InsertAt | src/app/models/structural/directory.model.ts:29-31 | `insertAt` at an in-range index puts the node just there and keeps the rest in order; the list grows by one |
| Nodes.RemoveThenInsert | src/app/models/structural/directory.model.ts:19-31 | inserting a removed child back at the index `remove` returned restores the exact list |
| Nodes.AddThenRemove | src/app/models/structural/directory.model.ts:15-26 | adding a node whose id is absent and removing it by id returns the old list and the last index |
| Nodes.SizeAfterAddRemove | src/app/models/structural/directory.model.ts:15-47 | adding a child grows the directory's size by the child's size; removing a present child shrinks it by that child's size |
| Nodes.SizeKB | src/app/models/structural/directory.model.ts:45-47 | `getSizeKB`: a file's own `sizeKB`, a directory's sum over its children starting from 0 |
| Nodes.FormattedSize | src/app/models/structural/file-system-node.model.ts:45-47 | `getFormattedSize`: `formatSize` of the node's size |
| Nodes.Icon | src/app/models/structural/directory.model.ts:33-35 | `getIcon`: the folder, document, picture or memo icon of each node kind; the file classes return their own icons the same way |
| Nodes.TypeLabel | src/app/models/structural/directory.model.ts:37-39 | `getTypeLabel`: the bracketed kind label of each node kind; the file classes return their own labels the same way |
| Nodes.Details | src/app/models/structural/word-file.model.ts:26-28 | `getDetails`: empty for a directory; pages and formatted size for Word; resolution and raw KB for an image; encoding and raw KB for text |
| SortStrategies.StrategyName | src/app/strategies/sort-by-name.strategy.ts:12-14 | a strategy's `name` ends in the ascending or descending marker matching its direction |
| SortStrategies.LastIndexOf | src/app/strategies/sort-by-extension.strategy.ts:28 | `lastIndexOf('.')`: -1 exactly when there is no dot; otherwise a dot sits there and none after it |
| SortStrategies.Extension | src/app/strategies/sort-by-extension.strategy.ts:26-30 | a directory's extension is empty; otherwise the extension is empty or a suffix of the name that starts at its last dot; a file with a dot has a non-empty one |
| SortStrategies.CompareFlip | src/app/strategies/sort-by-name.strategy.ts:17-20 | every strategy's comparator, ascending or descending, flips sign when its arguments are swapped |
| SortStrategies.BaseCompareFlip | src/app/strategies/sort-by-tag.strategy.ts:17-32 | each ascending comparator (name, size, extension, tag count then first tag) is antisymmetric |
| SortStrategies.Insert | src/app/strategies/sort-by-name.strategy.ts:17 | one insertion step of the sort: the same nodes plus the new one, and the new one or the old head in front |
| SortStrategies.InsertSorted | src/app/strategies/sort-by-name.strategy.ts:17 | inserting into a list in comparator order keeps it in comparator order |
| SortStrategies.ConsSorted | src/app/strategies/sort-by-name.strategy.ts:17 | a node that does not compare above the head of a sorted list can be put in front of it |
| SortStrategies.Sort | src/app/strategies/sort-by-name.strategy.ts:16-21 | `[...nodes].sort(comparator)`: a permutation of the input, with neighbours in comparator order |
| SortStrategies.SortSameNodes | src/app/strategies/sort-by-size.strategy.ts:16-21 | every sorted node comes from the input, and every input node is in the output |
| SortStrategies.InsertKeepsDistinct | src/app/strategies/sort-by-name.strategy.ts:17 | inserting a new node into a list without repeats gives a list without repeats |
| SortStrategies.SortKeepsDistinct | src/app/strategies/sort-by-name.strategy.ts:17 | sorting a list without repeats gives a list without repeats |
| SortStrategies.SortedByName | src/app/strategies/sort-by-name.strategy.ts:16-21 | by name, neighbouring names ascend or descend in the string order |
| SortStrategies.SortedBySize | src/app/strategies/sort-by-size.strategy.ts:16-21 | by size, sizes never decrease (ascending) or never increase (descending) along the output |
| SortStrategies.SizePairOrder | src/app/strategies/sort-by-size.strategy.ts:18-19 | two nodes the size comparator puts in order have sizes in that order |
| SortStrategies.SortedByTag | src/app/strategies/sort-by-tag.strategy.ts:16-33 | by tag, tag counts ascend or descend along the output, and equal counts are ordered by the first tag's name |
| SortStrategies.TagPairOrder | src/app/strategies/sort-by-tag.strategy.ts:18-31 | two nodes the tag comparator puts in order have counts in that order, and on equal counts first tags in that order |
| SortStrategies.KeysPairwise | src/app/strategies/sort-by-extension.strategy.ts:18-23 | keys ordered between neighbours are ordered between any two positions |
| SortStrategies.Extensions | src/app/strategies/sort-by-extension.strategy.ts:19-20 | the extension keys of a list, position by position |
| SortStrategies.SortedExtensionsPairwise | src/app/strategies/sort-by-extension.strategy.ts:17-24 | in a list sorted by extension, any earlier node's extension precedes any later one's (reversed when descending) |
| SortStrategies.ExtensionPairOrder | src/app/strategies/sort-by-extension.strategy.ts:19-22 | two nodes the extension comparator puts in order have extensions in that order |
| SortStrategies.EmptyExtensionsFirst | src/app/strategies/sort-by-extension.strategy.ts:27 | ascending by extension, directories and files without an extension come before every file that has one |
| SortStrategies.EmptyExtensionsLast | src/app/strategies/sort-by-extension.strategy.ts:27 | descending by extension, every file with an extension comes before directories and files without one |
| SortStrategies.FirstTagText | src/app/strategies/sort-by-tag.strategy.ts:28-29 | `getTagsArray()[0] ?? ''`: the name of the first tag in insertion order, or the empty string |
| SortStrategies.BaseCompare | src/app/strategies/sort-by-tag.strategy.ts:17-31 | the ascending comparator of each strategy, as a sign: names or extensions by the string order, sizes numerically, tags by count then first tag |
| SortStrategies.Compare | src/app/strategies/sort-by-name.strategy.ts:17-20 | the comparator passed to `sort`: the ascending one, negated when descending |
| JsonExport.JsonEscapeAppend | src/app/models/behavioral/json-export.visitor.ts:21-28 | the escape chain distributes over concatenation |
| JsonExport.JsonEscapeOne | src/app/models/behavioral/json-export.visitor.ts:21-28 | the escape chain maps one character to its escape |
| JsonExport.JsonEscapeIsPerChar | src/app/models/behavioral/json-export.visitor.ts:21-28 | the five chained replacements act character by character: no replacement touches another's output |
| JsonExport.UnescapeOne | src/app/models/behavioral/json-export.visitor.ts:21-28 | reading back one escaped character gives that character |
| JsonExport.JsonRoundTrip | src/app/models/behavioral/json-export.visitor.ts:21-28 | escaping loses nothing: reading the escapes back as a JSON parser does gives the original text |
| JsonExport.EscapeEachRoundTrip | src/app/models/behavioral/json-export.visitor.ts:21-28 | the per-character escape reads back to the original text |
| JsonExport.BodyOne | src/app/models/behavioral/json-export.visitor.ts:21-28 | an escaped printable character, newline, carriage return or tab in front of a valid JSON string body is a valid body |
| JsonExport.JsonEscapeWellFormed | src/app/models/behavioral/json-export.visitor.ts:21-28 | text with no control characters but newline, carriage return and tab escapes to a valid JSON string body (section 7 of RFC 8259) |
| JsonExport.EscapeEachWellFormed | src/app/models/behavioral/json-export.visitor.ts:21-28 | the same for the per-character escape |
| JsonExport.JsonEscapeNoRawControls | src/app/models/behavioral/json-export.visitor.ts:21-28 | whatever the text, the escaped form holds no raw newline, carriage return or tab |
| JsonExport.EscapeEachNoRawControls | src/app/models/behavioral/json-export.visitor.ts:21-28 | the same for the per-character escape |
| JsonExport.JsonEscapeIdentity | src/app/models/behavioral/json-export.visitor.ts:21-28 | text without a backslash, quote, newline, carriage return or tab is left unchanged |
| JsonExport.EscapeEachIdentity | src/app/models/behavioral/json-export.visitor.ts:21-28 | the same for the per-character escape |
| JsonExport.OtherControlsPassThrough | src/app/models/behavioral/json-export.visitor.ts:21-28 | a backspace passes through unescaped, which leaves an invalid JSON string |
| JsonExport.Indent | src/app/models/behavioral/json-export.visitor.ts:33-35 | two spaces per level, plus one level for the wrapping object |
| JsonExport.StripTrailingComma | src/app/models/behavioral/json-export.visitor.ts:55 | `replace(/,\n$/, '\n')`: a trailing comma-newline becomes a newline; any other output is unchanged |
| JsonExport.JsonEscape | src/app/models/behavioral/json-export.visitor.ts:21-28 | `escape`: five global replacements in turn, backslash first, then quote, newline, carriage return and tab |
| JsonExport.DirStart | src/app/models/behavioral/json-export.visitor.ts:41-46 | `formatDirectoryStart`: the quoted name opening an object, one level deeper than the visitor's; the root also opens the wrapping object |
| JsonExport.DirEnd | src/app/models/behavioral/json-export.visitor.ts:57-60 | the text `formatDirectoryEnd` returns: the root closes both objects, any other directory closes its own with a comma |
| JsonExport.FileLine | src/app/models/behavioral/json-export.visitor.ts:67-69 | `formatFile`: `"name": "details",` at the indentation, always with a comma |
| MarkdownExport.MarkdownRoundTrip | src/app/models/behavioral/markdown-export.visitor.ts:16-18 | reading the backslash escapes back gives the original text |
| MarkdownExport.MarkdownEscapedSpecials | src/app/models/behavioral/markdown-export.visitor.ts:16-18 | in the escaped text every special character is preceded by a backslash |
| MarkdownExport.Indent | src/app/models/behavioral/markdown-export.visitor.ts:24-27 | two spaces per level below the first, none at the top |
| MarkdownExport.HeadingDepth | src/app/models/behavioral/markdown-export.visitor.ts:34 | the heading depth is one more than the level, capped at six |
| MarkdownExport.DirStart | src/app/models/behavioral/markdown-export.visitor.ts:33-37 | a directory starts with as many `#` as its heading depth, then the folder icon |
| MarkdownExport.MarkdownEscape | src/app/models/behavioral/markdown-export.visitor.ts:16-18 | `escape`: a backslash before each of `# * _ [ ] ( ) \ | ` ~ >` |
| MarkdownExport.FileLine | src/app/models/behavioral/markdown-export.visitor.ts:50-52 | `formatFile`: an indented list item with the name in bold, a dash and the details |
| BaseExport.DirStart | src/app/models/behavioral/base-export.visitor.ts:47 | `formatDirectoryStart` in either format gives at least two characters, so the end rewrite cannot reach before it |
| BaseExport.StripShift | src/app/models/behavioral/json-export.visitor.ts:55 | the trailing-comma rewrite of `a + b`, with `b` two characters or longer, only touches `b` |
| BaseExport.ExportAppends | src/app/models/behavioral/base-export.visitor.ts:76-128 | visiting a node only appends to the output: what was written before is kept and the rest does not depend on it |
| BaseExport.ExportDirAppends | src/app/models/behavioral/base-export.visitor.ts:76-101 | a directory's visit only appends to the output |
| BaseExport.ExportDirUnfold | src/app/models/behavioral/base-export.visitor.ts:76-101 | a directory's visit is its start, its children one level deeper, the end rewrite, then the end text |
| BaseExport.ChildrenKeepOutput | src/app/models/behavioral/base-export.visitor.ts:85-89 | visiting the children never shortens the output |
| BaseExport.RewriteShift | src/app/models/behavioral/base-export.visitor.ts:92-96 | the end rewrite of a long enough tail leaves the text before it alone |
| BaseExport.ExportChildrenAppends | src/app/models/behavioral/base-export.visitor.ts:85-89 | visiting the children only appends to the output |
| BaseExport.ChildrenAreMembers | src/app/models/behavioral/base-export.visitor.ts:85-89 | the children's visit is each child's own export, in order, each flagged last exactly when it is the final child |
| BaseExport.EndsMemberAppend | src/app/models/behavioral/json-export.visitor.ts:60-68 | text ending in a JSON member line still does so after anything is put before it |
| BaseExport.JsonFileLineEndsMember | src/app/models/behavioral/json-export.visitor.ts:67-69 | a JSON file line ends in a quoted value and a comma |
| BaseExport.JsonDirEndEndsMember | src/app/models/behavioral/json-export.visitor.ts:60 | below the root a JSON directory closes with a brace and a comma |
| BaseExport.JsonMemberEndsWithComma | src/app/models/behavioral/json-export.visitor.ts:53-69 | below the root every JSON member, file or directory, ends with a comma |
| BaseExport.MembersEndWithComma | src/app/models/behavioral/json-export.visitor.ts:53-69 | a non-empty JSON member list ends with a member's comma |
| BaseExport.MembersShape | src/app/models/behavioral/json-export.visitor.ts:53-69 | no children give no member text; some children give member text ending in a comma |
| BaseExport.JsonDirStartEndsWithBrace | src/app/models/behavioral/json-export.visitor.ts:41-46 | a JSON directory's opening line ends with its brace |
| BaseExport.JsonDirShape | src/app/models/behavioral/json-export.visitor.ts:53-61 | a JSON directory is its opening, its members in order with the final comma turned into a line break, and its closing; no member list keeps a trailing comma |
| BaseExport.JsonDirUnfold | src/app/models/behavioral/json-export.visitor.ts:53-61 | a JSON directory's export is the comma rewrite of its start and members, then its end |
| BaseExport.BodyShape | src/app/models/behavioral/json-export.visitor.ts:55 | after an opening brace, the rewrite leaves no members untouched and turns a member list's final comma into a line break |
| BaseExport.EmptyBody | src/app/models/behavioral/json-export.visitor.ts:55 | with no members the rewrite finds no comma after the opening brace |
| BaseExport.MembersBody | src/app/models/behavioral/json-export.visitor.ts:55 | with members the rewrite turns the last member's comma into a line break |
| BaseExport.JsonFramed | src/app/models/behavioral/json-export.visitor.ts:41-61 | the JSON export of a root directory opens the wrapping object with its start line and closes it with its end line |
| BaseExport.MarkdownDirShape | src/app/models/behavioral/markdown-export.visitor.ts:33-44 | a Markdown directory is its heading, its members verbatim in order, and a blank line |
| BaseExport.BaseExportVisitor.constructor | src/app/models/behavioral/base-export.visitor.ts:21-24 | a new exporter has empty output at level 0 |
| BaseExport.BaseExportVisitor.Reset | src/app/models/behavioral/base-export.visitor.ts:71-74 | `reset` empties the output and returns to level 0 |
| BaseExport.BaseExportVisitor.Visit | src/app/models/behavioral/base-export.visitor.ts:88 | `accept` leaves the output as the export walk gives it and restores the level |
| BaseExport.BaseExportVisitor.VisitDirectory | src/app/models/behavioral/base-export.visitor.ts:76-101 | `visitDirectory` leaves the output as the walk gives it for the directory, and the level as it found it |
| BaseExport.BaseExportVisitor.VisitChildren | src/app/models/behavioral/base-export.visitor.ts:85-89 | the `forEach` leaves the output as the walk over the children gives it, with the last-child flags set |
| BaseExport.BaseExportVisitor.FormatDirectoryEnd | src/app/models/behavioral/base-export.visitor.ts:95 | `formatDirectoryEnd` applies its format's rewrite to the output and returns the closing text for the current level |
| BaseExport.BaseExportVisitor.VisitFile | src/app/models/behavioral/base-export.visitor.ts:103-128 | a file adds one line; a file with no flag from a parent counts as the last child |
| XmlExport.NoDoubleUnderscoreDropLast | src/app/models/behavioral/xml-export.visitor.ts:35 | dropping the last character keeps a name free of underscore runs |
| XmlExport.ReplaceIllegalSpec | src/app/models/behavioral/xml-export.visitor.ts:29 | every character outside the allowed set, and only those, becomes '_' |
| XmlExport.PrefixDigitSpec | src/app/models/behavioral/xml-export.visitor.ts:31-33 | the prefix keeps the allowed characters, never leaves a leading digit, and changes nothing else |
| XmlExport.CollapseSpec | src/app/models/behavioral/xml-export.visitor.ts:35 | collapsing keeps the first character and the allowed characters, leaves no run of underscores, and does not change a name without runs |
| XmlExport.CollapseKeepsLast | src/app/models/behavioral/xml-export.visitor.ts:35 | collapsing keeps the last character |
| XmlExport.TrimmedIsValid | src/app/models/behavioral/xml-export.visitor.ts:35-36 | dropping the trailing '_' of a collapsed name leaves a valid tag name or nothing |
| XmlExport.NodeIsValid | src/app/models/behavioral/xml-export.visitor.ts:36 | the fallback "_node" is a valid tag name |
| XmlExport.SanitizeIsValid | src/app/models/behavioral/xml-export.visitor.ts:28-37 | whatever the name, `sanitizeTagName` gives a valid tag name: non-empty, allowed characters only, no leading digit, no runs of underscores, no trailing '_' |
| XmlExport.SanitizeKeepsValid | src/app/models/behavioral/xml-export.visitor.ts:28-37 | a valid tag name passes through unchanged |
| XmlExport.SanitizeFixedPoints | src/app/models/behavioral/xml-export.visitor.ts:28-37 | the sanitizer fixes exactly the valid names, so applying it twice changes nothing |
| XmlExport.XmlAppends | src/app/models/behavioral/xml-export.visitor.ts:39-63 | visiting a node only appends to the buffer |
| XmlExport.XmlDirAppends | src/app/models/behavioral/xml-export.visitor.ts:39-46 | visiting a directory only appends to the buffer |
| XmlExport.XmlChildrenAppends | src/app/models/behavioral/xml-export.visitor.ts:43 | visiting the children only appends to the buffer |
| XmlExport.XmlChildrenAreMembers | src/app/models/behavioral/xml-export.visitor.ts:43 | the children's visit is each child's own element, in order |
| XmlExport.XmlDirShape | src/app/models/behavioral/xml-export.visitor.ts:39-46 | a directory is an opening tag line, its children's elements one level deeper, and a closing tag with the same name at the same indent |
| XmlExport.XmlExportVisitor.constructor | src/app/models/behavioral/xml-export.visitor.ts:12-13 | a new exporter has an empty buffer at level 0 |
| XmlExport.XmlExportVisitor.Visit | src/app/models/behavioral/xml-export.visitor.ts:43 | `accept` leaves the buffer as the XML walk gives it and restores the level |
| XmlExport.XmlExportVisitor.VisitDirectory | src/app/models/behavioral/xml-export.visitor.ts:39-46 | `visitDirectory` writes the directory's element under its sanitized tag and restores the level |
| XmlExport.XmlExportVisitor.WriteElement | src/app/models/behavioral/xml-export.visitor.ts:41-45 | the opening line, the children one level deeper, and the closing line at the old level |
| XmlExport.XmlExportVisitor.VisitChildren | src/app/models/behavioral/xml-export.visitor.ts:43 | the `forEach` leaves the buffer as the walk over the children gives it |
| XmlExport.XmlExportVisitor.AppendNode | src/app/models/behavioral/xml-export.visitor.ts:48-63 | a file adds one element holding its details without parentheses |
| XmlExport.ReplaceIllegal | src/app/models/behavioral/xml-export.visitor.ts:29 | each character outside letters, digits, CJK ideographs, `_` and `-` becomes `_` |
| XmlExport.PrefixDigit | src/app/models/behavioral/xml-export.visitor.ts:31-33 | a `_` in front of a name that starts with a digit |
| XmlExport.CollapseUnderscores | src/app/models/behavioral/xml-export.visitor.ts:35 | `replace(/_+/g, '_')`: each run of underscores becomes one |
| XmlExport.SanitizeTagName | src/app/models/behavioral/xml-export.visitor.ts:28-37 | `sanitizeTagName`: replace, prefix, collapse, drop one trailing `_`, and `_node` for an empty result |
| XmlExport.XmlNode | src/app/models/behavioral/xml-export.visitor.ts:39-63 | the buffer after visiting a node: a directory's open line, its children one level deeper and its close line; a file's one element holding its details without parentheses |
| Clipboards.Clipboard.constructor | src/app/models/creational/clipboard.singleton.ts:24-30 | a new clipboard holds no node and no source name |
| Clipboards.Clipboard.Copy | src/app/models/creational/clipboard.singleton.ts:47-51 | `copy` keeps a deep copy of the node with fresh ids and the node's name, and returns the name |
| Clipboards.Clipboard.Paste | src/app/models/creational/clipboard.singleton.ts:57-60 | `paste` gives null on an empty clipboard and otherwise a new deep copy with fresh ids, leaving the content in place |
| Clipboards.Clipboard.Clear | src/app/models/creational/clipboard.singleton.ts:73-76 | `clear` empties the content and the source name |
| Clipboards.ClipboardHolder.constructor | src/app/models/creational/clipboard.singleton.ts:21 | no instance exists before the first request |
| Clipboards.ClipboardHolder.GetInstance | src/app/models/creational/clipboard.singleton.ts:36-41 | `getInstance` returns the existing instance, or creates and keeps an empty one on the first call |
| Clipboards.ClipboardHolder.ResetInstance | src/app/models/creational/clipboard.singleton.ts:82-84 | `resetInstance` forgets the instance |
| Clipboards.PasteTwice | src/app/core-logic.spec.ts:1012-1021 | two pastes in a row leave the clipboard as it was, both copy its content, and the copies share no id |
| CopyCommands.Live | src/app/models/behavioral/copy.command.ts:20 | the node looked up in the tree keeps the id of the node the command was built with |
| CopyCommands.CopyThenUndo | src/app/models/behavioral/copy.command.ts:24-43 | execute then undo leaves the clipboard empty if it was empty, and otherwise with a copy of what it held under the same name |
| CopyCommands.CopyCommand.constructor | src/app/models/behavioral/copy.command.ts:16-22 | the description names the node; nothing is saved yet |
| CopyCommands.CopyCommand.Execute | src/app/models/behavioral/copy.command.ts:24-33 | `execute` saves a copy of the old content and the old name, then the clipboard holds a copy of the node under its name |
| CopyCommands.CopyCommand.Undo | src/app/models/behavioral/copy.command.ts:35-43 | `undo` empties the clipboard, then puts a copy of the saved content back, with its name, if there was any |
| PasteCommands.FreshNotChild | src/app/models/behavioral/paste.command.ts:35 | a node whose id is above every id in the tree is not a child of any directory in it |
| PasteCommands.PasteThenUndo | src/app/models/behavioral/paste.command.ts:26-43 | pasting a node with fresh ids and undoing the paste gives the original tree |
| PasteCommands.PasteCommand.constructor | src/app/models/behavioral/paste.command.ts:20-24 | the description names the clipboard's source, or `(空)`, and the target; nothing is pasted yet |
| PasteCommands.PasteCommand.Execute | src/app/models/behavioral/paste.command.ts:26-36 | `execute` fails on an empty clipboard and changes nothing; otherwise a fresh copy of the content is appended to the target and remembered |
| PasteCommands.PasteCommand.Undo | src/app/models/behavioral/paste.command.ts:38-43 | `undo` removes exactly the pasted node from the target and forgets it; before `execute`, or when repeated, it changes nothing |
| DeleteCommands.DeleteThenUndo | src/app/models/behavioral/delete.command.ts:25-33 | removing a child and inserting it back at the index `remove` returned gives the original tree |
| DeleteCommands.DeleteAbsent | src/app/models/behavioral/delete.command.ts:25-26 | deleting a node that is not a child of the parent leaves the tree as it is |
| DeleteCommands.DeleteCommand.constructor | src/app/models/behavioral/delete.command.ts:15-23 | the description names the node; the removed index starts at -1 |
| DeleteCommands.DeleteCommand.Execute | src/app/models/behavioral/delete.command.ts:25-27 | `execute` records the index `remove` returns and cuts exactly that child from the parent |
| DeleteCommands.DeleteCommand.Undo | src/app/models/behavioral/delete.command.ts:29-33 | `undo` inserts the node back at the recorded index; with -1 it changes nothing |
| TagCommands.AddThenUndo | src/app/models/behavioral/tag.command.ts:37-56 | adding a tag the node did not have and then undoing gives the original tree |
| TagCommands.RemoveThenUndo | src/app/models/behavioral/tag.command.ts:37-56 | removing a tag the node had and then undoing gives the node the same tags, the re-added one now last in insertion order |
| TagCommands.IndexAddThenUndo | src/app/models/behavioral/tag.mediator.ts:36-63 | through the mediator, adding a pair that was not indexed and undoing leaves both indexes as they were |
| TagCommands.IndexRemoveThenUndo | src/app/models/behavioral/tag.mediator.ts:36-63 | through the mediator, removing an indexed pair and undoing leaves exactly the same pairs indexed in both directions |
| TagCommands.TagCommand.constructor | src/app/models/behavioral/tag.command.ts:26-35 | the description is built from the tag's pooled label, which the pool now holds |
| TagCommands.TagCommand.Change | src/app/models/behavioral/tag.command.ts:38-55 | one tag change on the node, through the mediator when there is one, which keeps its indexes consistent |
| TagCommands.TagCommand.Execute | src/app/models/behavioral/tag.command.ts:37-45 | `execute` adds the tag for an add action and removes it otherwise, on the node and, when present, in the mediator |
| TagCommands.TagCommand.Undo | src/app/models/behavioral/tag.command.ts:47-56 | `undo` makes the opposite change |
| NodeConstruction.SameShapeSize | src/app/models/structural/file-system-node.model.ts:38-39 | a deep copy has the same size, details, icon and type label as its original |
| NodeConstruction.SameShapeSizes | src/app/models/structural/directory.model.ts:45-47 | lists of copies have the same total size |
| NodeConstruction.SameShapeTrans | src/app/models/creational/clipboard.singleton.ts:47-60 | a copy of a copy is a copy of the original, with its name |
| NodeConstruction.IdAllocator.constructor | src/app/models/structural/file-system-node.model.ts:11 | the counter starts at 1 |
| NodeConstruction.IdAllocator.Fresh | src/app/models/structural/file-system-node.model.ts:27 | `nextNodeId++`: the current value, and the counter one higher |
| NodeConstruction.IdAllocator.NewDirectory | src/app/models/structural/directory.model.ts:9-13 | a new directory has the next id, the name, no tags and no children |
| NodeConstruction.IdAllocator.NewWordFile | src/app/models/structural/word-file.model.ts:9-16 | a new Word file has the next id, its fields, no tags, and the given creation time or else the current one |
| NodeConstruction.IdAllocator.NewImageFile | src/app/models/structural/image-file.model.ts:8-15 | a new image file has the next id, its fields, no tags and the current time |
| NodeConstruction.IdAllocator.NewTextFile | src/app/models/structural/text-file.model.ts:8-14 | a new text file has the next id, its fields, no tags and the current time |
| NodeConstruction.IdAllocator.Clone | src/app/models/structural/directory.model.ts:54-61 | `clone` gives a deep copy whose ids are fresh, distinct and above every earlier id, the root's first |
| NodeConstruction.CopyTags | src/app/models/structural/word-file.model.ts:37 | copying the tags one by one into an empty set gives the same tags in the same order |
| FileFactory.CreateWord | src/app/models/creational/file.factory.ts:45-47 | `createWord` builds a Word file from the parameters, the creation time defaulting to now |
| FileFactory.CreateImage | src/app/models/creational/file.factory.ts:49-51 | `createImage` builds an image file from the parameters, created now whatever `createdAt` says |
| FileFactory.CreateText | src/app/models/creational/file.factory.ts:53-55 | `createText` builds a text file from the parameters, created now whatever `createdAt` says |
| FileFactory.CreateDirectory | src/app/models/creational/file.factory.ts:57-59 | `createDirectory` builds an empty directory with the name |
| FileFactory.Create | src/app/models/creational/file.factory.ts:64-73 | `create` returns exactly what `createWord`, `createImage` or `createText` builds from the parameters for the requested kind: every field of the parameters, no tags and the next id |
| LabelFlyweight.Label.constructor | src/app/models/creational/label.flyweight.ts:15-26 | a label keeps the kind, name, colour and icon it was built with |
| LabelFlyweight.LabelFactory.constructor | src/app/models/creational/label.flyweight.ts:31 | the pool starts empty |
| LabelFlyweight.LabelFactory.CreateLabel | src/app/models/creational/label.flyweight.ts:63-72 | `createLabel` builds a new label of the kind with its fixed name, colour and icon |
| LabelFlyweight.LabelFactory.GetLabel | src/app/models/creational/label.flyweight.ts:40-45 | `getLabel` returns the pooled label when there is one and otherwise creates and pools it; other entries are untouched |
| LabelFlyweight.LabelFactory.GetAllLabels | src/app/models/creational/label.flyweight.ts:48-50 | `getAllLabels` returns the pooled Urgent, Work and Personal labels in that order, creating the missing ones |
| LabelFlyweight.LabelFactory.PoolSize | src/app/models/creational/label.flyweight.ts:53-55 | `getPoolSize` is the number of pooled labels, never more than three |
| LabelFlyweight.LabelFactory.ResetPool | src/app/models/creational/label.flyweight.ts:58-60 | `resetPool` empties the pool |
| LabelFlyweight.PoolBound | src/app/models/creational/label.flyweight.ts:30-31 | there are three tag kinds, so the pool never holds more than three labels |
| TagMediators.PreOrder | src/app/models/behavioral/tag.mediator.ts:132-139 | `walkTree` registers the node first |
| TagMediators.IndexTagValid | src/app/models/behavioral/tag.mediator.ts:37-47 | indexing a pair keeps the two indexes inverse to each other and adds exactly that pair |
| TagMediators.UnindexTagValid | src/app/models/behavioral/tag.mediator.ts:58-59 | unindexing a pair keeps the indexes inverse and removes exactly that pair |
| TagMediators.IndexTagsValid | src/app/models/behavioral/tag.mediator.ts:98-108 | indexing a node's tags one by one adds exactly those pairs and keeps the indexes inverse |
| TagMediators.IndexTagsLast | src/app/models/behavioral/tag.mediator.ts:98-108 | the loop over the tags indexes the last tag after all the others |
| TagMediators.RegisterValid | src/app/models/behavioral/tag.mediator.ts:96-109 | registering a node indexes exactly its tags, in addition to what was indexed, and registers it |
| TagMediators.UnlistAllSpec | src/app/models/behavioral/tag.mediator.ts:114-118 | the loop in `unregisterNode` drops the id from the reverse sets of exactly the tags it visits |
| TagMediators.UnregisterValid | src/app/models/behavioral/tag.mediator.ts:112-121 | unregistering a node drops it from both indexes and the registry and keeps every other node's entries |
| TagMediators.RegisterAllValid | src/app/models/behavioral/tag.mediator.ts:132-139 | registering a list of nodes indexes exactly their tags, in addition to what was indexed |
| TagMediators.RegisterAllAppend | src/app/models/behavioral/tag.mediator.ts:132-139 | registering two lists in turn is registering their concatenation |
| TagMediators.PreOrderOfAppend | src/app/models/behavioral/tag.mediator.ts:135-137 | the walk over concatenated children is the walks one after the other |
| TagMediators.PreOrderContents | src/app/models/behavioral/tag.mediator.ts:132-139 | the nodes `walkTree` registers are exactly the nodes of the tree |
| TagMediators.PreOrderOfContents | src/app/models/behavioral/tag.mediator.ts:135-137 | the nodes walked below a list of children are exactly those the children contain |
| TagMediators.SyncIndexesTree | src/app/models/behavioral/tag.mediator.ts:124-129 | after `syncFromTree` on a tree with unique ids, each node's forward entry holds exactly its tags and no other id is indexed |
| TagMediators.InSyncSpec | src/app/models/behavioral/tag.mediator.ts:15 | a tree is in step with the forward index exactly when every node in it has its own tags, in order, as its forward entry |
| TagMediators.InSyncAgree | src/app/models/behavioral/tag.mediator.ts:15 | a forward index that agrees on every id of a subtree keeps that subtree in step |
| TagMediators.InSyncReplace | src/app/models/behavioral/tag.mediator.ts:15 | replacing the node with an id by one in step with a new index that differs only at that id keeps the tree in step |
| TagMediators.UniqueContained | src/app/models/structural/file-system-node.model.ts:27 | every node of a tree with unique ids heads a subtree with unique ids |
| TagMediators.RetagKeepsSync | src/app/models/behavioral/tag.mediator.ts:15 | changing one node's tags, with the forward index changed at that id alone to the same tags, keeps a tree with unique ids in step |
| TagMediators.AddTagKeepsSync | src/app/models/behavioral/tag.mediator.ts:36-54 | if every node's forward entry equals its own tags before `addTag`, it still does after it, on the tree `addTag` leaves |
| TagMediators.RemoveTagKeepsSync | src/app/models/behavioral/tag.mediator.ts:57-63 | if every node's forward entry equals its own tags before `removeTag`, it still does after it, on the tree `removeTag` leaves |
| TagMediators.TagMediator.constructor | src/app/models/behavioral/tag.mediator.ts:27-33 | a new mediator has three empty indexes |
| TagMediators.TagMediator.AddTag | src/app/models/behavioral/tag.mediator.ts:36-54 | `addTag` indexes the pair, registers the node and adds the tag to the node's own tags; afterwards `hasTag` holds, and a tree with unique ids in step with the forward index stays in step |
| TagMediators.TagMediator.RemoveTag | src/app/models/behavioral/tag.mediator.ts:57-63 | `removeTag` unindexes the pair and deletes the tag from the node's own tags; the registry keeps the node; afterwards `hasTag` fails, and a tree with unique ids in step with the forward index stays in step |
| TagMediators.TagMediator.LabelsForNode | src/app/models/behavioral/tag.mediator.ts:71-75 | `getLabelsForNode` gives the pooled label of each of the node's indexed tags, in insertion order; pooled labels are kept |
| TagMediators.TagMediator.NodesByLabel | src/app/models/behavioral/tag.mediator.ts:78-84 | `getNodesByLabel` gives exactly the registered ids the tag lists |
| TagMediators.TagMediator.TagCounts | src/app/models/behavioral/tag.mediator.ts:87-93 | `getTagCounts` has an entry for each of the three tags: the size of its reverse set, 0 when absent |
| TagMediators.TagMediator.RegisterNode | src/app/models/behavioral/tag.mediator.ts:96-109 | `registerNode` registers the node and indexes its tags, keeping the indexes inverse |
| TagMediators.TagMediator.UnregisterNode | src/app/models/behavioral/tag.mediator.ts:112-121 | `unregisterNode` removes the node from every index, keeping them inverse |
| TagMediators.TagMediator.SyncFromTree | src/app/models/behavioral/tag.mediator.ts:124-129 | `syncFromTree` clears the indexes and registers every node of the tree in pre-order |
| TagMediators.TagMediator.WalkTree | src/app/models/behavioral/tag.mediator.ts:132-139 | `walkTree` registers the node and then each child's subtree in order |
| TagMediators.Filter | src/app/models/behavioral/tag.mediator.ts:81-83 | the `filter` keeps exactly the listed ids that are registered, in order |
| TagMediators.FilterAll | src/app/models/behavioral/tag.mediator.ts:81-83 | when every listed id is registered, the `filter` keeps them all |
| TagMediators.CountIsNodesByLabel | src/app/models/behavioral/tag.mediator.ts:78-93 | with consistent indexes, each tag's count is the number of nodes `getNodesByLabel` returns |
| TagMediators.WalkStep | src/app/models/behavioral/tag.mediator.ts:135-137 | one more child's subtree is registered after the node and the earlier children |
| TagMediators.WalkStart | src/app/models/behavioral/tag.mediator.ts:133 | the walk starts by registering the node itself; a file's walk is that alone |
| TagMediators.Valid | src/app/models/behavioral/tag.mediator.ts:26-33 | the invariant of the three maps: a node holds a tag in the forward index exactly when the reverse index lists it under that tag, and every listed node is registered |
| TagMediators.IndexTag | src/app/models/behavioral/tag.mediator.ts:37-47 | the index half of `addTag`: the tag added to the node's set and the id to the tag's set, each set created when absent |
| TagMediators.UnindexTag | src/app/models/behavioral/tag.mediator.ts:58-59 | the index half of `removeTag`: the tag deleted from the node's set and the id from the tag's set, absent sets left absent |
| TagMediators.Register | src/app/models/behavioral/tag.mediator.ts:96-109 | `registerNode`: the node registered, then each of its tags indexed in order |
| TagMediators.Unregister | src/app/models/behavioral/tag.mediator.ts:112-121 | `unregisterNode`: the id removed from each reverse set its forward entry names, then the forward entry and the registry entry dropped |
| HistoryStacks.Executed | src/app/services/behavioral/command-history.service.ts:45-49 | executing pushes the command on top of the undo stack and empties the redo stack |
| HistoryStacks.UndoRedoInverse | src/app/services/behavioral/command-history.service.ts:55-79 | an undo followed by a redo gives back both stacks, and so does a redo followed by an undo; each keeps the total number of commands |
| HistoryStacks.UndoNMoves | src/app/services/behavioral/command-history.service.ts:55-64 | `k` undos in a row move the top `k` commands to the redo stack, most recent first |
| HistoryStacks.UndoNRedoN | src/app/services/behavioral/command-history.service.ts:55-79 | `k` undos followed by `k` redos give back both stacks |
| HistoryStacks.RedoN | src/app/services/behavioral/command-history.service.ts:70-79 | `k` redos move `k` commands from the redo stack to the undo stack |
| HistoryStacks.UndoN | src/app/services/behavioral/command-history.service.ts:55-64 | `k` undos move `k` commands from the undo stack to the redo stack |
| HistoryStacks.ReversedSpec | src/app/services/behavioral/command-history.service.ts:62 | the reversal of a list holds the same elements, the last one first |
| HistoryStacks.ReversedCons | src/app/services/behavioral/command-history.service.ts:62 | reversing a list with a head in front puts the head last |
| CommandHistories.Run | src/app/services/behavioral/command-history.service.ts:46 | `command.execute()` dispatched on the command kind, with each kind's effect; only a paste on an empty clipboard fails |
| CommandHistories.Ran | src/app/services/behavioral/command-history.service.ts:46 | the effect of `execute` for each command kind, from the state before to the state after |
| CommandHistories.Reverted | src/app/services/behavioral/command-history.service.ts:60 | the effect of `undo` for each command kind, as that command's own undo states it |
| CommandHistories.Revert | src/app/services/behavioral/command-history.service.ts:60 | `command.undo()` dispatched on the command kind: the effect is each kind's own undo (recorded sort orders put back, the deleted node reinserted at its index, the opposite tag change, the previous clipboard content, the pasted node removed) |
| CommandHistories.CommandHistory.constructor | src/app/services/behavioral/command-history.service.ts:24-27 | both stacks start empty |
| CommandHistories.CommandHistory.ExecuteCommand | src/app/services/behavioral/command-history.service.ts:45-49 | `executeCommand` runs the command with its kind's effect, pushes it and empties the redo stack; a failed run leaves both stacks as they were |
| CommandHistories.CommandHistory.Undo | src/app/services/behavioral/command-history.service.ts:55-64 | `undo` answers nothing on an empty stack and changes nothing; otherwise the top command's own undo takes effect, and the command moves to the redo stack and is returned |
| CommandHistories.CommandHistory.Redo | src/app/services/behavioral/command-history.service.ts:70-79 | `redo` answers nothing on an empty stack; otherwise the top redo command runs again with its kind's effect, moves to the undo stack and is returned |
| CommandHistories.CommandHistory.CanUndo | src/app/services/behavioral/command-history.service.ts:30 | `canUndo` exactly when the undo stack is non-empty |
| CommandHistories.CommandHistory.CanRedo | src/app/services/behavioral/command-history.service.ts:33 | `canRedo` exactly when the redo stack is non-empty |
| CommandHistories.CommandHistory.UndoCount | src/app/services/behavioral/command-history.service.ts:36 | `undoCount` is the undo stack's depth |
| CommandHistories.CommandHistory.RedoCount | src/app/services/behavioral/command-history.service.ts:39 | `redoCount` is the redo stack's depth |
| CommandHistories.CommandHistory.Clear | src/app/services/behavioral/command-history.service.ts:82-85 | `clear` empties both stacks |
| SortCommands.KeysTail | src/app/models/behavioral/sort.command.ts:27 | the first entry of a map has a key that no later entry has |
| SortCommands.KeysCons | src/app/models/behavioral/sort.command.ts:27 | an entry with a new key in front of a map keeps the keys distinct |
| SortCommands.Get | src/app/models/behavioral/sort.command.ts:27 | `map.get` finds nothing exactly for an unrecorded directory, and otherwise a recorded entry |
| SortCommands.MapPut | src/app/models/behavioral/sort.command.ts:60 | `map.set` keeps the keys distinct, adds the key, and appends an entry for a new directory |
| SortCommands.GetAfterPut | src/app/models/behavioral/sort.command.ts:60 | reading a key back after setting it gives what was set, and other keys are unaffected |
| SortCommands.PutAll | src/app/models/behavioral/sort.command.ts:58-71 | a run of `map.set` calls keeps the keys distinct |
| SortCommands.PutAllFresh | src/app/models/behavioral/sort.command.ts:58-71 | setting keys that are all new, each once, appends them in order |
| SortCommands.PutAllAppend | src/app/models/behavioral/sort.command.ts:58-71 | two runs of `map.set` in turn are one run over their concatenation |
| SortCommands.DistinctKeysAppend | src/app/models/behavioral/sort.command.ts:27 | two maps with distinct keys and no key in common concatenate to a map with distinct keys |
| SortCommands.Current | src/app/models/behavioral/sort.command.ts:53 | the child restored for a recorded child has the same id, and is the directory's current child or the recorded one |
| SortCommands.Reorder | src/app/models/behavioral/sort.command.ts:53 | a restored order has the recorded ids, position by position |
| SortCommands.ApplyOrders | src/app/models/behavioral/sort.command.ts:50-55 | the restoring loop leaves the tree as the restore function gives it for the map, in order |
| SortCommands.RestoreAllAppend | src/app/models/behavioral/sort.command.ts:52-54 | restoring two maps in turn is restoring their concatenation |
| SortCommands.IdsOfAbsent | src/app/models/behavioral/sort.command.ts:66-70 | an id under none of the siblings is not under their list |
| SortCommands.IdsOfChild | src/app/models/behavioral/sort.command.ts:66-70 | a child's ids are among its siblings' ids |
| SortCommands.IdsOfSpec | src/app/models/behavioral/sort.command.ts:66-70 | an id is below a list of siblings exactly when it is below one of them |
| SortCommands.UniqueSiblings | src/app/models/behavioral/sort.command.ts:66-70 | siblings in a tree with unique ids have unique ids themselves and disjoint subtrees |
| SortCommands.ChildIdsDistinct | src/app/models/behavioral/sort.command.ts:60 | in a tree with unique ids no two children share an id, so no child occurs twice |
| SortCommands.FindInOnly | src/app/models/behavioral/sort.command.ts:52-54 | a directory that lies only under child `j` is found under that child |
| SortCommands.ReplaceInOnly | src/app/models/behavioral/sort.command.ts:52-54 | replacing a node that lies only under child `j` changes only that child |
| SortCommands.StepInChild | src/app/models/behavioral/sort.command.ts:52-54 | restoring a directory that lies under child `j` changes only child `j` |
| SortCommands.RestoreInChild | src/app/models/behavioral/sort.command.ts:52-54 | a restore loop whose directories all lie under child `j` changes only child `j` |
| SortCommands.SortTree | src/app/models/behavioral/sort.command.ts:58-71 | sorting keeps the node's id, name, tags and kind, and the number of children |
| SortCommands.SortEach | src/app/models/behavioral/sort.command.ts:66-70 | the loop over the sorted children gives one result per child |
| SortCommands.SortTreeIds | src/app/models/behavioral/sort.command.ts:58-71 | sorting changes only the order of children: the subtree keeps exactly its ids |
| SortCommands.SnapshotKeys | src/app/models/behavioral/sort.command.ts:60 | every recorded directory lies in the sorted subtree |
| SortCommands.SnapEachKeys | src/app/models/behavioral/sort.command.ts:66-70 | every directory recorded by the loop lies under one of the children it visits |
| SortCommands.SnapshotsDistinct | src/app/models/behavioral/sort.command.ts:58-71 | in a tree with unique ids, no directory is recorded twice |
| SortCommands.SnapEachDistinct | src/app/models/behavioral/sort.command.ts:66-70 | the loop over distinct children records no directory twice |
| SortCommands.Partial | src/app/models/behavioral/sort.command.ts:50-55 | the children with some restored and the rest still sorted: one per child |
| SortCommands.ReorderSorted | src/app/models/behavioral/sort.command.ts:53 | restoring the root's recorded order on the sorted tree puts every still-sorted child back in its place |
| SortCommands.PartialStep | src/app/models/behavioral/sort.command.ts:52-54 | restoring one more child's subtree puts that child back and leaves the rest as they were |
| SortCommands.BlockIsLocal | src/app/models/behavioral/sort.command.ts:52-54 | the directories recorded under child `j` lie under that child only, whatever has been restored |
| SortCommands.UndoSortBlocks | src/app/models/behavioral/sort.command.ts:50-55 | undoing the recorded orders of some children, each once, restores exactly those children |
| SortCommands.UndoSort | src/app/models/behavioral/sort.command.ts:45-55 | undoing the recorded orders, in the order they were recorded, turns the sorted tree back into the original |
| SortCommands.ExecuteThenUndo | src/app/models/behavioral/sort.command.ts:45-55 | `execute` then `undo` on a tree with unique ids gives back the tree |
| SortCommands.SnapEachStep | src/app/models/behavioral/sort.command.ts:66-70 | one more child's recorded orders follow those of the children before it |
| SortCommands.SortCommand.constructor | src/app/models/behavioral/sort.command.ts:34-43 | the description names the strategy; nothing is recorded yet |
| SortCommands.SortCommand.Execute | src/app/models/behavioral/sort.command.ts:45-48 | `execute` sorts the whole tree top-down and records each directory's order, before sorting it, in the order visited |
| SortCommands.SortCommand.Undo | src/app/models/behavioral/sort.command.ts:50-55 | `undo` puts back every recorded order, in the order the directories were recorded |
| SortCommands.SortCommand.SortRecursive | src/app/models/behavioral/sort.command.ts:58-71 | `sortRecursive` records the directory's order, sorts its children, then sorts each child directory in the new order |
| SortCommands.SortCommand.SortChildren | src/app/models/behavioral/sort.command.ts:66-70 | the loop sorts each child directory and records their orders in turn |
| SortCommands.RestoreAll | src/app/models/behavioral/sort.command.ts:52-54 | the tree after the `undo` loop: each recorded directory still in the tree, in map order, gets its recorded children back |
| SortCommands.SortSnapshots | src/app/models/behavioral/sort.command.ts:58-71 | the entries `sortRecursive` records: each directory's children before it is sorted, in pre-order of the sorted tree |
| RestoreSortCommands.Recorded | src/app/models/behavioral/restore-sort.command.ts:36-39 | `execute` records one entry per key directory, keys in the map's order |
| RestoreSortCommands.RecordStep | src/app/models/behavioral/restore-sort.command.ts:37-39 | one more iteration of the recording loop sets the next key |
| RestoreSortCommands.SortedOrder | src/app/models/behavioral/sort.command.ts:63-70 | a recorded order once sorted has as many children |
| RestoreSortCommands.Resorted | src/app/models/behavioral/restore-sort.command.ts:37-39 | every recorded order replaced by its sorted form, keys kept |
| RestoreSortCommands.PutAllEmpty | src/app/models/behavioral/restore-sort.command.ts:36-39 | setting entries with distinct keys into an empty map gives exactly those entries |
| RestoreSortCommands.ResortedDistinct | src/app/models/behavioral/restore-sort.command.ts:37-39 | replacing orders by their sorted forms keeps the keys distinct |
| RestoreSortCommands.ResortedAppend | src/app/models/behavioral/restore-sort.command.ts:37-39 | the sorted forms of two maps concatenate |
| RestoreSortCommands.SortTreeChildren | src/app/models/behavioral/sort.command.ts:63-70 | a sorted directory's children are the sorted form of its children |
| RestoreSortCommands.FindSorted | src/app/models/behavioral/sort.command.ts:58-71 | after sorting every node is still found by its id, now in its sorted form |
| RestoreSortCommands.SnapEachMember | src/app/models/behavioral/sort.command.ts:66-70 | every entry the loop records comes from one of the children it visits |
| RestoreSortCommands.SnapshotFound | src/app/models/behavioral/sort.command.ts:60 | every recorded entry names a directory of the tree, with the children it had when recorded |
| RestoreSortCommands.RecordedSorted | src/app/models/behavioral/restore-sort.command.ts:34-39 | what a restore command records on the sorted tree is the sorted form of each recorded order |
| RestoreSortCommands.SortedPrefix | src/app/models/behavioral/restore-sort.command.ts:46-51 | the children with the first `i` sorted: one per child |
| RestoreSortCommands.RedoBlockIsLocal | src/app/models/behavioral/restore-sort.command.ts:47-52 | the entries recorded under the `i`-th sorted child lie under that child only |
| RestoreSortCommands.SnapEachPrefix | src/app/models/behavioral/sort.command.ts:66-70 | the entries of the first `i + 1` children are those of the first `i`, then those of child `i` |
| RestoreSortCommands.SortedPrefixStep | src/app/models/behavioral/restore-sort.command.ts:47-52 | sorting one more child extends the sorted prefix |
| RestoreSortCommands.RedoSortBlocks | src/app/models/behavioral/restore-sort.command.ts:47-52 | re-applying the sorted forms of the first `i` children's recorded orders sorts those children again |
| RestoreSortCommands.RedoNoBlocks | src/app/models/behavioral/restore-sort.command.ts:47-52 | with no block re-applied the children stay as the sort left them |
| RestoreSortCommands.RedoSortBlockStep | src/app/models/behavioral/restore-sort.command.ts:47-52 | one more child's block, re-applied, sorts that child and nothing else |
| RestoreSortCommands.RedoChildBlock | src/app/models/behavioral/restore-sort.command.ts:47-52 | the `k`-th child's block, re-applied after the first `k` children are sorted, sorts that child |
| RestoreSortCommands.RedoRootStep | src/app/models/behavioral/restore-sort.command.ts:47-52 | re-applying a directory's sorted order to its unsorted children puts them in sorted order |
| RestoreSortCommands.RedoSort | src/app/models/behavioral/restore-sort.command.ts:47-52 | re-applying the sorted form of every recorded order to the unsorted tree sorts it again |
| RestoreSortCommands.RedoSortSplit | src/app/models/behavioral/restore-sort.command.ts:47-52 | the root's entry is re-applied first, then the children's, in sorted order |
| RestoreSortCommands.SortedPrefixAll | src/app/models/behavioral/restore-sort.command.ts:47-52 | with all children sorted the prefix is the sorted directory's children |
| RestoreSortCommands.SortThenRestoreThenUndo | src/app/models/behavioral/restore-sort.command.ts:34-52 | a restore command built from a sort's recorded orders, right after that sort: `execute` gives back the unsorted tree and `undo` the sorted one |
| RestoreSortCommands.RestoreSortCommand.constructor | src/app/models/behavioral/restore-sort.command.ts:22-32 | the command keeps a copy of the orders and names the sort; nothing is recorded yet |
| RestoreSortCommands.RestoreSortCommand.Execute | src/app/models/behavioral/restore-sort.command.ts:34-45 | `execute` records every key directory's current order, then restores the original orders |
| RestoreSortCommands.RestoreSortCommand.Undo | src/app/models/behavioral/restore-sort.command.ts:47-52 | `undo` re-applies the orders recorded by the last `execute` |
| DocumentTree.ContainsId | src/app/models/structural/file-system-node.model.ts:21-27 | a node in the tree has its id among the tree's ids |
| DocumentTree.ContainsInId | src/app/models/structural/directory.model.ts:9 | a node below a list of children has its id among their ids |
| DocumentTree.ContainsTransitive | src/app/models/structural/directory.model.ts:9 | a node below a node of the tree is in the tree |
| DocumentTree.ContainsInTransitive | src/app/models/structural/directory.model.ts:9 | a node below a node under a list of children is under that list |
| DocumentTree.ChildContained | src/app/models/structural/directory.model.ts:9 | a child is contained in its parent's children |
| DocumentTree.UniqueSeqAppend | src/app/models/structural/directory.model.ts:15-17 | appending a subtree whose ids are new keeps the sibling ids unique and adds exactly its ids |
| DocumentTree.FindSpec | src/app/models/structural/file-system-node.model.ts:21 | a node is found exactly when its id occurs, and what is found has the id and lies in the tree |
| DocumentTree.FindInSpec | src/app/models/structural/directory.model.ts:9 | the same for a list of children |
| DocumentTree.FindUnique | src/app/models/structural/file-system-node.model.ts:27 | in a tree with unique ids, looking up any node's id finds that very node |
| DocumentTree.FindInUnique | src/app/models/structural/directory.model.ts:9 | the same for a list of children |
| DocumentTree.ReplaceIn | src/app/models/structural/directory.model.ts:9 | an in-place update keeps the number of children |
| DocumentTree.ReplaceAbsent | src/app/models/structural/file-system-node.model.ts:21 | updating an id that does not occur changes nothing |
| DocumentTree.ReplaceInAbsent | src/app/models/structural/directory.model.ts:9 | the same for a list of children |
| DocumentTree.ReplaceBySelf | src/app/models/structural/file-system-node.model.ts:21 | with unique ids, replacing a node by itself changes nothing |
| DocumentTree.ReplaceInBySelf | src/app/models/structural/directory.model.ts:9 | the same for a list of children |
| DocumentTree.ReplaceTwice | src/app/models/structural/file-system-node.model.ts:21 | a second update of the same node overrides the first |
| DocumentTree.ReplaceInTwice | src/app/models/structural/directory.model.ts:9 | the same for a list of children |
| DocumentTree.FindAfterReplace | src/app/models/structural/file-system-node.model.ts:21 | after an update, looking the id up finds the new node |
| DocumentTree.FindInAfterReplace | src/app/models/structural/directory.model.ts:9 | the same for a list of children |
| DocumentTree.ChildrenAfterWrite | src/app/models/structural/directory.model.ts:9 | reading a directory's children back after setting them gives what was set |
| DocumentTree.ChildrenWriteTwice | src/app/models/structural/directory.model.ts:9 | setting a directory's children twice is setting them once to the second value |
| DocumentTree.ChildrenWriteSame | src/app/models/structural/directory.model.ts:9 | setting a directory's children to what they are changes nothing |
| DocumentTree.TagsAfterWrite | src/app/models/structural/file-system-node.model.ts:24 | reading a node's tags back after setting them gives what was set |
| DocumentTree.TagsWriteTwice | src/app/models/structural/file-system-node.model.ts:24 | setting a node's tags twice is setting them once to the second value |
| DocumentTree.TagsWriteSame | src/app/models/structural/file-system-node.model.ts:24 | setting a node's tags to what they are changes nothing |
| DocumentTree.Tree.constructor | src/app/models/structural/directory.model.ts:8-13 | the tree holds the given root |
| DocumentTree.Tree.AddChild | src/app/models/structural/directory.model.ts:15-17 | `add` appends the node to the directory with that id; no change when there is none |
| DocumentTree.Tree.RemoveChild | src/app/models/structural/directory.model.ts:20-26 | `remove` cuts the child out and returns its index, or -1 with no change |
| DocumentTree.Tree.InsertChild | src/app/models/structural/directory.model.ts:29-31 | `insertAt` splices the node into the directory's children at the index |
| DocumentTree.Tree.SetChildren | src/app/models/behavioral/sort.command.ts:63 | `dir.children = kids` on the directory with that id |
| DocumentTree.Tree.AddTag | src/app/models/behavioral/tag.command.ts:39 | `node.tags.add(t)` on the node with that id |
| DocumentTree.Tree.DeleteTag | src/app/models/behavioral/tag.command.ts:43 | `node.tags.delete(t)` on the node with that id |
| DocumentTree.Find | src/app/models/structural/file-system-node.model.ts:21 | the first node in pre-order carrying the id, or none |
| DocumentTree.ReplaceNode | src/app/models/structural/directory.model.ts:9 | the tree with the node carrying the id swapped for the new value: the value form of an update in place |
| DocumentTree.WithChildren | src/app/models/behavioral/sort.command.ts:63 | `dir.children = kids` for the directory with the id; the tree unchanged when there is none |
| DocumentTree.WithTags | src/app/models/structural/file-system-node.model.ts:24 | a node's `tags` set to the new set for the node with the id; the tree unchanged when there is none |
| ViewStates.IdsOfSnoc | src/app/services/behavioral/view-state.service.ts:42-44 | the ids under a list of children grow by the ids of each child walked |
| ViewStates.ViewStateService.constructor | src/app/services/behavioral/view-state.service.ts:18 | the map starts empty |
| ViewStates.ViewStateService.GetHighlightState | src/app/services/behavioral/view-state.service.ts:21-23 | a node without an entry reads `none`, and with the map's invariant a node reads other than `none` exactly when it has an entry |
| ViewStates.ViewStateService.SetHighlightState | src/app/services/behavioral/view-state.service.ts:26-32 | the node reads back the state set, every other node keeps its state, and `none` removes the entry |
| ViewStates.ViewStateService.ResetAll | src/app/services/behavioral/view-state.service.ts:35-37 | the map is emptied |
| ViewStates.ViewStateService.ResetTree | src/app/services/behavioral/view-state.service.ts:40-45 | exactly the entries of the subtree's nodes are removed: they read `none`, every other node keeps its state |
| ConsoleObservers.Split | src/app/models/behavioral/console.observer.ts:36 | splitting yields at least one piece (the reference used to show the output loses nothing) |
| ConsoleObservers.SplitNoSeparator | src/app/models/behavioral/console.observer.ts:36 | a text without the separator splits into itself |
| ConsoleObservers.SplitAtSeparator | src/app/models/behavioral/console.observer.ts:36 | splitting at the first separator yields the prefix, then the pieces of the rest |
| ConsoleObservers.SplitJoin | src/app/models/behavioral/console.observer.ts:35-37 | splitting the output at newlines gives back the messages when none holds a newline |
| ConsoleObservers.ConsoleObserver.constructor | src/app/models/behavioral/console.observer.ts:19 | the log starts empty |
| ConsoleObservers.ConsoleObserver.Update | src/app/models/behavioral/console.observer.ts:25-27 | the event's message is appended unchanged |
| ConsoleObservers.ConsoleObserver.GetLogs | src/app/models/behavioral/console.observer.ts:30-32 | the caller receives the log's contents |
| ConsoleObservers.ConsoleObserver.Output | src/app/models/behavioral/console.observer.ts:35-37 | no messages give the empty text and one message gives itself |
| ConsoleObservers.ConsoleObserver.Clear | src/app/models/behavioral/console.observer.ts:40-42 | the log and the output are empty |
| DashboardObservers.InitialStats | src/app/models/behavioral/dashboard.observer.ts:31-39 | the initial record has no counts, no completion and no current node |
| DashboardObservers.ProgressText | src/app/models/behavioral/dashboard.observer.ts:81-87 | the text starts with the completion phrase exactly when the search is complete |
| DashboardObservers.Updated | src/app/models/behavioral/dashboard.observer.ts:51-68 | the counts step as the event says and the text is recomputed from the new counts |
| DashboardObservers.DashboardCounts | src/app/models/behavioral/dashboard.observer.ts:51-87 | from the initial record the counts are those of the events seen, matches never exceed visits, and the text announces completion exactly when a `complete` event was seen |
| DashboardObservers.DashboardObserver.constructor | src/app/models/behavioral/dashboard.observer.ts:43 | the observer starts with the initial record |
| DashboardObservers.DashboardObserver.Update | src/app/models/behavioral/dashboard.observer.ts:51-68 | the record becomes the updated record for the event |
| DashboardObservers.DashboardObserver.GetStats | src/app/models/behavioral/dashboard.observer.ts:71-73 | the caller receives the record |
| DashboardObservers.DashboardObserver.Reset | src/app/models/behavioral/dashboard.observer.ts:76-78 | the record returns to the initial record |
| SearchEvents.CountKind | src/app/models/behavioral/search-event.model.ts:9 | a count of one kind of event never exceeds the number of events |
| SearchEvents.CountKindAppend | src/app/models/behavioral/search-event.model.ts:9 | counting over two streams adds up |
| SearchEvents.ObserveAllCounts | src/app/models/behavioral/dashboard.observer.ts:51-66 | a progress observer started fresh counts every `visiting` and `matched` event as a visit, every `matched` as a match, and is complete exactly after a `complete` event |
| SearchEvents.SearchSubject.constructor | src/app/services/behavioral/search-subject.service.ts:28 | nothing has been published |
| SearchEvents.SearchSubject.Notify | src/app/services/behavioral/search-subject.service.ts:42-44 | `notify` appends the event to the published stream |
| ExtensionSearch.ResultsOfAppend | src/app/models/behavioral/extension-search.visitor.ts:38 | the results of a list of children are those of its parts, in order |
| ExtensionSearch.TraceOfAppend | src/app/models/behavioral/extension-search.visitor.ts:38 | the events of a list of children are those of its parts, in order |
| ExtensionSearch.ResultsOfSnoc | src/app/models/behavioral/extension-search.visitor.ts:38 | walking one more child adds that child's results and events |
| ExtensionSearch.DirectoryUnfold | src/app/models/behavioral/extension-search.visitor.ts:30-39 | a directory's walk is its `visiting` event followed by its children's walks |
| ExtensionSearch.MatchLinesAppend | src/app/models/behavioral/extension-search.visitor.ts:61-62 | the matching lines of two lists of leaves are those of each, in order |
| ExtensionSearch.ResultsAreMatchingLeaves | src/app/models/behavioral/extension-search.visitor.ts:30-71 | the results are exactly the lines of the files whose name ends with the target, in pre-order; no directory contributes |
| ExtensionSearch.ResultsOfAreMatchingLeaves | src/app/models/behavioral/extension-search.visitor.ts:38 | the same for a list of children |
| ExtensionSearch.MatchesFollowVisitsAppend | src/app/models/behavioral/extension-search.visitor.ts:53-71 | joining two traces keeps every `matched` event right after its node's `visiting` event |
| ExtensionSearch.TraceShape | src/app/models/behavioral/extension-search.visitor.ts:30-71 | one `visiting` event per node, one `matched` event per result, no `complete` event, every `matched` right after the same node's `visiting`, and the root's `visiting` event first |
| ExtensionSearch.TraceOfShape | src/app/models/behavioral/extension-search.visitor.ts:38 | the same counts and ordering for a list of children |
| ExtensionSearch.ExtensionSearchVisitor.constructor | src/app/models/behavioral/extension-search.visitor.ts:15-24 | no results, the given target and the optional subject |
| ExtensionSearch.ExtensionSearchVisitor.Visit | src/app/models/behavioral/extension-search.visitor.ts:38 | `accept` appends the node's results, and its events when a subject is attached |
| ExtensionSearch.ExtensionSearchVisitor.VisitDirectory | src/app/models/behavioral/extension-search.visitor.ts:30-39 | the directory's `visiting` event, then each child's walk in order |
| ExtensionSearch.ExtensionSearchVisitor.VisitChildren | src/app/models/behavioral/extension-search.visitor.ts:38 | the `forEach` appends the walks of the children in order |
| ExtensionSearch.ExtensionSearchVisitor.CheckFile | src/app/models/behavioral/extension-search.visitor.ts:53-71 | the `visiting` event, then a result line and a `matched` event exactly when the name ends with the target |
| ExtensionSearch.SearchResults | src/app/models/behavioral/extension-search.visitor.ts:30-71 | the result lines a walk pushes: `找到: name details` for each file whose name ends with the target, in pre-order |
| ExtensionSearch.SearchTrace | src/app/models/behavioral/extension-search.visitor.ts:30-71 | the events a walk publishes: `visiting` for each directory and file, and a `matched` right after the `visiting` of each matching file |
| SearchEventAdapters.Progress | src/app/models/structural/search-event.adapter.ts:90-94 | 100 once complete, 0 without a positive expected total, otherwise the visited share rounded to the nearest percent (half up) and capped at 99 |
| SearchEventAdapters.RoundedPercent | src/app/models/structural/search-event.adapter.ts:93 | `Math.round(visited / total * 100)`: the whole number nearest the exact percentage, the larger on a tie |
| SearchEventAdapters.ProgressMonotone | src/app/models/structural/search-event.adapter.ts:90-94 | more visited nodes never lower the progress |
| SearchEventAdapters.RoundedMonotone | src/app/models/structural/search-event.adapter.ts:93 | the rounded percentage grows with the visited count |
| SearchEventAdapters.LessFactor | src/app/models/structural/search-event.adapter.ts:93 | dividing out a positive total keeps a strict order |
| SearchEventAdapters.Summary | src/app/models/structural/search-event.adapter.ts:113-118 | the summary starts with the completion phrase exactly when the search is complete |
| SearchEventAdapters.SearchEventAdapter.constructor | src/app/models/structural/search-event.adapter.ts:59-61 | no events seen and the given expected total |
| SearchEventAdapters.SearchEventAdapter.Update | src/app/models/structural/search-event.adapter.ts:69-85 | the counts step as for every progress observer; the expected total is kept |
| SearchEventAdapters.SearchEventAdapter.GetProgress | src/app/models/structural/search-event.adapter.ts:90-94 | the progress of the current counts |
| SearchEventAdapters.SearchEventAdapter.GetSummary | src/app/models/structural/search-event.adapter.ts:113-118 | the summary of the current counts |
| SearchEventAdapters.SearchEventAdapter.SetExpectedTotal | src/app/models/structural/search-event.adapter.ts:121-123 | only the expected total changes |
| SearchEventAdapters.SearchEventAdapter.Reset | src/app/models/structural/search-event.adapter.ts:126-131 | back to no events seen; the expected total is kept |
| SearchEventAdapters.AdapterCounts | src/app/models/structural/search-event.adapter.ts:69-94 | an adapter fed a stream never reports more matches than visits, and its progress is 100 exactly after a `complete` event and otherwise that of its `visiting` and `matched` events |
| LogEntries.EscapeHtml | src/app/models/structural/log-entry.decorator.ts:33-35 | the escaped text holds no `<` or `>`, and a text without `&`, `<` and `>` is left as it is |
| LogEntries.HtmlEscaped | src/app/models/structural/log-entry.decorator.ts:33-35 | the character-by-character reference escaping has the same two properties |
| LogEntries.EscapeHtmlPerChar | src/app/models/structural/log-entry.decorator.ts:33-35 | the three global replacements in turn escape each character on its own, `&` first so no entity is escaped twice |
| LogEntries.ReplaceEntitiesAppend | src/app/models/structural/log-entry.decorator.ts:34 | the replacements distribute over concatenation |
| LogEntries.ReplaceEntitiesChar | src/app/models/structural/log-entry.decorator.ts:34 | on one character the replacements give its entity |
| LogEntries.UnescapeEscape | src/app/models/structural/log-entry.decorator.ts:28-35 | escaping loses nothing: the message reads back from its escaped form |
| LogEntries.UnescapeEscaped | src/app/models/structural/log-entry.decorator.ts:33-35 | the same for the reference escaping |
| LogEntries.UnescapeStep | src/app/models/structural/log-entry.decorator.ts:34 | one escaped character reads back as itself |
| LogEntries.UnescapeAmp | src/app/models/structural/log-entry.decorator.ts:34 | `&amp;` reads back as `&` |
| LogEntries.UnescapeLt | src/app/models/structural/log-entry.decorator.ts:34 | `&lt;` reads back as `<` |
| LogEntries.UnescapeGt | src/app/models/structural/log-entry.decorator.ts:34 | `&gt;` reads back as `>` |
| LogEntries.UnescapeOther | src/app/models/structural/log-entry.decorator.ts:34 | any other character reads back as itself |
| LogEntries.RenderKeepsMessage | src/app/models/structural/log-entry.decorator.ts:25-90 | every decorator chain's rendering holds the escaped message verbatim |
| LogEntries.ContainsWithin | src/app/models/structural/log-entry.decorator.ts:61-90 | wrapping text around a rendering keeps what it contains |
| LogEntries.CountChar | src/app/models/structural/log-entry.decorator.ts:33-35 | a character count never exceeds the length and is zero for an absent character |
| LogEntries.CountCharAppend | src/app/models/structural/log-entry.decorator.ts:61-90 | counts over a concatenation add up |
| LogEntries.RenderTags | src/app/models/structural/log-entry.decorator.ts:25-90 | with markup-free icons and colour classes, a rendering holds exactly one `<` per opening and per closing tag of its decorators, so the message injects no markup |
| LogEntries.IconLiterals | src/app/models/structural/log-entry.decorator.ts:62 | the icon decorator's two markup pieces each hold one `<` |
| LogEntries.ColorLiterals | src/app/models/structural/log-entry.decorator.ts:79 | the colour decorator's markup pieces hold one, none and one `<` |
| LogEntries.BoldLiterals | src/app/models/structural/log-entry.decorator.ts:89 | the bold decorator's markup pieces each hold one `<` |
| LogEntries.IconTags | src/app/models/structural/log-entry.decorator.ts:61-63 | the icon decorator adds two `<` to its inner rendering |
| LogEntries.ColorTags | src/app/models/structural/log-entry.decorator.ts:78-80 | the colour decorator adds two `<` to its inner rendering |
| LogEntries.BoldTags | src/app/models/structural/log-entry.decorator.ts:88-90 | the bold decorator adds two `<` to its inner rendering |
| LogEntries.TagCount | src/app/models/structural/log-entry.decorator.ts:61-90 | a piece of markup that opens one tag holds one `<` |
| LogEntries.ReplaceEntities | src/app/models/structural/log-entry.decorator.ts:34 | the three global replacements of `escapeHtml`: `&` first, then `<` and `>` |
| LogEntries.Render | src/app/models/structural/log-entry.decorator.ts:28-90 | `render` of each entry kind: the escaped message, or the wrapped rendering inside the icon, colour or bold markup |
| LogDecoratorFactory.DetectLogCategory | src/app/models/structural/log-decorator.factory.ts:43-60 | each category is chosen exactly when its keywords occur and no earlier group's do, in the order matched, complete, visiting, command, system; `default` exactly when no keyword occurs |
| LogDecoratorFactory.AnyOfThree | src/app/models/structural/log-decorator.factory.ts:44 | a message holds one of three keywords exactly when it holds the first, the second or the third |
| LogDecoratorFactory.AnyOfTwo | src/app/models/structural/log-decorator.factory.ts:47 | the same for two keywords |
| LogDecoratorFactory.ConfigMarkupFree | src/app/models/structural/log-decorator.factory.ts:30-37 | no icon or colour class in the table holds a `<` |
| LogDecoratorFactory.DecorateLogEntry | src/app/models/structural/log-decorator.factory.ts:70-83 | the chain wraps the message: Color with the category's colour class around the plain entry, Bold exactly for the bold categories, Icon with the category's icon outermost, with the category given or else detected |
| LogDecoratorFactory.DecoratedTags | src/app/models/structural/log-decorator.factory.ts:30-83 | a decorated entry renders as the icon span, then the `log-<class>` span of its category around the escaped message, inside `<strong>` for the bold categories; so it holds that span and the escaped message, with six `<` for matched and complete and four for the other categories |
| LogDecoratorFactory.ColorSpan | src/app/models/structural/log-entry.decorator.ts:78-80 | the colour decorator's rendering around a plain entry: the `log-<class>` span holding the escaped message |
| LogDecoratorFactory.Config | src/app/models/structural/log-decorator.factory.ts:30-37 | `DECORATE_MAP`: the icon, colour class and bold flag of each category |
| Facades.FindParentSpec | src/app/services/behavioral/file-manager-facade.service.ts:157-166 | a parent is found exactly when the node lies strictly below the directory, and what is found is a directory inside it with the node among its children |
| Facades.FindParentInSpec | src/app/services/behavioral/file-manager-facade.service.ts:158-165 | the same for the `for` over the remaining children |
| Facades.ParentInTree | src/app/services/behavioral/file-manager-facade.service.ts:157-166 | in a tree with unique ids the parent found is the tree's own directory under that id |
| Facades.CreateStrategy | src/app/services/behavioral/file-manager-facade.service.ts:47-58 | the strategy has the requested key and direction, and its description names the direction |
| Facades.FileManagerFacade.constructor | src/app/services/behavioral/file-manager-facade.service.ts:37-44 | the services are the given ones and the mediator starts with empty indexes |
| Facades.FileManagerFacade.Sort | src/app/services/behavioral/file-manager-facade.service.ts:61-66 | one sort command with the chosen strategy runs and is pushed; the tree is sorted by it and its description is returned |
| Facades.FileManagerFacade.RestoreSort | src/app/services/behavioral/file-manager-facade.service.ts:69-77 | one restore command built from the sort command's saved orders runs and is pushed; the tree gets those orders back |
| Facades.FileManagerFacade.DeleteNode | src/app/services/behavioral/file-manager-facade.service.ts:80-87 | `null` with nothing recorded exactly when the node has no parent in the tree; otherwise one delete command runs, is pushed, and the node leaves its parent |
| Facades.FileManagerFacade.ToggleTag | src/app/services/behavioral/file-manager-facade.service.ts:90-95 | the tag is removed when the mediator says the node has it and added otherwise, through one pushed tag command |
| Facades.FileManagerFacade.SyncTagMediator | src/app/services/behavioral/file-manager-facade.service.ts:103-105 | the mediator's indexes are rebuilt from every node of the tree |
| Facades.FileManagerFacade.CopyNode | src/app/services/behavioral/file-manager-facade.service.ts:108-112 | one copy command runs and is pushed; the clipboard then holds a copy of the node |
| Facades.FileManagerFacade.PasteNode | src/app/services/behavioral/file-manager-facade.service.ts:115-122 | `null` with nothing recorded exactly when the clipboard is empty; otherwise one paste command runs, is pushed, and a copy is added under the target |
| Facades.FileManagerFacade.SearchByExtension | src/app/services/behavioral/file-manager-facade.service.ts:145-149 | the searched subtree's highlights are cleared and the service's search results and events are produced |
| Facades.FindParent | src/app/services/behavioral/file-manager-facade.service.ts:157-166 | `findParent`: the first directory, in the order of the `for` and its recursion, with a child carrying the id; none otherwise |
| FileSystemServices.ExportedFramed | src/app/services/structural/file-system.service.ts:98-114 | whatever the format, a directory's export opens with the root's opening text and ends with its closing text |
| FileSystemServices.XmlFramed | src/app/services/structural/file-system.service.ts:70-74 | the XML export opens with the root's sanitized opening tag line and ends with its closing tag line |
| FileSystemServices.MarkdownFramed | src/app/services/structural/file-system.service.ts:88-92 | the Markdown export opens with the root's heading and ends with its closing text |
| FileSystemServices.SearchStreamShape | src/app/services/structural/file-system.service.ts:120-132 | one search publishes exactly one `complete` event, last, carrying the result count; a fresh observer of the stream has counted every node and every result and knows the search is complete |
| FileSystemServices.FileSystemService.constructor | src/app/services/structural/file-system.service.ts:25 | the service holds the injected search subject |
| FileSystemServices.FileSystemService.BuildSampleTree | src/app/services/structural/file-system.service.ts:30-58 | the sample tree's root, folders and README in order, nine fresh ids, unique, and 2749.5 KB in all |
| FileSystemServices.FileSystemService.CalculateTotalSize | src/app/services/structural/file-system.service.ts:63-65 | the root's size is the total of all its files |
| FileSystemServices.FileSystemService.ExportToXml | src/app/services/structural/file-system.service.ts:70-74 | the XML exporter's output over the root |
| FileSystemServices.FileSystemService.ExportToJson | src/app/services/structural/file-system.service.ts:79-83 | the JSON exporter's output over the root |
| FileSystemServices.FileSystemService.ExportToMarkdown | src/app/services/structural/file-system.service.ts:88-92 | the Markdown exporter's output over the root |
| FileSystemServices.FileSystemService.ExportByFormat | src/app/services/structural/file-system.service.ts:98-114 | the output of the exporter `createExporter` picks for the format |
| FileSystemServices.FileSystemService.SearchByExtension | src/app/services/structural/file-system.service.ts:120-132 | the visitor's results unchanged, and the walk's events followed by one `complete` event |
| FileSystemServices.SampleFacts | src/app/services/structural/file-system.service.ts:30-58 | the assembled tree totals 2749.5 KB and its nine ids are unique and fresh |
| FileSystemServices.DocsFacts | src/app/services/structural/file-system.service.ts:33-43 | the documents folder totals 2548 KB with three unique ids |
| FileSystemServices.NotesFacts | src/app/services/structural/file-system.service.ts:45-54 | the notes folder totals 201 KB with four unique ids |
| FileSystemServices.OneChild | src/app/services/structural/file-system.service.ts:50-52 | sizes, ids and uniqueness of a one-child list are those of the child |
| FileSystemServices.TwoChildren | src/app/services/structural/file-system.service.ts:33-43 | sizes and ids of a two-child list add up, and it is unique exactly when both are and they share no id |
| FileSystemServices.ThreeChildren | src/app/services/structural/file-system.service.ts:31-55 | the same for three children |
| FileSystemServices.CompleteMessage | src/app/services/structural/file-system.service.ts:128 | the `complete` event's message, carrying the number of results |
| FileSystemServices.SearchStream | src/app/services/structural/file-system.service.ts:120-132 | the events one search publishes: the visitor's events, then one `complete` event |

## Left out

- Object identity: the program tells nodes apart by reference, and the model by id. Ids are unique because the allocator only hands out increasing numbers. The mediator's registry therefore holds ids rather than node objects.
- Static pools, singletons and injected services (the clipboard instance, the label pool, the id counter, the search subject, the view state) are explicit objects passed to their users. Angular's `inject`, `signal` and `@Injectable` wiring is not part of this model.
- The RxJS subject is modelled by the ordered sequence of events it has published. Subscription, unsubscription and delivery order among several observers are left out.
- SortCommands.SortCommand.Undo: a recorded order holds node values, so restoring takes each recorded child in its current state from the directory. A child that has left the directory since comes back as it was recorded, where the program would bring back the object in its current state.
- SortCommands.ApplyOrders: a recorded directory that is no longer in the tree is skipped, in the sort command's `undo` and in both methods of the restore command. The program would reorder that detached object, which matters only if it is later put back.
- TagCommands.TagCommand.Undo: undoing a removal adds the tag back at the end of the insertion order, as `Set.add` does, so the tag order is not restored.
- ConsoleObservers.ConsoleObserver.Update: the log keeps the raw message and the output joins with newlines, as `console.observer.ts` does; the HTML rendering and `<br>` joining some of the repository's tests expect are not there.
- The image and text files declare no `clone`, although the base class declares it abstract. The model clones them as the directory and Word file do: same fields, fresh id, tags copied.
- The image file's details print the raw size in KB, as the code does, not the formatted size.
- `getLastSortState` is called by a page but is not defined by the history service; it is not part of this model.
- The XML exporter does not extend the template-method base class in the source, and it is a separate visitor here too.
- The `_isLastChild` flag that the base exporter writes onto nodes is a parameter of the walk.
- The exporters restore the saved indent level after a directory instead of decrementing it. The two agree because every increment is matched by one decrement.
- `FileFactory` passes `createdAt` to the image and text constructors, which ignore it; their creation time is always the current time.
- Dates are opaque values and the current time is a parameter.
- Sizes are exact reals, not IEEE doubles. `toFixed(1)` is the exact rounding of section 21.1.3.3 of ECMA-262, which can differ from doubles on values that have no exact binary form.
- `localeCompare` with the `zh-Hant` collation is modelled as code-point order, a total order on strings; the ICU collation rules are left out.
- SortStrategies.Sort: the result is proved sorted and a permutation of the input; that nodes comparing equal keep their input order, as JavaScript's stable sort keeps them, is not stated.
- SearchEventAdapters.Progress / RoundedPercent: the percentage is the exact ratio `visited / expectedTotal * 100` rounded half up, computed on integers. The program rounds the double that floating-point division and multiplication produce, which can differ by 1 when that double falls just below a half: 23 of 40 gives 57 in the program and 58 here, and 29 of 200 gives 14 and 15.
- SearchEventAdapters.SearchEventAdapter.GetProgress: equals `Progress`, so it carries the same rounding gap.
- SearchEventAdapters.Summary: embeds `Progress` while the search runs, so it carries the same rounding gap.
- SearchEventAdapters.SearchEventAdapter.GetSummary: equals `Summary`, so it carries the same rounding gap.
- The facade's `calculateTotalSize`, `exportToXml`, `exportByFormat`, `buildSampleTree`, `getTagMediator` and `getClipboard` only forward to the services and objects modelled above. The `isDirectory` type guards are the `Dir?` test.
- The adapter's getters (`getVisitedCount`, `getMatchedCount`, `isSearchComplete`, `getCurrentNodeName`) read a field each and are the class's fields here.
- Whole-document validity of the JSON and XML output is not proved. The model proves the framing, the escaping and the structure of each line.
- The Angular pages, templates, routing and Mermaid diagrams, and the older copies of the models, visitors, commands and service that the current code no longer uses, are not part of this model.
