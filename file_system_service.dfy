// The structural file-system service: it builds the sample tree through the
// file factory, totals a tree's size, exports a tree in one of three formats
// and runs an extension search whose events go to the injected search
// subject, closing the stream of one search with a single `complete` event.

module FileSystemServices {
  import opened Common
  import opened Strings
  import opened Nodes
  import opened DocumentTree
  import opened NodeConstruction
  import opened FileFactory
  import opened SearchEvents
  import opened ExtensionSearch
  import XmlExport
  import BaseExport

  /** The export formats the service offers. */
  datatype ServiceFormat = XmlFormat | JsonFormat | MarkdownFormat

  /** What the exporter of each format produces for `root`, visited from an empty output. */
  function Exported(format: ServiceFormat, root: Node): string {
    match format
    case XmlFormat => XmlExport.XmlNode("", 0, root)
    case JsonFormat => BaseExport.ExportNode(BaseExport.Json, "", 0, root, None)
    case MarkdownFormat => BaseExport.ExportNode(BaseExport.Markdown, "", 0, root, None)
  }

  /** The line that opens the export of the root directory. */
  function Opening(format: ServiceFormat, root: Node): string {
    match format
    case XmlFormat => XmlExport.OpenLine(0, XmlExport.SanitizeTagName(root.name))
    case JsonFormat => BaseExport.DirStart(BaseExport.Json, 0, BaseExport.Escape(BaseExport.Json, root.name))
    case MarkdownFormat => BaseExport.DirStart(BaseExport.Markdown, 0, BaseExport.Escape(BaseExport.Markdown, root.name))
  }

  /** The text that closes the export of the root directory. */
  function Closing(format: ServiceFormat, root: Node): string {
    match format
    case XmlFormat => XmlExport.CloseLine(0, XmlExport.SanitizeTagName(root.name))
    case JsonFormat => BaseExport.DirEnd(BaseExport.Json, 0)
    case MarkdownFormat => "\n"
  }

  /**
   * Whatever the format, the export of a directory is framed by the root's
   * opening and closing text, with the members' exports between them.
   */
  lemma ExportedFramed(format: ServiceFormat, root: Node)
    requires root.Dir?
    ensures StartsWith(Exported(format, root), Opening(format, root))
    ensures EndsWith(Exported(format, root), Closing(format, root))
  {
    match format {
      case XmlFormat => XmlFramed(root);
      case JsonFormat => BaseExport.JsonFramed(root);
      case MarkdownFormat => MarkdownFramed(root);
    }
  }

  lemma XmlFramed(root: Node)
    requires root.Dir?
    ensures var tag := XmlExport.SanitizeTagName(root.name);
      var r := XmlExport.XmlNode("", 0, root);
      StartsWith(r, XmlExport.OpenLine(0, tag)) && EndsWith(r, XmlExport.CloseLine(0, tag))
  {
    var tag := XmlExport.SanitizeTagName(root.name);
    XmlExport.XmlDirShape(0, root);
    BaseExport.Framed(XmlExport.XmlNode("", 0, root), XmlExport.OpenLine(0, tag), XmlExport.XmlMembers(1, root.children), XmlExport.CloseLine(0, tag));
  }

  lemma MarkdownFramed(root: Node)
    requires root.Dir?
    ensures var r := BaseExport.ExportNode(BaseExport.Markdown, "", 0, root, None);
      StartsWith(r, BaseExport.DirStart(BaseExport.Markdown, 0, BaseExport.Escape(BaseExport.Markdown, root.name))) &&
      EndsWith(r, "\n")
  {
    BaseExport.MarkdownDirShape(0, root);
    BaseExport.Framed(BaseExport.ExportDir(BaseExport.Markdown, "", 0, root),
      BaseExport.DirStart(BaseExport.Markdown, 0, BaseExport.Escape(BaseExport.Markdown, root.name)),
      BaseExport.MembersText(BaseExport.Markdown, 1, root.children), "\n");
  }

  /** The message of the `complete` event that ends a search with `count` results. */
  function CompleteMessage(count: nat): string {
    "🏁 搜尋完成！共找到 " + NatText(count) + " 個結果"
  }

  /** The event stream of one search: the walk's events, then one `complete` event. */
  function SearchStream(extension: string, root: Node): seq<SearchEvent> {
    SearchTrace(extension, root) + [SearchEvent(Complete, None, CompleteMessage(|SearchResults(extension, root)|))]
  }

  /**
   * One search publishes exactly one `complete` event, as its last event,
   * and its message carries the number of results; an observer that saw the
   * stream from a fresh start has counted every node as visited, every result
   * as matched, and knows the search is complete.
   */
  lemma SearchStreamShape(extension: string, root: Node)
    ensures var es := SearchStream(extension, root);
      CountKind(es, Complete) == 1 && es[|es| - 1].kind == Complete &&
      Strings.Contains(es[|es| - 1].message, NatText(|SearchResults(extension, root)|))
    ensures var t := ObserveAll(NoEvents, SearchStream(extension, root));
      t.visited == NodeCount(root) + |SearchResults(extension, root)| &&
      t.matched == |SearchResults(extension, root)| && t.complete
  {
    var trace := SearchTrace(extension, root);
    var count := |SearchResults(extension, root)|;
    var done := SearchEvent(Complete, None, CompleteMessage(count));
    TraceShape(extension, root);
    CountKindAppend(trace, [done], Complete);
    CountKindAppend(trace, [done], Visiting);
    CountKindAppend(trace, [done], Matched);
    ObserveAllCounts(trace + [done]);
    var prefix := "🏁 搜尋完成！共找到 ";
    assert OccursAt(done.message, NatText(count), |prefix|);
  }

  class FileSystemService {
    /** The injected search subject that the observers listen to. */
    const searchSubject: SearchSubject

    constructor(searchSubject: SearchSubject)
      ensures this.searchSubject == searchSubject
    {
      this.searchSubject := searchSubject;
    }

    /**
     * `buildSampleTree`: the root holds the project documents, the personal
     * notes (with the 2025 archive inside) and a README, in that order; nine
     * nodes take the next nine ids, and the sizes add up to 2749.5 KB.
     */
    method BuildSampleTree(alloc: IdAllocator, now: Date) returns (root: Node)
      modifies alloc
      ensures alloc.next == old(alloc.next) + 9
      ensures root.Dir? && root.name == "根目錄 (Root)"
      ensures |root.children| == 3
      ensures root.children[0].Dir? && root.children[0].name == "專案文件 (Project_Docs)"
      ensures root.children[1].Dir? && root.children[1].name == "個人筆記 (Personal_Notes)"
      ensures root.children[2].Text? && root.children[2].name == "README.txt"
      ensures SizeKB(root) == 2749.5
      ensures UniqueIds(root) && IdsWithin(root, old(alloc.next), alloc.next)
    {
      ghost var base := alloc.next;
      root := CreateDirectory(alloc, "根目錄 (Root)");

      var projectDocs := CreateDirectory(alloc, "專案文件 (Project_Docs)");
      var spec := CreateWord(alloc, WordParams("需求規格書.docx", 500.0, 15, None), now);
      projectDocs := projectDocs.(children := Add(projectDocs.children, spec));
      var diagram := CreateImage(alloc, ImageParams("系統架構圖.png", 2048.0, 1920, 1080, None), now);
      projectDocs := projectDocs.(children := Add(projectDocs.children, diagram));
      root := root.(children := Add(root.children, projectDocs));

      var personalNotes := CreateDirectory(alloc, "個人筆記 (Personal_Notes)");
      var todo := CreateText(alloc, TextParams("待辦清單.txt", 1.0, "UTF-8", None), now);
      personalNotes := personalNotes.(children := Add(personalNotes.children, todo));

      var archive := CreateDirectory(alloc, "2025備份 (Archive_2025)");
      var minutes := CreateWord(alloc, WordParams("舊會議記錄.docx", 200.0, 5, None), now);
      archive := archive.(children := Add(archive.children, minutes));
      personalNotes := personalNotes.(children := Add(personalNotes.children, archive));

      root := root.(children := Add(root.children, personalNotes));
      var readme := CreateText(alloc, TextParams("README.txt", 0.5, "ASCII", None), now);
      root := root.(children := Add(root.children, readme));

      SampleFacts(root, base);
    }

    /** `calculateTotalSize`: the root's size, which is the total of all its files. */
    method CalculateTotalSize(root: Node) returns (total: real)
      ensures total == LeafTotal(Leaves(root))
    {
      total := SizeKB(root);
      SizeIsLeafTotal(root);
    }

    /** `exportToXml` */
    method ExportToXml(root: Node) returns (r: string)
      ensures r == Exported(XmlFormat, root)
    {
      var visitor := new XmlExport.XmlExportVisitor();
      visitor.Visit(root);
      r := visitor.GetResult();
    }

    /** `exportToJson` */
    method ExportToJson(root: Node) returns (r: string)
      ensures r == Exported(JsonFormat, root)
    {
      var visitor := new BaseExport.BaseExportVisitor(BaseExport.Json);
      visitor.Visit(root, None);
      r := visitor.GetResult();
    }

    /** `exportToMarkdown` */
    method ExportToMarkdown(root: Node) returns (r: string)
      ensures r == Exported(MarkdownFormat, root)
    {
      var visitor := new BaseExport.BaseExportVisitor(BaseExport.Markdown);
      visitor.Visit(root, None);
      r := visitor.GetResult();
    }

    /** `exportByFormat`: the exporter `createExporter` picks for the format, run over the root. */
    method ExportByFormat(root: Node, format: ServiceFormat) returns (r: string)
      ensures r == Exported(format, root)
    {
      match format {
        case XmlFormat =>
          var visitor := new XmlExport.XmlExportVisitor();
          visitor.Visit(root);
          r := visitor.GetResult();
        case JsonFormat =>
          var visitor := new BaseExport.BaseExportVisitor(BaseExport.Json);
          visitor.Visit(root, None);
          r := visitor.GetResult();
        case MarkdownFormat =>
          var visitor := new BaseExport.BaseExportVisitor(BaseExport.Markdown);
          visitor.Visit(root, None);
          r := visitor.GetResult();
      }
    }

    /**
     * `searchByExtension`: the visitor walks the tree publishing its events,
     * the service then publishes the `complete` event, and the visitor's
     * results are returned unchanged.
     */
    method SearchByExtension(root: Node, extension: string) returns (results: seq<string>)
      modifies searchSubject
      ensures results == SearchResults(extension, root)
      ensures searchSubject.events == old(searchSubject.events) + SearchStream(extension, root)
    {
      var visitor := new ExtensionSearchVisitor(extension, searchSubject);
      visitor.Visit(root);
      searchSubject.Notify(SearchEvent(Complete, None, CompleteMessage(|visitor.results|)));
      results := visitor.results;
    }
  }

  /** The ids, uniqueness and total size of the tree `buildSampleTree` assembles. */
  lemma SampleFacts(root: Node, base: nat)
    requires root.Dir? && |root.children| == 3 && root.id == base
    requires var docs := root.children[0];
      docs.Dir? && docs.id == base + 1 && |docs.children| == 2 &&
      !docs.children[0].Dir? && docs.children[0].id == base + 2 && SizeKB(docs.children[0]) == 500.0 &&
      !docs.children[1].Dir? && docs.children[1].id == base + 3 && SizeKB(docs.children[1]) == 2048.0
    requires var notes := root.children[1];
      notes.Dir? && notes.id == base + 4 && |notes.children| == 2 &&
      !notes.children[0].Dir? && notes.children[0].id == base + 5 && SizeKB(notes.children[0]) == 1.0 &&
      notes.children[1].Dir? && notes.children[1].id == base + 6 && |notes.children[1].children| == 1 &&
      !notes.children[1].children[0].Dir? && notes.children[1].children[0].id == base + 7 &&
      SizeKB(notes.children[1].children[0]) == 200.0
    requires !root.children[2].Dir? && root.children[2].id == base + 8 && SizeKB(root.children[2]) == 0.5
    ensures SizeKB(root) == 2749.5
    ensures UniqueIds(root) && IdsWithin(root, base, base + 9)
  {
    DocsFacts(root.children[0], base);
    NotesFacts(root.children[1], base);
    ThreeChildren(root.children);
    assert Ids(root.children[2]) == {base + 8};
    assert Ids(root) == {base} + {base + 1, base + 2, base + 3} + {base + 4, base + 5, base + 6, base + 7} + {base + 8};
  }

  /** The documents folder: two files, 2548 KB in all. */
  lemma DocsFacts(docs: Node, base: nat)
    requires docs.Dir? && docs.id == base + 1 && |docs.children| == 2
    requires !docs.children[0].Dir? && docs.children[0].id == base + 2 && SizeKB(docs.children[0]) == 500.0
    requires !docs.children[1].Dir? && docs.children[1].id == base + 3 && SizeKB(docs.children[1]) == 2048.0
    ensures SizeKB(docs) == 2548.0 && UniqueIds(docs) && Ids(docs) == {base + 1, base + 2, base + 3}
  {
    TwoChildren(docs.children);
    assert Ids(docs.children[0]) == {base + 2};
    assert Ids(docs.children[1]) == {base + 3};
  }

  /** The notes folder: a file and the archive folder holding one file, 201 KB in all. */
  lemma NotesFacts(notes: Node, base: nat)
    requires notes.Dir? && notes.id == base + 4 && |notes.children| == 2
    requires !notes.children[0].Dir? && notes.children[0].id == base + 5 && SizeKB(notes.children[0]) == 1.0
    requires notes.children[1].Dir? && notes.children[1].id == base + 6 && |notes.children[1].children| == 1
    requires !notes.children[1].children[0].Dir? && notes.children[1].children[0].id == base + 7
    requires SizeKB(notes.children[1].children[0]) == 200.0
    ensures SizeKB(notes) == 201.0 && UniqueIds(notes) && Ids(notes) == {base + 4, base + 5, base + 6, base + 7}
  {
    var archive := notes.children[1];
    OneChild(archive.children);
    assert Ids(archive.children[0]) == {base + 7};
    assert Ids(archive) == {base + 6, base + 7};
    TwoChildren(notes.children);
    assert Ids(notes.children[0]) == {base + 5};
  }

  lemma OneChild(cs: seq<Node>)
    requires |cs| == 1
    ensures SumSizes(cs) == SizeKB(cs[0])
    ensures IdsOf(cs) == Ids(cs[0])
    ensures UniqueSeq(cs) <==> UniqueIds(cs[0])
  {
    assert cs[1..] == [];
  }

  lemma TwoChildren(cs: seq<Node>)
    requires |cs| == 2
    ensures SumSizes(cs) == SizeKB(cs[0]) + SizeKB(cs[1])
    ensures IdsOf(cs) == Ids(cs[0]) + Ids(cs[1])
    ensures UniqueSeq(cs) <==> UniqueIds(cs[0]) && UniqueIds(cs[1]) && Ids(cs[0]) !! Ids(cs[1])
  {
    OneChild(cs[1..]);
  }

  lemma ThreeChildren(cs: seq<Node>)
    requires |cs| == 3
    ensures SumSizes(cs) == SizeKB(cs[0]) + SizeKB(cs[1]) + SizeKB(cs[2])
    ensures IdsOf(cs) == Ids(cs[0]) + Ids(cs[1]) + Ids(cs[2])
    ensures UniqueSeq(cs) <==>
      (UniqueIds(cs[0]) && UniqueIds(cs[1]) && UniqueIds(cs[2]) &&
       Ids(cs[0]) !! Ids(cs[1]) && Ids(cs[0]) !! Ids(cs[2]) && Ids(cs[1]) !! Ids(cs[2]))
  {
    TwoChildren(cs[1..]);
  }
}
