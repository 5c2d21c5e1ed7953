// The file factory: one entry point per leaf kind plus a dispatcher on the
// file type. Every creation takes the next id from the allocator. The image
// and text constructors take no creation time, so a `createdAt` passed to
// `createImage`/`createText` is dropped and the current time `now` is used.

module FileFactory {
  import opened Common
  import opened Nodes
  import opened NodeConstruction

  datatype FileType = WordType | ImageType | TextType

  datatype FileParams =
    | WordParams(name: string, sizeKB: real, pages: int, createdAt: Option<Date>)
    | ImageParams(name: string, sizeKB: real, width: int, height: int, createdAt: Option<Date>)
    | TextParams(name: string, sizeKB: real, encoding: string, createdAt: Option<Date>)

  /** The file type a node was built as; directories have none. */
  function KindOf(n: Node): Option<FileType> {
    match n
    case Dir(_, _, _, _) => None
    case Word(_, _, _, _, _, _) => Some(WordType)
    case Image(_, _, _, _, _, _, _) => Some(ImageType)
    case Text(_, _, _, _, _, _) => Some(TextType)
  }

  /** The parameter variant that goes with each file type. */
  predicate Matches(t: FileType, p: FileParams) {
    match t
    case WordType => p.WordParams?
    case ImageType => p.ImageParams?
    case TextType => p.TextParams?
  }

  /** `createWord`: a Word file carrying the parameters, the creation time defaulting to `now`. */
  method CreateWord(alloc: IdAllocator, p: FileParams, now: Date) returns (f: Node)
    requires p.WordParams?
    modifies alloc
    ensures f == Word(old(alloc.next), p.name, [], p.sizeKB, if p.createdAt.Some? then p.createdAt.value else now, p.pages)
    ensures alloc.next == old(alloc.next) + 1
  {
    f := alloc.NewWordFile(p.name, p.sizeKB, p.pages, p.createdAt, now);
  }

  /** `createImage`: an image file carrying the parameters, created now whatever `createdAt` says. */
  method CreateImage(alloc: IdAllocator, p: FileParams, now: Date) returns (f: Node)
    requires p.ImageParams?
    modifies alloc
    ensures f == Image(old(alloc.next), p.name, [], p.sizeKB, now, p.width, p.height)
    ensures alloc.next == old(alloc.next) + 1
  {
    f := alloc.NewImageFile(p.name, p.sizeKB, p.width, p.height, now);
  }

  /** `createText`: a text file carrying the parameters, created now whatever `createdAt` says. */
  method CreateText(alloc: IdAllocator, p: FileParams, now: Date) returns (f: Node)
    requires p.TextParams?
    modifies alloc
    ensures f == Text(old(alloc.next), p.name, [], p.sizeKB, now, p.encoding)
    ensures alloc.next == old(alloc.next) + 1
  {
    f := alloc.NewTextFile(p.name, p.sizeKB, p.encoding, now);
  }

  /** `createDirectory`: an empty directory with that name. */
  method CreateDirectory(alloc: IdAllocator, name: string) returns (d: Node)
    modifies alloc
    ensures d == Dir(old(alloc.next), name, [], [])
    ensures alloc.next == old(alloc.next) + 1
  {
    d := alloc.NewDirectory(name);
  }

  /**
   * `create(type, params)`: exactly what the creator for that type builds
   * from the parameters, so the node has the requested kind, the name and
   * size of the parameters, no tags and the next id.
   */
  method Create(alloc: IdAllocator, t: FileType, p: FileParams, now: Date) returns (f: Node)
    requires Matches(t, p)
    modifies alloc
    ensures t == WordType ==>
      f == Word(old(alloc.next), p.name, [], p.sizeKB, if p.createdAt.Some? then p.createdAt.value else now, p.pages)
    ensures t == ImageType ==> f == Image(old(alloc.next), p.name, [], p.sizeKB, now, p.width, p.height)
    ensures t == TextType ==> f == Text(old(alloc.next), p.name, [], p.sizeKB, now, p.encoding)
    ensures KindOf(f) == Some(t)
    ensures f.id == old(alloc.next) && f.name == p.name && f.tags == [] && SizeKB(f) == p.sizeKB
    ensures alloc.next == old(alloc.next) + 1
  {
    match t {
      case WordType => f := CreateWord(alloc, p, now);
      case ImageType => f := CreateImage(alloc, p, now);
      case TextType => f := CreateText(alloc, p, now);
    }
  }
}
