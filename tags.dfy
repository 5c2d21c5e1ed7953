// The three tag kinds a node can carry, and the node's tag set.

module Tags {
  import opened Common

  datatype TagType = Urgent | Work | Personal

  /** The enum's string value. */
  function TagName(t: TagType): string {
    match t
    case Urgent => "Urgent"
    case Work => "Work"
    case Personal => "Personal"
  }

  /** `TAG_COLORS` */
  function TagColor(t: TagType): string {
    match t
    case Urgent => "#e74c3c"
    case Work => "#3498db"
    case Personal => "#2ecc71"
  }

  /** A node's `tags`: a JavaScript `Set<TagType>`, in insertion order. */
  type TagSet = OrderedSet<TagType>

  const AllTags: seq<TagType> := [Urgent, Work, Personal]
}
