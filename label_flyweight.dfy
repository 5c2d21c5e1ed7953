// The label flyweight: one shared, immutable `Label` per tag kind, handed out
// by a factory that fills its pool lazily. The factory's static pool is an
// explicit `LabelFactory` object here, created once and passed to its users.

module LabelFlyweight {
  import opened Tags

  /** The label's shown name. */
  function DisplayName(t: TagType): string {
    match t
    case Urgent => "緊急"
    case Work => "工作"
    case Personal => "個人"
  }

  function LabelIcon(t: TagType): string {
    match t
    case Urgent => "🔴"
    case Work => "🔵"
    case Personal => "🟢"
  }

  /** A shared label: its fields never change after construction. */
  class Label {
    const kind: TagType
    const displayName: string
    const color: string
    const icon: string

    constructor(kind: TagType, displayName: string, color: string, icon: string)
      ensures this.kind == kind && this.displayName == displayName
      ensures this.color == color && this.icon == icon
    {
      this.kind := kind;
      this.displayName := displayName;
      this.color := color;
      this.icon := icon;
    }

    /** The intrinsic state `createLabel` gives a label of this kind. */
    ghost predicate Intrinsic() {
      displayName == DisplayName(kind) && color == TagColor(kind) && icon == LabelIcon(kind)
    }
  }

  class LabelFactory {
    /** The pool: at most one label per kind. */
    var pool: map<TagType, Label>

    ghost predicate Valid()
      reads this
    {
      forall t :: t in pool ==> pool[t].kind == t && pool[t].Intrinsic()
    }

    constructor()
      ensures pool == map[] && Valid()
    {
      pool := map[];
    }

    /** `createLabel`: a new label with the kind's fixed name, colour and icon. */
    static method CreateLabel(t: TagType) returns (l: Label)
      ensures fresh(l) && l.kind == t && l.Intrinsic()
    {
      match t
      case Urgent => l := new Label(t, "緊急", TagColor(Urgent), "🔴");
      case Work => l := new Label(t, "工作", TagColor(Work), "🔵");
      case Personal => l := new Label(t, "個人", TagColor(Personal), "🟢");
    }

    /** `getLabel`: the pooled label of this kind, created on the first request. */
    method GetLabel(t: TagType) returns (l: Label)
      requires Valid()
      modifies this
      ensures Valid()
      ensures l.kind == t && l.Intrinsic()
      ensures t in old(pool) ==> l == old(pool)[t] && pool == old(pool)
      ensures t !in old(pool) ==> fresh(l) && pool == old(pool)[t := l]
      ensures t in pool && pool[t] == l
      ensures pool.Keys == old(pool.Keys) + {t}
      ensures forall k :: k in old(pool) ==> k in pool && pool[k] == old(pool)[k]
    {
      if t !in pool {
        var created := CreateLabel(t);
        pool := pool[t := created];
      }
      l := pool[t];
    }

    /** `getAllLabels`: the labels of Urgent, Work and Personal, in that order. */
    method GetAllLabels() returns (ls: seq<Label>)
      requires Valid()
      modifies this
      ensures Valid()
      ensures pool.Keys == old(pool.Keys) + {Urgent, Work, Personal}
      ensures ls == [pool[Urgent], pool[Work], pool[Personal]]
      ensures forall t :: t in old(pool) ==> pool[t] == old(pool)[t]
    {
      ghost var before := pool;
      var urgent := GetLabel(Urgent);
      ghost var afterUrgent := pool;
      var work := GetLabel(Work);
      ghost var afterWork := pool;
      var personal := GetLabel(Personal);
      ls := [urgent, work, personal];
      assert before.Keys + {Urgent} + {Work} + {Personal} == before.Keys + {Urgent, Work, Personal};
    }

    /** `getPoolSize` */
    method PoolSize() returns (n: nat)
      ensures n == |pool| && n <= 3
    {
      PoolBound(pool.Keys);
      n := |pool|;
    }

    /** `resetPool` */
    method ResetPool()
      modifies this
      ensures pool == map[] && Valid()
    {
      pool := map[];
    }
  }

  /** There are three tag kinds, so a pool never holds more than three labels. */
  lemma PoolBound(ks: set<TagType>)
    ensures |ks| <= 3
  {
    assert ks <= {Urgent, Work, Personal} by {
      forall t | t in ks ensures t in {Urgent, Work, Personal} {
        match t
        case Urgent =>
        case Work =>
        case Personal =>
      }
    }
    assert |{Urgent, Work, Personal}| == 3;
    SubsetSize(ks, {Urgent, Work, Personal});
  }

  lemma SubsetSize<T>(a: set<T>, b: set<T>)
    requires a <= b
    ensures |a| <= |b|
  {
    assert b == a + (b - a);
  }
}
