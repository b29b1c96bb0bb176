/** The schema diff: one row for every structural difference between two snapshots, with its severity. */
module Classifier {
  import opened Basics
  import opened Schema
  import opened Snapshot

  datatype Severity = Safe | Warning | Breaking {
    function Rank(): nat { match this case Safe => 0 case Warning => 1 case Breaking => 2 }
  }

  datatype Code =
    | RootRemoved | RootAdded | StructRemoved | StructAdded | OpaqueChanged
    | FieldRemoved | FieldRemovedCompatWrite | FieldRemovedDeprecated | FieldAdded | TagChanged
    | TypeChanged | WireChanged | OptionalChanged | CycleBreakAdded | CycleBreakRemoved | KeyUnderlyingChanged
    | AliasAdded | AliasRemoved | AliasRenamed | FlattenedAdded | FlattenedRemoved | FlattenedChanged
    | CompatWriteAdded | FieldDeprecated | CompatWriteRemoved | Resurrected | Renamed
    | WireWidened | WireNarrowed | WireIntentChanged | CustomAdded | CustomRemoved | CustomChanged
    | ReservedRemoved | ReservedAdded

  datatype Subject = OnRoot(key: string) | OnStruct(key: string) | OnField(key: string, tag: nat)
      | OnReserved(key: string, tag: nat)

  datatype Change = Change(severity: Severity, code: Code, subject: Subject, acknowledged: string)

  function When<T>(b: bool, x: T): seq<T> { if b then [x] else [] }

  /** Off the wire on both sides. */
  predicate ShapeFrozen(p: FieldDecl, c: FieldDecl) {
    LifecycleState(p) == Deprecated && LifecycleState(c) == Deprecated
  }

  /** defaultIntWidthFromTypeString, on shapes (ShapeText ties it to the string). It does not know the spellings byte
      and rune, and it looks at the innermost parenthesis that closes the string, so that a composite of a named integer
      has a width. */
  function DefaultWidth(s: Shape): Option<nat> {
    match s
    case Basic(p) => PrimWidth(p)
    case IdOf(_, id) => DefaultWidth(id)
    case _ => TailWidth(s)
  }

  /** The table of kind names. */
  function PrimWidth(p: Prim): Option<nat> {
    match p
    case PInt(bits, _, platform, alias) => if platform then Some(32) else if alias then None else Some(bits)
    case _ => None
  }

  function TailWidth(s: Shape): Option<nat> {
    match s
    case Named(_, Basic(p)) => PrimWidth(p)
    case SliceOf(e) => TailWidth(e)
    case MapOf(_, v) => TailWidth(v)
    case PtrTo(e) => TailWidth(e)
    case _ => None
  }

  function EffectiveWidth(f: FieldDecl): Option<nat> {
    if f.override_.Some? then Some(f.override_.value.bits) else DefaultWidth(f.shape)
  }

  /** The rows for one tag present on both sides, in the order they are added. */
  function FieldChanges(p: FieldDecl, c: FieldDecl): seq<(Severity, Code)> {
    TypeRows(p, c) + AliasRows(p, c) + FlattenRows(p, c) + WireRows(p, c) + OptionalRows(p, c)
    + LifecycleChanges(LifecycleState(p), LifecycleState(c)) + NameRows(p, c) + CycleRows(p, c) + KeyRows(p, c)
    + WidthRows(p, c) + CustomRows(p, c)
  }

  function TypeRows(p: FieldDecl, c: FieldDecl): seq<(Severity, Code)> {
    When(c.shape != p.shape && !ShapeFrozen(p, c), (Breaking, TypeChanged))
  }

  function AliasRows(p: FieldDecl, c: FieldDecl): seq<(Severity, Code)> {
    if !ShapeFrozen(p, c) && p.shape == c.shape then AliasChanges(p.alias, c.alias) else []
  }

  function FlattenRows(p: FieldDecl, c: FieldDecl): seq<(Severity, Code)> {
    if !ShapeFrozen(p, c) && p.shape == c.shape && p.wire == c.wire then FlattenChanges(p.flattened, c.flattened)
    else []
  }

  function WireRows(p: FieldDecl, c: FieldDecl): seq<(Severity, Code)> {
    When(c.wire != p.wire && !ShapeFrozen(p, c) && p.custom == "" && c.custom == "", (Breaking, WireChanged))
  }

  function OptionalRows(p: FieldDecl, c: FieldDecl): seq<(Severity, Code)> {
    When(c.optional != p.optional && !ShapeFrozen(p, c), (Breaking, OptionalChanged))
  }

  function NameRows(p: FieldDecl, c: FieldDecl): seq<(Severity, Code)> { When(c.name != p.name, (Safe, Renamed)) }

  function CycleRows(p: FieldDecl, c: FieldDecl): seq<(Severity, Code)> {
    When(c.cycleBreak != p.cycleBreak && !ShapeFrozen(p, c),
         (Breaking, if c.cycleBreak then CycleBreakAdded else CycleBreakRemoved))
  }

  function KeyRows(p: FieldDecl, c: FieldDecl): seq<(Severity, Code)> {
    When(p.keyUnder != "" && c.keyUnder != "" && c.keyUnder != p.keyUnder && !ShapeFrozen(p, c),
         (Breaking, KeyUnderlyingChanged))
  }

  function WidthRows(p: FieldDecl, c: FieldDecl): seq<(Severity, Code)> {
    if c.override_ != p.override_ && !ShapeFrozen(p, c) && p.custom == "" && c.custom == ""
    then WidthChanges(EffectiveWidth(p), EffectiveWidth(c)) else []
  }

  function CustomRows(p: FieldDecl, c: FieldDecl): seq<(Severity, Code)> {
    if c.custom != p.custom && !ShapeFrozen(p, c) then CustomChanges(p.custom, c.custom) else []
  }

  function AliasChanges(p: Option<Alias>, c: Option<Alias>): seq<(Severity, Code)> {
    match (p, c)
    case (None, None) => []
    case (None, Some(_)) => [(Safe, AliasAdded)]
    case (Some(_), None) => [(Safe, AliasRemoved)]
    case (Some(a), Some(b)) => When(a.name != b.name && a.under == b.under, (Safe, AliasRenamed))
  }

  function FlattenChanges(p: string, c: string): seq<(Severity, Code)> {
    if p == c then []
    else if p == "" then [(Safe, FlattenedAdded)]
    else if c == "" then [(Safe, FlattenedRemoved)]
    else [(Safe, FlattenedChanged)]
  }

  function LifecycleChanges(p: Lifecycle, c: Lifecycle): seq<(Severity, Code)> {
    match (p, c)
    case (Active, CompatWrite) => [(Safe, CompatWriteAdded)]
    case (Active, Deprecated) => [(Warning, FieldDeprecated)]
    case (CompatWrite, Deprecated) => [(Breaking, CompatWriteRemoved)]
    case (CompatWrite, Active) => [(Warning, Resurrected)]
    case (Deprecated, Active) => [(Warning, Resurrected)]
    case (Deprecated, CompatWrite) => [(Safe, CompatWriteAdded)]
    case _ => []
  }

  function WidthChanges(p: Option<nat>, c: Option<nat>): seq<(Severity, Code)> {
    if p.None? || c.None? then []
    else if c.value > p.value then [(Safe, WireWidened)]
    else if c.value < p.value then [(Breaking, WireNarrowed)]
    else [(Safe, WireIntentChanged)]
  }

  function CustomChanges(p: string, c: string): seq<(Severity, Code)> {
    if p == "" then [(Warning, CustomAdded)] else if c == "" then [(Breaking, CustomRemoved)]
        else [(Breaking, CustomChanged)]
  }

  function RemovedChange(p: FieldDecl): (Severity, Code) {
    (Breaking, match LifecycleState(p)
               case CompatWrite => FieldRemovedCompatWrite
               case Deprecated => FieldRemovedDeprecated
               case Active => FieldRemoved)
  }

  /** A new tag under a name that had another tag before is a changed tag. */
  function AddedChange(names: map<string, FieldDecl>, c: FieldDecl): (Severity, Code) {
    if c.name in names && names[c.name].tag != c.tag then (Breaking, TagChanged) else (Safe, FieldAdded)
  }

  /** indexFields and indexFieldsByName: the last declaration wins. */
  function Index(fs: seq<FieldDecl>): (m: map<nat, FieldDecl>)
    ensures forall t :: t in m ==> m[t].tag == t && m[t] in fs
    ensures forall f :: f in fs ==> f.tag in m
  {
    if |fs| == 0 then map[] else Index(fs[..|fs| - 1])[fs[|fs| - 1].tag := fs[|fs| - 1]]
  }

  function ByName(fs: seq<FieldDecl>): map<string, FieldDecl> {
    if |fs| == 0 then map[] else ByName(fs[..|fs| - 1])[fs[|fs| - 1].name := fs[|fs| - 1]]
  }

  /** What the struct's //gsbm:allow-breaking text acknowledges: every breaking row except the end of a dual write. */
  function Acknowledge(text: string, row: (Severity, Code), subject: Subject): (ch: Change)
    ensures (ch.severity, ch.code) == row && ch.subject == subject
  {
    var (severity, code) := row;
    Change(severity, code, subject,
           if text != "" && severity == Breaking && code != CompatWriteRemoved && code != FieldRemovedCompatWrite
               then text else "")
  }

  /** The rows of one field of a struct present on both sides. */
  predicate FieldReported(key: string, p: StructDecl, c: StructDecl, tag: nat, row: (Severity, Code)) {
    var ps, cs := Index(p.fields), Index(c.fields);
    if tag in ps && tag in cs then row in FieldChanges(ps[tag], cs[tag])
    else if tag in ps then row == RemovedChange(ps[tag])
    else if tag in cs then row == AddedChange(ByName(p.fields), cs[tag])
    else false
  }

  predicate StructReported(key: string, p: StructDecl, c: StructDecl, row: (Severity, Code), subject: Subject) {
    match subject
    case OnField(k, tag) => k == key && FieldReported(key, p, c, tag, row)
    case OnReserved(k, tag) =>
      && k == key
      && ((tag in p.reserved && tag !in c.reserved && row == (Breaking, ReservedRemoved)) ||
          (tag in c.reserved && tag !in p.reserved && row == (Safe, ReservedAdded)))
    case OnStruct(k) => k == key && p.isOpaque != c.isOpaque && row == (Warning, OpaqueChanged)
    case OnRoot(_) => false
  }

  /** A row of classifyStruct, as it leaves it. */
  predicate Row(key: string, p: StructDecl, c: StructDecl, ch: Change) {
    && StructReported(key, p, c, (ch.severity, ch.code), ch.subject)
    && ch == Acknowledge(c.allowBreaking, (ch.severity, ch.code), ch.subject)
  }

  /** The whole diff, as a predicate on rows. */
  predicate Reported(prev: Snap, curr: Snap, ch: Change) {
    var key := ch.subject.key;
    if ch.subject.OnRoot? then
      || (key in prev.roots && key !in curr.roots && ch == Change(Breaking, RootRemoved, ch.subject, ""))
      || (key in curr.roots && key !in prev.roots && ch == Change(Safe, RootAdded, ch.subject, ""))
    else if key in prev.structs && key in curr.structs then Row(key, prev.structs[key], curr.structs[key], ch)
    else
      || (key in prev.structs && ch == Change(Breaking, StructRemoved, OnStruct(key), ""))
      || (key in curr.structs && ch == Change(Safe, StructAdded, OnStruct(key), ""))
  }

  class Diff {
    var changes: seq<Change>
    var maxSeverity: Severity

    /** maxSeverity is the highest severity of the rows, Safe when there are none. */
    ghost predicate Valid()
      reads this
    {
      && (forall c :: c in changes ==> c.severity.Rank() <= maxSeverity.Rank())
      && (maxSeverity == Safe || exists c :: c in changes && c.severity == maxSeverity)
    }

    constructor ()
      ensures Valid() && changes == []
    {
      changes, maxSeverity := [], Safe;
    }

    method Add(c: Change)
      requires Valid()
      modifies this
      ensures Valid() && changes == old(changes) + [c]
    {
      if c.severity.Rank() > maxSeverity.Rank() {
        maxSeverity := c.severity;
      }
      changes := changes + [c];
      assert c in changes;
      assert forall x :: x in old(changes) ==> x in changes;
    }

    /** classifyStruct for one tag present on both sides. */
    method AddAll(rows: seq<(Severity, Code)>, text: string, subject: Subject)
      requires Valid()
      modifies this
      ensures Valid()
      ensures forall ch :: ch in changes <==>
        ch in old(changes) || ((ch.severity, ch.code) in rows
            && ch == Acknowledge(text, (ch.severity, ch.code), subject))
    {
      var i := 0;
      while i < |rows|
        invariant 0 <= i <= |rows| && Valid()
        invariant forall ch :: ch in changes <==>
          ch in old(changes) || ((ch.severity, ch.code) in rows[..i]
              && ch == Acknowledge(text, (ch.severity, ch.code), subject))
      {
        Add(Acknowledge(text, rows[i], subject));
        assert rows[..i + 1] == rows[..i] + [rows[i]];
        i := i + 1;
      }
      assert rows[..i] == rows;
    }

    method ClassifyTag(key: string, p: StructDecl, c: StructDecl, ps: map<nat, FieldDecl>, cs: map<nat, FieldDecl>,
                       names: map<string, FieldDecl>, tag: nat)
      requires Valid() && ps == Index(p.fields) && cs == Index(c.fields) && names == ByName(p.fields)
               && (tag in ps || tag in cs)
      modifies this
      ensures Valid()
      ensures forall ch :: ch in changes <==>
              ch in old(changes) || (ch.subject == OnField(key, tag) && Row(key, p, c, ch))
    {
      hide FieldChanges, RemovedChange, AddedChange, Index, ByName;
      if tag !in cs {
        AddAll([RemovedChange(ps[tag])], c.allowBreaking, OnField(key, tag));
      } else if tag in ps {
        AddAll(FieldChanges(ps[tag], cs[tag]), c.allowBreaking, OnField(key, tag));
      } else {
        AddAll([AddedChange(names, cs[tag])], c.allowBreaking, OnField(key, tag));
      }
    }

    method ClassifyReserved(key: string, p: StructDecl, c: StructDecl, tag: nat)
      requires Valid() && (tag in p.reserved || tag in c.reserved)
      modifies this
      ensures Valid()
      ensures forall ch :: ch in changes <==>
              ch in old(changes) || (ch.subject == OnReserved(key, tag) && Row(key, p, c, ch))
    {
      if tag !in c.reserved {
        AddAll([(Breaking, ReservedRemoved)], c.allowBreaking, OnReserved(key, tag));
      } else if tag !in p.reserved {
        AddAll([(Safe, ReservedAdded)], c.allowBreaking, OnReserved(key, tag));
      }
    }

    /** The loop over a set of tags, in any order. */
    method ClassifyTags(key: string, p: StructDecl, c: StructDecl, tags: set<nat>)
      requires Valid() && tags <= Index(p.fields).Keys + Index(c.fields).Keys
      modifies this
      ensures Valid()
      ensures forall ch :: ch in changes <==>
        ch in old(changes) || (Row(key, p, c, ch) && ch.subject.OnField? && ch.subject.tag in tags)
    {
      hide Row, Index, ByName;
      RowSubjects(key, p, c);
      var ps, cs, names := Index(p.fields), Index(c.fields), ByName(p.fields);
      var rest := tags;
      while rest != {}
        invariant rest <= tags && Valid()
        invariant forall ch :: ch in changes <==>
          ch in old(changes) || (Row(key, p, c, ch) && ch.subject.OnField? && ch.subject.tag in tags
              && ch.subject.tag !in rest)
        decreases |rest|
      {
        var tag :| tag in rest;
        ClassifyTag(key, p, c, ps, cs, names, tag);
        rest := rest - {tag};
      }
    }

    method ClassifyReservedTags(key: string, p: StructDecl, c: StructDecl)
      requires Valid()
      modifies this
      ensures Valid()
      ensures forall ch :: ch in changes <==> ch in old(changes) || (Row(key, p, c, ch) && ch.subject.OnReserved?)
    {
      hide Row;
      RowSubjects(key, p, c);
      var rest := p.reserved + c.reserved;
      while rest != {}
        invariant rest <= p.reserved + c.reserved && Valid()
        invariant forall ch :: ch in changes <==>
          ch in old(changes) || (Row(key, p, c, ch) && ch.subject.OnReserved? && ch.subject.tag !in rest)
        decreases |rest|
      {
        var tag :| tag in rest;
        ClassifyReserved(key, p, c, tag);
        rest := rest - {tag};
      }
    }

    /** classifyStruct: the tags of the old struct, the new tags, the reserved tags, the opaque mark. */
    method ClassifyStruct(key: string, p: StructDecl, c: StructDecl)
      requires Valid()
      modifies this
      ensures Valid()
      ensures forall ch :: ch in changes <==> ch in old(changes) || Row(key, p, c, ch)
    {
      hide Row, Index;
      RowSubjects(key, p, c);
      OpaqueRow(key, p, c);
      ClassifyTags(key, p, c, Index(p.fields).Keys);
      ClassifyTags(key, p, c, Index(c.fields).Keys - Index(p.fields).Keys);
      ClassifyReservedTags(key, p, c);
      if p.isOpaque != c.isOpaque {
        AddAll([(Warning, OpaqueChanged)], c.allowBreaking, OnStruct(key));
      }
    }
  }

  /** What a row of a struct can be about. */
  lemma {:induction false} RowSubjects(key: string, p: StructDecl, c: StructDecl)
    ensures forall ch :: Row(key, p, c, ch) ==> ch.subject.key == key && !ch.subject.OnRoot?
    ensures forall ch :: Row(key, p, c, ch) && ch.subject.OnField? ==>
            ch.subject.tag in Index(p.fields) || ch.subject.tag in Index(c.fields)
    ensures forall ch :: Row(key, p, c, ch) && ch.subject.OnReserved? ==> ch.subject.tag in p.reserved + c.reserved
  {
    hide FieldChanges, RemovedChange, AddedChange, Index, ByName, Acknowledge;
  }

  lemma {:induction false} OpaqueRow(key: string, p: StructDecl, c: StructDecl)
    ensures forall ch :: Row(key, p, c, ch) && ch.subject.OnStruct? <==>
      p.isOpaque != c.isOpaque && ch == Acknowledge(c.allowBreaking, (Warning, OpaqueChanged), OnStruct(key))
  {
  }

  /** Classify. The rows come in no particular order: sorting them is presentation. */
  method Classify(prev: Snap, curr: Snap) returns (d: Diff)
    ensures fresh(d) && d.Valid()
    ensures forall ch :: ch in d.changes <==> Reported(prev, curr, ch)
  {
    hide Row;
    d := new Diff();
    var keys := prev.roots + curr.roots;
    var rest := keys;
    while rest != {}
      invariant rest <= keys && d.Valid() && fresh(d)
      invariant forall ch :: ch in d.changes <==>
                ch.subject.OnRoot? && ch.subject.key !in rest && Reported(prev, curr, ch)
      decreases |rest|
    {
      var k :| k in rest;
      if k !in curr.roots {
        d.Add(Change(Breaking, RootRemoved, OnRoot(k), ""));
      } else if k !in prev.roots {
        d.Add(Change(Safe, RootAdded, OnRoot(k), ""));
      }
      rest := rest - {k};
    }
    keys := prev.structs.Keys + curr.structs.Keys;
    rest := keys;
    while rest != {}
      invariant rest <= keys && d.Valid() && fresh(d)
      invariant forall ch :: ch in d.changes <==>
                (ch.subject.OnRoot? || ch.subject.key !in rest) && Reported(prev, curr, ch)
      decreases |rest|
    {
      var k :| k in rest;
      if k !in curr.structs {
        d.Add(Change(Breaking, StructRemoved, OnStruct(k), ""));
      } else if k !in prev.structs {
        d.Add(Change(Safe, StructAdded, OnStruct(k), ""));
      } else {
        RowSubjects(k, prev.structs[k], curr.structs[k]);
        d.ClassifyStruct(k, prev.structs[k], curr.structs[k]);
      }
      rest := rest - {k};
    }
  }
}
