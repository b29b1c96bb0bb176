/** The classifier's rules, code by code, on declarations alone: which rows a diff holds and how severe each is, and
    from them exactly which steps the gate blocks. */
module Rules {
  import opened Basics
  import opened Schema
  import opened Snapshot
  import opened Classifier
  import opened Gate
  import opened Chain

  function SeverityOf(code: Code): Severity {
    match code
    case RootRemoved | StructRemoved | FieldRemoved | FieldRemovedCompatWrite | FieldRemovedDeprecated => Breaking
    case TagChanged | TypeChanged | WireChanged | OptionalChanged | CycleBreakAdded | CycleBreakRemoved => Breaking
    case KeyUnderlyingChanged | CompatWriteRemoved | WireNarrowed | CustomRemoved | CustomChanged => Breaking
    case ReservedRemoved => Breaking
    case OpaqueChanged | FieldDeprecated | Resurrected | CustomAdded => Warning
    case _ => Safe
  }

  /** Deprecated without a dual write. */
  predicate OffWire(f: FieldDecl) { f.deprecated && !f.compatWrite }

  predicate DualWrite(f: FieldDecl) { f.deprecated && f.compatWrite }

  /** On the wire on one side at least. */
  predicate Exposed(p: FieldDecl, c: FieldDecl) { !OffWire(p) || !OffWire(c) }

  predicate Uncoded(p: FieldDecl, c: FieldDecl) { p.custom == "" && c.custom == "" }

  /** A width annotation changed, from old to new_ bits. */
  predicate Reannotated(p: FieldDecl, c: FieldDecl, old_: nat, new_: nat) {
    && Exposed(p, c) && Uncoded(p, c) && p.override_ != c.override_
    && EffectiveWidth(p) == Some(old_) && EffectiveWidth(c) == Some(new_)
  }

  /** Two declarations of one tag call for a row. */
  ghost predicate FieldTells(p: FieldDecl, c: FieldDecl, code: Code) {
    match code
    case TypeChanged => Exposed(p, c) && p.shape != c.shape
    case WireChanged => Exposed(p, c) && p.wire != c.wire && Uncoded(p, c)
    case OptionalChanged => Exposed(p, c) && p.optional != c.optional
    case CycleBreakAdded => Exposed(p, c) && !p.cycleBreak && c.cycleBreak
    case CycleBreakRemoved => Exposed(p, c) && p.cycleBreak && !c.cycleBreak
    case KeyUnderlyingChanged => Exposed(p, c) && p.keyUnder != "" && c.keyUnder != "" && p.keyUnder != c.keyUnder
    case CompatWriteAdded => DualWrite(c) && !DualWrite(p)
    case FieldDeprecated => OffWire(c) && !p.deprecated
    case CompatWriteRemoved => OffWire(c) && DualWrite(p)
    case Resurrected => p.deprecated && !c.deprecated
    case Renamed => p.name != c.name
    case WireWidened => exists m, n :: Reannotated(p, c, m, n) && m < n
    case WireNarrowed => exists m, n :: Reannotated(p, c, m, n) && m > n
    case WireIntentChanged => exists n :: Reannotated(p, c, n, n)
    case CustomAdded => Exposed(p, c) && p.custom == "" && c.custom != ""
    case CustomRemoved => Exposed(p, c) && p.custom != "" && c.custom == ""
    case CustomChanged => Exposed(p, c) && p.custom != "" && c.custom != "" && p.custom != c.custom
    case AliasAdded => Exposed(p, c) && p.shape == c.shape && p.alias.None? && c.alias.Some?
    case AliasRemoved => Exposed(p, c) && p.shape == c.shape && p.alias.Some? && c.alias.None?
    case AliasRenamed =>
      && Exposed(p, c) && p.shape == c.shape && p.alias.Some? && c.alias.Some?
      && p.alias.value.name != c.alias.value.name && p.alias.value.under == c.alias.value.under
    case FlattenedAdded => Moved(p, c) && p.flattened == ""
    case FlattenedRemoved => Moved(p, c) && c.flattened == ""
    case FlattenedChanged => Moved(p, c) && p.flattened != "" && c.flattened != ""
    case _ => false
  }

  /** Another embedding chain, the same type and wire type. */
  predicate Moved(p: FieldDecl, c: FieldDecl) {
    Exposed(p, c) && p.shape == c.shape && p.wire == c.wire && p.flattened != c.flattened
  }

  /** The declaration that counts for its tag: the last one. */
  ghost predicate InForce(fs: seq<FieldDecl>, f: FieldDecl) {
    exists i :: 0 <= i < |fs| && fs[i] == f && forall j :: i < j < |fs| ==> fs[j].tag != f.tag
  }

  predicate HasTag(fs: seq<FieldDecl>, tag: nat) { exists f :: f in fs && f.tag == tag }

  predicate HasName(fs: seq<FieldDecl>, name: string) { exists f :: f in fs && f.name == name }

  ghost predicate Shared(p: StructDecl, c: StructDecl, f: FieldDecl, g: FieldDecl) {
    InForce(p.fields, f) && InForce(c.fields, g) && f.tag == g.tag
  }

  ghost predicate Lost(p: StructDecl, c: StructDecl, f: FieldDecl) { InForce(p.fields, f) && !HasTag(c.fields, f.tag) }

  function LostCode(f: FieldDecl): Code {
    if DualWrite(f) then FieldRemovedCompatWrite else if f.deprecated then FieldRemovedDeprecated else FieldRemoved
  }

  /** A new tag under a name that is taken is a changed tag. */
  function NewCode(p: StructDecl, g: FieldDecl): Code { if HasName(p.fields, g.name) then TagChanged else FieldAdded }

  ghost predicate TagTells(p: StructDecl, c: StructDecl, tag: nat, code: Code) {
    || (exists f, g :: Shared(p, c, f, g) && f.tag == tag && FieldTells(f, g, code))
    || (exists f :: Lost(p, c, f) && f.tag == tag && code == LostCode(f))
    // the roles of old and new exchanged: a tag only the new struct has
    || (exists g :: Lost(c, p, g) && g.tag == tag && code == NewCode(p, g))
  }

  /** The snapshots call for a row with this code about this subject. */
  ghost predicate Tells(prev: Snap, curr: Snap, code: Code, subject: Subject) {
    var k := subject.key;
    match subject
    case OnRoot(_) =>
      || (code == RootRemoved && k in prev.roots && k !in curr.roots)
      || (code == RootAdded && k !in prev.roots && k in curr.roots)
    case OnStruct(_) =>
      || (code == StructRemoved && k in prev.structs && k !in curr.structs)
      || (code == StructAdded && k !in prev.structs && k in curr.structs)
      || (code == OpaqueChanged && k in prev.structs && k in curr.structs
          && prev.structs[k].isOpaque != curr.structs[k].isOpaque)
    case OnReserved(_, tag) =>
      && k in prev.structs && k in curr.structs
      && var p, c := prev.structs[k].reserved, curr.structs[k].reserved;
         (code == ReservedRemoved && tag in p && tag !in c) || (code == ReservedAdded && tag !in p && tag in c)
    case OnField(_, tag) =>
      k in prev.structs && k in curr.structs && TagTells(prev.structs[k], curr.structs[k], tag, code)
  }

  /** The struct's own text acknowledges what breaks in it, except the end of a dual write. */
  function TextFor(curr: Snap, code: Code, subject: Subject): string {
    if SeverityOf(code) == Breaking && subject.key in curr.structs
       && code !in {RootRemoved, StructRemoved, CompatWriteRemoved, FieldRemovedCompatWrite}
    then curr.structs[subject.key].allowBreaking else ""
  }

  lemma {:induction false} Indexed(fs: seq<FieldDecl>, tag: nat)
    ensures tag in Index(fs) <==> HasTag(fs, tag)
    ensures tag in Index(fs) ==> InForce(fs, Index(fs)[tag])
    decreases |fs|
  {
    hide InForce, HasTag;
    if |fs| > 0 {
      var n := |fs| - 1;
      Indexed(fs[..n], tag);
      TagAdded(fs[..n], fs[n], tag);
      assert fs == fs[..n] + [fs[n]];
      LastInForce(fs[..n], fs[n]);
      if tag in Index(fs[..n]) && tag != fs[n].tag {
        StaysInForce(fs[..n], fs[n], Index(fs[..n])[tag]);
      }
    } else {
      TagNone(tag);
    }
  }

  lemma {:induction false} TagNone(tag: nat)
    ensures !HasTag([], tag)
  {
  }

  lemma {:induction false} TagAdded(fs: seq<FieldDecl>, f: FieldDecl, tag: nat)
    ensures HasTag(fs + [f], tag) <==> HasTag(fs, tag) || f.tag == tag
  {
    assert f in fs + [f];
    assert forall g :: g in fs ==> g in fs + [f];
  }

  lemma {:induction false} LastInForce(fs: seq<FieldDecl>, f: FieldDecl)
    ensures InForce(fs + [f], f)
  {
    assert (fs + [f])[|fs|] == f;
  }

  lemma {:induction false} StaysInForce(fs: seq<FieldDecl>, f: FieldDecl, g: FieldDecl)
    requires InForce(fs, g) && f.tag != g.tag
    ensures InForce(fs + [f], g)
  {
    var i :| 0 <= i < |fs| && fs[i] == g && forall j :: i < j < |fs| ==> fs[j].tag != g.tag;
    assert (fs + [f])[i] == g;
  }

  lemma {:induction false} ForceIndexed(fs: seq<FieldDecl>, f: FieldDecl)
    requires InForce(fs, f)
    ensures f.tag in Index(fs) && Index(fs)[f.tag] == f
  {
    hide Index;
    var i :| 0 <= i < |fs| && fs[i] == f && forall j :: i < j < |fs| ==> fs[j].tag != f.tag;
    Indexed(fs, f.tag);
    var g := Index(fs)[f.tag];
    var j :| 0 <= j < |fs| && fs[j] == g && forall m :: j < m < |fs| ==> fs[m].tag != g.tag;
    assert i == j;
  }

  lemma {:induction false} Named(fs: seq<FieldDecl>, name: string)
    ensures name in ByName(fs) <==> HasName(fs, name)
    ensures name in ByName(fs) ==> ByName(fs)[name] in fs && ByName(fs)[name].name == name
    decreases |fs|
  {
    if |fs| > 0 {
      var n := |fs| - 1;
      Named(fs[..n], name);
      assert fs == fs[..n] + [fs[n]];
      assert fs[n] in fs;
    }
  }

  lemma {:induction false} WidthRow(p: FieldDecl, c: FieldDecl, row: (Severity, Code))
    requires Exposed(p, c) && Uncoded(p, c) && p.override_ != c.override_
    ensures row in WidthChanges(EffectiveWidth(p), EffectiveWidth(c)) <==>
            row.1 in {WireWidened, WireNarrowed, WireIntentChanged} && FieldTells(p, c, row.1)
            && row.0 == SeverityOf(row.1)
  {
    hide EffectiveWidth;
    var a, b := EffectiveWidth(p), EffectiveWidth(c);
    if a.Some? && b.Some? {
      assert Reannotated(p, c, a.value, b.value);
    }
  }

  const ALIAS_CODES: set<Code> := {AliasAdded, AliasRemoved, AliasRenamed}

  const FLATTEN_CODES: set<Code> := {FlattenedAdded, FlattenedRemoved, FlattenedChanged}

  const WIDTH_CODES: set<Code> := {WireWidened, WireNarrowed, WireIntentChanged}

  const LIFE_CODES: set<Code> := {CompatWriteAdded, FieldDeprecated, CompatWriteRemoved, Resurrected}

  const CUSTOM_CODES: set<Code> := {CustomAdded, CustomRemoved, CustomChanged}

  /** The rules for a tag have these codes and no others. */
  lemma {:induction false} FieldCodes(p: FieldDecl, c: FieldDecl, code: Code)
    requires FieldTells(p, c, code)
    ensures code in ALIAS_CODES + FLATTEN_CODES + WIDTH_CODES + LIFE_CODES + CUSTOM_CODES || code.TypeChanged?
            || code.WireChanged? || code.OptionalChanged? || code.Renamed? || code.CycleBreakAdded?
            || code.CycleBreakRemoved? || code.KeyUnderlyingChanged?
  {
    hide Reannotated, EffectiveWidth, Moved, Exposed;
  }

  /** The rule for one of some codes asks for this row. */
  ghost predicate Asked(p: FieldDecl, c: FieldDecl, codes: set<Code>, row: (Severity, Code)) {
    row.1 in codes && FieldTells(p, c, row.1) && row.0 == SeverityOf(row.1)
  }

  lemma {:induction false} AliasAsked(p: FieldDecl, c: FieldDecl, row: (Severity, Code))
    ensures row in AliasRows(p, c) <==> Asked(p, c, ALIAS_CODES, row)
  {
    hide Reannotated, Uncoded, Moved;
  }

  lemma {:induction false} FlattenAsked(p: FieldDecl, c: FieldDecl, row: (Severity, Code))
    ensures row in FlattenRows(p, c) <==> Asked(p, c, FLATTEN_CODES, row)
  {
    hide Reannotated, Uncoded;
  }

  lemma {:induction false} LifeAsked(p: FieldDecl, c: FieldDecl, row: (Severity, Code))
    ensures row in LifecycleChanges(LifecycleState(p), LifecycleState(c)) <==> Asked(p, c, LIFE_CODES, row)
  {
    hide Reannotated, Moved, Exposed;
  }

  lemma {:induction false} WidthAsked(p: FieldDecl, c: FieldDecl, row: (Severity, Code))
    ensures row in WidthRows(p, c) <==> Asked(p, c, WIDTH_CODES, row)
  {
    hide EffectiveWidth, WidthChanges;
    if Exposed(p, c) && Uncoded(p, c) && p.override_ != c.override_ {
      WidthRow(p, c, row);
    }
  }

  lemma {:induction false} CustomAsked(p: FieldDecl, c: FieldDecl, row: (Severity, Code))
    ensures row in CustomRows(p, c) <==> Asked(p, c, CUSTOM_CODES, row)
  {
    hide Reannotated, Moved;
  }

  /** Where the tool compares one property. */
  ghost predicate Only(p: FieldDecl, c: FieldDecl, code: Code, row: (Severity, Code)) {
    row == (SeverityOf(code), code) && FieldTells(p, c, code)
  }

  lemma {:induction false} TypeAsked(p: FieldDecl, c: FieldDecl, row: (Severity, Code))
    ensures row in TypeRows(p, c) <==> Only(p, c, TypeChanged, row)
  {
  }

  lemma {:induction false} WireAsked(p: FieldDecl, c: FieldDecl, row: (Severity, Code))
    ensures row in WireRows(p, c) <==> Only(p, c, WireChanged, row)
  {
  }

  lemma {:induction false} OptionalAsked(p: FieldDecl, c: FieldDecl, row: (Severity, Code))
    ensures row in OptionalRows(p, c) <==> Only(p, c, OptionalChanged, row)
  {
  }

  lemma {:induction false} NameAsked(p: FieldDecl, c: FieldDecl, row: (Severity, Code))
    ensures row in NameRows(p, c) <==> Only(p, c, Renamed, row)
  {
  }

  lemma {:induction false} CycleAsked(p: FieldDecl, c: FieldDecl, row: (Severity, Code))
    ensures row in CycleRows(p, c) <==> Only(p, c, CycleBreakAdded, row) || Only(p, c, CycleBreakRemoved, row)
  {
  }

  lemma {:induction false} KeyAsked(p: FieldDecl, c: FieldDecl, row: (Severity, Code))
    ensures row in KeyRows(p, c) <==> Only(p, c, KeyUnderlyingChanged, row)
  {
  }

  /** Some rule asks for this row. */
  ghost predicate AnyAsked(p: FieldDecl, c: FieldDecl, row: (Severity, Code)) {
    || Only(p, c, TypeChanged, row) || Asked(p, c, ALIAS_CODES, row) || Asked(p, c, FLATTEN_CODES, row)
    || Only(p, c, WireChanged, row) || Only(p, c, OptionalChanged, row) || Asked(p, c, LIFE_CODES, row)
    || Only(p, c, Renamed, row) || Only(p, c, CycleBreakAdded, row) || Only(p, c, CycleBreakRemoved, row)
    || Only(p, c, KeyUnderlyingChanged, row) || Asked(p, c, WIDTH_CODES, row) || Asked(p, c, CUSTOM_CODES, row)
  }

  lemma {:induction false} RulesAsk(p: FieldDecl, c: FieldDecl, row: (Severity, Code))
    ensures AnyAsked(p, c, row) <==> FieldTells(p, c, row.1) && row.0 == SeverityOf(row.1)
  {
    hide FieldTells, SeverityOf;
    if FieldTells(p, c, row.1) {
      FieldCodes(p, c, row.1);
    }
  }

  lemma {:induction false} RowsAsked(p: FieldDecl, c: FieldDecl, row: (Severity, Code))
    ensures row in FieldChanges(p, c) <==> AnyAsked(p, c, row)
  {
    hide TypeRows, AliasRows, FlattenRows, WireRows, OptionalRows, LifecycleChanges, NameRows, CycleRows, KeyRows,
      WidthRows, CustomRows, LifecycleState, Only, Asked;
    TypeAsked(p, c, row);
    AliasAsked(p, c, row);
    FlattenAsked(p, c, row);
    WireAsked(p, c, row);
    OptionalAsked(p, c, row);
    LifeAsked(p, c, row);
    NameAsked(p, c, row);
    CycleAsked(p, c, row);
    KeyAsked(p, c, row);
    WidthAsked(p, c, row);
    CustomAsked(p, c, row);
  }

  /** The rows of one tag that both sides declare. */
  lemma {:induction false} FieldRows(p: FieldDecl, c: FieldDecl, row: (Severity, Code))
    ensures row in FieldChanges(p, c) <==> FieldTells(p, c, row.1) && row.0 == SeverityOf(row.1)
  {
    hide FieldTells, SeverityOf, FieldChanges, AnyAsked;
    RowsAsked(p, c, row);
    RulesAsk(p, c, row);
  }

  /** The rows of one tag of a struct that both snapshots have. */
  lemma {:induction false} TagRows(key: string, p: StructDecl, c: StructDecl, tag: nat, row: (Severity, Code))
    ensures FieldReported(key, p, c, tag, row) <==> TagTells(p, c, tag, row.1) && row.0 == SeverityOf(row.1)
  {
    hide Index, ByName, FieldChanges, FieldTells, InForce, HasTag, HasName;
    Indexed(p.fields, tag);
    Indexed(c.fields, tag);
    var ps, cs := Index(p.fields), Index(c.fields);
    forall f, g | Shared(p, c, f, g) && f.tag == tag ensures tag in ps && tag in cs && ps[tag] == f && cs[tag] == g {
      ForceIndexed(p.fields, f);
      ForceIndexed(c.fields, g);
    }
    forall f | Lost(p, c, f) && f.tag == tag ensures tag in ps && ps[tag] == f {
      ForceIndexed(p.fields, f);
    }
    forall g | Lost(c, p, g) && g.tag == tag ensures tag in cs && cs[tag] == g {
      ForceIndexed(c.fields, g);
    }
    if tag in ps && tag in cs {
      assert Shared(p, c, ps[tag], cs[tag]);
      FieldRows(ps[tag], cs[tag], row);
    } else if tag in ps {
      assert Lost(p, c, ps[tag]);
    } else if tag in cs {
      assert Lost(c, p, cs[tag]);
      AddedRow(p.fields, cs[tag]);
    }
  }

  lemma {:induction false} AddedRow(fs: seq<FieldDecl>, g: FieldDecl)
    requires !HasTag(fs, g.tag)
    ensures AddedChange(ByName(fs), g) ==
            if HasName(fs, g.name) then (Breaking, TagChanged) else (Safe, FieldAdded)
  {
    Named(fs, g.name);
  }

  /** A diff holds a row if and only if the declarations call for one with that code about that subject, at that code's
      severity, acknowledged by exactly the text that covers it. */
  lemma {:induction false} RowsExactly(prev: Snap, curr: Snap, ch: Change)
    ensures Reported(prev, curr, ch) <==>
            && Tells(prev, curr, ch.code, ch.subject) && ch.severity == SeverityOf(ch.code)
            && ch.acknowledged == TextFor(curr, ch.code, ch.subject)
  {
    hide FieldReported, TagTells;
    var k := ch.subject.key;
    if ch.subject.OnField? && k in prev.structs && k in curr.structs {
      var p, c := prev.structs[k], curr.structs[k];
      TagRows(k, p, c, ch.subject.tag, (ch.severity, ch.code));
      if TagTells(p, c, ch.subject.tag, ch.code) {
        TagCodes(p, c, ch.subject.tag, ch.code);
      }
    }
  }

  lemma {:induction false} TagCodes(p: StructDecl, c: StructDecl, tag: nat, code: Code)
    requires TagTells(p, c, tag, code)
    ensures code != RootRemoved && code != StructRemoved
  {
    hide InForce, HasTag, Exposed, Reannotated, Moved;
  }

  /** Two declarations of a tag differ in a way old bytes do not survive. */
  predicate Alters(p: FieldDecl, c: FieldDecl) {
    && Exposed(p, c)
    && (p.shape != c.shape || p.optional != c.optional || p.cycleBreak != c.cycleBreak
        || (p.wire != c.wire && Uncoded(p, c))
        || (p.keyUnder != "" && c.keyUnder != "" && p.keyUnder != c.keyUnder)
        || (p.custom != "" && p.custom != c.custom)
        || (Uncoded(p, c) && p.override_ != c.override_ && Narrower(EffectiveWidth(p), EffectiveWidth(c))))
  }

  predicate Narrower(p: Option<nat>, c: Option<nat>) { p.Some? && c.Some? && c.value < p.value }

  /** A struct takes something back: a tag, a reserved tag, the meaning of a tag, or a name's tag. */
  ghost predicate Breaks(p: StructDecl, c: StructDecl) {
    || (exists f :: Lost(p, c, f))
    || (exists f, g :: Shared(p, c, f, g) && Alters(f, g))
    || (exists g :: Lost(c, p, g) && HasName(p.fields, g.name))
    || (exists t :: t in p.reserved && t !in c.reserved)
  }

  /** A field is gone while it was still written for old readers. */
  ghost predicate DropsDualWrite(p: StructDecl, c: StructDecl) { exists f :: Lost(p, c, f) && DualWrite(f) }

  /** A field is no longer written for old readers. */
  ghost predicate StopsDualWrite(p: StructDecl, c: StructDecl) {
    exists f, g :: Shared(p, c, f, g) && DualWrite(f) && OffWire(g)
  }

  ghost predicate StructBlocked(p: StructDecl, c: StructDecl, allowStop: bool) {
    || DropsDualWrite(p, c)
    || (StopsDualWrite(p, c) && !allowStop)
    || (Breaks(p, c) && c.allowBreaking == "")
  }

  ghost predicate Blocked(prev: Snap, curr: Snap, allowStop: bool) {
    || (exists k :: k in prev.roots && k !in curr.roots)
    || (exists k :: k in prev.structs && k !in curr.structs)
    || exists k :: k in prev.structs && k in curr.structs && StructBlocked(prev.structs[k], curr.structs[k], allowStop)
  }

  /** Nothing in the struct is worth more than a safe row. */
  ghost predicate Quiet(p: StructDecl, c: StructDecl) {
    && p.isOpaque == c.isOpaque && !Breaks(p, c)
    && forall f, g :: Shared(p, c, f, g) ==> Calm(f, g)
  }

  /** The tag neither leaves the wire nor comes back for good, and gets no codec. */
  predicate Calm(f: FieldDecl, g: FieldDecl) {
    && (OffWire(g) ==> OffWire(f)) && (f.deprecated ==> g.deprecated)
    && (Exposed(f, g) && f.custom == "" ==> g.custom == "")
  }

  ghost predicate QuietStep(prev: Snap, curr: Snap) {
    && prev.roots <= curr.roots
    && forall k :: k in prev.structs ==> k in curr.structs && Quiet(prev.structs[k], curr.structs[k])
  }

  /** A breaking row the gate does not let through. */
  ghost predicate Stands(prev: Snap, curr: Snap, allowStop: bool, code: Code, subject: Subject) {
    && Tells(prev, curr, code, subject) && SeverityOf(code) == Breaking && TextFor(curr, code, subject) == ""
    && !(allowStop && code == CompatWriteRemoved)
  }

  lemma {:induction false} BlocksStands(prev: Snap, curr: Snap, allowStop: bool)
    ensures Blocks(prev, curr, allowStop) <==> exists code, subject :: Stands(prev, curr, allowStop, code, subject)
  {
    hide Reported, Tells, TextFor, SeverityOf;
    forall raw ensures Reported(prev, curr, raw) && Blocking(Stamp(allowStop, raw)) ==>
                       Stands(prev, curr, allowStop, raw.code, raw.subject) {
      RowsExactly(prev, curr, raw);
    }
    forall code, subject | Stands(prev, curr, allowStop, code, subject) ensures Blocks(prev, curr, allowStop) {
      var raw := Change(Breaking, code, subject, "");
      RowsExactly(prev, curr, raw);
      assert Reported(prev, curr, raw) && Blocking(Stamp(allowStop, raw));
    }
  }

  /** A code under which an alteration is reported. */
  function AlterCode(p: FieldDecl, c: FieldDecl): Code {
    if p.shape != c.shape then TypeChanged
    else if p.optional != c.optional then OptionalChanged
    else if p.cycleBreak != c.cycleBreak then (if c.cycleBreak then CycleBreakAdded else CycleBreakRemoved)
    else if p.keyUnder != "" && c.keyUnder != "" && p.keyUnder != c.keyUnder then KeyUnderlyingChanged
    else if p.custom != "" && p.custom != c.custom then (if c.custom == "" then CustomRemoved else CustomChanged)
    else if p.wire != c.wire then WireChanged
    else WireNarrowed
  }

  lemma {:induction false} AltersTells(p: FieldDecl, c: FieldDecl)
    requires Alters(p, c)
    ensures FieldTells(p, c, AlterCode(p, c)) && SeverityOf(AlterCode(p, c)) == Breaking
            && AlterCode(p, c) !in {RootRemoved, StructRemoved, CompatWriteRemoved, FieldRemovedCompatWrite}
  {
    hide EffectiveWidth;
    if AlterCode(p, c) == WireNarrowed {
      assert Reannotated(p, c, EffectiveWidth(p).value, EffectiveWidth(c).value);
    }
  }

  lemma {:induction false} TellsAlters(p: FieldDecl, c: FieldDecl, code: Code)
    requires FieldTells(p, c, code) && SeverityOf(code) == Breaking
    ensures if code == CompatWriteRemoved then DualWrite(p) && OffWire(c) else Alters(p, c)
  {
    hide EffectiveWidth;
  }

  /** A breaking row about a tag that neither the struct's text nor the flag acknowledges. */
  ghost predicate TagStands(p: StructDecl, c: StructDecl, allowStop: bool, code: Code, tag: nat) {
    && TagTells(p, c, tag, code) && SeverityOf(code) == Breaking && !(allowStop && code == CompatWriteRemoved)
    && (c.allowBreaking == "" || code == CompatWriteRemoved || code == FieldRemovedCompatWrite)
  }

  lemma {:induction false} FieldStands(prev: Snap, curr: Snap, allowStop: bool, code: Code, k: string, tag: nat)
    ensures Stands(prev, curr, allowStop, code, OnField(k, tag)) <==>
            k in prev.structs && k in curr.structs
            && TagStands(prev.structs[k], curr.structs[k], allowStop, code, tag)
  {
    hide TagTells, SeverityOf;
    if k in prev.structs && k in curr.structs && TagTells(prev.structs[k], curr.structs[k], tag, code) {
      TagCodes(prev.structs[k], curr.structs[k], tag, code);
    }
  }

  /** A breaking row that stands is a reason to block the struct. */
  lemma {:induction false} StandsBlocks(p: StructDecl, c: StructDecl, allowStop: bool, code: Code, tag: nat)
    requires TagStands(p, c, allowStop, code, tag)
    ensures StructBlocked(p, c, allowStop)
  {
    hide FieldTells, Alters, InForce, HasTag, HasName;
    if f, g :| Shared(p, c, f, g) && f.tag == tag && FieldTells(f, g, code) {
      SharedBlocks(p, c, allowStop, code, f, g);
    } else if f :| Lost(p, c, f) && f.tag == tag && code == LostCode(f) {
    } else {
      var g :| Lost(c, p, g) && g.tag == tag && code == NewCode(p, g);
    }
  }

  lemma {:induction false} SharedBlocks(p: StructDecl, c: StructDecl, allowStop: bool, code: Code, f: FieldDecl,
                                        g: FieldDecl)
    requires Shared(p, c, f, g) && FieldTells(f, g, code) && SeverityOf(code) == Breaking
    requires !(allowStop && code == CompatWriteRemoved)
    requires c.allowBreaking == "" || code == CompatWriteRemoved || code == FieldRemovedCompatWrite
    ensures StructBlocked(p, c, allowStop)
  {
    hide FieldTells, Alters, InForce, HasTag, HasName, SeverityOf;
    TellsAlters(f, g, code);
    FieldCodes(f, g, code);
  }

  /** And a reason to block the struct is a breaking row that stands. */
  lemma {:induction false} BlockStands(p: StructDecl, c: StructDecl, allowStop: bool)
    requires StructBlocked(p, c, allowStop)
    ensures (exists code, tag :: TagStands(p, c, allowStop, code, tag)) ||
            (c.allowBreaking == "" && exists t :: t in p.reserved && t !in c.reserved)
  {
    hide FieldTells, Alters, InForce, HasTag, HasName, AlterCode;
    if f :| Lost(p, c, f) && (DualWrite(f) || c.allowBreaking == "") {
      assert TagStands(p, c, allowStop, LostCode(f), f.tag);
    } else if f, g :| Shared(p, c, f, g) && DualWrite(f) && OffWire(g) && !allowStop {
      StopTells(f, g);
      assert TagStands(p, c, allowStop, CompatWriteRemoved, f.tag);
    } else if f, g :| Shared(p, c, f, g) && Alters(f, g) {
      AltersTells(f, g);
      assert TagStands(p, c, allowStop, AlterCode(f, g), f.tag);
    } else if g :| Lost(c, p, g) && HasName(p.fields, g.name) {
      assert TagStands(p, c, allowStop, TagChanged, g.tag);
    }
  }

  lemma {:induction false} StopTells(f: FieldDecl, g: FieldDecl)
    ensures FieldTells(f, g, CompatWriteRemoved) <==> DualWrite(f) && OffWire(g)
  {
  }

  /** Exactly which steps the gate blocks. A lost root or struct always; in a struct of both snapshots a field dropped
      while it was dual-written always, the end of a dual write unless the operator's flag admits it, and whatever else
      breaks unless the struct has a text. */
  lemma {:induction false} GateExactly(prev: Snap, curr: Snap, allowStop: bool)
    ensures Blocks(prev, curr, allowStop) <==> Blocked(prev, curr, allowStop)
  {
    hide Blocks, TagTells, StructBlocked, TagStands;
    BlocksStands(prev, curr, allowStop);
    forall code, subject | Stands(prev, curr, allowStop, code, subject) ensures Blocked(prev, curr, allowStop) {
      var k := subject.key;
      match subject
      case OnRoot(_) =>
      case OnStruct(_) =>
      case OnField(_, tag) =>
        FieldStands(prev, curr, allowStop, code, k, tag);
        StandsBlocks(prev.structs[k], curr.structs[k], allowStop, code, tag);
      case OnReserved(_, t) => ReservedBlocks(prev.structs[k], curr.structs[k], allowStop, t);
    }
    if k :| k in prev.roots && k !in curr.roots {
      assert Stands(prev, curr, allowStop, RootRemoved, OnRoot(k));
    }
    if k :| k in prev.structs && k !in curr.structs {
      assert Stands(prev, curr, allowStop, StructRemoved, OnStruct(k));
    }
    if k :| k in prev.structs && k in curr.structs && StructBlocked(prev.structs[k], curr.structs[k], allowStop) {
      BlockStands(prev.structs[k], curr.structs[k], allowStop);
      if code, tag :| TagStands(prev.structs[k], curr.structs[k], allowStop, code, tag) {
        FieldStands(prev, curr, allowStop, code, k, tag);
      } else {
        var t :| t in prev.structs[k].reserved && t !in curr.structs[k].reserved;
        assert Stands(prev, curr, allowStop, ReservedRemoved, OnReserved(k, t));
      }
    }
  }

  lemma {:induction false} ReservedBlocks(p: StructDecl, c: StructDecl, allowStop: bool, t: nat)
    requires t in p.reserved && t !in c.reserved && c.allowBreaking == ""
    ensures StructBlocked(p, c, allowStop)
  {
    assert Breaks(p, c);
  }

  /** A step without acknowledgements passes if and only if it takes nothing back and stops no dual write. */
  lemma {:induction false} PlainPasses(prev: Snap, curr: Snap)
    ensures PassesPlain(prev, curr) <==>
            && (forall k :: k in curr.structs ==> curr.structs[k].allowBreaking == "")
            && prev.roots <= curr.roots
            && forall k :: k in prev.structs ==>
                 && k in curr.structs && !Breaks(prev.structs[k], curr.structs[k])
                 && !StopsDualWrite(prev.structs[k], curr.structs[k])
  {
    hide Blocks, Breaks, StopsDualWrite, DropsDualWrite;
    GateExactly(prev, curr, false);
    forall k | k in prev.structs && k in curr.structs
      ensures DropsDualWrite(prev.structs[k], curr.structs[k]) ==> Breaks(prev.structs[k], curr.structs[k])
    {
      DropBreaks(prev.structs[k], curr.structs[k]);
    }
  }

  lemma {:induction false} DropBreaks(p: StructDecl, c: StructDecl)
    ensures DropsDualWrite(p, c) ==> Breaks(p, c)
  {
  }

  /** The rows about a tag are all safe exactly when nothing breaks there and the tag is calm. */
  lemma {:induction false} CalmTells(p: FieldDecl, c: FieldDecl)
    ensures (exists code :: FieldTells(p, c, code) && SeverityOf(code) != Safe) <==> Alters(p, c) || !Calm(p, c)
  {
    hide EffectiveWidth, Reannotated, Alters;
    if Alters(p, c) {
      AltersTells(p, c);
    }
    if !Calm(p, c) {
      assert FieldTells(p, c, if p.deprecated && !c.deprecated then Resurrected
                              else if Exposed(p, c) && p.custom == "" && c.custom != "" then CustomAdded
                              else if DualWrite(p) then CompatWriteRemoved else FieldDeprecated);
    }
    forall code | FieldTells(p, c, code) && SeverityOf(code) != Safe ensures Alters(p, c) || !Calm(p, c) {
      if SeverityOf(code) == Breaking {
        TellsAlters(p, c, code);
      }
    }
  }

  /** Something about a struct is worth more than a safe row. */
  ghost predicate Stirs(p: StructDecl, c: StructDecl) {
    || p.isOpaque != c.isOpaque
    || (exists t :: t in p.reserved && t !in c.reserved)
    || exists tag, code :: TagTells(p, c, tag, code) && SeverityOf(code) != Safe
  }

  lemma {:induction false} QuietStirs(p: StructDecl, c: StructDecl)
    ensures Quiet(p, c) <==> !Stirs(p, c)
  {
    hide FieldTells, Alters, Calm, InForce, HasTag, HasName, SeverityOf;
    forall f, g | Shared(p, c, f, g)
      ensures (exists code :: FieldTells(f, g, code) && SeverityOf(code) != Safe) <==> Alters(f, g) || !Calm(f, g)
      ensures forall code :: FieldTells(f, g, code) ==> TagTells(p, c, f.tag, code)
    {
      CalmTells(f, g);
    }
    LostSevere();
    forall f | Lost(p, c, f) ensures TagTells(p, c, f.tag, LostCode(f)) {
    }
    forall g | Lost(c, p, g) && HasName(p.fields, g.name) ensures TagTells(p, c, g.tag, TagChanged) {
    }
  }

  lemma {:induction false} LostSevere()
    ensures forall f :: SeverityOf(LostCode(f)) == Breaking
    ensures SeverityOf(TagChanged) == Breaking && SeverityOf(FieldAdded) == Safe
  {
  }

  /** Exactly which steps report nothing above safe; and the gate lets those pass. */
  lemma {:induction false} SafeExactly(prev: Snap, curr: Snap)
    ensures OnlySafe(prev, curr) <==> QuietStep(prev, curr)
    ensures QuietStep(prev, curr) ==> forall allowStop :: !Blocks(prev, curr, allowStop)
  {
    hide Quiet, TagTells;
    if OnlySafe(prev, curr) {
      forall code, subject | Tells(prev, curr, code, subject) ensures SeverityOf(code) == Safe {
        var ch := Change(SeverityOf(code), code, subject, TextFor(curr, code, subject));
        RowsExactly(prev, curr, ch);
      }
      SafeQuiet(prev, curr);
    }
    if QuietStep(prev, curr) {
      forall ch | Reported(prev, curr, ch) ensures ch.severity == Safe {
        RowsExactly(prev, curr, ch);
        QuietSafe(prev, curr, ch.code, ch.subject);
      }
    }
  }

  lemma {:induction false} SafeQuiet(prev: Snap, curr: Snap)
    requires forall code, subject :: Tells(prev, curr, code, subject) ==> SeverityOf(code) == Safe
    ensures QuietStep(prev, curr)
  {
    hide Quiet, TagTells;
    forall k | k in prev.roots ensures k in curr.roots {
      assert k !in curr.roots ==> Tells(prev, curr, RootRemoved, OnRoot(k));
    }
    forall k | k in prev.structs ensures k in curr.structs && Quiet(prev.structs[k], curr.structs[k]) {
      assert k !in curr.structs ==> Tells(prev, curr, StructRemoved, OnStruct(k));
      var p, c := prev.structs[k], curr.structs[k];
      QuietStirs(p, c);
      assert p.isOpaque != c.isOpaque ==> Tells(prev, curr, OpaqueChanged, OnStruct(k));
      forall t | t in p.reserved ensures t in c.reserved {
        assert t !in c.reserved ==> Tells(prev, curr, ReservedRemoved, OnReserved(k, t));
      }
      forall tag, code | TagTells(p, c, tag, code) ensures SeverityOf(code) == Safe {
        assert Tells(prev, curr, code, OnField(k, tag));
      }
    }
  }

  lemma {:induction false} QuietSafe(prev: Snap, curr: Snap, code: Code, subject: Subject)
    requires QuietStep(prev, curr) && Tells(prev, curr, code, subject)
    ensures SeverityOf(code) == Safe
  {
    hide Quiet, TagTells;
    var k := subject.key;
    if k in prev.structs && k in curr.structs {
      QuietStirs(prev.structs[k], curr.structs[k]);
    }
  }
}
