/** What a reader of another schema ends up with, said without Convert: a relation between the value that was written
    and the value that was read, at any depth. */
module Projection {
  import opened Basics
  import opened Schema
  import opened Generated
  import opened Evolution
  import opened RoundTrip

  /** out is what a reader of type r holds of the writer's v: the value under every tag both declare, zero under every
      tag that was not written; all: and no written tag is missing, in this struct or in any below it. */
  ghost predicate Projects(w: Ty, r: Ty, v: Val, out: Val, all: bool)
    decreases v, 1
  {
    match (w, r, v, out)
    case (TSlice(a, _), TSlice(b, _), VSlice(es), VSlice(os)) =>
      |os| == |es| && forall i :: 0 <= i < |es| ==> Projects(a, b, es[i], os[i], all)
    case (TMap(_, a), TMap(_, b), VMap(m), VMap(n)) =>
      n.Keys == m.Keys && forall k :: k in m ==> Projects(a, b, m[k], n[k], all)
    case (TOpt(a, _), TOpt(b, _), VSome(x), VSome(y)) => Projects(a, b, x, y, all)
    case (TStruct(fs), TStruct(gs), VStruct(live, vs), VStruct(l, os)) =>
      |vs| == |fs| && |os| == |gs| && l == Reached(fs, gs, live, vs) && ProjectsFields(fs, gs, live, vs, os, all)
    case _ => out == v
  }

  ghost predicate ProjectsFields(ws: seq<Field>, rs: seq<Field>, live: set<nat>, vs: seq<Val>, os: seq<Val>, all: bool)
    requires |vs| == |ws| && |os| == |rs|
    decreases vs, 4
  {
    && (forall j :: 0 <= j < |rs| ==> ProjectsInto(ws, live, vs, rs[j], os[j], all))
    && (all ==> forall i :: 0 <= i < |ws| && Written(ws[i], live, vs[i]) ==> Find(rs, ws[i].tag).Some?)
  }

  ghost predicate ProjectsInto(ws: seq<Field>, live: set<nat>, vs: seq<Val>, r: Field, o: Val, all: bool)
    requires |vs| == |ws|
    decreases vs, 3
  {
    match Source(ws, live, vs, r.tag)
    case None => o == ZeroField(r)
    case Some(i) => ProjectsField(ws[i], r, vs[i], o, all)
  }

  ghost predicate ProjectsField(w: Field, r: Field, v: Val, o: Val, all: bool)
    decreases v, 2
  {
    if w.idRef && v.VSome? then o.VSome? && Projects(w.ty, r.ty, v.target, o.target, all)
    else Projects(w.ty, r.ty, v, o, all)
  }

  /** Every tag a writer of type w may send is declared by a reader of type r, at any depth. */
  ghost predicate Covers(w: Ty, r: Ty)
    decreases w, 1
  {
    match (w, r)
    case (TSlice(a, _), TSlice(b, _)) => Covers(a, b)
    case (TMap(_, a), TMap(_, b)) => Covers(a, b)
    case (TOpt(a, _), TOpt(b, _)) => Covers(a, b)
    case (TStruct(fs), TStruct(gs)) =>
      forall i :: 0 <= i < |fs| && fs[i].state != Deprecated ==>
        Find(gs, fs[i].tag).Some? && CoversField(fs[i], gs[Find(gs, fs[i].tag).value])
    case _ => true
  }

  ghost predicate CoversField(w: Field, r: Field)
    decreases w, 0
  {
    Covers(w.ty, r.ty)
  }

  /** A reader that accepts a value ends up with its projection, and with all of it when it declares every tag. */
  lemma {:induction false} ConvertProjects(w: Ty, r: Ty, v: Val, all: bool)
    requires Sendable(w, v) && GoodTy(r) && Compat(w, r) && Convert(w, r, v).Ok? && (all ==> Covers(w, r))
    ensures Projects(w, r, v, Convert(w, r, v).value, all)
    decreases v, 1
  {
    match w
    case TSlice(_, _) => SliceProjects(w, r, v, all);
    case TMap(_, _) => MapProjects(w, r, v, all);
    case TOpt(a, _) =>
      if v.VSome? {
        ConvertProjects(a, r.target, v.target, all);
      }
    case TStruct(fs) => StructProjects(fs, r.fields, v.live, v.vals, all);
    case _ =>
  }

  lemma {:induction false} SliceProjects(w: Ty, r: Ty, v: Val, all: bool)
    requires w.TSlice? && Sendable(w, v) && GoodTy(r) && Compat(w, r) && Convert(w, r, v).Ok? && (all ==> Covers(w, r))
    ensures Projects(w, r, v, Convert(w, r, v).value, all)
    decreases v, 0
  {
    hide ConvertElems, OverBudget;
    var out := Convert(w, r, v).value.elems;
    ElemsPointwise(w.elem, r.elem, v.elems);
    forall i | 0 <= i < |v.elems| ensures Projects(w.elem, r.elem, v.elems[i], out[i], all) {
      ConvertProjects(w.elem, r.elem, v.elems[i], all);
    }
  }

  lemma {:induction false} MapProjects(w: Ty, r: Ty, v: Val, all: bool)
    requires w.TMap? && Sendable(w, v) && GoodTy(r) && Compat(w, r) && Convert(w, r, v).Ok? && (all ==> Covers(w, r))
    ensures Projects(w, r, v, Convert(w, r, v).value, all)
    decreases v, 0
  {
    hide ConvertEntries, Sorted, Projects, Covers, InWidth;
    var ks := Sorted(v.entries.Keys);
    var out := Convert(w, r, v).value.entries;
    assert ConvertEntries(w.val, r.val, v, ks, map[]) == Ok(out);
    hide Convert;
    SortedLists(v.entries.Keys);
    EntriesPointwise(w.val, r.val, v, ks, map[]);
    assert out.Keys == v.entries.Keys;
    forall k | k in v.entries ensures Projects(w.val, r.val, v.entries[k], out[k], all) {
      EntryParts(w, r, v, k);
      ConvertProjects(w.val, r.val, v.entries[k], all);
    }
    EntriesProject(w, r, v, out, all);
  }

  lemma {:induction false} EntryParts(w: Ty, r: Ty, v: Val, k: Key)
    requires w.TMap? && Sendable(w, v) && GoodTy(r) && Compat(w, r) && k in v.entries
    ensures Sendable(w.val, v.entries[k]) && GoodTy(r.val) && Compat(w.val, r.val)
            && (Covers(w, r) ==> Covers(w.val, r.val))
  {
  }

  lemma {:induction false} EntriesProject(w: Ty, r: Ty, v: Val, out: map<Key, Val>, all: bool)
    requires w.TMap? && r.TMap? && v.VMap? && out.Keys == v.entries.Keys
    requires forall k :: k in v.entries ==> Projects(w.val, r.val, v.entries[k], out[k], all)
    ensures Projects(w, r, v, VMap(out), all)
  {
  }

  lemma {:induction false} StructProjects(ws: seq<Field>, rs: seq<Field>, live: set<nat>, vs: seq<Val>, all: bool)
    requires Sendable(TStruct(ws), VStruct(live, vs)) && GoodFields(rs) && CompatFields(ws, rs)
    requires all ==> Covers(TStruct(ws), TStruct(rs))
    requires ConvertFields(ws, rs, live, vs, {}, ZeroFields(rs)).Ok?
    ensures var c := ConvertFields(ws, rs, live, vs, {}, ZeroFields(rs)).value;
            Projects(TStruct(ws), TStruct(rs), VStruct(live, vs), VStruct(c.0, c.1), all)
    decreases vs, 4
  {
    Parts(ws, live, vs);
    var c := ConvertFields(ws, rs, live, vs, {}, ZeroFields(rs)).value;
    hide Has, CanEnc, Convert, ConvertFields, ConvertField, GoodTy, Compat, Reached, Source, ProjectsInto, ZeroField,
      Filled, FieldsSendable, GoodFields, CompatFields, Find, Written;
    FieldsPointwise(ws, rs, live, vs, {}, ZeroFields(rs));
    assert {} + Reached(ws, rs, live, vs) == Reached(ws, rs, live, vs);
    forall j | 0 <= j < |rs| ensures ProjectsInto(ws, live, vs, rs[j], c.1[j], all) {
      FieldProjects(ws, rs, live, vs, j, c.1[j], all);
    }
    LiveFound(ws, rs, live, vs);
  }

  lemma {:induction false} LiveFound(ws: seq<Field>, rs: seq<Field>, live: set<nat>, vs: seq<Val>)
    requires |vs| == |ws|
    ensures Covers(TStruct(ws), TStruct(rs)) ==>
            forall i :: 0 <= i < |ws| && Written(ws[i], live, vs[i]) ==> Find(rs, ws[i].tag).Some?
  {
    hide Find;
  }

  lemma {:induction false} FieldProjects(ws: seq<Field>, rs: seq<Field>, live: set<nat>, vs: seq<Val>, j: nat, o: Val,
                                         all: bool)
    requires FieldsSendable(ws, live, vs) && GoodFields(rs) && CompatFields(ws, rs)
    requires all ==> Covers(TStruct(ws), TStruct(rs))
    requires j < |rs| && Filled(ws, live, vs, rs[j], ZeroField(rs[j]), o)
    ensures ProjectsInto(ws, live, vs, rs[j], o, all)
    decreases vs, 3
  {
    hide Source, ProjectsField, ConvertField, ZeroField, GoodFields, CompatFields, Covers, Has, CanEnc;
    var i := Source(ws, live, vs, rs[j].tag);
    if i.Some? {
      SharedField(ws, rs, live, vs, i.value, j, all);
      SentProjects(ws[i.value], rs[j], vs[i.value], o, all);
    }
  }

  lemma {:induction false} SharedField(ws: seq<Field>, rs: seq<Field>, live: set<nat>, vs: seq<Val>, i: nat, j: nat,
                                       all: bool)
    requires FieldsSendable(ws, live, vs) && GoodFields(rs) && CompatFields(ws, rs)
    requires all ==> Covers(TStruct(ws), TStruct(rs))
    requires i < |ws| && j < |rs| && ws[i].tag == rs[j].tag && Written(ws[i], live, vs[i])
    ensures Sendable(ws[i].ty, Sent(ws[i], vs[i])) && GoodTy(rs[j].ty) && Compat(ws[i].ty, rs[j].ty)
    ensures all ==> Covers(ws[i].ty, rs[j].ty)
  {
    FieldReady(ws, live, vs, i);
    OnlyOne(rs, rs[j].tag);
    assert CompatField(ws[i], rs[j]) && GoodField(rs[j]) && (all ==> CoversField(ws[i], rs[j]));
  }

  lemma {:induction false} SentProjects(w: Field, r: Field, v: Val, o: Val, all: bool)
    requires Sendable(w.ty, Sent(w, v)) && GoodTy(r.ty) && Compat(w.ty, r.ty) && (all ==> Covers(w.ty, r.ty))
    requires ConvertField(w, r, v) == Ok(o)
    ensures ProjectsField(w, r, v, o, all)
    decreases v, 2
  {
    hide Has, CanEnc, Convert, GoodTy, Compat, Covers, Projects;
    ConvertProjects(w.ty, r.ty, Sent(w, v), all);
  }

  /** What was written determines what is read. */
  lemma {:induction false} ProjectionUnique(w: Ty, r: Ty, v: Val, a: Val, b: Val, all: bool)
    requires Projects(w, r, v, a, all) && Projects(w, r, v, b, all)
    ensures a == b
    decreases v, 1
  {
    match (w, r, v)
    case (TSlice(_, _), TSlice(_, _), VSlice(es)) =>
      forall i | 0 <= i < |es| && a.VSlice? && b.VSlice? ensures a.elems[i] == b.elems[i] {
        ProjectionUnique(w.elem, r.elem, es[i], a.elems[i], b.elems[i], all);
      }
      assert a.VSlice? && b.VSlice? ==> a.elems == b.elems;
    case (TMap(_, _), TMap(_, _), VMap(m)) =>
      forall k | k in m && a.VMap? && b.VMap? ensures a.entries[k] == b.entries[k] {
        ProjectionUnique(w.val, r.val, m[k], a.entries[k], b.entries[k], all);
      }
      assert a.VMap? && b.VMap? ==> a.entries == b.entries;
    case (TOpt(_, _), TOpt(_, _), VSome(x)) =>
      if a.VSome? && b.VSome? {
        ProjectionUnique(w.target, r.target, x, a.target, b.target, all);
      }
    case (TStruct(_), TStruct(_), VStruct(_, _)) =>
      if a.VStruct? && b.VStruct? {
        StructUnique(w, r, v, a, b, all);
      }
    case _ =>
  }

  lemma {:induction false} StructUnique(w: Ty, r: Ty, v: Val, a: Val, b: Val, all: bool)
    requires w.TStruct? && r.TStruct? && v.VStruct? && a.VStruct? && b.VStruct?
    requires Projects(w, r, v, a, all) && Projects(w, r, v, b, all)
    ensures a == b
    decreases v, 0
  {
    hide Reached, ProjectsInto;
    forall j | 0 <= j < |r.fields| ensures a.vals[j] == b.vals[j] {
      FieldUnique(w.fields, v.live, v.vals, r.fields[j], a.vals[j], b.vals[j], all);
    }
    assert a.vals == b.vals;
  }

  lemma {:induction false} FieldUnique(ws: seq<Field>, live: set<nat>, vs: seq<Val>, r: Field, a: Val, b: Val,
                                       all: bool)
    requires |vs| == |ws| && ProjectsInto(ws, live, vs, r, a, all) && ProjectsInto(ws, live, vs, r, b, all)
    ensures a == b
    decreases vs, 4
  {
    hide Projects, Source;
    match Source(ws, live, vs, r.tag)
    case None =>
    case Some(i) =>
      SentUnique(ws[i], r, vs[i], a, b, all);
  }

  lemma {:induction false} SentUnique(w: Field, r: Field, v: Val, a: Val, b: Val, all: bool)
    requires ProjectsField(w, r, v, a, all) && ProjectsField(w, r, v, b, all)
    ensures a == b
    decreases v, 2
  {
    hide Projects;
    if w.idRef && v.VSome? {
      ProjectionUnique(w.ty, r.ty, v.target, a.target, b.target, all);
    } else {
      ProjectionUnique(w.ty, r.ty, v, a, b, all);
    }
  }

  /** What a reader makes of the body of a writer it agrees with: its projection, all of it or what it declares of it,
      unless a slice is over the budget or, where that is conceded, an integer overflows. */
  ghost predicate Readable(ws: seq<Field>, rs: seq<Field>, live: set<nat>, vs: seq<Val>, overflows: bool, all: bool) {
    Sendable(TStruct(ws), VStruct(live, vs)) && |EncFields(ws, live, vs)| < TWO_64 ==>
      match DecFields(rs, EncFields(ws, live, vs), {}, ZeroFields(rs))
      case Ok(got) => Projects(TStruct(ws), TStruct(rs), VStruct(live, vs), VStruct(got.0, got.1), all)
      case Err(e) =>
        || (e == AllocTooLarge && !InBudget(TStruct(ws), TStruct(rs), VStruct(live, vs)))
        || (overflows && e == IntegerOverflow)
  }

  lemma {:induction false} CarriedReadable(ws: seq<Field>, rs: seq<Field>, live: set<nat>, vs: seq<Val>,
                                           overflows: bool, all: bool)
    requires GoodFields(ws) && GoodFields(rs) && CompatFields(ws, rs)
    requires overflows || NoNarrowing(TStruct(ws), TStruct(rs))
    requires all ==> Covers(TStruct(ws), TStruct(rs))
    ensures Readable(ws, rs, live, vs, overflows, all)
  {
    hide DecFields, EncFields, InBudget, Has, CanEnc, GoodFields, CompatFields, NoNarrowing, Projects, Covers,
        ConvertFields,
      FieldsSendable, Filled, Reached;
    if Sendable(TStruct(ws), VStruct(live, vs)) && |EncFields(ws, live, vs)| < TWO_64 {
      BodyEvolves(ws, rs, live, vs);
      if DecFields(rs, EncFields(ws, live, vs), {}, ZeroFields(rs)).Ok? {
        BodyIsConverted(ws, rs, live, vs);
        StructProjects(ws, rs, live, vs, all);
      }
    }
  }

  lemma {:induction false} BodyIsConverted(ws: seq<Field>, rs: seq<Field>, live: set<nat>, vs: seq<Val>)
    requires Sendable(TStruct(ws), VStruct(live, vs)) && GoodFields(rs) && CompatFields(ws, rs)
    requires |EncFields(ws, live, vs)| < TWO_64
    ensures DecFields(rs, EncFields(ws, live, vs), {}, ZeroFields(rs))
            == ConvertFields(ws, rs, live, vs, {}, ZeroFields(rs))
  {
    hide DecFields, EncFields, ConvertFields, Has, CanEnc, GoodTy;
    Parts(ws, live, vs);
    ReadsFields(ws, rs, live, vs, {}, ZeroFields(rs));
  }

  /** Type n is type o with fields added, at any depth. */
  ghost predicate Extends(n: Ty, o: Ty)
    decreases o, 1
  {
    match (n, o)
    case (TInt(a), TInt(b)) => a == b
    case (TSlice(a, _), TSlice(b, _)) => Extends(a, b)
    case (TMap(k, a), TMap(l, b)) => k == l && Extends(a, b)
    case (TOpt(a, e), TOpt(b, f)) => e == f && Extends(a, b)
    case (TStruct(ns), TStruct(os)) => ExtendsFields(ns, os)
    case _ => n == o
  }

  ghost predicate ExtendsFields(ns: seq<Field>, os: seq<Field>)
    decreases os, 2
  {
    forall j :: 0 <= j < |os| ==> Find(ns, os[j].tag).Some? && ExtendsField(ns[Find(ns, os[j].tag).value], os[j])
  }

  ghost predicate ExtendsField(n: Field, o: Field)
    decreases o, 0
  {
    n.idRef == o.idRef && Extends(n.ty, o.ty)
  }

  ghost predicate BothWays(a: Ty, b: Ty) { Compat(a, b) && Compat(b, a) && NoNarrowing(a, b) && NoNarrowing(b, a) }

  lemma {:induction false} ExtensionCompat(n: Ty, o: Ty)
    requires GoodTy(n) && GoodTy(o) && Extends(n, o)
    ensures BothWays(n, o) && Covers(o, n)
    decreases o, 1
  {
    match o
    case TSlice(elem, _) => ExtensionCompat(n.elem, elem);
    case TMap(_, val) => ExtensionCompat(n.val, val);
    case TOpt(target, _) => ExtensionCompat(n.target, target);
    case TStruct(os) => ExtensionCompatFields(n.fields, os);
    case _ =>
  }

  lemma {:induction false} ExtensionCompatFields(ns: seq<Field>, os: seq<Field>)
    requires GoodFields(ns) && GoodFields(os) && ExtendsFields(ns, os)
    ensures BothWays(TStruct(ns), TStruct(os)) && Covers(TStruct(os), TStruct(ns))
    decreases os, 2
  {
    forall j | 0 <= j < |os| ensures
      && Find(os, os[j].tag) == Some(j)
      && var n := ns[Find(ns, os[j].tag).value];
         && CompatField(n, os[j]) && CompatField(os[j], n) && FieldNotNarrowed(n, os[j]) && FieldNotNarrowed(os[j], n)
         && CoversField(os[j], n)
    {
      OnlyOne(os, os[j].tag);
      ExtensionCompatField(ns[Find(ns, os[j].tag).value], os[j]);
    }
    forall i | 0 <= i < |ns| ensures Find(ns, ns[i].tag) == Some(i) {
      OnlyOne(ns, ns[i].tag);
    }
  }

  lemma {:induction false} ExtensionCompatField(n: Field, o: Field)
    requires GoodField(n) && GoodField(o) && ExtendsField(n, o)
    ensures CompatField(n, o) && CompatField(o, n) && FieldNotNarrowed(n, o) && FieldNotNarrowed(o, n)
            && CoversField(o, n)
    decreases o, 0
  {
    ExtensionCompat(n.ty, o.ty);
  }

  /** Adding fields, at any depth, keeps both directions readable: the old reader gets its projection of a new body, the
      new reader all of an old body, with zeros in what was added. Only the slice budget can still refuse. */
  lemma {:induction false} AddingFieldsIsSafe(ns: seq<Field>, os: seq<Field>, live: set<nat>, vs: seq<Val>)
    requires GoodFields(ns) && GoodFields(os) && ExtendsFields(ns, os)
    ensures Readable(ns, os, live, vs, false, false)
    ensures Readable(os, ns, live, vs, false, true)
  {
    hide Readable, GoodFields, ExtendsFields, CompatFields, NoNarrowing, Covers;
    ExtensionCompatFields(ns, os);
    FieldsOfBoth(ns, os);
    CarriedReadable(ns, os, live, vs, false, false);
    CarriedReadable(os, ns, live, vs, false, true);
  }

  lemma {:induction false} FieldsOfBoth(ns: seq<Field>, os: seq<Field>)
    requires BothWays(TStruct(ns), TStruct(os))
    ensures CompatFields(ns, os) && CompatFields(os, ns) && NoNarrowing(TStruct(ns), TStruct(os))
            && NoNarrowing(TStruct(os), TStruct(ns))
  {
    hide CompatFields, NoNarrowing;
  }
}
