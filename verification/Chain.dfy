/** The gate over whole histories of snapshots. */
module Chain {
  import opened Basics
  import opened Schema
  import opened Projection
  import opened Snapshot
  import opened Classifier
  import opened Gate

  /** No text in the source and no operator's flag: whatever breaks, blocks. */
  ghost predicate PassesPlain(prev: Snap, curr: Snap) {
    !Blocks(prev, curr, false) && forall k :: k in curr.structs ==> curr.structs[k].allowBreaking == ""
  }

  lemma {:induction false} PlainPass(prev: Snap, curr: Snap, ch: Change)
    requires PassesPlain(prev, curr) && Reported(prev, curr, ch)
    ensures ch.severity != Breaking
  {
    assert ch.severity == Breaking ==> ch.acknowledged == "" && Blocking(Stamp(false, ch));
  }

  function Tags(d: StructDecl): set<nat> { Index(d.fields).Keys }

  /** The one snapshot never takes back what the other has promised. */
  ghost predicate Grows(prev: Snap, curr: Snap) {
    && prev.roots <= curr.roots
    && forall k :: k in prev.structs ==>
      && k in curr.structs
      && Tags(prev.structs[k]) <= Tags(curr.structs[k])
      && prev.structs[k].reserved <= curr.structs[k].reserved
  }

  /** A tag's declaration in a snapshot. */
  function Decl(s: Snap, k: string, tag: nat): FieldDecl
    requires k in s.structs && tag in Tags(s.structs[k])
  {
    Index(s.structs[k].fields)[tag]
  }

  lemma {:induction false} FieldRow(prev: Snap, curr: Snap, k: string, tag: nat, row: (Severity, Code))
    requires PassesPlain(prev, curr) && k in prev.structs && k in curr.structs
    requires FieldReported(k, prev.structs[k], curr.structs[k], tag, row)
    ensures row.0 != Breaking
  {
    hide FieldReported, PassesPlain;
    PlainPass(prev, curr, Acknowledge(curr.structs[k].allowBreaking, row, OnField(k, tag)));
  }

  /** One step past the gate. A dual write is never stopped, and a type changes only while the tag is off the wire. */
  lemma {:induction false} PlainStep(prev: Snap, curr: Snap)
    requires PassesPlain(prev, curr)
    ensures Grows(prev, curr)
    ensures forall k, tag :: k in prev.structs && tag in Tags(prev.structs[k]) ==>
      var p, c := Decl(prev, k, tag), Decl(curr, k, tag);
      && (LifecycleState(p) == CompatWrite ==> LifecycleState(c) != Deprecated)
      && (p.shape != c.shape ==> ShapeFrozen(p, c))
  {
    hide PassesPlain, Index;
    forall k | k in prev.roots ensures k in curr.roots {
      if k !in curr.roots {
        PlainPass(prev, curr, Change(Breaking, RootRemoved, OnRoot(k), ""));
      }
    }
    forall k | k in prev.structs ensures
      k in curr.structs && prev.structs[k].reserved <= curr.structs[k].reserved
          && Tags(prev.structs[k]) <= Tags(curr.structs[k])
    {
      PlainStruct(prev, curr, k);
    }
    forall k, tag | k in prev.structs && tag in Tags(prev.structs[k]) ensures
      var p, c := Decl(prev, k, tag), Decl(curr, k, tag);
      && (LifecycleState(p) == CompatWrite ==> LifecycleState(c) != Deprecated)
      && (p.shape != c.shape ==> ShapeFrozen(p, c))
    {
      var p, c := Decl(prev, k, tag), Decl(curr, k, tag);
      if p.shape != c.shape && !ShapeFrozen(p, c) {
        assert (Breaking, TypeChanged) in FieldChanges(p, c);
        FieldRow(prev, curr, k, tag, (Breaking, TypeChanged));
      }
      if LifecycleState(p) == CompatWrite && LifecycleState(c) == Deprecated {
        assert (Breaking, CompatWriteRemoved) in FieldChanges(p, c);
        FieldRow(prev, curr, k, tag, (Breaking, CompatWriteRemoved));
      }
    }
  }

  lemma {:induction false} PlainStruct(prev: Snap, curr: Snap, k: string)
    requires PassesPlain(prev, curr) && k in prev.structs
    ensures k in curr.structs && prev.structs[k].reserved <= curr.structs[k].reserved
    ensures Tags(prev.structs[k]) <= Tags(curr.structs[k])
  {
    hide PassesPlain, Index;
    if k !in curr.structs {
      PlainPass(prev, curr, Change(Breaking, StructRemoved, OnStruct(k), ""));
    } else {
      var p, c := prev.structs[k], curr.structs[k];
      forall t | t in p.reserved ensures t in c.reserved {
        if t !in c.reserved {
          PlainPass(prev, curr, Acknowledge(c.allowBreaking, (Breaking, ReservedRemoved), OnReserved(k, t)));
        }
      }
      forall t | t in Tags(p) ensures t in Tags(c) {
        if t !in Tags(c) {
          FieldRow(prev, curr, k, t, RemovedChange(Index(p.fields)[t]));
        }
      }
    }
  }

  /** Stopping a dual write takes the operator: no text in the source acknowledges it, and removing the field outright
      is not acknowledged by the flag either. */
  lemma {:induction false} DualWriteGuard(prev: Snap, curr: Snap, k: string, tag: nat)
    requires k in prev.structs && k in curr.structs && tag in Tags(prev.structs[k])
    requires LifecycleState(Decl(prev, k, tag)) == CompatWrite
    ensures tag !in Tags(curr.structs[k]) ==> Blocks(prev, curr, false) && Blocks(prev, curr, true)
    ensures tag in Tags(curr.structs[k]) && LifecycleState(Decl(curr, k, tag)) == Deprecated ==>
            Blocks(prev, curr, false)
  {
    hide Index;
    var p := Decl(prev, k, tag);
    var text := curr.structs[k].allowBreaking;
    if tag !in Tags(curr.structs[k]) {
      var ch := Acknowledge(text, RemovedChange(p), OnField(k, tag));
      assert Reported(prev, curr, ch) && Blocking(Stamp(false, ch)) && Blocking(Stamp(true, ch));
    } else if LifecycleState(Decl(curr, k, tag)) == Deprecated {
      var row := (Breaking, CompatWriteRemoved);
      assert row in FieldChanges(p, Decl(curr, k, tag));
      var ch := Acknowledge(text, row, OnField(k, tag));
      assert Reported(prev, curr, ch) && Blocking(Stamp(false, ch));
    }
  }

  ghost predicate History(ss: seq<Snap>) { forall i :: 0 <= i && i + 1 < |ss| ==> PassesPlain(ss[i], ss[i + 1]) }

  /** Over a whole history nothing promised is taken back. */
  lemma {:induction false} HistoryGrows(ss: seq<Snap>, i: nat, j: nat)
    requires History(ss) && i <= j < |ss|
    ensures Grows(ss[i], ss[j])
    decreases j
  {
    hide PassesPlain, Tags;
    if i < j {
      HistoryGrows(ss, i, j - 1);
      assert PassesPlain(ss[j - 1], ss[j]);
      PlainStep(ss[j - 1], ss[j]);
    }
  }

  ghost predicate FrozenStep(ss: seq<Snap>, k: string, tag: nat, m: nat)
    requires m + 1 < |ss|
  {
    && k in ss[m].structs && tag in Tags(ss[m].structs[k]) && k in ss[m + 1].structs
      && tag in Tags(ss[m + 1].structs[k])
    && ShapeFrozen(Decl(ss[m], k, tag), Decl(ss[m + 1], k, tag))
  }

  /** Over a whole history a tag's type differs only across a step where the tag is off the wire on both sides. */
  lemma {:induction false} TypesChangeOffWire(ss: seq<Snap>, k: string, tag: nat, i: nat, j: nat)
    requires History(ss) && i <= j < |ss| && k in ss[i].structs && tag in Tags(ss[i].structs[k])
    ensures k in ss[j].structs && tag in Tags(ss[j].structs[k])
    ensures Decl(ss[i], k, tag).shape == Decl(ss[j], k, tag).shape ||
            exists m :: i <= m < j && FrozenStep(ss, k, tag, m)
    decreases j
  {
    hide PassesPlain, Tags, ShapeFrozen;
    if i < j {
      TypesChangeOffWire(ss, k, tag, i, j - 1);
      assert PassesPlain(ss[j - 1], ss[j]);
      PlainStep(ss[j - 1], ss[j]);
      if Decl(ss[j - 1], k, tag).shape != Decl(ss[j], k, tag).shape {
        assert FrozenStep(ss, k, tag, j - 1);
      }
    }
  }

  /** A tag's declaration, if it has one. */
  function At(s: Snap, k: string, tag: nat): (f: Option<FieldDecl>)
    ensures f.Some? ==> f.value.tag == tag
  {
    if k !in s.structs then None
    else match FindDecl(s.structs[k].fields, tag)
      case None => None
      case Some(i) => Some(s.structs[k].fields[i])
  }

  predicate Live(f: FieldDecl) { LifecycleState(f) != Deprecated }

  predicate LiveAt(s: Snap, k: string, tag: nat) { At(s, k, tag).Some? && Live(At(s, k, tag).value) }

  /** Keeps, tag by tag. */
  ghost predicate KeepsTags(w: Snap, r: Snap, wider: bool) {
    forall k, tag :: LiveAt(w, k, tag) && At(r, k, tag).Some? ==>
        SameKind(At(w, k, tag).value, At(r, k, tag).value, wider)
  }

  lemma {:induction false} Unique(fs: seq<FieldDecl>, x: nat)
    requires DistinctDecls(fs) && x < |fs|
    ensures FindDecl(fs, fs[x].tag) == Some(x)
  {
  }

  lemma {:induction false} KeepsByTag(w: Snap, r: Snap, wider: bool)
    requires GoodSnap(w.structs)
    ensures Keeps(w.structs, r.structs, wider) <==> KeepsTags(w, r, wider)
  {
    hide SameKind, LifecycleState, FindDecl, GoodDecl;
    if KeepsTags(w, r, wider) {
      forall k, i | k in w.structs && k in r.structs && 0 <= i < |w.structs[k].fields|
        && LifecycleState(w.structs[k].fields[i]) != Deprecated
        && FindDecl(r.structs[k].fields, w.structs[k].fields[i].tag).Some?
        ensures var f := w.structs[k].fields[i];
                SameKind(f, r.structs[k].fields[FindDecl(r.structs[k].fields, f.tag).value], wider)
      {
        var tag := w.structs[k].fields[i].tag;
        Unique(w.structs[k].fields, i);
        assert LiveAt(w, k, tag) && At(r, k, tag).Some?;
      }
    }
  }

  /** Every live tag of w is declared by r. */
  lemma {:induction false} RetainsByTag(w: Snap, r: Snap)
    requires GoodSnap(w.structs) && (forall k :: k in w.structs ==> k in r.structs)
    requires forall k, tag :: LiveAt(w, k, tag) ==> At(r, k, tag).Some?
    ensures Retains(w.structs, r.structs)
  {
    hide LifecycleState, FindDecl, GoodDecl;
    forall k, i | k in w.structs && 0 <= i < |w.structs[k].fields|
        && LifecycleState(w.structs[k].fields[i]) != Deprecated
      ensures FindDecl(r.structs[k].fields, w.structs[k].fields[i].tag).Some?
    {
      Unique(w.structs[k].fields, i);
      assert LiveAt(w, k, w.structs[k].fields[i].tag);
    }
  }

  lemma {:induction false} IndexAt(s: Snap, k: string, tag: nat)
    requires GoodSnap(s.structs) && k in s.structs
    ensures At(s, k, tag).Some? <==> tag in Index(s.structs[k].fields)
    ensures At(s, k, tag).Some? ==>
            GoodDecl(At(s, k, tag).value) && Index(s.structs[k].fields)[tag] == At(s, k, tag).value
  {
    hide GoodDecl, Index;
    var fs := s.structs[k].fields;
    match FindDecl(fs, tag)
    case None => NotIndexed(fs, tag);
    case Some(i) => IndexDecl(s.structs, k, i);
  }

  /** The two changes the gate lets pass to a live tag that alter what its bytes mean: a codec where there was none,
      which is only a warning, and a narrowing the width table cannot see. */
  predicate Swerves(prev: Snap, curr: Snap, k: string, tag: nat) {
    && LiveAt(prev, k, tag) && At(curr, k, tag).Some?
    && var p, c := At(prev, k, tag).value, At(curr, k, tag).value;
       GetsCodec(p, c) || NarrowsUnseen(p, c)
  }

  /** One step past the gate, for one tag. */
  lemma {:induction false} PlainTag(prev: Snap, curr: Snap, k: string, tag: nat)
    requires PassesPlain(prev, curr) && GoodSnap(prev.structs) && GoodSnap(curr.structs) && At(prev, k, tag).Some?
    ensures At(curr, k, tag).Some?
    ensures LiveAt(prev, k, tag) ==>
              (SameKind(At(prev, k, tag).value, At(curr, k, tag).value, true) <==> !Swerves(prev, curr, k, tag))
  {
    hide PassesPlain, SameKind, GoodSnap, Index, GetsCodec, NarrowsUnseen, FieldChanges;
    PlainStruct(prev, curr, k);
    IndexAt(prev, k, tag);
    IndexAt(curr, k, tag);
    if LiveAt(prev, k, tag) {
      var p, c := At(prev, k, tag).value, At(curr, k, tag).value;
      forall row | row in FieldChanges(p, c) ensures row.0 != Breaking {
        FieldRow(prev, curr, k, tag, row);
      }
      PlainField(p, c);
    }
  }

  /** One step past the gate keeps every body readable exactly when no live tag swerves. */
  lemma {:induction false} PlainExactly(prev: Snap, curr: Snap)
    requires PassesPlain(prev, curr) && GoodSnap(prev.structs) && GoodSnap(curr.structs)
    ensures Retains(prev.structs, curr.structs)
    ensures Keeps(prev.structs, curr.structs, true) <==> forall k, tag :: !Swerves(prev, curr, k, tag)
  {
    hide PassesPlain, SameKind, GoodSnap, LiveAt, At, Keeps;
    forall k | k in prev.structs ensures k in curr.structs {
      PlainStruct(prev, curr, k);
    }
    forall k, tag | LiveAt(prev, k, tag)
      ensures At(prev, k, tag).Some? && At(curr, k, tag).Some?
      ensures SameKind(At(prev, k, tag).value, At(curr, k, tag).value, true) <==> !Swerves(prev, curr, k, tag)
    {
      LiveThere(prev, k, tag);
      PlainTag(prev, curr, k, tag);
    }
    RetainsByTag(prev, curr);
    KeepsByTag(prev, curr, true);
  }

  lemma {:induction false} LiveThere(s: Snap, k: string, tag: nat)
    requires LiveAt(s, k, tag)
    ensures At(s, k, tag).Some? && k in s.structs
  {
  }

  ghost predicate GoodHistory(ss: seq<Snap>) { History(ss) && forall i :: 0 <= i < |ss| ==> GoodSnap(ss[i].structs) }

  /** The tag stayed on the wire from i up to j and swerved at no step. */
  ghost predicate Steady(ss: seq<Snap>, k: string, tag: nat, i: nat, j: nat)
    requires j < |ss|
  {
    forall m :: i <= m < j ==> LiveAt(ss[m], k, tag) && !Swerves(ss[m], ss[m + 1], k, tag)
  }

  lemma {:induction false} HistoryTag(ss: seq<Snap>, i: nat, j: nat, k: string, tag: nat)
    requires GoodHistory(ss) && i <= j < |ss| && At(ss[i], k, tag).Some?
    ensures At(ss[j], k, tag).Some?
    ensures Steady(ss, k, tag, i, j) ==> SameKind(At(ss[i], k, tag).value, At(ss[j], k, tag).value, true)
    decreases j
  {
    hide PassesPlain, SameKind, GoodSnap, At, LiveAt, Swerves;
    if i == j {
      SameKindSelf(At(ss[i], k, tag).value);
    } else {
      HistoryTag(ss, i, j - 1, k, tag);
      assert PassesPlain(ss[j - 1], ss[j]);
      PlainTag(ss[j - 1], ss[j], k, tag);
      if Steady(ss, k, tag, i, j) {
        assert LiveAt(ss[j - 1], k, tag) && Steady(ss, k, tag, i, j - 1);
        SameKindChains(At(ss[i], k, tag).value, At(ss[j - 1], k, tag).value, At(ss[j], k, tag).value, true);
      }
    }
  }

  lemma {:induction false} SameKindSelf(a: FieldDecl)
    ensures SameKind(a, a, true)
  {
  }

  lemma {:induction false} SameKindChains(a: FieldDecl, b: FieldDecl, c: FieldDecl, wider: bool)
    requires SameKind(a, b, wider) && SameKind(b, c, wider)
    ensures SameKind(a, c, wider)
  {
  }

  /** A tag that was live at i and was plainly deprecated, got a codec or narrowed out of sight on the way is of the
      same kind at j. */
  ghost predicate SwervedAlike(ss: seq<Snap>, i: nat, j: nat)
    requires i <= j < |ss|
  {
    forall k, tag :: LiveAt(ss[i], k, tag) && At(ss[j], k, tag).Some? && !Steady(ss, k, tag, i, j) ==>
      SameKind(At(ss[i], k, tag).value, At(ss[j], k, tag).value, true)
  }

  /** Exactly when a whole history past the gate keeps old bodies readable. */
  lemma {:induction false} HistoryExactly(ss: seq<Snap>, i: nat, j: nat)
    requires GoodHistory(ss) && i <= j < |ss|
    ensures Retains(ss[i].structs, ss[j].structs)
    ensures Keeps(ss[i].structs, ss[j].structs, true) <==> SwervedAlike(ss, i, j)
  {
    hide PassesPlain, SameKind, GoodSnap, At, LiveAt, Steady, Keeps, Grows;
    forall k, tag | LiveAt(ss[i], k, tag)
      ensures At(ss[i], k, tag).Some? && At(ss[j], k, tag).Some?
      ensures Steady(ss, k, tag, i, j) ==> SameKind(At(ss[i], k, tag).value, At(ss[j], k, tag).value, true)
    {
      LiveThere(ss[i], k, tag);
      HistoryTag(ss, i, j, k, tag);
    }
    HistoryGrows(ss, i, j);
    GrowsStructs(ss[i], ss[j]);
    RetainsByTag(ss[i], ss[j]);
    KeepsByTag(ss[i], ss[j], true);
  }

  lemma {:induction false} GrowsStructs(a: Snap, b: Snap)
    requires Grows(a, b)
    ensures forall k :: k in a.structs ==> k in b.structs
  {
  }

  /** Under that condition a body of any age decodes with every written value kept. */
  lemma {:induction false} HistoryReads(ss: seq<Snap>, i: nat, j: nat, a: Build, b: Build, k: string, n: nat,
                                        live: set<nat>, vs: seq<Val>)
    requires GoodHistory(ss) && i <= j < |ss| && k in ss[i].structs && SwervedAlike(ss, i, j)
    ensures k in ss[j].structs
    ensures Readable(FieldsOf(ss[i], a, k, n), FieldsOf(ss[j], b, k, n), live, vs, false, true)
  {
    hide PassesPlain, GoodSnap, SwervedAlike, Keeps, Retains, Readable, Grows;
    HistoryExactly(ss, i, j);
    HistoryGrows(ss, i, j);
    GrowsStructs(ss[i], ss[j]);
    PairReads(ss[i], ss[j], true, true, a, b, k, n, live, vs);
  }

  ghost predicate SafeHistory(ss: seq<Snap>) {
    (forall i :: 0 <= i < |ss| ==> GoodSnap(ss[i].structs))
        && forall i :: 0 <= i && i + 1 < |ss| ==> OnlySafe(ss[i], ss[i + 1])
  }

  /** An integer narrowed out of the table's sight at some step. */
  ghost predicate UnseenBetween(ss: seq<Snap>, i: nat, j: nat)
    requires j < |ss|
  {
    exists m :: i <= m < j && NarrowedUnseen(ss[m], ss[m + 1])
  }

  lemma {:induction false} SafeStepTag(prev: Snap, curr: Snap, k: string, tag: nat)
    requires OnlySafe(prev, curr) && GoodSnap(prev.structs) && GoodSnap(curr.structs) && LiveAt(prev, k, tag)
    ensures LiveAt(curr, k, tag)
    ensures SameKind(At(prev, k, tag).value, At(curr, k, tag).value, false)
    ensures NarrowedUnseen(prev, curr) || SameKind(At(prev, k, tag).value, At(curr, k, tag).value, true)
  {
    hide OnlySafe, GoodSnap, SameKind, Index, NarrowsUnseen;
    var i := FindDecl(prev.structs[k].fields, tag).value;
    SafeLive(prev, curr, k, i);
    SafePair(prev, curr, k, i, FindDecl(curr.structs[k].fields, tag).value);
    assert NarrowsUnseen(At(prev, k, tag).value, At(curr, k, tag).value) ==> NarrowedAt(prev, curr, k, i);
  }

  /** Through steps with nothing above safe a live tag stays live and keeps its kind of value. */
  lemma {:induction false} SafeHistoryTag(ss: seq<Snap>, i: nat, j: nat, k: string, tag: nat)
    requires SafeHistory(ss) && i <= j < |ss| && LiveAt(ss[i], k, tag)
    ensures LiveAt(ss[j], k, tag)
    ensures SameKind(At(ss[i], k, tag).value, At(ss[j], k, tag).value, false)
    ensures UnseenBetween(ss, i, j) || SameKind(At(ss[i], k, tag).value, At(ss[j], k, tag).value, true)
    decreases j
  {
    hide OnlySafe, GoodSnap, SameKind, At, NarrowedUnseen;
    if i == j {
      SameKindSelf(At(ss[i], k, tag).value);
      SameKindNarrower(At(ss[i], k, tag).value, At(ss[i], k, tag).value);
    } else {
      assert OnlySafe(ss[j - 1], ss[j]);
      SafeHistoryTag(ss, i, j - 1, k, tag);
      SafeStepTag(ss[j - 1], ss[j], k, tag);
      var a, b, c := At(ss[i], k, tag).value, At(ss[j - 1], k, tag).value, At(ss[j], k, tag).value;
      SameKindChains(a, b, c, false);
      if !UnseenBetween(ss, i, j) {
        assert !UnseenBetween(ss, i, j - 1) && !NarrowedUnseen(ss[j - 1], ss[j]);
        SameKindChains(a, b, c, true);
      }
    }
  }

  lemma {:induction false} SameKindNarrower(a: FieldDecl, b: FieldDecl)
    requires SameKind(a, b, true)
    ensures SameKind(a, b, false)
  {
  }

  lemma {:induction false} SafeHistoryStructs(ss: seq<Snap>, i: nat, j: nat, k: string)
    requires SafeHistory(ss) && i <= j < |ss| && k in ss[i].structs
    ensures k in ss[j].structs
    decreases j
  {
    hide OnlySafe, GoodSnap;
    if i < j {
      SafeHistoryStructs(ss, i, j - 1, k);
      assert OnlySafe(ss[j - 1], ss[j]);
      SafeKeepsStructs(ss[j - 1], ss[j], k);
    }
  }

  /** So agreement and retention hold over the whole history. */
  lemma {:induction false} SafeHistoryKeeps(ss: seq<Snap>, i: nat, j: nat)
    requires SafeHistory(ss) && i <= j < |ss|
    ensures Retains(ss[i].structs, ss[j].structs) && Keeps(ss[i].structs, ss[j].structs, !UnseenBetween(ss, i, j))
  {
    hide OnlySafe, GoodSnap, SameKind, At, UnseenBetween, Live;
    forall k | k in ss[i].structs ensures k in ss[j].structs {
      SafeHistoryStructs(ss, i, j, k);
    }
    forall k, tag | LiveAt(ss[i], k, tag)
      ensures At(ss[j], k, tag).Some?
      ensures SameKind(At(ss[i], k, tag).value, At(ss[j], k, tag).value, !UnseenBetween(ss, i, j))
    {
      SafeHistoryTag(ss, i, j, k, tag);
    }
    RetainsByTag(ss[i], ss[j]);
    KeepsByTag(ss[i], ss[j], !UnseenBetween(ss, i, j));
  }

  /** Old blobs stay readable, with every written value kept, through any number of steps with nothing above safe. */
  lemma {:induction false} SafeHistoryReads(ss: seq<Snap>, i: nat, j: nat, a: Build, b: Build, k: string, n: nat,
                                            live: set<nat>, vs: seq<Val>)
    requires SafeHistory(ss) && i <= j < |ss| && k in ss[i].structs
    ensures k in ss[j].structs
    ensures Readable(FieldsOf(ss[i], a, k, n), FieldsOf(ss[j], b, k, n), live, vs, UnseenBetween(ss, i, j), true)
  {
    hide OnlySafe, GoodSnap, Readable, Keeps, Retains, UnseenBetween;
    SafeHistoryStructs(ss, i, j, k);
    SafeHistoryKeeps(ss, i, j);
    PairReads(ss[i], ss[j], !UnseenBetween(ss, i, j), true, a, b, k, n, live, vs);
  }

  /** A tag that was plainly deprecated in the old snapshot and is written again in the new one carries the same kind of
      value. */
  ghost predicate RevivedAlike(old_: Snap, new_: Snap) {
    forall k, tag :: LiveAt(new_, k, tag) && At(old_, k, tag).Some? && !LiveAt(old_, k, tag) ==>
      SameKind(At(new_, k, tag).value, At(old_, k, tag).value, false)
  }

  /** Rolling back over any number of steps with nothing above safe: the old schema agrees with every tag the new one
      may write exactly when revived tags are alike. */
  lemma {:induction false} RollbackExactly(ss: seq<Snap>, i: nat, j: nat)
    requires SafeHistory(ss) && i <= j < |ss|
    ensures Keeps(ss[j].structs, ss[i].structs, false) <==> RevivedAlike(ss[i], ss[j])
  {
    hide SameKind, OnlySafe, GoodSnap, At, Live, Keeps;
    forall k, tag | LiveAt(ss[i], k, tag)
      ensures At(ss[i], k, tag).Some? && At(ss[j], k, tag).Some?
      ensures SameKind(At(ss[j], k, tag).value, At(ss[i], k, tag).value, false)
    {
      SafeHistoryTag(ss, i, j, k, tag);
      SameKindBack(At(ss[i], k, tag).value, At(ss[j], k, tag).value);
    }
    KeepsByTag(ss[j], ss[i], false);
  }

  lemma {:induction false} SameKindBack(a: FieldDecl, b: FieldDecl)
    requires SameKind(a, b, false)
    ensures SameKind(b, a, false)
  {
  }

  /** So a body written by the newest code is readable after a rollback over the whole history, up to overflow and
      budget. */
  lemma {:induction false} RollbackReads(ss: seq<Snap>, i: nat, j: nat, a: Build, b: Build, k: string, n: nat,
                                         live: set<nat>, vs: seq<Val>)
    requires SafeHistory(ss) && i <= j < |ss| && k in ss[i].structs && k in ss[j].structs && RevivedAlike(ss[i], ss[j])
    ensures Readable(FieldsOf(ss[j], b, k, n), FieldsOf(ss[i], a, k, n), live, vs, true, false)
  {
    hide OnlySafe, GoodSnap, Readable, Keeps, RevivedAlike;
    RollbackExactly(ss, i, j);
    PairReads(ss[j], ss[i], false, false, b, a, k, n, live, vs);
  }
}
