/** A field's Type string: how a shape prints, that the string tells shapes apart, and what can be read back off it. */
module ShapeText {
  import opened Basics
  import opened Snapshot
  import opened Classifier
  import T = Shapes

  function PrimName(p: Prim): string {
    match p
    case PBool => "bool"
    case PString => "string"
    case PFloat(bytes) => if bytes == 4 then "float32" else "float64"
    case PInt(bits, signed, platform, alias) =>
      if platform then (if signed then "int" else if alias then "uintptr" else "uint")
      else if alias then (if signed then "rune" else "byte")
      else if signed then (if bits == 8 then "int8" else if bits == 16 then "int16" else if bits == 32 then "int32"
          else "int64")
      else if bits == 8 then "uint8" else if bits == 16 then "uint16" else if bits == 32 then "uint32" else "uint64"
  }

  /** shapeOf, and the suffix of an id_ref. */
  function Text(s: Shape): string {
    match s
    case Basic(p) => PrimName(p)
    case Named(n, u) => n + "(" + Text(u) + ")"
    case StructRef(k) => k
    case SliceOf(e) => "[]" + Text(e)
    case MapOf(k, v) => "map[" + Text(k) + "]" + Text(v)
    case PtrTo(e) => "*" + Text(e)
    case IdOf(base, id) => Text(base) + "/id:" + Text(id)
  }

  /** A declared type's name: qualified, without parentheses or colons. */
  ghost predicate GoodName(n: string) { T.GoodName(n) && '.' in n && '(' !in n && ')' !in n && ':' !in n }

  ghost predicate GoodNames(s: Shape) {
    match s
    case Basic(_) => true
    case Named(n, u) => GoodName(n) && GoodNames(u)
    case StructRef(k) => GoodName(k)
    case SliceOf(e) => GoodNames(e)
    case MapOf(k, v) => GoodNames(k) && GoodNames(v)
    case PtrTo(e) => GoodNames(e)
    case IdOf(base, id) => GoodNames(base) && GoodNames(id)
  }

  /** The kind names are words: small letters and digits. */
  predicate Word(t: string) { t != "" && forall i :: 0 <= i < |t| ==> 'a' <= t[i] <= 'z' || '0' <= t[i] <= '9' }

  lemma {:induction false} PrimWord(p: Prim)
    ensures Word(PrimName(p)) && !("map[" <= PrimName(p))
  {
    assert "map["[3] == '[';
  }

  lemma {:induction false} PrimsDiffer(p: Prim, q: Prim)
    requires GoodPrim(p) && GoodPrim(q) && PrimName(p) == PrimName(q)
    ensures p == q
  {
    assert |PrimName(p)| == |PrimName(q)| && PrimName(p)[0] == PrimName(q)[0];
    assert PrimName(p)[|PrimName(p)| - 1] == PrimName(q)[|PrimName(q)| - 1];
    assert |PrimName(p)| >= 5 ==> PrimName(p)[|PrimName(p)| - 2] == PrimName(q)[|PrimName(q)| - 2];
  }

  /** The kind names are Go's: an integer's says its sign and, where the kind fixes them, its bits. */
  lemma {:induction false} NamesAreGo(p: Prim)
    requires GoodPrim(p)
    ensures PrimName(p) in {"bool", "string", "float32", "float64", "byte", "rune", "uintptr", "int", "int8", "int16",
                            "int32", "int64", "uint", "uint8", "uint16", "uint32", "uint64"}
    ensures p.PBool? <==> PrimName(p) == "bool"
    ensures p.PString? <==> PrimName(p) == "string"
    ensures p.PInt? && p.signed <==> PrimName(p)[0] == 'i' || PrimName(p) == "rune"
    ensures p.PInt? && !p.signed <==> PrimName(p)[0] == 'u' || PrimName(p) == "byte"
  {
  }

  /** What a string shows of the shape it was printed from. */
  datatype Head = Id | Ptr | Slice | Map | Renamed | Struct | Kind

  function HeadOf(s: Shape): Head {
    match s
    case IdOf(_, _) => Id
    case PtrTo(_) => Ptr
    case SliceOf(_) => Slice
    case MapOf(_, _) => Map
    case Named(_, _) => Head.Renamed
    case StructRef(_) => Struct
    case Basic(_) => Kind
  }

  function HeadText(t: string): Head {
    if ':' in t then Id
    else if t == "" then Kind
    else if t[0] == '*' then Ptr
    else if t[0] == '[' then Slice
    else if "map[" <= t then Map
    else if '(' in t then Head.Renamed
    else if '.' in t then Struct
    else Kind
  }

  lemma {:induction false} NoColon(s: Shape)
    requires GoodShape(s) && GoodNames(s) && !s.IdOf?
    ensures ':' !in Text(s)
  {
    match s
    case Basic(p) => PrimWord(p);
    case Named(_, u) => NoColon(u);
    case StructRef(_) =>
    case SliceOf(e) => NoColon(e);
    case MapOf(k, v) =>
      KeyPlain(k);
      NoColon(k);
      NoColon(v);
    case PtrTo(e) => NoColon(e);
  }

  lemma {:induction false} KeyPlain(k: Shape)
    requires GoodShape(k) && Strip(k).Basic?
    ensures !k.IdOf?
  {
  }

  lemma {:induction false} HeadIs(s: Shape)
    requires GoodShape(s) && GoodNames(s)
    ensures HeadText(Text(s)) == HeadOf(s)
  {
    if s.IdOf? {
      assert Text(s)[|Text(s.base)| + 3] == ':';
    } else {
      NoColon(s);
      match s
      case Basic(p) => PrimWord(p);
      case Named(n, u) => NamedHead(n, Text(u));
      case MapOf(k, v) => assert Text(s)[..4] == "map[";
      case PtrTo(e) => assert Text(s)[0] == '*';
      case SliceOf(e) => assert Text(s)[0] == '[';
      case StructRef(k) =>
    }
  }

  lemma {:induction false} NamedHead(n: string, u: string)
    requires GoodName(n)
    ensures var t := n + "(" + u + ")"; ':' !in t ==> HeadText(t) == Head.Renamed
  {
    var t := n + "(" + u + ")";
    assert t[|n|] == '(' && t[0] == n[0];
    NotMap(n, "(" + u + ")");
    assert t == n + ("(" + u + ")");
  }

  lemma {:induction false} NotMap(n: string, rest: string)
    requires GoodName(n) && rest != "" && rest[0] == '('
    ensures !("map[" <= n + rest)
  {
    assert "map["[3] == '[' && forall j :: 0 <= j < 4 ==> "map["[j] != '(';
    if |n| < 4 {
      assert (n + rest)[|n|] == '(';
    } else {
      assert (n + rest)[..4] == n[..4];
    }
  }

  lemma {:induction false} TextBalanced(s: Shape)
    requires GoodShape(s) && GoodNames(s) && !s.IdOf?
    ensures T.Balanced(Text(s))
  {
    hide T.Balanced;
    match s
    case Basic(p) =>
      PrimWord(p);
      T.Plain(PrimName(p));
    case Named(n, u) =>
      TextBalanced(u);
      T.Plain("(");
      T.Plain(")");
      T.BalancedAppend(n, "(");
      T.BalancedAppend(n + "(", Text(u));
      T.BalancedAppend(n + "(" + Text(u), ")");
    case StructRef(_) =>
    case SliceOf(e) =>
      TextBalanced(e);
      T.Plain("");
      T.Bracketed("");
      assert "[" + "" + "]" == "[]";
      T.BalancedAppend("[]", Text(e));
    case MapOf(k, v) =>
      KeyPlain(k);
      TextBalanced(k);
      TextBalanced(v);
      T.MapBalanced(Text(k), Text(v));
    case PtrTo(e) =>
      TextBalanced(e);
      T.Plain("*");
      T.BalancedAppend("*", Text(e));
  }

  /** Two prints of a map break at the same bracket. */
  lemma {:induction false} MapSplits(k: string, v: string, l: string, w: string)
    requires T.Balanced(k) && T.Balanced(l) && "map[" + k + "]" + v == "map[" + l + "]" + w
    ensures k == l && v == w
  {
    var s, i, j := "map[" + k + "]" + v, 4 + |k|, 4 + |l|;
    assert s[4..i] == k && s[i] == ']' && s[i + 1..] == v;
    T.MatchBalanced(s, 4, i, 1);
    assert s == "map[" + l + "]" + w;
    assert s[4..j] == l && s[j] == ']' && s[j + 1..] == w;
    T.MatchBalanced(s, 4, j, 1);
  }

  /** A text breaks at the first c in one way only. */
  lemma {:induction false} SplitsAt(a: string, x: string, b: string, y: string, c: char)
    requires c !in a && c !in b && a + [c] + x == b + [c] + y
    ensures a == b && x == y
  {
    var s := a + [c] + x;
    assert s[|a|] == c && s[|b|] == c;
    assert (forall i :: 0 <= i < |a| ==> s[i] != c) && forall i :: 0 <= i < |b| ==> s[i] != c;
    assert s[..|a|] == a && s[..|b|] == b && s[|a| + 1..] == x && s[|b| + 1..] == y;
  }

  /** Two validated shapes print alike only if they are the same: comparing Type strings is comparing types. */
  lemma {:induction false} TextInjective(a: Shape, b: Shape)
    requires GoodShape(a) && GoodShape(b) && GoodNames(a) && GoodNames(b) && Text(a) == Text(b)
    ensures a == b
    decreases a
  {
    HeadIs(a);
    HeadIs(b);
    match a
    case Basic(p) => PrimsDiffer(p, b.prim);
    case StructRef(_) =>
    case Named(n, u) => NamedInjective(a, b);
    case SliceOf(e) =>
      assert Text(a)[2..] == Text(e) && Text(b)[2..] == Text(b.elem);
      TextInjective(e, b.elem);
    case MapOf(k, v) =>
      KeyPlain(k);
      KeyPlain(b.key_);
      TextBalanced(k);
      TextBalanced(b.key_);
      MapSplits(Text(k), Text(v), Text(b.key_), Text(b.val));
      TextInjective(k, b.key_);
      TextInjective(v, b.val);
    case PtrTo(e) =>
      assert Text(a)[1..] == Text(e) && Text(b)[1..] == Text(b.pointee);
      TextInjective(e, b.pointee);
    case IdOf(base, id) => IdInjective(a, b);
  }

  lemma {:induction false} NamedInjective(a: Shape, b: Shape)
    requires a.Named? && b.Named? && GoodShape(a) && GoodShape(b) && GoodNames(a) && GoodNames(b) && Text(a) == Text(b)
    ensures a == b
    decreases a, 0
  {
    var x, y := Text(a.under) + ")", Text(b.under) + ")";
    assert Text(a) == a.name + ['('] + x && Text(b) == b.name + ['('] + y;
    SplitsAt(a.name, x, b.name, y, '(');
    assert x[..|x| - 1] == Text(a.under) && y[..|y| - 1] == Text(b.under);
    UnderGood(a);
    UnderGood(b);
    TextInjective(a.under, b.under);
  }

  lemma {:induction false} UnderGood(a: Shape)
    requires a.Named? && GoodShape(a)
    ensures GoodShape(a.under) && !a.under.IdOf? && '(' !in Text(a.under) && ')' !in Text(a.under)
  {
    if a.under.Basic? {
      PrimWord(a.under.prim);
    } else {
      PrimWord(a.under.elem.prim);
    }
  }

  lemma {:induction false} IdInjective(a: Shape, b: Shape)
    requires a.IdOf? && b.IdOf? && GoodShape(a) && GoodShape(b) && GoodNames(a) && GoodNames(b) && Text(a) == Text(b)
    ensures a == b
    decreases a, 0
  {
    IdTail(a);
    IdTail(b);
    var x, y := Text(a.base) + "/id", Text(b.base) + "/id";
    assert Text(a) == x + [':'] + Text(a.id) && Text(b) == y + [':'] + Text(b.id);
    SplitsAt(x, Text(a.id), y, Text(b.id), ':');
    assert x[..|x| - 3] == Text(a.base) && y[..|y| - 3] == Text(b.base);
    TextInjective(a.base, b.base);
    TextInjective(a.id, b.id);
  }

  lemma {:induction false} IdTail(a: Shape)
    requires a.IdOf? && GoodShape(a) && GoodNames(a)
    ensures !a.id.IdOf? && ':' !in Text(a.base) + "/id" && ':' !in Text(a.id)
  {
    KeyPlain(a.id);
    NoColon(a.base);
    NoColon(a.id);
  }

  predicate Occurs(t: string, pat: string, i: nat) { i + |pat| <= |t| && t[i..i + |pat|] == pat }

  /** The last place from which t continues with pat. */
  function LastIndex(t: string, pat: string): (r: Option<nat>)
    ensures r.Some? ==> Occurs(t, pat, r.value) && forall i: nat :: Occurs(t, pat, i) ==> i <= r.value
    ensures r.None? ==> forall i: nat :: !Occurs(t, pat, i)
  {
    LastFrom(t, pat, |t|)
  }

  function LastFrom(t: string, pat: string, n: nat): (r: Option<nat>)
    ensures r.Some? ==> Occurs(t, pat, r.value) && forall i: nat :: i <= n && Occurs(t, pat, i) ==> i <= r.value
    ensures r.None? ==> forall i: nat :: i <= n ==> !Occurs(t, pat, i)
  {
    if Occurs(t, pat, n) then Some(n) else if n == 0 then None else LastFrom(t, pat, n - 1)
  }

  lemma {:induction false} CharAt(t: string, pat: string, i: nat, j: nat)
    requires j < |pat|
    ensures Occurs(t, pat, i) ==> i + j < |t| && t[i + j] == pat[j]
  {
    assert i + |pat| <= |t| ==> t[i..i + |pat|][j] == t[i + j];
  }

  /** The widths of the listed kind names. */
  function Listed(t: string): Option<nat> {
    if t == "int" || t == "int32" || t == "uint" || t == "uintptr" || t == "uint32" then Some(32)
    else if t == "int8" || t == "uint8" then Some(8)
    else if t == "int16" || t == "uint16" then Some(16)
    else if t == "int64" || t == "uint64" then Some(64)
    else None
  }

  /** defaultIntWidthFromTypeString. */
  function TextWidth(t: string): Option<nat>
    decreases |t|
  {
    match LastIndex(t, "/id:")
    case Some(i) => TextWidth(t[i + 4..])
    case None =>
      if Listed(t).Some? then Listed(t)
      else match LastIndex(t, "(")
        case None => None
        case Some(i) => if t[|t| - 1] == ')' then TextWidth(t[i + 1..|t| - 1]) else None
  }

  lemma {:induction false} ListedWord(t: string)
    ensures Listed(t).Some? ==> Word(t)
  {
  }

  lemma {:induction false} PrimListed(p: Prim)
    requires GoodPrim(p)
    ensures Listed(PrimName(p)) == PrimWidth(p)
  {
  }

  lemma {:induction false} Absent(t: string, pat: string, c: char)
    requires c in pat && c !in t
    ensures LastIndex(t, pat) == None
  {
    hide Occurs, LastIndex;
    var j :| 0 <= j < |pat| && pat[j] == c;
    forall i: nat ensures !Occurs(t, pat, i) {
      CharAt(t, pat, i, j);
    }
  }

  /** Where c occurs only once, a pattern that ends in it occurs only there. */
  lemma {:induction false} OnlyThere(t: string, pat: string, at: nat)
    requires Occurs(t, pat, at) && |pat| > 0
    requires forall i :: 0 <= i < |t| && t[i] == pat[|pat| - 1] ==> i == at + |pat| - 1
    ensures LastIndex(t, pat) == Some(at)
  {
    hide LastIndex;
    forall i: nat | Occurs(t, pat, i) ensures i == at {
      CharAt(t, pat, i, |pat| - 1);
    }
  }

  /** The only colon of an id_ref's string is the suffix's. */
  lemma {:induction false} IdSuffix(a: string, b: string)
    requires ':' !in a && ':' !in b
    ensures LastIndex(a + "/id:" + b, "/id:") == Some(|a|)
  {
    var t := a + "/id:" + b;
    assert t[|a|..|a| + 4] == "/id:";
    OnlyThere(t, "/id:", |a|);
  }

  lemma {:induction false} NoPlainWidth(t: string)
    requires ':' !in t && !Word(t) && t != "" && (t[|t| - 1] != ')' || '(' !in t)
    ensures TextWidth(t) == None
  {
    Absent(t, "/id:", ':');
    ListedWord(t);
    if '(' !in t {
      Absent(t, "(", '(');
    }
  }

  /** The width of what ends a string in parentheses. */
  lemma {:induction false} ParenWidth(a: string, u: string)
    requires ':' !in a && ':' !in u && '(' !in u
    ensures TextWidth(a + "(" + u + ")") == TextWidth(u)
  {
    var t := a + "(" + u + ")";
    Absent(t, "/id:", ':');
    assert t[|a|] == '(' && t[|t| - 1] == ')';
    assert !Word(t);
    ListedWord(t);
    LastParen(a, u);
    assert t[|a| + 1..|t| - 1] == u;
  }

  lemma {:induction false} LastParen(a: string, u: string)
    requires '(' !in u
    ensures LastIndex(a + "(" + u + ")", "(") == Some(|a|)
  {
    hide LastIndex;
    var t := a + "(" + u + ")";
    assert t[|a|..|a| + 1] == "(" && Occurs(t, "(", |a|);
    forall i: nat | Occurs(t, "(", i) ensures i <= |a| {
      CharAt(t, "(", i, 0);
    }
  }

  lemma {:induction false} BasicWidth(p: Prim)
    requires GoodPrim(p)
    ensures TextWidth(PrimName(p)) == PrimWidth(p)
  {
    PrimWord(p);
    PrimListed(p);
    Absent(PrimName(p), "/id:", ':');
    Absent(PrimName(p), "(", '(');
  }

  /** The part of a composite that ends its string. */
  function Last(s: Shape): Shape {
    match s
    case SliceOf(e) => Last(e)
    case MapOf(_, v) => Last(v)
    case PtrTo(e) => Last(e)
    case _ => s
  }

  function Before(s: Shape): string {
    match s
    case SliceOf(e) => "[]" + Before(e)
    case MapOf(k, v) => "map[" + Text(k) + "]" + Before(v)
    case PtrTo(e) => "*" + Before(e)
    case _ => ""
  }

  lemma {:induction false} LastEnds(s: Shape)
    requires GoodShape(s) && GoodNames(s) && !s.IdOf?
    ensures Text(s) == Before(s) + Text(Last(s)) && GoodShape(Last(s)) && GoodNames(Last(s))
            && TailWidth(s) == TailWidth(Last(s))
    ensures Last(s).Basic? || Last(s).StructRef? || Last(s).Named?
  {
    match s
    case SliceOf(e) => LastEnds(e);
    case MapOf(k, v) => LastEnds(v);
    case PtrTo(e) => LastEnds(e);
    case _ =>
  }

  /** The width read off the string is the one the classifier's model reads off the shape. */
  lemma {:induction false} WidthRead(s: Shape)
    requires GoodShape(s) && GoodNames(s)
    ensures TextWidth(Text(s)) == DefaultWidth(s)
  {
    match s
    case Basic(p) => BasicWidth(p);
    case IdOf(base, id) =>
      IdTail(s);
      WidthRead(id);
      IdBase(s);
      IdSuffix(Text(base), Text(id));
      assert Text(s)[|Text(base)| + 4..] == Text(id);
    case _ => CompositeWidth(s);
  }

  lemma {:induction false} IdBase(s: Shape)
    requires s.IdOf? && GoodShape(s) && GoodNames(s)
    ensures ':' !in Text(s.base)
  {
    NoColon(s.base);
  }

  lemma {:induction false} CompositeWidth(s: Shape)
    requires GoodShape(s) && GoodNames(s) && !s.IdOf? && !s.Basic?
    ensures TextWidth(Text(s)) == TailWidth(s)
  {
    hide TextWidth, Word, TailWidth, GoodName;
    LastEnds(s);
    NoColon(s);
    NotWord(s);
    match Last(s)
    case Named(n, u) => EndsNamed(Before(s), Last(s));
    case l => EndsPlain(Before(s), l);
  }

  lemma {:induction false} EndsPlain(before: string, l: Shape)
    requires (l.Basic? || l.StructRef?) && GoodNames(l)
    requires ':' !in before + Text(l) && !Word(before + Text(l))
    ensures TextWidth(before + Text(l)) == TailWidth(l)
  {
    hide TextWidth;
    var t := before + Text(l);
    if l.Basic? {
      PrimWord(l.prim);
    }
    var last := Text(l)[|Text(l)| - 1];
    assert last in Text(l) && t[|t| - 1] == last;
    NoPlainWidth(t);
  }

  lemma {:induction false} EndsNamed(before: string, l: Shape)
    requires l.Named? && GoodShape(l) && GoodNames(l) && ':' !in before + Text(l)
    ensures TextWidth(before + Text(l)) == TailWidth(l)
  {
    hide TextWidth;
    UnderGood(l);
    var u := Text(l.under);
    NoColonParts(before + l.name, "(" + u + ")", before + Text(l));
    assert before + Text(l) == before + l.name + "(" + u + ")";
    NoColon(l.under);
    ParenWidth(before + l.name, u);
    UnderWidth(l.under);
  }

  lemma {:induction false} NoColonParts(a: string, b: string, t: string)
    requires t == a + b && ':' !in t
    ensures ':' !in a && ':' !in b
  {
    assert forall i :: 0 <= i < |a| ==> a[i] == t[i];
    assert forall i :: 0 <= i < |b| ==> b[i] == t[|a| + i];
  }

  lemma {:induction false} NotWord(s: Shape)
    requires GoodShape(s) && GoodNames(s) && !s.IdOf? && !s.Basic?
    ensures !Word(Text(s)) && Text(s) != ""
  {
    match s
    case Named(n, _) => assert Text(s)[|n|] == '(';
    case StructRef(k) =>
    case MapOf(_, _) => assert Text(s)[3] == '[';
    case SliceOf(_) => assert Text(s)[0] == '[';
    case PtrTo(_) => assert Text(s)[0] == '*';
  }

  lemma {:induction false} UnderWidth(u: Shape)
    requires (u.Basic? && GoodPrim(u.prim)) || (u.SliceOf? && IsByte(u.elem))
    ensures TextWidth(Text(u)) == if u.Basic? then PrimWidth(u.prim) else None
  {
    if u.Basic? {
      BasicWidth(u.prim);
    } else {
      PrimWord(u.elem.prim);
      assert Text(u)[0] == '[';
      NoPlainWidth(Text(u));
    }
  }
}
