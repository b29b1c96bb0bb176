/** Type shapes as strings: shapeOf prints them, collectRefs reads the struct names back out. */
module Shapes {
  import opened Basics

  /** A type built from named leaves; length is the text of an array's length. */
  datatype TypeShape =
    | Leaf(name: string)
    | Ptr(to: TypeShape)
    | Slice(elem: TypeShape)
    | Arr(length: string, item: TypeShape)
    | MapTo(key: TypeShape, val: TypeShape)

  function Print(t: TypeShape): string {
    match t
    case Leaf(n) => n
    case Ptr(u) => "*" + Print(u)
    case Slice(u) => "[]" + Print(u)
    case Arr(n, u) => "[" + n + "]" + Print(u)
    case MapTo(k, v) => "map[" + Print(k) + "]" + Print(v)
  }

  /** The known struct leaves, left to right. */
  function Refs(t: TypeShape, known: set<string>): seq<string> {
    match t
    case Leaf(n) => if n in known then [n] else []
    case Ptr(u) => Refs(u, known)
    case Slice(u) => Refs(u, known)
    case Arr(_, u) => Refs(u, known)
    case MapTo(k, v) => Refs(k, known) + Refs(v, known)
  }

  /** Bracket depth after reading s from depth d, or nothing if it fell to zero on the way. */
  function Depth(s: string, d: nat): Option<nat> {
    if d == 0 then None
    else if s == "" then Some(d)
    else Depth(s[1..], if s[0] == '[' then d + 1 else if s[0] == ']' then d - 1 else d)
  }

  /** Every bracket in s is closed in s, in order. */
  ghost predicate Balanced(s: string) { Depth(s, 1) == Some(1) }

  /** A name: not empty, not mistakable for a composite; type arguments in balanced brackets. */
  ghost predicate GoodName(n: string) {
    n != "" && n[0] != '*' && n[0] != '[' && !("map[" <= n) && Balanced(n)
  }

  ghost predicate Good(t: TypeShape) {
    match t
    case Leaf(n) => GoodName(n)
    case Ptr(u) => Good(u)
    case Slice(u) => Good(u)
    case Arr(n, u) => (forall i :: 0 <= i < |n| ==> n[i] != '[' && n[i] != ']') && Good(u)
    case MapTo(k, v) => Good(k) && Good(v)
  }

  lemma {:induction false} DepthAppend(a: string, b: string, d: nat)
    ensures Depth(a + b, d) == match Depth(a, d) case None => None case Some(e) => Depth(b, e)
    decreases |a|
  {
    if a == "" {
      assert a + b == b;
    } else if d > 0 {
      assert (a + b)[1..] == a[1..] + b;
      DepthAppend(a[1..], b, if a[0] == '[' then d + 1 else if a[0] == ']' then d - 1 else d);
    }
  }

  /** A deeper start only shifts the depth. */
  lemma {:induction false} DepthShift(s: string, d: nat, e: nat)
    requires Depth(s, d).Some? && d <= e
    ensures Depth(s, e) == Some(Depth(s, d).value + (e - d))
    decreases |s|
  {
    if s != "" {
      var step := if s[0] == '[' then 1 else if s[0] == ']' then -1 else 0;
      DepthShift(s[1..], d + step, e + step);
    }
  }

  lemma {:induction false} NoBrackets(s: string, d: nat)
    requires d > 0 && forall i :: 0 <= i < |s| ==> s[i] != '[' && s[i] != ']'
    ensures Depth(s, d) == Some(d)
    decreases |s|
  {
    if s != "" {
      NoBrackets(s[1..], d);
    }
  }

  lemma {:induction false} BalancedAppend(a: string, b: string)
    requires Balanced(a) && Balanced(b)
    ensures Balanced(a + b)
  {
    DepthAppend(a, b, 1);
  }

  lemma {:induction false} Bracketed(s: string)
    requires Balanced(s)
    ensures Balanced("[" + s + "]")
  {
    DepthShift(s, 1, 2);
    DepthAppend("[", s, 1);
    DepthAppend("[" + s, "]", 1);
    assert Depth("[", 1) == Depth("", 2) == Some(2);
    assert Depth("]", 2) == Depth("", 1) == Some(1);
  }

  lemma {:induction false} PrintBalanced(t: TypeShape)
    requires Good(t)
    ensures Balanced(Print(t))
  {
    hide Balanced;
    match t
    case Leaf(_) =>
    case Ptr(u) =>
      PrintBalanced(u);
      Plain("*");
      BalancedAppend("*", Print(u));
    case Slice(u) =>
      PrintBalanced(u);
      Plain("");
      Bracketed("");
      assert "[" + "" + "]" == "[]";
      BalancedAppend("[]", Print(u));
    case Arr(n, u) =>
      PrintBalanced(u);
      Plain(n);
      Bracketed(n);
      BalancedAppend("[" + n + "]", Print(u));
    case MapTo(k, v) =>
      PrintBalanced(k);
      PrintBalanced(v);
      MapBalanced(Print(k), Print(v));
  }

  lemma {:induction false} Plain(s: string)
    requires forall i :: 0 <= i < |s| ==> s[i] != '[' && s[i] != ']'
    ensures Balanced(s)
  {
    NoBrackets(s, 1);
  }

  lemma {:induction false} MapBalanced(k: string, v: string)
    requires Balanced(k) && Balanced(v)
    ensures Balanced("map[" + k + "]" + v)
  {
    hide Balanced;
    Plain("map");
    Bracketed(k);
    BalancedAppend("[" + k + "]", v);
    BalancedAppend("map", "[" + k + "]" + v);
    assert "map" + ("[" + k + "]" + v) == "map[" + k + "]" + v;
  }

  /** The first place from i on where the depth falls to zero. */
  function Match(s: string, i: nat, depth: nat): Option<nat>
    requires i <= |s|
    decreases |s| - i
  {
    if i == |s| then None
    else if s[i] == '[' then Match(s, i + 1, depth + 1)
    else if s[i] == ']' then (if depth == 1 then Some(i) else Match(s, i + 1, if depth > 0 then depth - 1 else 0))
    else Match(s, i + 1, depth)
  }

  /** matchBracket. */
  method MatchBracket(s: string, openIdx: nat) returns (r: int)
    requires openIdx < |s|
    ensures r == match Match(s, openIdx + 1, 1) case None => -1 case Some(j) => j
  {
    var depth := 1;
    var i := openIdx + 1;
    while i < |s|
      invariant openIdx < i <= |s| && depth >= 1
      invariant Match(s, openIdx + 1, 1) == Match(s, i, depth)
    {
      if s[i] == '[' {
        depth := depth + 1;
      } else if s[i] == ']' {
        depth := depth - 1;
        if depth == 0 {
          return i;
        }
      }
      i := i + 1;
    }
    return -1;
  }

  /** Behind an opening bracket, the match of a balanced text is the bracket that follows it. */
  lemma {:induction false} MatchBalanced(s: string, i: nat, k: nat, depth: nat)
    requires i <= k < |s| && depth >= 1 && Depth(s[i..k], depth) == Some(1) && s[k] == ']'
    ensures Match(s, i, depth) == Some(k)
    decreases k - i
  {
    if i < k {
      assert s[i..k][1..] == s[i + 1..k];
      MatchBalanced(s, i + 1, k, if s[i] == '[' then depth + 1 else if s[i] == ']' then depth - 1 else depth);
    }
  }

  function IndexOf(s: string, c: char): (r: Option<nat>)
    ensures r.Some? ==> r.value < |s| && s[r.value] == c && forall i :: 0 <= i < r.value ==> s[i] != c
    ensures r.None? ==> forall i :: 0 <= i < |s| ==> s[i] != c
  {
    if s == "" then None
    else if s[0] == c then Some(0)
    else match IndexOf(s[1..], c)
      case None => None
      case Some(i) => Some(i + 1)
  }

  /** collectRefs, on any string. */
  function Collect(s: string, known: set<string>): seq<string>
    decreases |s|
  {
    if s == "" then []
    else if s[0] == '*' then Collect(s[1..], known)
    else if "map[" <= s then
      match Match(s, 4, 1)
      case None => []
      case Some(end) =>
        MatchRange(s, 4, 1);
        Collect(s[4..end], known) + Collect(s[end + 1..], known)
    else if s[0] == '[' then
      match IndexOf(s, ']')
      case None => []
      case Some(i) => Collect(s[i + 1..], known)
    else if s in known then [s]
    else []
  }

  lemma {:induction false} MatchRange(s: string, i: nat, depth: nat)
    requires i <= |s|
    ensures Match(s, i, depth).Some? ==> i <= Match(s, i, depth).value < |s|
    decreases |s| - i
  {
    if i < |s| {
      MatchRange(s, i + 1, depth + 1);
      MatchRange(s, i + 1, depth);
      if depth > 0 {
        MatchRange(s, i + 1, depth - 1);
      }
    }
  }

  /** The method strips pointers in a loop and appends to what it was given. */
  method CollectRefs(text: string, known: set<string>, out: seq<string>) returns (r: seq<string>)
    ensures r == out + Collect(text, known)
    decreases |text|
  {
    var shape := text;
    while |shape| > 0 && shape[0] == '*'
      invariant |shape| <= |text| && Collect(text, known) == Collect(shape, known)
    {
      shape := shape[1..];
    }
    if shape == "" {
      return out;
    }
    if "map[" <= shape {
      var end := MatchBracket(shape, 3);
      MatchRange(shape, 4, 1);
      if end < 0 {
        return out;
      }
      r := CollectRefs(shape[4..end], known, out);
      r := CollectRefs(shape[end + 1..], known, r);
      return;
    }
    if shape[0] == '[' {
      var i := IndexOf(shape, ']');
      if i.None? {
        return out;
      }
      r := CollectRefs(shape[i.value + 1..], known, out);
      return;
    }
    return if shape in known then out + [shape] else out;
  }

  lemma {:induction false} CollectArray(n: string, u: TypeShape, known: set<string>)
    requires forall i :: 0 <= i < |n| ==> n[i] != '[' && n[i] != ']'
    ensures Collect(Print(Arr(n, u)), known) == Collect(Print(u), known)
  {
    var s := Print(Arr(n, u));
    assert s == "[" + n + "]" + Print(u);
    assert s[|n| + 1] == ']' && s[|n| + 2..] == Print(u);
    forall i | 0 <= i < |n| + 1 ensures s[i] != ']' {
      if i > 0 {
        assert s[i] == n[i - 1];
      }
    }
    assert IndexOf(s, ']') == Some(|n| + 1);
    assert s[0] == '[' && !("map[" <= s);
  }

  lemma {:induction false} CollectMap(k: TypeShape, v: TypeShape, known: set<string>)
    requires Balanced(Print(k))
    ensures Collect(Print(MapTo(k, v)), known) == Collect(Print(k), known) + Collect(Print(v), known)
  {
    var s, end := Print(MapTo(k, v)), 4 + |Print(k)|;
    assert s == "map[" + Print(k) + "]" + Print(v);
    assert s[4..end] == Print(k) && s[end] == ']' && s[end + 1..] == Print(v);
    MatchBalanced(s, 4, end, 1);
    assert s[..4] == "map[" && s[0] == 'm';
  }

  lemma {:induction false} CollectPrefix(t: TypeShape, known: set<string>)
    requires t.Ptr? || t.Slice?
    ensures Collect(Print(t), known) == Collect(Print(if t.Ptr? then t.to else t.elem), known)
  {
    var s := Print(t);
    if t.Ptr? {
      assert s[0] == '*' && s[1..] == Print(t.to);
    } else {
      assert s == "[]" + Print(t.elem);
      assert s[0] == '[' && s[1] == ']' && s[2..] == Print(t.elem);
      assert IndexOf(s, ']') == Some(1);
      assert !("map[" <= s);
    }
  }

  /** What collectRefs reads from a printed shape are exactly its known struct leaves, in order. */
  lemma {:induction false} CollectPrinted(t: TypeShape, known: set<string>)
    requires Good(t)
    ensures Collect(Print(t), known) == Refs(t, known)
  {
    match t
    case Leaf(_) =>
    case Ptr(u) =>
      CollectPrefix(t, known);
      CollectPrinted(u, known);
    case Slice(u) =>
      CollectPrefix(t, known);
      CollectPrinted(u, known);
    case Arr(n, u) =>
      CollectArray(n, u, known);
      CollectPrinted(u, known);
    case MapTo(k, v) =>
      PrintBalanced(k);
      CollectMap(k, v, known);
      CollectPrinted(k, known);
      CollectPrinted(v, known);
  }

  /** A named type: import path, identifier, type arguments. */
  datatype TypeRef = TypeRef(pkg: string, name: string, args: seq<TypeRef>)

  /** refKey: the canonical dotted form, with type arguments in brackets. */
  function RefKey(r: TypeRef): string
    decreases r, 0
  {
    var base := if r.pkg != "" then r.pkg + "." + r.name else r.name;
    if r.args == [] then base else base + ("[" + Join(r.args) + "]")
  }

  function Join(rs: seq<TypeRef>): string
    decreases rs, 1
  {
    if |rs| == 0 then "" else if |rs| == 1 then RefKey(rs[0]) else RefKey(rs[0]) + "," + Join(rs[1..])
  }

  /** Import paths and identifiers hold no brackets; the argument of a generic may be a composite written out. */
  ghost predicate GoodRef(r: TypeRef)
    decreases r, 0
  {
    && (forall i :: 0 <= i < |r.pkg| ==> r.pkg[i] != '[' && r.pkg[i] != ']')
    && Balanced(r.name)
    && forall i :: 0 <= i < |r.args| ==> GoodRef(r.args[i])
  }

  lemma {:induction false} RefKeyBalanced(r: TypeRef)
    requires GoodRef(r)
    ensures Balanced(RefKey(r))
    decreases r, 0
  {
    hide Balanced;
    Plain(r.pkg);
    Plain(".");
    BalancedAppend(r.pkg, ".");
    BalancedAppend(r.pkg + ".", r.name);
    var base := if r.pkg != "" then r.pkg + "." + r.name else r.name;
    if r.args != [] {
      JoinBalanced(r.args);
      Bracketed(Join(r.args));
      BalancedAppend(base, "[" + Join(r.args) + "]");
    }
  }

  lemma {:induction false} JoinBalanced(rs: seq<TypeRef>)
    requires forall i :: 0 <= i < |rs| ==> GoodRef(rs[i])
    ensures Balanced(Join(rs))
    decreases rs, 1
  {
    hide Balanced;
    if |rs| == 0 {
      Plain("");
    } else {
      RefKeyBalanced(rs[0]);
      if |rs| > 1 {
        JoinBalanced(rs[1..]);
        Plain(",");
        BalancedAppend(RefKey(rs[0]), ",");
        BalancedAppend(RefKey(rs[0]) + ",", Join(rs[1..]));
      }
    }
  }

  /** So a struct's key, generic or not, is a name the parser can tell from a composite. */
  lemma {:induction false} StructKeyGood(r: TypeRef)
    requires GoodRef(r) && r.pkg != "" && r.pkg[0] != '*'
    ensures GoodName(RefKey(r))
  {
    RefKeyBalanced(r);
    var key := RefKey(r);
    assert r.pkg + "." <= key;
    assert key[0] == r.pkg[0];
    assert key[..|r.pkg|] == r.pkg && key[|r.pkg|] == '.';
    assert forall j :: 0 <= j < 4 ==> "map["[j] != '.';
    assert "map["[3] == '[';
    assert |r.pkg| > 3 ==> key[3] == r.pkg[3];
  }
}
