/** The bump allocators behind arena decode: TypedPool.Alloc and the arena's string bytes. */
module Pool {
  import opened Basics

  const DEFAULT_CHUNK_CAP: nat := 256

  /** A slice handed out: chunk[lo..hi], of capacity hi - lo. */
  datatype Span<T> = Span(chunk: array<T>, lo: nat, hi: nat)

  predicate Apart<T>(a: Span<T>, b: Span<T>) { a.chunk != b.chunk || a.hi <= b.lo || b.hi <= a.lo }

  /** No two slices handed out overlap. */
  ghost predicate Disjoint<T>(given: seq<Span<T>>) { forall i, j :: 0 <= i < j < |given| ==> Apart(given[i], given[j]) }

  lemma {:induction false} OneMore<T>(given: seq<Span<T>>, s: Span<T>)
    requires Disjoint(given) && forall i :: 0 <= i < |given| ==> Apart(given[i], s)
    ensures Disjoint(given + [s])
  {
  }

  class BumpPool<T> {
    const zero: T
    var chunks: seq<array<T>>
    var cur: array<T>
    var used: nat
    var chunkCap: nat
    // every slice ever handed out, in order
    ghost var given: seq<Span<T>>

    /** A slice lies in a retained chunk, and in the current one below the mark. */
    ghost predicate Inside(s: Span<T>)
      reads this
    {
      s.chunk in chunks && s.lo < s.hi <= s.chunk.Length && (s.chunk == cur ==> s.hi <= used)
    }

    /** Slices handed out do not overlap, and what is left of the current chunk is zero. */
    ghost predicate Valid()
      reads this, cur
    {
      && used <= cur.Length && (cur in chunks || cur.Length == 0)
      && (forall i :: 0 <= i < |given| ==> Inside(given[i])) && Disjoint(given)
      && forall k :: used <= k < cur.Length ==> cur[k] == zero
    }

    constructor (zero: T, chunkCap: nat)
      ensures Valid() && given == [] && chunks == [] && this.zero == zero && this.chunkCap == chunkCap
    {
      this.zero, this.chunkCap := zero, chunkCap;
      chunks, used, given := [], 0, [];
      cur := new T[0];
    }

    /** A new chunk, at least n long. The old ones are kept for as long as the pool is. */
    method Grow(n: nat)
      requires Valid()
      modifies this
      ensures Valid() && given == old(given) && chunkCap == old(chunkCap)
      ensures fresh(cur) && chunks == old(chunks) + [cur] && used == 0 && cur.Length == if chunkCap > n then chunkCap
              else n
    {
      hide Disjoint;
      var c := if chunkCap > n then chunkCap else n;
      cur := new T[c](_ => zero);
      chunks := chunks + [cur];
      used := 0;
    }

    /** A fresh slice of length n: never handed out before, apart from every other, still zero. */
    method Alloc(n: int) returns (r: Option<Span<T>>)
      requires Valid()
      modifies this
      ensures Valid() && old(chunks) <= chunks && (old(cur) == cur || fresh(cur))
      ensures n <= 0 ==> r == None && given == old(given) && cur == old(cur) && used == old(used)
      ensures n > 0 ==> r.Some? && given == old(given) + [r.value]
      ensures n > 0 ==> var s := r.value; s.lo + n == s.hi == used <= cur.Length && s.chunk == cur
      ensures n > 0 ==> forall k :: r.value.lo <= k < r.value.hi ==> cur[k] == zero
      ensures n > 0 ==> forall i :: 0 <= i < |old(given)| ==> Apart(old(given)[i], r.value)
      ensures n > 0 && old(used) + n <= old(cur).Length ==> cur == old(cur) && used == old(used) + n
      ensures n > 0 && old(used) + n > old(cur).Length ==>
                var cap := if old(chunkCap) == 0 then DEFAULT_CHUNK_CAP else old(chunkCap);
                fresh(cur) && cur.Length == (if cap > n then cap else n) && used == n
    {
      hide Disjoint;
      if n <= 0 {
        return None;
      }
      if chunkCap == 0 {
        chunkCap := DEFAULT_CHUNK_CAP;
      }
      if used + n > cur.Length {
        Grow(n);
      }
      var s := Span(cur, used, used + n);
      assert forall i :: 0 <= i < |given| ==> Inside(given[i]) && Apart(given[i], s);
      OneMore(given, s);
      used := used + n;
      given := given + [s];
      return Some(s);
    }

    /** AcquireString: the bytes are copied into a slice of their own, and no slice handed out before changes. */
    method Acquire(b: seq<T>) returns (r: Option<Span<T>>)
      requires Valid()
      modifies this, cur
      ensures Valid() && old(chunks) <= chunks
      ensures b == [] ==> r == None && given == old(given)
      ensures b != [] ==> r.Some? && given == old(given) + [r.value]
      ensures b != [] ==> var s := r.value; s.lo <= s.hi <= s.chunk.Length && s.chunk[s.lo..s.hi] == b
      ensures forall i :: 0 <= i < |old(given)| ==> Inside(old(given)[i])
      ensures forall i :: 0 <= i < |old(given)| ==>
        var s := old(given)[i]; s.chunk[s.lo..s.hi] == old(s.chunk[s.lo..s.hi])
    {
      hide Disjoint;
      r := Alloc(|b|);
      if r.Some? {
        var s := r.value;
        forall k | 0 <= k < |b| {
          s.chunk[s.lo + k] := b[k];
        }
        assert forall i :: 0 <= i < |old(given)| ==> given[i] == old(given)[i] && Inside(given[i]);
      }
    }
  }
}
