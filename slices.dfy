/** Go slices as the game uses them: a backing array whose length is the
    slice's capacity, and the slice's length. Two runtime operations matter:
    `append(s[:i], s[i+1:]...)`, which removes element i by shifting the
    tail left inside the same backing array, and `append(s, xs...)`, which
    writes into the backing array when the capacity suffices and otherwise
    copies the live prefix into a new, larger one. */
module Slices {

  datatype Slice<T> = Slice(cells: seq<T>, len: nat) {

    ghost predicate Valid() {
      len <= |cells|
    }

    /** The elements the slice currently holds. */
    function Live(): seq<T>
      requires Valid()
    {
      cells[..len]
    }

    /** `append(s[:i], s[i+1:]...)` for 0 <= i < len(s): the tail moves left
        by one inside the same backing array; the last live cell keeps its
        old value, now beyond the length. */
    function Splice(i: nat): (r: Slice<T>)
      requires Valid() && i < len
      ensures r.Valid() && |r.cells| == |cells| && r.len == len - 1
    {
      Slice(cells[..i] + cells[i + 1..len] + cells[len - 1..], len - 1)
    }

    /** Whether `append(s, xs...)` fits in the present backing array. */
    predicate Fits(k: nat) {
      len + k <= |cells|
    }

    /** `append(s, xs...)`: in place when it fits; otherwise a new backing
        array of capacity GrowCap whose unused cells hold `zero`. */
    function Append(xs: seq<T>, zero: T): (r: Slice<T>)
      requires Valid()
      ensures r.Valid() && r.len == len + |xs|
      ensures Fits(|xs|) ==> |r.cells| == |cells|
      ensures !Fits(|xs|) ==> |r.cells| == GrowCap(|cells|, len + |xs|)
    {
      if Fits(|xs|) then
        Slice(cells[..len] + xs + cells[len + |xs|..], len + |xs|)
      else
        Slice(cells[..len] + xs + seq(GrowCap(|cells|, len + |xs|) - (len + |xs|), _ => zero), len + |xs|)
    }
  }

  /** The empty slice literal `[]T{}` and the nil slice: no backing cells. */
  function Empty<T>(): Slice<T>
  {
    Slice([], 0)
  }

  /** A stand-in for the capacity the runtime picks when an append does
      not fit: twice the old capacity, or exactly what is needed if that is
      more. Go's own rule agrees below capacity 256 up to rounding to an
      allocator size class; from 256 on it grows by about a quarter plus
      192 instead of doubling. */
  function GrowCap(cap: nat, needed: nat): (c: nat)
    requires cap < needed
    ensures needed <= c
  {
    if needed > 2 * cap then needed else 2 * cap
  }

  /** Removing element i leaves the other live elements in order. */
  lemma SpliceRemoves<T>(s: Slice<T>, i: nat)
    requires s.Valid() && i < s.len
    ensures s.Splice(i).Live() == s.Live()[..i] + s.Live()[i + 1..]
    ensures s.Splice(i).cells[s.len - 1..] == s.cells[s.len - 1..]
  {
    var r := s.Splice(i);
    assert r.cells[..r.len] == s.cells[..i] + s.cells[i + 1..s.len];
  }

  /** A splice takes exactly one copy of the removed element out of the
      live elements. */
  lemma SpliceMultiset<T>(s: Slice<T>, i: nat)
    requires s.Valid() && i < s.len
    ensures multiset(s.Live()) == multiset(s.Splice(i).Live()) + multiset{s.cells[i]}
  {
    SpliceRemoves(s, i);
    var l := s.Live();
    assert l == l[..i] + [l[i]] + l[i + 1..];
  }

  /** A splice does not touch the cells at or beyond the old length. */
  lemma SpliceKeepsBeyond<T>(s: Slice<T>, i: nat, end: nat)
    requires s.Valid() && i < s.len && s.len <= end <= |s.cells|
    ensures s.Splice(i).cells[end..] == s.cells[end..]
  {
    SpliceRemoves(s, i);
    assert s.Splice(i).cells[end..] == s.Splice(i).cells[s.len - 1..][end - (s.len - 1)..];
  }

  /** After a splice at i, cell i holds what was at i + 1 (the element a
      forward scan will not look at), and cells before i are untouched. */
  lemma SpliceShifts<T>(s: Slice<T>, i: nat, k: nat)
    requires s.Valid() && i < s.len && k < |s.cells|
    ensures k < i ==> s.Splice(i).cells[k] == s.cells[k]
    ensures i <= k < s.len - 1 ==> s.Splice(i).cells[k] == s.cells[k + 1]
    ensures s.len - 1 <= k ==> s.Splice(i).cells[k] == s.cells[k]
  {
  }

  /** Appending adds the new elements after the old ones. */
  lemma AppendLive<T>(s: Slice<T>, xs: seq<T>, zero: T)
    requires s.Valid()
    ensures s.Append(xs, zero).Live() == s.Live() + xs
    ensures s.Fits(|xs|) ==> s.Append(xs, zero).cells[s.len + |xs|..] == s.cells[s.len + |xs|..]
  {
    var r := s.Append(xs, zero);
    assert r.cells[..r.len] == s.cells[..s.len] + xs;
  }

  /** a is obtained from b by deleting elements (order kept). */
  ghost predicate IsSubsequence<T>(a: seq<T>, b: seq<T>)
    decreases |b|
  {
    if a == [] then true
    else if b == [] then false
    else (a[0] == b[0] && IsSubsequence(a[1..], b[1..])) || IsSubsequence(a, b[1..])
  }

  lemma {:induction false} SubsequenceRefl<T>(a: seq<T>)
    ensures IsSubsequence(a, a)
    decreases |a|
  {
    if a != [] {
      SubsequenceRefl(a[1..]);
    }
  }

  /** Deleting one element gives a subsequence. */
  lemma {:induction false} SubsequenceDropOne<T>(a: seq<T>, i: nat)
    requires i < |a|
    ensures IsSubsequence(a[..i] + a[i + 1..], a)
    decreases |a|
  {
    if i == 0 {
      assert a[..i] + a[i + 1..] == a[1..];
      SubsequenceRefl(a[1..]);
    } else {
      SubsequenceDropOne(a[1..], i - 1);
      var d := a[..i] + a[i + 1..];
      assert d[0] == a[0];
      assert d[1..] == a[1..][..i - 1] + a[1..][i..];
    }
  }

  lemma {:induction false} SubsequenceTrans<T>(a: seq<T>, b: seq<T>, c: seq<T>)
    requires IsSubsequence(a, b) && IsSubsequence(b, c)
    ensures IsSubsequence(a, c)
    decreases |c|
  {
    if a == [] {
    } else if a[0] == b[0] && IsSubsequence(a[1..], b[1..]) {
      if b[0] == c[0] && IsSubsequence(b[1..], c[1..]) {
        SubsequenceTrans(a[1..], b[1..], c[1..]);
      } else {
        SubsequenceTrans(a, b, c[1..]);
      }
    } else {
      assert IsSubsequence(a, b[1..]);
      if b[0] == c[0] && IsSubsequence(b[1..], c[1..]) {
        SubsequenceTrans(a, b[1..], c[1..]);
      } else {
        SubsequenceTrans(a, b, c[1..]);
      }
    }
  }

  /** The live elements after a splice are a subsequence of those before. */
  lemma SpliceIsSubsequence<T>(s: Slice<T>, i: nat)
    requires s.Valid() && i < s.len
    ensures IsSubsequence(s.Splice(i).Live(), s.Live())
  {
    SpliceRemoves(s, i);
    SubsequenceDropOne(s.Live(), i);
  }

  /** `append(s[:i], s[i+1:]...)` on the backing array `a` of a slice of
      length len: the tail moves left by one in place. */
  method SpliceInPlace<T>(a: array<T>, len: nat, i: nat)
    requires i < len <= a.Length
    modifies a
    ensures a[..] == Slice(old(a[..]), len).Splice(i).cells
  {
    forall k | i <= k < len - 1 {
      a[k] := a[k + 1];
    }
    assert a[..] == old(a[..])[..i] + old(a[..])[i + 1..len] + old(a[..])[len - 1..];
  }

  /** `append(s, xs...)` on the backing array `a` of a slice of length
      len: written in place when it fits; otherwise the live prefix and
      the new elements go into a fresh array of capacity GrowCap. */
  method AppendTo<T>(a: array<T>, len: nat, xs: seq<T>, zero: T) returns (b: array<T>)
    requires len <= a.Length
    modifies a
    ensures b[..] == Slice(old(a[..]), len).Append(xs, zero).cells
    ensures len + |xs| <= a.Length ==> b == a
    ensures a.Length < len + |xs| ==> fresh(b) && a[..] == old(a[..])
  {
    if len + |xs| <= a.Length {
      forall k | len <= k < len + |xs| {
        a[k] := xs[k - len];
      }
      assert a[..] == old(a[..])[..len] + xs + old(a[..])[len + |xs|..];
      b := a;
    } else {
      var cells := a[..len] + xs;
      var n := GrowCap(a.Length, len + |xs|);
      b := new T[n](k requires 0 <= k < n => if k < |cells| then cells[k] else zero);
      assert b[..] == cells + seq(n - |cells|, _ => zero);
    }
  }
}
