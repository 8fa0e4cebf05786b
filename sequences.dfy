/**
 * Filtering a sequence while keeping its order. Both loops of the core are of this kind: the
 * document-loading loop keeps the listing entries that could be read, and the retrieval loop keeps
 * the paths of the documents the judge accepted.
 */
module Sequences {
  import opened Wrappers

  /** The element an optional value contributes to a sequence: one for Some, none for None. */
  function AsSeq<U>(o: Option<U>): seq<U> {
    match o
    case Some(u) => [u]
    case None => []
  }

  /** The values `f` yields for the elements of `s`, dropping the elements for which it yields None. */
  function FilterMap<T, U>(s: seq<T>, f: T -> Option<U>): (r: seq<U>)
    ensures |r| <= |s|
    decreases |s|
  {
    if s == [] then []
    else FilterMap(s[..|s| - 1], f) + AsSeq(f(s[|s| - 1]))
  }

  /** The positions of `s` whose element `f` keeps, in increasing order. */
  ghost function KeptPositions<T, U>(s: seq<T>, f: T -> Option<U>): seq<int>
    decreases |s|
  {
    if s == [] then []
    else KeptPositions(s[..|s| - 1], f) + (if f(s[|s| - 1]).Some? then [|s| - 1] else [])
  }

  /** There is one kept position per value. */
  lemma {:induction false} KeptPositionsCount<T, U>(s: seq<T>, f: T -> Option<U>)
    ensures |KeptPositions(s, f)| == |FilterMap(s, f)|
    decreases |s|
  {
    if s != [] {
      KeptPositionsCount(s[..|s| - 1], f);
    }
  }

  /** The kept positions are positions of `s`, in increasing order. */
  lemma {:induction false} KeptPositionsIncrease<T, U>(s: seq<T>, f: T -> Option<U>)
    ensures forall k :: 0 <= k < |KeptPositions(s, f)| ==> 0 <= KeptPositions(s, f)[k] < |s|
    ensures forall k, l :: 0 <= k < l < |KeptPositions(s, f)| ==> KeptPositions(s, f)[k] < KeptPositions(s, f)[l]
    decreases |s|
  {
    if s != [] {
      var n := |s| - 1;
      KeptPositionsIncrease(s[..n], f);
      var pos', pos := KeptPositions(s[..n], f), KeptPositions(s, f);
      assert pos == pos' + (if f(s[n]).Some? then [n] else []);
      forall k | 0 <= k < |pos|
        ensures 0 <= pos[k] < |s|
      {
        if k < |pos'| {
          assert pos[k] == pos'[k];
        }
      }
      forall k, l | 0 <= k < l < |pos|
        ensures pos[k] < pos[l]
      {
        assert pos[k] == pos'[k];
        if l < |pos'| {
          assert pos[l] == pos'[l];
        }
      }
    }
  }

  /** The k-th value comes from the element at the k-th kept position. */
  lemma {:induction false} KeptPositionsYield<T, U>(s: seq<T>, f: T -> Option<U>)
    ensures var r, pos := FilterMap(s, f), KeptPositions(s, f);
      |pos| == |r| && forall k :: 0 <= k < |pos| ==> 0 <= pos[k] < |s| && f(s[pos[k]]) == Some(r[k])
    decreases |s|
  {
    KeptPositionsCount(s, f);
    KeptPositionsIncrease(s, f);
    if s != [] {
      var n := |s| - 1;
      var init := s[..n];
      KeptPositionsYield(init, f);
      var r', pos' := FilterMap(init, f), KeptPositions(init, f);
      var r, pos := FilterMap(s, f), KeptPositions(s, f);
      assert r == r' + AsSeq(f(s[n]));
      assert pos == pos' + (if f(s[n]).Some? then [n] else []);
      forall k | 0 <= k < |pos'|
        ensures pos[k] == pos'[k] && r[k] == r'[k] && s[pos'[k]] == init[pos'[k]]
      {
      }
    }
  }

  /** A position is kept exactly when `f` yields a value for its element. */
  lemma {:induction false} KeptPositionsComplete<T, U>(s: seq<T>, f: T -> Option<U>)
    ensures forall j :: 0 <= j < |s| ==> (f(s[j]).Some? <==> j in KeptPositions(s, f))
    decreases |s|
  {
    if s != [] {
      var n := |s| - 1;
      var init := s[..n];
      KeptPositionsComplete(init, f);
      KeptPositionsIncrease(init, f);
      var pos', pos := KeptPositions(init, f), KeptPositions(s, f);
      assert pos == pos' + (if f(s[n]).Some? then [n] else []);
      assert forall k :: 0 <= k < |pos'| ==> pos'[k] < n;
      assert n !in pos';
      forall j | 0 <= j < n
        ensures (f(s[j]).Some? <==> j in pos)
      {
        assert init[j] == s[j];
      }
    }
  }

  /**
   * FilterMap is an order-preserving selection: its k-th value comes from the element at the k-th
   * kept position, the kept positions increase, and a position is kept exactly when `f` yields a value.
   */
  lemma FilterMapSelects<T, U>(s: seq<T>, f: T -> Option<U>)
    ensures var r, pos := FilterMap(s, f), KeptPositions(s, f);
      && |pos| == |r|
      && (forall k :: 0 <= k < |pos| ==> 0 <= pos[k] < |s| && f(s[pos[k]]) == Some(r[k]))
      && (forall k, l :: 0 <= k < l < |pos| ==> pos[k] < pos[l])
      && (forall j :: 0 <= j < |s| ==> (f(s[j]).Some? <==> j in pos))
  {
    KeptPositionsYield(s, f);
    KeptPositionsIncrease(s, f);
    KeptPositionsComplete(s, f);
  }

  /** Concatenation regroups freely. */
  lemma ConcatAssoc<T>(a: seq<T>, b: seq<T>, c: seq<T>)
    ensures (a + b) + c == a + (b + c)
  {
  }

  /** FilterMap unfolded from the front: the first element contributes first. */
  lemma {:induction false} FilterMapCons<T, U>(x: T, s: seq<T>, f: T -> Option<U>)
    ensures FilterMap([x] + s, f) == AsSeq(f(x)) + FilterMap(s, f)
    decreases |s|
  {
    if s == [] {
      assert ([x] + s)[..0] == [];
    } else {
      var n := |s| - 1;
      assert ([x] + s)[..|s|] == [x] + s[..n];
      FilterMapCons(x, s[..n], f);
    }
  }

  /** Two filters that keep the same elements keep the same positions. */
  lemma {:induction false} FilterMapAligned<T, U, V>(s: seq<T>, f: T -> Option<U>, g: T -> Option<V>)
    requires forall j :: 0 <= j < |s| ==> (f(s[j]).Some? <==> g(s[j]).Some?)
    ensures KeptPositions(s, f) == KeptPositions(s, g)
    decreases |s|
  {
    if s != [] {
      var n := |s| - 1;
      assert forall j :: 0 <= j < n ==> s[..n][j] == s[j];
      FilterMapAligned(s[..n], f, g);
    }
  }
}
