/**
 * Generic helpers of internal/utils: `Clamp` (math.go) and `AnyOverlap` (slices.go), and the
 * standard library's `slices.DeleteFunc`, which the scene and input code rely on.
 */
module Utils {

  function Min(a: int, b: int): int { if a <= b then a else b }

  function Max(a: int, b: int): int { if a >= b then a else b }

  /** Go's `min(max(value, mini), maxi)`, over integers. */
  function Clamp(value: int, mini: int, maxi: int): (r: int)
    ensures r <= maxi
    ensures mini <= maxi ==> mini <= r
    ensures mini <= value <= maxi ==> r == value
    ensures maxi < mini ==> r == maxi
    ensures r == value || r == mini || r == maxi
  {
    Min(Max(value, mini), maxi)
  }

  /** Clamping an already clamped value changes nothing. */
  lemma ClampIdempotent(value: int, mini: int, maxi: int)
    ensures Clamp(Clamp(value, mini, maxi), mini, maxi) == Clamp(value, mini, maxi)
  {
  }

  /** With an ordered range, clamping is the nearest point of `[mini, maxi]` to `value`. */
  lemma ClampNearest(value: int, mini: int, maxi: int)
    requires mini <= maxi
    ensures value < mini ==> Clamp(value, mini, maxi) == mini
    ensures maxi < value ==> Clamp(value, mini, maxi) == maxi
  {
  }

  /**
   * `slices.ContainsFunc(s1, func(e) { return slices.Contains(s2, e) })`:
   * scans `s1` from the front and stops at the first element that `s2` contains.
   */
  function AnyOverlap<E(==)>(s1: seq<E>, s2: seq<E>): (r: bool)
    ensures r <==> exists i :: 0 <= i < |s1| && s1[i] in s2
  {
    if |s1| == 0 then false
    else if s1[0] in s2 then true
    else
      var rest := AnyOverlap(s1[1..], s2);
      assert forall i :: 1 <= i < |s1| ==> s1[i] == s1[1..][i - 1];
      rest
  }

  /** Either slice empty: nothing overlaps. */
  lemma AnyOverlapEmpty<E>(s: seq<E>)
    ensures !AnyOverlap(s, []) && !AnyOverlap([], s)
  {
  }

  /** The order of the arguments does not matter. */
  lemma AnyOverlapSymmetric<E>(s1: seq<E>, s2: seq<E>)
    ensures AnyOverlap(s1, s2) == AnyOverlap(s2, s1)
  {
    if AnyOverlap(s1, s2) {
      var i :| 0 <= i < |s1| && s1[i] in s2;
      var j :| 0 <= j < |s2| && s2[j] == s1[i];
      assert s2[j] in s1;
    }
    if AnyOverlap(s2, s1) {
      var j :| 0 <= j < |s2| && s2[j] in s1;
      var i :| 0 <= i < |s1| && s1[i] == s2[j];
      assert s1[i] in s2;
    }
  }

  /** Adding elements, at either end of either slice, never turns an overlap into none. */
  lemma AnyOverlapMonotone<E>(s1: seq<E>, s2: seq<E>, extra: seq<E>)
    requires AnyOverlap(s1, s2)
    ensures AnyOverlap(s1 + extra, s2) && AnyOverlap(extra + s1, s2)
    ensures AnyOverlap(s1, s2 + extra) && AnyOverlap(s1, extra + s2)
  {
    var i :| 0 <= i < |s1| && s1[i] in s2;
    assert (s1 + extra)[i] == s1[i];
    assert (extra + s1)[|extra| + i] == s1[i];
    assert s1[i] in s2 + extra && s1[i] in extra + s2;
  }

  /**
   * `slices.DeleteFunc(xs, del)` where `del` holds exactly for the members of `doomed`: keeps
   * the other elements, in order.
   */
  function DeleteFunc<T(!new)>(xs: seq<T>, doomed: set<T>): (r: seq<T>)
    ensures forall y :: y in r ==> y in xs && y !in doomed
    ensures |r| <= |xs|
  {
    if xs == [] then []
    else
      var rest := DeleteFunc(xs[1..], doomed);
      if xs[0] in doomed then rest else [xs[0]] + rest
  }

  /** Every element that is not deleted survives as often as it occurred. */
  lemma {:induction false} DeleteFuncKeeps<T(!new)>(xs: seq<T>, doomed: set<T>, y: T)
    requires y !in doomed
    ensures multiset(DeleteFunc(xs, doomed))[y] == multiset(xs)[y]
  {
    if xs != [] {
      DeleteFuncKeeps(xs[1..], doomed, y);
      assert xs == [xs[0]] + xs[1..];
    }
  }

  /** Deleting from a list with a given head: the head survives exactly when it is not doomed. */
  lemma DeleteFuncCons<T(!new)>(x: T, xs: seq<T>, doomed: set<T>)
    ensures DeleteFunc([x] + xs, doomed) == (if x in doomed then [] else [x]) + DeleteFunc(xs, doomed)
  {
    assert ([x] + xs)[1..] == xs;
  }

  /** Deleting distributes over concatenation, so the survivors keep their relative order. */
  lemma {:induction false} DeleteFuncAppend<T(!new)>(a: seq<T>, b: seq<T>, doomed: set<T>)
    ensures DeleteFunc(a + b, doomed) == DeleteFunc(a, doomed) + DeleteFunc(b, doomed)
  {
    if a == [] {
      assert a + b == b;
    } else {
      var t := a[1..];
      var head := if a[0] in doomed then [] else [a[0]];
      calc {
        DeleteFunc(a + b, doomed);
        { assert a + b == [a[0]] + (t + b); DeleteFuncCons(a[0], t + b, doomed); }
        head + DeleteFunc(t + b, doomed);
        { DeleteFuncAppend(t, b, doomed); }
        head + (DeleteFunc(t, doomed) + DeleteFunc(b, doomed));
        (head + DeleteFunc(t, doomed)) + DeleteFunc(b, doomed);
        { assert a == [a[0]] + t; DeleteFuncCons(a[0], t, doomed); }
        DeleteFunc(a, doomed) + DeleteFunc(b, doomed);
      }
    }
  }

  /** With nothing to delete, the slice comes back unchanged. */
  lemma {:induction false} DeleteFuncNothing<T(!new)>(xs: seq<T>, doomed: set<T>)
    requires forall y :: y in xs ==> y !in doomed
    ensures DeleteFunc(xs, doomed) == xs
  {
    if xs != [] {
      assert forall y :: y in xs[1..] ==> y in xs;
      DeleteFuncNothing(xs[1..], doomed);
      assert xs == [xs[0]] + xs[1..];
    }
  }

  /** Deleting from a slice extended by one element. */
  lemma DeleteFuncSnoc<T(!new)>(xs: seq<T>, x: T, doomed: set<T>)
    ensures DeleteFunc(xs + [x], doomed) == DeleteFunc(xs, doomed) + (if x in doomed then [] else [x])
  {
    DeleteFuncAppend(xs, [x], doomed);
    assert [x][1..] == [];
  }
}
