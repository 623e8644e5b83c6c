/**
 * MoveCollider of internal/colliders/collider.go: the swept move of one collider toward a
 * target, one clamped step at a time. Each step tests the leading edges against the blocking
 * layers and stops if anything is hit; otherwise it tests them against the AllColliders layer
 * and compares what it touches with what the previous step touched, calling the enter and exit
 * callbacks. The registry is re-indexed when the move ends.
 *
 * The goroutines that run the edge tests and send hits over a channel are a sequential scan in
 * cell order here; the callbacks they start are appended to the registry's event log.
 */
module ColliderMove {
  import opened Utils
  import opened ColliderGeometry
  import opened ColliderMaps

  // ---------------------------------------------------------------------------------------
  // Identity up to `equals`, and the de-duplication of a pass's hits
  // ---------------------------------------------------------------------------------------

  /** `equals` on two registered colliders. */
  predicate Same(heap: map<ColliderId, Collider>, a: ColliderId, b: ColliderId)
  {
    a in heap && b in heap && Equals(heap[a], heap[b])
  }

  /** slices.ContainsFunc with `equals`: some entry of `s` equals `x`. */
  predicate HasSame(heap: map<ColliderId, Collider>, s: seq<ColliderId>, x: ColliderId)
  {
    exists i :: 0 <= i < |s| && Same(heap, s[i], x)
  }

  /** No two entries of `s` are equal. */
  predicate Distinct(heap: map<ColliderId, Collider>, s: seq<ColliderId>)
  {
    forall i, j :: 0 <= i < j < |s| ==> !Same(heap, s[i], s[j])
  }

  /** Every entry of `s` is a registered collider. */
  predicate Known(heap: map<ColliderId, Collider>, s: seq<ColliderId>)
  {
    forall i :: 0 <= i < |s| ==> s[i] in heap
  }

  lemma HasSameSnoc(heap: map<ColliderId, Collider>, s: seq<ColliderId>, x: ColliderId, y: ColliderId)
    ensures HasSame(heap, s + [x], y) <==> HasSame(heap, s, y) || Same(heap, x, y)
  {
    if HasSame(heap, s, y) {
      var i :| 0 <= i < |s| && Same(heap, s[i], y);
      assert (s + [x])[i] == s[i];
    }
    if Same(heap, x, y) {
      assert (s + [x])[|s|] == x;
    }
    if HasSame(heap, s + [x], y) {
      var i :| 0 <= i < |s + [x]| && Same(heap, (s + [x])[i], y);
      if i < |s| {
        assert (s + [x])[i] == s[i];
      }
    }
  }

  /**
   * The loop that drains a pass's channel: a hit is kept unless an equal one was kept before,
   * so each collider is reported once.
   */
  function Dedupe(heap: map<ColliderId, Collider>, xs: seq<ColliderId>): (r: seq<ColliderId>)
    ensures forall y :: y in r ==> y in xs
    decreases |xs|
  {
    if xs == [] then []
    else
      var d := Dedupe(heap, xs[..|xs| - 1]);
      var x := xs[|xs| - 1];
      if HasSame(heap, d, x) then d else d + [x]
  }

  /** The kept hits are pairwise unequal, and every hit has an equal among them. */
  lemma {:induction false} DedupeFacts(heap: map<ColliderId, Collider>, xs: seq<ColliderId>)
    requires Known(heap, xs)
    ensures Known(heap, Dedupe(heap, xs)) && Distinct(heap, Dedupe(heap, xs))
    ensures forall x :: x in xs ==> HasSame(heap, Dedupe(heap, xs), x)
    decreases |xs|
  {
    if xs != [] {
      var init := xs[..|xs| - 1];
      var x := xs[|xs| - 1];
      assert Known(heap, init);
      DedupeFacts(heap, init);
      var d := Dedupe(heap, init);
      if !HasSame(heap, d, x) {
        forall y | y in xs
          ensures HasSame(heap, d + [x], y)
        {
          HasSameSnoc(heap, d, x, y);
          if y != x {
            assert y in init;
          }
        }
      } else {
        forall y | y in xs
          ensures HasSame(heap, d, y)
        {
          if y != x {
            assert y in init;
          }
        }
      }
    }
  }

  /** The collecting loop: drain the hits in order, skipping those equal to one already kept. */
  method Collect(heap: map<ColliderId, Collider>, hits: seq<ColliderId>) returns (kept: seq<ColliderId>)
    ensures kept == Dedupe(heap, hits)
  {
    kept := [];
    for k := 0 to |hits|
      invariant kept == Dedupe(heap, hits[..k])
    {
      assert hits[..k + 1][..k] == hits[..k];
      if !HasSame(heap, kept, hits[k]) {
        kept := kept + [hits[k]];
      }
    }
    assert hits[..|hits|] == hits;
  }

  // ---------------------------------------------------------------------------------------
  // Callback events
  // ---------------------------------------------------------------------------------------

  /** OnEnterCollision on both sides, for each collider of `ys` in order. */
  function PairEvents(self: ColliderId, ys: seq<ColliderId>): (evs: seq<Event>)
    ensures |evs| == 2 * |ys|
    decreases |ys|
  {
    if ys == [] then []
    else PairEvents(self, ys[..|ys| - 1]) + [Enter(self, ys[|ys| - 1]), Enter(ys[|ys| - 1], self)]
  }

  /** Each collider of `ys` gets an enter call with the mover, and the mover one with it; nothing else. */
  lemma {:induction false} PairEventsMembers(self: ColliderId, ys: seq<ColliderId>)
    ensures forall y :: y in ys ==> Enter(self, y) in PairEvents(self, ys) && Enter(y, self) in PairEvents(self, ys)
    ensures forall e :: e in PairEvents(self, ys) ==>
      e.Enter? && ((e.receiver == self && e.argument in ys) || (e.argument == self && e.receiver in ys))
    decreases |ys|
  {
    if ys != [] {
      var init := ys[..|ys| - 1];
      PairEventsMembers(self, init);
      forall y | y in ys
        ensures y in init || y == ys[|ys| - 1]
      {
      }
      assert forall y :: y in init ==> y in ys;
    }
  }

  /** The exit calls for a collider no longer touched, as written: the other collider is handed itself. */
  function ExitEvents(self: ColliderId, x: ColliderId): (evs: seq<Event>)
    ensures Exit(self, x) in evs
    ensures forall e :: e in evs ==> e.Exit? && e.argument == x
  {
    [Exit(self, x), Exit(x, x)]
  }

  /** As written, the other collider's exit call does not receive the mover, unlike its enter call. */
  lemma ExitCallbackGetsItself(self: ColliderId, x: ColliderId)
    requires x != self
    ensures Enter(x, self) in PairEvents(self, [x])
    ensures Exit(x, self) !in ExitEvents(self, x) && Exit(x, x) in ExitEvents(self, x)
  {
    PairEventsMembers(self, [x]);
  }

  /** The exit calls as evidently intended: each side is handed the other, as for the enter calls. */
  function ExitEventsIntended(self: ColliderId, x: ColliderId): (evs: seq<Event>)
    ensures |evs| == 2 && Exit(self, x) in evs && Exit(x, self) in evs
  {
    [Exit(self, x), Exit(x, self)]
  }

  /** The intended exit calls mirror the enter calls: the same receivers with the same arguments. */
  lemma IntendedExitMirrorsEnter(self: ColliderId, x: ColliderId, a: ColliderId, b: ColliderId)
    ensures Enter(a, b) in PairEvents(self, [x]) <==> Exit(a, b) in ExitEventsIntended(self, x)
  {
    PairEventsMembers(self, [x]);
  }

  // ---------------------------------------------------------------------------------------
  // The enter/exit diff between two steps
  // ---------------------------------------------------------------------------------------

  /** The index of the first entry of `s` equal to `x`, or -1. */
  function FirstSame(heap: map<ColliderId, Collider>, s: seq<ColliderId>, x: ColliderId): (i: int)
    ensures -1 <= i < |s|
    ensures i >= 0 ==> Same(heap, s[i], x) && forall k :: 0 <= k < i ==> !Same(heap, s[k], x)
    ensures i < 0 <==> !HasSame(heap, s, x)
    decreases |s|
  {
    if s == [] then -1
    else if Same(heap, s[0], x) then 0
    else
      var j := FirstSame(heap, s[1..], x);
      assert forall k :: 1 <= k < |s| ==> s[k] == s[1..][k - 1];
      if j < 0 then -1 else j + 1
  }

  /** Removal by moving the last entry into the hole, as the diff loop does. */
  function SwapRemove(s: seq<ColliderId>, i: nat): (r: seq<ColliderId>)
    requires i < |s|
    ensures |r| == |s| - 1
  {
    s[i := s[|s| - 1]][..|s| - 1]
  }

  lemma SwapRemoveFacts(heap: map<ColliderId, Collider>, s: seq<ColliderId>, i: nat)
    requires i < |s| && Known(heap, s) && Distinct(heap, s)
    ensures Known(heap, SwapRemove(s, i)) && Distinct(heap, SwapRemove(s, i))
    ensures forall y :: y in SwapRemove(s, i) <==> y in s && y != s[i]
  {
    var r := SwapRemove(s, i);
    var last := |s| - 1;
    assert forall j :: 0 <= j < |r| ==> r[j] == if j == i then s[last] else s[j];
    forall j, k | 0 <= j < k < |r|
      ensures !Same(heap, r[j], r[k])
    {
      if j == i {
        assert !Same(heap, s[k], s[last]);
      } else if k == i {
        assert !Same(heap, s[j], s[last]);
      }
    }
    forall y | y in s && y != s[i]
      ensures y in r
    {
      var j :| 0 <= j < |s| && s[j] == y;
      if j == last {
        assert r[i] == y;
      } else {
        assert r[j] == y;
      }
    }
    forall y | y in r
      ensures y in s && y != s[i]
    {
      var j :| 0 <= j < |r| && r[j] == y;
      if j == i {
        assert y == s[last] && last != i;
        assert !Same(heap, s[i], s[last]);
      } else {
        assert !Same(heap, s[j], s[i]) || !Same(heap, s[i], s[j]);
      }
    }
  }

  /** What the loop over the previous step's colliders has produced so far. */
  datatype ExitState = ExitState(events: seq<Event>, kept: seq<ColliderId>, remaining: seq<ColliderId>)

  /**
   * The loop over `lastSeen`: a collider with an equal among the still-unmatched `seen` ones
   * is kept and that equal removed; one without gets its exit calls.
   */
  function ExitPass(heap: map<ColliderId, Collider>, self: ColliderId, lastSeen: seq<ColliderId>, seen: seq<ColliderId>): ExitState
    decreases |lastSeen|
  {
    if lastSeen == [] then ExitState([], [], seen)
    else
      var st := ExitPass(heap, self, lastSeen[..|lastSeen| - 1], seen);
      var x := lastSeen[|lastSeen| - 1];
      var i := FirstSame(heap, st.remaining, x);
      if i < 0 then st.(events := st.events + ExitEvents(self, x))
      else ExitState(st.events, st.kept + [x], SwapRemove(st.remaining, i))
  }

  /** The outcome of one step's diff: the callbacks, and the colliders touched now. */
  datatype DiffOutcome = DiffOutcome(events: seq<Event>, lastSeen: seq<ColliderId>)

  /** The whole diff: exit calls, then enter calls for what is left of `seen`, which joins the kept ones. */
  function Diff(heap: map<ColliderId, Collider>, self: ColliderId, lastSeen: seq<ColliderId>, seen: seq<ColliderId>): DiffOutcome
  {
    var st := ExitPass(heap, self, lastSeen, seen);
    DiffOutcome(st.events + PairEvents(self, st.remaining), st.kept + st.remaining)
  }

  /** What is left of `seen` after the loop: those with no equal among the previous step's colliders. */
  lemma {:induction false} ExitPassRemaining(heap: map<ColliderId, Collider>, self: ColliderId, lastSeen: seq<ColliderId>, seen: seq<ColliderId>)
    requires Known(heap, lastSeen) && Distinct(heap, lastSeen) && Known(heap, seen) && Distinct(heap, seen)
    ensures var st := ExitPass(heap, self, lastSeen, seen);
      Known(heap, st.remaining) && Distinct(heap, st.remaining)
      && (forall y :: y in st.remaining <==> y in seen && !HasSame(heap, lastSeen, y))
    decreases |lastSeen|
  {
    if lastSeen != [] {
      var init := lastSeen[..|lastSeen| - 1];
      var x := lastSeen[|lastSeen| - 1];
      assert Known(heap, init) && Distinct(heap, init);
      ExitPassRemaining(heap, self, init, seen);
      var st := ExitPass(heap, self, init, seen);
      var i := FirstSame(heap, st.remaining, x);
      assert lastSeen == init + [x];
      forall y
        ensures HasSame(heap, lastSeen, y) <==> HasSame(heap, init, y) || Same(heap, x, y)
      {
        HasSameSnoc(heap, init, x, y);
      }
      if i < 0 {
        forall m | 0 <= m < |st.remaining|
          ensures !Same(heap, x, st.remaining[m])
        {
          assert !Same(heap, st.remaining[m], x);
        }
      } else {
        var r := st.remaining[i];
        SwapRemoveFacts(heap, st.remaining, i);
        forall m | 0 <= m < |st.remaining|
          ensures st.remaining[m] != r <==> !Same(heap, x, st.remaining[m])
        {
          if m != i {
            assert !Same(heap, st.remaining[m], st.remaining[i]) || !Same(heap, st.remaining[i], st.remaining[m]);
          }
        }
      }
    }
  }

  /** A previous collider finds no unmatched equal exactly when nothing touched now equals it. */
  lemma ExitPassMatch(heap: map<ColliderId, Collider>, self: ColliderId, lastSeen: seq<ColliderId>, seen: seq<ColliderId>)
    requires lastSeen != []
    requires Known(heap, lastSeen) && Distinct(heap, lastSeen) && Known(heap, seen) && Distinct(heap, seen)
    ensures var x := lastSeen[|lastSeen| - 1];
      var st := ExitPass(heap, self, lastSeen[..|lastSeen| - 1], seen);
      FirstSame(heap, st.remaining, x) < 0 <==> !HasSame(heap, seen, x)
  {
    var init := lastSeen[..|lastSeen| - 1];
    var x := lastSeen[|lastSeen| - 1];
    assert Known(heap, init) && Distinct(heap, init);
    ExitPassRemaining(heap, self, init, seen);
    var st := ExitPass(heap, self, init, seen);
    var i := FirstSame(heap, st.remaining, x);
    if i < 0 {
      forall k | 0 <= k < |seen|
        ensures !Same(heap, seen[k], x)
      {
        var y := seen[k];
        if HasSame(heap, init, y) {
          var j :| 0 <= j < |init| && Same(heap, init[j], y);
          assert lastSeen[j] == init[j];
          assert !Same(heap, lastSeen[j], lastSeen[|lastSeen| - 1]);
        } else {
          assert y in st.remaining;
          var m :| 0 <= m < |st.remaining| && st.remaining[m] == y;
          assert !Same(heap, st.remaining[m], x);
        }
      }
    } else {
      var r := st.remaining[i];
      assert r in seen;
      var k :| 0 <= k < |seen| && seen[k] == r;
      assert Same(heap, seen[k], x);
    }
  }

  /** A previous collider is kept exactly when something touched now equals it. */
  lemma {:induction false} ExitPassKept(heap: map<ColliderId, Collider>, self: ColliderId, lastSeen: seq<ColliderId>, seen: seq<ColliderId>)
    requires Known(heap, lastSeen) && Distinct(heap, lastSeen) && Known(heap, seen) && Distinct(heap, seen)
    ensures forall x :: x in ExitPass(heap, self, lastSeen, seen).kept <==> x in lastSeen && HasSame(heap, seen, x)
    decreases |lastSeen|
  {
    if lastSeen != [] {
      var init := lastSeen[..|lastSeen| - 1];
      var x := lastSeen[|lastSeen| - 1];
      assert Known(heap, init) && Distinct(heap, init);
      ExitPassKept(heap, self, init, seen);
      ExitPassMatch(heap, self, lastSeen, seen);
      assert lastSeen == init + [x];
      assert forall y :: y in lastSeen <==> y in init || y == x;
    }
  }

  /**
   * The loop makes only exit calls, each about a previous collider that nothing touched now
   * equals, received by the mover or by that collider; and each such collider gets both.
   */
  lemma {:induction false} ExitPassEvents(heap: map<ColliderId, Collider>, self: ColliderId, lastSeen: seq<ColliderId>, seen: seq<ColliderId>)
    requires Known(heap, lastSeen) && Distinct(heap, lastSeen) && Known(heap, seen) && Distinct(heap, seen)
    ensures var st := ExitPass(heap, self, lastSeen, seen);
      (forall x :: Exit(self, x) in st.events <==> x in lastSeen && !HasSame(heap, seen, x))
      && (forall x :: Exit(x, x) in st.events <==> x in lastSeen && !HasSame(heap, seen, x))
      && (forall e :: e in st.events ==>
            e.Exit? && e.argument in lastSeen && !HasSame(heap, seen, e.argument)
            && (e.receiver == self || e.receiver == e.argument))
    decreases |lastSeen|
  {
    if lastSeen != [] {
      var init := lastSeen[..|lastSeen| - 1];
      var x := lastSeen[|lastSeen| - 1];
      assert Known(heap, init) && Distinct(heap, init);
      ExitPassEvents(heap, self, init, seen);
      ExitPassMatch(heap, self, lastSeen, seen);
      assert lastSeen == init + [x];
      assert forall y :: y in lastSeen <==> y in init || y == x;
    }
  }

  /** The loop's three results together. */
  lemma ExitPassFacts(heap: map<ColliderId, Collider>, self: ColliderId, lastSeen: seq<ColliderId>, seen: seq<ColliderId>)
    requires Known(heap, lastSeen) && Distinct(heap, lastSeen) && Known(heap, seen) && Distinct(heap, seen)
    ensures var st := ExitPass(heap, self, lastSeen, seen);
      Known(heap, st.remaining) && Distinct(heap, st.remaining)
      && (forall y :: y in st.remaining <==> y in seen && !HasSame(heap, lastSeen, y))
      && (forall x :: x in st.kept <==> x in lastSeen && HasSame(heap, seen, x))
      && (forall x :: Exit(self, x) in st.events <==> x in lastSeen && !HasSame(heap, seen, x))
      && (forall x :: Exit(x, x) in st.events <==> x in lastSeen && !HasSame(heap, seen, x))
      && (forall e :: e in st.events ==>
            e.Exit? && e.argument in lastSeen && !HasSame(heap, seen, e.argument)
            && (e.receiver == self || e.receiver == e.argument))
  {
    ExitPassRemaining(heap, self, lastSeen, seen);
    ExitPassKept(heap, self, lastSeen, seen);
    ExitPassEvents(heap, self, lastSeen, seen);
  }

  /**
   * One step's diff, for pairwise-unequal previous and current sets: a collider of the
   * previous step with no equal now gets its two exit calls (the mover's, and its own as
   * written), a collider touched now with no equal before gets the two enter calls, and every
   * call is one of these; and the colliders carried to the next step are, up to `equals`,
   * exactly those touched now.
   */
  lemma DiffFacts(heap: map<ColliderId, Collider>, self: ColliderId, lastSeen: seq<ColliderId>, seen: seq<ColliderId>)
    requires Known(heap, lastSeen) && Distinct(heap, lastSeen) && Known(heap, seen) && Distinct(heap, seen)
    ensures var d := Diff(heap, self, lastSeen, seen);
      (forall x :: Exit(self, x) in d.events <==> x in lastSeen && !HasSame(heap, seen, x))
      && (forall x :: Exit(x, x) in d.events <==> x in lastSeen && !HasSame(heap, seen, x))
      && (forall y :: Enter(self, y) in d.events <==> y in seen && !HasSame(heap, lastSeen, y))
      && (forall y :: Enter(y, self) in d.events <==> y in seen && !HasSame(heap, lastSeen, y))
      && (forall e :: e in d.events ==>
            (e.Exit? && e.argument in lastSeen && !HasSame(heap, seen, e.argument)
             && (e.receiver == self || e.receiver == e.argument))
            || (e.Enter? && e.receiver == self && e.argument in seen && !HasSame(heap, lastSeen, e.argument))
            || (e.Enter? && e.argument == self && e.receiver in seen && !HasSame(heap, lastSeen, e.receiver)))
      && Known(heap, d.lastSeen) && Distinct(heap, d.lastSeen)
      && (forall y :: y in seen ==> HasSame(heap, d.lastSeen, y))
      && (forall z :: z in d.lastSeen ==> HasSame(heap, seen, z))
  {
    var st := ExitPass(heap, self, lastSeen, seen);
    ExitPassFacts(heap, self, lastSeen, seen);
    PairEventsMembers(self, st.remaining);
    DiffKeepsDistinct(heap, self, lastSeen, seen);
    DiffMatchesSeen(heap, self, lastSeen, seen);
  }

  /** A collider other than the mover that is touched at both steps is in none of the diff's calls. */
  lemma DiffSkipsStayers(heap: map<ColliderId, Collider>, self: ColliderId, lastSeen: seq<ColliderId>, seen: seq<ColliderId>, z: ColliderId)
    requires Known(heap, lastSeen) && Distinct(heap, lastSeen) && Known(heap, seen) && Distinct(heap, seen)
    ensures z != self && ((z in lastSeen && HasSame(heap, seen, z)) || (z in seen && HasSame(heap, lastSeen, z))) ==>
      forall e :: e in Diff(heap, self, lastSeen, seen).events ==> e.receiver != z && e.argument != z
  {
    DiffFacts(heap, self, lastSeen, seen);
    if z != self && z in lastSeen && HasSame(heap, seen, z) {
      var i :| 0 <= i < |lastSeen| && lastSeen[i] == z;
      assert Same(heap, lastSeen[i], z);
    } else if z != self && z in seen && HasSame(heap, lastSeen, z) {
      var i :| 0 <= i < |seen| && seen[i] == z;
      assert Same(heap, seen[i], z);
    }
  }

  /** The new `lastSeen` holds known colliders, no two of them equal. */
  lemma DiffKeepsDistinct(heap: map<ColliderId, Collider>, self: ColliderId, lastSeen: seq<ColliderId>, seen: seq<ColliderId>)
    requires Known(heap, lastSeen) && Distinct(heap, lastSeen) && Known(heap, seen) && Distinct(heap, seen)
    ensures Known(heap, Diff(heap, self, lastSeen, seen).lastSeen) && Distinct(heap, Diff(heap, self, lastSeen, seen).lastSeen)
  {
    var st := ExitPass(heap, self, lastSeen, seen);
    ExitPassRemaining(heap, self, lastSeen, seen);
    ExitPassKept(heap, self, lastSeen, seen);
    var next := st.kept + st.remaining;
    assert Known(heap, st.kept) by {
      forall i | 0 <= i < |st.kept|
        ensures st.kept[i] in heap
      {
        assert st.kept[i] in lastSeen;
      }
    }
    assert Distinct(heap, st.kept) by {
      ExitPassKeptOrdered(heap, self, lastSeen, seen);
    }
    forall i, j | 0 <= i < j < |next|
      ensures !Same(heap, next[i], next[j])
    {
      if i < |st.kept| && j >= |st.kept| {
        var y := next[j];
        var x := next[i];
        assert y in st.remaining && x in st.kept;
        assert !HasSame(heap, lastSeen, y);
        var k :| 0 <= k < |lastSeen| && lastSeen[k] == x;
        assert !Same(heap, lastSeen[k], y);
      } else if i < |st.kept| {
        assert next[i] == st.kept[i] && next[j] == st.kept[j];
      } else {
        assert next[i] == st.remaining[i - |st.kept|] && next[j] == st.remaining[j - |st.kept|];
      }
    }
  }

  /** Every collider touched now has its match in the new `lastSeen`, and nothing else is in it. */
  lemma DiffMatchesSeen(heap: map<ColliderId, Collider>, self: ColliderId, lastSeen: seq<ColliderId>, seen: seq<ColliderId>)
    requires Known(heap, lastSeen) && Distinct(heap, lastSeen) && Known(heap, seen) && Distinct(heap, seen)
    ensures forall y :: y in seen ==> HasSame(heap, Diff(heap, self, lastSeen, seen).lastSeen, y)
    ensures forall z :: z in Diff(heap, self, lastSeen, seen).lastSeen ==> HasSame(heap, seen, z)
  {
    DiffCoversSeen(heap, self, lastSeen, seen);
    DiffWithinSeen(heap, self, lastSeen, seen);
  }

  /** Every collider touched now has an equal in the new `lastSeen`. */
  lemma DiffCoversSeen(heap: map<ColliderId, Collider>, self: ColliderId, lastSeen: seq<ColliderId>, seen: seq<ColliderId>)
    requires Known(heap, lastSeen) && Distinct(heap, lastSeen) && Known(heap, seen) && Distinct(heap, seen)
    ensures forall y :: y in seen ==> HasSame(heap, Diff(heap, self, lastSeen, seen).lastSeen, y)
  {
    var st := ExitPass(heap, self, lastSeen, seen);
    ExitPassRemaining(heap, self, lastSeen, seen);
    ExitPassKept(heap, self, lastSeen, seen);
    var next := st.kept + st.remaining;
    forall y | y in seen
      ensures HasSame(heap, next, y)
    {
      var k :| 0 <= k < |seen| && seen[k] == y;
      if HasSame(heap, lastSeen, y) {
        var m :| 0 <= m < |lastSeen| && Same(heap, lastSeen[m], y);
        var x := lastSeen[m];
        assert HasSame(heap, seen, x) by {
          assert Same(heap, seen[k], x);
        }
        var n :| 0 <= n < |st.kept| && st.kept[n] == x;
        assert next[n] == x;
      } else {
        var n :| 0 <= n < |st.remaining| && st.remaining[n] == y;
        assert next[|st.kept| + n] == y;
        assert Same(heap, y, y);
      }
    }
  }

  /** Every collider of the new `lastSeen` has an equal among those touched now. */
  lemma DiffWithinSeen(heap: map<ColliderId, Collider>, self: ColliderId, lastSeen: seq<ColliderId>, seen: seq<ColliderId>)
    requires Known(heap, lastSeen) && Distinct(heap, lastSeen) && Known(heap, seen) && Distinct(heap, seen)
    ensures forall z :: z in Diff(heap, self, lastSeen, seen).lastSeen ==> HasSame(heap, seen, z)
  {
    var st := ExitPass(heap, self, lastSeen, seen);
    ExitPassRemaining(heap, self, lastSeen, seen);
    ExitPassKept(heap, self, lastSeen, seen);
    forall z | z in st.kept + st.remaining
      ensures HasSame(heap, seen, z)
    {
      if z in st.remaining {
        var k :| 0 <= k < |seen| && seen[k] == z;
        assert Same(heap, seen[k], z);
      }
    }
  }

  /** The kept colliders of the exit pass appear in the order of `lastSeen`, so they are pairwise unequal. */
  lemma {:induction false} ExitPassKeptOrdered(heap: map<ColliderId, Collider>, self: ColliderId, lastSeen: seq<ColliderId>, seen: seq<ColliderId>)
    requires Known(heap, lastSeen) && Distinct(heap, lastSeen)
    ensures var st := ExitPass(heap, self, lastSeen, seen);
      (forall x :: x in st.kept ==> x in lastSeen) && Distinct(heap, st.kept)
    decreases |lastSeen|
  {
    if lastSeen != [] {
      var init := lastSeen[..|lastSeen| - 1];
      var x := lastSeen[|lastSeen| - 1];
      assert Known(heap, init) && Distinct(heap, init);
      ExitPassKeptOrdered(heap, self, init, seen);
      var st := ExitPass(heap, self, init, seen);
      assert forall y :: y in init ==> y in lastSeen;
      forall y | y in st.kept
        ensures !Same(heap, y, x)
      {
        var k :| 0 <= k < |init| && init[k] == y;
        assert lastSeen[k] == y;
      }
      var kept := st.kept + [x];
      forall i, j | 0 <= i < j < |kept|
        ensures !Same(heap, kept[i], kept[j])
      {
        if j == |st.kept| {
          assert kept[i] in st.kept;
        } else {
          assert kept[i] == st.kept[i] && kept[j] == st.kept[j];
        }
      }
    }
  }

  /** The search of the diff's inner loop: the first current collider equal to `x`, or |s|. */
  method FindSame(heap: map<ColliderId, Collider>, s: seq<ColliderId>, x: ColliderId) returns (j: nat)
    ensures j == if FirstSame(heap, s, x) < 0 then |s| else FirstSame(heap, s, x)
  {
    j := 0;
    while j < |s| && !Same(heap, s[j], x)
      invariant 0 <= j <= |s|
      invariant forall m :: 0 <= m < j ==> !Same(heap, s[m], x)
    {
      j := j + 1;
    }
  }

  /** The diff loops: match each previous collider against the current ones, then greet the newcomers. */
  method DiffStep(heap: map<ColliderId, Collider>, self: ColliderId, lastSeen: seq<ColliderId>, seen: seq<ColliderId>)
    returns (events: seq<Event>, buffer: seq<ColliderId>)
    ensures DiffOutcome(events, buffer) == Diff(heap, self, lastSeen, seen)
  {
    var remaining;
    events, buffer, remaining := ExitSweep(heap, self, lastSeen, seen);
    events, buffer := EnterSweep(self, remaining, events, buffer);
  }

  /** The first loop of the diff: each collider of `lastSeen` either finds its match in `seen` or exits. */
  method ExitSweep(heap: map<ColliderId, Collider>, self: ColliderId, lastSeen: seq<ColliderId>, seen: seq<ColliderId>)
    returns (events: seq<Event>, kept: seq<ColliderId>, remaining: seq<ColliderId>)
    ensures ExitState(events, kept, remaining) == ExitPass(heap, self, lastSeen, seen)
  {
    remaining := seen;
    events := [];
    kept := [];
    for k := 0 to |lastSeen|
      invariant ExitState(events, kept, remaining) == ExitPass(heap, self, lastSeen[..k], seen)
    {
      var x := lastSeen[k];
      var j := FindSame(heap, remaining, x);
      assert lastSeen[..k + 1][..k] == lastSeen[..k];
      if j == |remaining| {
        events := events + ExitEvents(self, x);
      } else {
        remaining := SwapRemove(remaining, j);
        kept := kept + [x];
      }
    }
    assert lastSeen[..|lastSeen|] == lastSeen;
  }

  /** The second loop of the diff: what is left of `seen` enters, and joins the new `lastSeen`. */
  method EnterSweep(self: ColliderId, remaining: seq<ColliderId>, exits: seq<Event>, kept: seq<ColliderId>)
    returns (events: seq<Event>, buffer: seq<ColliderId>)
    ensures events == exits + PairEvents(self, remaining) && buffer == kept + remaining
  {
    events, buffer := exits, kept;
    for k := 0 to |remaining|
      invariant events == exits + PairEvents(self, remaining[..k])
      invariant buffer == kept + remaining[..k]
    {
      assert remaining[..k + 1][..k] == remaining[..k];
      events := events + [Enter(self, remaining[k]), Enter(remaining[k], self)];
      buffer := buffer + [remaining[k]];
    }
    assert remaining[..|remaining|] == remaining;
  }


  // ---------------------------------------------------------------------------------------
  // The collision passes
  // ---------------------------------------------------------------------------------------

  /** The lists of the given cells of a layer, concatenated in cell order. */
  function CellContents(layer: Layer, cells: seq<Cell>): (r: seq<ColliderId>)
    decreases |cells|
  {
    if cells == [] then [] else CellContents(layer, cells[..|cells| - 1]) + CellAt(layer, cells[|cells| - 1])
  }

  /** Which edge test a pass runs on a candidate. */
  datatype EdgeTest =
    | AcrossVerticalSides(left: Point, right: Point)
    | AcrossHorizontalSides(down: Point, up: Point)
    | BoxEdges(upLeft: Point, upRight: Point, downLeft: Point, downRight: Point)

  predicate Detects(test: EdgeTest, other: Collider)
  {
    match test
    case AcrossVerticalSides(l, r) => VerticalEdgeIntersec(l, r, other)
    case AcrossHorizontalSides(d, u) => HorizontalEdgeIntersec(d, u, other)
    case BoxEdges(ul, ur, dl, dr) =>
      VerticalEdgeIntersec(ul, ur, other) || VerticalEdgeIntersec(dl, dr, other)
      || HorizontalEdgeIntersec(dl, ul, other) || HorizontalEdgeIntersec(dr, ur, other)
  }

  /** A candidate is reported when it is not equal to the mover, has no ignored tag, and the test detects it. */
  predicate Reported(heap: map<ColliderId, Collider>, me: Collider, ignore: seq<Tag>, test: EdgeTest, x: ColliderId)
  {
    x in heap && !Equals(me, heap[x]) && !AnyOverlap(ignore, heap[x].tags) && Detects(test, heap[x])
  }

  /** The candidates a pass reports, in scan order. */
  function Scan(heap: map<ColliderId, Collider>, xs: seq<ColliderId>, me: Collider, ignore: seq<Tag>, test: EdgeTest): (r: seq<ColliderId>)
    ensures forall x :: x in r <==> x in xs && Reported(heap, me, ignore, test, x)
    ensures Known(heap, r)
    decreases |xs|
  {
    if xs == [] then []
    else
      var rest := Scan(heap, xs[..|xs| - 1], me, ignore, test);
      var x := xs[|xs| - 1];
      assert forall y :: y in xs <==> y in xs[..|xs| - 1] || y == x;
      if Reported(heap, me, ignore, test, x) then rest + [x] else rest
  }

  /** Two movers that differ only in their Ignore tags scan alike when no ignore filter is applied. */
  lemma {:induction false} ScanIgnoresMoverIgnore(heap: map<ColliderId, Collider>, xs: seq<ColliderId>, me: Collider, other: seq<Tag>, test: EdgeTest)
    ensures Scan(heap, xs, me, [], test) == Scan(heap, xs, me.(ignore := other), [], test)
    decreases |xs|
  {
    if xs != [] {
      ScanIgnoresMoverIgnore(heap, xs[..|xs| - 1], me, other, test);
    }
  }

  /** The mover's leading edges at `cur`: the horizontal one and the vertical one facing the motion. */
  datatype Probe = Probe(hLeft: Point, hRight: Point, vDown: Point, vUp: Point)

  function LeadingEdges(me: Collider, cur: Point, towardX: bool, towardY: bool): (p: Probe)
    requires Sized(me)
    ensures p.hLeft.x <= p.hRight.x && p.hLeft.y == p.hRight.y
    ensures p.vDown.y <= p.vUp.y && p.vDown.x == p.vUp.x
  {
    var sideX := if towardX then cur.x + me.width / 2.0 else cur.x - me.width / 2.0;
    var sideY := if towardY then cur.y + me.height / 2.0 else cur.y - me.height / 2.0;
    Probe(Point(cur.x - me.width / 2.0, sideY), Point(cur.x + me.width / 2.0, sideY),
          Point(sideX, cur.y - me.height / 2.0), Point(sideX, cur.y + me.height / 2.0))
  }

  /** One layer's share of a pass: the horizontal edge's cells, then the vertical edge's cells. */
  function ProbeLayer(heap: map<ColliderId, Collider>, layer: Layer, me: Collider, ignore: seq<Tag>, p: Probe): (r: seq<ColliderId>)
    requires WellChunked(layer) && p.hLeft.x <= p.hRight.x && p.vDown.y <= p.vUp.y
    ensures Known(heap, r)
  {
    Scan(heap, CellContents(layer, HorizontalEdgeIds(p.hLeft, p.hRight, layer)), me, ignore, AcrossVerticalSides(p.hLeft, p.hRight))
    + Scan(heap, CellContents(layer, VerticalEdgeIds(p.vDown, p.vUp, layer)), me, ignore, AcrossHorizontalSides(p.vDown, p.vUp))
  }

  /** The blocking pass: every layer of the mover's Block tags, in order, with no ignore filter. */
  function BlockHits(heap: map<ColliderId, Collider>, layers: map<Tag, Layer>, me: Collider, blocks: seq<Tag>, p: Probe): (r: seq<ColliderId>)
    requires AllWellChunked(layers) && forall t :: t in blocks ==> t in layers
    requires p.hLeft.x <= p.hRight.x && p.vDown.y <= p.vUp.y
    ensures Known(heap, r)
    ensures forall x :: x in r ==> !Equals(me, heap[x])
    decreases |blocks|
  {
    if blocks == [] then []
    else BlockHits(heap, layers, me, blocks[..|blocks| - 1], p) + ProbeLayer(heap, layers[blocks[|blocks| - 1]], me, [], p)
  }

  /** The blocking pass does not look at the mover's Ignore tags: changing them changes nothing. */
  lemma {:induction false} BlockingDisregardsIgnore(heap: map<ColliderId, Collider>, layers: map<Tag, Layer>, me: Collider, blocks: seq<Tag>, p: Probe, other: seq<Tag>)
    requires AllWellChunked(layers) && forall t :: t in blocks ==> t in layers
    requires p.hLeft.x <= p.hRight.x && p.vDown.y <= p.vUp.y
    ensures BlockHits(heap, layers, me, blocks, p) == BlockHits(heap, layers, me.(ignore := other), blocks, p)
    decreases |blocks|
  {
    if blocks != [] {
      BlockingDisregardsIgnore(heap, layers, me, blocks[..|blocks| - 1], p, other);
      var layer := layers[blocks[|blocks| - 1]];
      ScanIgnoresMoverIgnore(heap, CellContents(layer, HorizontalEdgeIds(p.hLeft, p.hRight, layer)), me, other, AcrossVerticalSides(p.hLeft, p.hRight));
      ScanIgnoresMoverIgnore(heap, CellContents(layer, VerticalEdgeIds(p.vDown, p.vUp, layer)), me, other, AcrossHorizontalSides(p.vDown, p.vUp));
    }
  }

  /** What a move holds fixed: the registry as the move found it, the mover, its target and its directions. */
  datatype MoveContext = MoveContext(layers: map<Tag, Layer>, heap: map<ColliderId, Collider>, self: ColliderId,
                                     me: Collider, final: Point, towardX: bool, towardY: bool)

  predicate ContextOk(ctx: MoveContext)
  {
    AllColliders in ctx.layers && AllWellChunked(ctx.layers) && Sized(ctx.me)
    && forall t :: t in ctx.me.block ==> t in ctx.layers
  }

  /** The notification pass: the AllColliders layer, skipping colliders with an ignored tag. */
  function NoticeHits(ctx: MoveContext, p: Probe): (r: seq<ColliderId>)
    requires ContextOk(ctx) && p.hLeft.x <= p.hRight.x && p.vDown.y <= p.vUp.y
    ensures Known(ctx.heap, r)
  {
    ProbeLayer(ctx.heap, ctx.layers[AllColliders], ctx.me, ctx.me.ignore, p)
  }

  /** The notification pass reports no collider carrying one of the mover's Ignore tags. */
  lemma NoticeHonoursIgnore(ctx: MoveContext, p: Probe, x: ColliderId)
    requires ContextOk(ctx) && p.hLeft.x <= p.hRight.x && p.vDown.y <= p.vUp.y
    requires x in NoticeHits(ctx, p)
    ensures x in ctx.heap && !AnyOverlap(ctx.me.ignore, ctx.heap[x].tags) && !Equals(ctx.me, ctx.heap[x])
  {
  }

  /**
   * The seeding pass at the start position: the colliders in the mover's footprint cells of the
   * AllColliders layer, without an ignored tag, touched by any of the mover's four edges.
   */
  function SeedHits(ctx: MoveContext): (r: seq<ColliderId>)
    requires ContextOk(ctx)
    ensures Known(ctx.heap, r)
    ensures forall x :: x in r ==> !AnyOverlap(ctx.me.ignore, ctx.heap[x].tags) && !Equals(ctx.me, ctx.heap[x])
  {
    var me := ctx.me;
    var all := ctx.layers[AllColliders];
    var w := me.width / 2.0;
    var h := me.height / 2.0;
    var test := BoxEdges(Point(me.center.x - w, me.center.y + h), Point(me.center.x + w, me.center.y + h),
                         Point(me.center.x - w, me.center.y - h), Point(me.center.x + w, me.center.y - h));
    Scan(ctx.heap, CellContents(all, Footprint(all, me.center, me.width, me.height)), me, me.ignore, test)
  }

  // ---------------------------------------------------------------------------------------
  // Steps
  // ---------------------------------------------------------------------------------------

  function Abs(x: real): real
  {
    if x < 0.0 then -x else x
  }

  function MinReal(a: real, b: real): real
  {
    if a <= b then a else b
  }

  function Ceil(z: real): (r: int)
    ensures z <= r as real < z + 1.0
  {
    -((-z).Floor)
  }

  /** How many steps of size `d` cover the distance `r`. */
  function Steps(r: real, d: real): nat
  {
    if r <= 0.0 || d <= 0.0 then 0 else Ceil(r / d)
  }

  lemma DivShift(r: real, d: real)
    requires d > 0.0
    ensures (r - d) / d == r / d - 1.0
  {
    var a := (r - d) / d - (r / d - 1.0);
    assert a * d == 0.0;
    if a > 0.0 {
      assert false;
    } else if a < 0.0 {
      assert false;
    }
  }

  /** One axis: clamp the step to what is left, then take it; the step count drops when anything was left. */
  lemma AxisStep(r: real, d: real)
    requires r >= 0.0 && d >= 0.0 && (r > 0.0 ==> d > 0.0)
    ensures var d' := MinReal(d, r); var r' := r - d';
      0.0 <= d' <= d && r' >= 0.0 && (r' > 0.0 ==> d' > 0.0)
      && Steps(r', d') <= Steps(r, d) && (r > 0.0 ==> Steps(r', d') < Steps(r, d))
  {
    if r > d {
      var z := r / d;
      DivShift(r, d);
      assert Ceil(z - 1.0) == Ceil(z) - 1;
    }
  }

  /**
   * The mover is on its way: `cur` lies between where it started and the target on each
   * axis, and each axis with distance left has a positive step.
   */
  predicate OnTrack(ctx: MoveContext, cur: Point, dx: real, dy: real)
  {
    dx >= 0.0 && dy >= 0.0
    && (if ctx.towardX then cur.x <= ctx.final.x else ctx.final.x <= cur.x)
    && (if ctx.towardY then cur.y <= ctx.final.y else ctx.final.y <= cur.y)
    && (cur.x != ctx.final.x ==> dx > 0.0) && (cur.y != ctx.final.y ==> dy > 0.0)
  }

  /** `q` lies between `p` and the target on each axis. */
  predicate Ahead(ctx: MoveContext, p: Point, q: Point)
  {
    (if ctx.towardX then p.x <= q.x <= ctx.final.x else ctx.final.x <= q.x <= p.x)
    && (if ctx.towardY then p.y <= q.y <= ctx.final.y else ctx.final.y <= q.y <= p.y)
  }

  function Measure(ctx: MoveContext, cur: Point, dx: real, dy: real): nat
  {
    Steps(Abs(ctx.final.x - cur.x), dx) + Steps(Abs(ctx.final.y - cur.y), dy)
  }

  datatype StepState = StepState(cur: Point, dx: real, dy: real)

  /** One step: each axis's step is clamped to what is left, then the center moves toward the target. */
  function Advance(ctx: MoveContext, cur: Point, dx: real, dy: real): StepState
  {
    var dx' := MinReal(dx, Abs(ctx.final.x - cur.x));
    var dy' := MinReal(dy, Abs(ctx.final.y - cur.y));
    StepState(Point(if ctx.towardX then cur.x + dx' else cur.x - dx', if ctx.towardY then cur.y + dy' else cur.y - dy'), dx', dy')
  }

  /**
   * A step moves each axis by at most its step, toward the target and never past it, keeps
   * the mover on its way, and brings it strictly closer in steps.
   */
  lemma AdvanceFacts(ctx: MoveContext, cur: Point, dx: real, dy: real)
    requires OnTrack(ctx, cur, dx, dy) && cur != ctx.final
    ensures var s := Advance(ctx, cur, dx, dy);
      OnTrack(ctx, s.cur, s.dx, s.dy) && Ahead(ctx, cur, s.cur)
      && Abs(s.cur.x - cur.x) <= dx && Abs(s.cur.y - cur.y) <= dy
      && Measure(ctx, s.cur, s.dx, s.dy) < Measure(ctx, cur, dx, dy)
  {
    var rx := Abs(ctx.final.x - cur.x);
    var ry := Abs(ctx.final.y - cur.y);
    AxisStep(rx, dx);
    AxisStep(ry, dy);
    var s := Advance(ctx, cur, dx, dy);
    assert Abs(ctx.final.x - s.cur.x) == rx - s.dx;
    assert Abs(ctx.final.y - s.cur.y) == ry - s.dy;
  }

  // ---------------------------------------------------------------------------------------
  // The sweep
  // ---------------------------------------------------------------------------------------

  /** Where the move ends, the callbacks it makes, and whether a blocker stopped it. */
  datatype SweepOutcome = SweepOutcome(point: Point, events: seq<Event>, blocked: bool)

  /** The outcome of the rest of a move, after the callbacks of the steps before it. */
  function Prefixed(log: seq<Event>, o: SweepOutcome): (r: SweepOutcome)
    ensures r.point == o.point && r.blocked == o.blocked && |r.events| == |log| + |o.events|
  {
    SweepOutcome(o.point, log + o.events, o.blocked)
  }

  lemma PrefixedTwice(a: seq<Event>, b: seq<Event>, o: SweepOutcome)
    ensures Prefixed(a, Prefixed(b, o)) == Prefixed(a + b, o)
  {
    assert a + (b + o.events) == (a + b) + o.events;
  }

  /** The deduplicated colliders touched at the start position. */
  function Seeds(ctx: MoveContext): seq<ColliderId>
    requires ContextOk(ctx)
  {
    Dedupe(ctx.heap, SeedHits(ctx))
  }

  /**
   * The step loop from `cur`: at the target it stops; otherwise it takes a step, stops at the
   * previous position with enter calls for each distinct blocker if the blocking pass hits
   * anything, and else diffs the notification pass against `lastSeen` and goes on.
   */
  function Sweep(ctx: MoveContext, cur: Point, dx: real, dy: real, lastSeen: seq<ColliderId>): SweepOutcome
    requires ContextOk(ctx) && OnTrack(ctx, cur, dx, dy)
    decreases Measure(ctx, cur, dx, dy)
  {
    if cur == ctx.final then SweepOutcome(cur, [], false)
    else
      AdvanceFacts(ctx, cur, dx, dy);
      var s := Advance(ctx, cur, dx, dy);
      var p := LeadingEdges(ctx.me, s.cur, ctx.towardX, ctx.towardY);
      var blockers := Dedupe(ctx.heap, BlockHits(ctx.heap, ctx.layers, ctx.me, ctx.me.block, p));
      if blockers != [] then SweepOutcome(cur, PairEvents(ctx.self, blockers), true)
      else
        var d := Diff(ctx.heap, ctx.self, lastSeen, Dedupe(ctx.heap, NoticeHits(ctx, p)));
        Prefixed(d.events, Sweep(ctx, s.cur, s.dx, s.dy, d.lastSeen))
  }

  /**
   * The move ends between its start and the target on each axis; an unblocked move ends on
   * the target.
   */
  lemma {:induction false} SweepEnds(ctx: MoveContext, cur: Point, dx: real, dy: real, lastSeen: seq<ColliderId>)
    requires ContextOk(ctx) && OnTrack(ctx, cur, dx, dy)
    ensures var o := Sweep(ctx, cur, dx, dy, lastSeen);
      Ahead(ctx, cur, o.point) && (!o.blocked ==> o.point == ctx.final)
    decreases Measure(ctx, cur, dx, dy)
  {
    if cur != ctx.final {
      AdvanceFacts(ctx, cur, dx, dy);
      var s := Advance(ctx, cur, dx, dy);
      var p := LeadingEdges(ctx.me, s.cur, ctx.towardX, ctx.towardY);
      var blockers := Dedupe(ctx.heap, BlockHits(ctx.heap, ctx.layers, ctx.me, ctx.me.block, p));
      if blockers == [] {
        var d := Diff(ctx.heap, ctx.self, lastSeen, Dedupe(ctx.heap, NoticeHits(ctx, p)));
        SweepEnds(ctx, s.cur, s.dx, s.dy, d.lastSeen);
      }
    }
  }

  /**
   * A blocked step calls OnEnterCollision on both sides for each distinct blocker: each
   * blocker of the pass has an equal among those greeted, and no two greeted are equal.
   */
  lemma BlockedStepEvents(ctx: MoveContext, p: Probe)
    requires ContextOk(ctx) && p.hLeft.x <= p.hRight.x && p.vDown.y <= p.vUp.y
    ensures var hits := BlockHits(ctx.heap, ctx.layers, ctx.me, ctx.me.block, p);
            var blockers := Dedupe(ctx.heap, hits);
      Distinct(ctx.heap, blockers) && (forall x :: x in hits ==> HasSame(ctx.heap, blockers, x))
      && (forall b :: b in blockers ==>
            Enter(ctx.self, b) in PairEvents(ctx.self, blockers) && Enter(b, ctx.self) in PairEvents(ctx.self, blockers))
      && |PairEvents(ctx.self, blockers)| == 2 * |blockers|
  {
    var hits := BlockHits(ctx.heap, ctx.layers, ctx.me, ctx.me.block, p);
    DedupeFacts(ctx.heap, hits);
    PairEventsMembers(ctx.self, Dedupe(ctx.heap, hits));
  }

  /** The starting set of touched colliders is pairwise unequal and registered. */
  lemma SeedsFacts(ctx: MoveContext)
    requires ContextOk(ctx)
    ensures Known(ctx.heap, Seeds(ctx)) && Distinct(ctx.heap, Seeds(ctx))
    ensures forall x :: x in SeedHits(ctx) ==> HasSame(ctx.heap, Seeds(ctx), x)
  {
    DedupeFacts(ctx.heap, SeedHits(ctx));
  }

  /** The head of a step: clamp each axis's step to what is left, then move toward the target. */
  method ClampedStep(ctx: MoveContext, cur: Point, dx: real, dy: real) returns (next: StepState)
    ensures next == Advance(ctx, cur, dx, dy)
  {
    var stepX := MinReal(dx, Abs(ctx.final.x - cur.x));
    var stepY := MinReal(dy, Abs(ctx.final.y - cur.y));
    var moved := Point(if ctx.towardX then cur.x + stepX else cur.x - stepX,
                       if ctx.towardY then cur.y + stepY else cur.y - stepY);
    next := StepState(moved, stepX, stepY);
  }

  /**
   * One pass of the step loop: take the clamped step, run the blocking pass at the new leading
   * edges, and if nothing blocks run the notification pass and the diff.
   */
  method StepOnce(ctx: MoveContext, cur: Point, dx: real, dy: real, lastSeen: seq<ColliderId>)
    returns (blocked: bool, events: seq<Event>, next: StepState, nextSeen: seq<ColliderId>)
    requires ContextOk(ctx) && OnTrack(ctx, cur, dx, dy) && cur != ctx.final
    ensures next == Advance(ctx, cur, dx, dy) && OnTrack(ctx, next.cur, next.dx, next.dy)
    ensures Measure(ctx, next.cur, next.dx, next.dy) < Measure(ctx, cur, dx, dy)
    ensures blocked ==> Sweep(ctx, cur, dx, dy, lastSeen) == SweepOutcome(cur, events, true)
    ensures !blocked ==> Sweep(ctx, cur, dx, dy, lastSeen) == Prefixed(events, Sweep(ctx, next.cur, next.dx, next.dy, nextSeen))
  {
    AdvanceFacts(ctx, cur, dx, dy);
    next := ClampedStep(ctx, cur, dx, dy);
    var p := LeadingEdges(ctx.me, next.cur, ctx.towardX, ctx.towardY);
    var blockers := Collect(ctx.heap, BlockHits(ctx.heap, ctx.layers, ctx.me, ctx.me.block, p));
    if blockers != [] {
      return true, PairEvents(ctx.self, blockers), next, lastSeen;
    }
    var seen := Collect(ctx.heap, NoticeHits(ctx, p));
    blocked := false;
    events, nextSeen := DiffStep(ctx.heap, ctx.self, lastSeen, seen);
  }

  /** The step loop of MoveCollider, from the start position until the target or a blocker. */
  method Sweeping(ctx: MoveContext, start: Point, dx: real, dy: real, seeds: seq<ColliderId>)
    returns (r: Point, log: seq<Event>, blocked: bool)
    requires ContextOk(ctx) && OnTrack(ctx, start, dx, dy)
    ensures SweepOutcome(r, log, blocked) == Sweep(ctx, start, dx, dy, seeds)
  {
    var cur, stepX, stepY, lastSeen := start, dx, dy, seeds;
    log := [];
    while cur != ctx.final
      invariant OnTrack(ctx, cur, stepX, stepY)
      invariant Sweep(ctx, start, dx, dy, seeds) == Prefixed(log, Sweep(ctx, cur, stepX, stepY, lastSeen))
      decreases Measure(ctx, cur, stepX, stepY)
    {
      var stop, events, next, nextSeen := StepOnce(ctx, cur, stepX, stepY, lastSeen);
      if stop {
        return cur, log + events, true;
      }
      PrefixedTwice(log, events, Sweep(ctx, next.cur, next.dx, next.dy, nextSeen));
      log := log + events;
      cur, stepX, stepY, lastSeen := next.cur, next.dx, next.dy, nextSeen;
    }
    return cur, log, false;
  }

  /**
   * MoveCollider: a move to the current center does nothing. Otherwise the mover sweeps
   * toward `finalCenter` with the step (`dx`, `dy`), its center is set to where the sweep
   * ends, the callbacks are logged, and the registry re-indexes it from its initial center
   * (updateColliderInMap as written).
   */
  method MoveCollider(w: CollisionWorld, self: ColliderId, finalCenter: Point, dx: real, dy: real) returns (r: Point)
    requires w.Valid() && self in w.heap
    requires forall t :: t in w.heap[self].block ==> t in w.layers
    requires dx >= 0.0 && dy >= 0.0
    requires finalCenter != w.heap[self].center ==>
      (dx > 0.0 <==> finalCenter.x != w.heap[self].center.x) && (dy > 0.0 <==> finalCenter.y != w.heap[self].center.y)
    modifies w
    ensures w.Valid()
    ensures finalCenter == old(w.heap[self].center) ==>
      r == finalCenter && w.heap == old(w.heap) && w.layers == old(w.layers) && w.events == old(w.events)
    ensures finalCenter != old(w.heap[self].center) ==>
      var me := old(w.heap[self]);
      var ctx := MoveContext(old(w.layers), old(w.heap), self, me, finalCenter,
                             finalCenter.x - me.center.x > 0.0, finalCenter.y - me.center.y > 0.0);
      ContextOk(ctx) && OnTrack(ctx, me.center, dx, dy)
      && var o := Sweep(ctx, me.center, dx, dy, Seeds(ctx));
      r == o.point && w.events == old(w.events) + o.events
      && w.heap == old(w.heap)[self := me.(center := r)]
      && w.layers == MapsAfter(old(w.layers), w.heap[self], self,
                               Move(me.center, EqualIds(w.heap, w.heap[self])), Reinsert(me.center, EqualIds(w.heap, w.heap[self])))
  {
    var me := w.heap[self];
    var start := me.center;
    if finalCenter == start {
      return start;
    }
    var ctx := MoveContext(w.layers, w.heap, self, me, finalCenter,
                           finalCenter.x - start.x > 0.0, finalCenter.y - start.y > 0.0);
    var seeds := Collect(w.heap, SeedHits(ctx));
    var log, blocked;
    r, log, blocked := Sweeping(ctx, start, dx, dy, seeds);
    Settle(w, self, r, log);
  }

  /**
   * The end of a move: the callbacks are logged, the mover takes its new center, and the
   * deferred updateColliderInMap re-indexes it from the center it had before.
   */
  method Settle(w: CollisionWorld, self: ColliderId, r: Point, log: seq<Event>)
    requires w.Valid() && self in w.heap
    modifies w
    ensures w.Valid()
    ensures w.events == old(w.events) + log
    ensures w.heap == old(w.heap)[self := old(w.heap[self]).(center := r)]
    ensures w.layers == MapsAfter(old(w.layers), w.heap[self], self,
      Move(old(w.heap[self]).center, EqualIds(w.heap, w.heap[self])),
      Reinsert(old(w.heap[self]).center, EqualIds(w.heap, w.heap[self])))
  {
    var start := w.heap[self].center;
    w.events := w.events + log;
    w.heap := w.heap[self := w.heap[self].(center := r)];
    w.UpdateColliderInMap(self, start);
  }
}
