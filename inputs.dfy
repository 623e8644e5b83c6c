/**
 * The input manager of internal/inputs/inputs.go. GLFW callbacks push key actions into a queue;
 * once per frame `Notify` drains the queue, turning the actions into key-state changes and
 * dispatching each change to the listeners subscribed to that key. Listeners are held through
 * weak pointers: a listener the garbage collector has reclaimed is pruned from its list when a
 * walk over the list meets it.
 */
module Inputs {
  import opened Wrappers
  import opened Keys
  import opened Utils

  /** One queued GLFW event. */
  datatype KeyAction = KeyAction(key: Key, action: Action)

  /** A `weak.Pointer[InputListener]`, by the identity of the listener it was made from. */
  type ListenerId = nat

  /** One `OnKeyAction` call started by `Notify`. */
  datatype Delivery = Delivery(listener: ListenerId, action: Action)

  /**
   * How Unsubscribe ends: it returns its error value, or it panics dereferencing a reclaimed
   * weak pointer while formatting its warning.
   */
  datatype UnsubscribeEnd = Returned(err: Outcome) | NilDereference

  /** The capacity the action queue is created with, and re-created with after every frame. */
  const InputManagerQueueSize: nat := 10

  /** The keys that have a listener list (and an initial key state). */
  const TrackedKeys: set<Key> := {KeyW, KeyA, KeyS, KeyD, KeyEscape, LMB, RMB}

  /** A missing key reads as Go's zero value, Inactive. */
  function StateOf(states: map<Key, KeyState>, key: Key): KeyState
  {
    if key in states then states[key] else Inactive
  }

  /** One `OnKeyAction(action)` call per listener, front to back. */
  function Deliveries(listeners: seq<ListenerId>, action: Action): (r: seq<Delivery>)
    ensures |r| == |listeners|
    ensures forall d :: d in r ==> d.listener in listeners && d.action == action
    ensures forall i :: 0 <= i < |r| ==> r[i] == Delivery(listeners[i], action)
    decreases |listeners|
  {
    if listeners == [] then []
    else Deliveries(listeners[..|listeners| - 1], action) + [Delivery(listeners[|listeners| - 1], action)]
  }

  /**
   * The walk of Unsubscribe over a listener list, front to back: reclaimed listeners met on
   * the way are removed; the first live occurrence of `w` is removed and the walk stops. The
   * flag says whether `w` was found.
   */
  function UnsubscribeWalk(l: seq<ListenerId>, w: ListenerId, collected: set<ListenerId>): (r: (seq<ListenerId>, bool))
  {
    if l == [] then ([], false)
    else if l[0] in collected then UnsubscribeWalk(l[1..], w, collected)
    else if l[0] == w then (l[1..], true)
    else
      var rest := UnsubscribeWalk(l[1..], w, collected);
      ([l[0]] + rest.0, rest.1)
  }

  /** Position of the first occurrence of `w`. */
  function IndexOf(l: seq<ListenerId>, w: ListenerId): (i: nat)
    requires w in l
    ensures i < |l| && l[i] == w && w !in l[..i]
  {
    if l[0] == w then 0
    else
      assert w in l[1..];
      var j := IndexOf(l[1..], w);
      assert l[..j + 1] == [l[0]] + l[1..][..j];
      j + 1
  }

  /** The walk finds `w` exactly when it occurs in the list and is still live. */
  lemma {:induction false} UnsubscribeWalkFinds(l: seq<ListenerId>, w: ListenerId, collected: set<ListenerId>)
    ensures UnsubscribeWalk(l, w, collected).1 <==> w in l && w !in collected
  {
    if l != [] {
      UnsubscribeWalkFinds(l[1..], w, collected);
      assert l == [l[0]] + l[1..];
    }
  }

  /**
   * A found `w`: the listeners before its first occurrence lose their reclaimed entries, that
   * occurrence goes, and the ones after it are untouched.
   */
  lemma {:induction false} UnsubscribeWalkHit(l: seq<ListenerId>, w: ListenerId, collected: set<ListenerId>)
    requires w in l && w !in collected
    ensures UnsubscribeWalk(l, w, collected).0 == DeleteFunc(l[..IndexOf(l, w)], collected) + l[IndexOf(l, w) + 1..]
  {
    var t := l[1..];
    if l[0] == w {
      assert l[..0] == [];
    } else {
      assert w in t;
      UnsubscribeWalkHit(t, w, collected);
      var j := IndexOf(t, w);
      assert IndexOf(l, w) == j + 1;
      assert l[..j + 1] == [l[0]] + t[..j];
      DeleteFuncCons(l[0], t[..j], collected);
      assert l[j + 2..] == t[j + 1..];
    }
  }

  /** A missing or reclaimed `w`: the whole list loses its reclaimed entries. */
  lemma {:induction false} UnsubscribeWalkMiss(l: seq<ListenerId>, w: ListenerId, collected: set<ListenerId>)
    requires !(w in l && w !in collected)
    ensures UnsubscribeWalk(l, w, collected).0 == DeleteFunc(l, collected)
  {
    if l != [] {
      var t := l[1..];
      assert l == [l[0]] + t;
      UnsubscribeWalkMiss(t, w, collected);
      DeleteFuncCons(l[0], t, collected);
    }
  }

  /** What Unsubscribe does to a list, both outcomes together. */
  lemma UnsubscribeWalkResult(l: seq<ListenerId>, w: ListenerId, collected: set<ListenerId>)
    ensures UnsubscribeWalk(l, w, collected).1 <==> w in l && w !in collected
    ensures w in l && w !in collected ==>
      UnsubscribeWalk(l, w, collected).0 == DeleteFunc(l[..IndexOf(l, w)], collected) + l[IndexOf(l, w) + 1..]
    ensures !(w in l && w !in collected) ==> UnsubscribeWalk(l, w, collected).0 == DeleteFunc(l, collected)
  {
    UnsubscribeWalkFinds(l, w, collected);
    if w in l && w !in collected {
      UnsubscribeWalkHit(l, w, collected);
    } else {
      UnsubscribeWalkMiss(l, w, collected);
    }
  }

  /** Subscribing and then unsubscribing a live listener gives the list back unchanged. */
  lemma SubscribeUnsubscribeRoundTrip(l: seq<ListenerId>, w: ListenerId, collected: set<ListenerId>)
    requires w !in collected
    ensures UnsubscribeWalk([w] + l, w, collected) == (l, true)
  {
    assert ([w] + l)[1..] == l;
  }

  /** What `dirtyPop` leaves: the action it returns, if any, the rest of the queue, the key states. */
  datatype PopResult = PopResult(popped: Option<KeyAction>, queue: seq<KeyAction>, states: map<Key, KeyState>)

  /**
   * dirtyPop: takes actions off the front of the queue until one changes a key state. A
   * Release always does (the key becomes Inactive); a Press does unless the key is already
   * Pressed; every other action is dropped.
   */
  function Pop(queue: seq<KeyAction>, states: map<Key, KeyState>): (r: PopResult)
    ensures |r.queue| <= |queue|
    ensures r.popped.None? ==> r.queue == [] && r.states == states
    ensures r.popped.Some? ==>
      var ka := r.popped.value;
      |r.queue| < |queue| && ka == queue[|queue| - |r.queue| - 1] && Changes(states, ka)
      && r.states == states[ka.key := if ka.action == Release then Inactive else Pressed]
  {
    if queue == [] then PopResult(None, [], states)
    else
      var ka := queue[0];
      if ka.action == Release then PopResult(Some(ka), queue[1..], states[ka.key := Inactive])
      else if ka.action == Press && StateOf(states, ka.key) == Inactive then
        PopResult(Some(ka), queue[1..], states[ka.key := Pressed])
      else
        Pop(queue[1..], states)
  }

  /** Whether an action changes its key's state: a Release, or a Press of a key that is Inactive. */
  predicate Changes(states: map<Key, KeyState>, ka: KeyAction)
  {
    ka.action == Release || (ka.action == Press && StateOf(states, ka.key) == Inactive)
  }

  /**
   * The FIFO rule of dirtyPop: what is left is a suffix of the queue, and every action consumed
   * before the one returned changes nothing. So the action returned is the first one that
   * changes a state, and nothing is returned only when no queued action changes a state.
   */
  lemma {:induction false} PopIsFirstChange(queue: seq<KeyAction>, states: map<Key, KeyState>)
    ensures var r := Pop(queue, states);
      r.queue == queue[|queue| - |r.queue|..]
      && forall i :: 0 <= i < |queue| - |r.queue| - (if r.popped.Some? then 1 else 0) ==> !Changes(states, queue[i])
    decreases |queue|
  {
    if queue != [] && !Changes(states, queue[0]) {
      var tail := queue[1..];
      PopIsFirstChange(tail, states);
      var r := Pop(queue, states);
      assert r == Pop(tail, states);
      assert r.queue == tail[|tail| - |r.queue|..];
      forall i | 1 <= i < |queue| - |r.queue| - (if r.popped.Some? then 1 else 0)
        ensures !Changes(states, queue[i])
      {
        assert queue[i] == tail[i - 1];
      }
    }
  }

  /** A second Press of a key that is already held is swallowed: only the Release behind it comes out. */
  lemma RepeatedPressIsSwallowed(states: map<Key, KeyState>, key: Key, rest: seq<KeyAction>)
    requires StateOf(states, key) == Pressed
    ensures Pop([KeyAction(key, Press), KeyAction(key, Release)] + rest, states)
         == PopResult(Some(KeyAction(key, Release)), rest, states[key := Inactive])
  {
    var q := [KeyAction(key, Press), KeyAction(key, Release)] + rest;
    assert q[1..] == [KeyAction(key, Release)] + rest;
    assert q[1..][1..] == rest;
  }

  /** Dispatching to one more listener appends one call. */
  lemma DeliveriesSnoc(listeners: seq<ListenerId>, w: ListenerId, action: Action)
    ensures Deliveries(listeners + [w], action) == Deliveries(listeners, action) + [Delivery(w, action)]
  {
    assert (listeners + [w])[..|listeners|] == listeners;
  }

  /** Key states, listener lists and dispatched calls after draining a queue. */
  datatype NotifyResult = NotifyResult(states: map<Key, KeyState>, listeners: map<Key, seq<ListenerId>>, deliveries: seq<Delivery>)

  /** The state after one round of the Notify loop, and whether the pop yielded an action. */
  datatype Round = Round(ok: bool, queue: seq<KeyAction>, states: map<Key, KeyState>,
                         listeners: map<Key, seq<ListenerId>>, sent: seq<Delivery>)

  /**
   * One round of Notify: pop an action; if its key has a listener list, prune the reclaimed
   * listeners from that list and dispatch the action to every live one, front to back.
   */
  function NotifyRound(queue: seq<KeyAction>, states: map<Key, KeyState>, listeners: map<Key, seq<ListenerId>>,
                       collected: set<ListenerId>): (r: Round)
    ensures r.ok ==> |r.queue| < |queue|
    ensures !r.ok ==> r.queue == [] && r.states == states && r.listeners == listeners && r.sent == []
    ensures r.listeners.Keys == listeners.Keys
    ensures forall d :: d in r.sent ==> d.listener !in collected
  {
    var p := Pop(queue, states);
    if p.popped.None? then Round(false, p.queue, p.states, listeners, [])
    else
      var ka := p.popped.value;
      if ka.key !in listeners then Round(true, p.queue, p.states, listeners, [])
      else
        var kept := DeleteFunc(listeners[ka.key], collected);
        Round(true, p.queue, p.states, listeners[ka.key := kept], Deliveries(kept, ka.action))
  }

  /**
   * What a round promises its listeners: when the popped action's key has a list, the action
   * goes to exactly the live listeners of that list, and no call carries another action.
   */
  lemma {:induction false} RoundReachesLiveListeners(queue: seq<KeyAction>, states: map<Key, KeyState>,
                                                     listeners: map<Key, seq<ListenerId>>, collected: set<ListenerId>, w: ListenerId)
    ensures var p := Pop(queue, states);
      var r := NotifyRound(queue, states, listeners, collected);
      p.popped.Some? && p.popped.value.key in listeners ==>
        (forall d :: d in r.sent ==> d.action == p.popped.value.action)
        && (Delivery(w, p.popped.value.action) in r.sent <==> w in listeners[p.popped.value.key] && w !in collected)
  {
    var p := Pop(queue, states);
    if p.popped.Some? && p.popped.value.key in listeners {
      var ka := p.popped.value;
      var kept := DeleteFunc(listeners[ka.key], collected);
      var sent := Deliveries(kept, ka.action);
      if w in listeners[ka.key] && w !in collected {
        DeleteFuncKeeps(listeners[ka.key], collected, w);
        assert w in multiset(listeners[ka.key]);
        assert w in kept;
        var i :| 0 <= i < |kept| && kept[i] == w;
        assert sent[i] == Delivery(w, ka.action);
      }
    }
  }

  /**
   * Notify, as a function of the queue: rounds until a pop yields nothing, each round's calls
   * appended to those in `sent`.
   */
  function NotifyRun(queue: seq<KeyAction>, states: map<Key, KeyState>, listeners: map<Key, seq<ListenerId>>,
                     collected: set<ListenerId>, sent: seq<Delivery>): (r: NotifyResult)
    decreases |queue|
  {
    var round := NotifyRound(queue, states, listeners, collected);
    if !round.ok then NotifyResult(round.states, listeners, sent)
    else NotifyRun(round.queue, round.states, round.listeners, collected, sent + round.sent)
  }

  /** A round that pops something hands the rest of the drain on to the state after it. */
  lemma NotifyRunStep(queue: seq<KeyAction>, states: map<Key, KeyState>, listeners: map<Key, seq<ListenerId>>,
                      collected: set<ListenerId>, sent: seq<Delivery>)
    ensures var round := NotifyRound(queue, states, listeners, collected);
      round.ok ==> NotifyRun(queue, states, listeners, collected, sent)
                   == NotifyRun(round.queue, round.states, round.listeners, collected, sent + round.sent)
  {
  }

  /** Draining an empty queue changes nothing. */
  lemma NotifyRunEmpty(states: map<Key, KeyState>, listeners: map<Key, seq<ListenerId>>,
                       collected: set<ListenerId>, sent: seq<Delivery>)
    ensures NotifyRun([], states, listeners, collected, sent) == NotifyResult(states, listeners, sent)
  {
  }

  /**
   * Draining keeps the set of keys with listener lists, only appends calls, never dispatches
   * to a reclaimed listener, and never adds a listener to a list.
   */
  lemma {:induction false} NotifyRunFacts(queue: seq<KeyAction>, states: map<Key, KeyState>,
                                          listeners: map<Key, seq<ListenerId>>, collected: set<ListenerId>, sent: seq<Delivery>)
    ensures NotifyRun(queue, states, listeners, collected, sent).listeners.Keys == listeners.Keys
    ensures |NotifyRun(queue, states, listeners, collected, sent).deliveries| >= |sent|
    ensures NotifyRun(queue, states, listeners, collected, sent).deliveries[..|sent|] == sent
    ensures forall i :: |sent| <= i < |NotifyRun(queue, states, listeners, collected, sent).deliveries| ==>
      NotifyRun(queue, states, listeners, collected, sent).deliveries[i].listener !in collected
    ensures forall k :: k in listeners ==>
      multiset(NotifyRun(queue, states, listeners, collected, sent).listeners[k]) <= multiset(listeners[k])
    decreases |queue|
  {
    var round := NotifyRound(queue, states, listeners, collected);
    if round.ok {
      var more := sent + round.sent;
      NotifyRunFacts(round.queue, round.states, round.listeners, collected, more);
      var run := NotifyRun(round.queue, round.states, round.listeners, collected, more);
      assert run.deliveries[..|sent|] == more[..|sent|] == sent;
      forall i | |sent| <= i < |run.deliveries|
        ensures run.deliveries[i].listener !in collected
      {
        if i < |more| {
          assert run.deliveries[i] == more[i] == round.sent[i - |sent|];
          assert round.sent[i - |sent|] in round.sent;
        }
      }
      forall k | k in listeners
        ensures multiset(round.listeners[k]) <= multiset(listeners[k])
      {
        var p := Pop(queue, states);
        if p.popped.value.key in listeners && k == p.popped.value.key {
          DeleteFuncShrinks(listeners[k], collected);
        }
      }
    }
  }

  /** Deleting never adds an occurrence. */
  lemma {:induction false} DeleteFuncShrinks(xs: seq<ListenerId>, doomed: set<ListenerId>)
    ensures multiset(DeleteFunc(xs, doomed)) <= multiset(xs)
  {
    if xs != [] {
      DeleteFuncShrinks(xs[1..], doomed);
      assert xs == [xs[0]] + xs[1..];
    }
  }

  class InputManager {
    var keyStates: map<Key, KeyState>
    var keyActionQueue: seq<KeyAction>
    /** `cap(keyActionQueue)`: re-slicing off the front lowers it by one. */
    var queueCap: nat
    var keyListeners: map<Key, seq<ListenerId>>
    /** The `OnKeyAction` calls dispatched so far. */
    var deliveries: seq<Delivery>

    /**
     * The queue has room for one more action, and exactly the tracked keys have listener
     * lists. A push that fills the queue is fatal to the program, so no later state
     * matters.
     */
    ghost predicate Valid()
      reads this
    {
      |keyActionQueue| < queueCap <= InputManagerQueueSize && keyListeners.Keys == TrackedKeys
    }

    /** initInputManager: the seven tracked keys Inactive, each with an empty listener list. */
    constructor ()
      ensures Valid()
      ensures keyStates == map k | k in TrackedKeys :: Inactive
      ensures keyListeners == map k | k in TrackedKeys :: []
      ensures keyActionQueue == [] && queueCap == InputManagerQueueSize && deliveries == []
    {
      keyStates := map k | k in TrackedKeys :: Inactive;
      keyListeners := map k | k in TrackedKeys :: [];
      keyActionQueue := [];
      queueCap := InputManagerQueueSize;
      deliveries := [];
    }

    /** The state of a key and whether the manager knows the key at all. */
    function GetKeyState(key: Key): (r: (KeyState, bool))
      reads this
      ensures r.1 <==> key in keyStates
      ensures r.1 ==> r.0 == keyStates[key]
      ensures !r.1 ==> r.0 == Inactive
    {
      if key in keyStates then (keyStates[key], true) else (Inactive, false)
    }

    /** Puts the listener at the front of the key's list; refuses a key without a list. */
    method Subscribe(key: Key, w: ListenerId) returns (ok: bool)
      modifies this`keyListeners
      ensures ok <==> key in old(keyListeners)
      ensures ok ==> keyListeners == old(keyListeners)[key := [w] + old(keyListeners)[key]]
      ensures !ok ==> keyListeners == old(keyListeners)
    {
      if key !in keyListeners {
        return false;
      }
      keyListeners := keyListeners[key := [w] + keyListeners[key]];
      ok := true;
    }

    /**
     * Walks the key's list from the front, dropping reclaimed listeners, until it removes the
     * first live occurrence of `w`. Fails for a key without a list and when `w` is not found.
     * The warning for a miss dereferences `w`, so a miss on a reclaimed `w` panics after the
     * walk has already pruned the list.
     */
    method Unsubscribe(key: Key, w: ListenerId, collected: set<ListenerId>) returns (r: UnsubscribeEnd)
      modifies this`keyListeners
      ensures key !in old(keyListeners) ==> r == Returned(Fail("key does not exist")) && keyListeners == old(keyListeners)
      ensures key in old(keyListeners) ==>
        var walk := UnsubscribeWalk(old(keyListeners)[key], w, collected);
        keyListeners == old(keyListeners)[key := walk.0]
        && (if walk.1 then r == Returned(Pass)
            else if w in collected then r == NilDereference
            else r == Returned(Fail("no listener to be removed")))
    {
      if key !in keyListeners {
        return Returned(Fail("key does not exist"));
      }
      var l := keyListeners[key];
      assert l == old(keyListeners)[key];
      var kept: seq<ListenerId> := [];
      var i := 0;
      assert l[i..] == l;
      while i < |l|
        invariant 0 <= i <= |l|
        invariant UnsubscribeWalk(l, w, collected).0 == kept + UnsubscribeWalk(l[i..], w, collected).0
        invariant UnsubscribeWalk(l, w, collected).1 == UnsubscribeWalk(l[i..], w, collected).1
      {
        ghost var rest := l[i..];
        assert rest[0] == l[i] && rest[1..] == l[i + 1..];
        if l[i] == w && l[i] !in collected {
          assert UnsubscribeWalk(rest, w, collected) == (l[i + 1..], true);
          keyListeners := keyListeners[key := kept + l[i + 1..]];
          assert UnsubscribeWalk(l, w, collected) == (kept + l[i + 1..], true);
          return Returned(Pass);
        } else if l[i] !in collected {
          assert UnsubscribeWalk(rest, w, collected).0 == [l[i]] + UnsubscribeWalk(l[i + 1..], w, collected).0;
          kept := kept + [l[i]];
        }
        i := i + 1;
      }
      assert l[i..] == [];
      assert UnsubscribeWalk(l[i..], w, collected) == ([], false);
      assert kept + [] == kept;
      keyListeners := keyListeners[key := kept];
      if w in collected {
        return NilDereference;
      }
      r := Returned(Fail("no listener to be removed"));
    }

    /**
     * Appends an action. The queue was made with fixed room, and filling it is an error (the
     * action is queued all the same).
     */
    method Push(ka: KeyAction) returns (r: Outcome)
      requires Valid()
      modifies this`keyActionQueue
      ensures keyActionQueue == old(keyActionQueue) + [ka]
      ensures r.Fail? <==> |keyActionQueue| == queueCap
      ensures r.Fail? ==> r == Fail("unexpectedly high number of inputs queued")
      ensures r.Pass? ==> Valid()
    {
      keyActionQueue := keyActionQueue + [ka];
      if |keyActionQueue| == queueCap {
        return Fail("unexpectedly high number of inputs queued");
      }
      r := Pass;
    }

    /**
     * Takes actions off the front until one changes a key state, as `Pop` says; an empty
     * queue yields the zero action and false. Each action taken lowers the capacity by one.
     */
    method DirtyPop() returns (ka: KeyAction, ok: bool)
      requires Valid()
      modifies this`keyActionQueue, this`queueCap, this`keyStates
      ensures Valid()
      ensures var p := Pop(old(keyActionQueue), old(keyStates));
        keyActionQueue == p.queue && keyStates == p.states
        && ok == p.popped.Some? && (if ok then ka == p.popped.value else ka == KeyAction(0, 0))
      ensures queueCap - |keyActionQueue| == old(queueCap) - old(|keyActionQueue|)
    {
      while true
        invariant Valid()
        invariant Pop(keyActionQueue, keyStates) == Pop(old(keyActionQueue), old(keyStates))
        invariant queueCap - |keyActionQueue| == old(queueCap) - old(|keyActionQueue|)
        decreases |keyActionQueue|
      {
        if |keyActionQueue| == 0 {
          return KeyAction(0, 0), false;
        }
        ka := keyActionQueue[0];
        keyActionQueue := keyActionQueue[1..];
        queueCap := queueCap - 1;
        if ka.action == Release {
          keyStates := keyStates[ka.key := Inactive];
          return ka, true;
        } else if ka.action == Press {
          if StateOf(keyStates, ka.key) == Pressed {
            continue;
          }
          keyStates := keyStates[ka.key := Pressed];
          return ka, true;
        }
      }
    }

    /**
     * Dispatches `action` to every live listener of `key`, front to back, and removes the
     * reclaimed ones from the list.
     */
    method NotifyListeners(key: Key, action: Action, collected: set<ListenerId>)
      requires key in keyListeners
      modifies this`keyListeners, this`deliveries
      ensures keyListeners == old(keyListeners)[key := DeleteFunc(old(keyListeners)[key], collected)]
      ensures deliveries == old(deliveries) + Deliveries(DeleteFunc(old(keyListeners)[key], collected), action)
    {
      var l := keyListeners[key];
      var kept: seq<ListenerId> := [];
      var sent: seq<Delivery> := [];
      for i := 0 to |l|
        invariant keyListeners == old(keyListeners) && deliveries == old(deliveries)
        invariant kept == DeleteFunc(l[..i], collected)
        invariant sent == Deliveries(kept, action)
      {
        assert l[..i + 1] == l[..i] + [l[i]];
        DeleteFuncSnoc(l[..i], l[i], collected);
        if l[i] !in collected {
          DeliveriesSnoc(kept, l[i], action);
          sent := sent + [Delivery(l[i], action)];
          kept := kept + [l[i]];
        }
      }
      assert l[..|l|] == l;
      keyListeners := keyListeners[key := kept];
      deliveries := deliveries + sent;
    }

    /**
     * Drains the queue as `NotifyRun` says, then starts a fresh queue with the full
     * capacity.
     */
    method Notify(collected: set<ListenerId>)
      requires Valid()
      modifies this`keyActionQueue, this`queueCap, this`keyStates, this`keyListeners, this`deliveries
      ensures Valid()
      ensures var run := NotifyRun(old(keyActionQueue), old(keyStates), old(keyListeners), collected, old(deliveries));
        keyStates == run.states && keyListeners == run.listeners && deliveries == run.deliveries
      ensures keyActionQueue == [] && queueCap == InputManagerQueueSize
    {
      ghost var final := NotifyRun(keyActionQueue, keyStates, keyListeners, collected, deliveries);
      var ok := true;
      while ok
        invariant Valid()
        invariant !ok ==> keyActionQueue == []
        invariant NotifyRun(keyActionQueue, keyStates, keyListeners, collected, deliveries) == final
        decreases |keyActionQueue| + (if ok then 1 else 0)
      {
        ghost var q, st, ls, sent := keyActionQueue, keyStates, keyListeners, deliveries;
        ok := NotifyNext(collected);
        NotifyRunStep(q, st, ls, collected, sent);
      }
      NotifyRunEmpty(keyStates, keyListeners, collected, deliveries);
      keyActionQueue := [];
      queueCap := InputManagerQueueSize;
    }

    /**
     * One round of the Notify loop, as `NotifyRound` says: pop an action and, if its key has a
     * listener list, dispatch it.
     */
    method NotifyNext(collected: set<ListenerId>) returns (ok: bool)
      requires Valid()
      modifies this`keyActionQueue, this`queueCap, this`keyStates, this`keyListeners, this`deliveries
      ensures Valid()
      ensures var round := NotifyRound(old(keyActionQueue), old(keyStates), old(keyListeners), collected);
        ok == round.ok && keyActionQueue == round.queue && keyStates == round.states
        && keyListeners == round.listeners && deliveries == old(deliveries) + round.sent
    {
      var ka;
      ka, ok := DirtyPop();
      if ok && ka.key in keyListeners {
        NotifyListeners(ka.key, ka.action, collected);
      }
    }

    /** InputKeysCallback: a Repeat is dropped; any other action is queued, and a full queue is fatal. */
    method KeyCallback(key: Key, action: Action) returns (r: Outcome)
      requires Valid()
      modifies this`keyActionQueue
      ensures action == Repeat ==> r == Pass && keyActionQueue == old(keyActionQueue)
      ensures action != Repeat ==> keyActionQueue == old(keyActionQueue) + [KeyAction(key, action)]
      ensures r.Fail? <==> action != Repeat && |old(keyActionQueue)| + 1 == queueCap
      ensures r.Pass? ==> Valid()
    {
      if action == Repeat {
        return Pass;
      }
      r := Push(KeyAction(key, action));
    }

    /** InputMouseCallback: as KeyCallback, with the button folded into the key space. */
    method MouseCallback(button: MouseButton, action: Action) returns (r: Outcome)
      requires Valid()
      modifies this`keyActionQueue
      ensures action == Repeat ==> r == Pass && keyActionQueue == old(keyActionQueue)
      ensures action != Repeat ==> keyActionQueue == old(keyActionQueue) + [KeyAction(MouseButtonToKey(button), action)]
      ensures r.Fail? <==> action != Repeat && |old(keyActionQueue)| + 1 == queueCap
      ensures r.Pass? ==> Valid()
    {
      r := KeyCallback(MouseButtonToKey(button), action);
    }
  }

  /**
   * Within one frame the queue takes nine actions: starting from a fresh queue, the first
   * nine pushes succeed and the tenth is fatal.
   */
  method TenthPushInAFrameIsFatal(m: InputManager, actions: seq<KeyAction>) returns (outcomes: seq<Outcome>)
    requires m.Valid() && m.keyActionQueue == [] && m.queueCap == InputManagerQueueSize
    requires |actions| == InputManagerQueueSize
    modifies m
    ensures |outcomes| == |actions|
    ensures forall i :: 0 <= i < |actions| - 1 ==> outcomes[i] == Pass
    ensures outcomes[|actions| - 1].Fail?
  {
    outcomes := [];
    var i := 0;
    while i < |actions|
      invariant 0 <= i <= |actions|
      invariant |outcomes| == i && |m.keyActionQueue| == i && m.queueCap == InputManagerQueueSize
      invariant i < |actions| ==> m.Valid()
      invariant forall j :: 0 <= j < i && j < |actions| - 1 ==> outcomes[j] == Pass
      invariant i == |actions| ==> outcomes[i - 1].Fail?
    {
      var r := m.Push(actions[i]);
      outcomes := outcomes + [r];
      i := i + 1;
    }
  }
}
