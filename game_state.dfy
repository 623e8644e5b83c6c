/**
 * The double-buffered flag store of internal/gameState: writes land in a future map and become
 * readable only once the main loop promotes them with `UpdateCurrentContext`.
 */
module GameState {

  /** A game-state flag (gameState.Flag, an int). */
  type Flag = int

  /** Flag 0 is reserved for "off"; the named flags follow in declaration order. */
  const CloseRequested: Flag := 1
  const NextScene: Flag := 2
  const LoadingScene: Flag := 3
  const TitleScene: Flag := 4
  const WorldScene: Flag := 5

  /** The value stored for a flag, an int32. */
  type Int32 = x: int | -0x8000_0000 <= x < 0x8000_0000

  /**
   * The store. A flag maps to a value in each buffer; the atomic cells of the original are
   * never shared between the two buffers once promoted, so plain values model them.
   * `futureKeys` lists the keys of the future buffer, once each, so that the promotion can
   * walk them (Go walks the map itself, in an unspecified order that the result does not
   * depend on).
   */
  class GameState {
    var currentState: map<Flag, Int32>
    var futureState: map<Flag, Int32>
    var futureKeys: seq<Flag>

    ghost predicate Valid()
      reads this
    {
      forall f :: f in futureKeys <==> f in futureState
    }

    /** initCurrentGameState: both buffers empty. */
    constructor ()
      ensures Valid()
      ensures currentState == map[] && futureState == map[]
    {
      currentState := map[];
      futureState := map[];
      futureKeys := [];
    }

    /** Reads the current buffer; a flag never promoted reads as `(0, false)`. */
    function GetFlagValue(flag: Flag): (r: (Int32, bool))
      reads this
      ensures r.1 <==> flag in currentState
      ensures r.1 ==> r.0 == currentState[flag]
      ensures !r.1 ==> r.0 == 0
    {
      if flag in currentState then (currentState[flag], true) else (0, false)
    }

    /** Writes the future buffer only. */
    method SetFlagValue(flag: Flag, value: Int32)
      requires Valid()
      modifies this
      ensures Valid()
      ensures futureState == old(futureState)[flag := value]
      ensures currentState == old(currentState)
    {
      if flag !in futureState {
        futureKeys := futureKeys + [flag];
      }
      futureState := futureState[flag := value];
    }

    /**
     * Copies every future entry into the current buffer, overwriting, leaves the other current
     * entries alone, and starts a fresh, empty future buffer.
     */
    method UpdateCurrentContext()
      requires Valid()
      modifies this
      ensures Valid()
      ensures currentState == old(currentState) + old(futureState)
      ensures futureState == map[]
    {
      var i := 0;
      while i < |futureKeys|
        invariant 0 <= i <= |futureKeys|
        invariant futureState == old(futureState) && futureKeys == old(futureKeys)
        invariant forall g :: g in futureKeys[..i] ==> g in currentState && currentState[g] == futureState[g]
        invariant forall g :: g !in futureKeys[..i] ==> (g in currentState <==> g in old(currentState))
        invariant forall g :: g !in futureKeys[..i] && g in old(currentState) ==> currentState[g] == old(currentState)[g]
      {
        var key := futureKeys[i];
        currentState := currentState[key := futureState[key]];
        assert futureKeys[..i + 1] == futureKeys[..i] + [key];
        i := i + 1;
      }
      assert futureKeys[..i] == futureKeys;
      ghost var promoted := old(currentState) + old(futureState);
      assert forall g :: g in currentState <==> g in promoted;
      assert forall g :: g in currentState ==> currentState[g] == promoted[g];
      futureState := map[];
      futureKeys := [];
    }
  }

  /**
   * What a promotion does to the current buffer: every future entry is copied in, overwriting,
   * and every other current entry keeps its value.
   */
  lemma PromotionOverwrites(current: map<Flag, Int32>, future: map<Flag, Int32>)
    ensures forall f :: f in future ==> f in current + future && (current + future)[f] == future[f]
    ensures forall f :: f !in future ==> (f in current + future <==> f in current)
    ensures forall f :: f !in future && f in current ==> (current + future)[f] == current[f]
  {
  }

  /** A write is invisible to readers until it is promoted. */
  method SetIsDeferred(gs: GameState, flag: Flag, value: Int32)
    requires gs.Valid()
    modifies gs
    ensures gs.GetFlagValue(flag) == old(gs.GetFlagValue(flag))
  {
    gs.SetFlagValue(flag, value);
  }

  /** Round trip: set, promote, get gives back the value that was set. */
  method SetPromoteGet(gs: GameState, flag: Flag, value: Int32) returns (r: (Int32, bool))
    requires gs.Valid()
    modifies gs
    ensures r == (value, true)
  {
    gs.SetFlagValue(flag, value);
    gs.UpdateCurrentContext();
    r := gs.GetFlagValue(flag);
  }

  /** Of several writes to one flag before a promotion, the last one wins. */
  method LastWriteWins(gs: GameState, flag: Flag, first: Int32, second: Int32)
    requires gs.Valid()
    modifies gs
    ensures gs.GetFlagValue(flag) == (second, true)
  {
    gs.SetFlagValue(flag, first);
    gs.SetFlagValue(flag, second);
    gs.UpdateCurrentContext();
  }

  /** Promoting twice in a row has the effect of promoting once: the second promotion finds nothing to copy. */
  method PromoteTwice(gs: GameState)
    requires gs.Valid()
    modifies gs
    ensures gs.futureState == map[]
    ensures gs.currentState == old(gs.currentState) + old(gs.futureState)
  {
    gs.UpdateCurrentContext();
    var once := gs.currentState;
    gs.UpdateCurrentContext();
    assert gs.currentState.Keys == once.Keys;
  }
}
