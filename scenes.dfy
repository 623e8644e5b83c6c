/**
 * The global scene of internal/scenes/globalScene.go: the lists of sprites, game objects and
 * audio players that outlive every scene, and the queries that turn game-state flags into
 * scene-switch and close requests.
 */
module GlobalScene {
  import GS = GameState
  import opened Utils

  /** A `*sprites.Sprite`, by identity. */
  type SpriteRef = nat

  /** An `audio.Player` interface value, by identity. */
  type AudioPlayerRef = nat

  /** A `GameObject` interface value, by identity. */
  type GameObjectRef = nat

  /** A scene constructor held in the scene map, or the default one that builds an empty scene. */
  datatype SceneFactory = NewEmptyScene | Factory(id: nat)

  /** Past these lengths an append also drops the entries that report `IsNil()`. */
  const LargeNumberOfSprites: nat := 100
  const LargeNumberOfAudioPlayers: nat := 20

  /** isNextSceneRequested: a promoted, nonzero NextScene flag. */
  function IsNextSceneRequested(state: GS.GameState): (r: bool)
    reads state
    ensures r <==> GS.NextScene in state.currentState && state.currentState[GS.NextScene] != 0
  {
    var (val, ok) := state.GetFlagValue(GS.NextScene);
    if !ok then false else val != 0
  }

  /**
   * wasCloseRequested: true exactly when CloseRequested is promoted with the value 1. Whenever
   * the flag is present at all, a reset to 0 is written to the future buffer.
   */
  method WasCloseRequested(state: GS.GameState) returns (r: bool)
    requires state.Valid()
    modifies state
    ensures state.Valid()
    ensures r <==> GS.CloseRequested in old(state.currentState) && old(state.currentState)[GS.CloseRequested] == 1
    ensures state.currentState == old(state.currentState)
    ensures state.futureState ==
      if GS.CloseRequested in old(state.currentState) then old(state.futureState)[GS.CloseRequested := 0]
      else old(state.futureState)
  {
    var (val, ok) := state.GetFlagValue(GS.CloseRequested);
    if !ok {
      return false;
    }
    state.SetFlagValue(GS.CloseRequested, 0);
    r := val == 1;
  }

  class GlobalScene {
    var globalGameObjects: seq<GameObjectRef>
    var globalSprites: seq<SpriteRef>
    var globalAudioPlayers: seq<AudioPlayerRef>
    var loadingSceneFlag: GS.Flag
    var sceneMap: map<GS.Flag, SceneFactory>
    /** The game-state store the flag queries read and write. */
    const state: GS.GameState

    /**
     * createGlobalScene followed by InitializeGlobalScene: the cursor sprite is the only
     * global sprite; the scene map and the loading-scene flag are recorded.
     */
    constructor (state: GS.GameState, cursor: SpriteRef, sceneMap: map<GS.Flag, SceneFactory>, loadingScene: GS.Flag)
      ensures this.state == state
      ensures globalSprites == [cursor] && globalGameObjects == [] && globalAudioPlayers == []
      ensures this.sceneMap == sceneMap && loadingSceneFlag == loadingScene
    {
      this.state := state;
      globalSprites := [cursor];
      globalGameObjects := [];
      globalAudioPlayers := [];
      this.sceneMap := sceneMap;
      loadingSceneFlag := loadingScene;
    }

    /**
     * Appends the new sprites in order; once the list is longer than 100, the sprites that
     * report `IsNil()` (those in `released`) are dropped and the rest keep their order.
     */
    method AddToSprites(newSprites: seq<SpriteRef>, released: set<SpriteRef>)
      modifies this`globalSprites
      ensures globalSprites ==
        if |old(globalSprites) + newSprites| > LargeNumberOfSprites
        then DeleteFunc(old(globalSprites) + newSprites, released)
        else old(globalSprites) + newSprites
    {
      globalSprites := globalSprites + newSprites;
      if |globalSprites| > LargeNumberOfSprites {
        globalSprites := DeleteFunc(globalSprites, released);
      }
    }

    /**
     * RemoveFromSprites as written: its predicate compares the addresses of two distinct
     * variables, which never coincide, so no sprite is ever removed.
     */
    method RemoveFromSprites(sprite: SpriteRef)
      modifies this`globalSprites
      ensures globalSprites == old(globalSprites)
    {
      globalSprites := DeleteFunc(globalSprites, {});
      DeleteFuncNothing(old(globalSprites), {});
    }

    /** What RemoveFromSprites evidently means to do: drop every occurrence of `sprite`. */
    method RemoveFromSpritesCorrected(sprite: SpriteRef)
      modifies this`globalSprites
      ensures globalSprites == DeleteFunc(old(globalSprites), {sprite})
      ensures sprite !in globalSprites
    {
      globalSprites := DeleteFunc(globalSprites, {sprite});
    }

    /** Appends the new game objects in order. */
    method AddToGameObjects(gameObjs: seq<GameObjectRef>)
      modifies this`globalGameObjects
      ensures globalGameObjects == old(globalGameObjects) + gameObjs
    {
      globalGameObjects := globalGameObjects + gameObjs;
    }

    /** Removes every game object equal to `gameObj`; the others keep their order. */
    method RemoveFromGameObjects(gameObj: GameObjectRef)
      modifies this`globalGameObjects
      ensures globalGameObjects == DeleteFunc(old(globalGameObjects), {gameObj})
      ensures gameObj !in globalGameObjects
    {
      globalGameObjects := DeleteFunc(globalGameObjects, {gameObj});
    }

    /**
     * Appends the new players in order; once the list is longer than 20, the players that
     * report `IsNil()` (those in `closed`) are dropped and the rest keep their order.
     */
    method AddToAudio(audioPlayers: seq<AudioPlayerRef>, closed: set<AudioPlayerRef>)
      modifies this`globalAudioPlayers
      ensures globalAudioPlayers ==
        if |old(globalAudioPlayers) + audioPlayers| > LargeNumberOfAudioPlayers
        then DeleteFunc(old(globalAudioPlayers) + audioPlayers, closed)
        else old(globalAudioPlayers) + audioPlayers
    {
      globalAudioPlayers := globalAudioPlayers + audioPlayers;
      if |globalAudioPlayers| > LargeNumberOfAudioPlayers {
        globalAudioPlayers := DeleteFunc(globalAudioPlayers, closed);
      }
    }

    /** Removes every player equal to `audioPlayer`; the others keep their order. */
    method RemoveFromAudio(audioPlayer: AudioPlayerRef)
      modifies this`globalAudioPlayers
      ensures globalAudioPlayers == DeleteFunc(old(globalAudioPlayers), {audioPlayer})
      ensures audioPlayer !in globalAudioPlayers
    {
      globalAudioPlayers := DeleteFunc(globalAudioPlayers, {audioPlayer});
    }

    /**
     * popNextScene: the factory the promoted NextScene flag names, or the empty-scene default
     * when the flag is missing, is 0, or names no scene. A reset of NextScene to 0 is always
     * written to the future buffer.
     */
    method PopNextScene() returns (next: SceneFactory, ok: bool)
      requires state.Valid()
      modifies state
      ensures state.Valid()
      ensures ok <==> GS.NextScene in state.currentState && state.currentState[GS.NextScene] != 0
                      && state.currentState[GS.NextScene] in sceneMap
      ensures ok ==> next == sceneMap[state.currentState[GS.NextScene]]
      ensures !ok ==> next == NewEmptyScene
      ensures state.currentState == old(state.currentState)
      ensures state.futureState == old(state.futureState)[GS.NextScene := 0]
    {
      var (val, found) := state.GetFlagValue(GS.NextScene);
      if !found || val == 0 {
        next, ok := NewEmptyScene, false;
      } else if val !in sceneMap {
        next, ok := NewEmptyScene, false;
      } else {
        next, ok := sceneMap[val], true;
      }
      state.SetFlagValue(GS.NextScene, 0);
    }

    /** useLoadingScene: the loading-scene flag is promoted and nonzero. */
    function UseLoadingScene(): (r: bool)
      reads this, state
      ensures r <==> loadingSceneFlag in state.currentState && state.currentState[loadingSceneFlag] != 0
    {
      var (val, ok) := state.GetFlagValue(loadingSceneFlag);
      ok && val != 0
    }
  }

  /** The sprite RemoveFromSprites is asked to remove is still there afterwards. */
  method RemoveFromSpritesKeepsSprite(scene: GlobalScene, sprite: SpriteRef)
    requires sprite in scene.globalSprites
    modifies scene
    ensures sprite in scene.globalSprites
  {
    scene.RemoveFromSprites(sprite);
  }
}
