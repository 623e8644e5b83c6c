/**
 * The collider registry of internal/colliders/colliderMap.go: one spatial hash (layer) per tag,
 * always including the AllColliders layer, and the operations that index a collider into the
 * layers, drop it from them and re-index it after a move.
 *
 * Go pointers to colliders are `ColliderId`s into `heap`; `equals` on two pointers is `Equals`
 * on their heap entries. Every deletion pass drops the colliders that `equals` the one being
 * processed, so it is described by the set of such ids.
 */
module ColliderMaps {
  import opened Utils
  import opened ColliderGeometry

  /** A collision callback call: `receiver`'s OnEnterCollision or OnExitCollision, given `argument`. */
  datatype Event = Enter(receiver: ColliderId, argument: ColliderId) | Exit(receiver: ColliderId, argument: ColliderId)

  /** The cell size of both built-in layers. */
  const ChunkSize: int := 64

  /** Nonnegative sizes: the footprint of such a collider is a nonempty rectangle of cells. */
  predicate Sized(c: Collider)
  {
    c.width >= 0.0 && c.height >= 0.0
  }

  predicate AllWellChunked(layers: map<Tag, Layer>)
  {
    forall t :: t in layers ==> WellChunked(layers[t])
  }

  predicate NoDupTags(tags: seq<Tag>)
  {
    forall i, j :: 0 <= i < j < |tags| ==> tags[i] != tags[j]
  }

  /** Every id listed in a cell of `layer` is one of `ids`: the maps hold only live colliders. */
  ghost predicate LayerWithin(layer: Layer, ids: set<ColliderId>)
  {
    forall k, x :: x in CellAt(layer, k) ==> x in ids
  }

  ghost predicate AllWithin(layers: map<Tag, Layer>, ids: set<ColliderId>)
  {
    forall t :: t in layers ==> LayerWithin(layers[t], ids)
  }

  /** Appends `id` to the list of each cell of `fp`, in order; a missing cell starts empty. */
  function Appended(layer: Layer, fp: seq<Cell>, id: ColliderId): (r: Layer)
    ensures r.chunkX == layer.chunkX && r.chunkY == layer.chunkY
    decreases |fp|
  {
    if fp == [] then layer
    else
      var l := Appended(layer, fp[..|fp| - 1], id);
      var c := fp[|fp| - 1];
      AppendAt(l, c, id)
  }

  /** `id` appended to the list of one cell. */
  function AppendAt(layer: Layer, c: Cell, id: ColliderId): Layer
  {
    layer.(cells := layer.cells[c := CellAt(layer, c) + [id]])
  }

  /** Drops the `doomed` ids from the list of each cell of `fp` (slices.DeleteFunc). */
  function Deleted(layer: Layer, fp: seq<Cell>, doomed: set<ColliderId>): (r: Layer)
    ensures r.chunkX == layer.chunkX && r.chunkY == layer.chunkY
    decreases |fp|
  {
    if fp == [] then layer
    else
      var l := Deleted(layer, fp[..|fp| - 1], doomed);
      var c := fp[|fp| - 1];
      DeleteAt(l, c, doomed)
  }

  /** The `doomed` ids dropped from the list of one cell. */
  function DeleteAt(layer: Layer, c: Cell, doomed: set<ColliderId>): Layer
  {
    layer.(cells := layer.cells[c := DeleteFunc(CellAt(layer, c), doomed)])
  }

  /** Appending a live id keeps every listed id live. */
  lemma {:induction false} AppendedWithin(layer: Layer, fp: seq<Cell>, id: ColliderId, ids: set<ColliderId>)
    requires LayerWithin(layer, ids) && id in ids
    ensures LayerWithin(Appended(layer, fp, id), ids)
    decreases |fp|
  {
    if fp != [] {
      var l := Appended(layer, fp[..|fp| - 1], id);
      var c := fp[|fp| - 1];
      AppendedWithin(layer, fp[..|fp| - 1], id, ids);
      forall k, x | x in CellAt(AppendAt(l, c, id), k)
        ensures x in ids
      {
        assert CellAt(AppendAt(l, c, id), k) == if k == c then CellAt(l, c) + [id] else CellAt(l, k);
      }
    }
  }

  /** Deleting never lists a new id. */
  lemma {:induction false} DeletedWithin(layer: Layer, fp: seq<Cell>, doomed: set<ColliderId>, ids: set<ColliderId>)
    requires LayerWithin(layer, ids)
    ensures LayerWithin(Deleted(layer, fp, doomed), ids)
    decreases |fp|
  {
    if fp != [] {
      var l := Deleted(layer, fp[..|fp| - 1], doomed);
      var c := fp[|fp| - 1];
      DeletedWithin(layer, fp[..|fp| - 1], doomed, ids);
      forall k, x | x in CellAt(DeleteAt(l, c, doomed), k)
        ensures x in ids
      {
        assert CellAt(DeleteAt(l, c, doomed), k) == if k == c then DeleteFunc(CellAt(l, c), doomed) else CellAt(l, k);
      }
    }
  }

  /** Over distinct cells, each cell of `fp` gains exactly one `id` at its end; the others are untouched. */
  lemma {:induction false} AppendedAt(layer: Layer, fp: seq<Cell>, id: ColliderId, k: Cell)
    requires NoDupCells(fp)
    ensures CellAt(Appended(layer, fp, id), k) == CellAt(layer, k) + (if k in fp then [id] else [])
    decreases |fp|
  {
    if fp != [] {
      var init := fp[..|fp| - 1];
      assert NoDupCells(init);
      AppendedAt(layer, init, id, k);
      if k == fp[|fp| - 1] {
        assert k !in init;
      } else {
        assert k in fp <==> k in init;
      }
    }
  }

  /** Over distinct cells, each cell of `fp` loses its `doomed` ids; the others are untouched. */
  lemma {:induction false} DeletedAt(layer: Layer, fp: seq<Cell>, doomed: set<ColliderId>, k: Cell)
    requires NoDupCells(fp)
    ensures CellAt(Deleted(layer, fp, doomed), k) ==
      if k in fp then DeleteFunc(CellAt(layer, k), doomed) else CellAt(layer, k)
    decreases |fp|
  {
    if fp != [] {
      var init := fp[..|fp| - 1];
      assert NoDupCells(init);
      DeletedAt(layer, init, doomed, k);
      if k == fp[|fp| - 1] {
        assert k !in init;
      } else {
        assert k in fp <==> k in init;
      }
    }
  }

  /** The ids whose colliders `equals` `c`: what a deletion pass for `c` drops. */
  function EqualIds(heap: map<ColliderId, Collider>, c: Collider): (s: set<ColliderId>)
    ensures forall x :: x in s <==> x in heap && Equals(heap[x], c)
  {
    set x | x in heap && Equals(heap[x], c)
  }

  /**
   * What one of the functions does to one layer for the collider `id` with data `c`:
   * AddColliderToMaps inserts at the footprint, removeColliderFromMaps erases there,
   * updateColliderInMap erases at the previous footprint and inserts at the current one on the
   * tag layers, and on the AllColliders layer erases at the previous footprint and re-inserts there.
   */
  datatype LayerOp = Insert | Erase(doomed: set<ColliderId>) | Move(prev: Point, doomed: set<ColliderId>)
                   | Reinsert(prev: Point, doomed: set<ColliderId>)

  function ApplyOp(layer: Layer, op: LayerOp, id: ColliderId, c: Collider): (r: Layer)
    requires WellChunked(layer) && Sized(c)
    ensures r.chunkX == layer.chunkX && r.chunkY == layer.chunkY
  {
    var here := Footprint(layer, c.center, c.width, c.height);
    match op
    case Insert => Appended(layer, here, id)
    case Erase(doomed) => Deleted(layer, here, doomed)
    case Move(prev, doomed) => Appended(Deleted(layer, Footprint(layer, prev, c.width, c.height), doomed), here, id)
    case Reinsert(prev, doomed) =>
      var before := Footprint(layer, prev, c.width, c.height);
      Appended(Deleted(layer, before, doomed), before, id)
  }

  /** Every pass of a live collider keeps the layer's listed ids live. */
  lemma ApplyOpWithin(layer: Layer, op: LayerOp, id: ColliderId, c: Collider, ids: set<ColliderId>)
    requires WellChunked(layer) && Sized(c) && LayerWithin(layer, ids) && id in ids
    ensures LayerWithin(ApplyOp(layer, op, id, c), ids)
  {
    var here := Footprint(layer, c.center, c.width, c.height);
    match op
    case Insert =>
      AppendedWithin(layer, here, id, ids);
    case Erase(doomed) =>
      DeletedWithin(layer, here, doomed, ids);
    case Move(prev, doomed) =>
      var before := Footprint(layer, prev, c.width, c.height);
      DeletedWithin(layer, before, doomed, ids);
      AppendedWithin(Deleted(layer, before, doomed), here, id, ids);
    case Reinsert(prev, doomed) =>
      var before := Footprint(layer, prev, c.width, c.height);
      DeletedWithin(layer, before, doomed, ids);
      AppendedWithin(Deleted(layer, before, doomed), before, id, ids);
  }

  /** Insert, cell by cell: each cell of the footprint gains the collider at its end. */
  lemma InsertAt(layer: Layer, id: ColliderId, c: Collider, k: Cell)
    requires WellChunked(layer) && Sized(c)
    ensures CellAt(ApplyOp(layer, Insert, id, c), k) ==
      CellAt(layer, k) + (if k in Footprint(layer, c.center, c.width, c.height) then [id] else [])
  {
    FootprintNoDup(layer, c.center, c.width, c.height);
    AppendedAt(layer, Footprint(layer, c.center, c.width, c.height), id, k);
  }

  /** Erase, cell by cell: each cell of the footprint loses the doomed ids. */
  lemma EraseAt(layer: Layer, doomed: set<ColliderId>, id: ColliderId, c: Collider, k: Cell)
    requires WellChunked(layer) && Sized(c)
    ensures CellAt(ApplyOp(layer, Erase(doomed), id, c), k) ==
      if k in Footprint(layer, c.center, c.width, c.height) then DeleteFunc(CellAt(layer, k), doomed) else CellAt(layer, k)
  {
    FootprintNoDup(layer, c.center, c.width, c.height);
    DeletedAt(layer, Footprint(layer, c.center, c.width, c.height), doomed, k);
  }

  /**
   * Move, cell by cell: the cells of the previous footprint lose the doomed ids, then the
   * cells of the current footprint gain the collider.
   */
  lemma MoveAt(layer: Layer, prev: Point, doomed: set<ColliderId>, id: ColliderId, c: Collider, k: Cell)
    requires WellChunked(layer) && Sized(c)
    ensures CellAt(ApplyOp(layer, Move(prev, doomed), id, c), k) ==
      (if k in Footprint(layer, prev, c.width, c.height) then DeleteFunc(CellAt(layer, k), doomed) else CellAt(layer, k))
      + (if k in Footprint(layer, c.center, c.width, c.height) then [id] else [])
  {
    var before := Footprint(layer, prev, c.width, c.height);
    FootprintNoDup(layer, prev, c.width, c.height);
    FootprintNoDup(layer, c.center, c.width, c.height);
    assert ApplyOp(layer, Move(prev, doomed), id, c)
      == Appended(Deleted(layer, before, doomed), Footprint(layer, c.center, c.width, c.height), id);
    DeletedAt(layer, before, doomed, k);
    AppendedAt(Deleted(layer, before, doomed), Footprint(layer, c.center, c.width, c.height), id, k);
  }

  /**
   * Reinsert, cell by cell: the cells of the previous footprint lose the doomed ids and gain
   * the collider; every other cell is untouched.
   */
  lemma ReinsertAt(layer: Layer, prev: Point, doomed: set<ColliderId>, id: ColliderId, c: Collider, k: Cell)
    requires WellChunked(layer) && Sized(c)
    ensures CellAt(ApplyOp(layer, Reinsert(prev, doomed), id, c), k) ==
      if k in Footprint(layer, prev, c.width, c.height) then DeleteFunc(CellAt(layer, k), doomed) + [id] else CellAt(layer, k)
  {
    var before := Footprint(layer, prev, c.width, c.height);
    FootprintNoDup(layer, prev, c.width, c.height);
    assert ApplyOp(layer, Reinsert(prev, doomed), id, c) == Appended(Deleted(layer, before, doomed), before, id);
    DeletedAt(layer, before, doomed, k);
    AppendedAt(Deleted(layer, before, doomed), before, id, k);
  }

  /** The loop over the collider's tags: each tag that names a layer gets the operation; others are skipped. */
  function ApplyPerTag(layers: map<Tag, Layer>, tags: seq<Tag>, op: LayerOp, id: ColliderId, c: Collider): (r: map<Tag, Layer>)
    requires AllWellChunked(layers) && Sized(c)
    ensures r.Keys == layers.Keys && AllWellChunked(r)
    decreases |tags|
  {
    if tags == [] then layers
    else
      TagStep(ApplyPerTag(layers, tags[..|tags| - 1], op, id, c), tags[|tags| - 1], op, id, c)
  }

  /** One turn of the tag loop: the layer of `t`, if there is one, gets the operation. */
  function TagStep(layers: map<Tag, Layer>, t: Tag, op: LayerOp, id: ColliderId, c: Collider): (r: map<Tag, Layer>)
    requires AllWellChunked(layers) && Sized(c)
    ensures r.Keys == layers.Keys && AllWellChunked(r)
  {
    if t in layers then layers[t := ApplyOp(layers[t], op, id, c)] else layers
  }

  /** Applying an operation to one layer keeps every layer's cell size positive. */
  lemma ApplyKeepsChunked(layers: map<Tag, Layer>, t: Tag, op: LayerOp, id: ColliderId, c: Collider)
    requires AllWellChunked(layers) && t in layers && Sized(c)
    ensures AllWellChunked(layers[t := ApplyOp(layers[t], op, id, c)])
  {
  }

  /** The tag loop one tag further on. */
  lemma ApplyPerTagSnoc(layers: map<Tag, Layer>, tags: seq<Tag>, i: nat, op: LayerOp, id: ColliderId, c: Collider)
    requires AllWellChunked(layers) && Sized(c) && i < |tags|
    ensures ApplyPerTag(layers, tags[..i + 1], op, id, c) == TagStep(ApplyPerTag(layers, tags[..i], op, id, c), tags[i], op, id, c)
  {
    assert tags[..i + 1][..i] == tags[..i];
  }

  /** One whole function: the tag loop with `tagOp`, then `allOp` on the AllColliders layer. */
  function MapsAfter(layers: map<Tag, Layer>, c: Collider, id: ColliderId, tagOp: LayerOp, allOp: LayerOp): (r: map<Tag, Layer>)
    requires AllColliders in layers && AllWellChunked(layers) && Sized(c)
    ensures r.Keys == layers.Keys && AllWellChunked(r)
  {
    var m := ApplyPerTag(layers, c.tags, tagOp, id, c);
    m[AllColliders := ApplyOp(m[AllColliders], allOp, id, c)]
  }

  /** The tag loop for a live collider keeps every layer's listed ids live. */
  lemma {:induction false} ApplyPerTagWithin(layers: map<Tag, Layer>, tags: seq<Tag>, op: LayerOp, id: ColliderId, c: Collider,
                                             ids: set<ColliderId>)
    requires AllWellChunked(layers) && Sized(c) && AllWithin(layers, ids) && id in ids
    ensures AllWithin(ApplyPerTag(layers, tags, op, id, c), ids)
    decreases |tags|
  {
    if tags != [] {
      var m := ApplyPerTag(layers, tags[..|tags| - 1], op, id, c);
      var t := tags[|tags| - 1];
      ApplyPerTagWithin(layers, tags[..|tags| - 1], op, id, c, ids);
      if t in m {
        ApplyOpWithin(m[t], op, id, c, ids);
      }
    }
  }

  /** A whole function of the registry, for a live collider, keeps every listed id live. */
  lemma MapsAfterWithin(layers: map<Tag, Layer>, c: Collider, id: ColliderId, tagOp: LayerOp, allOp: LayerOp, ids: set<ColliderId>)
    requires AllColliders in layers && AllWellChunked(layers) && Sized(c) && AllWithin(layers, ids) && id in ids
    ensures AllWithin(MapsAfter(layers, c, id, tagOp, allOp), ids)
  {
    var m := ApplyPerTag(layers, c.tags, tagOp, id, c);
    ApplyPerTagWithin(layers, c.tags, tagOp, id, c, ids);
    ApplyOpWithin(m[AllColliders], allOp, id, c, ids);
  }

  /** With distinct tags, a layer gets the operation once if its tag is among the collider's, else stays. */
  lemma {:induction false} ApplyPerTagAt(layers: map<Tag, Layer>, tags: seq<Tag>, op: LayerOp, id: ColliderId, c: Collider, t: Tag)
    requires AllWellChunked(layers) && Sized(c) && NoDupTags(tags) && t in layers
    ensures ApplyPerTag(layers, tags, op, id, c)[t] == if t in tags then ApplyOp(layers[t], op, id, c) else layers[t]
    decreases |tags|
  {
    if tags != [] {
      var init := tags[..|tags| - 1];
      assert NoDupTags(init);
      ApplyPerTagAt(layers, init, op, id, c, t);
      if t == tags[|tags| - 1] {
        assert t !in init;
      } else {
        assert t in tags <==> t in init;
      }
    }
  }

  /**
   * For a collider with distinct tags, none of them AllColliders: the AllColliders layer gets
   * `allOp` alone, a tag layer gets `tagOp`, every other layer is untouched.
   */
  lemma MapsAfterAt(layers: map<Tag, Layer>, c: Collider, id: ColliderId, tagOp: LayerOp, allOp: LayerOp, t: Tag)
    requires AllColliders in layers && AllWellChunked(layers) && Sized(c)
    requires NoDupTags(c.tags) && AllColliders !in c.tags && t in layers
    ensures MapsAfter(layers, c, id, tagOp, allOp)[t] ==
      if t == AllColliders then ApplyOp(layers[t], allOp, id, c)
      else if t in c.tags then ApplyOp(layers[t], tagOp, id, c)
      else layers[t]
  {
    ApplyPerTagAt(layers, c.tags, tagOp, id, c, t);
    ApplyPerTagAt(layers, c.tags, tagOp, id, c, AllColliders);
  }

  /** Two layers with the same cell size agree on every footprint. */
  lemma FootprintSameChunks(l1: Layer, l2: Layer, p: Point, width: real, height: real)
    requires WellChunked(l1) && l1.chunkX == l2.chunkX && l1.chunkY == l2.chunkY
    requires width >= 0.0 && height >= 0.0
    ensures Footprint(l1, p, width, height) == Footprint(l2, p, width, height)
  {
    assert forall q :: CellOf(l1, q) == CellOf(l2, q);
  }

  /** A layer touched by AddColliderToMaps: its name and whether it is the AllColliders one. */
  predicate Touched(c: Collider, t: Tag)
  {
    t == AllColliders || t in c.tags
  }

  /**
   * AddColliderToMaps then removeColliderFromMaps leaves every cell as it was, provided the
   * cell held no collider equal to the one added (`doomed` holds the ids that `equals` it, its
   * own among them).
   */
  lemma AddThenRemoveRestores(layers: map<Tag, Layer>, c: Collider, id: ColliderId, doomed: set<ColliderId>, t: Tag, k: Cell)
    requires AllColliders in layers && AllWellChunked(layers) && Sized(c)
    requires NoDupTags(c.tags) && AllColliders !in c.tags && t in layers
    requires id in doomed
    requires forall y :: y in CellAt(layers[t], k) ==> y !in doomed
    ensures var added := MapsAfter(layers, c, id, Insert, Insert);
      CellAt(MapsAfter(added, c, id, Erase(doomed), Erase(doomed))[t], k) == CellAt(layers[t], k)
  {
    var added := MapsAfter(layers, c, id, Insert, Insert);
    MapsAfterAt(layers, c, id, Insert, Insert, t);
    MapsAfterAt(added, c, id, Erase(doomed), Erase(doomed), t);
    if Touched(c, t) {
      var before := layers[t];
      var mid := ApplyOp(before, Insert, id, c);
      assert added[t] == mid;
      FootprintSameChunks(before, mid, c.center, c.width, c.height);
      InsertAt(before, id, c, k);
      EraseAt(mid, doomed, id, c, k);
      if k in Footprint(before, c.center, c.width, c.height) {
        DeleteFuncSnoc(CellAt(before, k), id, doomed);
        DeleteFuncNothing(CellAt(before, k), doomed);
      }
    }
  }

  /**
   * After removeColliderFromMaps, no cell of the collider's footprint in any layer it touched
   * holds a collider equal to it.
   */
  lemma RemoveClearsFootprint(layers: map<Tag, Layer>, c: Collider, id: ColliderId, doomed: set<ColliderId>, t: Tag, k: Cell)
    requires AllColliders in layers && AllWellChunked(layers) && Sized(c)
    requires NoDupTags(c.tags) && AllColliders !in c.tags && t in layers && Touched(c, t)
    requires k in Footprint(layers[t], c.center, c.width, c.height)
    ensures forall y :: y in CellAt(MapsAfter(layers, c, id, Erase(doomed), Erase(doomed))[t], k) ==> y !in doomed
  {
    MapsAfterAt(layers, c, id, Erase(doomed), Erase(doomed), t);
    EraseAt(layers[t], doomed, id, c, k);
  }

  /**
   * updateColliderInMap as written, on the AllColliders layer: the cells of the previous
   * footprint end with the collider again, and every other cell, including those of the new
   * footprint, is left exactly as it was.
   */
  lemma UpdateLeavesAllCollidersStale(layers: map<Tag, Layer>, c: Collider, id: ColliderId, prev: Point, doomed: set<ColliderId>, k: Cell)
    requires AllColliders in layers && AllWellChunked(layers) && Sized(c)
    requires NoDupTags(c.tags) && AllColliders !in c.tags
    ensures var all := layers[AllColliders];
            var r := CellAt(MapsAfter(layers, c, id, Move(prev, doomed), Reinsert(prev, doomed))[AllColliders], k);
      (k in Footprint(all, prev, c.width, c.height) ==> r == DeleteFunc(CellAt(all, k), doomed) + [id])
      && (k !in Footprint(all, prev, c.width, c.height) ==> r == CellAt(all, k))
  {
    MapsAfterAt(layers, c, id, Move(prev, doomed), Reinsert(prev, doomed), AllColliders);
    ReinsertAt(layers[AllColliders], prev, doomed, id, c, k);
  }

  /**
   * updateColliderInMap with the AllColliders layer handled like the tag layers: in every
   * layer the collider touches, a cell loses the doomed ids if it is in the previous footprint
   * and gains the collider at its end if it is in the new one. So each cell of the new footprint
   * ends with the collider, once when the collider itself is doomed and was not left behind
   * outside the previous footprint, and each cell of the previous footprint outside the new one
   * holds nothing equal to it.
   */
  lemma UpdateCorrectedReindexes(layers: map<Tag, Layer>, c: Collider, id: ColliderId, prev: Point, doomed: set<ColliderId>, t: Tag, k: Cell)
    requires AllColliders in layers && AllWellChunked(layers) && Sized(c)
    requires NoDupTags(c.tags) && AllColliders !in c.tags && t in layers && Touched(c, t)
    ensures var r := CellAt(MapsAfter(layers, c, id, Move(prev, doomed), Move(prev, doomed))[t], k);
      var old_ := CellAt(layers[t], k);
      r == (if k in Footprint(layers[t], prev, c.width, c.height) then DeleteFunc(old_, doomed) else old_)
           + (if k in Footprint(layers[t], c.center, c.width, c.height) then [id] else [])
    ensures var r := CellAt(MapsAfter(layers, c, id, Move(prev, doomed), Move(prev, doomed))[t], k);
      (k in Footprint(layers[t], c.center, c.width, c.height) ==> |r| > 0 && r[|r| - 1] == id)
      && (k in Footprint(layers[t], c.center, c.width, c.height) && id in doomed
          && (k in Footprint(layers[t], prev, c.width, c.height) || id !in CellAt(layers[t], k))
          ==> multiset(r)[id] == 1)
      && (k in Footprint(layers[t], prev, c.width, c.height) && k !in Footprint(layers[t], c.center, c.width, c.height)
          ==> forall y :: y in r ==> y !in doomed)
  {
    var layer := layers[t];
    var after := MapsAfter(layers, c, id, Move(prev, doomed), Move(prev, doomed))[t];
    assert after == ApplyOp(layer, Move(prev, doomed), id, c) by {
      MapsAfterAt(layers, c, id, Move(prev, doomed), Move(prev, doomed), t);
    }
    var here := Footprint(layer, c.center, c.width, c.height);
    var before := Footprint(layer, prev, c.width, c.height);
    var kept := if k in before then DeleteFunc(CellAt(layer, k), doomed) else CellAt(layer, k);
    assert CellAt(after, k) == kept + (if k in here then [id] else []) by {
      MoveAt(layer, prev, doomed, id, c, k);
    }
  }

  /** The collider registry: the layers by tag, the colliders by id, and the callbacks called so far. */
  class CollisionWorld {
    var layers: map<Tag, Layer>
    var heap: map<ColliderId, Collider>
    var nextId: nat
    var events: seq<Event>

    /**
     * AllColliders always has a layer; every layer has a positive cell size; colliders are
     * sized; every id a cell lists is a registered collider.
     */
    ghost predicate Valid()
      reads this
    {
      AllColliders in layers && AllWellChunked(layers)
      && (forall x :: x in heap ==> x < nextId && Sized(heap[x]))
      && AllWithin(layers, heap.Keys)
    }

    /** createColliderFlagToMap: empty AllColliders and EnvironmentCollider layers of 64 by 64 cells. */
    constructor ()
      ensures Valid()
      ensures layers == map[AllColliders := Layer(map[], ChunkSize, ChunkSize),
                            EnvironmentCollider := Layer(map[], ChunkSize, ChunkSize)]
      ensures heap == map[] && events == []
    {
      layers := map[AllColliders := Layer(map[], ChunkSize, ChunkSize),
                    EnvironmentCollider := Layer(map[], ChunkSize, ChunkSize)];
      heap := map[];
      nextId := 0;
      events := [];
    }

    /** A new Collider2D value: a fresh identity, not yet in any layer. */
    method NewCollider(c: Collider) returns (id: ColliderId)
      requires Valid() && Sized(c)
      modifies this
      ensures Valid()
      ensures id !in old(heap) && heap == old(heap)[id := c]
      ensures layers == old(layers) && events == old(events)
    {
      id := nextId;
      heap := heap[id := c];
      nextId := nextId + 1;
    }

    /** The "add" loop: append `id` to the list of each cell of `fp`. */
    method AppendToCells(t: Tag, fp: seq<Cell>, id: ColliderId)
      requires t in layers
      modifies this`layers
      ensures layers == old(layers)[t := Appended(old(layers)[t], fp, id)]
    {
      var i := 0;
      while i < |fp|
        invariant 0 <= i <= |fp|
        invariant layers == old(layers)[t := Appended(old(layers)[t], fp[..i], id)]
      {
        layers := layers[t := AppendAt(layers[t], fp[i], id)];
        assert fp[..i + 1][..i] == fp[..i];
        i := i + 1;
      }
      assert fp[..|fp|] == fp;
    }

    /** The "remove" loop: drop the `doomed` ids from the list of each cell of `fp`. */
    method DeleteFromCells(t: Tag, fp: seq<Cell>, doomed: set<ColliderId>)
      requires t in layers
      modifies this`layers
      ensures layers == old(layers)[t := Deleted(old(layers)[t], fp, doomed)]
    {
      var i := 0;
      while i < |fp|
        invariant 0 <= i <= |fp|
        invariant layers == old(layers)[t := Deleted(old(layers)[t], fp[..i], doomed)]
      {
        layers := layers[t := DeleteAt(layers[t], fp[i], doomed)];
        assert fp[..i + 1][..i] == fp[..i];
        i := i + 1;
      }
      assert fp[..|fp|] == fp;
    }

    /** One layer's step of a function: `op` applied to the layer of `t`. */
    method ApplyToLayer(t: Tag, op: LayerOp, id: ColliderId, c: Collider)
      requires t in layers && WellChunked(layers[t]) && Sized(c)
      modifies this`layers
      ensures layers == old(layers)[t := ApplyOp(old(layers)[t], op, id, c)]
    {
      var here := Footprint(layers[t], c.center, c.width, c.height);
      match op
      case Insert =>
        AppendToCells(t, here, id);
      case Erase(doomed) =>
        DeleteFromCells(t, here, doomed);
      case Move(prev, doomed) =>
        ShiftInCells(t, Footprint(layers[t], prev, c.width, c.height), here, doomed, id);
      case Reinsert(prev, doomed) =>
        var before := Footprint(layers[t], prev, c.width, c.height);
        ShiftInCells(t, before, before, doomed, id);
    }

    /** Drop the `doomed` colliders from the cells `from`, then append `id` to the cells `to`. */
    method ShiftInCells(t: Tag, from: seq<Cell>, to: seq<Cell>, doomed: set<ColliderId>, id: ColliderId)
      requires t in layers
      modifies this`layers
      ensures layers == old(layers)[t := Appended(Deleted(old(layers)[t], from, doomed), to, id)]
    {
      DeleteFromCells(t, from, doomed);
      AppendToCells(t, to, id);
    }

    /** One turn of the tag loop: a tag with a layer gets the operation, any other is skipped. */
    method ApplyToTag(t: Tag, op: LayerOp, id: ColliderId, c: Collider)
      requires AllWellChunked(layers) && Sized(c)
      modifies this`layers
      ensures layers == TagStep(old(layers), t, op, id, c)
    {
      if t in layers {
        ApplyKeepsChunked(layers, t, op, id, c);
        ApplyToLayer(t, op, id, c);
      }
    }

    /** The tag loop of a function: `op` applied to the layer of each of the collider's tags in turn. */
    method ApplyToTags(id: ColliderId, c: Collider, op: LayerOp)
      requires AllColliders in layers && AllWellChunked(layers) && Sized(c)
      modifies this`layers
      ensures AllColliders in layers && AllWellChunked(layers)
      ensures layers == ApplyPerTag(old(layers), c.tags, op, id, c)
    {
      ghost var start := layers;
      var i := 0;
      assert c.tags[..0] == [];
      while i < |c.tags|
        invariant 0 <= i <= |c.tags|
        invariant layers == ApplyPerTag(start, c.tags[..i], op, id, c)
      {
        ApplyPerTagSnoc(start, c.tags, i, op, id, c);
        ApplyToTag(c.tags[i], op, id, c);
        i := i + 1;
      }
      assert c.tags[..|c.tags|] == c.tags;
    }

    /** The loop over the collider's tags, then the AllColliders layer. */
    method ApplyToMaps(id: ColliderId, c: Collider, tagOp: LayerOp, allOp: LayerOp)
      requires Valid() && Sized(c) && id in heap
      modifies this`layers
      ensures Valid()
      ensures layers == MapsAfter(old(layers), c, id, tagOp, allOp)
    {
      MapsAfterWithin(layers, c, id, tagOp, allOp, heap.Keys);
      ApplyToTags(id, c, tagOp);
      ApplyKeepsChunked(layers, AllColliders, allOp, id, c);
      ApplyToLayer(AllColliders, allOp, id, c);
    }

    /** AddColliderToMaps: index the collider at its footprint in each of its tags' layers and in AllColliders. */
    method AddColliderToMaps(id: ColliderId)
      requires Valid() && id in heap
      modifies this`layers
      ensures Valid()
      ensures layers == MapsAfter(old(layers), heap[id], id, Insert, Insert)
    {
      ApplyToMaps(id, heap[id], Insert, Insert);
    }

    /** removeColliderFromMaps: drop everything equal to the collider from its footprint in the same layers. */
    method RemoveColliderFromMaps(id: ColliderId)
      requires Valid() && id in heap
      modifies this`layers
      ensures Valid()
      ensures var c := heap[id];
        layers == MapsAfter(old(layers), c, id, Erase(EqualIds(heap, c)), Erase(EqualIds(heap, c)))
    {
      var c := heap[id];
      var doomed := EqualIds(heap, c);
      ApplyToMaps(id, c, Erase(doomed), Erase(doomed));
    }

    /**
     * updateColliderInMap as written: the tag layers move the collider from the footprint at
     * `prev` to the current one; the AllColliders layer drops it from the footprint at `prev`
     * and appends it there again.
     */
    method UpdateColliderInMap(id: ColliderId, prev: Point)
      requires Valid() && id in heap
      modifies this`layers
      ensures Valid()
      ensures var c := heap[id]; var doomed := EqualIds(heap, c);
        layers == MapsAfter(old(layers), c, id, Move(prev, doomed), Reinsert(prev, doomed))
    {
      var c := heap[id];
      var doomed := EqualIds(heap, c);
      ApplyToMaps(id, c, Move(prev, doomed), Reinsert(prev, doomed));
    }

    /** updateColliderInMap as evidently intended: every layer moves the collider to its current footprint. */
    method UpdateColliderInMapCorrected(id: ColliderId, prev: Point)
      requires Valid() && id in heap
      modifies this`layers
      ensures Valid()
      ensures var c := heap[id]; var doomed := EqualIds(heap, c);
        layers == MapsAfter(old(layers), c, id, Move(prev, doomed), Move(prev, doomed))
    {
      var c := heap[id];
      var doomed := EqualIds(heap, c);
      ApplyToMaps(id, c, Move(prev, doomed), Move(prev, doomed));
    }
  }
}
