/** Reordering from the layer list. The list shows the collection top to
    bottom; a drop there is applied to the ids in that view and converted
    back to the bottom-to-top storage order through an id lookup. */
module Ordering {
  import opened Layers
  import opened Sequences

  /** The ids as the layer list shows them, top layer first. */
  function TopToBottomIds(layers: seq<Layer>): (ids: seq<string>)
    ensures |ids| == |layers|
    ensures |layers| > 0 ==> ids[0] == layers[|layers| - 1].id && ids[|layers| - 1] == layers[0].id
  {
    Reverse(Ids(layers))
  }

  /** `Object.fromEntries` over (id, layer) pairs: a later layer with the
      same id overwrites an earlier one. */
  function IdMap(layers: seq<Layer>): (m: map<string, Layer>)
    ensures forall k :: k in m <==> k in Ids(layers)
    ensures forall k :: k in m ==> m[k].id == k
  {
    if layers == [] then map[]
    else
      var init := layers[..|layers| - 1];
      var last := layers[|layers| - 1];
      assert layers == init + [last];
      assert Ids(layers) == Ids(init) + [last.id];
      IdMap(init)[last.id := last]
  }

  /** With unique ids the lookup gives back each layer under its own id. */
  lemma {:induction false} IdMapUnique(layers: seq<Layer>, i: int)
    requires UniqueIds(layers) && 0 <= i < |layers|
    ensures layers[i].id in IdMap(layers) && IdMap(layers)[layers[i].id] == layers[i]
  {
    var n := |layers|;
    var init := layers[..n - 1];
    var last := layers[n - 1];
    assert IdMap(layers) == IdMap(init)[last.id := last];
    assert Ids(layers)[i] == layers[i].id;
    if i < n - 1 {
      assert Ids(layers)[i] != Ids(layers)[n - 1];
      assert Ids(init) == Ids(layers)[..n - 1];
      assert UniqueIds(init);
      assert init[i] == layers[i];
      IdMapUnique(init, i);
    }
  }

  /** The layers named by `ids`, in that order. */
  function Lookup(ids: seq<string>, m: map<string, Layer>): (r: seq<Layer>)
    requires forall i :: 0 <= i < |ids| ==> ids[i] in m
    ensures |r| == |ids|
    ensures forall i :: 0 <= i < |r| ==> r[i] in m.Values
    ensures (forall k :: k in m ==> m[k].id == k) ==> Ids(r) == ids
  {
    seq(|ids|, i requires 0 <= i < |ids| => m[ids[i]])
  }

  lemma MovedIdsKnown(layers: seq<Layer>, ids: seq<string>)
    requires multiset(ids) == multiset(Ids(layers))
    ensures forall i :: 0 <= i < |ids| ==> ids[i] in IdMap(layers)
  {
    forall i | 0 <= i < |ids|
      ensures ids[i] in IdMap(layers)
    {
      assert ids[i] in multiset(Ids(layers));
    }
  }

  /** The handler for a finished drag in the layer list: `active` is the
      dragged id, `over` the id it was dropped onto, if any. */
  function Reorder(layers: seq<Layer>, active: string, over: Option<string>): (r: seq<Layer>)
    requires active in Ids(layers)
    requires over.Some? ==> over.value in Ids(layers)
    ensures over.None? || over.value == active ==> r == layers
    ensures |r| == |layers|
  {
    if over.None? || active == over.value then layers
    else
      var idsTopToBottom := TopToBottomIds(layers);
      ReverseKeepsMembers(Ids(layers));
      var from := IndexOf(idsTopToBottom, active);
      var to := IndexOf(idsTopToBottom, over.value);
      var newTopToBottom := ArrayMove(idsTopToBottom, from, to);
      var newBottomToTop := Reverse(newTopToBottom);
      ReverseMultiset(Ids(layers));
      ReverseMultiset(newTopToBottom);
      ArrayMoveMultiset(idsTopToBottom, from, to);
      MovedIdsKnown(layers, newBottomToTop);
      Lookup(newBottomToTop, IdMap(layers))
  }

  /** A listed id has a position in the top-to-bottom view. */
  lemma DragIndexInRange(layers: seq<Layer>, id: string)
    requires id in Ids(layers)
    ensures 0 <= IndexOf(TopToBottomIds(layers), id) < |layers|
  {
    ReverseKeepsMembers(Ids(layers));
  }

  /** Position `i` of the moved ids names the layer at position `i` of the
      moved layers; both come from input position `j`. */
  lemma MovedAt(layers: seq<Layer>, from: int, to: int, i: int) returns (j: int)
    requires 0 <= from < |layers| && 0 <= to < |layers| && 0 <= i < |layers|
    ensures 0 <= j < |layers| && j == |layers| - 1 - MovedFrom(from, to, |layers| - 1 - i)
    ensures Reverse(ArrayMove(TopToBottomIds(layers), from, to))[i] == layers[j].id
    ensures Reverse(ArrayMove(Reverse(layers), from, to))[i] == layers[j]
  {
    var n := |layers|;
    var p := n - 1 - i;
    ArrayMoveAt(TopToBottomIds(layers), from, to, p);
    ArrayMoveAt(Reverse(layers), from, to, p);
    j := n - 1 - MovedFrom(from, to, p);
  }

  /** Looking up the moved ids gives the moved layers. */
  lemma LookupMovedIds(layers: seq<Layer>, from: int, to: int)
    requires UniqueIds(layers)
    requires 0 <= from < |layers| && 0 <= to < |layers|
    ensures forall i :: 0 <= i < |layers| ==> Reverse(ArrayMove(TopToBottomIds(layers), from, to))[i] in IdMap(layers)
    ensures Lookup(Reverse(ArrayMove(TopToBottomIds(layers), from, to)), IdMap(layers))
         == Reverse(ArrayMove(Reverse(layers), from, to))
  {
    var newIds := Reverse(ArrayMove(TopToBottomIds(layers), from, to));
    var moved := Reverse(ArrayMove(Reverse(layers), from, to));
    forall i | 0 <= i < |layers|
      ensures newIds[i] in IdMap(layers) && IdMap(layers)[newIds[i]] == moved[i]
    {
      var j := MovedAt(layers, from, to, i);
      IdMapUnique(layers, j);
    }
  }

  /** Storage-order form of a reorder: moving the layers themselves in the
      top-to-bottom view gives the same collection as the id round trip. */
  lemma ReorderMovesLayers(layers: seq<Layer>, active: string, over: string)
    requires UniqueIds(layers)
    requires active in Ids(layers) && over in Ids(layers) && active != over
    ensures
      var from := IndexOf(TopToBottomIds(layers), active);
      var to := IndexOf(TopToBottomIds(layers), over);
      0 <= from < |layers| && 0 <= to < |layers| &&
      Reorder(layers, active, Some(over)) == Reverse(ArrayMove(Reverse(layers), from, to))
  {
    DragIndexInRange(layers, active);
    DragIndexInRange(layers, over);
    var from := IndexOf(TopToBottomIds(layers), active);
    var to := IndexOf(TopToBottomIds(layers), over);
    LookupMovedIds(layers, from, to);
  }

  /** Moving layers in the top-to-bottom view keeps ids unique. */
  lemma MovedLayersUnique(layers: seq<Layer>, from: int, to: int)
    requires UniqueIds(layers)
    requires 0 <= from < |layers| && 0 <= to < |layers|
    ensures UniqueIds(Reverse(ArrayMove(Reverse(layers), from, to)))
  {
    var n := |layers|;
    var moved := Reverse(ArrayMove(Reverse(layers), from, to));
    forall i, j | 0 <= i < j < n
      ensures Ids(moved)[i] != Ids(moved)[j]
    {
      var p := MovedAt(layers, from, to, i);
      var q := MovedAt(layers, from, to, j);
      MovedFromInjective(from, to, n - 1 - i, n - 1 - j);
      assert Ids(layers)[p] != Ids(layers)[q];
    }
  }

  /** The reorder is a permutation: the same layer records, each unchanged,
      and the ids stay unique. */
  lemma ReorderIsPermutation(layers: seq<Layer>, active: string, over: Option<string>)
    requires UniqueIds(layers)
    requires active in Ids(layers) && (over.Some? ==> over.value in Ids(layers))
    ensures multiset(Reorder(layers, active, over)) == multiset(layers)
    ensures UniqueIds(Reorder(layers, active, over))
  {
    if over.Some? && over.value != active {
      ReorderMovesLayers(layers, active, over.value);
      var from := IndexOf(TopToBottomIds(layers), active);
      var to := IndexOf(TopToBottomIds(layers), over.value);
      var moved := ArrayMove(Reverse(layers), from, to);
      ReverseMultiset(layers);
      ArrayMoveMultiset(Reverse(layers), from, to);
      ReverseMultiset(moved);
      MovedLayersUnique(layers, from, to);
    }
  }

  /** In the top-to-bottom view the dragged layer lands at the index the
      drop target had, and every other layer keeps its relative order. */
  lemma ReorderLandsOnTarget(layers: seq<Layer>, active: string, over: string)
    requires UniqueIds(layers)
    requires active in Ids(layers) && over in Ids(layers) && active != over
    ensures
      var from := IndexOf(TopToBottomIds(layers), active);
      var to := IndexOf(TopToBottomIds(layers), over);
      var r := Reorder(layers, active, Some(over));
      0 <= from < |layers| && 0 <= to < |layers| &&
      IndexOf(TopToBottomIds(r), active) == to &&
      Reverse(r)[to] == Reverse(layers)[from] &&
      RemoveAt(Reverse(r), to) == RemoveAt(Reverse(layers), from)
  {
    ReorderMovesLayers(layers, active, over);
    ReorderIsPermutation(layers, active, Some(over));
    var from := IndexOf(TopToBottomIds(layers), active);
    var to := IndexOf(TopToBottomIds(layers), over);
    var r := Reorder(layers, active, Some(over));
    var moved := ArrayMove(Reverse(layers), from, to);
    ReverseReverse(moved);
    ArrayMoveKeepsOthers(Reverse(layers), from, to);
    assert Reverse(r) == moved;
    TopToBottomIdsAt(r, to);
    TopToBottomIdsAt(layers, from);
    ReverseDistinct(Ids(r));
    IndexOfDistinct(TopToBottomIds(r), to);
  }

  lemma TopToBottomIdsAt(layers: seq<Layer>, k: int)
    requires 0 <= k < |layers|
    ensures |TopToBottomIds(layers)| == |layers|
    ensures TopToBottomIds(layers)[k] == Reverse(layers)[k].id
  {
  }

  /** Dragging the layer back onto the id that now sits at its old index
      restores the original collection. */
  lemma ReorderUndo(layers: seq<Layer>, active: string, over: string)
    requires UniqueIds(layers)
    requires active in Ids(layers) && over in Ids(layers) && active != over
    ensures
      var from := IndexOf(TopToBottomIds(layers), active);
      var r := Reorder(layers, active, Some(over));
      0 <= from < |r| == |TopToBottomIds(r)| &&
      var back := TopToBottomIds(r)[from];
      back != active && active in Ids(r) && back in Ids(r) &&
      Reorder(r, active, Some(back)) == layers
  {
    var ids := TopToBottomIds(layers);
    DragIndexInRange(layers, active);
    DragIndexInRange(layers, over);
    var from := IndexOf(ids, active);
    var to := IndexOf(ids, over);
    assert from != to;
    ReorderLandsOnTarget(layers, active, over);
    ReorderIsPermutation(layers, active, Some(over));
    var r := Reorder(layers, active, Some(over));
    var rIds := TopToBottomIds(r);
    TopToBottomIdsAt(r, from);
    ReverseDistinct(Ids(r));
    IndexOfDistinct(rIds, from);
    var back := rIds[from];
    assert back != active;
    assert active in Ids(r) && back in Ids(r) by {
      ReverseKeepsMembers(Ids(r));
    }
    ReorderMovesLayers(r, active, back);
    ReorderMovesLayers(layers, active, over);
    ReverseReverse(ArrayMove(Reverse(layers), from, to));
    ArrayMoveInverse(Reverse(layers), from, to);
    ReverseReverse(layers);
  }

  /** Moving layers keeps the single-frame rule. */
  lemma MovedLayersOneFrame(layers: seq<Layer>, from: int, to: int)
    requires AtMostOneFrame(layers)
    requires 0 <= from < |layers| && 0 <= to < |layers|
    ensures AtMostOneFrame(Reverse(ArrayMove(Reverse(layers), from, to)))
  {
    var n := |layers|;
    var moved := Reverse(ArrayMove(Reverse(layers), from, to));
    forall i, j | 0 <= i < n && 0 <= j < n && moved[i].Frame? && moved[j].Frame?
      ensures i == j
    {
      var p := MovedAt(layers, from, to, i);
      var q := MovedAt(layers, from, to, j);
      if i != j {
        MovedFromInjective(from, to, n - 1 - i, n - 1 - j);
      }
    }
  }

  /** A reorder keeps the collection invariant and the set of ids, so a
      selection stays valid. */
  lemma ReorderKeepsWellFormed(layers: seq<Layer>, active: string, over: Option<string>)
    requires WellFormed(layers)
    requires active in Ids(layers) && (over.Some? ==> over.value in Ids(layers))
    ensures WellFormed(Reorder(layers, active, over))
    ensures forall id :: id in Ids(layers) ==> id in Ids(Reorder(layers, active, over))
  {
    var r := Reorder(layers, active, over);
    ReorderIsPermutation(layers, active, over);
    if over.Some? && over.value != active {
      ReorderMovesLayers(layers, active, over.value);
      var from := IndexOf(TopToBottomIds(layers), active);
      var to := IndexOf(TopToBottomIds(layers), over.value);
      MovedLayersOneFrame(layers, from, to);
    }
    PermutationKeepsIds(layers, r);
  }

  /** A permutation of the layers carries every id along. */
  lemma PermutationKeepsIds(a: seq<Layer>, b: seq<Layer>)
    requires multiset(a) == multiset(b)
    ensures forall id :: id in Ids(a) ==> id in Ids(b)
  {
    forall id | id in Ids(a)
      ensures id in Ids(b)
    {
      var i :| 0 <= i < |a| && Ids(a)[i] == id;
      assert a[i] in multiset(b);
      var k :| 0 <= k < |b| && b[k] == a[i];
      assert Ids(b)[k] == id;
    }
  }

  /** The layer list's own example: storage order [frame, A, B] shows as
      [B, A, frame]; dropping B onto the frame's row shows [A, frame, B],
      which is storage order [B, frame, A]. */
  lemma ReorderExample(frame: Layer, a: Layer, b: Layer)
    requires frame.id == "f" && a.id == "a" && b.id == "b"
    ensures Ids([frame, a, b]) == ["f", "a", "b"]
    ensures "b" in Ids([frame, a, b]) && "f" in Ids([frame, a, b]) &&
            Reorder([frame, a, b], "b", Some("f")) == [b, frame, a]
  {
    var layers := [frame, a, b];
    var ids := Ids(layers);
    assert ids[0] == "f" && ids[1] == "a" && ids[2] == "b";
    assert ids == ["f", "a", "b"];
    assert UniqueIds(layers);
    assert Reverse(ids) == ["b", "a", "f"];
    assert IndexOf(TopToBottomIds(layers), "b") == 0;
    assert IndexOf(TopToBottomIds(layers), "f") == 2;
    ReorderMovesLayers(layers, "b", "f");
    MoveTopToBottom(frame, a, b);
  }

  /** Moving the top one of three onto the bottom one, in the top-to-bottom
      view, puts it at the bottom of that view. */
  lemma MoveTopToBottom<T>(x: T, y: T, z: T)
    ensures Reverse(ArrayMove(Reverse([x, y, z]), 0, 2)) == [z, x, y]
  {
    assert Reverse([x, y, z]) == [z, y, x];
    assert RemoveAt([z, y, x], 0) == [y, x];
    assert ArrayMove([z, y, x], 0, 2) == [y, x, z];
  }
}

