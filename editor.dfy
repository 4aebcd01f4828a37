/** The compositor's state: the layer collection, stored bottom to top, and
    the selected layer id. Each user event replaces the collection with the
    next snapshot computed by the transitions, and updates the selection. */
module Compositor {
  import opened Layers
  import opened Geometry
  import Ordering
  import Transitions
  import Export

  /** Where the resize/rotate handles attach: to the selected layer when the
      first layer with that id is a photo, and to nothing otherwise. */
  function HandleTarget(layers: seq<Layer>, selectedId: Option<string>): (t: Option<string>)
    ensures t.Some? ==> t == selectedId && t.value in Ids(layers)
  {
    if selectedId.None? then None
    else
      var k := FindById(layers, selectedId.value);
      if k >= 0 && layers[k].Photo? then selectedId else None
  }

  /** The handles are shown exactly when the selection names a layer whose
      first occurrence in the collection is a photo: never on the frame,
      never for a stale selection. */
  lemma HandleTargetExact(layers: seq<Layer>, selectedId: Option<string>)
    ensures HandleTarget(layers, selectedId).Some? <==>
      selectedId.Some? &&
      exists k :: 0 <= k < |layers| && layers[k].id == selectedId.value && layers[k].Photo? &&
                  forall j :: 0 <= j < k ==> layers[j].id != selectedId.value
  {
    if selectedId.Some? {
      var id := selectedId.value;
      var f := FindById(layers, id);
      forall k | 0 <= k < |layers| && layers[k].id == id &&
                 forall j :: 0 <= j < k ==> layers[j].id != id
        ensures k == f
      {
        assert Ids(layers)[k] == id;
      }
    }
  }

  /** With well-formed layers, the handles attach to the selected layer
      exactly when it is a photo. */
  lemma HandleTargetWellFormed(layers: seq<Layer>, id: string, i: int)
    requires UniqueIds(layers) && 0 <= i < |layers| && layers[i].id == id
    ensures HandleTarget(layers, Some(id)) == (if layers[i].Photo? then Some(id) else None)
  {
    assert Ids(layers)[i] == id;
    var f := FindById(layers, id);
    assert Ids(layers)[f] == id;
  }

  class Editor {
    var layers: seq<Layer>
    var selectedId: Option<string>

    /** Ids are unique, there is at most one frame, and a selection names a
        layer of the collection. */
    ghost predicate Valid()
      reads this
    {
      WellFormed(layers) && (selectedId.Some? ==> selectedId.value in Ids(layers))
    }

    constructor ()
      ensures Valid() && layers == [] && selectedId == None
    {
      layers := [];
      selectedId := None;
    }

    /** A drag in the layer list ended; `over` is the row it was dropped on. */
    method OnDragEnd(active: string, over: Option<string>)
      requires Valid()
      requires active in Ids(layers) && (over.Some? ==> over.value in Ids(layers))
      modifies this
      ensures Valid()
      ensures layers == Ordering.Reorder(old(layers), active, over)
      ensures multiset(layers) == multiset(old(layers))
      ensures selectedId == old(selectedId)
    {
      Ordering.ReorderKeepsWellFormed(layers, active, over);
      Ordering.ReorderIsPermutation(layers, active, over);
      layers := Ordering.Reorder(layers, active, over);
    }

    /** A frame image was decoded and sized; `freshId` is a new id. */
    method AddFrame(src: string, naturalW: real, naturalH: real, freshId: string)
      requires Valid() && freshId !in Ids(layers)
      modifies this
      ensures Valid()
      ensures layers == Transitions.AddFrame(old(layers), src, naturalW, naturalH, freshId)
      ensures HasFrame(layers)
      ensures selectedId == None
    {
      Transitions.AddFrameKeepsWellFormed(layers, src, naturalW, naturalH, freshId);
      Transitions.AddFrameSingleton(layers, src, naturalW, naturalH, freshId);
      layers := Transitions.AddFrame(layers, src, naturalW, naturalH, freshId);
      selectedId := None;
    }

    /** A photo image was decoded; `freshId` is a new id. The new photo is
        selected. */
    method AddPhoto(src: string, naturalW: real, naturalH: real, freshId: string)
      requires Valid() && freshId !in Ids(layers) && naturalW > 0.0
      modifies this
      ensures Valid()
      ensures layers == Transitions.AddPhoto(old(layers), src, naturalW, naturalH, freshId)
      ensures PhotoCount(layers) == PhotoCount(old(layers)) + 1
      ensures selectedId == Some(freshId)
    {
      Transitions.AddPhotoKeepsWellFormed(layers, src, naturalW, naturalH, freshId);
      Transitions.AddPhotoCounts(layers, src, naturalW, naturalH, freshId);
      layers := Transitions.AddPhoto(layers, src, naturalW, naturalH, freshId);
      selectedId := Some(freshId);
    }

    /** A photo's drag ended; `node` is the surface node registered for the
        id, if any. Without a node nothing changes. */
    method OnPhotoDragEnd(id: string, node: Option<DragEnd>)
      requires Valid()
      modifies this
      ensures Valid()
      ensures node.None? ==> layers == old(layers)
      ensures node.Some? ==> layers == CommitDrag(old(layers), id, node.value)
      ensures selectedId == old(selectedId)
    {
      if node.Some? {
        CommitDragKeepsIdsAndKinds(layers, id, node.value);
        SameIdsAndKindsKeepsInvariant(layers, CommitDrag(layers, id, node.value));
        layers := CommitDrag(layers, id, node.value);
      }
    }

    /** A photo's resize or rotate gesture ended; `node` is the surface node
        registered for the id, if any. Without a node nothing changes. */
    method OnPhotoTransformEnd(id: string, node: Option<TransformEnd>)
      requires Valid()
      modifies this
      ensures Valid()
      ensures node.None? ==> layers == old(layers)
      ensures node.Some? ==> layers == CommitTransform(old(layers), id, node.value)
      ensures selectedId == old(selectedId)
    {
      if node.Some? {
        CommitTransformKeepsIdsAndKinds(layers, id, node.value);
        SameIdsAndKindsKeepsInvariant(layers, CommitTransform(layers, id, node.value));
        layers := CommitTransform(layers, id, node.value);
      }
    }

    /** The eye button of a layer row. */
    method ToggleVisible(id: string)
      requires Valid()
      modifies this
      ensures Valid()
      ensures layers == Transitions.ToggleVisible(old(layers), id)
      ensures selectedId == old(selectedId)
    {
      SameIdsAndKindsKeepsInvariant(layers, Transitions.ToggleVisible(layers, id));
      layers := Transitions.ToggleVisible(layers, id);
    }

    /** A click on a photo on the canvas or on a layer row selects it. */
    method Select(id: string)
      requires Valid() && id in Ids(layers)
      modifies this
      ensures Valid()
      ensures selectedId == Some(id) && layers == old(layers)
    {
      selectedId := Some(id);
    }

    /** A mouse-down on the stage clears the selection when it hit the empty
        background and not a layer. */
    method OnStageMouseDown(onBackground: bool)
      requires Valid()
      modifies this
      ensures Valid()
      ensures selectedId == if onBackground then None else old(selectedId)
      ensures layers == old(layers)
    {
      if onBackground {
        selectedId := None;
      }
    }

    /** "Export JSON": the layout description of the current collection. */
    method ExportJSON() returns (d: Export.LayoutDescription)
      requires Valid()
      ensures d == Export.ExportLayout(layers)
      ensures |d.stackBottomToTop| == |layers|
    {
      d := Export.ExportLayout(layers);
    }

    /** The id the handles are attached to, if any. */
    function Handles(): (t: Option<string>)
      reads this
      requires Valid()
      ensures t.Some? ==> t == selectedId
    {
      HandleTarget(layers, selectedId)
    }
  }
}
