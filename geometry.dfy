/** Committing the manipulation surface's post-gesture geometry into the
    layer collection, and the live bound check of a resize gesture. */
module Geometry {
  import opened Layers

  /** JavaScript's `Math.round`: the nearest integer, halves rounded up. */
  function Round(v: real): (n: int)
    ensures v - 0.5 < n as real <= v + 0.5
  {
    (v + 0.5).Floor
  }

  function Max(a: real, b: real): (m: real)
    ensures m >= a && m >= b && (m == a || m == b)
  {
    if a >= b then a else b
  }

  /** Smallest width and height a committed transform may leave. */
  const MinCommitSize: real := 20.0

  /** Smallest box the resize handles accept while the gesture is live. */
  const MinHandleSize: real := 40.0

  /** Where the surface left a photo after a drag. */
  datatype DragEnd = DragEnd(x: real, y: real)

  /** What the surface reports after a resize or rotate gesture. */
  datatype TransformEnd = TransformEnd(x: real, y: real, width: real, height: real,
                                       rotation: real, scaleX: real, scaleY: real)

  /** A box proposed or kept by the resize handles. */
  datatype Box = Box(x: real, y: real, width: real, height: real, rotation: real)

  /** Drag commit: the photo with this id takes the surface's position. */
  function CommitDrag(layers: seq<Layer>, id: string, node: DragEnd): (r: seq<Layer>)
    ensures |r| == |layers|
    ensures forall i :: 0 <= i < |r| && layers[i].Photo? && layers[i].id == id ==>
      r[i] == layers[i].(x := node.x, y := node.y)
    ensures forall i :: 0 <= i < |r| && !(layers[i].Photo? && layers[i].id == id) ==>
      r[i] == layers[i]
    ensures id !in Ids(layers) ==> r == layers
  {
    assert forall i :: 0 <= i < |layers| ==> Ids(layers)[i] == layers[i].id;
    seq(|layers|, i requires 0 <= i < |layers| =>
      var l := layers[i];
      if l.id == id && l.Photo? then l.(x := node.x, y := node.y) else l)
  }

  /** The size a transform commits: the scale absorbed into the size, with a
      floor of 20. */
  function CommittedSize(size: real, scale: real): (s: real)
    ensures s >= MinCommitSize
    ensures size * scale >= MinCommitSize ==> s == size * scale
    ensures size * scale < MinCommitSize ==> s == MinCommitSize
  {
    Max(MinCommitSize, size * scale)
  }

  /** Transform commit: the photo with this id takes the surface's position
      and rotation and the scaled, floored size. */
  function CommitTransform(layers: seq<Layer>, id: string, node: TransformEnd): (r: seq<Layer>)
    ensures |r| == |layers|
    ensures forall i :: 0 <= i < |r| && !(layers[i].Photo? && layers[i].id == id) ==>
      r[i] == layers[i]
    ensures id !in Ids(layers) ==> r == layers
  {
    assert forall i :: 0 <= i < |layers| ==> Ids(layers)[i] == layers[i].id;
    var width := CommittedSize(node.width, node.scaleX);
    var height := CommittedSize(node.height, node.scaleY);
    seq(|layers|, i requires 0 <= i < |layers| =>
      var l := layers[i];
      if l.id == id && l.Photo? then
        l.(x := node.x, y := node.y, width := width, height := height, rotation := node.rotation)
      else l)
  }

  /** Whatever the scale factors, zero and negative included, the committed
      photo is at least 20 by 20, sits where the surface put it, and keeps
      its id, name, visibility, source and natural size. */
  lemma CommitTransformTarget(layers: seq<Layer>, id: string, node: TransformEnd, i: int)
    requires 0 <= i < |layers| && layers[i].Photo? && layers[i].id == id
    ensures
      var p := CommitTransform(layers, id, node)[i];
      p.Photo? && p.width >= MinCommitSize && p.height >= MinCommitSize &&
      p.width == CommittedSize(node.width, node.scaleX) &&
      p.height == CommittedSize(node.height, node.scaleY) &&
      p.x == node.x && p.y == node.y && p.rotation == node.rotation &&
      p.id == id && p.name == layers[i].name && p.visible == layers[i].visible &&
      p.src == layers[i].src &&
      p.naturalW == layers[i].naturalW && p.naturalH == layers[i].naturalH
  {
  }

  /** A photo 100 by 50 scaled by 2 and 0.1 commits as 200 by 20. */
  lemma CommitTransformExample(p: Layer)
    requires p.Photo? && p.id == "a"
    ensures
      var r := CommitTransform([p], "a", TransformEnd(p.x, p.y, 100.0, 50.0, p.rotation, 2.0, 0.1));
      |r| == 1 && r[0].Photo? && r[0].width == 200.0 && r[0].height == 20.0
  {
  }

  /** The drag commit keeps ids and kinds in place. */
  lemma CommitDragKeepsIdsAndKinds(layers: seq<Layer>, id: string, node: DragEnd)
    ensures SameIdsAndKinds(layers, CommitDrag(layers, id, node))
  {
  }

  /** The transform commit keeps ids and kinds in place. */
  lemma CommitTransformKeepsIdsAndKinds(layers: seq<Layer>, id: string, node: TransformEnd)
    ensures SameIdsAndKinds(layers, CommitTransform(layers, id, node))
  {
  }

  /** The live bound check of the resize handles: a proposed box narrower
      or lower than 40 is refused and the old box kept. */
  function BoundBox(oldBox: Box, newBox: Box): (b: Box)
    ensures newBox.width < MinHandleSize || newBox.height < MinHandleSize ==> b == oldBox
    ensures newBox.width >= MinHandleSize && newBox.height >= MinHandleSize ==> b == newBox
  {
    if newBox.width < MinHandleSize || newBox.height < MinHandleSize then oldBox else newBox
  }

  predicate BigEnough(b: Box)
  {
    b.width >= MinHandleSize && b.height >= MinHandleSize
  }

  /** A gesture feeds the handles a run of proposed boxes; each is checked
      against the box kept so far. */
  function Gesture(start: Box, proposals: seq<Box>): (b: Box)
    ensures b == start || b in proposals
    decreases |proposals|
  {
    if proposals == [] then start
    else Gesture(BoundBox(start, proposals[0]), proposals[1..])
  }

  /** Starting from a box of at least 40 by 40, no run of proposals can
      shrink the box below 40 in either dimension. */
  lemma {:induction false} GestureKeepsMinimum(start: Box, proposals: seq<Box>)
    requires BigEnough(start)
    ensures BigEnough(Gesture(start, proposals))
    decreases |proposals|
  {
    if proposals != [] {
      GestureKeepsMinimum(BoundBox(start, proposals[0]), proposals[1..]);
    }
  }
}
