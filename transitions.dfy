/** The collection updaters behind "Add Frame", "Add Photo" and the
    visibility toggle of a layer row. Each takes the collection and returns
    the next one. */
module Transitions {
  import opened Layers
  import opened Geometry
  import opened Decimal

  /** The frame layer "Add Frame" builds: it reuses the id of the frame
      already present, and takes `freshId` only when there is none. */
  function NewFrame(layers: seq<Layer>, src: string, naturalW: real, naturalH: real,
                    freshId: string): (f: Layer)
    ensures f.Frame? && f.name == "Frame" && f.visible && f.src == src
    ensures f.naturalW == naturalW && f.naturalH == naturalH
    ensures !HasFrame(layers) ==> f.id == freshId
    ensures HasFrame(layers) ==> exists k :: 0 <= k < |layers| && layers[k].Frame? && f.id == layers[k].id
  {
    var k := FirstFrameIndex(layers);
    var id := if k == -1 then freshId else layers[k].id;
    Frame(id, "Frame", true, src, naturalW, naturalH)
  }

  /** "Add Frame": replace the frame in place, or append one if there is
      none. */
  function AddFrame(layers: seq<Layer>, src: string, naturalW: real, naturalH: real,
                    freshId: string): (r: seq<Layer>)
    ensures !HasFrame(layers) ==> r == layers + [NewFrame(layers, src, naturalW, naturalH, freshId)]
    ensures HasFrame(layers) ==> |r| == |layers|
    ensures HasFrame(layers) ==> forall i :: 0 <= i < |r| ==>
      r[i] == if layers[i].Frame? then NewFrame(layers, src, naturalW, naturalH, freshId) else layers[i]
  {
    var frame := NewFrame(layers, src, naturalW, naturalH, freshId);
    if FirstFrameIndex(layers) == -1 then layers + [frame]
    else seq(|layers|, i requires 0 <= i < |layers| => if layers[i].Frame? then frame else layers[i])
  }

  /** With at most one frame before, there is exactly one afterwards, at the
      same index and with the same id when one existed; a new frame is
      appended under the fresh id. Every other layer is untouched. */
  lemma AddFrameSingleton(layers: seq<Layer>, src: string, naturalW: real, naturalH: real,
                          freshId: string)
    requires AtMostOneFrame(layers)
    ensures
      var r := AddFrame(layers, src, naturalW, naturalH, freshId);
      HasFrame(r) && AtMostOneFrame(r) &&
      (forall i :: 0 <= i < |layers| && !layers[i].Frame? ==> r[i] == layers[i]) &&
      (forall i :: 0 <= i < |layers| && layers[i].Frame? ==> r[i].id == layers[i].id) &&
      (!HasFrame(layers) ==> |r| == |layers| + 1 && r[|layers|].id == freshId)
  {
    var r := AddFrame(layers, src, naturalW, naturalH, freshId);
    if !HasFrame(layers) {
      assert r[|layers|].Frame?;
    } else {
      var k :| 0 <= k < |layers| && layers[k].Frame?;
      assert r[k].Frame?;
    }
  }

  /** With a fresh id the invariant of the collection is kept. */
  lemma AddFrameKeepsWellFormed(layers: seq<Layer>, src: string, naturalW: real, naturalH: real,
                                freshId: string)
    requires WellFormed(layers) && freshId !in Ids(layers)
    ensures WellFormed(AddFrame(layers, src, naturalW, naturalH, freshId))
    ensures forall id :: id in Ids(layers) ==> id in Ids(AddFrame(layers, src, naturalW, naturalH, freshId))
  {
    AddFrameSingleton(layers, src, naturalW, naturalH, freshId);
    var r := AddFrame(layers, src, naturalW, naturalH, freshId);
    if HasFrame(layers) {
      assert SameIdsAndKinds(layers, r);
      SameIdsAndKindsKeepsInvariant(layers, r);
    } else {
      assert Ids(r) == Ids(layers) + [freshId];
    }
  }

  /** Adding a frame twice leaves one frame, under the id the first call
      settled on. */
  lemma AddFrameTwice(layers: seq<Layer>, src1: string, w1: real, h1: real,
                      src2: string, w2: real, h2: real, fresh1: string, fresh2: string)
    requires AtMostOneFrame(layers)
    ensures
      var r1 := AddFrame(layers, src1, w1, h1, fresh1);
      var r2 := AddFrame(r1, src2, w2, h2, fresh2);
      AtMostOneFrame(r2) && |r2| == |r1| &&
      exists k :: 0 <= k < |r1| && r1[k].Frame? && r2[k].Frame? && r2[k].id == r1[k].id &&
        r2[k].src == src2 && r2[k].naturalW == w2 && r2[k].naturalH == h2
  {
    AddFrameSingleton(layers, src1, w1, h1, fresh1);
    var r1 := AddFrame(layers, src1, w1, h1, fresh1);
    AddFrameSingleton(r1, src2, w2, h2, fresh2);
    var k :| 0 <= k < |r1| && r1[k].Frame?;
    var r2 := AddFrame(r1, src2, w2, h2, fresh2);
    assert r2[k].Frame?;
  }

  /** Width of a new photo: 40% of the frame width, rounded. */
  function TargetWidth(frameW: real): (w: int)
    ensures frameW * 0.4 - 0.5 < w as real <= frameW * 0.4 + 0.5
  {
    Round(frameW * 0.4)
  }

  /** The photo layer "Add Photo" builds, sized against the frame (or the
      default 1680 x 844 space) and centred on it. */
  function NewPhoto(layers: seq<Layer>, src: string, naturalW: real, naturalH: real,
                    freshId: string): (p: Layer)
    requires naturalW > 0.0
    ensures p.Photo? && p.id == freshId && p.visible && p.src == src && p.rotation == 0.0
    ensures p.naturalW == naturalW && p.naturalH == naturalH
    ensures p.name == "Photo " + NatToString(PhotoCount(layers) + 1)
  {
    var (frameW, frameH) := FrameSize(layers);
    var targetW := TargetWidth(frameW) as real;
    var targetH := Round(naturalH / naturalW * targetW) as real;
    Photo(freshId, "Photo " + NatToString(PhotoCount(layers) + 1), true, src,
          Round((frameW - targetW) / 2.0) as real, Round((frameH - targetH) / 2.0) as real,
          targetW, targetH, 0.0, naturalW, naturalH)
  }

  /** The new photo's geometry: within half a unit of 40% of the frame
      width, of the image's aspect ratio, and of the centre of the frame. */
  lemma NewPhotoGeometry(layers: seq<Layer>, src: string, naturalW: real, naturalH: real,
                         freshId: string)
    requires naturalW > 0.0
    ensures
      var p := NewPhoto(layers, src, naturalW, naturalH, freshId);
      var (frameW, frameH) := FrameSize(layers);
      p.width == p.width.Floor as real && p.height == p.height.Floor as real &&
      p.x == p.x.Floor as real && p.y == p.y.Floor as real &&
      frameW * 0.4 - 0.5 < p.width <= frameW * 0.4 + 0.5 &&
      naturalH / naturalW * p.width - 0.5 < p.height <= naturalH / naturalW * p.width + 0.5 &&
      (frameW - p.width) / 2.0 - 0.5 < p.x <= (frameW - p.width) / 2.0 + 0.5 &&
      (frameH - p.height) / 2.0 - 0.5 < p.y <= (frameH - p.height) / 2.0 + 0.5
  {
  }

  /** "Add Photo": append the new photo. */
  function AddPhoto(layers: seq<Layer>, src: string, naturalW: real, naturalH: real,
                    freshId: string): (r: seq<Layer>)
    requires naturalW > 0.0
    ensures |r| == |layers| + 1 && r[..|layers|] == layers
    ensures r[|layers|] == NewPhoto(layers, src, naturalW, naturalH, freshId)
  {
    layers + [NewPhoto(layers, src, naturalW, naturalH, freshId)]
  }

  /** One more photo, numbered after the photos already there. */
  lemma AddPhotoCounts(layers: seq<Layer>, src: string, naturalW: real, naturalH: real,
                       freshId: string)
    requires naturalW > 0.0
    ensures
      var r := AddPhoto(layers, src, naturalW, naturalH, freshId);
      PhotoCount(r) == PhotoCount(layers) + 1
  {
    var p := NewPhoto(layers, src, naturalW, naturalH, freshId);
    PhotoCountAppend(layers, p);
  }

  /** The new photo's name carries the photo count after the addition. */
  lemma AddPhotoName(layers: seq<Layer>, src: string, naturalW: real, naturalH: real,
                     freshId: string)
    requires naturalW > 0.0
    ensures
      var r := AddPhoto(layers, src, naturalW, naturalH, freshId);
      r[|layers|].name == "Photo " + NatToString(PhotoCount(r))
  {
    AddPhotoCounts(layers, src, naturalW, naturalH, freshId);
  }

  /** With a fresh id the invariant of the collection is kept, and the ids
      are the old ones followed by the new one. */
  lemma AddPhotoKeepsWellFormed(layers: seq<Layer>, src: string, naturalW: real, naturalH: real,
                                freshId: string)
    requires naturalW > 0.0
    ensures
      var r := AddPhoto(layers, src, naturalW, naturalH, freshId);
      Ids(r) == Ids(layers) + [freshId] &&
      (HasFrame(r) <==> HasFrame(layers)) &&
      (WellFormed(layers) && freshId !in Ids(layers) ==> WellFormed(r))
  {
    var r := AddPhoto(layers, src, naturalW, naturalH, freshId);
    assert Ids(r) == Ids(layers) + [freshId];
    if HasFrame(r) {
      var k :| 0 <= k < |r| && r[k].Frame?;
      assert k < |layers| && layers[k].Frame?;
    }
  }

  /** The first photo on the default 1680 x 844 frame space, from a 500 x 500
      image: 672 x 672 at (504, 86), named "Photo 1". */
  lemma NewPhotoExample(frame: Layer)
    requires frame.Frame? && frame.naturalW == 1680.0 && frame.naturalH == 844.0
    ensures
      var p := NewPhoto([frame], "img", 500.0, 500.0, "p1");
      p.width == 672.0 && p.height == 672.0 && p.x == 504.0 && p.y == 86.0 && p.name == "Photo 1"
  {
    assert FirstFrameIndex([frame]) == 0;
    assert PhotoCount([frame]) == 0;
    assert Round(1680.0 * 0.4) == 672;
    assert Round(500.0 / 500.0 * 672.0) == 672;
    assert Round((1680.0 - 672.0) / 2.0) == 504;
    assert Round((844.0 - 672.0) / 2.0) == 86;
  }

  /** The visibility toggle of a layer row: flip `visible` on the layers
      with that id. */
  function ToggleVisible(layers: seq<Layer>, id: string): (r: seq<Layer>)
    ensures SameIdsAndKinds(layers, r)
    ensures forall i :: 0 <= i < |r| ==>
      r[i].visible == (if layers[i].id == id then !layers[i].visible else layers[i].visible)
    ensures forall i :: 0 <= i < |r| && layers[i].id != id ==> r[i] == layers[i]
    ensures forall i :: 0 <= i < |r| ==> r[i].(visible := layers[i].visible) == layers[i]
  {
    seq(|layers|, i requires 0 <= i < |layers| =>
      var p := layers[i];
      if p.id == id then p.(visible := !p.visible) else p)
  }

  /** Toggling the same row twice restores the collection. */
  lemma ToggleVisibleTwice(layers: seq<Layer>, id: string)
    ensures ToggleVisible(ToggleVisible(layers, id), id) == layers
  {
    var r := ToggleVisible(ToggleVisible(layers, id), id);
    forall i | 0 <= i < |layers|
      ensures r[i] == layers[i]
    {
      var p := layers[i];
      if p.id == id {
        match p
        case Frame(_, _, _, _, _, _) =>
        case Photo(_, _, _, _, _, _, _, _, _, _, _) =>
      }
    }
  }
}
