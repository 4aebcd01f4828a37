/** The layer types of the compositor: a tagged union of a frame layer and
    photo layers, and the ordered, bottom-to-top collection they live in. */
module Layers {
  import opened Sequences

  datatype Option<T> = None | Some(value: T)

  /** The two layer kinds. Their textual tags are "frame" and "photo". */
  datatype Kind = FrameKind | PhotoKind

  function KindTag(k: Kind): (tag: string)
    ensures tag == "frame" || tag == "photo"
  {
    match k
    case FrameKind => "frame"
    case PhotoKind => "photo"
  }

  /** Reads a tag back; only the two tags of `Kind` are accepted. */
  function ParseKind(tag: string): (k: Option<Kind>)
  {
    if tag == "frame" then Some(FrameKind)
    else if tag == "photo" then Some(PhotoKind)
    else None
  }

  /** `Kind` has exactly two values, and each is named by its own tag. */
  lemma KindTagRoundTrip(k: Kind, tag: string)
    ensures ParseKind(KindTag(k)) == Some(k)
    ensures ParseKind(tag).Some? <==> tag == "frame" || tag == "photo"
    ensures ParseKind(tag).Some? ==> KindTag(ParseKind(tag).value) == tag
  {
  }

  /** Every layer carries id, name, visible and src. A frame adds only its
      natural size; a photo adds position, size, rotation and natural size. */
  datatype Layer =
    | Frame(id: string, name: string, visible: bool, src: string,
            naturalW: real, naturalH: real)
    | Photo(id: string, name: string, visible: bool, src: string,
            x: real, y: real, width: real, height: real, rotation: real,
            naturalW: real, naturalH: real)
  {
    function LayerKind(): (k: Kind)
      ensures k == FrameKind <==> Frame?
    {
      if Frame? then FrameKind else PhotoKind
    }
  }

  /** The ids of a collection, in the same order. */
  function Ids(layers: seq<Layer>): seq<string>
  {
    seq(|layers|, i requires 0 <= i < |layers| => layers[i].id)
  }

  predicate UniqueIds(layers: seq<Layer>)
  {
    Distinct(Ids(layers))
  }

  predicate HasFrame(layers: seq<Layer>)
  {
    exists i :: 0 <= i < |layers| && layers[i].Frame?
  }

  /** The singleton rule: no two positions hold a frame. */
  predicate AtMostOneFrame(layers: seq<Layer>)
  {
    forall i, j :: 0 <= i < |layers| && 0 <= j < |layers| && layers[i].Frame? && layers[j].Frame? ==> i == j
  }

  /** The invariant every reachable collection keeps. */
  predicate WellFormed(layers: seq<Layer>)
  {
    UniqueIds(layers) && AtMostOneFrame(layers)
  }

  /** Number of photo layers (the length of the photo filter). */
  function PhotoCount(layers: seq<Layer>): (n: nat)
    ensures n <= |layers|
  {
    if layers == [] then 0
    else PhotoCount(layers[..|layers| - 1]) + (if layers[|layers| - 1].Photo? then 1 else 0)
  }

  lemma PhotoCountAppend(layers: seq<Layer>, l: Layer)
    ensures PhotoCount(layers + [l]) == PhotoCount(layers) + (if l.Photo? then 1 else 0)
  {
    assert (layers + [l])[..|layers|] == layers;
  }

  /** Index of the first frame (the `find` on kind "frame"), or -1. */
  function FirstFrameIndex(layers: seq<Layer>): (k: int)
    ensures -1 <= k < |layers|
    ensures k == -1 <==> !HasFrame(layers)
    ensures 0 <= k ==> layers[k].Frame? && forall j :: 0 <= j < k ==> !layers[j].Frame?
  {
    if layers == [] then -1
    else if layers[0].Frame? then 0
    else
      var k := FirstFrameIndex(layers[1..]);
      assert k == -1 ==> forall i :: 1 <= i < |layers| ==> layers[i] == layers[1..][i - 1];
      if k == -1 then -1 else k + 1
  }

  /** Index of the first layer with the given id (the `find` on id), or -1. */
  function FindById(layers: seq<Layer>, id: string): (k: int)
    ensures -1 <= k < |layers|
    ensures k == -1 <==> id !in Ids(layers)
    ensures 0 <= k ==> layers[k].id == id && forall j :: 0 <= j < k ==> layers[j].id != id
  {
    if layers == [] then -1
    else
      assert Ids(layers) == [layers[0].id] + Ids(layers[1..]);
      if layers[0].id == id then 0
      else
        var k := FindById(layers[1..], id);
        if k == -1 then -1 else k + 1
  }

  const DefaultFrameW: real := 1680.0
  const DefaultFrameH: real := 844.0

  /** The frame's natural size, or 1680 x 844 while there is no frame. */
  function FrameSize(layers: seq<Layer>): (size: (real, real))
    ensures !HasFrame(layers) ==> size == (DefaultFrameW, DefaultFrameH)
    ensures HasFrame(layers) ==>
      exists k :: 0 <= k < |layers| && layers[k].Frame? && size == (layers[k].naturalW, layers[k].naturalH) &&
                  forall j :: 0 <= j < k ==> !layers[j].Frame?
  {
    var k := FirstFrameIndex(layers);
    if k == -1 then (DefaultFrameW, DefaultFrameH)
    else (layers[k].naturalW, layers[k].naturalH)
  }

  /** Two collections with the same ids and kinds position by position. */
  predicate SameIdsAndKinds(a: seq<Layer>, b: seq<Layer>)
  {
    |a| == |b| && forall i :: 0 <= i < |a| ==> a[i].id == b[i].id && a[i].Frame? == b[i].Frame?
  }

  /** A transition that keeps ids and kinds in place keeps the invariant,
      the id set and the presence of a frame. */
  lemma SameIdsAndKindsKeepsInvariant(a: seq<Layer>, b: seq<Layer>)
    requires SameIdsAndKinds(a, b)
    ensures Ids(a) == Ids(b)
    ensures WellFormed(a) ==> WellFormed(b)
    ensures HasFrame(a) <==> HasFrame(b)
  {
    assert forall i :: 0 <= i < |a| ==> Ids(a)[i] == Ids(b)[i];
  }
}
