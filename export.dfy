/** The layout description "Export JSON" produces: the frame size and the
    stack bottom to top, one entry per layer. */
module Export {
  import opened Layers

  /** One entry of `stackBottomToTop`; `entryType` is the JSON key "type". */
  datatype StackEntry =
    | PhotoEntry(entryType: string, id: string, name: string, visible: bool, src: string,
                 x: real, y: real, width: real, height: real, rotation: real,
                 naturalW: real, naturalH: real)
    | FrameEntry(entryType: string, id: string, name: string, visible: bool, src: string,
                 naturalW: real, naturalH: real)

  datatype Size = Size(w: real, h: real)

  datatype LayoutDescription = LayoutDescription(frameSize: Size, stackBottomToTop: seq<StackEntry>)

  function ExportEntry(l: Layer): (e: StackEntry)
    ensures e.id == l.id && e.name == l.name && e.visible == l.visible && e.src == l.src
    ensures e.entryType == KindTag(l.LayerKind())
    ensures e.PhotoEntry? <==> l.Photo?
  {
    match l
    case Photo(id, name, visible, src, x, y, width, height, rotation, naturalW, naturalH) =>
      PhotoEntry("photo", id, name, visible, src, x, y, width, height, rotation, naturalW, naturalH)
    case Frame(id, name, visible, src, naturalW, naturalH) =>
      FrameEntry("frame", id, name, visible, src, naturalW, naturalH)
  }

  /** The stack keeps storage order, entry by entry. */
  function ExportStack(layers: seq<Layer>): (stack: seq<StackEntry>)
    ensures |stack| == |layers|
    ensures forall i :: 0 <= i < |layers| ==>
      stack[i].id == layers[i].id && stack[i].entryType == KindTag(layers[i].LayerKind())
  {
    seq(|layers|, i requires 0 <= i < |layers| => ExportEntry(layers[i]))
  }

  /** The export payload: the frame size in use (the default while there is
      no frame) and the stack. */
  function ExportLayout(layers: seq<Layer>): (d: LayoutDescription)
    ensures d.stackBottomToTop == ExportStack(layers)
    ensures !HasFrame(layers) ==> d.frameSize == Size(DefaultFrameW, DefaultFrameH)
    ensures HasFrame(layers) ==>
      exists k :: 0 <= k < |layers| && layers[k].Frame? &&
                  d.frameSize == Size(layers[k].naturalW, layers[k].naturalH) &&
                  forall j :: 0 <= j < k ==> !layers[j].Frame?
  {
    var (frameW, frameH) := FrameSize(layers);
    LayoutDescription(Size(frameW, frameH), ExportStack(layers))
  }

  /** Reads an entry back into a layer; the entry's type must agree with
      its shape. */
  function ImportEntry(e: StackEntry): (l: Option<Layer>)
  {
    match e
    case PhotoEntry(t, id, name, visible, src, x, y, width, height, rotation, naturalW, naturalH) =>
      if t == "photo" then Some(Photo(id, name, visible, src, x, y, width, height, rotation, naturalW, naturalH))
      else None
    case FrameEntry(t, id, name, visible, src, naturalW, naturalH) =>
      if t == "frame" then Some(Frame(id, name, visible, src, naturalW, naturalH)) else None
  }

  function ImportStack(entries: seq<StackEntry>): (r: Option<seq<Layer>>)
    ensures r.Some? ==> |r.value| == |entries|
  {
    if entries == [] then Some([])
    else match (ImportEntry(entries[0]), ImportStack(entries[1..]))
      case (Some(l), Some(rest)) => Some([l] + rest)
      case _ => None
  }

  lemma ImportExportEntry(l: Layer)
    ensures ImportEntry(ExportEntry(l)) == Some(l)
  {
  }

  /** The export loses nothing: every field of every layer, and the order of
      the stack, can be read back from the description. */
  lemma {:induction false} ExportRoundTrip(layers: seq<Layer>)
    ensures ImportStack(ExportStack(layers)) == Some(layers)
  {
    if layers != [] {
      var stack := ExportStack(layers);
      assert stack[1..] == ExportStack(layers[1..]);
      ExportRoundTrip(layers[1..]);
      ImportExportEntry(layers[0]);
      assert layers == [layers[0]] + layers[1..];
    }
  }
}
