/** The coloring-book session: the selected tool, whether a stroke is in
    progress, the drawing layer, and the linear undo history with its redo
    branch. Every entry point of the page script is a pure transition from
    one session value to the next. */
module Session {
  import opened Pixels

  const Brush: string := "brush"
  const Eraser: string := "eraser"
  const Bucket: string := "bucket"

  /** Size of a canvas element that has not been sized yet. */
  const DefaultWidth: nat := 300
  const DefaultHeight: nat := 150

  /** `history` holds snapshots oldest first; `redoStack` holds undone
      snapshots with the most recently undone one last. A snapshot is an
      exact copy of the drawing layer. `erasing` records the drawing
      context's composite operation: the eraser leaves it at
      "destination-out" and it stays there until a stroke with another tool
      or a resize of the canvas puts it back to "source-over". */
  datatype State = State(
    tool: string,
    painting: bool,
    erasing: bool,
    layer: Layer,
    history: seq<Layer>,
    redoStack: seq<Layer>)

  function Top(h: seq<Layer>): (l: Layer)
    requires |h| > 0
  {
    h[|h| - 1]
  }

  /** The session before the background image has loaded. */
  function Initial(): (s: State)
    ensures s.tool == Brush && !s.painting && !s.erasing
    ensures s.history == [] && s.redoStack == []
    ensures IsGrid(s.layer, DefaultWidth, DefaultHeight)
    ensures forall y, x :: 0 <= y < DefaultHeight && 0 <= x < DefaultWidth ==>
      s.layer[y][x] == Transparent
  {
    State(Brush, false, false, Blank(DefaultWidth, DefaultHeight), [], [])
  }

  /** Pushes a snapshot of the current layer and discards the redo branch. */
  function SaveState(s: State): (r: State)
    ensures |r.history| == |s.history| + 1
    ensures r.history[..|s.history|] == s.history
    ensures Top(r.history) == s.layer
    ensures r.redoStack == []
    ensures r.layer == s.layer && r.tool == s.tool && r.painting == s.painting
    ensures r.erasing == s.erasing
  {
    s.(history := s.history + [s.layer], redoStack := [])
  }

  /** The image has loaded: sizing the canvas to w-by-h clears the drawing
      layer and resets its context to "source-over", and the cleared layer
      becomes a new snapshot. */
  function Loaded(s: State, w: nat, h: nat): (r: State)
    ensures r.layer == Blank(w, h) && !r.erasing
    ensures r.history == s.history + [Blank(w, h)]
    ensures r.redoStack == []
    ensures r.tool == s.tool && r.painting == s.painting
  {
    SaveState(s.(layer := Blank(w, h), erasing := false))
  }

  function SetTool(s: State, selected: string): (r: State)
    ensures r.tool == selected
    ensures r.painting == s.painting && r.erasing == s.erasing && r.layer == s.layer
    ensures r.history == s.history && r.redoStack == s.redoStack
  {
    s.(tool := selected)
  }

  /** The layer after a restore: the canvas is cleared, then the snapshot is
      drawn under the current composite operation. Under "destination-out"
      drawing onto a cleared canvas leaves every pixel transparent. */
  function Restored(s: State, snapshot: Layer): (l: Layer)
    ensures !s.erasing ==> l == snapshot
    ensures s.erasing ==> SameShape(l, s.layer)
    ensures s.erasing ==> forall y, x :: 0 <= y < |s.layer| && 0 <= x < |s.layer[y]| ==> l[y][x] == Transparent
  {
    if s.erasing then FillAll(s.layer, Transparent) else snapshot
  }

  /** Steps back one snapshot unless only the baseline (or nothing) is left.
      The layer shows the new newest snapshot only when the context is not
      left in eraser mode. */
  function Undo(s: State): (r: State)
    ensures |s.history| <= 1 ==> r == s
    ensures |s.history| > 1 ==>
      && |r.history| == |s.history| - 1
      && r.history == s.history[..|r.history|]
      && r.redoStack == s.redoStack + [Top(s.history)]
      && r.layer == (if s.erasing then FillAll(s.layer, Transparent) else Top(r.history))
      && r.tool == s.tool && r.painting == s.painting && r.erasing == s.erasing
    ensures |r.history| + |r.redoStack| == |s.history| + |s.redoStack|
  {
    if |s.history| > 1 then
      var popped := s.history[|s.history| - 1];
      var rest := s.history[..|s.history| - 1];
      s.(history := rest, redoStack := s.redoStack + [popped], layer := Restored(s, rest[|rest| - 1]))
    else
      s
  }

  /** Re-applies the most recently undone snapshot, if there is one. As with
      undo, the layer shows it only when the context is not in eraser mode. */
  function Redo(s: State): (r: State)
    ensures |s.redoStack| == 0 ==> r == s
    ensures |s.redoStack| > 0 ==>
      && |r.redoStack| == |s.redoStack| - 1
      && r.redoStack == s.redoStack[..|r.redoStack|]
      && r.history == s.history + [Top(s.redoStack)]
      && r.layer == (if s.erasing then FillAll(s.layer, Transparent) else Top(s.redoStack))
      && r.tool == s.tool && r.painting == s.painting && r.erasing == s.erasing
    ensures |r.history| + |r.redoStack| == |s.history| + |s.redoStack|
  {
    if |s.redoStack| > 0 then
      var state := s.redoStack[|s.redoStack| - 1];
      s.(redoStack := s.redoStack[..|s.redoStack| - 1], history := s.history + [state],
         layer := Restored(s, state))
    else
      s
  }

  /** Undo as the restore evidently intends it: the composite operation is
      put back to "source-over" before the snapshot is drawn, so the layer
      always becomes the new newest snapshot. */
  function UndoRestoring(s: State): (r: State)
    ensures |s.history| <= 1 ==> r == s
    ensures |s.history| > 1 ==>
      && r.history == s.history[..|s.history| - 1]
      && r.redoStack == s.redoStack + [Top(s.history)]
      && r.layer == Top(r.history) && !r.erasing
    ensures r.tool == s.tool && r.painting == s.painting
  {
    if |s.history| > 1 then
      var rest := s.history[..|s.history| - 1];
      s.(history := rest, redoStack := s.redoStack + [Top(s.history)], layer := Top(rest), erasing := false)
    else
      s
  }

  /** Redo as the restore evidently intends it: the layer always becomes the
      re-applied snapshot. */
  function RedoRestoring(s: State): (r: State)
    ensures |s.redoStack| == 0 ==> r == s
    ensures |s.redoStack| > 0 ==>
      && r.redoStack == s.redoStack[..|s.redoStack| - 1]
      && r.history == s.history + [Top(s.redoStack)]
      && r.layer == Top(r.history) && !r.erasing
    ensures r.tool == s.tool && r.painting == s.painting
  {
    if |s.redoStack| > 0 then
      var state := Top(s.redoStack);
      s.(redoStack := s.redoStack[..|s.redoStack| - 1], history := s.history + [state],
         layer := state, erasing := false)
    else
      s
  }

  /** What a stroke lays down: the eraser clears pixels, any other tool
      (the bucket included) paints the picked colour at full opacity. */
  function Ink(tool: string, colour: Colour): (p: Pixel)
    ensures tool == Eraser ==> p.alpha == 0
    ensures tool != Eraser ==>
      p.alpha == 255 && p.red == colour.red && p.green == colour.green && p.blue == colour.blue
  {
    if tool == Eraser then Transparent else Opaque(colour)
  }

  /** A pointer move. `covered` is the set of pixels the canvas rasterises
      for the segment from the previous pointer position to this one. While
      painting, the move also sets the composite operation from the tool. */
  function Draw(s: State, colour: Colour, covered: set<Point>): (r: State)
    ensures !s.painting ==> r == s
    ensures s.painting ==> r.erasing == (s.tool == Eraser)
    ensures r.tool == s.tool && r.painting == s.painting
    ensures r.history == s.history && r.redoStack == s.redoStack
    ensures SameShape(r.layer, s.layer)
    ensures s.painting ==> forall y, x :: 0 <= y < |s.layer| && 0 <= x < |s.layer[y]| ==>
      r.layer[y][x] ==
        if Point(x, y) !in covered then s.layer[y][x]
        else if s.tool == Eraser then Transparent
        else Pixel(colour.red, colour.green, colour.blue, 255)
  {
    if !s.painting then s
    else s.(layer := Paint(s.layer, covered, Ink(s.tool, colour)), erasing := s.tool == Eraser)
  }

  /** Pointer down: a stroke begins and `draw` runs once. The path was
      emptied by the previous pointer up, so the segment it strokes normally
      covers no pixel (`covered` is empty); it paints only when an earlier
      pointer up never reached the canvas. */
  function StartPainting(s: State, colour: Colour, covered: set<Point>): (r: State)
    ensures r.painting && r.erasing == (s.tool == Eraser)
    ensures r.tool == s.tool && r.history == s.history && r.redoStack == s.redoStack
    ensures r.layer == Paint(s.layer, covered, Ink(s.tool, colour))
  {
    Draw(s.(painting := true), colour, covered)
  }

  /** Pointer up: the stroke ends and a snapshot is pushed, whether or not a
      stroke was in progress. */
  function StopPainting(s: State): (r: State)
    ensures !r.painting
    ensures r.layer == s.layer && r.tool == s.tool && r.erasing == s.erasing
    ensures |r.history| == |s.history| + 1
    ensures r.history[..|s.history|] == s.history && Top(r.history) == s.layer
    ensures r.redoStack == []
  {
    SaveState(s.(painting := false))
  }

  /** A click: with the bucket selected one rectangle covering the whole
      layer is filled with the picked colour and a snapshot is pushed;
      otherwise nothing. Under a leftover "destination-out" the rectangle
      clears the layer instead. */
  function FillCanvas(s: State, colour: Colour): (r: State)
    ensures s.tool != Bucket ==> r == s
    ensures s.tool == Bucket ==>
      && SameShape(r.layer, s.layer)
      && (forall y, x :: 0 <= y < |s.layer| && 0 <= x < |s.layer[y]| ==>
            r.layer[y][x] == if s.erasing then Transparent
                             else Pixel(colour.red, colour.green, colour.blue, 255))
      && |r.history| == |s.history| + 1
      && r.history[..|s.history|] == s.history
      && Top(r.history) == r.layer
      && r.redoStack == []
      && r.tool == s.tool && r.painting == s.painting && r.erasing == s.erasing
  {
    if s.tool != Bucket then s
    else SaveState(s.(layer := FillAll(s.layer, if s.erasing then Transparent else Opaque(colour))))
  }

  /** The invariant of a loaded session whose canvas is w-by-h, neither
      dimension zero: the baseline is present, every layer and snapshot has
      the canvas size, and between strokes the layer is the newest snapshot,
      or blank when an undo or redo ran in eraser mode. */
  predicate Valid(s: State, w: nat, h: nat) {
    && w > 0 && h > 0
    && |s.history| >= 1
    && IsGrid(s.layer, w, h)
    && (forall i :: 0 <= i < |s.history| ==> IsGrid(s.history[i], w, h))
    && (forall i :: 0 <= i < |s.redoStack| ==> IsGrid(s.redoStack[i], w, h))
    && (!s.painting ==> s.layer == Top(s.history) || (s.erasing && s.layer == Blank(w, h)))
  }
}
