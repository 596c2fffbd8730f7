/** The page's input events as one transition relation over sessions, the
    invariant every event keeps, and whole user actions (a stroke, a bucket
    click) together with what one undo does to them. */
module Events {
  import opened Pixels
  import opened Session
  import HistoryLaws

  /** What reaches the session: tool choice, the three mouse events on the
      canvas, a click, and the undo and redo controls. Pointer events carry
      the picked colour and the pixels the canvas rasterises for them. */
  datatype Event =
    | ChooseTool(name: string)
    | MouseDown(colour: Colour, covered: set<Point>)
    | MouseMove(colour: Colour, covered: set<Point>)
    | MouseUp
    | Click(colour: Colour)
    | UndoPressed
    | RedoPressed

  /** One event applied to the session. Pointer down and move and a tool
      choice never touch the stacks; pointer up, and a click with the bucket,
      push exactly one snapshot and drop the redo branch; undo and redo only
      move snapshots between the two stacks. */
  function Step(s: State, e: Event): (r: State)
    ensures (e.ChooseTool? || e.MouseDown? || e.MouseMove?) ==>
      r.history == s.history && r.redoStack == s.redoStack
    ensures e.MouseUp? ==> r.history == s.history + [s.layer] && r.redoStack == [] && !r.painting
    ensures e.Click? && s.tool == Bucket ==> r.history == s.history + [r.layer] && r.redoStack == []
    ensures e.Click? && s.tool != Bucket ==> r == s
    ensures (e.UndoPressed? || e.RedoPressed?) ==>
      |r.history| + |r.redoStack| == |s.history| + |s.redoStack|
    ensures |s.history| >= 1 ==> |r.history| >= 1 && r.history[0] == s.history[0]
  {
    match e
    case ChooseTool(name) => SetTool(s, name)
    case MouseDown(colour, covered) => StartPainting(s, colour, covered)
    case MouseMove(colour, covered) => Draw(s, colour, covered)
    case MouseUp => StopPainting(s)
    case Click(colour) => FillCanvas(s, colour)
    case UndoPressed => Undo(s)
    case RedoPressed => Redo(s)
  }

  /** A sequence of events applied in order. Once the history has its
      baseline snapshot, no sequence of events removes or replaces it. */
  function Run(s: State, es: seq<Event>): (r: State)
    ensures |s.history| >= 1 ==> |r.history| >= 1 && r.history[0] == s.history[0]
    decreases |es|
  {
    if es == [] then s else Run(Step(s, es[0]), es[1..])
  }

  /** Loading the image establishes the invariant when every snapshot taken
      before the load already has the canvas size (in particular when there
      is none); the blank layer is pushed after them. */
  lemma LoadedIsValid(s: State, w: nat, h: nat)
    requires w > 0 && h > 0
    requires forall i :: 0 <= i < |s.history| ==> IsGrid(s.history[i], w, h)
    ensures Valid(Loaded(s, w, h), w, h)
    ensures Loaded(s, w, h).history == s.history + [Blank(w, h)]
  {
    var r := Loaded(s, w, h);
    assert forall i :: 0 <= i < |r.history| ==> IsGrid(r.history[i], w, h) by {
      forall i | 0 <= i < |r.history|
        ensures IsGrid(r.history[i], w, h)
      {
        if i < |s.history| { assert r.history[i] == s.history[i]; }
      }
    }
  }

  /** A pointer up before the image has loaded already pushes a snapshot of
      the unsized 300-by-150 layer, and it stays in the history below the
      load's snapshot. Undo returns to it, and the layer it shows is fully
      transparent. */
  lemma MouseUpBeforeLoad(w: nat, h: nat)
    ensures Loaded(Run(Initial(), [MouseUp]), w, h).history
      == [Blank(DefaultWidth, DefaultHeight), Blank(w, h)]
    ensures var u := Undo(Loaded(Run(Initial(), [MouseUp]), w, h));
      && u.history == [Blank(DefaultWidth, DefaultHeight)]
      && u.redoStack == [Blank(w, h)]
      && forall y, x :: 0 <= y < |u.layer| && 0 <= x < |u.layer[y]| ==> u.layer[y][x] == Transparent
  {
    var es := [MouseUp];
    assert Run(Initial(), es) == Run(Step(Initial(), MouseUp), []);
  }

  /** Two pointer ups before the image has loaded push two snapshots, so
      undo is already available then: it pops one onto the redo stack. */
  lemma TwoMouseUpsBeforeLoad()
    ensures |Run(Initial(), [MouseUp, MouseUp]).history| == 2
    ensures var u := Undo(Run(Initial(), [MouseUp, MouseUp]));
      && |u.history| == 1
      && |u.redoStack| == 1
      && u != Run(Initial(), [MouseUp, MouseUp])
  {
    var es := [MouseUp, MouseUp];
    var a := Step(Initial(), MouseUp);
    assert es[1..] == [MouseUp];
    assert Run(Initial(), es) == Run(a, [MouseUp]);
    assert Run(a, [MouseUp]) == Run(Step(a, MouseUp), []);
  }

  /** Every event keeps the invariant and leaves the baseline snapshot in place. */
  lemma StepPreservesValid(s: State, e: Event, w: nat, h: nat)
    requires Valid(s, w, h)
    ensures Valid(Step(s, e), w, h)
    ensures Step(s, e).history[0] == s.history[0]
  {
    var r := Step(s, e);
    match e
    case MouseDown(colour, covered) =>
      SameShapeGrid(r.layer, s.layer, w, h);
    case MouseMove(colour, covered) =>
      SameShapeGrid(r.layer, s.layer, w, h);
    case Click(colour) =>
      if s.tool == Bucket {
        SameShapeGrid(r.layer, s.layer, w, h);
        assert r.history == s.history + [r.layer];
      }
    case MouseUp =>
      assert r.history == s.history + [s.layer];
    case UndoPressed =>
      UndoKeepsValid(s, w, h);
    case RedoPressed =>
      RedoKeepsValid(s, w, h);
    case ChooseTool(name) =>
  }

  /** Undo keeps the invariant: what it leaves on the layer is the new newest
      snapshot, or the blank layer when the context is in eraser mode. */
  lemma UndoKeepsValid(s: State, w: nat, h: nat)
    requires Valid(s, w, h)
    ensures Valid(Undo(s), w, h)
  {
    if |s.history| > 1 {
      var r := Undo(s);
      var top := Top(s.history);
      assert IsGrid(top, w, h);
      assert forall i :: 0 <= i < |r.redoStack| ==> IsGrid(r.redoStack[i], w, h) by {
        forall i | 0 <= i < |r.redoStack|
          ensures IsGrid(r.redoStack[i], w, h)
        {
          if i < |s.redoStack| { assert r.redoStack[i] == s.redoStack[i]; }
        }
      }
      assert forall i :: 0 <= i < |r.history| ==> IsGrid(r.history[i], w, h) by {
        forall i | 0 <= i < |r.history|
          ensures IsGrid(r.history[i], w, h)
        {
          assert r.history[i] == s.history[i];
        }
      }
      if s.erasing {
        ClearedIsBlank(s.layer, w, h);
      } else {
        assert IsGrid(r.history[|r.history| - 1], w, h);
      }
    }
  }

  /** Redo keeps the invariant, in the same way as undo. */
  lemma RedoKeepsValid(s: State, w: nat, h: nat)
    requires Valid(s, w, h)
    ensures Valid(Redo(s), w, h)
  {
    if |s.redoStack| > 0 {
      var r := Redo(s);
      var top := Top(s.redoStack);
      assert IsGrid(top, w, h);
      assert forall i :: 0 <= i < |r.history| ==> IsGrid(r.history[i], w, h) by {
        forall i | 0 <= i < |r.history|
          ensures IsGrid(r.history[i], w, h)
        {
          if i < |s.history| { assert r.history[i] == s.history[i]; }
        }
      }
      assert forall i :: 0 <= i < |r.redoStack| ==> IsGrid(r.redoStack[i], w, h) by {
        forall i | 0 <= i < |r.redoStack|
          ensures IsGrid(r.redoStack[i], w, h)
        {
          assert r.redoStack[i] == s.redoStack[i];
        }
      }
      if s.erasing {
        ClearedIsBlank(s.layer, w, h);
      }
    }
  }

  /** In a settled session with something to undo, undo then redo gives the
      session back exactly when the layer cannot be blanked by them: outside
      eraser mode, or when it is blank already (as after an undo in eraser
      mode). */
  lemma SettledUndoThenRedo(s: State, w: nat, h: nat)
    requires Valid(s, w, h) && !s.painting && |s.history| > 1
    ensures Redo(Undo(s)) == s <==> !s.erasing || s.layer == Blank(w, h)
  {
    HistoryLaws.UndoThenRedo(s);
    ClearedIsBlank(s.layer, w, h);
  }

  /** Any sequence of events keeps the invariant: the history never becomes
      empty and its baseline entry is never popped. */
  lemma {:induction false} RunPreservesValid(s: State, es: seq<Event>, w: nat, h: nat)
    requires Valid(s, w, h)
    ensures Valid(Run(s, es), w, h)
    ensures Run(s, es).history[0] == s.history[0]
    decreases |es|
  {
    if es != [] {
      StepPreservesValid(s, es[0], w, h);
      RunPreservesValid(Step(s, es[0]), es[1..], w, h);
    }
  }

  /** Pointer moves while the button is held, one segment per move. */
  function DrawEach(s: State, colour: Colour, moves: seq<set<Point>>): (r: State)
    decreases |moves|
  {
    if moves == [] then s else DrawEach(Draw(s, colour, moves[0]), colour, moves[1..])
  }

  /** Pointer moves never touch the stacks, the tool, the painting flag or
      the layer's size; while painting they leave the composite operation
      set by the tool. */
  lemma {:induction false} DrawEachKeepsHistory(s: State, colour: Colour, moves: seq<set<Point>>)
    ensures DrawEach(s, colour, moves).history == s.history
    ensures DrawEach(s, colour, moves).redoStack == s.redoStack
    ensures DrawEach(s, colour, moves).tool == s.tool
    ensures DrawEach(s, colour, moves).painting == s.painting
    ensures SameShape(DrawEach(s, colour, moves).layer, s.layer)
    ensures DrawEach(s, colour, moves).erasing ==
      if s.painting && moves != [] then s.tool == Eraser else s.erasing
    decreases |moves|
  {
    if moves != [] {
      var d := Draw(s, colour, moves[0]);
      DrawEachKeepsHistory(d, colour, moves[1..]);
    }
  }

  /** One whole stroke: pointer down, some moves, pointer up. */
  function Stroke(s: State, colour: Colour, first: set<Point>, moves: seq<set<Point>>): (r: State)
    ensures !r.painting
  {
    StopPainting(DrawEach(StartPainting(s, colour, first), colour, moves))
  }

  /** A stroke pushes exactly one snapshot, its final layer, and leaves the
      context in eraser mode exactly when the stroke erased. One undo then
      returns to the history before the stroke; the layer comes back only
      for a stroke with a tool other than the eraser, and an eraser stroke
      leaves it blank. Redo then restores the stacks. */
  lemma StrokeThenUndo(s: State, colour: Colour, first: set<Point>, moves: seq<set<Point>>)
    requires |s.history| >= 1 && s.layer == Top(s.history)
    ensures var t := Stroke(s, colour, first, moves);
      && |t.history| == |s.history| + 1
      && t.erasing == (s.tool == Eraser)
      && Undo(t).history == s.history
      && Undo(t).layer == (if s.tool == Eraser then FillAll(s.layer, Transparent) else s.layer)
      && Redo(Undo(t)) == (if s.tool == Eraser then t.(layer := FillAll(s.layer, Transparent)) else t)
  {
    var d := DrawEach(StartPainting(s, colour, first), colour, moves);
    var t := Stroke(s, colour, first, moves);
    DrawEachKeepsHistory(StartPainting(s, colour, first), colour, moves);
    assert SameShape(d.layer, s.layer);
    HistoryLaws.UndoAfterSave(d.(painting := false));
    HistoryLaws.UndoThenRedo(t);
    FillForgetsContents(d.layer, s.layer, Transparent);
  }

  /** With the corrected restore, undo after any stroke, the eraser's
      included, brings back the layer from before it, and redo re-applies
      the stroke. */
  lemma StrokeThenRestoringUndo(s: State, colour: Colour, first: set<Point>, moves: seq<set<Point>>)
    requires |s.history| >= 1 && s.layer == Top(s.history)
    ensures var t := Stroke(s, colour, first, moves);
      && UndoRestoring(t).history == s.history
      && UndoRestoring(t).layer == s.layer
      && RedoRestoring(UndoRestoring(t)) == t.(erasing := false)
  {
    var d := DrawEach(StartPainting(s, colour, first), colour, moves);
    var t := Stroke(s, colour, first, moves);
    DrawEachKeepsHistory(StartPainting(s, colour, first), colour, moves);
    assert t.history == s.history + [d.layer];
    assert t.history[..|t.history| - 1] == s.history;
    HistoryLaws.RestoringUndoThenRedo(t);
  }

  /** A bucket fill pushes one snapshot. One undo returns to the history
      before it and brings back the layer, or leaves it blank when the
      context was still in eraser mode; redo re-applies the fill. */
  lemma FillThenUndo(s: State, colour: Colour)
    requires s.tool == Bucket
    requires |s.history| >= 1 && s.layer == Top(s.history)
    ensures Undo(FillCanvas(s, colour)).history == s.history
    ensures Undo(FillCanvas(s, colour)).layer ==
      if s.erasing then FillAll(s.layer, Transparent) else s.layer
    ensures Redo(Undo(FillCanvas(s, colour))) == FillCanvas(s, colour)
  {
    var t := FillCanvas(s, colour);
    var ink := if s.erasing then Transparent else Opaque(colour);
    HistoryLaws.UndoAfterSave(s.(layer := FillAll(s.layer, ink)));
    HistoryLaws.UndoThenRedo(t);
    FillForgetsContents(FillAll(s.layer, ink), s.layer, Transparent);
  }

  /** The three events of a bucket click, as transitions: the pointer down
      puts the context back to "source-over", the pointer up saves the layer
      unchanged, then the click fills it and saves again. */
  lemma BucketClickRun(s: State, colour: Colour)
    requires s.tool == Bucket && !s.painting
    ensures Run(s, [MouseDown(colour, {}), MouseUp, Click(colour)])
      == SaveState(SaveState(s.(erasing := false)).(layer := FillAll(s.layer, Opaque(colour))))
  {
    RunThree(s, MouseDown(colour, {}), MouseUp, Click(colour));
    var a := StartPainting(s, colour, {});
    PaintNothing(s.layer, Ink(s.tool, colour));
    assert a.(painting := false) == s.(erasing := false);
  }

  /** A bucket click is delivered as pointer down, pointer up and click. The
      pointer up already pushes a snapshot of the unchanged layer, so one
      click adds two snapshots: the first undo leaves the fill, and the
      second one pops the duplicate without any visible change. */
  lemma BucketClickPushesTwo(s: State, colour: Colour)
    requires s.tool == Bucket && !s.painting
    requires |s.history| >= 1 && s.layer == Top(s.history)
    ensures var t := Run(s, [MouseDown(colour, {}), MouseUp, Click(colour)]);
      && t.history == s.history + [s.layer, FillAll(s.layer, Opaque(colour))]
      && Undo(t).layer == s.layer
      && Undo(Undo(t)).layer == s.layer
      && Undo(Undo(t)).history == s.history
  {
    BucketClickRun(s, colour);
    HistoryLaws.TwoSavesThenUndoTwice(s.(erasing := false), FillAll(s.layer, Opaque(colour)));
  }

  /** The restore as written, after the eraser: an eraser click that covers
      no pixel changes nothing on the layer but leaves the context in
      "destination-out", and its pointer up pushes a duplicate snapshot.
      Undo then pops that duplicate, and instead of showing the layer from
      before the click it leaves the whole layer transparent. */
  lemma EraserClickThenUndoBlanks(s: State, colour: Colour, w: nat, h: nat)
    requires Valid(s, w, h) && !s.painting && s.layer == Top(s.history)
    requires s.tool == Eraser
    ensures var t := Run(s, [MouseDown(colour, {}), MouseUp, UndoPressed]);
      && t.history == s.history
      && t.redoStack == [s.layer]
      && t.erasing
      && t.layer == Blank(w, h)
      && (s.layer != Blank(w, h) ==> t.layer != Top(t.history))
  {
    RunThree(s, MouseDown(colour, {}), MouseUp, UndoPressed);
    var a := StartPainting(s, colour, {});
    PaintNothing(s.layer, Ink(s.tool, colour));
    assert a.(painting := false) == s.(erasing := true);
    var b := StopPainting(a);
    var c := Undo(b);
    assert b.history == s.history + [s.layer];
    assert c.history == s.history;
    ClearedIsBlank(s.layer, w, h);
  }

  /** The same click followed by undo and redo, as written: redo puts the
      snapshot back on the history but again leaves the layer transparent. */
  lemma EraserClickThenRedoBlanks(s: State, colour: Colour, w: nat, h: nat)
    requires Valid(s, w, h) && !s.painting && s.layer == Top(s.history)
    requires s.tool == Eraser
    ensures var t := Run(s, [MouseDown(colour, {}), MouseUp, UndoPressed, RedoPressed]);
      && t.history == s.history + [s.layer]
      && t.layer == Blank(w, h)
  {
    var es := [MouseDown(colour, {}), MouseUp, UndoPressed, RedoPressed];
    EraserClickThenUndoBlanks(s, colour, w, h);
    var c := Run(s, es[..3]);
    assert es[..3] == [MouseDown(colour, {}), MouseUp, UndoPressed];
    RunAppend(s, es[..3], [RedoPressed]);
    assert es[..3] + [RedoPressed] == es;
    assert Run(c, [RedoPressed]) == Run(Redo(c), []);
    ClearedIsBlank(c.layer, w, h);
  }

  /** Three events in a row are three steps. */
  lemma RunThree(s: State, e0: Event, e1: Event, e2: Event)
    ensures Run(s, [e0, e1, e2]) == Step(Step(Step(s, e0), e1), e2)
  {
    var a := Step(s, e0);
    var b := Step(a, e1);
    assert [e0, e1, e2][1..] == [e1, e2] && [e1, e2][1..] == [e2];
    assert Run(s, [e0, e1, e2]) == Run(a, [e1, e2]);
    assert Run(a, [e1, e2]) == Run(b, [e2]);
    assert Run(b, [e2]) == Run(Step(b, e2), []);
  }

  /** Running two event sequences one after the other is running their
      concatenation. */
  lemma {:induction false} RunAppend(s: State, xs: seq<Event>, ys: seq<Event>)
    ensures Run(s, xs + ys) == Run(Run(s, xs), ys)
    decreases |xs|
  {
    if xs == [] {
      assert xs + ys == ys;
    } else {
      assert (xs + ys)[0] == xs[0];
      assert (xs + ys)[1..] == xs[1..] + ys;
      RunAppend(Step(s, xs[0]), xs[1..], ys);
    }
  }

  /** The corrected restore after the same eraser click: undo shows the layer
      from before the click and redo the duplicate snapshot, both with the
      context back in "source-over". */
  lemma EraserClickThenRestoringUndo(s: State, colour: Colour, w: nat, h: nat)
    requires Valid(s, w, h) && !s.painting && s.layer == Top(s.history)
    requires s.tool == Eraser
    ensures var b := Run(s, [MouseDown(colour, {}), MouseUp]);
      && UndoRestoring(b).history == s.history
      && UndoRestoring(b).layer == s.layer
      && RedoRestoring(UndoRestoring(b)).layer == s.layer
      && !RedoRestoring(UndoRestoring(b)).erasing
  {
    var es := [MouseDown(colour, {}), MouseUp];
    var a := Step(s, es[0]);
    PaintNothing(s.layer, Ink(s.tool, colour));
    assert a.(painting := false) == s.(erasing := true);
    var b := Step(a, es[1]);
    assert Run(s, es) == Run(a, es[1..]);
    assert Run(a, es[1..]) == Run(b, []);
    assert b.history == s.history + [s.layer];
    assert b.history[..|b.history| - 1] == s.history;
  }
}
