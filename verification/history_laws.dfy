/** Laws of the session's undo/redo history: the session's two stacks
    implement the timeline-and-cursor reference, undo and redo are exact
    inverses on the stacks, a new action cuts off the redo branch, and the
    baseline snapshot is never popped. On the layer, the restore as written
    shows the snapshot only outside eraser mode; the corrected restore
    always shows it, and the n-step round trips are stated for it. */
module HistoryLaws {
  import opened Pixels
  import opened Session
  import opened Timeline

  /** The timeline a session's stacks stand for: the history, then the redo
      branch nearest first; the cursor sits on the newest history entry. */
  function View(s: State): (c: Cursor<Layer>) {
    Cursor(s.history + Reverse(s.redoStack), |s.history|)
  }

  /** Undo moves the cursor back. The layer becomes the snapshot at the
      cursor, or is left blank when the context is in eraser mode. */
  lemma UndoIsBack(s: State)
    ensures View(Undo(s)) == Back(View(s))
    ensures |s.history| > 1 ==>
      && WellFormed(View(Undo(s)))
      && Undo(s).layer == (if s.erasing then FillAll(s.layer, Transparent) else Current(View(Undo(s))))
  {
    if |s.history| > 1 {
      var h := s.history;
      var top := h[|h| - 1];
      ReverseSnoc(s.redoStack, top);
      assert h[..|h| - 1] + [top] == h;
      assert View(Undo(s)).timeline == h[..|h| - 1] + ([top] + Reverse(s.redoStack));
    }
  }

  /** Redo moves the cursor forward. The layer becomes the snapshot at the
      cursor, or is left blank when the context is in eraser mode. */
  lemma RedoIsForward(s: State)
    ensures View(Redo(s)) == Forward(View(s))
    ensures |s.redoStack| > 0 ==>
      && WellFormed(View(Redo(s)))
      && Redo(s).layer == (if s.erasing then FillAll(s.layer, Transparent) else Current(View(Redo(s))))
  {
    if |s.redoStack| > 0 {
      var r := s.redoStack;
      var top := r[|r| - 1];
      ReverseSnoc(r[..|r| - 1], top);
      assert r[..|r| - 1] + [top] == r;
      assert View(Redo(s)).timeline == (s.history + [top]) + Reverse(r[..|r| - 1]);
    }
  }

  /** The corrected undo moves the cursor back and always shows the snapshot at it. */
  lemma RestoringUndoIsBack(s: State)
    ensures View(UndoRestoring(s)) == Back(View(s))
    ensures |s.history| > 1 ==>
      && WellFormed(View(UndoRestoring(s)))
      && UndoRestoring(s).layer == Current(View(UndoRestoring(s)))
  {
    UndoIsBack(s);
  }

  /** The corrected redo moves the cursor forward and always shows the snapshot at it. */
  lemma RestoringRedoIsForward(s: State)
    ensures View(RedoRestoring(s)) == Forward(View(s))
    ensures |s.redoStack| > 0 ==>
      && WellFormed(View(RedoRestoring(s)))
      && RedoRestoring(s).layer == Current(View(RedoRestoring(s)))
  {
    RedoIsForward(s);
  }

  /** Outside eraser mode the restore as written and the corrected one agree. */
  lemma AsWrittenAgreesOutsideEraserMode(s: State)
    requires !s.erasing
    ensures Undo(s) == UndoRestoring(s)
    ensures Redo(s) == RedoRestoring(s)
  {
  }

  /** The corrected restores move the stacks exactly as the restores as
      written do; they differ only in the layer and the composite operation. */
  lemma RestoringMovesLikeAsWritten(s: State)
    ensures UndoRestoring(s).history == Undo(s).history
    ensures UndoRestoring(s).redoStack == Undo(s).redoStack
    ensures RedoRestoring(s).history == Redo(s).history
    ensures RedoRestoring(s).redoStack == Redo(s).redoStack
  {
  }

  /** Saving commits the current layer: the redo branch is cut off at the cursor. */
  lemma SaveIsCommit(s: State)
    ensures View(SaveState(s)) == Commit(View(s), s.layer)
  {
    assert (s.history + Reverse(s.redoStack))[..|s.history|] == s.history;
  }

  /** Redo is available exactly when the cursor is not at the end of the
      timeline, and undo exactly when it is past the baseline. */
  lemma RedoAvailableIff(s: State)
    ensures |s.redoStack| > 0 <==> View(s).pos < |View(s).timeline|
    ensures |s.history| > 1 <==> View(s).pos > 1
  {
  }

  /** Undo followed by redo, with nothing in between, restores both stacks,
      whatever the layer shows. Outside eraser mode the layer becomes the
      newest snapshot, so a settled session comes back unchanged; in eraser
      mode it is left blank. */
  lemma UndoThenRedo(s: State)
    requires |s.history| > 1
    ensures Redo(Undo(s)).history == s.history && Redo(Undo(s)).redoStack == s.redoStack
    ensures Redo(Undo(s)) ==
      if s.erasing then s.(layer := FillAll(s.layer, Transparent)) else s.(layer := Top(s.history))
  {
    assert s.history[..|s.history| - 1] + [Top(s.history)] == s.history;
    FillForgetsContents(FillAll(s.layer, Transparent), s.layer, Transparent);
  }

  /** Redo followed by undo, with nothing in between, restores both stacks,
      whatever the layer shows. Outside eraser mode the layer becomes the
      newest snapshot, so a settled session comes back unchanged; in eraser
      mode it is left blank. */
  lemma RedoThenUndo(s: State)
    requires |s.history| >= 1 && |s.redoStack| > 0
    ensures Undo(Redo(s)).history == s.history && Undo(Redo(s)).redoStack == s.redoStack
    ensures Undo(Redo(s)) ==
      if s.erasing then s.(layer := FillAll(s.layer, Transparent)) else s.(layer := Top(s.history))
  {
    assert s.redoStack[..|s.redoStack| - 1] + [Top(s.redoStack)] == s.redoStack;
    FillForgetsContents(FillAll(s.layer, Transparent), s.layer, Transparent);
  }

  /** The corrected undo followed by the corrected redo restores the session,
      with the context back in "source-over". */
  lemma RestoringUndoThenRedo(s: State)
    requires |s.history| > 1
    requires s.layer == Top(s.history)
    ensures RedoRestoring(UndoRestoring(s)) == s.(erasing := false)
  {
    UndoThenRedo(s.(erasing := false));
  }

  /** The corrected redo followed by the corrected undo restores the session,
      with the context back in "source-over". */
  lemma RestoringRedoThenUndo(s: State)
    requires |s.history| >= 1 && |s.redoStack| > 0
    requires s.layer == Top(s.history)
    ensures UndoRestoring(RedoRestoring(s)) == s.(erasing := false)
  {
    RedoThenUndo(s.(erasing := false));
  }

  /** Undo, as written, applied n times. */
  function UndoN(s: State, n: nat): (r: State)
    decreases n
  {
    if n == 0 then s else Undo(UndoN(s, n - 1))
  }

  /** The corrected undo applied n times. */
  function RestoringUndoN(s: State, n: nat): (r: State)
    decreases n
  {
    if n == 0 then s else UndoRestoring(RestoringUndoN(s, n - 1))
  }

  /** The corrected redo applied n times. */
  function RestoringRedoN(s: State, n: nat): (r: State)
    decreases n
  {
    if n == 0 then s else RestoringRedoN(RedoRestoring(s), n - 1)
  }

  /** However often undo is pressed, the history shrinks to the baseline and
      no further; what remains is a prefix of the history, the baseline first. */
  lemma {:induction false} UndoStopsAtBaseline(s: State, n: nat)
    requires |s.history| >= 1
    ensures |UndoN(s, n).history| == if n < |s.history| then |s.history| - n else 1
    ensures UndoN(s, n).history == s.history[..|UndoN(s, n).history|]
    ensures UndoN(s, n).history[0] == s.history[0]
  {
    if n > 0 {
      UndoStopsAtBaseline(s, n - 1);
    }
  }

  /** n undos as written move the stacks exactly as n corrected undos do;
      only the layer and the composite operation can differ. */
  lemma {:induction false} UndoNLikeRestoring(s: State, n: nat)
    ensures UndoN(s, n).history == RestoringUndoN(s, n).history
    ensures UndoN(s, n).redoStack == RestoringUndoN(s, n).redoStack
  {
    if n > 0 {
      UndoNLikeRestoring(s, n - 1);
      var a, b := UndoN(s, n - 1), RestoringUndoN(s, n - 1);
      assert UndoN(s, n) == Undo(a) && RestoringUndoN(s, n) == UndoRestoring(b);
    }
  }

  /** n corrected undos from a settled session with more than n snapshots
      keep all but the newest n snapshots and leave the layer on the newest
      of those, with the context in "source-over" once any undo ran. */
  lemma {:induction false} UndoNSteps(s: State, n: nat)
    requires n < |s.history|
    requires s.layer == Top(s.history)
    ensures RestoringUndoN(s, n).history == s.history[..|s.history| - n]
    ensures RestoringUndoN(s, n).layer == Top(RestoringUndoN(s, n).history)
    ensures RestoringUndoN(s, n).tool == s.tool && RestoringUndoN(s, n).painting == s.painting
    ensures RestoringUndoN(s, n).erasing == (s.erasing && n == 0)
  {
    if n > 0 {
      UndoNSteps(s, n - 1);
      UndoNHistory(s, n);
      assert RestoringUndoN(s, n) == UndoRestoring(RestoringUndoN(s, n - 1));
    }
  }

  /** The n snapshots those undos remove land on the redo stack, newest
      first, after what was already there. */
  lemma {:induction false} UndoNStacksUndone(s: State, n: nat)
    requires n < |s.history|
    ensures RestoringUndoN(s, n).redoStack == s.redoStack + Reverse(s.history[|s.history| - n..])
  {
    if n > 0 {
      var h := s.history;
      var u := RestoringUndoN(s, n - 1);
      UndoNStacksUndone(s, n - 1);
      UndoNHistory(s, n - 1);
      assert RestoringUndoN(s, n).redoStack == u.redoStack + [Top(u.history)];
      assert Top(u.history) == h[|h| - n];
      UndoneGoesFirst(s.redoStack, h, |h| - n + 1);
    }
  }

  /** Undoing the entry just before the suffix h[k..] puts it after that
      suffix on the redo stack, which then holds h[k - 1..] reversed. */
  lemma UndoneGoesFirst<T>(a: seq<T>, h: seq<T>, k: nat)
    requires 0 < k <= |h|
    ensures (a + Reverse(h[k..])) + [h[k - 1]] == a + Reverse(h[k - 1..])
  {
    assert h[k - 1..] == [h[k - 1]] + h[k..];
    ReverseCons(h[k - 1], h[k..]);
  }

  /** The history part of UndoNSteps, which needs nothing of the layer. */
  lemma {:induction false} UndoNHistory(s: State, n: nat)
    requires n < |s.history|
    ensures RestoringUndoN(s, n).history == s.history[..|s.history| - n]
  {
    if n > 0 {
      UndoNHistory(s, n - 1);
      var u := RestoringUndoN(s, n - 1);
      assert RestoringUndoN(s, n) == UndoRestoring(u);
      assert u.history[..|u.history| - 1] == s.history[..|s.history| - n];
    }
  }

  /** n corrected undos followed by n corrected redos restore the session,
      for every n that does not reach below the baseline; once any undo ran
      the context is back in "source-over". */
  lemma {:induction false} UndoRedoRoundTrip(s: State, n: nat)
    requires n < |s.history|
    requires s.layer == Top(s.history)
    ensures RestoringRedoN(RestoringUndoN(s, n), n) == if n == 0 then s else s.(erasing := false)
  {
    if n > 0 {
      var u := RestoringUndoN(s, n - 1);
      var v := RestoringUndoN(s, n);
      UndoNSteps(s, n - 1);
      assert v == UndoRestoring(u);
      RestoringUndoThenRedo(u);
      assert RedoRestoring(v) == u.(erasing := false);
      assert RestoringRedoN(v, n) == RestoringRedoN(RedoRestoring(v), n - 1);
      UndoRedoRoundTrip(s, n - 1);
      if n > 1 {
        assert u.(erasing := false) == u;
      }
    }
  }

  /** Undo right after a save returns to the history before it and puts the
      saved layer on the redo branch; the layer shows the snapshot before,
      or is blank in eraser mode. */
  lemma UndoAfterSave(s: State)
    requires |s.history| >= 1
    ensures Undo(SaveState(s)).history == s.history
    ensures Undo(SaveState(s)).layer ==
      if s.erasing then FillAll(s.layer, Transparent) else Top(s.history)
    ensures Undo(SaveState(s)).redoStack == [s.layer]
  {
  }

  /** After a new action the redo branch is gone: redo does nothing. */
  lemma RedoAfterSaveIsNoOp(s: State)
    ensures Redo(SaveState(s)) == SaveState(s)
  {
  }

  /** Two saves in a row, the second of a changed layer x, then two undos:
      the second undo returns to the history before both. Outside eraser
      mode both undos show the layer saved first; in eraser mode both leave
      the layer blank. */
  lemma TwoSavesThenUndoTwice(s: State, x: Layer)
    requires |s.history| >= 1 && s.layer == Top(s.history)
    ensures var t := SaveState(SaveState(s).(layer := x));
      && t.history == s.history + [s.layer, x]
      && Undo(t).layer == (if s.erasing then FillAll(x, Transparent) else s.layer)
      && Undo(Undo(t)).layer == (if s.erasing then FillAll(x, Transparent) else s.layer)
      && Undo(Undo(t)).history == s.history
  {
    var once := SaveState(s);
    UndoAfterSave(once.(layer := x));
    var u := Undo(SaveState(once.(layer := x)));
    assert u == once.(redoStack := [x], layer := u.layer);
    FillForgetsContents(x, x, Transparent);
    assert u.history == s.history + [s.layer];
  }
}
