# Coloring-book session model

This project models the session state machine of a browser coloring book, in Dafny. The book shows a line-art image and lets the user paint over it on a separate transparent drawing layer. The tools are a brush, an eraser and a bucket, and there is a linear undo/redo history of snapshots of that layer.

The page keeps this state in five global variables and the drawing context: the selected `tool`, the `painting` flag, the drawing layer, the `history` of snapshots, the `redoStack`, and the context's composite operation. Here the session is the immutable value `Session.State` with those six fields, and each entry point of the script is a pure transition function over it.

- `pixels.dfy` (module `Pixels`): the drawing layer as rows of straight-alpha RGBA pixels. It has the two things the script does to the layer:
  - painting the pixels a stroke covers;
  - filling the whole layer with one rectangle.
- `session.dfy` (module `Session`): the session record and its transitions, in script order:
  - the initial state and image load;
  - `setTool`, `saveState`, `undo` and `redo`;
  - `startPainting`, `stopPainting` and the `painting` gate of `draw`;
  - `fillCanvas`;
  - the invariant `Valid` of a loaded session.
- `timeline.dfy` (module `Timeline`): a reference definition of linear undo that does not depend on the script. It is one timeline of snapshots plus a cursor:
  - undo and redo move the cursor;
  - a new action cuts the timeline at the cursor and appends.
- `history_laws.dfy` (module `HistoryLaws`): proves that the two stacks implement that reference. It also proves that undo and redo are exact inverses on the stacks: singly for the restores as written and for the corrected ones, whatever the layer shows, and n at a time for the corrected ones, whose n-step undo moves the stacks exactly as n undos as written do. It also proves that the baseline snapshot is never popped, and that a new action discards the redo branch.
- `events.dfy` (module `Events`): the page's input events as one step function. It proves that every event sequence keeps the invariant, what one undo does after a whole stroke or a bucket fill, and the eraser-mode restore described below.

The script's bucket tool is not a region flood fill: `fillCanvas` covers the entire drawing layer with one `fillRect` (script.js:133), and the model follows that code.

The drawing context keeps its composite operation between calls. `draw` sets it to `"destination-out"` for the eraser and to `"source-over"` for any other tool (script.js:114-120), and only resizing the canvas resets it. The session therefore has a sixth field, `erasing`, which records that mode. It matters for every later `drawImage` and `fillRect`:
- undo and redo clear the layer and then draw the snapshot (script.js:75-76, 88-89); after an eraser stroke the drawing erases onto an empty layer, so the layer ends up fully transparent whatever the snapshot holds;
- a bucket fill in that mode clears the layer instead of filling it. A mouse click on the canvas always runs `draw` with the bucket first, which resets the mode, so this case needs a click without a preceding pointer down.

`Session.Undo` and `Session.Redo` model the restore as written, and the event step uses them. `Session.UndoRestoring` and `Session.RedoRestoring` are the restores the code evidently intends, which always show the snapshot; the n-step round trips in `HistoryLaws` are stated for them (see "Findings").

Some behaviour of the code, as modelled:

- `tool` is a plain string. `setTool` accepts any value, strokes erase only when the tool is `"eraser"`, and fills happen only when it is `"bucket"`. So pointer moves with the bucket selected paint like the brush.
- `stopPainting` always pushes a snapshot, even when no stroke was in progress. A mouse click on the canvas fires mousedown, mouseup and click, so one bucket click pushes two snapshots. The first undo removes the fill, and the second pops a duplicate with no visible change (`Events.BucketClickPushesTwo`).
- Before the image loads, `history` starts empty. Undo does nothing until two snapshots exist, but pointer ups and bucket clicks before the load push snapshots of the unsized 300×150 layer and can supply them (`Events.MouseUpBeforeLoad`, `Events.TwoMouseUpsBeforeLoad`). `img.onload` resizes the canvas, which clears the drawing layer and resets the composite operation, and pushes that blank layer after any such snapshots.

## Model

| member | source | states |
|---|---|---|
| Session.Initial | script.js:5-13 | Before load, the tool is `"brush"`, nothing is being painted, the context is in `"source-over"`, both stacks are empty, and the layer is a blank 300×150 canvas. |
| Session.Loaded | script.js:21-24 | Loading clears the layer to the canvas size, resets the context to `"source-over"` and pushes the blank layer after the existing history. The redo branch becomes empty. |
| Session.SetTool | script.js:60-62 | Selecting a tool changes only the tool, whatever the value. |
| Session.SaveState | script.js:64-67 | Saving appends exactly one entry, the current layer, to the end of the history. Earlier entries stay unchanged and the redo stack becomes empty. |
| Session.Restored | script.js:74-77 | A restore shows the snapshot in `"source-over"`. In `"destination-out"` it leaves every pixel of the layer transparent. |
| Session.Undo | script.js:69-80 | With at most one snapshot, undo changes nothing. Otherwise it moves the newest snapshot to the end of the redo stack, and the layer becomes the new newest snapshot, or all transparent in eraser mode. The total number of snapshots is unchanged. |
| Session.Redo | script.js:82-94 | With an empty redo stack, redo changes nothing. Otherwise it moves the last redo entry to the end of the history, and the layer becomes that entry, or all transparent in eraser mode. The total is unchanged. |
| Session.UndoRestoring | script.js:69-80 | The evidently intended undo moves the same snapshots as undo, and the layer always becomes the new newest snapshot. |
| Session.RedoRestoring | script.js:82-94 | The evidently intended redo moves the same snapshots as redo, and the layer always becomes the re-applied snapshot. |
| Session.Ink | script.js:114-120 | The eraser lays down full transparency. Every other tool, the bucket included, lays down the picked colour at full opacity. |
| Session.Draw | script.js:108-128 | When not painting, a pointer move changes nothing. When painting, covered pixels become transparent under the eraser and the opaque picked colour under any other tool, and the context's mode follows the tool. All other pixels and both stacks are unchanged. |
| Session.StartPainting | script.js:96-99 | Pointer down sets `painting` and calls `draw`, which sets the mode from the tool. The path was emptied by the previous pointer up, so the segment usually covers no pixel; it paints only when an earlier pointer up never reached the canvas. The history is not touched. |
| Session.StopPainting | script.js:101-106 | Pointer up always clears `painting` and pushes exactly one snapshot of the layer, even if no stroke was in progress. The redo branch becomes empty. |
| Session.FillCanvas | script.js:130-136 | With any tool but `"bucket"`, a click changes nothing. With the bucket, every pixel becomes the opaque picked colour, or transparent in eraser mode. Exactly one snapshot of the result is pushed and the redo branch becomes empty. |
| Pixels.Paint | script.js:122-123 | A stroke segment replaces exactly the covered pixels inside the layer with the ink and keeps the layer's shape. |
| Pixels.FillAll | script.js:133 | A full-size rectangle sets every pixel of the layer to the ink and keeps the layer's shape. |
| Pixels.PaintEverywhereIsFill | script.js:130-136 | A full-size fill is the same as a stroke that covers every pixel. |
| Pixels.FillForgetsContents | script.js:132-133 | A fill does not depend on the previous contents of the layer, so filling twice with one colour changes nothing the second time. |
| Pixels.ClearedIsBlank | script.js:75 | Clearing a w×h layer gives the blank w×h layer that image load creates. |
| HistoryLaws.UndoIsBack | script.js:69-80 | Undo moves the timeline cursor back one step but never below the first snapshot. The timeline is unchanged. The layer is the snapshot at the cursor, or all transparent in eraser mode. |
| HistoryLaws.RedoIsForward | script.js:82-94 | Redo moves the cursor forward one step while undone snapshots remain. The timeline is unchanged. The layer is the snapshot at the cursor, or all transparent in eraser mode. |
| HistoryLaws.RestoringUndoIsBack | script.js:69-80 | The intended undo moves the cursor back, and its layer is always the snapshot at the cursor. |
| HistoryLaws.RestoringRedoIsForward | script.js:82-94 | The intended redo moves the cursor forward, and its layer is always the snapshot at the cursor. |
| HistoryLaws.AsWrittenAgreesOutsideEraserMode | script.js:69-94 | Outside eraser mode, undo and redo as written equal the intended ones. |
| HistoryLaws.RestoringMovesLikeAsWritten | script.js:69-94 | The intended and the as-written restores leave identical history and redo stacks. |
| HistoryLaws.SaveIsCommit | script.js:64-67 | Saving cuts the timeline at the cursor, discarding the redo branch, and appends the current layer as the new current snapshot. |
| HistoryLaws.RedoAvailableIff | script.js:69-94 | Redo does something exactly when the cursor is before the end of the timeline. Undo does something exactly when the cursor is past the baseline. |
| HistoryLaws.UndoThenRedo | script.js:69-94 | Undo then redo, with no action between, restores the history and the redo stack in every state, whatever the layer shows. Outside eraser mode the layer becomes the newest snapshot, so a session whose layer shows it comes back unchanged. In eraser mode the layer is left all transparent. |
| HistoryLaws.RedoThenUndo | script.js:69-94 | Redo then undo, with no action between, restores the stacks in every state, whatever the layer shows. Outside eraser mode the layer becomes the newest snapshot, and in eraser mode it is left all transparent. |
| HistoryLaws.RestoringUndoThenRedo | script.js:69-94 | The intended undo then redo restore the whole session, with the context in `"source-over"`. |
| HistoryLaws.RestoringRedoThenUndo | script.js:69-94 | The intended redo then undo restore the whole session, with the context in `"source-over"`. |
| HistoryLaws.UndoStopsAtBaseline | script.js:69-71 | After any number of undos the history keeps at least one entry and is a prefix of what it was. Its baseline entry is never popped. |
| HistoryLaws.UndoNLikeRestoring | script.js:69-80 | n undos as written leave the same history and redo stack as n corrected undos. |
| HistoryLaws.UndoNSteps | script.js:69-80 | n intended undos keep all but the newest n snapshots and leave the layer on the newest of them. |
| HistoryLaws.UndoNStacksUndone | script.js:69-80 | The snapshots n undos remove land on the redo stack, newest first, after what it held before. |
| HistoryLaws.UndoRedoRoundTrip | script.js:69-94 | n intended undos followed by n intended redos restore the session, for every n that stays above the baseline, with the context in `"source-over"` once n > 0. |
| HistoryLaws.UndoAfterSave | script.js:64-80 | One undo right after a save returns to the previous history and puts the saved layer on the redo stack. The layer becomes the snapshot before, or all transparent in eraser mode. |
| HistoryLaws.RedoAfterSaveIsNoOp | script.js:64-94 | After a new action there is nothing to redo. |
| HistoryLaws.TwoSavesThenUndoTwice | script.js:64-80 | After two consecutive saves, two undos return to the history before both. Both undos show the first saved layer, or leave the layer all transparent in eraser mode. |
| Events.Step | script.js:169-172 | Tool choice, pointer down and pointer move never touch the stacks. Pointer up, and a click with the bucket, push exactly one snapshot and drop the redo branch. A click with another tool changes nothing. Undo and redo keep the total number of snapshots. No event removes the baseline. |
| Events.Run | script.js:169-172 | No sequence of events removes or replaces the baseline snapshot once there is one. |
| Events.LoadedIsValid | script.js:21-24 | Loading establishes the invariant when every earlier snapshot has the canvas size. The blank layer goes after those snapshots. |
| Events.MouseUpBeforeLoad | script.js:12-24 | A pointer up before load pushes a blank 300×150 snapshot. It stays below the load's snapshot. Undo returns to it, moves the load's snapshot to the redo stack and leaves every pixel transparent. |
| Events.TwoMouseUpsBeforeLoad | script.js:101-106 | Two pointer ups before load push two snapshots, so undo already changes the session: it pops one onto the redo stack. |
| Events.StepPreservesValid | script.js:60-136 | Every entry point keeps the invariant and the baseline entry. The invariant: non-zero canvas, non-empty history, all layers canvas-sized, and between strokes the layer is the newest snapshot or, after a restore in eraser mode, blank. |
| Events.UndoKeepsValid | script.js:69-80 | Undo keeps the invariant. In eraser mode the layer it leaves is the blank canvas. |
| Events.RedoKeepsValid | script.js:82-94 | Redo keeps the invariant. In eraser mode the layer it leaves is the blank canvas. |
| Events.SettledUndoThenRedo | script.js:69-94 | In a loaded session between strokes with something to undo, undo then redo gives the session back exactly when the context is not in eraser mode or the layer is already blank, as after an undo in eraser mode. |
| Events.RunPreservesValid | script.js:60-136 | Every sequence of events keeps the invariant, so after load the history never drops below one entry and its baseline entry never changes. |
| Events.DrawEachKeepsHistory | script.js:108-128 | Any number of pointer moves leaves the history, the redo stack, the tool and the layer's size untouched. While painting, the last move leaves the mode set by the tool. |
| Events.StrokeThenUndo | script.js:96-128 | A whole stroke pushes exactly one snapshot and leaves eraser mode on exactly when the tool is the eraser. One undo returns to the history from before the stroke. The layer comes back for a non-eraser stroke and is left all transparent after an eraser stroke. Redo then restores the stacks. |
| Events.StrokeThenRestoringUndo | script.js:96-128 | With the intended restore, one undo after any stroke brings back the layer and history from before it, and redo re-applies the stroke. |
| Events.FillThenUndo | script.js:130-136 | One undo after a bucket fill returns to the history from before it. The layer comes back, or is left all transparent in eraser mode. Redo re-applies the fill exactly. |
| Events.BucketClickRun | script.js:96-136 | A bucket click whose pointer down covers no pixel, the usual case since the previous pointer up emptied the path, resets the mode to `"source-over"`, saves the unchanged layer, then fills the layer and saves again. |
| Events.BucketClickPushesTwo | script.js:169-172 | A bucket click pushes the unchanged layer and then the filled one. The first undo already restores the pre-click layer, and the second only pops the duplicate. |
| Events.EraserClickThenUndoBlanks | script.js:69-80 | With the eraser, a click that covers no pixel followed by undo returns to the history from before the click but leaves the layer blank. Unless the layer was blank already, it then differs from the newest snapshot. |
| Events.EraserClickThenRedoBlanks | script.js:82-94 | A following redo puts the snapshot back on the history, and the layer stays blank. |
| Events.EraserClickThenRestoringUndo | script.js:69-94 | With the intended restores, the same click followed by undo shows the layer from before the click, and redo shows it again in `"source-over"`. |

## Findings

| source | as written | input that shows it | evidently intended | confidence | as-written member | corrected member |
|---|---|---|---|---|---|---|
| script.js:74-77 | undo clears the layer, then draws the snapshot under whatever composite operation the last stroke left | eraser selected, a click on the canvas, then undo: the layer becomes fully transparent, though the newest snapshot is the painted layer from before the click | draw the snapshot in `"source-over"`, so the layer equals the newest snapshot | high, not executed | Events.EraserClickThenUndoBlanks | Session.UndoRestoring |
| script.js:87-90 | redo clears the layer, then draws the redone snapshot under the leftover composite operation | the same click, undo, then redo: the snapshot is back on the history but the layer stays fully transparent | draw the redone snapshot in `"source-over"` | high, not executed | Events.EraserClickThenRedoBlanks | Session.RedoRestoring |

The intended restores are proved to move the timeline cursor with the layer on the snapshot at the cursor (`HistoryLaws.RestoringUndoIsBack`, `HistoryLaws.RestoringRedoIsForward`), and n of them are undone by n of the other (`HistoryLaws.UndoRedoRoundTrip`).

## Left out

- Stroke rasterisation: line width, round caps and anti-aliasing (script.js:111-125) belong to the canvas library. A stroke segment is a parameter, the set of pixels it covers, and each covered pixel is treated as fully covered.
- Session.Draw: partially covered edge pixels of a stroke are not modelled. A covered pixel is fully replaced, by the ink in `"source-over"` and by full transparency in `"destination-out"`.
- Snapshot encoding: `toDataURL` and the asynchronous `Image` decode are not modelled. A snapshot is an exact copy of the layer, and a restore takes effect at once. The source defers redo's `history.push` to the decode callback (script.js:87-90), so an undo issued before that callback sees a shorter history. The model does not cover that interleaving.
- Session.Redo: a canvas of zero width or height is not modelled. Its `toDataURL` yields `"data:,"`, whose decode never calls `onload`, so redo pops the entry and never pushes it back (script.js:84-90). The model's redo always completes, and `Session.Valid` requires a non-zero canvas.
- Events.MouseUpBeforeLoad: the source draws the restored 300×150 snapshot scaled onto the w×h canvas (script.js:76). The model restores it unscaled, so its layer keeps the 300×150 shape; the lemma states only that every pixel is transparent, which holds either way.
- Events.LoadedIsValid: snapshots pushed before the image loads are 300×150 and the restore scales them to the canvas (script.js:76, 89). The model restores a snapshot unscaled, so the invariant is stated only when every earlier snapshot already has the canvas size, as when there are none.
- `redrawCanvas` compositing with its rotate/scale transform (script.js:45-56): floating-point trigonometry on the canvas API. It changes no session state.
- `resizeCanvas` aspect-ratio fitting (script.js:26-43): floating-point DOM sizing. A window resize also clears the layer and resets the composite operation without pushing a snapshot. Only the resize inside image load is modelled (`Session.Loaded`), and `Session.Valid` assumes no later resize.
- `downloadImage` (script.js:138-166): DOM links, user-agent sniffing and PNG export.
- Event-listener wiring (script.js:58, 169-172) is modelled only as the event list of `Events.Step`.
- The pinch variables `lastTouchDistance` and `lastRotation` (script.js:16-17) are never used. `scale` and `rotation` (script.js:14-15) are read by `redrawCanvas` (script.js:49-50) and `scale` sets the line width (script.js:111), but nothing changes them, so they stay at 1 and 0 and only matter for rasterisation and redraw, which are left out.
- The colour picker is a parameter of each pointer event and click. Its `#rrggbb` text is taken as three 8-bit channels.
