# Interval labelling session of label-videos.py

`label-videos.py` (dataset-creator) lets an operator mark gesture intervals
over the frames of a set of synchronised videos. Each frame carries one
label code: 0 free, 2 pending start, 1 start, 3 inner, -1 end. Key presses
and wheel events step a cursor through the frames loaded so far and edit the
codes. `begin_label` opens or cancels an interval, `end_label` commits or
reopens one, and `delete_label` erases one. Saving is allowed only when the
starts and ends balance. Moving to the next sequence is allowed only when
the labels equal the last saved snapshot.

This project models that core in Dafny:

- `Labels.dfy`: the codes and the shape of a committed labelling, the
  regular language `(0 | 1 3* -1)*` written as neighbour constraints
  (`WellFormed`). It also holds the slice assignments, the two boundary
  searches (`np.where(...)[0][-1]` and `[0][0]`) as functions and as
  scanning methods, and the count and copy primitives. The lemmas prove that
  the searches succeed on a well-formed labelling, that starts and ends
  balance, and that committing and clearing keep the shape.
- `Cursor.dfy`: forward and backward stepping, with the jump to the other
  end that the code does instead of modular wrap-around. The
  `LabelingParameters` class holds `it_frames`, `n_loaded_frames` and
  `big_step`, and its methods are the key and wheel handlers.
- `Editing.dfy`: the main loop as values. The `Editor` state holds the
  labels, `waiting_end`, `current_begin`, the cursor, and what
  `original_labels` is: a separate copy, or the label array itself once a
  save has aliased them. It has one function per handler, the save gate, the
  dispatch of one pass (`Apply`), and `Run` over many passes, which ends at
  the IndexError of a search, the KeyError of the save gate, the `break` of
  next_sequence or the exit key. It also has the session invariant
  `Consistent`: with no pending start the labelling is well formed; with
  one, the only pending frame is `current_begin`. The lemmas cover every
  transition.
- `Session.dfy`: the session as the main loop runs it, in place. The
  `LabelingSession` class owns the label `array<int>`, the snapshot array
  `original` (which the save aliases to the label array, as the code does),
  `waitingEnd`, `currentBegin` and the shared `LabelingParameters`. There is
  one method per key, plus `Tick` for one pass of the loop. Each method is
  proved against the matching function of `Editing`.
- `CaptureNames.dfy`: building `p{:03d}g{:02d}c{:02d}.mp4` and recognising
  such names with the regular expression of line 98 under Python's rules for
  `.` and `$`, with a round trip in both directions.

A raised exception (IndexError from an empty `np.where` result, KeyError from
the count dictionary) is modelled as a result value, because the program
stops there. The model does not describe what happens afterwards.

Points where the code behaves differently from what one would expect:
- Stepping is not modular. Past either end the cursor goes to the other end
  (`Cursor.ForwardModularExactly`, `Cursor.BigStepNotBijective`).
- A save does not snapshot the labels by value. It makes the snapshot the
  label array itself (`Session.LabelingSession.Save`).
- The save gate raises KeyError when no interval exists, instead of
  comparing two zero counts.
- A jump to a matching boundary is not bounded by the loaded count
  (`Editing.JumpMayPassLoaded`).

## Model

| member | source | states |
|---|---|---|
| `Labels.Fill` | label-videos.py:241 | the slice assignment `s[lo:hi] = c` writes c on the indices in [lo, hi) and keeps every other frame; with lo >= hi it changes nothing (also the writes at lines 222 and 229) |
| `Labels.Commit` | label-videos.py:220-222 | closing an interval writes start at b, end at e and inner strictly between, and keeps every frame outside [b, e] |
| `Labels.LastBefore` | label-videos.py:213 | the backward search returns the last index before p holding the code, with no such index between it and p, and returns nothing only when no index before p holds it |
| `Labels.FirstFrom` | label-videos.py:233 | the forward search returns the first index at or after p holding the code, and returns nothing only when none from p on holds it |
| `Labels.LastBeforeIs` | label-videos.py:213 | an index holding the code, with none between it and p, is what the backward search returns |
| `Labels.LastBeforePrefix` | label-videos.py:226-227 | the backward search depends only on the frames before p, so zeroing frame p first does not change it |
| `Labels.FindLastBefore` | label-videos.py:213 | the scan over `labels[:p]` keeps the last hit and returns the backward search's answer |
| `Labels.FindFirstFrom` | label-videos.py:233 | the scan from p stops at the first hit and returns the forward search's answer |
| `Labels.CountOf` | label-videos.py:245-246 | the per-code count `np.unique` reports equals the number of occurrences in the array |
| `Labels.CopyOf` | label-videos.py:161 | `np.copy` gives a fresh array with the same frames |
| `Labels.MatchingStart` | label-videos.py:212-215 | in a well-formed labelling an inner or end frame has a start before it, and every frame between that start and it is inner |
| `Labels.MatchingEnd` | label-videos.py:232-235 | in a well-formed labelling a start or inner frame has an end after it, and every frame between is inner |
| `Labels.PrefixDepth` | label-videos.py:247 | in a well-formed prefix, starts outnumber ends by one exactly when the next frame is inside an interval |
| `Labels.Balanced` | label-videos.py:247 | a well-formed labelling has as many starts as ends, so it holds a start iff it holds an end |
| `Labels.CommitWellFormed` | label-videos.py:219-223 | writing start, inner run and end over two free frames of a well-formed labelling keeps it well formed, swallowing intervals inside |
| `Labels.ClearWellFormed` | label-videos.py:239-241 | zeroing a span from a start to an end keeps a labelling well formed |
| `Cursor.Forward` | label-videos.py:182-190 | a forward step gives p+d or 0, and from any frame p >= 0 it lands in [0, n_loaded) |
| `Cursor.Backward` | label-videos.py:192-200 | a backward step from a loaded frame lands in [0, n_loaded); from any frame p >= 0 it lands at or after 0 and either below n_loaded or at p-d |
| `Cursor.SingleStepsInverse` | label-videos.py:187-200 | with d = 1, forward then backward and backward then forward both return to p |
| `Cursor.ForwardModularExactly` | label-videos.py:182-185 | for 1 <= d <= n_loaded, the forward step equals (p+d) mod n_loaded iff p+d <= n_loaded |
| `Cursor.BackwardModularExactly` | label-videos.py:192-195 | for 1 <= d <= n_loaded, the backward step equals (p-d) mod n_loaded iff p-d >= -1 |
| `Cursor.BigStepNotBijective` | label-videos.py:182-185 | with n_loaded 10 and big step 5, frames 8 and 9 both step to 0, and stepping back from there does not return to 8 |
| `Cursor.LabelingParameters.constructor` | label-videos.py:107-115 | cursor and loaded count start at 0 and the big step is the configured one |
| `Cursor.LabelingParameters.Refresh` | label-videos.py:167 | the loaded count becomes the loader's report |
| `Cursor.LabelingParameters.StepForward` | label-videos.py:182-190 | the cursor becomes the forward step from its old value under the current loaded count |
| `Cursor.LabelingParameters.StepBackward` | label-videos.py:192-200 | the cursor becomes the backward step from its old value |
| `Cursor.LabelingParameters.MouseWheel` | label-videos.py:117-126 | a negative wheel delta steps forward, any other steps backward, by the big step with shift held and by 1 otherwise |
| `Editing.OnBeginLabel` | label-videos.py:202-215 | begin changes at most the frame under the cursor, never moves the cursor forward and leaves the snapshot alone |
| `Editing.OnEndLabel` | label-videos.py:217-235 | end never moves the cursor backward, changes no frame after the cursor, moves the cursor only when it changes no frame, and leaves the snapshot alone |
| `Editing.OnDeleteLabel` | label-videos.py:237-242 | delete changes only the labels, and only when the cursor is on an inner frame with no start pending |
| `Editing.SaveGate` | label-videos.py:245-247 | with no start pending, the gate as written raises KeyError iff the labels lack an end or a start, and saves iff an end is present and the counts are equal; while waiting it never saves |
| `Editing.SaveGateFixed` | label-videos.py:245-247 | the gate with absent codes counted as zero never raises, agrees with the gate as written wherever that does not raise, and saves an interval-free labelling |
| `Editing.SaveGateOnCommitted` | label-videos.py:244-247 | on a well-formed labelling with nothing pending, the gate as written saves iff an interval exists and raises KeyError otherwise; the fixed gate always saves |
| `Editing.SaveNeedsBalance` | label-videos.py:247 | neither gate saves while waiting or when starts and ends differ in number |
| `Editing.EmptyLabellingCannotBeSaved` | label-videos.py:245-247 | an all-free labelling is well formed, yet the gate as written raises KeyError on it, while the fixed gate saves it |
| `Editing.Apply` | label-videos.py:182-260 | one pass keeps the cursor and current_begin inside the array; it leaves the loop iff the key is next_sequence and the labels match the snapshot, exits iff the key is exit, raises KeyError iff the key is save and the gate raises, and raises IndexError only on begin, end or delete |
| `Editing.PendingCount` | label-videos.py:202-211 | a consistent state holds exactly one pending frame while waiting and none otherwise |
| `Editing.BeginKeepsConsistent` | label-videos.py:202-215 | from a consistent state begin raises nothing and leads to a consistent state |
| `Editing.EndKeepsConsistent` | label-videos.py:217-235 | from a consistent state, end (except a reopen while a start is pending) raises nothing and leads to a consistent state |
| `Editing.DeleteKeepsConsistent` | label-videos.py:237-242 | from a consistent state delete raises nothing and leads to a consistent state |
| `Editing.ApplyKeepsConsistent` | label-videos.py:182-260 | from a consistent state, every pass except a reopen while pending raises no IndexError, raises KeyError exactly when it saves a labelling without intervals and nothing is pending, and otherwise leads to a consistent state |
| `Editing.ReopenWhilePendingOrphansStart` | label-videos.py:225-231 | end on an end frame while waiting reopens anyway: the old pending frame stays, current_begin moves to another frame, and the invariant is lost |
| `Editing.BeginTwiceRestores` | label-videos.py:203-211 | begin on a free frame writes a pending start, and a second begin there restores the array and clears waiting_end |
| `Editing.CommitClosesPending` | label-videos.py:218-224 | committing writes start at current_begin, end at the cursor and inner between, leaves every other frame, clears waiting_end, and the result is well formed |
| `Editing.CommitBeforeStartIgnored` | label-videos.py:218-219 | end on a free frame at or before the pending start changes nothing |
| `Editing.CommitThenReopen` | label-videos.py:218-231 | commit then end at the same frame gives back the pending start with (start, cursor] cleared, and restores the state exactly when that span was free |
| `Editing.ReopenClearsInterval` | label-videos.py:225-231 | with no start pending, end on an end frame makes the interval's start s pending, clears (s, cursor], keeps every other frame, sets current_begin to s and waiting_end |
| `Editing.BeginJumpsToStart` | label-videos.py:212-215 | with no start pending, begin on an inner or end frame moves the cursor to the start of its interval and changes nothing else |
| `Editing.EndJumpsToEnd` | label-videos.py:232-235 | with no start pending, end on a start or inner frame moves the cursor to the end of its interval and changes nothing else |
| `Editing.DeleteClearsInterval` | label-videos.py:237-242 | delete on an inner frame zeroes exactly the interval [start, end] around it and keeps every frame outside |
| `Editing.JumpMayPassLoaded` | label-videos.py:232-235 | a jump can move the cursor past the loaded frames: with one frame loaded, end on frame 0 of [1, 3, -1] moves it to 2 |
| `Editing.Run` | label-videos.py:164-260 | a run of passes stops at the first pass that raises, exits or leaves the loop; when it is still going or has left, the cursor and current_begin are inside the array, and it leaves only with labels matching the snapshot |
| `Editing.ReachableConsistent` | label-videos.py:164-260 | a run from a consistent state without a reopen while pending never ends in IndexError, and every state it is in when still going or leaving is consistent, has at most one pending frame, and balances starts and ends when nothing is pending |
| `Editing.SaveWithoutIntervalRaises` | label-videos.py:244-247 | a run that saves the all-free labelling [0] ends in KeyError, and the begin after it is never taken |
| `Session.LabelingSession.constructor` | label-videos.py:161-163 | a session starts with the given labels, a separate copy as snapshot, no pending start, current_begin 0 and cursor 0, and is consistent when the labels are well formed |
| `Session.LabelingSession.BeginLabel` | label-videos.py:202-215 | the array, waiting flag, current_begin, cursor and snapshot become what the begin handler gives, or stay as they were when its search raises; consistency and a separate snapshot are kept |
| `Session.LabelingSession.EndLabel` | label-videos.py:217-235 | the state becomes what the end handler gives; when the reopen search raises, only the end frame has been zeroed; consistency is kept except for a reopen while pending |
| `Session.LabelingSession.Reopen` | label-videos.py:225-231 | the reopen branch in place: the state becomes what the end handler gives on an end frame, or only that frame is zeroed when no start precedes it |
| `Session.LabelingSession.WriteCommit` | label-videos.py:220-222 | the three writes in place leave the array equal to the committed labelling |
| `Session.LabelingSession.WriteReopen` | label-videos.py:228-229 | the two writes in place leave the array with the pending start and the cleared span |
| `Session.LabelingSession.DeleteLabel` | label-videos.py:237-242 | the array becomes what the delete handler gives, or stays as it was when a search raises; consistency and a separate snapshot are kept |
| `Session.LabelingSession.Save` | label-videos.py:244-251 | the outcome is the gate as written; on success the snapshot becomes the label array itself and the saved labelling is the current one; otherwise nothing changes |
| `Session.LabelingSession.SaveSnapshot` | label-videos.py:244-251 | the corrected save: the outcome is the fixed gate, and on success the snapshot is a fresh copy equal to the saved labelling |
| `Session.LabelingSession.NextSequence` | label-videos.py:253-257 | advancing is allowed iff labels equal the snapshot element-wise; always when the snapshot is the label array; with a separate snapshot, iff nothing changed since the save |
| `Session.LabelingSession.Tick` | label-videos.py:164-260 | the loaded count is refreshed; the state becomes what one pass of `Apply` gives; IndexError, KeyError, leaving for the next item, the warning and exit are reported exactly in their cases; a successful save makes the snapshot the label array and records the labels saved, and nothing else changes the snapshot |
| `Session.AliasedSaveHidesEdits` | label-videos.py:251-257 | after a save as written and a begin on a free frame, next_sequence is allowed although the labels differ from the saved ones |
| `Session.SnapshotCatchesEdits` | label-videos.py:253-257 | the same steps with the corrected save make next_sequence refuse |
| `CaptureNames.Padded` | label-videos.py:138 | zero-padded formatting of a number below 10^w gives exactly w decimal digits |
| `CaptureNames.ValueOf` | label-videos.py:101-103 | `int()` of a digit string is below 10 to the string's length |
| `CaptureNames.PaddedValue` | label-videos.py:101-103 | reading a zero-padded number back gives the number when it fits in the width |
| `CaptureNames.ValuePadded` | label-videos.py:101-103 | every digit string is the padded form of its value |
| `CaptureNames.Name` | label-videos.py:137-141 | a capture name is fourteen characters long |
| `CaptureNames.NameFields` | label-videos.py:138 | the person, gesture and camera digits sit at 1-3, 5-6 and 8-9 between the letters p, g, c and the suffix .mp4 |
| `CaptureNames.MatchFields` | label-videos.py:98-103 | fourteen characters that match the pattern yield numbers that fit the fields, with p, g, c in place, a non-newline at the unescaped dot and mp4 at the end |
| `CaptureNames.MatchCaptureName` | label-videos.py:98-103 | a name the search accepts has at least fourteen characters and yields numbers that fit the fields |
| `CaptureNames.ParseCapture` | label-videos.py:94-104 | a name kept by the .mp4 filter and matched by the pattern ends in a literal .mp4, and its numbers come from its last fourteen characters and fit the fields |
| `CaptureNames.NameRoundTrip` | label-videos.py:98-104 | for person <= 999, gesture <= 99 and camera <= 99, any prefix followed by the built name parses back to the same three numbers |
| `CaptureNames.ParsedNameIsFormatted` | label-videos.py:94-104 | a name that parses has numbers in range and ends in the built name of those numbers |
| `CaptureNames.WildcardNeedsFilter` | label-videos.py:94-98 | the pattern's unescaped dot accepts `p001g02c03_mp4`; only the .mp4 filter skips it |
| `CaptureNames.DotSkipsNewline` | label-videos.py:98 | the unescaped dot does not match a newline, so `p001g02c03\nmp4` does not match |
| `CaptureNames.DollarBeforeNewline` | label-videos.py:94-98 | `$` also matches before a final newline, so `p001g02c03.mp4\n` matches; only the .mp4 filter skips it |

## Left out

- Rendering (`place_images`, `draw_labels`, `put_text`, `cv2.imshow`) and the `update_image` flag: drawing and floating-point pixel arithmetic, not part of the labelling logic.
- Video loading (`MultipleVideoLoader`): foreign code. It appears only as the loaded count passed to each pass, between 1 and the frame count. The model does not require that count to be non-decreasing, because no property depends on it.
- `to_labels_array` and `to_labels_dict` are not part of this model. A loaded labelling is any sequence of the frame count's length, and the consistency results assume it is well formed. What the file write stores is recorded as the ghost field `saved`.
- Configuration and the file system (argparse, `keymap.json`, `gestures.json`, `load_options`, `os.walk`, opening files, logging, `sys.exit`): I/O. The exit key is the `Exits` step and the `Quit` pass result.
- Key and mouse capture (`cv2.waitKey`, the mouse callback registration): an `Action` value per pass replaces them. Keymap characters are taken to be distinct, so one handler runs per key. Wheel events are taken one per pass, while the real callback may fire several times during one `waitKey`.
- The outer loops over persons, gestures and cameras and the grouping of captures: only iteration order. The per-name parse is modelled.
- The `int8` element type: the codes -1..3 never overflow it.
- `CaptureNames.Padded`: takes only numbers below 10^w. Python's width is a minimum, so wider numbers would print with more digits; the program only formats numbers it parsed from exactly w digits.
- `CaptureNames.Name`: takes only numbers in the ranges the parser produces, because the name is only ever built from parsed numbers. Formatting wider or negative numbers is not modelled.
- `CaptureNames.MatchCaptureName`: its contract does not restate which of the two candidate endings matched; `CaptureNames.ParseCapture` states it for the names the program keeps.
- The state after an exception: the program stops. The results `NoMatch`, `IndexError`, `KeyError`, `RaisedIndexError` and `RaisedKeyError` end the model's run.

## Findings

| source | as written | input that shows it | evidently intended | confidence | as-written member | corrected member |
|---|---|---|---|---|---|---|
| label-videos.py:245-247 | the counts come from `np.unique`, so `counts_dict[-1]` raises KeyError when no end frame exists | a labelling with no interval, e.g. all frames 0 with no start pending, and the save key | an absent code counts as zero, so a labelling without intervals is saved (needed to save after deleting every interval of a loaded file) | high, not executed | `Editing.EmptyLabellingCannotBeSaved` | `Session.LabelingSession.SaveSnapshot` |
| label-videos.py:251 | `original_labels = labels` makes the snapshot the label array itself, so later edits change both | labels [0, 1, -1], save, begin_label at frame 0, next_sequence | the snapshot is a copy, as at line 161, so the pending edit is reported as unsaved | high, not executed | `Session.AliasedSaveHidesEdits` | `Session.LabelingSession.SaveSnapshot` |

`Session.LabelingSession.Save`, `Editing.SaveGate` and the save case of `Editing.Apply` model lines 244-251 as written, and `Session.LabelingSession.Tick` and `Editing.Run` use them, so the loop model stays faithful. The corrected save `Session.LabelingSession.SaveSnapshot` uses `Editing.SaveGateFixed`, which always admits a consistent labelling with nothing pending (`Editing.SaveGateOnCommitted`), and keeps the snapshot a separate array. With a separate snapshot, `Session.LabelingSession.NextSequence` allows advancing only when nothing has changed since the save (`Session.SnapshotCatchesEdits`).
