/**
 * The interval edit state machine of a labelling session, as values: the
 * label array together with the pending-start state (waiting_end,
 * current_begin), the cursor and the snapshot next_sequence compares
 * against, and what each key of the main loop does to them. The class in
 * Session.dfy runs the same handlers in place and is proved against these
 * functions.
 */
module Editing {
  import opened Wrappers
  import opened Labels
  import opened Cursor

  /**
   * What original_labels is: a separate array holding a copy of the labels
   * (as after np.copy), or the label array itself (as after a save, which
   * assigns original_labels = labels).
   */
  datatype Snapshot = Copy(content: seq<int>) | SameArray

  /** The state a handler reads and writes. */
  datatype Editor = Editor(labels: seq<int>, waitingEnd: bool, currentBegin: int, cursor: int, snapshot: Snapshot)

  /**
   * What a handler leads to: the next state, or NoMatch when a boundary
   * search found nothing and indexing its empty result raised IndexError.
   */
  datatype Outcome = Done(next: Editor) | NoMatch

  /** What one pass of the main loop leads to. */
  datatype Step =
    | Going(next: Editor)  // the loop goes on
    | Leaves(next: Editor) // next_sequence breaks out to the next sequence
    | Exits                // the exit key ends the program
    | IndexError           // a boundary search found nothing
    | KeyError             // the save gate looked up the count of an absent code

  /** One key press or wheel event, as the main loop dispatches it. */
  datatype Action =
    | NoKey
    | NextFrames | NextFrame | PreviousFrames | PreviousFrame
    | Wheel(negative: bool, shift: bool)
    | BeginLabel | EndLabel | DeleteLabel
    | SaveLabels | NextSequence | Exit

  /** The cursor and current_begin index frames of the array. */
  predicate InRange(e: Editor) {
    0 <= e.cursor < |e.labels| && 0 <= e.currentBegin < |e.labels|
  }

  /**
   * The session invariant: with no pending start the array is a committed
   * labelling; with one, its only Pending frame is current_begin and
   * clearing it leaves a committed labelling.
   */
  ghost predicate Consistent(e: Editor) {
    && InRange(e)
    && if e.waitingEnd then
         e.labels[e.currentBegin] == Pending && WellFormed(e.labels[e.currentBegin := Unlabeled])
       else
         WellFormed(e.labels)
  }

  /**
   * begin_label: open a pending interval on a free frame, cancel the pending
   * start when pressed on it again, jump back to the Start of the interval
   * under the cursor, or do nothing.
   */
  function OnBeginLabel(e: Editor): (r: Outcome)
    requires 0 <= e.cursor < |e.labels|
    ensures r.Done? ==> |r.next.labels| == |e.labels| && r.next.cursor <= e.cursor && r.next.snapshot == e.snapshot
    ensures r.Done? ==> forall j :: 0 <= j < |e.labels| && j != e.cursor ==> r.next.labels[j] == e.labels[j]
  {
    var p := e.cursor;
    if e.labels[p] == Unlabeled && !e.waitingEnd then
      Done(e.(labels := e.labels[p := Pending], currentBegin := p, waitingEnd := true))
    else if p == e.currentBegin && e.waitingEnd then
      Done(e.(labels := e.labels[p := Unlabeled], waitingEnd := false))
    else if (e.labels[p] == End || e.labels[p] == Inner) && !e.waitingEnd then
      match LastBefore(e.labels, p, Start)
      case None => NoMatch
      case Some(b) => Done(e.(cursor := b))
    else
      Done(e)
  }

  /**
   * end_label: commit the pending interval on a free frame after its start,
   * reopen the interval whose End is under the cursor, jump forward to the
   * End of the interval under the cursor, or do nothing.
   */
  function OnEndLabel(e: Editor): (r: Outcome)
    requires InRange(e)
    ensures r.Done? ==> |r.next.labels| == |e.labels| && r.next.cursor >= e.cursor && r.next.snapshot == e.snapshot
    ensures r.Done? ==> forall j :: e.cursor < j < |e.labels| ==> r.next.labels[j] == e.labels[j]
    ensures r.Done? && r.next.labels != e.labels ==> r.next.cursor == e.cursor
  {
    var p := e.cursor;
    if e.labels[p] == Unlabeled && e.waitingEnd then
      if p > e.currentBegin then
        Done(e.(labels := Commit(e.labels, e.currentBegin, p), waitingEnd := false))
      else
        Done(e)
    else if e.labels[p] == End then
      var t := e.labels[p := Unlabeled];
      match LastBefore(t, p, Start)
      case None => NoMatch
      case Some(b) =>
        Done(e.(labels := Fill(t[b := Pending], b + 1, p, Unlabeled), currentBegin := b, waitingEnd := true))
    else if (e.labels[p] == Start || e.labels[p] == Inner) && !e.waitingEnd then
      match FirstFrom(e.labels, p, End)
      case None => NoMatch
      case Some(n) => Done(e.(cursor := n))
    else
      Done(e)
  }

  /** delete_label: on an Inner frame, zero the whole interval around it. */
  function OnDeleteLabel(e: Editor): (r: Outcome)
    requires 0 <= e.cursor < |e.labels|
    ensures r.Done? ==> r.next == e.(labels := r.next.labels) && |r.next.labels| == |e.labels|
    ensures r.Done? && r.next != e ==> e.labels[e.cursor] == Inner && !e.waitingEnd
  {
    var p := e.cursor;
    if e.labels[p] == Inner && !e.waitingEnd then
      match LastBefore(e.labels, p, Start)
      case None => NoMatch
      case Some(b) =>
        match FirstFrom(e.labels, p, End)
        case None => NoMatch
        case Some(n) => Done(e.(labels := Fill(e.labels, b, n + 1, Unlabeled)))
    else
      Done(e)
  }

  /** What the save_labels key does: write the file, do nothing, or raise KeyError. */
  datatype SaveResult = Saved | NotSaved | RaisesKeyError

  /**
   * The save gate as written. The counts come from np.unique, which lists
   * only codes present in the array, so looking up the count of End (first)
   * or of Start (second) raises KeyError when that code is absent. With a
   * start pending the lookups are never evaluated.
   */
  function SaveGate(s: seq<int>, waiting: bool): (r: SaveResult)
    ensures r == Saved <==> !waiting && End in s && Count(s, End) == Count(s, Start)
    ensures r == RaisesKeyError <==> !waiting && (End !in s || Start !in s)
  {
    if waiting then NotSaved
    else if Count(s, End) == 0 || Count(s, Start) == 0 then RaisesKeyError
    else if Count(s, End) == Count(s, Start) then Saved
    else NotSaved
  }

  /** The save gate with an absent code counted as zero. */
  function SaveGateFixed(s: seq<int>, waiting: bool): (r: SaveResult)
    ensures r != RaisesKeyError
    ensures SaveGate(s, waiting) != RaisesKeyError ==> r == SaveGate(s, waiting)
    ensures !waiting && Start !in s && End !in s ==> r == Saved
  {
    if !waiting && Count(s, End) == Count(s, Start) then Saved else NotSaved
  }

  /**
   * On a committed labelling with no start pending, the gate as written
   * saves exactly when the labelling holds an interval and raises KeyError
   * otherwise; the fixed gate always saves.
   */
  lemma SaveGateOnCommitted(s: seq<int>)
    requires WellFormed(s)
    ensures SaveGate(s, false) == (if Start in s then Saved else RaisesKeyError)
    ensures SaveGateFixed(s, false) == Saved
  {
    Balanced(s);
  }

  /** Neither gate saves while a start is pending or when Starts and Ends differ in number. */
  lemma SaveNeedsBalance(s: seq<int>, waiting: bool)
    ensures SaveGate(s, waiting) == Saved ==> !waiting && Count(s, Start) == Count(s, End) > 0
    ensures SaveGateFixed(s, waiting) == Saved <==> !waiting && Count(s, Start) == Count(s, End)
  {
  }

  /** An all-free labelling is committed, yet saving it raises KeyError. */
  lemma EmptyLabellingCannotBeSaved(n: nat)
    ensures WellFormed(seq(n, _ => Unlabeled))
    ensures SaveGate(seq(n, _ => Unlabeled), false) == RaisesKeyError
    ensures SaveGateFixed(seq(n, _ => Unlabeled), false) == Saved
  {
    var s := seq(n, _ => Unlabeled);
    assert Start !in s && End !in s;
  }

  /** np.all(labels == original_labels): always so once the snapshot is the label array itself. */
  predicate MatchesSnapshot(e: Editor) {
    e.snapshot.SameArray? || e.labels == e.snapshot.content
  }

  /**
   * One dispatched action. A save that passes the gate makes the snapshot
   * the label array itself; next_sequence leaves the loop when the labels
   * match the snapshot and only warns otherwise.
   */
  function Apply(e: Editor, a: Action, loaded: int, bigStep: int): (r: Step)
    requires InRange(e) && 1 <= loaded <= |e.labels| && 1 <= bigStep
    ensures r.Going? || r.Leaves? ==> InRange(r.next) && |r.next.labels| == |e.labels|
    ensures r.Leaves? <==> a == NextSequence && MatchesSnapshot(e)
    ensures r.Exits? <==> a == Exit
    ensures r.KeyError? <==> a == SaveLabels && SaveGate(e.labels, e.waitingEnd) == RaisesKeyError
    ensures r.IndexError? ==> a == BeginLabel || a == EndLabel || a == DeleteLabel
  {
    match a
    case NoKey => Going(e)
    case NextFrames => Going(e.(cursor := Forward(e.cursor, bigStep, loaded)))
    case NextFrame => Going(e.(cursor := Forward(e.cursor, 1, loaded)))
    case PreviousFrames => Going(e.(cursor := Backward(e.cursor, bigStep, loaded)))
    case PreviousFrame => Going(e.(cursor := Backward(e.cursor, 1, loaded)))
    case Wheel(negative, shift) =>
      var d := if shift then bigStep else 1;
      Going(e.(cursor := if negative then Forward(e.cursor, d, loaded) else Backward(e.cursor, d, loaded)))
    case BeginLabel => Handled(OnBeginLabel(e))
    case EndLabel => Handled(OnEndLabel(e))
    case DeleteLabel => Handled(OnDeleteLabel(e))
    case SaveLabels =>
      (match SaveGate(e.labels, e.waitingEnd)
       case Saved => Going(e.(snapshot := SameArray))
       case NotSaved => Going(e)
       case RaisesKeyError => KeyError)
    case NextSequence => if MatchesSnapshot(e) then Leaves(e) else Going(e)
    case Exit => Exits
  }

  /** A handler's outcome as a pass of the loop. */
  function Handled(o: Outcome): Step {
    match o
    case Done(n) => Going(n)
    case NoMatch => IndexError
  }

  /** The one transition that can break the invariant: end_label on an End frame while a start is pending. */
  predicate ReopensWhilePending(e: Editor, a: Action)
    requires 0 <= e.cursor < |e.labels|
  {
    a == EndLabel && e.waitingEnd && e.labels[e.cursor] == End
  }

  /** Consistent states carry exactly one Pending frame while waiting and none otherwise. */
  lemma PendingCount(e: Editor)
    requires Consistent(e)
    ensures Count(e.labels, Pending) == if e.waitingEnd then 1 else 0
  {
    if e.waitingEnd {
      var w := e.labels[e.currentBegin := Unlabeled];
      assert Pending !in w by {
        forall j | 0 <= j < |w| ensures w[j] != Pending { assert IsCommittedCode(w[j]); }
      }
      assert e.labels == w[e.currentBegin := Pending];
    } else {
      assert Pending !in e.labels by {
        forall j | 0 <= j < |e.labels| ensures e.labels[j] != Pending { assert IsCommittedCode(e.labels[j]); }
      }
    }
  }

  lemma BeginKeepsConsistent(e: Editor)
    requires Consistent(e)
    ensures OnBeginLabel(e).Done? && Consistent(OnBeginLabel(e).next)
  {
    var p := e.cursor;
    if e.labels[p] == Unlabeled && !e.waitingEnd {
      assert e.labels[p := Pending][p := Unlabeled] == e.labels;
    } else if p == e.currentBegin && e.waitingEnd {
    } else if (e.labels[p] == End || e.labels[p] == Inner) && !e.waitingEnd {
      MatchingStart(e.labels, p);
    }
  }

  lemma EndKeepsConsistent(e: Editor)
    requires Consistent(e) && !ReopensWhilePending(e, EndLabel)
    ensures OnEndLabel(e).Done? && Consistent(OnEndLabel(e).next)
  {
    var p, b := e.cursor, e.currentBegin;
    if e.labels[p] == Unlabeled && e.waitingEnd {
      if p > b {
        var w := e.labels[b := Unlabeled];
        CommitWellFormed(w, b, p);
        assert Commit(e.labels, b, p) == Commit(w, b, p);
      }
    } else if e.labels[p] == End {
      var t := e.labels[p := Unlabeled];
      MatchingStart(e.labels, p);
      LastBeforePrefix(e.labels, t, p, Start);
      var s := LastBefore(e.labels, p, Start).value;
      ClearWellFormed(e.labels, s, p);
      assert Fill(t[s := Pending], s + 1, p, Unlabeled)[s := Unlabeled] == Fill(e.labels, s, p + 1, Unlabeled);
    } else if (e.labels[p] == Start || e.labels[p] == Inner) && !e.waitingEnd {
      MatchingEnd(e.labels, p);
    }
  }

  lemma DeleteKeepsConsistent(e: Editor)
    requires Consistent(e)
    ensures OnDeleteLabel(e).Done? && Consistent(OnDeleteLabel(e).next)
  {
    var p := e.cursor;
    if e.labels[p] == Inner && !e.waitingEnd {
      MatchingStart(e.labels, p);
      MatchingEnd(e.labels, p);
      ClearWellFormed(e.labels, LastBefore(e.labels, p, Start).value, FirstFrom(e.labels, p, End).value);
    }
  }

  /**
   * Every action but a reopen while pending keeps the invariant, and no
   * search raises; the only error left is the KeyError of a save on a
   * labelling without intervals.
   */
  lemma ApplyKeepsConsistent(e: Editor, a: Action, loaded: int, bigStep: int)
    requires Consistent(e) && 1 <= loaded <= |e.labels| && 1 <= bigStep
    requires !ReopensWhilePending(e, a)
    ensures !Apply(e, a, loaded, bigStep).IndexError?
    ensures Apply(e, a, loaded, bigStep).KeyError? <==> a == SaveLabels && !e.waitingEnd && Start !in e.labels
    ensures Apply(e, a, loaded, bigStep).Going? || Apply(e, a, loaded, bigStep).Leaves? ==>
      Consistent(Apply(e, a, loaded, bigStep).next)
  {
    match a
    case BeginLabel => BeginKeepsConsistent(e);
    case EndLabel => EndKeepsConsistent(e);
    case DeleteLabel => DeleteKeepsConsistent(e);
    case SaveLabels =>
      if !e.waitingEnd {
        SaveGateOnCommitted(e.labels);
      }
    case _ =>
  }

  /**
   * end_label on an End frame while a start is pending reopens that interval
   * anyway: the earlier Pending frame stays in the array, no longer
   * remembered by current_begin, and the invariant is lost.
   */
  lemma ReopenWhilePendingOrphansStart(e: Editor)
    requires Consistent(e) && ReopensWhilePending(e, EndLabel)
    ensures OnEndLabel(e).Done?
    ensures OnEndLabel(e).next.waitingEnd
    ensures OnEndLabel(e).next.currentBegin != e.currentBegin
    ensures OnEndLabel(e).next.labels[e.currentBegin] == Pending
    ensures OnEndLabel(e).next.labels[OnEndLabel(e).next.currentBegin] == Pending
    ensures !Consistent(OnEndLabel(e).next)
  {
    var p, c := e.cursor, e.currentBegin;
    var w := e.labels[c := Unlabeled];
    assert w[p] == End;
    MatchingStart(w, p);
    var s := LastBefore(w, p, Start).value;
    var t := e.labels[p := Unlabeled];
    assert s != c && !(s < c < p) by {
      assert w[c] == Unlabeled;
    }
    forall j | s < j < p
      ensures t[j] != Start
    {
      assert w[j] == Inner;
    }
    LastBeforeIs(t, p, Start, s);
    var n := OnEndLabel(e).next;
    assert n.labels[c] == Pending;
    assert n.labels[s := Unlabeled][c] == Pending;
  }

  /** Pressing begin_label twice on a free frame restores the array and the waiting flag. */
  lemma BeginTwiceRestores(e: Editor)
    requires 0 <= e.cursor < |e.labels| && e.labels[e.cursor] == Unlabeled && !e.waitingEnd
    ensures OnBeginLabel(e).Done? && OnBeginLabel(e).next.waitingEnd
    ensures OnBeginLabel(e).next.labels[e.cursor] == Pending
    ensures OnBeginLabel(OnBeginLabel(e).next) == Done(e.(currentBegin := e.cursor))
  {
    assert e.labels[e.cursor := Pending][e.cursor := Unlabeled] == e.labels;
  }

  /**
   * end_label on a free frame after the pending start commits the interval:
   * Start at current_begin, End at the cursor, Inner strictly between
   * (swallowing whatever intervals lay there), the rest untouched, and the
   * result is a committed labelling.
   */
  lemma CommitClosesPending(e: Editor)
    requires Consistent(e) && e.waitingEnd && e.labels[e.cursor] == Unlabeled && e.currentBegin < e.cursor
    ensures OnEndLabel(e).Done?
    ensures OnEndLabel(e).next == e.(labels := OnEndLabel(e).next.labels, waitingEnd := false)
    ensures forall j :: 0 <= j < |e.labels| ==>
      OnEndLabel(e).next.labels[j] ==
        if j == e.currentBegin then Start
        else if j == e.cursor then End
        else if e.currentBegin < j < e.cursor then Inner
        else e.labels[j]
    ensures WellFormed(OnEndLabel(e).next.labels)
  {
    EndKeepsConsistent(e);
  }

  /** end_label on a free frame at or before the pending start is ignored. */
  lemma CommitBeforeStartIgnored(e: Editor)
    requires InRange(e) && e.waitingEnd && e.labels[e.cursor] == Unlabeled && e.cursor <= e.currentBegin
    ensures OnEndLabel(e) == Done(e)
  {
  }

  /**
   * Committing at the cursor and pressing end_label again there reopens the
   * same interval: Pending at its start, everything after it up to the
   * cursor cleared. The state is restored exactly when that span was free before.
   */
  lemma CommitThenReopen(e: Editor)
    requires Consistent(e) && e.waitingEnd && e.labels[e.cursor] == Unlabeled && e.currentBegin < e.cursor
    ensures OnEndLabel(e).Done? && OnEndLabel(OnEndLabel(e).next).Done?
    ensures OnEndLabel(OnEndLabel(e).next).next ==
      e.(labels := Fill(e.labels, e.currentBegin + 1, e.cursor + 1, Unlabeled))
    ensures (forall j :: e.currentBegin < j < e.cursor ==> e.labels[j] == Unlabeled) <==>
      OnEndLabel(OnEndLabel(e).next) == Done(e)
  {
    var p, b := e.cursor, e.currentBegin;
    var m := OnEndLabel(e).next;
    var t := m.labels[p := Unlabeled];
    LastBeforeIs(t, p, Start, b);
    var f := Fill(e.labels, b + 1, p + 1, Unlabeled);
    assert Fill(t[b := Pending], b + 1, p, Unlabeled) == f;
    if forall j :: b < j < p ==> e.labels[j] == Unlabeled {
      assert f == e.labels;
    }
    if f == e.labels {
      forall j | b < j < p
        ensures e.labels[j] == Unlabeled
      {
        assert f[j] == Unlabeled;
      }
    }
  }

  /**
   * With no start pending, end_label on an End frame reopens its interval:
   * its Start s becomes the pending start, the frames after it up to the
   * cursor are cleared, and every other frame is kept.
   */
  lemma ReopenClearsInterval(e: Editor) returns (s: nat)
    requires Consistent(e) && !e.waitingEnd && e.labels[e.cursor] == End
    ensures s < e.cursor && e.labels[s] == Start
    ensures forall j :: s < j < e.cursor ==> e.labels[j] == Inner
    ensures OnEndLabel(e).Done?
    ensures OnEndLabel(e).next == e.(labels := OnEndLabel(e).next.labels, currentBegin := s, waitingEnd := true)
    ensures forall j :: 0 <= j < |e.labels| ==>
      OnEndLabel(e).next.labels[j] ==
        if j == s then Pending
        else if s < j <= e.cursor then Unlabeled
        else e.labels[j]
  {
    var p := e.cursor;
    MatchingStart(e.labels, p);
    LastBeforePrefix(e.labels, e.labels[p := Unlabeled], p, Start);
    s := LastBefore(e.labels, p, Start).value;
  }

  /**
   * With no start pending, begin_label on an End or Inner frame moves the
   * cursor back to the Start of the interval it lies in and changes nothing else.
   */
  lemma BeginJumpsToStart(e: Editor) returns (b: nat)
    requires Consistent(e) && !e.waitingEnd && Closes(e.labels[e.cursor])
    ensures b < e.cursor && e.labels[b] == Start
    ensures forall j :: b < j < e.cursor ==> e.labels[j] == Inner
    ensures OnBeginLabel(e) == Done(e.(cursor := b))
  {
    MatchingStart(e.labels, e.cursor);
    b := LastBefore(e.labels, e.cursor, Start).value;
  }

  /**
   * With no start pending, end_label on a Start or Inner frame moves the
   * cursor forward to the End of the interval it lies in and changes nothing else.
   */
  lemma EndJumpsToEnd(e: Editor) returns (n: nat)
    requires Consistent(e) && !e.waitingEnd && Opens(e.labels[e.cursor])
    ensures e.cursor < n < |e.labels| && e.labels[n] == End
    ensures forall j :: e.cursor < j < n ==> e.labels[j] == Inner
    ensures OnEndLabel(e) == Done(e.(cursor := n))
  {
    MatchingEnd(e.labels, e.cursor);
    n := FirstFrom(e.labels, e.cursor, End).value;
  }

  /**
   * delete_label on an Inner frame clears exactly the interval [b, n] it
   * lies in and leaves every frame outside it as it was.
   */
  lemma DeleteClearsInterval(e: Editor) returns (b: nat, n: nat)
    requires Consistent(e) && !e.waitingEnd && e.labels[e.cursor] == Inner
    ensures b < e.cursor < n < |e.labels|
    ensures e.labels[b] == Start && e.labels[n] == End
    ensures forall j :: b < j < n ==> e.labels[j] == Inner
    ensures OnDeleteLabel(e).Done?
    ensures forall j :: 0 <= j < |e.labels| ==>
      OnDeleteLabel(e).next.labels[j] == if b <= j <= n then Unlabeled else e.labels[j]
  {
    MatchingStart(e.labels, e.cursor);
    MatchingEnd(e.labels, e.cursor);
    b := LastBefore(e.labels, e.cursor, Start).value;
    n := FirstFrom(e.labels, e.cursor, End).value;
  }

  /**
   * A jump is not bounded by the loaded count: with one frame loaded,
   * end_label on a Start at frame 0 moves the cursor to frame 2.
   */
  lemma JumpMayPassLoaded()
    ensures Apply(Editor([Start, Inner, End], false, 0, 0, SameArray), EndLabel, 1, 1) ==
      Going(Editor([Start, Inner, End], false, 0, 2, SameArray))
  {
    var s := [Start, Inner, End];
    assert FirstFrom(s, 0, End) == Some(2) by {
      assert s[0] != End && s[1] != End && s[2] == End;
    }
  }

  /** One pass of the main loop: the loaded count this pass and the action taken. */
  datatype Pass = Pass(loaded: int, action: Action)

  predicate LoadsFit(passes: seq<Pass>, n: int) {
    forall i :: 0 <= i < |passes| ==> 1 <= passes[i].loaded <= n
  }

  /**
   * The main loop over one sequence: passes run until one leaves the loop,
   * exits or raises; that pass ends the run and later passes are never
   * taken. Going means the loop is still running after the last pass.
   */
  function Run(e: Editor, passes: seq<Pass>, bigStep: int): (r: Step)
    requires InRange(e) && 1 <= bigStep && LoadsFit(passes, |e.labels|)
    ensures r.Going? || r.Leaves? ==> InRange(r.next) && |r.next.labels| == |e.labels|
    ensures r.Leaves? ==> MatchesSnapshot(r.next)
    ensures passes == [] ==> r == Going(e)
    decreases |passes|
  {
    if passes == [] then Going(e)
    else
      match Apply(e, passes[0].action, passes[0].loaded, bigStep)
      case Going(n) => Run(n, passes[1..], bigStep)
      case other => other
  }

  /** No pass of the run is an end_label on an End frame while a start is pending. */
  predicate NeverReopensWhilePending(e: Editor, passes: seq<Pass>, bigStep: int)
    requires InRange(e) && 1 <= bigStep && LoadsFit(passes, |e.labels|)
    decreases |passes|
  {
    passes == [] ||
    (!ReopensWhilePending(e, passes[0].action) &&
     match Apply(e, passes[0].action, passes[0].loaded, bigStep)
     case Going(n) => NeverReopensWhilePending(n, passes[1..], bigStep)
     case _ => true)
  }

  /**
   * Every state reached from a consistent one without reopening while a
   * start is pending is consistent: no boundary search raises IndexError, at
   * most one frame is Pending, and with none pending the Starts and Ends
   * balance. The run may still end in the KeyError of the save gate.
   */
  lemma {:induction false} ReachableConsistent(e: Editor, passes: seq<Pass>, bigStep: int)
    requires Consistent(e) && 1 <= bigStep && LoadsFit(passes, |e.labels|)
    requires NeverReopensWhilePending(e, passes, bigStep)
    ensures !Run(e, passes, bigStep).IndexError?
    ensures Run(e, passes, bigStep).Going? || Run(e, passes, bigStep).Leaves? ==>
      && Consistent(Run(e, passes, bigStep).next)
      && Count(Run(e, passes, bigStep).next.labels, Pending) <= 1
      && (!Run(e, passes, bigStep).next.waitingEnd ==>
            Count(Run(e, passes, bigStep).next.labels, Start) == Count(Run(e, passes, bigStep).next.labels, End))
    decreases |passes|
  {
    if passes == [] {
      PendingCount(e);
      if !e.waitingEnd {
        Balanced(e.labels);
      }
    } else {
      var a, loaded := passes[0].action, passes[0].loaded;
      ApplyKeepsConsistent(e, a, loaded, bigStep);
      var r := Apply(e, a, loaded, bigStep);
      if r.Going? {
        ReachableConsistent(r.next, passes[1..], bigStep);
      } else if r.Leaves? {
        PendingCount(r.next);
        if !r.next.waitingEnd {
          Balanced(r.next.labels);
        }
      }
    }
  }

  /**
   * Saving an interval-free labelling ends the run in KeyError, whatever
   * passes were meant to follow.
   */
  lemma SaveWithoutIntervalRaises()
    ensures Run(Editor([Unlabeled], false, 0, 0, Copy([Unlabeled])),
                [Pass(1, SaveLabels), Pass(1, BeginLabel)], 1) == KeyError
  {
    assert End !in [Unlabeled];
  }
}
