/**
 * One labelling session, as the main loop runs it: the label array edited in
 * place, the pending-start state, the cursor object shared with the mouse
 * callback, the snapshot the dirty check compares against, and the save and
 * next-sequence gates. The handler methods are proved against the value
 * functions of module Editing.
 */
module Session {
  import opened Wrappers
  import opened Labels
  import opened Cursor
  import opened Editing

  /** What one pass of the main loop ends in, as the program reports it. */
  datatype PassResult = Continue | Warned | NextItem | Quit | RaisedIndexError | RaisedKeyError

  class LabelingSession {
    const labels: array<int>
    var original: array<int>
    var waitingEnd: bool
    var currentBegin: int
    const param: LabelingParameters
    /** The labelling last written to the labels file (or loaded at the start). */
    ghost var saved: seq<int>

    ghost predicate Valid()
      reads this, param
    {
      && labels.Length >= 1 && original.Length == labels.Length
      && 0 <= currentBegin < labels.Length
      && 0 <= param.itFrames < labels.Length
      && param.bigStep >= 1
    }

    /** The editor state the handlers act on. */
    ghost function State(): Editor
      reads this, labels, original, param
    {
      Editor(labels[..], waitingEnd, currentBegin, param.itFrames,
             if original == labels then SameArray else Copy(original[..]))
    }

    /** The snapshot is an array of its own that holds the saved labelling. */
    ghost predicate SnapshotHeld()
      reads this, original
    {
      original != labels && original[..] == saved
    }

    /**
     * Opening a sequence: the labels (all free, or loaded from a labels
     * file), a copy of them as the snapshot, no pending start, cursor at 0.
     */
    constructor (initial: seq<int>, param: LabelingParameters)
      requires |initial| >= 1 && param.bigStep >= 1
      modifies param`itFrames
      ensures Valid() && SnapshotHeld() && fresh(labels) && fresh(original)
      ensures this.param == param && saved == initial
      ensures State() == Editor(initial, false, 0, 0, Copy(initial))
      ensures WellFormed(initial) ==> Consistent(State())
    {
      var l := new int[|initial|](i requires 0 <= i < |initial| => initial[i]);
      var o := CopyOf(l);
      labels, original := l, o;
      this.param := param;
      saved := initial;
      waitingEnd, currentBegin := false, 0;
      new;
      param.itFrames := 0;
    }

    /** The begin_label key; raised means a search raised IndexError. */
    method BeginLabel() returns (raised: bool)
      requires Valid()
      modifies this`waitingEnd, this`currentBegin, labels, param`itFrames
      ensures Valid()
      ensures raised == OnBeginLabel(old(State())).NoMatch?
      ensures !raised ==> State() == OnBeginLabel(old(State())).next
      ensures raised ==> State() == old(State())
      ensures old(Consistent(State())) ==> !raised && Consistent(State())
      ensures old(SnapshotHeld()) ==> SnapshotHeld()
    {
      ghost var e := State();
      var p := param.itFrames;
      raised := false;
      if labels[p] == Unlabeled && !waitingEnd {
        labels[p] := Pending;
        currentBegin := p;
        waitingEnd := true;
      } else if p == currentBegin && waitingEnd {
        labels[p] := Unlabeled;
        waitingEnd := false;
      } else if (labels[p] == End || labels[p] == Inner) && !waitingEnd {
        var b := FindLastBefore(labels, p, Start);
        if b.None? {
          raised := true;
        } else {
          param.itFrames := b.value;
        }
      }
      if Consistent(e) {
        BeginKeepsConsistent(e);
      }
      assert original != labels ==> original[..] == old(original[..]);
    }

    /** The end_label key; raised means a search raised IndexError. */
    method EndLabel() returns (raised: bool)
      requires Valid()
      modifies this`waitingEnd, this`currentBegin, labels, param`itFrames
      ensures Valid()
      ensures raised == OnEndLabel(old(State())).NoMatch?
      ensures !raised ==> State() == OnEndLabel(old(State())).next
      ensures raised && old(labels[param.itFrames]) == End ==>
        State() == old(State()).(labels := old(labels[..])[param.itFrames := Unlabeled])
      ensures raised && old(labels[param.itFrames]) != End ==> State() == old(State())
      ensures old(Consistent(State())) && !ReopensWhilePending(old(State()), Action.EndLabel) ==>
        !raised && Consistent(State())
      ensures old(SnapshotHeld()) ==> SnapshotHeld()
    {
      ghost var e := State();
      var p := param.itFrames;
      raised := false;
      if labels[p] == Unlabeled && waitingEnd {
        if p > currentBegin {
          WriteCommit(currentBegin, p);
          waitingEnd := false;
        }
      } else if labels[p] == End {
        raised := Reopen();
      } else if (labels[p] == Start || labels[p] == Inner) && !waitingEnd {
        var n := FindFirstFrom(labels, p, End);
        if n.None? {
          raised := true;
        } else {
          param.itFrames := n.value;
        }
      }
      if Consistent(e) && !ReopensWhilePending(e, Action.EndLabel) {
        EndKeepsConsistent(e);
      }
      assert original != labels ==> original[..] == old(original[..]);
    }

    /**
     * The reopen branch of end_label: clear the End under the cursor, make
     * the Start before it pending again and clear the frames between.
     */
    method Reopen() returns (raised: bool)
      requires Valid() && labels[param.itFrames] == End
      modifies this`waitingEnd, this`currentBegin, labels
      ensures Valid()
      ensures raised == OnEndLabel(old(State())).NoMatch?
      ensures !raised ==> State() == OnEndLabel(old(State())).next
      ensures raised ==> State() == old(State()).(labels := old(labels[..])[param.itFrames := Unlabeled])
    {
      ghost var e := State();
      var p := param.itFrames;
      labels[p] := Unlabeled;
      var b := FindLastBefore(labels, p, Start);
      if b.None? {
        raised := true;
      } else {
        raised := false;
        currentBegin := b.value;
        WriteReopen(currentBegin, p);
        waitingEnd := true;
      }
      assert original != labels ==> original[..] == old(original[..]);
    }

    /** labels[b] = 1; labels[e] = -1; labels[b+1:e] = 3 */
    method WriteCommit(b: int, e: int)
      requires 0 <= b < e < labels.Length
      modifies labels
      ensures labels[..] == Commit(old(labels[..]), b, e)
    {
      labels[b] := Start;
      labels[e] := End;
      forall i | b + 1 <= i < e {
        labels[i] := Inner;
      }
    }

    /** labels[b] = 2; labels[b+1:e] = 0 */
    method WriteReopen(b: int, e: int)
      requires 0 <= b < e <= labels.Length
      modifies labels
      ensures labels[..] == Fill(old(labels[..])[b := Pending], b + 1, e, Unlabeled)
    {
      labels[b] := Pending;
      forall i | b + 1 <= i < e {
        labels[i] := Unlabeled;
      }
    }

    /** The delete_label key; raised means a search raised IndexError. */
    method DeleteLabel() returns (raised: bool)
      requires Valid()
      modifies labels
      ensures Valid()
      ensures raised == OnDeleteLabel(old(State())).NoMatch?
      ensures !raised ==> State() == OnDeleteLabel(old(State())).next
      ensures raised ==> State() == old(State())
      ensures old(Consistent(State())) ==> !raised && Consistent(State())
      ensures old(SnapshotHeld()) ==> SnapshotHeld()
    {
      ghost var e := State();
      var p := param.itFrames;
      raised := false;
      if labels[p] == Inner && !waitingEnd {
        var b := FindLastBefore(labels, p, Start);
        if b.None? {
          raised := true;
        } else {
          var n := FindFirstFrom(labels, p, End);
          if n.None? {
            raised := true;
          } else {
            forall i | b.value <= i < n.value + 1 {
              labels[i] := Unlabeled;
            }
          }
        }
      }
      if Consistent(e) {
        DeleteKeepsConsistent(e);
      }
      assert original != labels ==> original[..] == old(original[..]);
    }

    /**
     * The save_labels key as written: on success the snapshot becomes the
     * label array itself (original_labels = labels), not a copy of it.
     */
    method Save() returns (r: SaveResult)
      requires Valid()
      modifies this`original, this`saved
      ensures Valid()
      ensures r == SaveGate(labels[..], waitingEnd)
      ensures r == Saved ==> original == labels && saved == labels[..]
      ensures r == Saved ==> State() == old(State()).(snapshot := SameArray)
      ensures r != Saved ==> original == old(original) && saved == old(saved)
    {
      r := NotSaved;
      if !waitingEnd {
        var ends := CountOf(labels, End);
        if ends == 0 {
          r := RaisesKeyError;
        } else {
          var starts := CountOf(labels, Start);
          if starts == 0 {
            r := RaisesKeyError;
          } else if ends == starts {
            saved := labels[..];
            original := labels;
            r := Saved;
          }
        }
      }
    }

    /**
     * The save_labels key as evidently intended: absent codes count as zero
     * and the snapshot is a fresh copy, so later edits stay visible.
     */
    method SaveSnapshot() returns (r: SaveResult)
      requires Valid()
      modifies this`original, this`saved
      ensures Valid()
      ensures r == SaveGateFixed(labels[..], waitingEnd)
      ensures r == Saved ==> fresh(original) && SnapshotHeld() && saved == labels[..]
      ensures r == Saved ==> State() == old(State()).(snapshot := Copy(labels[..]))
      ensures r != Saved ==> original == old(original) && saved == old(saved)
    {
      r := NotSaved;
      if !waitingEnd {
        var ends := CountOf(labels, End);
        var starts := CountOf(labels, Start);
        if ends == starts {
          saved := labels[..];
          original := CopyOf(labels);
          r := Saved;
        }
      }
    }

    /**
     * The next_sequence key: advance only when the labels equal the
     * snapshot element-wise. While the snapshot is an array of its own this
     * means no edit since the last save is lost; once it is the label array
     * itself, advancing is always allowed.
     */
    method NextSequence() returns (advance: bool)
      requires Valid()
      ensures advance <==> labels[..] == original[..]
      ensures advance <==> MatchesSnapshot(State())
      ensures original == labels ==> advance
      ensures SnapshotHeld() ==> (advance <==> labels[..] == saved)
    {
      advance := true;
      var i := 0;
      while i < labels.Length
        invariant 0 <= i <= labels.Length
        invariant advance <==> forall j :: 0 <= j < i ==> labels[j] == original[j]
      {
        if labels[i] != original[i] {
          advance := false;
        }
        i := i + 1;
      }
      assert advance <==> labels[..] == original[..] by {
        if advance {
          assert forall j :: 0 <= j < labels.Length ==> labels[..][j] == original[..][j];
        }
      }
    }

    /**
     * One pass of the main loop: refresh the loaded count, then run the
     * handler of the key pressed (or of the wheel event).
     */
    method Tick(loaded: int, action: Action) returns (r: PassResult)
      requires Valid() && 1 <= loaded <= labels.Length
      modifies this`waitingEnd, this`currentBegin, this`original, this`saved, labels
      modifies param`itFrames, param`nLoadedFrames
      ensures Valid() && param.nLoadedFrames == loaded
      ensures var s := Apply(old(State()), action, loaded, param.bigStep);
        s.Going? || s.Leaves? ==> State() == s.next
      ensures var s := Apply(old(State()), action, loaded, param.bigStep);
        && (r == RaisedIndexError <==> s.IndexError?)
        && (r == RaisedKeyError <==> s.KeyError?)
        && (r == NextItem <==> s.Leaves?)
        && (r == Quit <==> s.Exits?)
        && (r == Warned <==> action == Action.NextSequence && s.Going?)
      ensures action == SaveLabels && SaveGate(old(labels[..]), old(waitingEnd)) == Saved ==>
        original == labels && saved == old(labels[..])
      ensures !(action == SaveLabels && SaveGate(old(labels[..]), old(waitingEnd)) == Saved) ==>
        original == old(original) && saved == old(saved)
    {
      ghost var e := State();
      ghost var s := Apply(e, action, loaded, param.bigStep);
      param.Refresh(loaded);
      assert State() == e;
      r := Continue;
      match action {
        case NoKey =>
        case NextFrames =>
          param.StepForward(param.bigStep);
        case NextFrame =>
          param.StepForward(1);
        case PreviousFrames =>
          param.StepBackward(param.bigStep);
        case PreviousFrame =>
          param.StepBackward(1);
        case Wheel(negative, shift) =>
          param.MouseWheel(negative, shift);
        case BeginLabel =>
          assert s == Handled(OnBeginLabel(e));
          var raised := BeginLabel();
          if raised {
            r := RaisedIndexError;
          }
        case EndLabel =>
          assert s == Handled(OnEndLabel(e));
          var raised := EndLabel();
          if raised {
            r := RaisedIndexError;
          }
        case DeleteLabel =>
          assert s == Handled(OnDeleteLabel(e));
          var raised := DeleteLabel();
          if raised {
            r := RaisedIndexError;
          }
        case SaveLabels =>
          var s := Save();
          if s == RaisesKeyError {
            r := RaisedKeyError;
          }
        case NextSequence =>
          var advance := NextSequence();
          r := if advance then NextItem else Warned;
        case Exit =>
          r := Quit;
      }
    }
  }

  /**
   * Saving as written and then editing: the next_sequence key still lets the
   * operator move on, although the labels differ from what was saved.
   */
  method AliasedSaveHidesEdits() returns (advanced: bool, savedLabels: seq<int>, current: seq<int>)
    ensures advanced && savedLabels != current
  {
    var param := new LabelingParameters(1);
    var session := new LabelingSession([Unlabeled, Start, End], param);
    assert session.labels[..] == [Unlabeled, Start, End];
    var saveResult := session.Save();
    assert saveResult == Saved;
    savedLabels := session.labels[..];
    var raised := session.BeginLabel();
    current := session.labels[..];
    assert current[0] == Pending;
    advanced := session.NextSequence();
  }

  /** The same steps with the fixed save: the next_sequence key is refused. */
  method SnapshotCatchesEdits() returns (advanced: bool, savedLabels: seq<int>, current: seq<int>)
    ensures !advanced && savedLabels != current
  {
    var param := new LabelingParameters(1);
    var session := new LabelingSession([Unlabeled, Start, End], param);
    assert session.labels[..] == [Unlabeled, Start, End];
    var saveResult := session.SaveSnapshot();
    assert saveResult == Saved;
    savedLabels := session.labels[..];
    var raised := session.BeginLabel();
    current := session.labels[..];
    assert current[0] == Pending;
    advanced := session.NextSequence();
  }
}
