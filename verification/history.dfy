/**
 * The Layout Editor's in-memory undo/redo log (`_calibHist` with
 * `beginUndo`, `commitUndo`, `doUndo`, `doRedo`). A gesture takes a
 * "before" snapshot when it starts and commits it when it ends, if the layout
 * changed; undo and redo swap the current snapshot with the top of a stack.
 */
module UndoLog {
  import opened Text
  import opened Json

  /**
   * The layout state a snapshot captures: the live position map, the two box
   * records (absent for `null`), the ports order and the snap pitch.
   * Snapshots compare by value, as their serialised text does.
   */
  datatype Snapshot = Snapshot(positions: Fields, portsBox: Option<JVal>, uplinkBox: Option<JVal>, portsOrder: string, snap: int)

  /** `MAX_HIST`: the most snapshots the undo stack keeps. */
  const MaxHistory: nat := 50

  /** The log: two stacks (top last) and the snapshot of an open gesture. */
  datatype Log = Log(undo: seq<Snapshot>, redo: seq<Snapshot>, pending: Option<Snapshot>)

  /** The stacks never hold more than `MaxHistory` snapshots between them. */
  predicate Bounded(l: Log)
  {
    |l.undo| + |l.redo| <= MaxHistory
  }

  /** `beginUndo`: opens a gesture with the current snapshot, unless one is already open. */
  function Begin(l: Log, now: Snapshot): (r: Log)
    ensures l.pending.Some? ==> r == l
    ensures l.pending.None? ==> r == l.(pending := Some(now))
  {
    if l.pending.Some? then l else l.(pending := Some(now))
  }

  /**
   * `commitUndo`: closes the open gesture. A changed layout pushes the
   * before-snapshot, dropping the oldest entry past the limit, and empties the
   * redo stack; an unchanged layout records nothing.
   */
  function Commit(l: Log, now: Snapshot): Log
  {
    match l.pending
    case None => l
    case Some(before) =>
      if before == now then l.(pending := None)
      else
        var pushed := l.undo + [before];
        Log(if |pushed| > MaxHistory then pushed[1..] else pushed, [], None)
  }

  /** `doUndo`: the snapshot to apply, if any, and the log after moving the current snapshot to redo. */
  function Undo(l: Log, now: Snapshot): (Log, Option<Snapshot>)
  {
    if l.undo == [] then (l, None)
    else (l.(undo := l.undo[..|l.undo| - 1], redo := l.redo + [now]), Some(l.undo[|l.undo| - 1]))
  }

  /** `doRedo`: the mirror image of `Undo`. */
  function Redo(l: Log, now: Snapshot): (Log, Option<Snapshot>)
  {
    if l.redo == [] then (l, None)
    else (l.(redo := l.redo[..|l.redo| - 1], undo := l.undo + [now]), Some(l.redo[|l.redo| - 1]))
  }

  /** Opening a gesture never replaces the snapshot of one already open. */
  lemma BeginKeepsPending(l: Log, now: Snapshot)
    requires l.pending.Some?
    ensures Begin(l, now).pending == l.pending
  {
  }

  /**
   * Committing records the before-snapshot exactly when the layout changed,
   * then the before-snapshot is the top of the undo stack, the stack is
   * capped, and redo is empty; otherwise both stacks are left as they were.
   */
  lemma CommitRecordsChange(l: Log, now: Snapshot)
    requires |l.undo| <= MaxHistory
    ensures var r := Commit(l, now);
      r.pending.None?
      && (l.pending.Some? && l.pending.value != now ==>
            |r.undo| > 0 && r.undo[|r.undo| - 1] == l.pending.value && r.redo == []
            && |r.undo| == (if |l.undo| < MaxHistory then |l.undo| + 1 else MaxHistory)
            && r.undo[..|r.undo| - 1] == (if |l.undo| < MaxHistory then l.undo else l.undo[1..]))
      && (l.pending.None? || l.pending.value == now ==> r.undo == l.undo && r.redo == l.redo)
  {
    if l.pending.Some? && l.pending.value != now {
      var pushed := l.undo + [l.pending.value];
      if |pushed| > MaxHistory {
        assert pushed[1..][..|pushed| - 2] == l.undo[1..];
      } else {
        assert pushed[..|pushed| - 1] == l.undo;
      }
    }
  }

  /** Undo and redo on an empty stack change nothing and apply nothing. */
  lemma EmptyStacksAreNoOps(l: Log, now: Snapshot)
    ensures l.undo == [] ==> Undo(l, now) == (l, None)
    ensures l.redo == [] ==> Redo(l, now) == (l, None)
  {
  }

  /**
   * Undo followed by redo (applied to the restored snapshot) brings back the
   * snapshot that was current before the undo and the log as it was.
   */
  lemma UndoThenRedo(l: Log, now: Snapshot)
    requires l.undo != []
    ensures var (l1, prev) := Undo(l, now);
      prev == Some(l.undo[|l.undo| - 1]) && Redo(l1, prev.value) == (l, Some(now))
  {
    var (l1, prev) := Undo(l, now);
    assert l1.undo + [prev.value] == l.undo;
  }

  /** Redo followed by undo likewise restores both the snapshot and the log. */
  lemma RedoThenUndo(l: Log, now: Snapshot)
    requires l.redo != []
    ensures var (l1, next) := Redo(l, now);
      next == Some(l.redo[|l.redo| - 1]) && Undo(l1, next.value) == (l, Some(now))
  {
    var (l1, next) := Redo(l, now);
    assert l1.redo + [next.value] == l.redo;
  }

  /** Every step keeps the two stacks within the limit, so undo never holds more than 50 snapshots. */
  lemma StepsStayBounded(l: Log, now: Snapshot)
    requires Bounded(l)
    ensures Bounded(Begin(l, now)) && Bounded(Commit(l, now))
    ensures Bounded(Undo(l, now).0) && Bounded(Redo(l, now).0)
    ensures |Commit(l, now).undo| <= MaxHistory
  {
  }

  /** The log as the editor keeps it, updated in place. */
  class History {
    var undo: seq<Snapshot>
    var redo: seq<Snapshot>
    var pending: Option<Snapshot>

    function State(): Log
      reads this
    {
      Log(undo, redo, pending)
    }

    constructor ()
      ensures State() == Log([], [], None)
    {
      undo, redo, pending := [], [], None;
    }

    method BeginUndo(now: Snapshot)
      modifies this
      ensures State() == Begin(old(State()), now)
    {
      if pending.None? {
        pending := Some(now);
      }
    }

    method CommitUndo(now: Snapshot)
      modifies this
      ensures State() == Commit(old(State()), now)
    {
      if pending.None? {
        return;
      }
      var before := pending.value;
      pending := None;
      if before == now {
        return;
      }
      undo := undo + [before];
      if |undo| > MaxHistory {
        undo := undo[1..];
      }
      redo := [];
    }

    method DoUndo(now: Snapshot) returns (prev: Option<Snapshot>)
      modifies this
      ensures (State(), prev) == Undo(old(State()), now)
    {
      if undo == [] {
        return None;
      }
      prev := Some(undo[|undo| - 1]);
      undo := undo[..|undo| - 1];
      redo := redo + [now];
    }

    method DoRedo(now: Snapshot) returns (next: Option<Snapshot>)
      modifies this
      ensures (State(), next) == Redo(old(State()), now)
    {
      if redo == [] {
        return None;
      }
      next := Some(redo[|redo| - 1]);
      redo := redo[..|redo| - 1];
      undo := undo + [now];
    }
  }
}
