/** The main loop of the daemon of alsactl as a state machine. A signal may arrive between any two
    accesses to the flags that it shares with the loop. */
module DaemonLoop {

  /** The next thing the loop does. */
  datatype Pc =
    | TestQuit    // first half of the loop condition
    | TestSave    // second half, if `quit` was set
    | IfSave      // "if (save_now) goto save"
    | IfRescan
    | ClearRescan // the cards have been added
    | Poll
    | Cards       // going through the cards with events
    | CheckTime   // the timed half of the condition for saving
    | CheckSave   // the other half
    | ClearSave   // "save_now = 0"
    | BeginSave   // the call of save_state
    | Left        // left by the loop condition
    | Failed      // left on an error

  /** `rearmed` tells that SIGUSR2 has the handler of a plain quit. */
  datatype State = State(pc: Pc, quit: bool, rescan: bool, saveNow: bool, changed: bool,
                         lastWrite: int, now: int, rearmed: bool)

  /** Signals, and steps of the loop with what the system calls return. */
  datatype Action =
    | Term | Usr1 | Usr2
    | Go
    | Interrupted | Woken(time: int) | PollError
    | CardChanged | CardsDone | CardError

  function Start(time: int): State {
    State(TestQuit, false, true, false, false, time, time, false)
  }

  function Signal(s: State, a: Action): State
    requires a in {Term, Usr1, Usr2}
  {
    match a
    case Term => s.(quit := true)
    case Usr1 => s.(rescan := true)
    case _ => if s.rearmed then s.(quit := true) else s.(quit := true, saveNow := true, rearmed := true)
  }

  /** A step of the loop that needs nothing from outside. */
  function Main(s: State, period: int): State
  {
    match s.pc
    case TestQuit => s.(pc := if s.quit then TestSave else IfSave)
    case TestSave => s.(pc := if s.saveNow then IfSave else Left)
    case IfSave => s.(pc := if s.saveNow then ClearSave else IfRescan)
    case IfRescan => s.(pc := if s.rescan then ClearRescan else Poll)
    case ClearRescan => s.(pc := Poll, rescan := false)
    case CheckTime => s.(pc := if s.now - s.lastWrite >= period && s.changed then ClearSave else CheckSave)
    case CheckSave => s.(pc := if s.saveNow then ClearSave else TestQuit)
    case ClearSave => s.(pc := BeginSave, saveNow := false)
    case BeginSave => s.(pc := TestQuit, changed := false)
    case _ => s
  }

  /** Any action in any state; what does not apply changes nothing. */
  function Step(s: State, a: Action, period: int): State
  {
    match a
    case Go => Main(s, period)
    case Interrupted => if s.pc == Poll then s.(pc := TestQuit) else s
    case Woken(time) => if s.pc == Poll then s.(pc := Cards, now := time) else s
    case PollError => if s.pc == Poll then s.(pc := Failed) else s
    case CardChanged =>
      if s.pc == Cards then s.(lastWrite := if s.changed then s.lastWrite else s.now, changed := true) else s
    case CardsDone => if s.pc == Cards then s.(pc := CheckTime) else s
    case CardError => if s.pc == Cards then s.(pc := Failed) else s
    case _ => Signal(s, a)
  }

  /** A run, from the time at which the daemon is started. */
  datatype Run = Run(start: int, period: int, actions: seq<Action>)

  function Len(r: Run): nat { |r.actions| }

  /** The state in front of action `k`. */
  function At(r: Run, k: nat): State
    requires k <= Len(r)
  {
    if k == 0 then Start(r.start) else Step(At(r, k - 1), r.actions[k - 1], r.period)
  }

  function End(r: Run): State { At(r, Len(r)) }

  /** Action `k` begins a save. */
  ghost predicate SavesAt(r: Run, k: nat) {
    k < Len(r) && r.actions[k] == Go && At(r, k).pc == BeginSave
  }

  ghost predicate SavedBetween(r: Run, i: nat, j: nat) {
    exists k :: i <= k < j && SavesAt(r, k)
  }

  // ----- every request is followed by a save, or not -----

  /** A save is due or about to begin. */
  predicate WillSave(s: State) {
    s.saveNow || s.pc == BeginSave
  }

  /** Once SIGUSR2 has been handled, the loop only goes on as long as the save is due. */
  predicate Inv(s: State) {
    && (s.rearmed ==> s.quit)
    && (s.rearmed && !s.saveNow ==> s.pc in {BeginSave, TestQuit, TestSave, Left})
  }

  lemma {:induction false} InvHolds(r: Run, k: nat)
    requires k <= Len(r)
    ensures Inv(At(r, k))
  {
    if k > 0 { InvHolds(r, k - 1); }
  }

  lemma StepKeepsWillSave(s: State, a: Action, period: int)
    requires WillSave(s) && s.pc != Left && !(a == Go && s.pc == BeginSave)
    ensures WillSave(Step(s, a, period)) && Step(s, a, period).pc != Left
  {
  }

  lemma {:induction false} DueIsDone(r: Run, k: nat)
    requires k <= Len(r) && WillSave(At(r, k)) && At(r, k).pc != Left && End(r).pc == Left
    ensures SavedBetween(r, k, Len(r))
    decreases Len(r) - k
  {
    if SavesAt(r, k) {
    } else if k < Len(r) {
      StepKeepsWillSave(At(r, k), r.actions[k], r.period);
      DueIsDone(r, k + 1);
      var j :| k + 1 <= j < Len(r) && SavesAt(r, j);
    }
  }

  lemma StepKeepsIdle(s: State, a: Action, period: int)
    requires Inv(s) && s.rearmed && !WillSave(s)
    ensures Step(s, a, period).rearmed && !WillSave(Step(s, a, period))
  {
  }

  lemma {:induction false} IdleStaysIdle(r: Run, k: nat, j: nat)
    requires k <= j <= Len(r) && At(r, k).rearmed && !WillSave(At(r, k))
    ensures At(r, j).rearmed && !WillSave(At(r, j))
  {
    if k < j {
      IdleStaysIdle(r, k, j - 1);
      InvHolds(r, j - 1);
      StepKeepsIdle(At(r, j - 1), r.actions[j - 1], r.period);
    }
  }

  /** SIGUSR2 arrives as action `t`, while the loop is running. */
  ghost predicate RequestAt(r: Run, t: nat) {
    t < Len(r) && r.actions[t] == Usr2 && At(r, t).pc !in {Left, Failed}
  }

  /** Main result: when the loop is left by its condition, a save has begun after a request if and
      only if one was due, or about to begin, right after the signal was handled. */
  lemma SavedAfterRequestIff(r: Run, t: nat)
    requires End(r).pc == Left && RequestAt(r, t)
    ensures SavedBetween(r, t + 1, Len(r)) <==> WillSave(At(r, t + 1))
  {
    var s := At(r, t + 1);
    assert s.rearmed && s.pc == At(r, t).pc;
    if WillSave(s) {
      DueIsDone(r, t + 1);
    } else if j :| t + 1 <= j < Len(r) && SavesAt(r, j) {
      IdleStaysIdle(r, t + 1, j);
    }
  }

  ghost predicate RequestedBefore(r: Run, k: nat)
    requires k <= Len(r)
  {
    exists t :: 0 <= t < k && r.actions[t] == Usr2
  }

  lemma {:induction false} FlagsByRequest(r: Run, k: nat)
    requires k <= Len(r)
    ensures At(r, k).rearmed || At(r, k).saveNow ==> RequestedBefore(r, k)
  {
    if k > 0 {
      FlagsByRequest(r, k - 1);
      assert r.actions[k - 1] == Usr2 ==> RequestedBefore(r, k);
    }
  }

  /** The first request is always followed by a save. */
  lemma FirstRequestIsSaved(r: Run, t: nat)
    requires End(r).pc == Left && RequestAt(r, t) && !RequestedBefore(r, t)
    ensures SavedBetween(r, t + 1, Len(r))
  {
    FlagsByRequest(r, t);
    SavedAfterRequestIff(r, t);
  }

  /** A later request need not be: it is lost if it arrives while the save is in progress. */
  lemma SecondRequestIsLost(start: int, period: int)
    ensures var r := Run(start, period, [Usr2, Go, Go, Go, Go, Go, Usr2, Go, Go]);
            End(r).pc == Left && RequestAt(r, 6) && !SavedBetween(r, 7, Len(r))
  {
    var r := Run(start, period, [Usr2, Go, Go, Go, Go, Go, Usr2, Go, Go]);
    var s := State(TestQuit, true, true, true, false, start, start, true);
    assert At(r, 0) == Start(start);
    assert At(r, 1) == s;
    assert At(r, 2) == s.(pc := TestSave);
    assert At(r, 3) == s.(pc := IfSave);
    assert At(r, 4) == s.(pc := ClearSave);
    assert At(r, 5) == s.(pc := BeginSave, saveNow := false);
    assert At(r, 6) == s.(saveNow := false);
    assert At(r, 7) == s.(saveNow := false);
    assert At(r, 8) == s.(pc := TestSave, saveNow := false);
    assert At(r, 9) == s.(pc := Left, saveNow := false);
    SavedAfterRequestIff(r, 6);
  }

  // ----- saves by time -----

  /** The cards report a change as action `i`. */
  ghost predicate ChangeAt(r: Run, i: nat) {
    i < Len(r) && r.actions[i] == CardChanged && At(r, i).pc == Cards
  }

  /** `i` is the oldest change not saved in front of action `k`. */
  ghost predicate OldestUnsaved(r: Run, i: nat, k: nat) {
    && i < k && ChangeAt(r, i) && !SavedBetween(r, i, k)
    && forall j :: 0 <= j < i && ChangeAt(r, j) ==> SavedBetween(r, j, i)
  }

  lemma SavedStep(r: Run, i: nat, k: nat)
    requires i <= k < Len(r)
    ensures SavedBetween(r, i, k + 1) <==> SavedBetween(r, i, k) || SavesAt(r, k)
  {
  }

  lemma SavedJoin(r: Run, i: nat, j: nat, k: nat)
    requires i <= j <= k
    ensures SavedBetween(r, i, k) <==> SavedBetween(r, i, j) || SavedBetween(r, j, k)
  {
  }

  lemma OldestStep(r: Run, i: nat, k: nat)
    requires i < k < Len(r)
    ensures OldestUnsaved(r, i, k + 1) <==> OldestUnsaved(r, i, k) && !SavesAt(r, k)
  {
    SavedStep(r, i, k);
  }

  /** If some change is not saved, there is an oldest one. */
  lemma {:induction false} SomeOldest(r: Run, i: nat, k: nat) returns (o: nat)
    requires i < k <= Len(r) && ChangeAt(r, i) && !SavedBetween(r, i, k)
    ensures OldestUnsaved(r, o, k) && o <= i
  {
    if j :| 0 <= j < i && ChangeAt(r, j) && !SavedBetween(r, j, i) {
      SavedJoin(r, j, i, k);
      o := SomeOldest(r, j, k);
    } else {
      o := i;
    }
  }

  lemma OldestNow(r: Run, k: nat)
    requires k < Len(r)
    ensures OldestUnsaved(r, k, k + 1) <==> ChangeAt(r, k) && forall i: nat :: !OldestUnsaved(r, i, k)
  {
    assert !SavedBetween(r, k, k + 1) <==> !SavesAt(r, k);
    forall i: nat | OldestUnsaved(r, i, k) ensures i < k && ChangeAt(r, i) && !SavedBetween(r, i, k) {
    }
    if j :| 0 <= j < k && ChangeAt(r, j) && !SavedBetween(r, j, k) {
      var o := SomeOldest(r, j, k);
    }
  }

  ghost predicate AnyUnsaved(r: Run, k: nat) {
    exists i: nat :: OldestUnsaved(r, i, k)
  }

  lemma UnsavedStep(r: Run, k: nat, k': nat)
    requires k < Len(r) && k' == k + 1
    ensures AnyUnsaved(r, k') <==> ChangeAt(r, k) || (AnyUnsaved(r, k) && !SavesAt(r, k))
  {
    if AnyUnsaved(r, k') {
      var i: nat :| OldestUnsaved(r, i, k');
      if i < k { OldestStep(r, i, k); }
    }
    if ChangeAt(r, k) {
      SavedStep(r, k, k);
      var o := SomeOldest(r, k, k');
    } else if AnyUnsaved(r, k) && !SavesAt(r, k) {
      var i: nat :| OldestUnsaved(r, i, k);
      OldestStep(r, i, k);
    }
  }

  lemma ChangeOfStep(s: State, a: Action, period: int)
    ensures var t, change := Step(s, a, period), a == CardChanged && s.pc == Cards;
      && t.changed == (change || (s.changed && !(a == Go && s.pc == BeginSave)))
      && t.lastWrite == if change && !s.changed then s.now else s.lastWrite
  {
  }

  lemma StepChanges(r: Run, k: nat)
    requires k < Len(r)
    ensures var s, t := At(r, k), At(r, k + 1);
      && t.changed == (ChangeAt(r, k) || (s.changed && !SavesAt(r, k)))
      && t.lastWrite == if ChangeAt(r, k) && !s.changed then s.now else s.lastWrite
  {
    ChangeOfStep(At(r, k), r.actions[k], r.period);
  }

  /** What `changed` and `last_write` mean. */
  lemma {:induction false} PendingChange(r: Run, k: nat)
    requires k <= Len(r)
    ensures At(r, k).changed <==> AnyUnsaved(r, k)
    ensures forall i: nat :: OldestUnsaved(r, i, k) ==> At(r, k).lastWrite == At(r, i).now
  {
    if k > 0 {
      var n := k - 1;
      PendingChange(r, n);
      UnsavedStep(r, n, k);
      StepChanges(r, n);
      forall i: nat | OldestUnsaved(r, i, k) ensures At(r, k).lastWrite == At(r, i).now {
        OldestWas(r, i, n, k);
      }
    }
  }

  lemma OldestWas(r: Run, i: nat, n: nat, k: nat)
    requires k == n + 1 <= Len(r) && OldestUnsaved(r, i, k)
    ensures if i < n then OldestUnsaved(r, i, n) else i == n && ChangeAt(r, n) && !AnyUnsaved(r, n)
  {
    if i < n { OldestStep(r, i, n); } else { OldestNow(r, n); }
  }

  /** The oldest unsaved change is at least a period old. */
  ghost predicate Due(r: Run, k: nat)
    requires k <= Len(r)
  {
    exists i: nat :: OldestUnsaved(r, i, k) && At(r, k).now - At(r, i).now >= r.period
  }

  /** The timed check goes on to save if and only if a save is due, however many changes came
      after the oldest one. */
  lemma TimedSaveIffDue(r: Run, k: nat)
    requires k < Len(r) && At(r, k).pc == CheckTime && r.actions[k] == Go
    ensures At(r, k + 1).pc == ClearSave <==> Due(r, k)
  {
    PendingChange(r, k);
  }

  /** The loop decides at step `k` to save: by time, or because of a request. */
  ghost predicate DecidesAt(r: Run, k: nat) {
    && k < Len(r) && r.actions[k] == Go
    && ((At(r, k).pc == CheckTime && Due(r, k)) || (At(r, k).pc in {IfSave, CheckSave} && At(r, k).saveNow))
  }

  /** The decision behind a state in which the save is being made. */
  ghost predicate DecidedBefore(r: Run, k: nat) {
    exists d :: 0 <= d < k && DecidesAt(r, d) && !SavedBetween(r, d, k)
  }

  lemma StepStarts(s: State, a: Action, period: int)
    requires s.pc !in {ClearSave, BeginSave} && Step(s, a, period).pc in {ClearSave, BeginSave}
    ensures a == Go && Step(s, a, period).pc == ClearSave
    ensures s.pc == CheckTime || (s.pc in {IfSave, CheckSave} && s.saveNow)
  {
  }

  lemma SaveStarts(r: Run, n: nat)
    requires n < Len(r) && At(r, n).pc !in {ClearSave, BeginSave} && At(r, n + 1).pc in {ClearSave, BeginSave}
    ensures DecidesAt(r, n) && !SavesAt(r, n)
  {
    StepStarts(At(r, n), r.actions[n], r.period);
    if At(r, n).pc == CheckTime { TimedSaveIffDue(r, n); }
  }

  lemma {:induction false} SavingHasReason(r: Run, k: nat)
    requires k <= Len(r) && At(r, k).pc in {ClearSave, BeginSave}
    ensures DecidedBefore(r, k)
  {
    var n := k - 1;
    if At(r, n).pc in {ClearSave, BeginSave} {
      SavingHasReason(r, n);
      var d :| 0 <= d < n && DecidesAt(r, d) && !SavedBetween(r, d, n);
      SavedStep(r, d, n);
    } else {
      SaveStarts(r, n);
      SavedStep(r, n, n);
    }
  }

  /** Every save without a request in front of it was decided on because a change that was not yet
      saved had become a period old. */
  lemma PeriodicSaveIsDue(r: Run, k: nat)
    requires SavesAt(r, k) && !RequestedBefore(r, k)
    ensures exists d :: 0 <= d < k && Due(r, d) && !SavedBetween(r, d, k)
  {
    SavingHasReason(r, k);
    var d :| 0 <= d < k && DecidesAt(r, d) && !SavedBetween(r, d, k);
    FlagsByRequest(r, d);
    assert !RequestedBefore(r, d);
  }

  // ----- adding cards -----

  /** Action `k` goes on from the test of the rescan flag. */
  ghost predicate TestsRescan(r: Run, k: nat) {
    k < Len(r) && r.actions[k] == Go && At(r, k).pc == IfRescan
  }

  /** Action `k` adds the cards. */
  ghost predicate AddsAt(r: Run, k: nat) {
    TestsRescan(r, k) && At(r, k + 1).pc == ClearRescan
  }

  ghost predicate AddedBefore(r: Run, k: nat) {
    exists i :: 0 <= i < k && AddsAt(r, i)
  }

  lemma BeforeAdding(s: State, a: Action, period: int)
    requires s.rescan && s.pc in {TestQuit, TestSave, IfSave, IfRescan, ClearSave, BeginSave, Left}
    ensures var t := Step(s, a, period);
      if a == Go && s.pc == IfRescan then t.pc == ClearRescan
      else t.rescan && t.pc in {TestQuit, TestSave, IfSave, IfRescan, ClearSave, BeginSave, Left}
  {
  }

  lemma {:induction false} NothingAdded(r: Run, k: nat)
    requires k <= Len(r) && !AddedBefore(r, k)
    ensures At(r, k).rescan && At(r, k).pc in {TestQuit, TestSave, IfSave, IfRescan, ClearSave, BeginSave, Left}
  {
    if k > 0 {
      var n := k - 1;
      NothingAdded(r, n);
      BeforeAdding(At(r, n), r.actions[n], r.period);
      assert !AddsAt(r, n);
    }
  }

  /** The loop only waits for events, or handles them, when the cards have been added. */
  lemma CardsBeforePoll(r: Run, k: nat)
    requires k <= Len(r) && At(r, k).pc in {Poll, Cards, CheckTime, Failed}
    ensures AddedBefore(r, k)
  {
    if !AddedBefore(r, k) { NothingAdded(r, k); }
  }

  /** `j` is the first test of the rescan flag behind the SIGUSR1 of action `t`, and no other one arrives
      in between. */
  ghost predicate NextTest(r: Run, t: nat, j: nat) {
    && t < j < Len(r) && r.actions[t] == Usr1 && TestsRescan(r, j)
    && forall k :: t < k < j ==> !TestsRescan(r, k) && r.actions[k] != Usr1
  }

  /** What a step that is neither the test nor SIGUSR1 does to the flag. */
  lemma RescanOfStep(s: State, a: Action, period: int)
    requires a != Usr1 && !(a == Go && s.pc == IfRescan)
    ensures var t := Step(s, a, period);
      && t.rescan == (s.rescan && !(a == Go && s.pc == ClearRescan))
      && (t.pc == ClearRescan <==> s.pc == ClearRescan && a != Go)
  {
  }

  /** The flag behind a request that arrived when it was about to be cleared, or earlier. */
  predicate Flagged(late: bool, s: State) {
    if late then s.rescan <==> s.pc == ClearRescan else s.rescan && s.pc != ClearRescan
  }

  lemma FlaggedFirst(s: State, period: int)
    ensures Flagged(s.pc == ClearRescan, Step(s, Usr1, period))
  {
  }

  lemma FlaggedNext(late: bool, s: State, a: Action, period: int)
    requires Flagged(late, s) && a != Usr1 && !(a == Go && s.pc == IfRescan)
    ensures Flagged(late, Step(s, a, period))
  {
    RescanOfStep(s, a, period);
  }

  lemma {:induction false} RescanBetween(r: Run, t: nat, j: nat, k: nat)
    requires NextTest(r, t, j) && t < k <= j
    ensures Flagged(At(r, t).pc == ClearRescan, At(r, k))
  {
    var n := k - 1;
    if n > t {
      RescanBetween(r, t, j, n);
      assert !TestsRescan(r, n) && r.actions[n] != Usr1;
      FlaggedNext(At(r, t).pc == ClearRescan, At(r, n), r.actions[n], r.period);
    } else {
      FlaggedFirst(At(r, t), r.period);
    }
  }

  /** A request to look for cards makes the loop add them at its next test, if and only if it did not
      arrive just when they had been added and the flag was about to be cleared. */
  lemma RescanAfterRequestIff(r: Run, t: nat, j: nat)
    requires NextTest(r, t, j)
    ensures AddsAt(r, j) <==> At(r, t).pc != ClearRescan
  {
    RescanBetween(r, t, j, j);
    assert At(r, j).pc == IfRescan;
  }
}
