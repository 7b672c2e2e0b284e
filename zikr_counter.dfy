/** The tap counter of src/components/dashboard/zikr-counter.tsx.

    A session counts taps towards a target. Every accepted tap is reported
    to the page at once (`onDailyCountUpdate`); taps are reported to the
    shared totals in batches (`onBatchCommit(n)`): when 25 uncommitted taps
    have built up, and when the count reaches the target, whichever comes
    first. A tap arriving less than 100 ms after the last accepted one is
    ignored.

    The pure functions below give the meaning of one tap (`Tap`), of a run
    of taps (`Run`) and of the target dialog (`SetTarget`); the class
    `Counter` holds the component's state and performs the handlers step by
    step, each proved to agree with those functions. */
module ZikrCounter {
  import opened Wrappers
  import JsParseInt

  /** `BATCH_SIZE`. */
  const BatchSize: int := 25
  /** The cool-down of the debounce flag, in milliseconds. */
  const DebounceMillis: int := 100
  /** The initial `target` state. */
  const InitialTarget: int := 100

  /** `count`, `uncommittedCount` and `target`. */
  datatype Session = Session(count: int, uncommitted: int, target: int)

  /** The states the handlers can reach: the uncommitted taps are fewer
      than a batch and never more than the count, the target is positive,
      and nothing is left uncommitted once the target is reached. */
  predicate ValidSession(s: Session) {
    && 0 <= s.uncommitted < BatchSize
    && s.uncommitted <= s.count
    && s.target > 0
    && (s.count >= s.target ==> s.uncommitted == 0)
  }

  function Fresh(target: int): Session {
    Session(0, 0, target)
  }

  function Sum(xs: seq<int>): int {
    if xs == [] then 0 else Sum(xs[..|xs| - 1]) + xs[|xs| - 1]
  }

  lemma SumAppend(xs: seq<int>, ys: seq<int>)
    ensures Sum(xs + ys) == Sum(xs) + Sum(ys)
  {
    if ys != [] {
      assert (xs + ys)[..|xs + ys| - 1] == xs + ys[..|ys| - 1];
      SumAppend(xs, ys[..|ys| - 1]);
    } else {
      assert xs + ys == xs;
    }
  }

  /** The sum of `log` from position `start` on. */
  function SumFrom(log: seq<int>, start: nat): int
    decreases |log| - start
  {
    if start >= |log| then 0 else log[start] + SumFrom(log, start + 1)
  }

  /** Appending an amount to a log adds it to the sum of any suffix. */
  lemma {:induction false} SumFromAppend(log: seq<int>, start: nat, x: int)
    requires start <= |log|
    ensures SumFrom(log + [x], start) == SumFrom(log, start) + x
    decreases |log| - start
  {
    if start < |log| {
      SumFromAppend(log, start + 1, x);
      assert (log + [x])[start] == log[start];
    }
  }

  /** Summing from a position is summing the suffix that starts there. */
  lemma {:induction false} SumFromIsSum(log: seq<int>, start: nat)
    requires start <= |log|
    ensures SumFrom(log, start) == Sum(log[start..])
    decreases |log| - start
  {
    if start < |log| {
      SumFromIsSum(log, start + 1);
      assert log[start..] == [log[start]] + log[start + 1..];
      SumAppend([log[start]], log[start + 1..]);
      assert Sum([log[start]]) == Sum([]) + log[start];
    } else {
      assert log[start..] == [];
    }
  }

  /** What one accepted tap does: the new state, the commit amounts it
      reports, and whether it reaches the target. */
  datatype TapResult = TapResult(next: Session, commits: seq<int>, targetReached: bool)

  /** `handleIncrement` past the debounce guard. The batch check comes
      first and the target check second, so a tap that completes a batch
      and reaches the target reports the batch alone; a tap that only
      reaches the target reports what is uncommitted, if anything. The
      count is not reset when the target is reached: later taps keep
      counting and each reports itself as a commit of 1. */
  function Tap(s: Session): (r: TapResult)
    ensures r.next.count == s.count + 1 && r.next.target == s.target
    ensures r.targetReached <==> s.count + 1 >= s.target
    ensures r.targetReached ==> r.next.uncommitted == 0
  {
    var count := s.count + 1;
    var pending := s.uncommitted + 1;
    var reached := count >= s.target;
    if pending >= BatchSize then
      TapResult(Session(count, 0, s.target), [pending], reached)
    else if reached then
      TapResult(Session(count, 0, s.target), if pending > 0 then [pending] else [], true)
    else
      TapResult(Session(count, pending, s.target), [], false)
  }

  /** One tap conserves taps: what it commits plus what it leaves
      uncommitted is what was uncommitted plus the tap. From a reachable
      state it reaches one, and it commits at most once, between 1 and a
      batch: a full batch when the uncommitted taps reach 25, the rest
      when the target is reached, nothing otherwise. */
  lemma TapCommits(s: Session)
    ensures ValidSession(s) ==>
      var r := Tap(s);
      && Sum(r.commits) + r.next.uncommitted == s.uncommitted + 1
      && ValidSession(r.next)
      && |r.commits| <= 1
      && (forall c | c in r.commits :: 1 <= c <= BatchSize)
      && (r.commits == [BatchSize] <==> s.uncommitted + 1 == BatchSize)
      && (r.commits == [] <==> s.uncommitted + 1 < BatchSize && !r.targetReached)
  {
  }

  /** `n` accepted taps in a row: the final state and every commit amount
      reported, in order. */
  function Run(s: Session, n: nat): (Session, seq<int>) {
    if n == 0 then (s, [])
    else
      var (t, commits) := Run(s, n - 1);
      var r := Tap(t);
      (r.next, commits + r.commits)
  }

  /** Conservation over any run: what has been committed plus what is
      still uncommitted is what was uncommitted before plus the taps, and
      every commit is between 1 and a batch. */
  lemma {:induction false} RunConserves(s: Session, n: nat)
    requires ValidSession(s)
    ensures var (t, commits) := Run(s, n);
      && ValidSession(t)
      && t.count == s.count + n && t.target == s.target
      && Sum(commits) + t.uncommitted == s.uncommitted + n
      && forall c | c in commits :: 1 <= c <= BatchSize
  {
    if n > 0 {
      RunConserves(s, n - 1);
      var (t, commits) := Run(s, n - 1);
      TapCommits(t);
      SumAppend(commits, Tap(t).commits);
    }
  }

  /** `k` full batches. */
  function FullBatches(k: nat): (r: seq<int>)
    ensures |r| == k && forall c | c in r :: c == BatchSize
  {
    if k == 0 then [] else FullBatches(k - 1) + [BatchSize]
  }

  /** From a fresh session, the taps before the target commit full batches
      only: after `n` of them, `n / 25` batches of 25 have been reported
      and `n % 25` taps are uncommitted. */
  lemma {:induction false} RunBelowTarget(target: int, n: nat)
    requires target > 0 && n < target
    ensures Run(Fresh(target), n) == (Session(n, n % BatchSize, target), FullBatches(n / BatchSize))
  {
    if n > 0 {
      RunBelowTarget(target, n - 1);
      DivideByBatch(n - 1);
      if (n - 1) % BatchSize != BatchSize - 1 {
        assert FullBatches((n - 1) / BatchSize) + [] == FullBatches((n - 1) / BatchSize);
      }
    }
  }

  /** From a fresh session, the tap that reaches the target flushes the
      remainder: the commits are `target / 25` full batches followed by
      the remainder when it is not zero, and nothing is left uncommitted.
      Target 30 commits 25 and then 5; target 100 commits four batches of
      25, the last tap's batch leaving nothing to flush. */
  lemma RunToTarget(target: int)
    requires target > 0
    ensures var (t, commits) := Run(Fresh(target), target);
      && t == Session(target, 0, target)
      && commits == FullBatches(target / BatchSize)
                    + (if target % BatchSize == 0 then [] else [target % BatchSize])
  {
    var m := target - 1;
    var q, rem := m / BatchSize, m % BatchSize;
    var last := Tap(Session(m, rem, target));
    LastTapOfRun(target);
    DivideByBatch(m);
    if rem == BatchSize - 1 {
      assert last.commits == [BatchSize];
      assert FullBatches(q + 1) + [] == FullBatches(q) + [BatchSize];
    } else {
      assert last.commits == [rem + 1];
    }
  }

  /** Once the target is reached from a fresh session, everything counted
      has been committed: the commits add up to the target. */
  lemma RunToTargetCommitsAll(target: int)
    requires target > 0
    ensures var (t, commits) := Run(Fresh(target), target);
      Sum(commits) == target == t.count && t.uncommitted == 0
  {
    RunToTarget(target);
    RunConserves(Fresh(target), target);
  }

  /** Target 30 commits 25, then flushes 5 at the target. The target is a
      parameter pinned by the precondition rather than a literal, so that
      the verifier does not unfold `Run` tap by tap on a constant argument;
      the proof goes through `RunToTarget` instead. */
  lemma TargetThirty(target: int)
    requires target == 30
    ensures Run(Fresh(target), target).1 == [25, 5]
  {
    RunToTarget(target);
    assert FullBatches(1) == [25];
  }

  /** Target 100 commits four batches of 25; the last tap's batch leaves
      nothing to flush. The target is pinned by the precondition for the
      same reason as in `TargetThirty`. */
  lemma TargetHundred(target: int)
    requires target == 100
    ensures Run(Fresh(target), target).1 == [25, 25, 25, 25]
  {
    RunToTarget(target);
    assert FullBatches(2) == [25, 25];
    assert FullBatches(4) == FullBatches(2) + [25, 25];
  }

  /** How `m + 1` splits into batches, given how `m` does. */
  lemma DivideByBatch(m: nat)
    ensures var q, rem := m / BatchSize, m % BatchSize;
      if rem == BatchSize - 1 then (m + 1) % BatchSize == 0 && (m + 1) / BatchSize == q + 1
      else (m + 1) % BatchSize == rem + 1 && (m + 1) / BatchSize == q
  {
  }

  lemma LastTapOfRun(target: int)
    requires target > 0
    ensures var m := target - 1;
      var last := Tap(Session(m, m % BatchSize, target));
      Run(Fresh(target), target) == (last.next, FullBatches(m / BatchSize) + last.commits)
  {
    RunBelowTarget(target, target - 1);
  }

  /** The target a text sets: `parseInt(text, 10)` when it is a number
      greater than 0. */
  function ParseTarget(text: string): (r: Option<int>)
    ensures r.Some? <==> JsParseInt.ParseInt(text).Some? && JsParseInt.ParseInt(text).value > 0
    ensures r.Some? ==> r.value == JsParseInt.ParseInt(text).value && r.value > 0
  {
    match JsParseInt.ParseInt(text)
    case Some(v) => if v > 0 then Some(v) else None
    case None => None
  }

  /** `handleSetTarget` on the session: a valid target restarts the count
      from zero and drops the uncommitted taps without reporting them; any
      other text leaves the session as it was. */
  function SetTarget(s: Session, text: string): (r: Session)
    ensures ParseTarget(text).Some? ==> r == Fresh(ParseTarget(text).value)
    ensures ParseTarget(text).None? ==> r == s
    ensures ValidSession(s) ==> ValidSession(r)
  {
    match ParseTarget(text)
    case Some(t) => Fresh(t)
    case None => s
  }

  /** A target typed in decimal, possibly after spaces and before other
      text, is taken when positive; a negative number is refused. */
  lemma SetTargetFromText(s: Session, ws: string, n: nat, tail: string)
    requires forall i | 0 <= i < |ws| :: JsParseInt.IsJsSpace(ws[i])
    requires tail == [] || !JsParseInt.IsDigit(tail[0])
    ensures SetTarget(s, ws + JsParseInt.Decimal(n) + tail) == if n > 0 then Fresh(n) else s
    ensures SetTarget(s, ws + "-" + JsParseInt.Decimal(n) + tail) == s
  {
    JsParseInt.ParseIntReadsDecimal(ws, false, n, tail);
    assert ws + "" + JsParseInt.Decimal(n) + tail == ws + JsParseInt.Decimal(n) + tail;
    SetTargetOfNumber(s, ws + JsParseInt.Decimal(n) + tail, n);
    JsParseInt.ParseIntReadsDecimal(ws, true, n, tail);
    SetTargetOfNumber(s, ws + "-" + JsParseInt.Decimal(n) + tail, -(n as int));
  }

  /** Text that parses to a number sets the target exactly when the number
      is positive. */
  lemma SetTargetOfNumber(s: Session, text: string, v: int)
    requires JsParseInt.ParseInt(text) == Some(v)
    ensures SetTarget(s, text) == if v > 0 then Fresh(v) else s
  {
  }

  /** A commit log in step with a session that began at position
      `start` of it: the amounts logged since then plus what is
      uncommitted make the count (`SumFromIsSum` relates that sum to
      `Sum`), and every logged amount is a commit of 1 to 25. */
  predicate LogMatches(log: seq<int>, start: nat, s: Session) {
    && start <= |log|
    && SumFrom(log, start) + s.uncommitted == s.count
    && forall i | 0 <= i < |log| :: 1 <= log[i] <= BatchSize
  }

  /** A tap keeps a log in step: once the tap's commits are logged, the
      log matches the session the tap leads to. */
  lemma TapKeepsLog(log: seq<int>, start: nat, s: Session)
    requires ValidSession(s) && LogMatches(log, start, s)
    ensures ValidSession(Tap(s).next)
    ensures LogMatches(log + Tap(s).commits, start, Tap(s).next)
  {
    var r := Tap(s);
    TapCommits(s);
    var log' := log + r.commits;
    if r.commits == [] {
      assert log' == log;
    } else {
      assert r.commits == [r.commits[0]];
      SumFromAppend(log, start, r.commits[0]);
    }
    forall i | 0 <= i < |log'| ensures 1 <= log'[i] <= BatchSize {
      if i >= |log| {
        assert log'[i] in r.commits;
      }
    }
  }

  /** Whether the debounce flag is clear at `now`: no tap was accepted yet,
      or the last one was at least 100 ms ago. */
  predicate Accepts(lastAccepted: Option<int>, now: int) {
    lastAccepted.None? || now - lastAccepted.value >= DebounceMillis
  }

  /** The mounted counter component. The parent's two callbacks are
      recorded: `dailyUpdates` counts the calls of `onDailyCountUpdate` and
      `commits` lists the amounts passed to `onBatchCommit`, in order.
      Within one tap the daily update comes before the commit. */
  class Counter {
    var count: int
    var uncommittedCount: int
    var target: int
    /** The text of the target field. */
    var newTarget: string
    var isTargetDialogOpen: bool
    var isCongratsDialogOpen: bool
    /** When the debounce flag was last set; it clears 100 ms later. */
    var lastAccepted: Option<int>
    var dailyUpdates: nat
    var commits: seq<int>
    /** The position in `commits` where the current session began: the
        count last restarted from 0 when the log was this long. */
    ghost var sessionStart: nat

    function State(): Session
      reads this
    {
      Session(count, uncommittedCount, target)
    }

    /** The session is reachable, and the amounts reported to
        `onBatchCommit` since the count last restarted, plus the taps not
        yet committed, make the count. */
    ghost predicate Valid()
      reads this
    {
      && ValidSession(State())
      && LogMatches(commits, sessionStart, State())
    }

    constructor ()
      ensures Valid()
      ensures State() == Fresh(InitialTarget) && newTarget == "100"
      ensures !isTargetDialogOpen && !isCongratsDialogOpen
      ensures lastAccepted == None && dailyUpdates == 0 && commits == []
    {
      count, uncommittedCount, target := 0, 0, InitialTarget;
      newTarget := "100";
      isTargetDialogOpen, isCongratsDialogOpen := false, false;
      lastAccepted := None;
      dailyUpdates, commits := 0, [];
      sessionStart := 0;
    }

    /** `handleIncrement` at time `now`. While the debounce flag is set
        nothing changes; otherwise the tap is reported once, the state
        moves as `Tap` says, its commits are reported, and reaching the
        target opens the congratulations dialog. */
    method HandleIncrement(now: int)
      requires Valid()
      modifies this`count, this`uncommittedCount, this`dailyUpdates, this`commits
      modifies this`lastAccepted, this`isCongratsDialogOpen
      ensures Valid()
      ensures newTarget == old(newTarget) && isTargetDialogOpen == old(isTargetDialogOpen)
      ensures !Accepts(old(lastAccepted), now) ==>
        && State() == old(State())
        && dailyUpdates == old(dailyUpdates) && commits == old(commits)
        && lastAccepted == old(lastAccepted)
        && isCongratsDialogOpen == old(isCongratsDialogOpen)
      ensures Accepts(old(lastAccepted), now) ==>
        var r := Tap(old(State()));
        && State() == r.next
        && dailyUpdates == old(dailyUpdates) + 1
        && commits == old(commits) + r.commits
        && lastAccepted == Some(now)
        && isCongratsDialogOpen == (old(isCongratsDialogOpen) || r.targetReached)
    {
      if lastAccepted.Some? && now - lastAccepted.value < DebounceMillis {
        return;
      }
      lastAccepted := Some(now);
      ghost var before := State();
      ghost var logBefore := commits;

      var newCount := count + 1;
      var newUncommittedCount := uncommittedCount + 1;
      count := newCount;
      dailyUpdates := dailyUpdates + 1;

      if newUncommittedCount >= BatchSize {
        commits := commits + [newUncommittedCount];
        newUncommittedCount := 0;
      }
      uncommittedCount := newUncommittedCount;

      if newCount >= target {
        if newUncommittedCount > 0 {
          commits := commits + [newUncommittedCount];
          uncommittedCount := 0;
        }
        isCongratsDialogOpen := true;
      }
      assert commits == logBefore + Tap(before).commits;
      assert ValidSession(State()) && LogMatches(commits, sessionStart, State()) by {
        TapKeepsLog(logBefore, sessionStart, before);
      }
    }

    /** The target dialog's `onOpenChange`: the trigger button opens it,
        Cancel and dismissing the dialog close it. Nothing else changes. */
    method SetTargetDialogOpen(open: bool)
      modifies this`isTargetDialogOpen
      ensures isTargetDialogOpen == open
    {
      isTargetDialogOpen := open;
    }

    /** The target field's `onChange`. */
    method EditTarget(text: string)
      modifies this`newTarget
      ensures newTarget == text
    {
      newTarget := text;
    }

    /** `handleSetTarget`: takes the field's text as the new target when
        it parses to a positive number, restarting the count and dropping
        the uncommitted taps without reporting them; otherwise the session
        is unchanged. The dialog closes either way. */
    method HandleSetTarget()
      requires Valid()
      modifies this
      ensures Valid()
      ensures State() == SetTarget(old(State()), newTarget)
      ensures dailyUpdates == old(dailyUpdates) && commits == old(commits)
      ensures !isTargetDialogOpen && isCongratsDialogOpen == old(isCongratsDialogOpen)
      ensures newTarget == old(newTarget) && lastAccepted == old(lastAccepted)
    {
      var targetValue := JsParseInt.ParseInt(newTarget);
      if targetValue.Some? && targetValue.value > 0 {
        target := targetValue.value;
        count := 0;
        uncommittedCount := 0;
        sessionStart := |commits|;
      }
      isTargetDialogOpen := false;
    }

    /** `handleCongratsDialogClose`: closes the dialog and restarts the
        count from zero towards the same target, reporting nothing. */
    method HandleCongratsDialogClose()
      requires Valid()
      modifies this
      ensures Valid()
      ensures State() == Fresh(old(target))
      ensures dailyUpdates == old(dailyUpdates) && commits == old(commits)
      ensures !isCongratsDialogOpen && isTargetDialogOpen == old(isTargetDialogOpen)
      ensures newTarget == old(newTarget) && lastAccepted == old(lastAccepted)
    {
      isCongratsDialogOpen := false;
      count := 0;
      uncommittedCount := 0;
      sessionStart := |commits|;
    }
  }
}
