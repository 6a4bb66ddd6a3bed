/** The inspector of Plugin/inspector/InspectorMgr.cpp: which worker thread looks after which policy,
    and how the worker and the reporter of a policy share its sub-tasks, one shared access at a time. */
module Inspector {
  import opened Arith

  // Which worker has which policy.

  /** `ceil(n / k)` threads for `n` policies. */
  function Threads(n: nat, k: nat): nat
    requires k >= 1
  {
    (n + k - 1) / k
  }

  lemma ThreadsFit(n: nat, k: nat)
    requires k >= 1
    ensures n <= k * Threads(n, k) && (n > 0 ==> 0 < Threads(n, k) <= n)
  {
    var t := Threads(n, k);
    var r := (n + k - 1) % k;
    assert n + k - 1 == k * t + r;
    MulUp(n, 1, k);
    if t > n {
      MulUp(k, n + 1, t);
      assert false;
    }
  }

  /** The policies of one worker: every `threads`-th from its own number on. */
  predicate IsStripe(visited: seq<nat>, threadNum: nat, threads: nat, n: nat) {
    && (forall a | 0 <= a < |visited| :: visited[a] == threadNum + threads * a < n)
    && n <= threadNum + threads * |visited|
  }

  /** The loop of worker `threadNum` over the policies. */
  method Visit(threadNum: nat, threads: nat, n: nat) returns (visited: seq<nat>)
    requires threadNum < threads
    ensures IsStripe(visited, threadNum, threads, n)
  {
    visited := [];
    var i := threadNum;
    while i < n
      invariant i == threadNum + threads * |visited|
      invariant forall a | 0 <= a < |visited| :: visited[a] == threadNum + threads * a < n
      decreases n - i
    {
      visited := visited + [i];
      i := i + threads;
    }
  }

  /** The policies of a worker are those whose index leaves its number, each once. */
  lemma StripeIs(visited: seq<nat>, threadNum: nat, threads: nat, n: nat, i: nat)
    requires threadNum < threads && IsStripe(visited, threadNum, threads, n)
    ensures i in visited <==> i < n && i % threads == threadNum
  {
    hide IsStripe;
    var (q, r) := (i / threads, i % threads);
    assert i == threads * q + r;
    if i in visited {
      var a: nat :| a < |visited| && visited[a] == i;
      StripeAt(visited, threadNum, threads, n, a);
      DivisionIs(threads, q, r, a, threadNum);
    }
    if i < n && r == threadNum {
      StripeEnd(visited, threadNum, threads, n, q);
      StripeAt(visited, threadNum, threads, n, q);
      assert visited[q] == i;
    }
  }

  lemma StripeAt(visited: seq<nat>, threadNum: nat, threads: nat, n: nat, a: nat)
    requires IsStripe(visited, threadNum, threads, n) && a < |visited|
    ensures visited[a] == threads * a + threadNum < n
  {
  }

  lemma StripeEnd(visited: seq<nat>, threadNum: nat, threads: nat, n: nat, a: nat)
    requires IsStripe(visited, threadNum, threads, n) && threadNum + threads * a < n
    ensures a < |visited|
  {
    if a >= |visited| {
      MulUp(threads, |visited|, a);
      assert false;
    }
  }

  lemma StripeAscends(visited: seq<nat>, threadNum: nat, threads: nat, n: nat, a: nat, b: nat)
    requires threadNum < threads && IsStripe(visited, threadNum, threads, n) && a < b < |visited|
    ensures visited[a] < visited[b]
  {
    MulUp(threads, a + 1, b);
  }

  /** With `ceil(n / k)` threads every policy is visited by one worker and by no other, and a worker has
      at least one policy and at most `k`. */
  lemma EachPolicyOnce(n: nat, k: nat, stripes: seq<seq<nat>>)
    requires k >= 1 && |stripes| == Threads(n, k)
    requires forall t | 0 <= t < |stripes| :: IsStripe(stripes[t], t, |stripes|, n)
    ensures forall i: nat | i < n :: i % |stripes| < |stripes| && i in stripes[i % |stripes|]
    ensures forall t, u, i: nat | 0 <= t < |stripes| && 0 <= u < |stripes| && i in stripes[t] && i in stripes[u] ::
              t == u
    ensures forall t | 0 <= t < |stripes| ::
              0 < |stripes[t]| <= k && forall a, b | 0 <= a < b < |stripes[t]| :: stripes[t][a] < stripes[t][b]
  {
    hide IsStripe;
    var threads := |stripes|;
    ThreadsFit(n, k);
    forall i: nat | i < n ensures i % threads < threads && i in stripes[i % threads] {
      StripeIs(stripes[i % threads], i % threads, threads, n, i);
    }
    forall t, u, i: nat | 0 <= t < threads && 0 <= u < threads && i in stripes[t] && i in stripes[u] ensures t == u {
      StripeIs(stripes[t], t, threads, n, i);
      StripeIs(stripes[u], u, threads, n, i);
    }
    forall t | 0 <= t < threads ensures 0 < |stripes[t]| <= k {
      StripeSize(stripes[t], t, threads, n, k);
    }
    forall t, a, b | 0 <= t < threads && 0 <= a < b < |stripes[t]| ensures stripes[t][a] < stripes[t][b] {
      StripeAscends(stripes[t], t, threads, n, a, b);
    }
  }

  lemma StripeSize(visited: seq<nat>, threadNum: nat, threads: nat, n: nat, k: nat)
    requires threadNum < threads && IsStripe(visited, threadNum, threads, n)
    requires threads <= n <= k * threads
    ensures 0 < |visited| <= k
  {
    StripeEnd(visited, threadNum, threads, n, 0);
    if |visited| > k {
      StripeAt(visited, threadNum, threads, n, k);
      assert false;
    }
  }

  // The sub-tasks of one policy.

  const SUBTASKS := 7

  /** Where the worker is: at the test of `m_mapFinished[i]`, at work on sub-task `i`, or about to set
      `m_mapFinished[i]`. */
  datatype WorkerAt = Testing(i: nat) | Working(i: nat) | Finishing(i: nat)

  /** Where the reporter is: before a sweep, or in one over `n` sub-tasks at the test of
      `m_mapFinished[i]`, at that of `m_mapReported[i]`, at the result, about to reset
      `m_mapFinished[i]`, or about to set `m_mapReported[i]`. */
  datatype ReporterAt =
    | Pausing
    | Looking(i: nat, n: nat) | Checking(i: nat, n: nat) | Sending(i: nat, n: nat)
    | Resetting(i: nat, n: nat) | Marking(i: nat, n: nat)

  /** `m_mapFinished` always has the keys from 0 on without a gap, so it is a sequence; a sub-task that
      the other maps do not know is not reported and has no result.  `executed` and `sent` are the
      results that each sub-task produced and that were handed to the report function. */
  datatype State = State(
    finished: seq<bool>, reported: map<nat, bool>, result: map<nat, string>,
    worker: WorkerAt, reporter: ReporterAt,
    executed: seq<seq<string>>, sent: seq<seq<string>>)

  /** The constructor makes the first five sub-tasks; the other two come with the first test of them. */
  predicate Init(s: State) {
    && s.finished == [false, false, false, false, false]
    && s.reported == map[0 := false, 1 := false, 2 := false, 3 := false, 4 := false]
    && s.result == map[0 := "", 1 := "", 2 := "", 3 := "", 4 := ""]
    && s.worker == Testing(0) && s.reporter == Pausing
    && s.executed == [[], [], [], [], [], [], []] && s.sent == s.executed
  }

  predicate Finished(s: State, i: nat) { i < |s.finished| && s.finished[i] }
  predicate Reported(s: State, i: nat) { i in s.reported && s.reported[i] }
  function Result(s: State, i: nat): string { if i in s.result then s.result[i] else "" }

  function Next(i: nat): nat { if i + 1 < SUBTASKS then i + 1 else 0 }

  ghost predicate WorkerStep(s: State, t: State) {
    match s.worker
    case Testing(i) =>
      // `operator[]` makes the flag if there is none
      var f := if i < |s.finished| then s.finished else s.finished + [false];
      t == s.(finished := f, worker := if Finished(s, i) then Testing(Next(i)) else Working(i))
    case Working(i) =>
      exists r: string ::
        && r != ""   // it has the number of the sub-task in it
        && i < |s.executed|
        && t == s.(result := s.result[i := r], executed := s.executed[i := s.executed[i] + [r]], worker := Finishing(i))
    case Finishing(i) => i < |s.finished| && t == s.(finished := s.finished[i := true], worker := Testing(Next(i)))
  }

  predicate ReporterStep(s: State, t: State, once: bool) {
    match s.reporter
    case Pausing => t == s.(reporter := Looking(0, |s.finished|))
    case Looking(i, n) =>
      t == s.(reporter := if i >= n then Pausing else if Finished(s, i) then Checking(i, n) else Looking(i + 1, n))
    case Checking(i, n) => t == s.(reporter := if once && Reported(s, i) then Looking(i + 1, n) else Sending(i, n))
    case Sending(i, n) =>
      if Result(s, i) == "" then t == s.(reporter := Looking(i + 1, n))
      else i < |s.sent| && t == s.(sent := s.sent[i := s.sent[i] + [Result(s, i)]], reporter := Resetting(i, n))
    case Resetting(i, n) => i < |s.finished| && t == s.(finished := s.finished[i := false], reporter := Marking(i, n))
    case Marking(i, n) => t == s.(reported := s.reported[i := true], reporter := Looking(i + 1, n))
  }

  /** Any interleaving of the worker and the reporter. */
  ghost predicate IsRun(run: seq<State>, once: bool) {
    && run != [] && Init(run[0])
    && forall k | 0 < k < |run| :: WorkerStep(run[k - 1], run[k]) || ReporterStep(run[k - 1], run[k], once)
  }

  /** The reporter is past the test of `m_mapFinished[i]` and before its reset. */
  predicate Holds(r: ReporterAt, i: nat) {
    (r.Checking? || r.Sending? || r.Resetting?) && r.i == i
  }

  /** The result of sub-task `i` that waits to be reported. */
  function Pending(s: State, i: nat): seq<string> {
    if s.worker == Finishing(i) || (Finished(s, i) && !(s.reporter.Resetting? && s.reporter.i == i)) then [Result(s, i)]
    else []
  }

  ghost predicate SubInv(s: State, once: bool, i: nat)
    requires i < |s.executed| && i < |s.sent|
  {
    // worker and reporter are never at the same result
    && ((s.worker == Working(i) || s.worker == Finishing(i)) ==> i < |s.finished| && !s.finished[i])
    && (Holds(s.reporter, i) ==> Finished(s, i))
    // what was produced is what was sent, and the one result that waits
    && s.executed[i] == s.sent[i] + Pending(s, i)
    && (Pending(s, i) != [] ==> Result(s, i) != "")
    // a one-shot sub-task is sent once
    && (once ==>
          && |s.sent[i]| <= 1
          && (s.sent[i] != [] <==>
                Reported(s, i) || ((s.reporter.Resetting? || s.reporter.Marking?) && s.reporter.i == i))
          && (s.reporter.Sending? && s.reporter.i == i ==> s.sent[i] == []))
  }

  ghost predicate Shape(s: State) {
    && |s.executed| == SUBTASKS && |s.sent| == SUBTASKS && |s.finished| <= SUBTASKS
    && s.worker.i < SUBTASKS && s.worker.i <= |s.finished|
    && (!s.reporter.Pausing? ==> s.reporter.n <= |s.finished|)
    && (!s.reporter.Pausing? && !s.reporter.Looking? ==> s.reporter.i < s.reporter.n)
  }

  ghost predicate Inv(s: State, once: bool) {
    Shape(s) && forall i | 0 <= i < SUBTASKS :: SubInv(s, once, i)
  }

  lemma InitHasInv(s: State, once: bool)
    requires Init(s)
    ensures Inv(s, once)
  {
    forall i | 0 <= i < SUBTASKS ensures SubInv(s, once, i) {
      assert s.executed[i] == [];
    }
  }

  lemma WorkerKeepsShape(s: State, t: State)
    requires Shape(s) && WorkerStep(s, t)
    ensures Shape(t) && t.reporter == s.reporter && t.sent == s.sent && t.reported == s.reported
  {
  }

  lemma ReporterKeepsShape(s: State, t: State, once: bool)
    requires Shape(s) && ReporterStep(s, t, once)
    ensures Shape(t) && t.worker == s.worker && t.executed == s.executed && t.result == s.result
  {
  }

  /** A step touches one sub-task. */
  lemma WorkerKeepsOther(s: State, t: State, once: bool, i: nat)
    requires Shape(s) && Shape(t) && i < SUBTASKS && SubInv(s, once, i) && WorkerStep(s, t) && i != s.worker.i
    ensures SubInv(t, once, i)
  {
    assert Finished(t, i) == Finished(s, i) && Pending(t, i) == Pending(s, i);
  }

  lemma WorkerKeepsOwn(s: State, t: State, once: bool)
    requires Shape(s) && Shape(t) && SubInv(s, once, s.worker.i) && WorkerStep(s, t)
    ensures SubInv(t, once, s.worker.i)
  {
  }

  lemma ReporterLeavesOther(s: State, t: State, once: bool, i: nat)
    requires Shape(s) && Shape(t) && i < SUBTASKS && ReporterStep(s, t, once)
    requires s.reporter.Pausing? || i != s.reporter.i
    ensures t.worker == s.worker && t.executed[i] == s.executed[i] && t.sent[i] == s.sent[i]
    ensures |t.finished| == |s.finished| && (i < |s.finished| ==> t.finished[i] == s.finished[i])
    ensures Result(t, i) == Result(s, i) && Reported(t, i) == Reported(s, i)
    ensures t.reporter.Pausing? || t.reporter.Looking? || i != t.reporter.i
  {
  }

  lemma ReporterKeepsOther(s: State, t: State, once: bool, i: nat)
    requires Shape(s) && Shape(t) && i < SUBTASKS && SubInv(s, once, i) && ReporterStep(s, t, once)
    requires s.reporter.Pausing? || i != s.reporter.i
    ensures SubInv(t, once, i)
  {
    hide ReporterStep, Result, Reported;
    ReporterLeavesOther(s, t, once, i);
  }

  lemma ReporterKeepsOwn(s: State, t: State, once: bool)
    requires Shape(s) && Shape(t) && ReporterStep(s, t, once)
    requires !s.reporter.Pausing? && s.reporter.i < SUBTASKS && SubInv(s, once, s.reporter.i)
    ensures SubInv(t, once, s.reporter.i)
  {
    match s.reporter
    case Looking(i, n) =>
    case Checking(i, n) =>
    case Sending(i, n) =>
    case Resetting(i, n) =>
    case Marking(i, n) =>
  }

  lemma StepKeepsInv(s: State, t: State, once: bool)
    requires Inv(s, once) && (WorkerStep(s, t) || ReporterStep(s, t, once))
    ensures Inv(t, once)
  {
    hide WorkerStep, ReporterStep, SubInv;
    if WorkerStep(s, t) {
      WorkerKeepsShape(s, t);
      forall i | 0 <= i < SUBTASKS ensures SubInv(t, once, i) {
        if i == s.worker.i {
          WorkerKeepsOwn(s, t, once);
        } else {
          WorkerKeepsOther(s, t, once, i);
        }
      }
    } else {
      ReporterKeepsShape(s, t, once);
      forall i | 0 <= i < SUBTASKS ensures SubInv(t, once, i) {
        if !s.reporter.Pausing? && i == s.reporter.i {
          ReporterKeepsOwn(s, t, once);
        } else {
          ReporterKeepsOther(s, t, once, i);
        }
      }
    }
  }

  lemma {:induction false} RunKeepsInv(run: seq<State>, once: bool, k: nat)
    requires IsRun(run, once) && k < |run|
    ensures Inv(run[k], once)
  {
    hide Init, WorkerStep, ReporterStep, Inv;
    if k == 0 {
      InitHasInv(run[0], once);
    } else {
      RunKeepsInv(run, once, k - 1);
      StepKeepsInv(run[k - 1], run[k], once);
    }
  }

  /** A one-shot policy: each sub-task is reported at most once and executed at most twice. */
  lemma OnceIsReportedOnce(run: seq<State>, k: nat, i: nat)
    requires IsRun(run, true) && k < |run| && i < SUBTASKS
    ensures i < |run[k].sent| && i < |run[k].executed| && |run[k].sent[i]| <= 1 && |run[k].executed[i]| <= 2
  {
    hide IsRun;
    RunKeepsInv(run, true, k);
    assert SubInv(run[k], true, i);
  }

  /** Any policy: the reports of a sub-task are its results, each once and in order, up to the last one. */
  lemma EveryResultIsSent(run: seq<State>, once: bool, k: nat, i: nat)
    requires IsRun(run, once) && k < |run| && i < SUBTASKS
    ensures i < |run[k].sent| && i < |run[k].executed|
    ensures var (sent, executed) := (run[k].sent[i], run[k].executed[i]);
            sent <= executed && |executed| <= |sent| + 1
  {
    hide IsRun;
    RunKeepsInv(run, once, k);
    assert SubInv(run[k], once, i);
  }

  /** A result is only overwritten after it was reported, and never while the reporter is at it. */
  lemma NothingOverwritten(run: seq<State>, once: bool, k: nat, i: nat)
    requires IsRun(run, once) && 0 < k < |run| && i < SUBTASKS && Result(run[k - 1], i) != Result(run[k], i)
    ensures i < |run[k - 1].sent| && i < |run[k - 1].executed| && run[k - 1].executed[i] == run[k - 1].sent[i]
    ensures !Holds(run[k - 1].reporter, i)
  {
    hide Init, WorkerStep, ReporterStep, Inv;
    RunKeepsInv(run, once, k - 1);
    OnlyWorkerWrites(run[k - 1], run[k], once, i);
  }

  lemma OnlyWorkerWrites(s: State, t: State, once: bool, i: nat)
    requires Inv(s, once) && (WorkerStep(s, t) || ReporterStep(s, t, once))
    requires i < SUBTASKS && Result(s, i) != Result(t, i)
    ensures i < |s.sent| && i < |s.executed| && s.executed[i] == s.sent[i] && !Holds(s.reporter, i)
  {
    assert SubInv(s, once, i);
    assert s.worker == Working(i);
  }

  // Every sub-task has its turn.

  /** How often the worker has moved on from sub-task `i`. */
  ghost function Visits(run: seq<State>, k: nat, i: nat): nat
    requires k < |run|
  {
    if k == 0 then 0
    else Visits(run, k - 1, i) + if run[k - 1].worker.i == i && run[k].worker.i != i then 1 else 0
  }

  lemma WorkerMoves(s: State, t: State, once: bool)
    requires Inv(s, once) && (WorkerStep(s, t) || ReporterStep(s, t, once)) && t.worker.i != s.worker.i
    ensures t.worker.i == (s.worker.i + 1) % 7 && Finished(t, s.worker.i)
  {
  }

  /** The worker goes through all seven sub-tasks, round after round: after `rounds` whole rounds it has left each
      of them as often, and once more those before the one it is at.  When it leaves one its flag is up. */
  lemma {:induction false} SevenInTurn(run: seq<State>, once: bool, k: nat) returns (rounds: nat)
    requires IsRun(run, once) && k < |run|
    ensures forall i: nat | i < 7 :: Visits(run, k, i) == rounds + if i < run[k].worker.i then 1 else 0
    ensures k > 0 && run[k].worker.i != run[k - 1].worker.i ==> Finished(run[k], run[k - 1].worker.i)
  {
    hide WorkerStep, ReporterStep, Inv, Finished;
    if k == 0 {
      rounds := 0;
    } else {
      rounds := SevenInTurn(run, once, k - 1);
      RunKeepsInv(run, once, k - 1);
      WorkerInRange(run[k - 1], once);
      if run[k].worker.i != run[k - 1].worker.i {
        WorkerMoves(run[k - 1], run[k], once);
        if run[k].worker.i == 0 {
          rounds := rounds + 1;
        }
      }
    }
  }

  lemma WorkerInRange(s: State, once: bool)
    requires Inv(s, once)
    ensures s.worker.i < 7
  {
  }

  /** The reporter is past sub-task `i` in its sweep. */
  predicate PassedIn(r: ReporterAt, i: nat) { r.Pausing? || i < r.i || r.n <= i }

  /** How often the reporter has begun a sweep over sub-task `i`, and how often it has passed it. */
  ghost function Begun(run: seq<State>, k: nat, i: nat): nat
    requires k < |run|
  {
    if k == 0 then 0
    else
      Begun(run, k - 1, i)
      + if run[k - 1].reporter.Pausing? && !run[k].reporter.Pausing? && i < |run[k - 1].finished| then 1 else 0
  }

  ghost function Passed(run: seq<State>, k: nat, i: nat): nat
    requires k < |run|
  {
    if k == 0 then 0
    else
      var (r, q) := (run[k - 1].reporter, run[k].reporter);
      Passed(run, k - 1, i) + if !r.Pausing? && r.i == i && !q.Pausing? && q.i == i + 1 then 1 else 0
  }

  lemma ReporterMoves(s: State, t: State, once: bool)
    requires Inv(s, once) && (WorkerStep(s, t) || ReporterStep(s, t, once))
    ensures s.reporter.Pausing? && !t.reporter.Pausing? ==> t.reporter == Looking(0, |s.finished|)
    ensures !s.reporter.Pausing? && t.reporter.Pausing? ==> s.reporter.i >= s.reporter.n
    ensures !s.reporter.Pausing? && !t.reporter.Pausing? ==>
              && t.reporter.n == s.reporter.n
              && (t.reporter.i == s.reporter.i || (t.reporter.i == s.reporter.i + 1 && s.reporter.i < s.reporter.n))
  {
  }

  /** Each sweep that was begun over a sub-task passes it once before it ends. */
  lemma {:induction false} SweepsAreWhole(run: seq<State>, once: bool, k: nat, i: nat)
    requires IsRun(run, once) && k < |run|
    ensures Begun(run, k, i) == Passed(run, k, i) + if PassedIn(run[k].reporter, i) then 0 else 1
  {
    hide WorkerStep, ReporterStep, Inv;
    if k > 0 {
      SweepsAreWhole(run, once, k - 1, i);
      RunKeepsInv(run, once, k - 1);
      ReporterMoves(run[k - 1], run[k], once);
    }
  }

  /** A result that the reporter passes stays only if it was reported before, of a one-shot policy. */
  lemma PassedIsSent(s: State, t: State, once: bool)
    requires Inv(s, once) && ReporterStep(s, t, once) && !s.reporter.Pausing? && !t.reporter.Pausing?
    requires t.reporter.i == s.reporter.i + 1 && s.reporter.i < 7
    ensures s.reporter.Marking? || !Finished(s, s.reporter.i) || (once && Reported(s, s.reporter.i))
  {
    assert SubInv(s, once, s.reporter.i);
  }
}
