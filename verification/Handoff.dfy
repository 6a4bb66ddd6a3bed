/** The hand-over of log lines from the collector thread to the reporter thread of one policy of
    Plugin/filelog/FileLogMgr.cpp, one shared access at a time. */
module Handoff {

  /** Where the collector is: between lines, at the test of `bSendFalg` with a line in hand, past the
      test, at the test of the size, or about to set `bSendFalg`. */
  datatype CollectorAt = Reading | Waiting(line: string) | Pushing(line: string) | Sizing | Raising

  /** Where the reporter is: at the test of `bSendFalg`, at line `next` of `vec_log`, about to clear
      `vec_log`, or about to reset `bSendFalg`. */
  datatype ReporterAt = Scanning | Reporting(next: nat) | Clearing | Resetting

  /** `read`, `pushed` and `reported` are all the lines that ever were. */
  datatype State = State(
    vecLog: seq<string>, bSendFalg: bool,
    collector: CollectorAt, reporter: ReporterAt,
    read: seq<string>, pushed: seq<string>, reported: seq<string>)

  const INIT := State([], false, Reading, Scanning, [], [], [])

  /** `nReadLineNum` as the configuration is loaded: a number below 1 is replaced. */
  function Loaded(readlinenum: int): (n: int)
    ensures n >= 1 && (readlinenum >= 1 ==> n == readlinenum) && (readlinenum <= 0 ==> n == 100)
  {
    if readlinenum <= 0 then 100 else readlinenum
  }

  ghost predicate CollectorStep(s: State, t: State, readlinenum: int) {
    match s.collector
    case Reading =>
      // the next line that is not empty, or the end of the file
      || (exists line :: line != "" && t == s.(read := s.read + [line], collector := Waiting(line)))
      || t == s.(collector := Raising)
    case Waiting(line) => t == if s.bSendFalg then s else s.(collector := Pushing(line))
    case Pushing(line) => t == s.(vecLog := s.vecLog + [line], pushed := s.pushed + [line], collector := Sizing)
    case Sizing => t == s.(collector := if |s.vecLog| >= Loaded(readlinenum) then Raising else Reading)
    case Raising => t == s.(bSendFalg := true, collector := Reading)
  }

  predicate ReporterStep(s: State, t: State) {
    match s.reporter
    case Scanning => t == if s.bSendFalg then s.(reporter := Reporting(0)) else s
    case Reporting(next) =>
      if next < |s.vecLog| then t == s.(reported := s.reported + [s.vecLog[next]], reporter := Reporting(next + 1))
      else t == s.(reporter := Clearing)
    case Clearing => t == s.(vecLog := [], reporter := Resetting)
    case Resetting => t == s.(bSendFalg := false, reporter := Scanning)
  }

  /** Any interleaving of the two threads. */
  ghost predicate IsRun(run: seq<State>, readlinenum: int) {
    && run != [] && run[0] == INIT
    && forall i | 0 < i < |run| :: CollectorStep(run[i - 1], run[i], readlinenum) || ReporterStep(run[i - 1], run[i])
  }

  /** The line that the collector holds, read and not yet pushed. */
  function InHand(s: State): seq<string> {
    match s.collector
    case Waiting(line) => [line]
    case Pushing(line) => [line]
    case _ => []
  }

  /** How many lines of `vec_log` were reported already. */
  function Sent(s: State): nat {
    match s.reporter
    case Scanning => 0
    case Reporting(next) => next
    case Clearing => |s.vecLog|
    case Resetting => 0
  }

  ghost predicate Inv(s: State, readlinenum: int) {
    // each thread is at work on the vector only while the flag says so
    && (!s.reporter.Scanning? ==> s.bSendFalg)
    && (s.collector.Pushing? || s.collector.Sizing? ==> !s.bSendFalg)
    // nothing is lost, doubled or reordered
    && Sent(s) <= |s.vecLog| && s.pushed == s.reported + s.vecLog[Sent(s)..]
    && s.read == s.pushed + InHand(s)
    && (s.reporter.Resetting? ==> s.vecLog == [])
    // the vector never grows past the threshold
    && |s.vecLog| <= Loaded(readlinenum)
    && (!s.bSendFalg && !s.collector.Sizing? && !s.collector.Raising? ==> |s.vecLog| < Loaded(readlinenum))
  }

  lemma CollectorKeepsInv(s: State, t: State, readlinenum: int)
    requires Inv(s, readlinenum) && CollectorStep(s, t, readlinenum)
    ensures Inv(t, readlinenum)
    ensures s.bSendFalg ==> t.vecLog == s.vecLog
  {
    if s.collector.Pushing? {
      var line := s.collector.line;
      assert (s.vecLog + [line])[Sent(s)..] == s.vecLog[Sent(s)..] + [line];
    }
  }

  lemma ReporterKeepsInv(s: State, t: State, readlinenum: int)
    requires Inv(s, readlinenum) && ReporterStep(s, t)
    ensures Inv(t, readlinenum)
    ensures !s.bSendFalg ==> t.vecLog == s.vecLog && t.reported == s.reported
  {
    if s.reporter.Reporting? && s.reporter.next < |s.vecLog| {
      var next := s.reporter.next;
      assert s.vecLog[next..] == [s.vecLog[next]] + s.vecLog[next + 1..];
    }
  }

  lemma InitHasInv(readlinenum: int)
    ensures Inv(INIT, readlinenum)
  {
  }

  lemma StepKeepsInv(s: State, t: State, readlinenum: int)
    requires Inv(s, readlinenum) && (CollectorStep(s, t, readlinenum) || ReporterStep(s, t))
    ensures Inv(t, readlinenum)
  {
    hide CollectorStep, ReporterStep, Inv;
    if CollectorStep(s, t, readlinenum) {
      CollectorKeepsInv(s, t, readlinenum);
    } else {
      ReporterKeepsInv(s, t, readlinenum);
    }
  }

  lemma {:induction false} RunKeepsInv(run: seq<State>, readlinenum: int, i: nat)
    requires IsRun(run, readlinenum) && i < |run|
    ensures Inv(run[i], readlinenum)
  {
    hide CollectorStep, ReporterStep, Inv;
    if i == 0 {
      InitHasInv(readlinenum);
    } else {
      RunKeepsInv(run, readlinenum, i - 1);
      StepKeepsInv(run[i - 1], run[i], readlinenum);
    }
  }

  /** In every run, at every moment: what was reported is a prefix of what was pushed, between reports the vector
      holds the rest, and what was pushed is what was read but for the line in hand. */
  lemma NothingLost(run: seq<State>, readlinenum: int, i: nat)
    requires IsRun(run, readlinenum) && i < |run|
    ensures run[i].reported <= run[i].pushed
    ensures run[i].reporter.Scanning? ==> run[i].reported + run[i].vecLog == run[i].pushed
    ensures run[i].read == run[i].pushed + InHand(run[i])
  {
    RunKeepsInv(run, readlinenum, i);
  }

  /** In every run the collector changes the vector only while the flag is down, and the reporter
      reads or clears it only while the flag is up. */
  lemma Exclusive(run: seq<State>, readlinenum: int, i: nat)
    requires IsRun(run, readlinenum) && i + 1 < |run|
    ensures run[i + 1].pushed != run[i].pushed ==> !run[i].bSendFalg && run[i].reporter.Scanning?
    ensures run[i + 1].reported != run[i].reported ==> run[i].bSendFalg
    ensures run[i + 1].vecLog == [] && run[i].vecLog != [] ==> run[i].bSendFalg
  {
    RunKeepsInv(run, readlinenum, i);
    var (s, t) := (run[i], run[i + 1]);
    if !ReporterStep(s, t) {
      CollectorKeepsInv(s, t, readlinenum);
    }
  }

  /** In every run the flag goes up in the middle of a file exactly when the vector has as many lines as the
      configuration asks for. */
  lemma RaisedWhenFull(run: seq<State>, readlinenum: int, i: nat)
    requires IsRun(run, readlinenum) && i + 1 < |run| && run[i].collector.Sizing? && !run[i + 1].collector.Sizing?
    ensures run[i + 1].collector.Raising? <==> |run[i].vecLog| == Loaded(readlinenum)
  {
    RunKeepsInv(run, readlinenum, i);
  }

  /** In every run the vector stays within the number of lines that the configuration, as loaded, asks
      for at a time. */
  lemma Bounded(run: seq<State>, readlinenum: int, i: nat)
    requires IsRun(run, readlinenum) && i < |run|
    ensures |run[i].vecLog| <= Loaded(readlinenum)
  {
    hide IsRun;
    RunKeepsInv(run, readlinenum, i);
  }
}
