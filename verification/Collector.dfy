/** Large-log mode of Plugin/filelog/FileLogMgr.cpp: one pass over one log file, which resumes where the
    position file says and records there how far it got. */
module Collector {
  import opened Text
  import opened PosFile

  const WRITE_RATE := 1000

  /** What the position file says about the log file, and the lines pushed so far. */
  datatype Moment = Moment(record: (int, int), pushed: seq<string>)

  function LogLines(s: string): seq<string> { NonEmpty(Lines(s)) }

  /** Where a pass over `file` starts, given the record: a record of a longer file is disregarded. */
  function Resume(record: (int, int), file: string): int {
    if record.1 > |file| then 0 else record.0
  }

  /** The record lies within the file. */
  predicate Resumable(record: (int, int), file: string) { 0 <= Resume(record, file) <= |file| }

  /** A pass that began at `from` can be about to read at `p`. */
  predicate Boundary(file: string, from: nat, p: nat) { p == from || LineStart(file, p) }

  /** Were the collector to stop at this moment, the next pass would start where this one did, at the
      beginning of a line or at the end; no line before that was left out, and at most 1000 lines
      would be read again.  `from` and `before` say where this pass began and what was pushed
      before it.  `NextPass` says what follows when the file has grown by then. */
  ghost predicate Safe(m: Moment, file: string, from: nat, before: seq<string>) {
    && Resumable(m.record, file) && from <= Resume(m.record, file)
    && (Boundary(file, from, Resume(m.record, file)) || Resume(m.record, file) == |file|)
    && exists p :: IsReached(m, file, from, before, p)
  }

  /** Exactly the lines up to `p` were pushed. */
  ghost predicate IsReached(m: Moment, file: string, from: nat, before: seq<string>, p: int) {
    var at := Resume(m.record, file);
    && 0 <= at <= p && from <= p <= |file| && (Boundary(file, from, p) || p == |file|)
    && m.pushed == before + LogLines(file[from..p])
    && |Lines(file[at..p])| <= WRITE_RATE
  }

  /** The record of a pass that began at `from`: the one that it found, or one of the file as it is, made when a
      multiple of 1000 lines was read or at the end. */
  predicate RecordOf(record: (int, int), found: (int, int), file: string, from: nat) {
    || record == found
    || (record.1 == |file| && (record.0 == |file| || IsMultiple(file, from, record.0)))
  }

  /** From `from` to `p` there are 1000, 2000 and so on lines. */
  predicate IsMultiple(file: string, from: nat, p: int) {
    from < p <= |file| && |Lines(file[from..p])| % WRITE_RATE == 0
  }

  /** The lines that are pushed: those between newlines, without the empty ones, none of them changed. */
  lemma LogLinesAre(s: string)
    ensures forall line | line in LogLines(s) :: line != "" && '\n' !in line
    ensures Unlines(Lines(s)) == if s == "" || s[|s| - 1] == '\n' then s else s + "\n"
    ensures forall line: string | line != "" :: multiset(LogLines(s))[line] == multiset(Lines(s))[line]
  {
    hide Lines, NonEmpty;
    LinesAreFree(s);
    UnlinesOfLines(s);
    NonEmptyIs(Lines(s));
  }

  lemma LogLinesAppend(a: string, b: string)
    requires LineStart(a, |a|)
    ensures LogLines(a + b) == LogLines(a) + LogLines(b)
  {
    LinesAppend(a, b);
    NonEmptyAppend(Lines(a), Lines(b));
  }

  /** `file[p..q]` is the line `text`, with the newline that ends it unless the file ends first. */
  ghost predicate IsLine(file: string, p: nat, q: nat, text: string) {
    && p < q <= |file| && '\n' !in text
    && if file[q - 1] == '\n' then text == file[p..q - 1] else q == |file| && text == file[p..q]
  }

  /** A line alone. */
  lemma LineAlone(file: string, p: nat, q: nat, text: string)
    requires IsLine(file, p, q, text)
    ensures Lines(file[p..q]) == [text]
  {
    hide Lines;
    if file[q - 1] == '\n' {
      assert file[p..q] == text + "\n";
      LinesOfOne(text);
    } else {
      LinesOfRest(text);
    }
  }

  /** One more line, from `p` to `q`. */
  lemma OneLine(file: string, from: nat, p: nat, q: nat, text: string)
    requires from <= p && Boundary(file, from, p) && IsLine(file, p, q, text)
    ensures Lines(file[from..q]) == Lines(file[from..p]) + [text]
    ensures LogLines(file[from..q]) == LogLines(file[from..p]) + (if text == "" then [] else [text])
  {
    hide Lines, NonEmpty, IsLine;
    assert p < q <= |file| by { LineIsInFile(file, p, q, text); }
    var (a, last) := (file[from..p], file[p..q]);
    assert LineStart(a, |a|) && file[from..q] == a + last;
    LinesAppend(a, last);
    LineAlone(file, p, q, text);
    NonEmptySnoc(Lines(a), text);
  }

  lemma LineIsInFile(file: string, p: nat, q: nat, text: string)
    requires IsLine(file, p, q, text)
    ensures p < q <= |file|
  {
  }

  lemma NonEmptySnoc(lines: seq<string>, text: string)
    ensures NonEmpty(lines + [text]) == NonEmpty(lines) + if text == "" then [] else [text]
  {
    assert (lines + [text])[..|lines|] == lines;
  }

  /** What `getline` gives. */
  lemma GetLineInFile(file: string, at: nat)
    requires at <= |file|
    ensures var line := GetLine(file, at);
            if at == |file| then line == NoLine
            else line.Line? && IsLine(file, at, Clamped(line.tell, |file|), line.text)
  {
    if at < |file| {
      var p := Find(file, "\n", at);
      if p != -1 {
        OneChar(file, "\n", p);
      }
      forall i | at <= i < (if p == -1 then |file| else p) ensures file[i] != '\n' {
        OneChar(file, "\n", i);
        assert !At(file, "\n", i);
      }
    }
  }

  /** `tellg` after a line, or the size of the file when that says nothing or too much. */
  function Clamped(tell: int, size: nat): (next: nat)
    ensures next <= size
  {
    if tell < 0 || tell > size then size else tell
  }

  /** A pass that began at `from` has read up to `p`, the last `n` lines of it after the recorded
      position. */
  ghost predicate Reached(m: Moment, file: string, from: nat, before: seq<string>, p: nat, n: nat) {
    && Resumable(m.record, file) && from <= Resume(m.record, file) <= p <= |file|
    && Boundary(file, from, Resume(m.record, file)) && (Boundary(file, from, p) || p == |file|) && n <= WRITE_RATE
    && |Lines(file[Resume(m.record, file)..p])| == n
    && |Lines(file[from..Resume(m.record, file)])| % WRITE_RATE == 0
    && m.pushed == before + LogLines(file[from..p])
  }

  lemma ReachedIsSafe(m: Moment, file: string, from: nat, before: seq<string>, p: nat, n: nat)
    requires Reached(m, file, from, before, p, n)
    ensures Safe(m, file, from, before)
  {
    assert IsReached(m, file, from, before, p);
  }

  lemma ReachedAtStart(record: (int, int), file: string, before: seq<string>)
    requires Resumable(record, file)
    ensures Reached(Moment(record, before), file, Resume(record, file), before, Resume(record, file), 0)
  {
    var at := Resume(record, file);
    assert file[at..at] == "";
  }

  /** The position is recorded. */
  lemma ReachedAfterMark(m: Moment, file: string, from: nat, before: seq<string>, p: nat, n: nat)
    requires Reached(m, file, from, before, p, n) && Boundary(file, from, p) && n == WRITE_RATE
    ensures Reached(m.(record := (p, |file|)), file, from, before, p, 0) && IsMultiple(file, from, p)
  {
    hide Lines;
    var at := Resume(m.record, file);
    LinesBetween(file, from, at, p);
    assert file[p..p] == "";
    LinesOfNone();
  }

  lemma LinesBetween(file: string, from: nat, at: nat, p: nat)
    requires from <= at <= p <= |file| && Boundary(file, from, at)
    ensures |Lines(file[from..p])| == |Lines(file[from..at])| + |Lines(file[at..p])|
  {
    hide Lines;
    assert file[from..p] == file[from..at] + file[at..p];
    LinesAppend(file[from..at], file[at..p]);
  }

  /** A line is read, and pushed unless it is empty. */
  lemma ReachedAfterLine(m: Moment, file: string, from: nat, before: seq<string>, p: nat, n: nat,
                         q: nat, text: string)
    requires Reached(m, file, from, before, p, n) && n < WRITE_RATE
    requires IsLine(file, p, q, text)
    ensures Reached(m.(pushed := m.pushed + if text == "" then [] else [text]), file, from, before, q, n + 1)
  {
    hide Lines, LogLines;
    OneLine(file, from, p, q, text);
    OneLine(file, Resume(m.record, file), p, q, text);
  }

  class Collector {
    const posFile: PositionFile
    /** The lines pushed onto `vec_log`, ever. */
    ghost var pushed: seq<string>
    /** The moments between the actions of the passes. */
    ghost var moments: seq<Moment>

    constructor (posFile: PositionFile)
      ensures this.posFile == posFile && pushed == [] && moments == []
    {
      this.posFile := posFile;
      pushed, moments := [], [];
    }

    ghost function Now(name: string): Moment
      reads this, posFile
      requires name in posFile.Map()
    {
      Moment(posFile.Map()[name], pushed)
    }

    /** The position file holds a record for the log file, and its numbers are at `markPos`. */
    ghost predicate Ready(fileName: string, markPos: int)
      reads this, posFile
    {
      && posFile.Valid() && fileName != "" && markPos >= 0 && BaseName(fileName) in posFile.Map()
      && posFile.Marks(markPos, BaseName(fileName))
    }

    /** `MarkPos` at a valid mark. */
    method Record(markPos: int, fileName: string, pos: Int64, size: Int64)
      requires Ready(fileName, markPos)
      modifies posFile, this`moments
      ensures Ready(fileName, markPos) && Now(BaseName(fileName)) == Moment((pos, size), pushed)
      ensures posFile.Map() == old(posFile.Map())[BaseName(fileName) := (pos, size)]
      ensures moments == old(moments) + [Now(BaseName(fileName))]
    {
      hide BaseName;
      posFile.MarkPos(markPos, fileName, pos, size);
      moments := moments + [Now(BaseName(fileName))];
    }

    /** The body of the loop for one line: the position is recorded if a thousand lines were read
        since it was last, and the line is pushed unless it is empty. */
    method TakeLine(fileName: string, file: string, markPos: int, posCurrent: nat, posNext: nat, nCount0: nat,
                    text: string, ghost start: nat, ghost before: seq<string>, ghost found: (int, int))
      returns (nCount: nat)
      requires Ready(fileName, markPos) && |file| < 0x8000_0000_0000_0000
      requires Reached(Now(BaseName(fileName)), file, start, before, posCurrent, nCount0)
      requires IsLine(file, posCurrent, posNext, text) && RecordOf(Now(BaseName(fileName)).record, found, file, start)
      modifies this, posFile
      ensures Ready(fileName, markPos)
      ensures posFile.Map() == old(posFile.Map())[BaseName(fileName) := posFile.Map()[BaseName(fileName)]]
      ensures Reached(Now(BaseName(fileName)), file, start, before, posNext, nCount)
      ensures RecordOf(Now(BaseName(fileName)).record, found, file, start) && old(moments) <= moments
      ensures forall i | |old(moments)| <= i < |moments| ::
        Safe(moments[i], file, start, before) && RecordOf(moments[i].record, found, file, start)
    {
      hide BaseName, Safe, Reached, Good, GoodSep, Render, ToMap, Marked;
      ghost var name := BaseName(fileName);
      nCount := nCount0;
      InRange(Now(name), file, start, before, posCurrent, nCount);
      if nCount >= WRITE_RATE {
        ReachedAfterMark(Now(name), file, start, before, posCurrent, nCount);
        Record(markPos, fileName, posCurrent, |file|);
        nCount := 0;
        ReachedIsSafe(Now(name), file, start, before, posCurrent, nCount);
      }
      ReachedAfterLine(Now(name), file, start, before, posCurrent, nCount, posNext, text);
      nCount := nCount + 1;
      if text != "" {
        pushed := pushed + [text];
        moments := moments + [Now(name)];
      }
      assert pushed + [] == pushed;
      ReachedIsSafe(Now(name), file, start, before, posNext, nCount);
    }

    /** Lines are read until `getline` fails. */
    method ReadLines(fileName: string, file: string, markPos: int, start: nat) returns (posNext: nat)
      requires Ready(fileName, markPos) && |file| < 0x8000_0000_0000_0000
      requires Resumable(Now(BaseName(fileName)).record, file)
      requires start == Resume(Now(BaseName(fileName)).record, file)
      modifies this, posFile
      ensures Ready(fileName, markPos) && posNext == |file|
      ensures posFile.Map() == old(posFile.Map())[BaseName(fileName) := posFile.Map()[BaseName(fileName)]]
      ensures exists n :: Reached(Now(BaseName(fileName)), file, start, old(pushed), |file|, n)
      ensures old(moments) <= moments
      ensures forall i | |old(moments)| <= i < |moments| ::
        && Safe(moments[i], file, start, old(pushed))
        && RecordOf(moments[i].record, old(Now(BaseName(fileName)).record), file, start)
    {
      hide GetLine, BaseName, Safe, Reached, Good, GoodSep, Render, ToMap, Marked, Resumable, IsLine;
      ghost var name, before, found := BaseName(fileName), pushed, Now(BaseName(fileName)).record;
      var nCount := 0;
      posNext := start;
      ReachedAtStart(Now(name).record, file, pushed);
      while true
        invariant 0 <= posNext <= |file| && Ready(fileName, markPos)
        invariant posFile.Map() == old(posFile.Map())[name := posFile.Map()[name]]
        invariant Reached(Now(name), file, start, before, posNext, nCount)
        invariant RecordOf(Now(name).record, found, file, start) && old(moments) <= moments
        invariant forall i | |old(moments)| <= i < |moments| ::
          Safe(moments[i], file, start, before) && RecordOf(moments[i].record, found, file, start)
        decreases |file| - posNext
      {
        InRange(Now(name), file, start, before, posNext, nCount);
        GetLineInFile(file, posNext);
        var line := GetLine(file, posNext);
        if line.NoLine? {
          break;
        }
        var posCurrent := posNext;
        posNext := Clamped(line.tell, |file|);
        nCount := TakeLine(fileName, file, markPos, posCurrent, posNext, nCount, line.text, start, before, found);
      }
    }

    /** One log file of a pass.  `file` is its content, which stays the same during the pass.  A record
        beyond the end of a file that is not shorter than recorded is a place where nothing can be read. */
    method CollectFile(fileName: string, file: string)
      requires posFile.Valid() && fileName != "" && GoodName(BaseName(fileName)) && |file| < 0x8000_0000_0000_0000
      requires BaseName(fileName) in posFile.Map()
      modifies this, posFile
      ensures posFile.Valid() && BaseName(fileName) in posFile.Map()
      ensures posFile.Map() == old(posFile.Map())[BaseName(fileName) := posFile.Map()[BaseName(fileName)]]
      ensures old(moments) <= moments
      ensures var (name, record) := (BaseName(fileName), old(Now(BaseName(fileName)).record));
              var from := Resume(record, file);
              if Resumable(record, file) then
                && Now(name).record == (if record.0 == |file| && record.1 <= |file| then record else (|file|, |file|))
                && pushed == old(pushed) + LogLines(file[from..])
                && forall i | |old(moments)| <= i < |moments| ::
                     Safe(moments[i], file, from, old(pushed)) && RecordOf(moments[i].record, record, file, from)
              else pushed == old(pushed) && Now(name).record == (record.0, record.0)
    {
      hide BaseName, Safe, Reached, Good, GoodSep, Render, ToMap, LogLines;
      ghost var name, before := BaseName(fileName), pushed;
      ghost var start := Resume(Now(name).record, file);
      var found, markPos, posCurrent, fileSize := posFile.ReadPos(fileName, 0, 0, 0);
      if fileSize > |file| {
        posCurrent := 0;
      } else if posCurrent == |file| {
        NothingLeft(file, pushed);
        return;
      }
      NumbersFit(posFile.recs, name);
      var posNext: Int64 := posCurrent;
      if 0 <= posCurrent <= |file| {
        posNext := ReadLines(fileName, file, markPos, posCurrent);
        ReachedAtEnd(Now(name), file, start, before);
      }
      Record(markPos, fileName, posNext, posNext);
      if posNext == |file| {
        EndIsSafe(Now(name), file, start, before);
      }
    }
  }

  lemma NothingLeft(file: string, pushed: seq<string>)
    ensures pushed + LogLines(file[|file|..]) == pushed
  {
  }

  lemma ReachedAtEnd(m: Moment, file: string, from: nat, before: seq<string>)
    requires exists n :: Reached(m, file, from, before, |file|, n)
    ensures from <= |file| && m.pushed == before + LogLines(file[from..])
  {
    assert from <= |file| ==> file[from..] == file[from..|file|];
  }

  lemma EndIsSafe(m: Moment, file: string, from: nat, before: seq<string>)
    requires m.record == (|file|, |file|) && from <= |file| && m.pushed == before + LogLines(file[from..])
    ensures Safe(m, file, from, before)
  {
    assert file[from..] == file[from..|file|] && file[|file|..|file|] == "";
    assert IsReached(m, file, from, before, |file|);
  }

  lemma InRange(m: Moment, file: string, from: nat, before: seq<string>, p: nat, n: nat)
    requires Reached(m, file, from, before, p, n)
    ensures p <= |file| && (Boundary(file, from, p) || p == |file|) && n <= WRITE_RATE
  {
  }

  // Passes over a file that grows.

  /** Each snapshot of the file is the one before with something added. */
  ghost predicate Grows(files: seq<string>) {
    forall i | 0 < i < |files| :: files[i - 1] <= files[i]
  }

  /** One pass for each snapshot.  If each ends with a newline, or is empty, every line that is not
      empty is pushed exactly once, in order. */
  method Passes(collector: Collector, fileName: string, files: seq<string>)
    requires collector.posFile.Valid() && fileName != "" && GoodName(BaseName(fileName))
    requires BaseName(fileName) in collector.posFile.Map() && collector.posFile.Map()[BaseName(fileName)] == (0, 0)
    requires Grows(files) && forall file | file in files :: |file| < 0x8000_0000_0000_0000 && LineStart(file, |file|)
    modifies collector, collector.posFile
    ensures collector.pushed == old(collector.pushed) + if files == [] then [] else LogLines(files[|files| - 1])
  {
    hide BaseName, Good, GoodSep, Render, ToMap, LogLines, Safe, Resume, Resumable, RecordOf;
    ghost var last := "";
    LogLinesOfNone(collector.pushed);
    ResumesAt(collector.posFile.Map()[BaseName(fileName)], "", "");
    for i := 0 to |files|
      invariant collector.posFile.Valid() && BaseName(fileName) in collector.posFile.Map()
      invariant last == if i == 0 then "" else files[i - 1]
      invariant Resume(collector.posFile.Map()[BaseName(fileName)], last) == |last|
      invariant collector.posFile.Map()[BaseName(fileName)].1 <= |last|
      invariant collector.pushed == old(collector.pushed) + LogLines(last)
    {
      var file := files[i];
      LinesAdded(last, file);
      ResumesAt(collector.posFile.Map()[BaseName(fileName)], last, file);
      ghost var (before, more) := (LogLines(last), LogLines(file[|last|..]));
      assert old(collector.pushed) + (before + more) == old(collector.pushed) + before + more;
      collector.CollectFile(fileName, file);
      last := file;
      ResumesAt(collector.posFile.Map()[BaseName(fileName)], last, last);
    }
  }

  lemma LinesAdded(last: string, file: string)
    requires last <= file && LineStart(last, |last|)
    ensures LogLines(file) == LogLines(last) + LogLines(file[|last|..])
  {
    hide LogLines;
    assert file == last + file[|last|..];
    LogLinesAppend(last, file[|last|..]);
  }

  lemma ResumesAt(record: (int, int), last: string, file: string)
    requires last <= file && record.1 <= |last|
    ensures Resume(record, file) == Resume(record, last) == record.0
    ensures Resumable(record, file) <==> 0 <= record.0 <= |file|
  {
  }

  lemma LogLinesOfNone(pushed: seq<string>)
    ensures pushed + LogLines("") == pushed
  {
  }

  /** The next pass, over the file as it has grown.  It starts where it would have on the old file, unless
      that was shorter than recorded and the new one no longer is.  What it pushes completes what was pushed,
      and only the lines in `again`, at most 1000, come twice. */
  lemma NextPass(m: Moment, file: string, from: nat, before: seq<string>, later: string) returns (again: seq<string>)
    requires Safe(m, file, from, before) && file <= later
    ensures Resume(m.record, later) == Resume(m.record, file) <==>
            m.record.1 <= |file| || |later| < m.record.1 || m.record.0 == 0
    ensures var at := Resume(m.record, file);
            && |again| <= WRITE_RATE && m.pushed == before + LogLines(later[from..at]) + again
            && (LogLines(later[from..]) == LogLines(later[from..at]) + LogLines(later[at..]) <==>
                Boundary(file, from, at) || later == file || later[at] == '\n')
  {
    hide LogLines, Lines;
    var at := Resume(m.record, file);
    var p :| IsReached(m, file, from, before, p);
    var (a, b) := (file[from..at], file[at..p]);
    again := LogLines(b);
    FewerLogLines(b);
    assert file[from..p] == a + b && later[from..at] == a && later[from..] == a + later[at..];
    LogLinesSplit(a, b);
    assert LogLines(a + b) == LogLines(a) + again;
    LogLinesSplit(a, later[at..]);
  }

  lemma FewerLogLines(s: string)
    ensures |LogLines(s)| <= |Lines(s)|
  {
    hide Lines, NonEmpty;
    NonEmptyIsFewer(Lines(s));
  }

  lemma {:induction false} NonEmptyIsFewer(lines: seq<string>)
    ensures |NonEmpty(lines)| <= |lines|
  {
    if lines != [] {
      NonEmptyIsFewer(lines[..|lines| - 1]);
    }
  }

  // What happens to a line that is not ended when a pass reaches it.

  /** Where the last line begins that is not ended. */
  function LastStart(a: string): (p: nat)
    ensures p <= |a| && LineStart(a, p) && '\n' !in a[p..] && (LineStart(a, |a|) <==> p == |a|)
  {
    if LineStart(a, |a|) then |a| else LastStart(a[..|a| - 1])
  }

  /** A text that continues the line `x`. */
  lemma Continued(x: string, b: string)
    requires x != "" && '\n' !in x && b != ""
    ensures var p := Find(b, "\n", 0);
            var first := if p == -1 then b else b[..p];
            var rest := if p == -1 then [] else LogLines(b[p + 1..]);
            && LogLines(x + b) == [x + first] + rest
            && LogLines(b) == (if first == "" then [] else [first]) + rest
  {
    hide Lines, Find, NonEmpty, At;
    LinesContinued(x, b);
    var p := Find(b, "\n", 0);
    var first := if p == -1 then b else b[..p];
    var rest := if p == -1 then [] else Lines(b[p + 1..]);
    NonEmptyCons(x + first, rest);
    NonEmptyCons(first, rest);
    NonEmptyOfNone();
  }

  lemma NonEmptyOfNone()
    ensures NonEmpty([]) == []
  {
  }

  lemma NonEmptyCons(line: string, rest: seq<string>)
    ensures NonEmpty([line] + rest) == (if line == "" then [] else [line]) + NonEmpty(rest)
  {
    NonEmptyAppend([line], rest);
    assert [line][..0] == [] && [] + [line] == [line];
  }

  lemma FindContinued(x: string, b: string)
    requires '\n' !in x
    ensures var p := Find(b, "\n", 0);
            Find(x + b, "\n", 0) == if p == -1 then -1 else |x| + p
  {
    var p := Find(b, "\n", 0);
    forall i | 0 <= i < |x| ensures !At(x + b, "\n", i) {
      OneChar(x + b, "\n", i);
    }
    FindInRest(x + b, "\n", |x|);
    assert (x + b)[|x|..] == b;
    if p != -1 {
      FindIsFirst(x + b, "\n", 0, |x| + p);
    }
  }

  lemma LinesContinued(x: string, b: string)
    requires x != "" && '\n' !in x && b != ""
    ensures var p := Find(b, "\n", 0);
            var first := if p == -1 then b else b[..p];
            var rest := if p == -1 then [] else Lines(b[p + 1..]);
            Lines(x + b) == [x + first] + rest && Lines(b) == [first] + rest
  {
    hide Lines, Find, At;
    var p := Find(b, "\n", 0);
    FindContinued(x, b);
    LinesOnce(b);
    LinesOnce(x + b);
    if p != -1 {
      assert (x + b)[..|x| + p] == x + b[..p] && (x + b)[|x| + p + 1..] == b[p + 1..];
    }
  }

  /** Two passes, the second over what was added to `a`, push the lines of the whole file if and only
      if `a` ends with a newline, or what follows begins with one, or one of the two is empty. */
  lemma LogLinesSplit(a: string, b: string)
    ensures LogLines(a + b) == LogLines(a) + LogLines(b) <==> LineStart(a, |a|) || b == "" || b[0] == '\n'
  {
    hide Lines, NonEmpty, LogLines;
    if LineStart(a, |a|) {
      LogLinesAppend(a, b);
    } else if b == "" {
      assert a + b == a;
      LogLinesOfNone(LogLines(a));
    } else {
      var p := LastStart(a);
      var (a0, x) := (a[..p], a[p..]);
      assert a == a0 + x && a + b == a0 + (x + b);
      LogLinesAppend(a0, x);
      LogLinesAppend(a0, x + b);
      LogLinesOfRest(x);
      Continued(x, b);
      var q := Find(b, "\n", 0);
      OneChar(b, "\n", 0);
      var first := if q == -1 then b else b[..q];
      assert first == "" <==> b[0] == '\n';
      assert x + first == x <==> first == "";
    }
  }

  /** A pass over `a` and then one over `b`, whatever that is: if it is shorter, it is another file and read from
      its start, otherwise from where the first pass ended. */
  method TwoFiles(collector: Collector, fileName: string, a: string, b: string)
    requires collector.posFile.Valid() && fileName != "" && GoodName(BaseName(fileName))
    requires BaseName(fileName) in collector.posFile.Map() && collector.posFile.Map()[BaseName(fileName)] == (0, 0)
    requires |a| < 0x8000_0000_0000_0000 && |b| < 0x8000_0000_0000_0000
    modifies collector, collector.posFile
    ensures collector.pushed ==
            old(collector.pushed) + LogLines(a) + LogLines(if |b| < |a| then b else b[|a|..])
  {
    hide BaseName, Good, GoodSep, Render, ToMap, LogLines, Safe;
    assert a[0..] == a && b[0..] == b;
    collector.CollectFile(fileName, a);
    collector.CollectFile(fileName, b);
  }

  /** When `b` was added to the file: the same condition as for the texts decides whether the lines of the whole
      file were pushed. */
  method TwoPasses(collector: Collector, fileName: string, a: string, b: string)
    requires collector.posFile.Valid() && fileName != "" && GoodName(BaseName(fileName))
    requires BaseName(fileName) in collector.posFile.Map() && collector.posFile.Map()[BaseName(fileName)] == (0, 0)
    requires |a + b| < 0x8000_0000_0000_0000
    modifies collector, collector.posFile
    ensures collector.pushed == old(collector.pushed) + LogLines(a) + LogLines(b)
    ensures collector.pushed == old(collector.pushed) + LogLines(a + b) <==>
            LineStart(a, |a|) || b == "" || b[0] == '\n'
  {
    hide BaseName, Good, GoodSep, Render, ToMap, LogLines, Safe;
    assert (a + b)[|a|..] == b;
    TwoFiles(collector, fileName, a, a + b);
    LogLinesSplit(a, b);
    ghost var before := old(collector.pushed);
    SameRest(before, LogLines(a) + LogLines(b), LogLines(a + b));
    assert before + LogLines(a) + LogLines(b) == before + (LogLines(a) + LogLines(b));
  }

  lemma SameRest(before: seq<string>, x: seq<string>, y: seq<string>)
    ensures before + x == before + y <==> x == y
  {
    assert (before + x)[|before|..] == x && (before + y)[|before|..] == y;
  }

  /** The line `abc` in two pieces. */
  lemma TornLine()
    ensures LogLines("ab" + "c\n") == ["abc"] && LogLines("ab") + LogLines("c\n") == ["ab", "c"]
  {
    hide Lines, NonEmpty;
    LogLinesOfRest("ab");
    LinesOfOne("c");
    LinesOfOne("abc");
    assert "c" + "\n" == "c\n" && "abc" + "\n" == "ab" + "c\n";
    NonEmptyCons("c", []);
    NonEmptyCons("abc", []);
    NonEmptyOfNone();
    assert ["c"] + [] == ["c"] && ["abc"] + [] == ["abc"];
  }

  /** A file cut down to a shorter one is read from its start, but no longer once it has grown to the recorded
      size: then the line `cd` is never pushed. */
  lemma CutAndGrown(record: (int, int), cut: string, later: string)
    requires record == (5, 5) && cut == "ab\n" && later == "ab\ncd\n"
    ensures cut <= later && Resume(record, cut) == 0 && Resume(record, later) == 5
    ensures LogLines(later) == ["ab", "cd"] && LogLines(later[5..]) == []
  {
    hide Lines, NonEmpty;
    LinesOfOne("");
    assert later[5..] == "" + "\n" && later == cut + "cd\n" && cut == "ab" + "\n" && "cd" + "\n" == "cd\n";
    LinesOfOne("ab");
    LinesOfOne("cd");
    LogLinesAppend(cut, "cd\n");
    NonEmptyCons("", []);
    NonEmptyCons("ab", []);
    NonEmptyCons("cd", []);
    NonEmptyOfNone();
    assert [""] + [] == [""] && ["ab"] + [] == ["ab"] && ["cd"] + [] == ["cd"];
  }

  lemma LogLinesOfRest(x: string)
    requires x != "" && '\n' !in x
    ensures LogLines(x) == [x]
  {
    LinesOfRest(x);
    KeptSnoc([], [], x, true);
    assert [] + [x] == [x];
  }
}
