/** The position file of Plugin/filelog/FileLogMgr.cpp: a text file, written in place, that works as a
    map from log file names to a reading position and a file size. */
module PosFile {
  import opened Text

  const WIDTH := 80

  datatype Record = Record(name: string, pos: Int64, size: Int64)

  /** `strFileName.substr(strFileName.rfind("/") + 1)` */
  function BaseName(path: string): (name: string)
    ensures '/' !in name && |name| <= |path| && name == path[|path| - |name|..]
  {
    if path == "" || path[|path| - 1] == '/' then "" else BaseName(path[..|path| - 1]) + [path[|path| - 1]]
  }

  /** A '/' stands before the name unless it is the whole path. */
  lemma {:induction false} BaseNameIs(path: string)
    ensures var n := |path| - |BaseName(path)|;
            n > 0 ==> path[n - 1] == '/'
    decreases |path|
  {
    if path != "" && path[|path| - 1] != '/' {
      BaseNameIs(path[..|path| - 1]);
    }
  }

  /** A separator that cannot be taken for a part of the numbers around it. */
  predicate GoodSep(sep: string) {
    |sep| == 1 && !IsDigit(sep[0]) && sep[0] !in " -+\n"
  }

  /** A name that is one line, and that is not as long as the lines with the numbers. */
  predicate GoodName(name: string) { '\n' !in name && |name| != WIDTH }

  /** `left << setw(n)` */
  function SetWidth(s: string, n: nat): (r: string)
    ensures |s| <= n ==> |r| == n
  {
    if |s| < n then s + seq(n - |s|, _ => ' ') else s
  }

  /** `line` is `text` and blanks up to 80 characters. */
  predicate FillsLine(line: string, text: string) {
    && |line| == 80 && |text| <= 80 && line[..|text|] == text
    && forall i | |text| <= i < 80 :: line[i] == ' '
  }

  lemma WidthFills(text: string)
    requires |text| <= 80
    ensures FillsLine(SetWidth(text, WIDTH), text)
  {
  }

  function Info(r: Record, sep: string): string { SignedDecimal(r.pos) + sep + SignedDecimal(r.size) }

  function InfoLine(r: Record, sep: string): string { SetWidth(Info(r, sep), WIDTH) }

  function RecordText(r: Record, sep: string): string { r.name + "\n" + (InfoLine(r, sep) + "\n") }

  /** The whole file. */
  function Render(recs: seq<Record>, sep: string): string {
    if recs == [] then "" else Render(recs[..|recs| - 1], sep) + RecordText(recs[|recs| - 1], sep)
  }

  /** The place of the numbers of record `i`: what `ReadPos` gives as `markPos`. */
  function InfoOffset(recs: seq<Record>, i: nat, sep: string): nat
    requires i < |recs|
  {
    |Render(recs[..i], sep)| + |recs[i].name| + 1
  }

  lemma InfoLineShape(r: Record, sep: string)
    requires GoodSep(sep)
    ensures |InfoLine(r, sep)| == WIDTH && '\n' !in InfoLine(r, sep)
  {
    hide Decimal;
    Int64Length(r.pos);
    Int64Length(r.size);
  }

  lemma InfoFits(r: Record, sep: string)
    requires GoodSep(sep)
    ensures |Info(r, sep)| <= 80
  {
    hide Decimal;
    Int64Length(r.pos);
    Int64Length(r.size);
  }

  /** A record at the end of a text. */
  lemma Ends(content: string, name: string, line: string)
    requires |line| == 80
    ensures var (now, at) := (content + (name + "\n" + (line + "\n")), |content + name + "\n"|);
            && |now| == at + 81 && now[..at] == content + name + "\n" && now[at..at + 80] == line
            && now[at + 80] == '\n'
  {
    var at := |content + name + "\n"|;
    assert content + (name + "\n" + (line + "\n")) == (content + name + "\n") + line + "\n";
  }

  lemma {:induction false} RenderSplit(recs: seq<Record>, i: nat, sep: string)
    requires i < |recs|
    ensures Render(recs, sep) == Render(recs[..i], sep) + (RecordText(recs[i], sep) + Tail(recs, i + 1, sep))
    decreases |recs|
  {
    hide RecordText;
    var front := recs[..|recs| - 1];
    if i < |front| {
      RenderSplit(front, i, sep);
      assert front[..i] == recs[..i];
    }
  }

  /** The records from `i` on. */
  function Tail(recs: seq<Record>, i: nat, sep: string): string
    requires i <= |recs|
    decreases |recs|
  {
    if i == |recs| then "" else Tail(recs[..|recs| - 1], i, sep) + RecordText(recs[|recs| - 1], sep)
  }

  /** The numbers read back. */
  lemma InfoParses(r: Record, sep: string)
    requires GoodSep(sep)
    ensures var pieces := NonEmpty(Pieces(InfoLine(r, sep), sep));
            |pieces| == 2 && Atoll(pieces[0]) == r.pos && Atoll(pieces[1]) == r.size
  {
    hide Decimal, Atoll, Pieces, Join, NonEmpty;
    var (a, b) := (SignedDecimal(r.pos), SignedDecimal(r.size));
    Int64Length(r.pos);
    Int64Length(r.size);
    var pad := seq(WIDTH - |a + sep + b|, _ => ' ');
    var pieces := [a, b + pad];
    assert InfoLine(r, sep) == a + sep + (b + pad);
    JoinOfTwo(a, b + pad, sep);
    PiecesOfJoin(pieces, sep);
    NonEmptyOfTwo(a, b + pad);
    AtollOfDecimal(r.pos, "");
    assert a + "" == a;
    AtollOfDecimal(r.size, pad);
  }

  lemma JoinOfTwo(a: string, b: string, sep: string)
    ensures Join([a, b], sep) == a + sep + b
  {
    var pieces := [a, b];
    calc {
      Join(pieces, sep);
      pieces[0] + sep + Join(pieces[1..], sep);
      { assert pieces[1..] == [b]; }
      a + sep + Join([b], sep);
      a + sep + b;
    }
  }

  lemma NonEmptyOfTwo(a: string, b: string)
    requires a != "" && b != ""
    ensures NonEmpty([a, b]) == [a, b]
  {
    KeptSnoc([], [], a, true);
    KeptSnoc([], [a], b, true);
    assert [] + [a] == [a] && [a] + [b] == [a, b];
  }

  // The records as a map.

  ghost predicate Distinct(recs: seq<Record>) {
    forall i, j | 0 <= i < j < |recs| :: recs[i].name != recs[j].name
  }

  function ToMap(recs: seq<Record>): map<string, (int, int)> {
    if recs == [] then map[]
    else ToMap(recs[..|recs| - 1])[recs[|recs| - 1].name := (recs[|recs| - 1].pos, recs[|recs| - 1].size)]
  }

  lemma {:induction false} LookUp(recs: seq<Record>, name: string)
    requires Distinct(recs)
    ensures name in ToMap(recs) <==> exists i :: 0 <= i < |recs| && recs[i].name == name
    ensures forall i | 0 <= i < |recs| && recs[i].name == name :: ToMap(recs)[name] == (recs[i].pos, recs[i].size)
  {
    if recs != [] {
      var front := recs[..|recs| - 1];
      LookUp(front, name);
      assert name in ToMap(front) ==> exists i :: 0 <= i < |front| && recs[i].name == name;
    }
  }

  lemma {:induction false} MapOfUpdate(recs: seq<Record>, i: nat, r: Record)
    requires i < |recs| && recs[i].name == r.name && Distinct(recs)
    ensures ToMap(recs[i := r]) == ToMap(recs)[r.name := (r.pos, r.size)]
    decreases |recs|
  {
    hide ToMap;
    var (n, now) := (|recs| - 1, recs[i := r]);
    ToMapOnce(recs);
    ToMapOnce(now);
    if i < n {
      assert recs[n].name != r.name;
      MapOfUpdate(recs[..n], i, r);
      assert now[..n] == recs[..n][i := r] && now[n] == recs[n];
    } else {
      assert now[..n] == recs[..n];
    }
  }

  lemma ToMapOnce(recs: seq<Record>)
    requires recs != []
    ensures var (front, last) := (recs[..|recs| - 1], recs[|recs| - 1]);
            ToMap(recs) == ToMap(front)[last.name := (last.pos, last.size)]
  {
  }

  lemma DistinctAfterUpdate(recs: seq<Record>, i: nat, r: Record)
    requires i < |recs| && recs[i].name == r.name && Distinct(recs)
    ensures Distinct(recs[i := r])
  {
  }

  lemma {:induction false} TailOfUpdate(recs: seq<Record>, i: nat, r: Record, sep: string)
    requires i < |recs|
    ensures Tail(recs[i := r], i + 1, sep) == Tail(recs, i + 1, sep)
    decreases |recs|
  {
    if i + 1 < |recs| {
      TailOfUpdate(recs[..|recs| - 1], i, r, sep);
      assert recs[i := r][..|recs| - 1] == recs[..|recs| - 1][i := r];
    }
  }

  /** The new numbers of record `i` replace its old ones, and nothing else changes. */
  lemma RenderOfUpdate(recs: seq<Record>, i: nat, r: Record, sep: string)
    requires i < |recs| && recs[i].name == r.name && GoodSep(sep)
    ensures var (at, content) := (InfoOffset(recs, i, sep), Render(recs, sep));
            && at + WIDTH <= |content|
            && Render(recs[i := r], sep) == content[..at] + InfoLine(r, sep) + content[at + WIDTH..]
  {
    hide Render, InfoLine, Tail;
    InfoLineShape(recs[i], sep);
    InfoLineShape(r, sep);
    RenderSplit(recs, i, sep);
    RenderSplit(recs[i := r], i, sep);
    TailOfUpdate(recs, i, r, sep);
    assert recs[i := r][..i] == recs[..i];
    Overwrite(Render(recs[..i], sep), r.name + "\n", InfoLine(recs[i], sep), InfoLine(r, sep),
              "\n", Tail(recs, i + 1, sep));
  }

  lemma Overwrite(a: string, b: string, old': string, new': string, c: string, d: string)
    ensures var (s, at) := (a + (b + (old' + c) + d), |a| + |b|);
            a + (b + (new' + c) + d) == s[..at] + new' + s[at + |old'|..]
  {
    var (s, at) := (a + (b + (old' + c) + d), |a| + |b|);
    assert s[..at] == a + b && s[at + |old'|..] == c + d;
  }

  /** Overwriting numbers moves no record. */
  lemma {:induction false} OffsetsStay(recs: seq<Record>, i: nat, r: Record, j: nat, sep: string)
    requires i < |recs| && recs[i].name == r.name && GoodSep(sep) && j <= |recs|
    ensures |Render(recs[i := r][..j], sep)| == |Render(recs[..j], sep)|
    decreases j
  {
    hide InfoLine;
    if j > 0 {
      OffsetsStay(recs, i, r, j - 1, sep);
      var (now, was) := (recs[i := r][..j], recs[..j]);
      assert now[..j - 1] == recs[i := r][..j - 1] && was[..j - 1] == recs[..j - 1];
      InfoLineShape(now[j - 1], sep);
      InfoLineShape(was[j - 1], sep);
    }
  }

  /** Records that can be told apart, each on lines of its own. */
  ghost predicate Good(recs: seq<Record>) {
    Distinct(recs) && forall i | 0 <= i < |recs| :: GoodName(recs[i].name)
  }

  /** `at` is where the numbers of the record `name` are. */
  ghost predicate Marked(recs: seq<Record>, sep: string, at: int, name: string) {
    exists i :: IsMark(recs, sep, at, name, i)
  }

  ghost predicate IsMark(recs: seq<Record>, sep: string, at: int, name: string, i: int) {
    0 <= i < |recs| && recs[i].name == name && at == InfoOffset(recs, i, sep)
  }

  lemma MarkFound(recs: seq<Record>, sep: string, at: int, name: string, i: nat)
    requires IsMark(recs, sep, at, name, i)
    ensures Marked(recs, sep, at, name)
  {
  }

  /** A record more. */
  lemma Appended(recs: seq<Record>, r: Record, sep: string)
    requires Good(recs) && r.name !in ToMap(recs) && GoodName(r.name)
    ensures Good(recs + [r]) && ToMap(recs + [r]) == ToMap(recs)[r.name := (r.pos, r.size)]
    ensures Render(recs + [r], sep) == Render(recs, sep) + RecordText(r, sep)
    ensures forall at, name | Marked(recs, sep, at, name) :: Marked(recs + [r], sep, at, name)
  {
    hide RecordText;
    var now := recs + [r];
    assert now[..|recs|] == recs;
    LookUp(recs, r.name);
    forall at, name | Marked(recs, sep, at, name) ensures Marked(now, sep, at, name) {
      var i :| IsMark(recs, sep, at, name, i);
      assert now[..i] == recs[..i];
      assert IsMark(now, sep, at, name, i);
    }
  }

  /** New numbers for record `i`. */
  lemma Updated(recs: seq<Record>, i: nat, r: Record, sep: string)
    requires Good(recs) && i < |recs| && recs[i].name == r.name && GoodSep(sep)
    ensures Good(recs[i := r]) && ToMap(recs[i := r]) == ToMap(recs)[r.name := (r.pos, r.size)]
    ensures forall at, name | Marked(recs, sep, at, name) :: Marked(recs[i := r], sep, at, name)
  {
    hide Render, GoodSep, GoodName, ToMap;
    MapOfUpdate(recs, i, r);
    DistinctAfterUpdate(recs, i, r);
    var now := recs[i := r];
    forall at, name | Marked(recs, sep, at, name) ensures Marked(now, sep, at, name) {
      var j :| IsMark(recs, sep, at, name, j);
      OffsetsStay(recs, i, r, j, sep);
      assert IsMark(now, sep, at, name, j);
    }
  }

  class PositionFile {
    /** The file. */
    var content: string
    const sep: string
    ghost var recs: seq<Record>

    ghost predicate Valid()
      reads this
    {
      GoodSep(sep) && content == Render(recs, sep) && Good(recs)
    }

    ghost function Map(): map<string, (int, int)>
      reads this
    {
      ToMap(recs)
    }

    ghost predicate Marks(at: int, name: string)
      reads this
    {
      Marked(recs, sep, at, name)
    }

    /** A new, empty file. */
    constructor (sep: string)
      requires GoodSep(sep)
      ensures Valid() && this.sep == sep && Map() == map[]
    {
      this.sep := sep;
      content := "";
      recs := [];
    }

    /** The numbers of a file become `posCurrent` and `fileSize`: in place at `markPos`, or, when that
        is negative, in a new record at the end.  Every mark that was valid stays valid. */
    method MarkPos(markPos: int, strFileName: string, posCurrent: Int64, fileSize: Int64)
      requires Valid()
      requires strFileName != "" ==>
        var name := BaseName(strFileName);
        if markPos < 0 then name !in Map() && GoodName(name) else Marks(markPos, name)
      modifies this
      ensures Valid()
      ensures strFileName == "" ==> content == old(content) && Map() == old(Map())
      ensures strFileName != "" ==> Map() == old(Map())[BaseName(strFileName) := (posCurrent, fileSize)]
      ensures strFileName != "" && markPos >= 0 ==>
        && |content| == |old(content)| && markPos + 80 <= |content|
        && FillsLine(content[markPos..markPos + 80], SignedDecimal(posCurrent) + sep + SignedDecimal(fileSize))
        && forall k | 0 <= k < |content| && !(markPos <= k < markPos + WIDTH) :: content[k] == old(content)[k]
      ensures strFileName != "" && markPos < 0 ==>
        var at := |old(content) + BaseName(strFileName) + "\n"|;
        && |content| == at + 81 && content[..at] == old(content) + BaseName(strFileName) + "\n"
        && content[at + 80] == '\n'
        && FillsLine(content[at..at + 80], SignedDecimal(posCurrent) + sep + SignedDecimal(fileSize))
      ensures forall at, name | old(Marks(at, name)) :: Marks(at, name)
    {
      hide Good, ToMap, Marked, GoodSep, GoodName, BaseName;
      if strFileName == "" {
        return;
      }
      var strName := BaseName(strFileName);
      var strFileInfo := SignedDecimal(posCurrent) + sep + SignedDecimal(fileSize);
      if markPos < 0 {
        AddRecord(strName, strFileInfo, posCurrent, fileSize);
      } else {
        Overwrite80(markPos, strName, strFileInfo, posCurrent, fileSize);
      }
    }

    /** A new record at the end of the file. */
    method AddRecord(strName: string, strFileInfo: string, ghost pos: Int64, ghost size: Int64)
      requires Valid() && strName !in Map() && GoodName(strName)
      requires strFileInfo == Info(Record(strName, pos, size), sep)
      modifies this
      ensures Valid() && Map() == old(Map())[strName := (pos, size)]
      ensures var at := |old(content) + strName + "\n"|;
        && |content| == at + 81 && content[..at] == old(content) + strName + "\n" && content[at + 80] == '\n'
        && FillsLine(content[at..at + 80], strFileInfo)
      ensures forall at, name | old(Marks(at, name)) :: Marks(at, name)
    {
      hide Render, Good, ToMap, Marked, GoodSep, GoodName, SetWidth;
      ghost var r := Record(strName, pos, size);
      Appended(recs, r, sep);
      InfoFits(r, sep);
      WidthFills(strFileInfo);
      Ends(content, strName, SetWidth(strFileInfo, WIDTH));
      content := content + (strName + "\n" + (SetWidth(strFileInfo, WIDTH) + "\n"));
      recs := recs + [r];
    }

    /** The numbers of a record, in place. */
    method Overwrite80(markPos: nat, strName: string, strFileInfo: string, ghost pos: Int64, ghost size: Int64)
      requires Valid() && Marks(markPos, strName) && strFileInfo == Info(Record(strName, pos, size), sep)
      modifies this
      ensures Valid() && Map() == old(Map())[strName := (pos, size)] && |content| == |old(content)|
      ensures markPos + 80 <= |content| && FillsLine(content[markPos..markPos + 80], strFileInfo)
      ensures forall k | 0 <= k < |content| && !(markPos <= k < markPos + WIDTH) :: content[k] == old(content)[k]
      ensures forall at, name | old(Marks(at, name)) :: Marks(at, name)
    {
      hide Render, Good, ToMap, Marked, GoodSep, GoodName, SetWidth;
      ghost var r := Record(strName, pos, size);
      ghost var i := MarkIndex(markPos, strName);
      InfoLineShape(r, sep);
      InfoFits(r, sep);
      WidthFills(strFileInfo);
      RenderOfUpdate(recs, i, r, sep);
      Updated(recs, i, r, sep);
      content := content[..markPos] + SetWidth(strFileInfo, WIDTH) + content[markPos + WIDTH..];
      recs := recs[i := r];
    }

    ghost method MarkIndex(at: int, name: string) returns (i: nat)
      requires Marks(at, name)
      ensures IsMark(recs, sep, at, name, i)
    {
      i :| IsMark(recs, sep, at, name, i);
    }

    /** The line with numbers at `cursor`.  The branch of the source for a line with fewer than two
        numbers is never taken. */
    method ReadInfo(cursor: nat, ghost i: nat) returns (posCurrent: int, fileSize: int)
      requires Valid() && i < |recs| && cursor == InfoOffset(recs, i, sep)
      ensures (posCurrent, fileSize) == (recs[i].pos, recs[i].size)
    {
      hide Render, GetLine, InfoLine, Atoll, Pieces, NonEmpty;
      Next(recs, i, true, sep);
      InfoParses(recs[i], sep);
      var info := GetLine(content, cursor);
      var pieces := StringSplit(info.text, sep, [], true);
      return Atoll(pieces[0]), Atoll(pieces[1]);
    }

    /** The search for the record of a name. */
    method FindRecord(strName: string) returns (found: bool, markPos: int, posCurrent: int, fileSize: int)
      requires Valid() && |strName| != WIDTH
      ensures found <==> strName in Map()
      ensures found ==> Map()[strName] == (posCurrent, fileSize) && Marks(markPos, strName) && markPos >= 0
      ensures !found ==> (markPos, posCurrent, fileSize) == (-1, 0, 0)
    {
      hide Render, Good, ToMap, GoodSep, GetLine, InfoLine, InfoOffset, Marked, Start;
      LookUpGood(recs, strName);
      var cursor := 0;
      // Record `i` is next, or, if `half`, its second line.
      ghost var i, half := 0, false;
      StartOfNone(recs, sep);
      while true
        invariant 0 <= i <= |recs| && (half ==> i < |recs| && recs[i].name != strName)
        invariant cursor == if half then InfoOffset(recs, i, sep) else Start(recs, i, sep)
        invariant forall j | 0 <= j < i :: recs[j].name != strName
        decreases |content| - cursor
      {
        NextLine(recs, i, half, sep, content, cursor, strName);
        var line := GetLine(content, cursor);
        if line.NoLine? {
          return false, -1, 0, 0;
        }
        cursor := line.next;
        if line.text == strName {
          markPos := line.tell;
          MarkFound(recs, sep, markPos, strName, i);
          posCurrent, fileSize := ReadInfo(cursor, i);
          return true, markPos, posCurrent, fileSize;
        }
        if half {
          i := i + 1;
        }
        half := !half;
      }
    }

    /** The numbers of a file and the place where they are.  The last three results keep the values
        that the caller passes when there is nothing to look for. */
    method ReadPos(strFileName: string, markPos0: int, posCurrent0: int, fileSize0: int)
      returns (found: bool, markPos: int, posCurrent: int, fileSize: int)
      requires Valid() && |BaseName(strFileName)| != WIDTH
      ensures strFileName == "" ==> !found && (markPos, posCurrent, fileSize) == (markPos0, posCurrent0, fileSize0)
      ensures strFileName != "" ==>
        var name := BaseName(strFileName);
        && (found <==> name in Map())
        && (found ==> Map()[name] == (posCurrent, fileSize) && Marks(markPos, name) && markPos >= 0)
        && (!found ==> (markPos, posCurrent, fileSize) == (-1, 0, 0))
    {
      hide BaseName, Good, GoodSep, Render, ToMap, Marked;
      if strFileName == "" {
        return false, markPos0, posCurrent0, fileSize0;
      }
      found, markPos, posCurrent, fileSize := FindRecord(BaseName(strFileName));
    }

    /** `InitPosFile` on a file that exists: every log file gets a record, those that have one keep it. */
    method InitPosFile(names: seq<string>)
      requires Valid() && forall name | name in names :: GoodName(BaseName(name))
      modifies this
      ensures Valid() && forall name | name in names && name != "" :: BaseName(name) in Map()
      ensures forall k | k in old(Map()) :: k in Map() && Map()[k] == old(Map())[k]
      ensures forall k | k in Map() && k !in old(Map()) :: Map()[k] == (0, 0)
      ensures forall at, name | old(Marks(at, name)) :: Marks(at, name)
    {
      hide Render, Good, ToMap, Marked, GoodSep, BaseName;
      for i := 0 to |names|
        invariant Valid() && forall name | name in names[..i] && name != "" :: BaseName(name) in Map()
        invariant forall k | k in old(Map()) :: k in Map() && Map()[k] == old(Map())[k]
        invariant forall k | k in Map() && k !in old(Map()) :: Map()[k] == (0, 0)
        invariant forall at, name | old(Marks(at, name)) :: Marks(at, name)
      {
        var found, markPos, posCurrent, fileSize := ReadPos(names[i], 0, 0, 0);
        if !found {
          MarkPos(-1, names[i], 0, 0);
        }
      }
    }
  }

  lemma LookUpGood(recs: seq<Record>, name: string)
    requires Good(recs)
    ensures name in ToMap(recs) <==> exists i :: 0 <= i < |recs| && recs[i].name == name
    ensures forall i | 0 <= i < |recs| && recs[i].name == name :: ToMap(recs)[name] == (recs[i].pos, recs[i].size)
  {
    LookUp(recs, name);
  }

  lemma {:induction false} NumbersFit(recs: seq<Record>, name: string)
    requires name in ToMap(recs)
    ensures var (pos, size) := ToMap(recs)[name];
            && -0x8000_0000_0000_0000 <= pos < 0x8000_0000_0000_0000
            && -0x8000_0000_0000_0000 <= size < 0x8000_0000_0000_0000
    decreases |recs|
  {
    if recs != [] && recs[|recs| - 1].name != name {
      NumbersFit(recs[..|recs| - 1], name);
    }
  }

  lemma LineLength(r: Record, sep: string)
    requires GoodSep(sep)
    ensures |InfoLine(r, sep)| == WIDTH
  {
    InfoLineShape(r, sep);
  }

  /** What `getline` finds while it goes through the records. */
  lemma Next(recs: seq<Record>, i: nat, half: bool, sep: string)
    requires Good(recs) && GoodSep(sep) && i <= |recs| && (half ==> i < |recs|)
    ensures var content := Render(recs, sep);
            if i == |recs| then GetLine(content, |Render(recs[..i], sep)|) == NoLine
            else
              var (start, at) := (|Render(recs[..i], sep)|, InfoOffset(recs, i, sep));
              var next := |Render(recs[..i + 1], sep)|;
              && start < at < next <= |content|
              && GetLine(content, start) == Line(recs[i].name, at, at)
              && GetLine(content, at) == Line(InfoLine(recs[i], sep), next, next)
  {
    hide GetLine, InfoLine, Tail;
    if i == |recs| {
      assert recs[..i] == recs;
      NoLineAtEnd(Render(recs, sep));
    } else {
      var r := recs[i];
      RenderSplit(recs, i, sep);
      InfoLineShape(r, sep);
      assert recs[..i + 1][..i] == recs[..i];
      var (before, after) := (Render(recs[..i], sep), Tail(recs, i + 1, sep));
      var content := Render(recs, sep);
      assert content == before + (r.name + "\n" + (InfoLine(r, sep) + "\n" + after));
      GetLineAt(before, r.name, InfoLine(r, sep) + "\n" + after);
      assert content == (before + r.name + "\n") + (InfoLine(r, sep) + "\n" + after);
      GetLineAt(before + r.name + "\n", InfoLine(r, sep), after);
    }
  }

  /** Where record `i` begins. */
  function Start(recs: seq<Record>, i: nat, sep: string): nat
    requires i <= |recs|
  {
    |Render(recs[..i], sep)|
  }

  lemma StartOfNone(recs: seq<Record>, sep: string)
    ensures Start(recs, 0, sep) == 0
  {
  }

  /** What the line at `cursor` says to someone who looks for `name`. */
  lemma NextLine(recs: seq<Record>, i: nat, half: bool, sep: string, content: string, cursor: nat, name: string)
    requires Good(recs) && GoodSep(sep) && i <= |recs| && (half ==> i < |recs|) && content == Render(recs, sep)
    requires cursor == (if half then InfoOffset(recs, i, sep) else Start(recs, i, sep)) && |name| != WIDTH
    ensures var line := GetLine(content, cursor);
            if i == |recs| then line.NoLine?
            else
              && line.Line? && cursor < line.next <= |content|
              && (half ==> line.text != name && line.next == Start(recs, i + 1, sep))
              && (!half ==> line.text == recs[i].name && line.tell == line.next == InfoOffset(recs, i, sep))
  {
    hide Render, Good, GoodSep, GetLine, InfoLine;
    Next(recs, i, half, sep);
    if half {
      LineLength(recs[i], sep);
    }
  }

  lemma NoLineAtEnd(s: string)
    ensures GetLine(s, |s|) == NoLine
  {
  }
}
