/** The state line of the heartbeat, Agent/BDScModuleMgr.cpp, and its way back through `string_split`. */
module ModuleState {
  import opened Text

  class ScModule {
    const id: nat
    var bIsRunning: bool

    constructor (id: nat)
      ensures this.id == id && !bIsRunning
    {
      this.id, bIsRunning := id, false;
    }
  }

  function Bit(b: bool): string { if b then "1" else "0" }

  /** `%u%s%d`. */
  function OneRecord(id: nat, running: bool, fsep: string): string { Decimal(id) + fsep + Bit(running) }

  function Records(ids: seq<nat>, running: seq<bool>, fsep: string): (r: seq<string>)
    requires |ids| == |running|
    ensures |r| == |ids| && forall i | 0 <= i < |r| :: r[i] == OneRecord(ids[i], running[i], fsep)
  {
    seq(|ids|, i requires 0 <= i < |ids| => OneRecord(ids[i], running[i], fsep))
  }

  /** Each record with a separator after it. */
  function Ended(records: seq<string>, rsep: string): string {
    if records == [] then "" else Ended(records[..|records| - 1], rsep) + records[|records| - 1] + rsep
  }

  /** The line, without its last character. */
  function StateLine(records: seq<string>, rsep: string): string {
    var s := Ended(records, rsep);
    if s == "" then "" else s[..|s| - 1]
  }

  function Ids(list: seq<ScModule>): (r: seq<nat>)
    ensures |r| == |list| && forall i | 0 <= i < |list| :: r[i] == list[i].id
  {
    seq(|list|, i requires 0 <= i < |list| => list[i].id)
  }

  /** `GetModuleStateString`; `answers` is what the modules answer when asked whether they run. */
  method GetModuleStateString(list: seq<ScModule>, answers: seq<bool>, fsep: string, rsep: string)
    returns (line: string)
    requires |answers| == |list| && forall i, j | 0 <= i < j < |list| :: list[i] != list[j]
    modifies list
    ensures forall i | 0 <= i < |list| :: list[i].bIsRunning == answers[i]
    ensures line == StateLine(Records(Ids(list), answers, fsep), rsep)
  {
    line := "";
    ghost var records := Records(Ids(list), answers, fsep);
    for k := 0 to |list|
      invariant forall i | 0 <= i < k :: list[i].bIsRunning == answers[i]
      invariant line == Ended(records[..k], rsep)
    {
      list[k].bIsRunning := answers[k];
      var chTemp := OneRecord(list[k].id, list[k].bIsRunning, fsep);
      assert records[..k + 1][..k] == records[..k];
      line := line + chTemp;
      line := line + rsep;
    }
    assert records[..|list|] == records;
    if |line| > 0 {
      line := line[..|line| - 1];
    }
  }

  lemma {:induction false} EndedIsJoined(records: seq<string>, rsep: string)
    requires records != []
    ensures Ended(records, rsep) == Join(records, rsep) + rsep
    decreases |records|
  {
    var n := |records|;
    if n == 1 {
      assert records[..0] == [];
      assert "" + records[0] + rsep == records[0] + rsep;
    } else {
      EndedIsJoined(records[..n - 1], rsep);
      JoinSnoc(records[..n - 1], records[n - 1], rsep);
      assert records == records[..n - 1] + [records[n - 1]];
    }
  }

  lemma {:induction false} JoinSnoc(pieces: seq<string>, last: string, sep: string)
    requires pieces != []
    ensures Join(pieces + [last], sep) == Join(pieces, sep) + sep + last
    decreases |pieces|
  {
    if |pieces| == 1 {
      assert (pieces + [last])[1..] == [last];
    } else {
      assert (pieces + [last])[1..] == pieces[1..] + [last];
      JoinSnoc(pieces[1..], last, sep);
      var (a, b) := (pieces[0], Join(pieces[1..], sep));
      assert a + sep + (b + sep + last) == a + sep + b + sep + last;
    }
  }

  /** With a separator of one character the last character is the last separator. */
  lemma LineIsJoined(records: seq<string>, rsep: string)
    requires records != [] && |rsep| == 1
    ensures StateLine(records, rsep) == Join(records, rsep)
  {
    hide Ended;
    EndedIsJoined(records, rsep);
  }

  /** With any separator: the line and the character that was cut off are the records with a separator after each. */
  lemma LineAndLast(records: seq<string>, rsep: string)
    requires records != [] && rsep != ""
    ensures StateLine(records, rsep) + [rsep[|rsep| - 1]] == Join(records, rsep) + rsep
  {
    hide Ended;
    EndedIsJoined(records, rsep);
  }

  predicate Separator(sep: string) { |sep| == 1 && !IsDigit(sep[0]) }

  lemma {:induction false} AllKept(pieces: seq<string>)
    requires forall i | 0 <= i < |pieces| :: pieces[i] != ""
    ensures NonEmpty(pieces) == pieces
    decreases |pieces|
  {
    if pieces != [] {
      AllKept(pieces[..|pieces| - 1]);
      assert pieces == pieces[..|pieces| - 1] + [pieces[|pieces| - 1]];
    }
  }

  /** Splitting the line by record, with or without `btrim`, gives the records of the modules. */
  lemma RecordsOfLine(ids: seq<nat>, running: seq<bool>, fsep: string, rsep: string, btrim: bool)
    requires |ids| == |running| > 0 && Separator(fsep) && Separator(rsep) && fsep != rsep
    ensures var records := Records(ids, running, fsep);
            Kept(Pieces(StateLine(records, rsep), rsep), btrim) == records
  {
    hide Pieces, Join, StateLine, Decimal;
    var records := Records(ids, running, fsep);
    forall piece | piece in records ensures rsep[0] !in piece && piece != "" {
      var i :| 0 <= i < |records| && records[i] == piece;
      assert piece == Decimal(ids[i]) + fsep + Bit(running[i]);
      assert fsep[0] != rsep[0];
    }
    LineIsJoined(records, rsep);
    PiecesOfJoin(records, rsep);
    AllKept(records);
  }

  /** Splitting a record by field gives the number of the module and its state. */
  lemma FieldsOfRecord(id: nat, running: bool, fsep: string, btrim: bool)
    requires Separator(fsep)
    ensures Kept(Pieces(OneRecord(id, running, fsep), fsep), btrim) == [Decimal(id), Bit(running)]
    ensures Number(Decimal(id)) == id && Bit(running) == (if running then "1" else "0")
  {
    hide Pieces, Decimal, Number;
    var pieces := [Decimal(id), Bit(running)];
    assert pieces[1..] == [Bit(running)];
    assert Join(pieces, fsep) == OneRecord(id, running, fsep);
    PiecesOfJoin(pieces, fsep);
    AllKept(pieces);
    NumberOfDecimal(id);
  }

  method ReadRecord(record: string, fsep: string, ghost id: nat, ghost running: bool)
    returns (gotId: nat, gotRunning: bool)
    requires Separator(fsep) && record == OneRecord(id, running, fsep)
    ensures gotId == id && gotRunning == running
  {
    hide Pieces, OneRecord, Decimal, Number, Kept;
    var fields := StringSplit(record, fsep, [], true);
    FieldsOfRecord(id, running, fsep, true);
    assert fields == [Decimal(id), Bit(running)];
    gotId, gotRunning := Number(fields[0]), fields[1] == "1";
  }

  /** The records of the line, without the empty ones, as `string_split` gives them. */
  method ReadRecords(ids: seq<nat>, running: seq<bool>, fsep: string, rsep: string) returns (records: seq<string>)
    requires |ids| == |running| && Separator(fsep) && Separator(rsep) && fsep != rsep
    ensures records == Records(ids, running, fsep)
  {
    hide Pieces, Records, StateLine, Kept;
    var line := StateLine(Records(ids, running, fsep), rsep);
    records := StringSplit(line, rsep, [], true);
    if ids == [] {
      EmptyLine(running, fsep, rsep);
      RecordIs(ids, running, fsep);
    } else {
      RecordsOfLine(ids, running, fsep, rsep, true);
    }
  }

  /** The line read back: what the receiver learns of each module is its number and its state. */
  method ReadBack(ids: seq<nat>, running: seq<bool>, fsep: string, rsep: string)
    returns (gotIds: seq<nat>, gotRunning: seq<bool>)
    requires |ids| == |running| && Separator(fsep) && Separator(rsep) && fsep != rsep
    ensures gotIds == ids && gotRunning == running
  {
    hide Pieces, Records, StateLine, OneRecord, Kept;
    gotIds, gotRunning := [], [];
    var records := ReadRecords(ids, running, fsep, rsep);
    RecordIs(ids, running, fsep);
    for k := 0 to |ids|
      invariant gotIds == ids[..k] && gotRunning == running[..k]
    {
      var id, on := ReadRecord(records[k], fsep, ids[k], running[k]);
      gotIds := gotIds + [id];
      gotRunning := gotRunning + [on];
    }
  }

  lemma RecordIs(ids: seq<nat>, running: seq<bool>, fsep: string)
    requires |ids| == |running|
    ensures |Records(ids, running, fsep)| == |ids|
    ensures forall k | 0 <= k < |ids| :: Records(ids, running, fsep)[k] == OneRecord(ids[k], running[k], fsep)
  {
    hide OneRecord;
  }

  lemma EmptyLine(running: seq<bool>, fsep: string, rsep: string)
    requires running == [] && |rsep| == 1
    ensures StateLine(Records([], running, fsep), rsep) == "" && Kept(Pieces("", rsep), true) == []
  {
    assert Find("", rsep, 0) == -1;
    assert NonEmpty([""]) == [] by { assert [""][..0] == []; }
  }
}
