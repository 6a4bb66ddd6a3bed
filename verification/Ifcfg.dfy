/** The reader and the rewriter of network configuration files of Jni/bd_jni_network.cpp, over the
    trimming and splitting of utils/bd_common.cpp. */
module Ifcfg {
  import opened Optional
  import opened Text

  /** What the trimming functions remove.  The comparison is one of signed characters, so bytes from
      128 on count as less than a space. */
  predicate Blank(c: char) { c as int <= 0x20 || c as int >= 0x80 }

  function TrimLeft(s: string): (r: string)
    ensures |r| <= |s| && r == s[|s| - |r|..] && (r != "" ==> !Blank(r[0]))
    ensures forall i | 0 <= i < |s| - |r| :: Blank(s[i])
  {
    if s != "" && Blank(s[0]) then TrimLeft(s[1..]) else s
  }

  function TrimRight(s: string): (r: string)
    ensures |r| <= |s| && r == s[..|r|] && (r != "" ==> !Blank(r[|r| - 1]))
    ensures forall i | |r| <= i < |s| :: Blank(s[i])
  {
    if s != "" && Blank(s[|s| - 1]) then TrimRight(s[..|s| - 1]) else s
  }

  function Trim(s: string): string { TrimRight(TrimLeft(s)) }

  method BdTrimLeft(buff: string) returns (r: string)
    ensures r == TrimLeft(buff)
  {
    var trimLen := 0;
    while trimLen < |buff| && Blank(buff[trimLen])
      invariant 0 <= trimLen <= |buff| && TrimLeft(buff) == TrimLeft(buff[trimLen..])
    {
      assert buff[trimLen..][1..] == buff[trimLen + 1..];
      trimLen := trimLen + 1;
    }
    r := buff[trimLen..];
  }

  method BdTrimRight(buff: string) returns (r: string)
    ensures r == TrimRight(buff)
  {
    var trimLen := 0;
    while trimLen < |buff| && Blank(buff[|buff| - 1 - trimLen])
      invariant 0 <= trimLen <= |buff| && TrimRight(buff) == TrimRight(buff[..|buff| - trimLen])
    {
      assert buff[..|buff| - trimLen][..|buff| - trimLen - 1] == buff[..|buff| - trimLen - 1];
      trimLen := trimLen + 1;
    }
    r := buff[..|buff| - trimLen];
  }

  method BdTrim(buff: string) returns (r: string)
    ensures r == Trim(buff)
  {
    r := BdTrimLeft(buff);
    r := BdTrimRight(r);
  }

  // What a line says.

  /** Neither blank nor a comment. */
  predicate Speaks(line: string) { Trim(line) != "" && Trim(line)[0] != '#' }

  /** The entry that the reader finds in a line. */
  function Entry(line: string): Option<(string, string)> {
    var t := Trim(line);
    var p := Find(t, "=", 0);
    if !Speaks(line) || p == -1 then None else Some((TrimRight(t[..p]), TrimLeft(t[p + 1..])))
  }

  /** The key that the rewriter finds, in the line as it is. */
  function Key(line: string): Option<string> {
    var p := Find(line, "=", 0);
    if !Speaks(line) || p == -1 then None else Some(Trim(line[..p]))
  }

  lemma TrimLeftOnce(s: string)
    ensures TrimLeft(s) == if s != "" && Blank(s[0]) then TrimLeft(s[1..]) else s
  {
  }

  lemma {:induction false} TrimLeftIs(s: string, i: nat)
    requires i <= |s| && (forall j | 0 <= j < i :: Blank(s[j])) && (i < |s| ==> !Blank(s[i]))
    ensures TrimLeft(s) == s[i..]
    decreases i
  {
    hide TrimLeft, Blank;
    TrimLeftOnce(s);
    if i > 0 {
      var rest := s[1..];
      forall j | 0 <= j < i - 1 ensures Blank(rest[j]) {
        assert rest[j] == s[j + 1];
      }
      assert rest[i - 1..] == s[i..];
      TrimLeftIs(rest, i - 1);
    }
  }

  lemma TrimIs(s: string, i: nat, j: nat)
    requires i < j <= |s| && !Blank(s[i]) && !Blank(s[j - 1])
    requires (forall k | 0 <= k < i :: Blank(s[k])) && (forall k | j <= k < |s| :: Blank(s[k]))
    ensures Trim(s) == s[i..j]
  {
    hide TrimLeft, TrimRight;
    TrimLeftIs(s, i);
    var t := s[i..];
    var n := |TrimRight(t)|;
    assert n > 0 ==> t[n - 1] == TrimRight(t)[n - 1];
    assert t[j - i - 1] == s[j - 1];
    assert forall k | j - i <= k < |t| :: t[k] == s[i + k];
  }

  /** Where the trimmed text stands. */
  lemma Trimmed(s: string) returns (i: nat, j: nat)
    requires Trim(s) != ""
    ensures i < j <= |s| && Trim(s) == s[i..j] && !Blank(s[i]) && !Blank(s[j - 1])
    ensures (forall k | 0 <= k < i :: Blank(s[k])) && (forall k | j <= k < |s| :: Blank(s[k]))
  {
    hide TrimLeft, TrimRight;
    var t := TrimLeft(s);
    i := |s| - |t|;
    j := i + |Trim(s)|;
    assert forall k | 0 <= k < |t| :: t[k] == s[i + k];
    assert Trim(s)[j - i - 1] == t[j - i - 1];
    assert forall k | j <= k < |s| :: s[k] == t[k - i];
  }

  lemma FirstEq(s: string)
    ensures var p := Find(s, "=", 0);
            if p == -1 then '=' !in s else p < |s| && s[p] == '=' && '=' !in s[..p]
  {
    hide Find;
    var p := Find(s, "=", 0);
    forall k: nat | k < |s| ensures At(s, "=", k) <==> s[k] == '=' {
      OneChar(s, "=", k);
    }
    assert forall k: nat | k < |s| && (p == -1 || k < p) :: !At(s, "=", k);
  }

  lemma FirstEqIs(s: string, p: nat)
    requires p < |s| && s[p] == '=' && '=' !in s[..p]
    ensures Find(s, "=", 0) == p
  {
    hide Find;
    FindAfter(s[..p], "=", s[p + 1..]);
    assert s == s[..p] + "=" + s[p + 1..];
  }

  /** The reader, which trims the line first, and the rewriter, which splits it as it is, find the
      same key in every line. */
  lemma KeyOfEntry(line: string)
    ensures Key(line) == if Entry(line).Some? then Some(Entry(line).value.0) else None
  {
    hide TrimLeft, TrimRight, Trim, Find;
    if Trim(line) != "" {
      var i, j := Trimmed(line);
      var (t, p) := (Trim(line), Find(line, "=", 0));
      FirstEq(line);
      FirstEq(t);
      if p == -1 {
        assert forall c | c in t :: c in line;
      } else {
        assert i <= p < j;
        assert t[p - i] == '=' && t[..p - i] == line[i..p];
        assert forall c | c in line[i..p] :: c in line[..p];
        FirstEqIs(t, p - i);
        TrimOfHead(line, i, p);
      }
    }
  }

  lemma TrimOfHead(line: string, i: nat, p: nat)
    requires i <= p <= |line| && (forall k | 0 <= k < i :: Blank(line[k])) && (i < p ==> !Blank(line[i]))
    ensures Trim(line[..p]) == TrimRight(line[i..p])
  {
    hide TrimLeft, TrimRight;
    TrimLeftIs(line[..p], i);
    assert line[..p][i..] == line[i..p];
  }

  // The reader.

  /** What the lines say of a key: the first entry for it. */
  function Lookup(lines: seq<string>, k: string): Option<string> {
    if lines == [] then None
    else if Entry(lines[0]).Some? && Entry(lines[0]).value.0 == k then Some(Entry(lines[0]).value.1)
    else Lookup(lines[1..], k)
  }

  function Get(m: map<string, string>, k: string): Option<string> { if k in m then Some(m[k]) else None }

  function Or(a: Option<string>, b: Option<string>): Option<string> { if a.Some? then a else b }

  lemma LookupInLine(raw: string, k: string)
    ensures Lookup([raw], k) ==
            if Entry(raw).Some? && Entry(raw).value.0 == k then Some(Entry(raw).value.1) else None
  {
    hide Entry;
    assert [raw][1..] == [];
  }

  /** The reader's look at one line. */
  method ReadEntry(raw: string) returns (entry: Option<(string, string)>)
    ensures entry == Entry(raw)
  {
    hide TrimLeft, TrimRight, Trim, Find;
    var line := BdTrim(raw);
    if line == "" || line[0] == '#' {
      return None;
    }
    var p := Find(line, "=", 0);
    if p == -1 {
      return None;
    }
    var confkey := BdTrimRight(line[..p]);
    var confvalue := BdTrimLeft(line[p + 1..]);
    entry := Some((confkey, confvalue));
  }

  /** The entry that one line adds to the map: `insert` leaves a key alone that is there already. */
  method TakeEntry(raw: string, m: map<string, string>) returns (r: map<string, string>)
    ensures forall k :: Get(r, k) == Or(Get(m, k), Lookup([raw], k))
  {
    hide Entry, Lookup;
    r := m;
    var entry := ReadEntry(raw);
    if entry.Some? && entry.value.0 !in m {
      r := m[entry.value.0 := entry.value.1];
    }
    forall k ensures Get(r, k) == Or(Get(m, k), Lookup([raw], k)) {
      LookupInLine(raw, k);
    }
  }

  /** `bd_network_initMap`: what the map holds already comes first, then the first entry of the file. */
  method InitMap(path: string, file: Option<string>, confName: map<string, string>)
    returns (rc: int, r: map<string, string>)
    ensures path == "" || file.None? ==> rc == -1 && r == confName
    ensures path != "" && file.Some? ==>
              && (forall k :: Get(r, k) == Or(Get(confName, k), Lookup(Lines(file.value), k)))
              && rc == if r == map[] then -1 else 0
  {
    hide Lines, Entry, Find, Lookup;
    r := confName;
    if path == "" || file.None? {
      return -1, r;
    }
    var lines := ReadAll(file.value);
    var n := 0;
    assert lines[0..] == lines;
    while n < |lines|
      invariant 0 <= n <= |lines|
      invariant forall k :: Or(Get(r, k), Lookup(lines[n..], k)) == Or(Get(confName, k), Lookup(lines, k))
    {
      ghost var before := r;
      r := TakeEntry(lines[n], r);
      forall k ensures Or(Get(r, k), Lookup(lines[n + 1..], k)) == Or(Get(before, k), Lookup(lines[n..], k)) {
        LookupOnce(lines, n, k);
      }
      n := n + 1;
    }
    assert lines[n..] == [];
    forall k ensures Lookup([], k) == None { LookupNone(k); }
    rc := if r == map[] then -1 else 0;
  }

  lemma LookupNone(k: string)
    ensures Lookup([], k) == None
  {
  }

  lemma LookupOnce(lines: seq<string>, n: nat, k: string)
    requires n < |lines|
    ensures Lookup(lines[n..], k) == Or(Lookup([lines[n]], k), Lookup(lines[n + 1..], k))
  {
    hide Entry;
    assert lines[n..][1..] == lines[n + 1..] && [lines[n]][1..] == [];
  }

  /** `getline` until the end of the file. */
  method ReadAll(s: string) returns (lines: seq<string>)
    ensures lines == Lines(s)
  {
    hide Lines, Find, At;
    lines := [];
    var at := 0;
    LinesOfNone();
    assert s[0..] == s && s[|s|..] == "";
    while at < |s|
      invariant at <= |s| && Lines(s) == lines + Lines(s[at..])
    {
      LinesFrom(s, at);
      var p := Find(s, "\n", at);
      var line := if p == -1 then s[at..] else s[at..p];
      at := if p == -1 then |s| else p + 1;
      assert lines + ([line] + Lines(s[at..])) == (lines + [line]) + Lines(s[at..]);
      lines := lines + [line];
    }
  }

  // The rewriter.

  /** The line for a key, as the rewriter writes it. */
  function Setting(k: string, v: string): string { k + "=" + v }

  /** What becomes of one line: the lines written for it and what is left of the map. */
  function Step(line: string, m: map<string, string>): (seq<string>, map<string, string>) {
    if Trim(line) == "" then ([], m)
    else if Key(line).None? || Key(line).value !in m then ([line], m)
    else
      var k := Key(line).value;
      if m[k] == "" then ([], m) else ([Setting(k, m[k])], m - {k})
  }

  /** The same for all lines, each with the map that the lines before have left. */
  function Rewrite(lines: seq<string>, m: map<string, string>): (seq<string>, map<string, string>) {
    if lines == [] then ([], m)
    else
      var (out, left) := Step(lines[0], m);
      var (more, rest) := Rewrite(lines[1..], left);
      (out + more, rest)
  }

  /** The lines for what is left of the map, its keys taken in a given order. */
  function Tail(order: seq<string>, m: map<string, string>): seq<string> {
    if order == [] then []
    else (if order[0] in m && m[order[0]] != "" then [Setting(order[0], m[order[0]])] else []) + Tail(order[1..], m)
  }

  /** The order lists each key of the map once. */
  ghost predicate Lists(order: seq<string>, m: map<string, string>) {
    && (forall k :: k in order <==> k in m)
    && (forall i, j | 0 <= i < j < |order| :: order[i] != order[j])
  }

  function Modified(lines: seq<string>, m: map<string, string>, order: seq<string>): seq<string> {
    Rewrite(lines, m).0 + Tail(order, Rewrite(lines, m).1)
  }

  /** One turn of the rewriting loop. */
  method RewriteLine(line: string, m: map<string, string>) returns (out: string, r: map<string, string>)
    ensures out == Unlines(Step(line, m).0) && r == Step(line, m).1
  {
    hide TrimLeft, TrimRight, Trim, Find;
    r := m;
    var temp := BdTrim(line);
    UnlinesOfOne(line);
    if temp == "" {
      return "", m;
    }
    if temp[0] == '#' {
      return line + "\n", m;
    }
    var p := Find(line, "=", 0);
    if p == -1 {
      return line + "\n", m;
    }
    var key := BdTrim(line[..p]);
    if key !in m {
      return line + "\n", m;
    }
    if m[key] == "" {
      return "", m;
    }
    UnlinesOfOne(Setting(key, m[key]));
    out := key + "=" + m[key] + "\n";
    r := m - {key};
  }

  lemma UnlinesOfOne(line: string)
    ensures Unlines([]) == "" && Unlines([line]) == line + "\n"
  {
    assert [line][1..] == [] && line + "\n" + "" == line + "\n";
  }

  lemma {:induction false} UnlinesAppend(a: seq<string>, b: seq<string>)
    ensures Unlines(a + b) == Unlines(a) + Unlines(b)
    decreases |a|
  {
    if a == [] {
      assert a + b == b;
    } else {
      assert (a + b)[1..] == a[1..] + b;
      UnlinesAppend(a[1..], b);
    }
  }

  /** The configuration file and the one beside it into which the new text is written. */
  datatype Files = Files(file: Option<string>, tmp: Option<string>)

  /** Which of the operations on files succeed. */
  datatype Ops = Ops(creates: bool, unlinks: bool, renames: bool)

  /** `bd_network_modifyIfcfgFile`.  The file is the old one on every error but one: when the old file was
      removed and the new one cannot be renamed there is none, and the new text is in the one beside it. */
  method ModifyIfcfgFile(path: string, files: Files, ifcfgMap: map<string, string>, ops: Ops)
    returns (rc: int, r: Files, ghost order: seq<string>)
    ensures rc == 0 || rc == -1
    ensures rc == 0 <==> path != "" && ifcfgMap != map[] && files.file.Some? && ops == Ops(true, true, true)
    ensures path == "" || ifcfgMap == map[] || files.file.None? || !ops.creates ==> r == files
    ensures path != "" && ifcfgMap != map[] && files.file.Some? && ops.creates ==>
              && Lists(order, Rewrite(Lines(files.file.value), ifcfgMap).1)
              && var text := Some(Unlines(Modified(Lines(files.file.value), ifcfgMap, order)));
                 r == if !ops.unlinks then Files(files.file, text)
                      else if !ops.renames then Files(None, text)
                      else Files(text, None)
  {
    hide Lines, Rewrite, Step, Lists, Unlines, Tail;
    order := [];
    if path == "" || ifcfgMap == map[] || files.file.None? || !ops.creates {
      return -1, files, order;
    }
    var lines := ReadAll(files.file.value);
    var (n, m, fout) := (0, ifcfgMap, "");
    ghost var out: seq<string> := [];
    UnlinesOfOne("");
    assert lines[0..] == lines && out + Rewrite(lines, m).0 == Rewrite(lines, m).0;
    while n < |lines|
      invariant 0 <= n <= |lines| && fout == Unlines(out)
      invariant Rewrite(lines, ifcfgMap) == (out + Rewrite(lines[n..], m).0, Rewrite(lines[n..], m).1)
    {
      RewriteOnce(lines, n, m);
      ghost var (more, left) := Step(lines[n], m);
      ghost var rest := Rewrite(lines[n + 1..], left).0;
      assert out + (more + rest) == out + more + rest;
      UnlinesAppend(out, more);
      var text, next := RewriteLine(lines[n], m);
      fout, m, out, n := fout + text, next, out + more, n + 1;
    }
    RewriteNone(m);
    assert lines[n..] == [] && out + [] == out;
    assert Rewrite(lines, ifcfgMap) == (out, m);
    var text, given := AppendRest(m);
    order := given;
    UnlinesAppend(out, Tail(order, m));
    r := Files(files.file, Some(fout + text));
    if !ops.unlinks {
      return -1, r, order;
    }
    r := r.(file := None);
    if !ops.renames {
      return -1, r, order;
    }
    r := Files(r.tmp, None);
    rc := 0;
  }

  lemma RewriteNone(m: map<string, string>)
    ensures Rewrite([], m) == ([], m)
  {
  }

  lemma RewriteOnce(lines: seq<string>, n: nat, m: map<string, string>)
    requires n < |lines|
    ensures var (out, left) := Step(lines[n], m);
            Rewrite(lines[n..], m) == (out + Rewrite(lines[n + 1..], left).0, Rewrite(lines[n + 1..], left).1)
  {
    hide Step;
    assert lines[n..][1..] == lines[n + 1..];
  }

  /** The last loop: every entry left in the map, in the order of the map. */
  method AppendRest(m: map<string, string>) returns (text: string, ghost order: seq<string>)
    ensures Lists(order, m) && text == Unlines(Tail(order, m))
  {
    hide Unlines, Tail;
    text, order := "", [];
    TailSnoc([], m, "");
    UnlinesOfOne("");
    var left := m.Keys;
    while left != {}
      invariant left <= m.Keys && (forall k :: k in order <==> k in m && k !in left)
      invariant forall i, j | 0 <= i < j < |order| :: order[i] != order[j]
      invariant text == Unlines(Tail(order, m))
      decreases |left|
    {
      var k :| k in left;
      TailSnoc(order, m, k);
      if m[k] != "" {
        UnlinesAppend(Tail(order, m), [Setting(k, m[k])]);
        UnlinesOfOne(Setting(k, m[k]));
        text := text + (k + "=" + m[k] + "\n");
      } else {
        assert Tail(order, m) + [] == Tail(order, m);
      }
      order := order + [k];
      left := left - {k};
    }
  }

  lemma {:induction false} TailSnoc(order: seq<string>, m: map<string, string>, k: string)
    ensures Tail([], m) == []
    ensures Tail(order + [k], m) == Tail(order, m) + if k in m && m[k] != "" then [Setting(k, m[k])] else []
  {
    if order != [] {
      assert (order + [k])[1..] == order[1..] + [k];
      TailSnoc(order[1..], m, k);
    } else {
      assert (order + [k])[1..] == [];
    }
  }

  // Reading what was written.

  /** Keys and values that a line can hold: trimmed, without a line end, the key without an equals sign
      and not like a comment. */
  predicate Fit(k: string, v: string) {
    && Trim(k) == k && Trim(v) == v && '=' !in k && '\n' !in k && '\n' !in v && (k != "" ==> k[0] != '#')
  }

  predicate AllFit(m: map<string, string>) { forall k | k in m :: Fit(k, m[k]) }

  lemma TrimFixed(s: string)
    requires Trim(s) == s && s != ""
    ensures !Blank(s[0]) && !Blank(s[|s| - 1])
  {
    hide TrimLeft, TrimRight, Trim;
    var i, j := Trimmed(s);
    assert j - i == |s|;
  }

  /** A written line reads as the entry it was written for, to the reader and to the rewriter. */
  lemma EntryOfSetting(k: string, v: string)
    requires Fit(k, v) && v != ""
    ensures Entry(Setting(k, v)) == Some((k, v)) && Key(Setting(k, v)) == Some(k) && Trim(Setting(k, v)) != ""
  {
    hide TrimLeft, TrimRight, Trim, Find;
    var line := Setting(k, v);
    TrimFixed(v);
    if k != "" {
      TrimFixed(k);
    }
    assert line[0] == if k == "" then '=' else k[0];
    assert line[|line| - 1] == v[|v| - 1];
    TrimIs(line, 0, |line|);
    assert line[0..|line|] == line;
    assert line[..|k|] == k && line[|k| + 1..] == v;
    FirstEqIs(line, |k|);
    TrimHalves(k, v);
    KeyOfEntry(line);
  }

  lemma TrimHalves(k: string, v: string)
    requires Trim(k) == k && Trim(v) == v
    ensures TrimRight(k) == k && TrimLeft(v) == v
  {
    hide TrimLeft, TrimRight;
  }

  /** Reading after modifying: for a key of the map its entry, none if that is empty; for any other key
      what the file said before.  This holds however often keys stand in the file. */
  lemma {:induction false} LookupModified(lines: seq<string>, m: map<string, string>, order: seq<string>, k: string)
    requires AllFit(m) && forall q | q in Rewrite(lines, m).1 :: q in order
    ensures Lookup(Modified(lines, m, order), k) ==
            if k !in m then Lookup(lines, k) else if m[k] == "" then None else Some(m[k])
    decreases |lines|
  {
    hide Entry, Key, Trim;
    var tail := Tail(order, Rewrite(lines, m).1);
    if lines == [] {
      assert [] + tail == tail;
      LookupTail(order, m, k);
    } else {
      var (out, left) := Step(lines[0], m);
      LookupModified(lines[1..], left, order, k);
      var rest := Modified(lines[1..], left, order);
      assert Modified(lines, m, order) == out + rest;
      KeyOfEntry(lines[0]);
      if Trim(lines[0]) == "" {
        BlankLine(lines[0]);
      }
      if out == [] {
        assert out + rest == rest;
      } else {
        assert (out + rest)[1..] == rest;
        var q := Key(lines[0]);
        if q.Some? && q.value in m {
          EntryOfSetting(q.value, m[q.value]);
        }
      }
    }
  }

  lemma BlankLine(line: string)
    requires Trim(line) == ""
    ensures Entry(line) == None
  {
  }

  lemma {:induction false} LookupTail(order: seq<string>, m: map<string, string>, k: string)
    requires AllFit(m)
    ensures Lookup(Tail(order, m), k) == if k in order && k in m && m[k] != "" then Some(m[k]) else None
    decreases |order|
  {
    hide Entry, Fit;
    if order != [] {
      LookupTail(order[1..], m, k);
      var q := order[0];
      if q in m && m[q] != "" {
        EntryOfSetting(q, m[q]);
        assert ([Setting(q, m[q])] + Tail(order[1..], m))[1..] == Tail(order[1..], m);
      } else {
        assert [] + Tail(order[1..], m) == Tail(order[1..], m);
      }
    }
  }

  predicate Free(lines: seq<string>) { forall line | line in lines :: '\n' !in line }

  lemma {:induction false} RewriteIsFree(lines: seq<string>, m: map<string, string>)
    requires Free(lines) && AllFit(m)
    ensures Free(Rewrite(lines, m).0) && AllFit(Rewrite(lines, m).1)
    ensures forall k | k in Rewrite(lines, m).1 :: k in m && Rewrite(lines, m).1[k] == m[k]
    decreases |lines|
  {
    hide Key, Trim;
    if lines != [] {
      RewriteIsFree(lines[1..], Step(lines[0], m).1);
    }
  }

  lemma {:induction false} TailIsFree(order: seq<string>, m: map<string, string>)
    requires AllFit(m)
    ensures Free(Tail(order, m))
    decreases |order|
  {
    hide Trim;
    if order != [] {
      TailIsFree(order[1..], m);
    }
  }

  /** The new file has the lines that were written, one for one. */
  lemma LinesOfModified(content: string, m: map<string, string>, order: seq<string>)
    requires AllFit(m)
    ensures var out := Modified(Lines(content), m, order);
            Lines(Unlines(out)) == out
  {
    hide Lines, Rewrite, Tail, AllFit;
    LinesAreFree(content);
    RewriteIsFree(Lines(content), m);
    TailIsFree(order, Rewrite(Lines(content), m).1);
    LinesOfUnlines(Modified(Lines(content), m, order));
  }

  /** Reading the new file: the old one overridden by the entries of the map, and without the keys
      that the map gives an empty value. */
  lemma ReadAfterModify(content: string, m: map<string, string>, order: seq<string>, k: string)
    requires AllFit(m) && Lists(order, Rewrite(Lines(content), m).1)
    ensures Lookup(Lines(Unlines(Modified(Lines(content), m, order))), k) ==
            if k !in m then Lookup(Lines(content), k) else if m[k] == "" then None else Some(m[k])
  {
    hide Lines, Rewrite, Tail, AllFit, Modified;
    LinesOfModified(content, m, order);
    LookupModified(Lines(content), m, order, k);
  }

  // Modifying twice.

  /** A line that was written for a line is written again. */
  lemma StepAgain(line: string, m: map<string, string>)
    requires AllFit(m)
    ensures var (out, left) := Step(line, m);
            |out| <= 1 && AllFit(left) && (out == [] ==> left == m) && (out != [] ==> Step(out[0], m) == (out, left))
  {
    hide Key, Trim, Setting;
    if Key(line).Some? && Key(line).value in m && m[Key(line).value] != "" {
      EntryOfSetting(Key(line).value, m[Key(line).value]);
    }
  }

  lemma {:induction false} RewriteAgain(lines: seq<string>, m: map<string, string>, rest: seq<string>)
    requires AllFit(m)
    ensures var (out, left) := Rewrite(lines, m);
            Rewrite(out + rest, m) == (out + Rewrite(rest, left).0, Rewrite(rest, left).1)
    decreases |lines|
  {
    hide Step, AllFit;
    if lines == [] {
      assert [] + rest == rest && [] + Rewrite(rest, m).0 == Rewrite(rest, m).0;
    } else {
      var (out, left) := Step(lines[0], m);
      StepAgain(lines[0], m);
      RewriteAgain(lines[1..], left, rest);
      var (more, last) := Rewrite(lines[1..], left);
      assert out + more + rest == out + (more + rest);
      assert out + more + Rewrite(rest, last).0 == out + (more + Rewrite(rest, last).0);
      if out == [] {
        assert out + (more + rest) == more + rest;
        assert out + (more + Rewrite(rest, last).0) == more + Rewrite(rest, last).0;
      } else {
        assert (out + (more + rest))[1..] == more + rest;
      }
    }
  }

  ghost predicate Part(n: map<string, string>, m: map<string, string>) {
    forall k | k in n :: k in m && n[k] == m[k]
  }

  lemma {:induction false} TailAgain(order: seq<string>, m: map<string, string>, n: map<string, string>)
    requires AllFit(m) && Part(n, m)
    ensures var (out, left) := Rewrite(Tail(order, m), n);
            out == Tail(order, m) && Part(left, n) && forall k | k in left && k in order :: m[k] == ""
    decreases |order|
  {
    hide AllFit, Setting;
    if order != [] {
      var (k, rest) := (order[0], Tail(order[1..], m));
      if k in m && m[k] != "" {
        var line := Setting(k, m[k]);
        SettingStep(k, m, n);
        TailAgain(order[1..], m, n - {k});
        assert n - {k} == Step(line, n).1;
        assert ([line] + rest)[1..] == rest;
      } else {
        TailAgain(order[1..], m, n);
        assert [] + rest == rest;
      }
    }
  }

  lemma SettingStep(k: string, m: map<string, string>, n: map<string, string>)
    requires AllFit(m) && Part(n, m) && k in m && m[k] != ""
    ensures Step(Setting(k, m[k]), n).0 == [Setting(k, m[k])] && Step(Setting(k, m[k]), n).1 == n - {k}
  {
    hide Key, Trim, Fit, Setting;
    EntryOfSetting(k, m[k]);
    assert k !in n ==> n == n - {k};
  }

  lemma {:induction false} TailOfNothing(order: seq<string>, m: map<string, string>)
    requires forall k | k in m :: m[k] == ""
    ensures Tail(order, m) == []
  {
    if order != [] {
      TailOfNothing(order[1..], m);
    }
  }

  /** Modifying again with the same map writes the same lines. */
  lemma ModifyTwice(content: string, m: map<string, string>, order: seq<string>, again: seq<string>)
    requires AllFit(m) && Lists(order, Rewrite(Lines(content), m).1)
    ensures var out := Modified(Lines(content), m, order);
            Modified(Lines(Unlines(out)), m, again) == out
  {
    hide Lines, Rewrite, Tail, AllFit;
    LinesOfModified(content, m, order);
    var (out, left) := Rewrite(Lines(content), m);
    LinesAreFree(content);
    RewriteIsFree(Lines(content), m);
    RewriteAgain(Lines(content), m, Tail(order, left));
    TailAgain(order, left, left);
    TailOfNothing(again, Rewrite(Tail(order, left), left).1);
    assert out + Tail(order, left) + [] == out + Tail(order, left);
  }

  // What a user asks for.

  const KEYS := ["DEVICE", "IPADDR", "NETMASK", "GATEWAY", "ONBOOT", "DNS1", "DNS2"]

  function Insert(m: map<string, string>, k: string, v: string): map<string, string> {
    if k in m then m else m[k := v]
  }

  /** The value that the request gives the key in place `i`. */
  function Field(info: string, i: nat): Option<string> {
    if i < |Pieces(info, ",")| then Some(Trim(Pieces(info, ",")[i])) else None
  }

  /** The value for a key: the field in its place, or the protocol that follows from the address. */
  function Asked(info: string, k: string): Option<string> {
    if k in KEYS then Field(info, PlaceOf(k))
    else if k == "BOOTPROTO" && Field(info, 1).Some? then
      Some(if Field(info, 1).value == "" then "dhcp" else "none")
    else None
  }

  function PlaceOf(k: string): (i: nat)
    requires k in KEYS
    ensures i < |KEYS| && KEYS[i] == k
  {
    if k == "DEVICE" then 0 else if k == "IPADDR" then 1 else if k == "NETMASK" then 2 else if k == "GATEWAY" then 3
    else if k == "ONBOOT" then 4 else if k == "DNS1" then 5 else 6
  }

  /** The fields of a request one by one; there is a protocol if and only if there is an address. */
  lemma AskedByPlace(info: string)
    ensures Asked(info, "DEVICE") == Field(info, 0) && Asked(info, "IPADDR") == Field(info, 1)
    ensures Asked(info, "NETMASK") == Field(info, 2) && Asked(info, "GATEWAY") == Field(info, 3)
    ensures Asked(info, "ONBOOT") == Field(info, 4)
    ensures Asked(info, "DNS1") == Field(info, 5) && Asked(info, "DNS2") == Field(info, 6)
    ensures Asked(info, "BOOTPROTO") ==
            if Field(info, 1).None? then None else if Field(info, 1) == Some("") then Some("dhcp") else Some("none")
  {
    hide Field, PlaceOf;
    PlacesAre();
    KeysOnce(0);
  }

  lemma PlacesAre()
    ensures "DEVICE" in KEYS && "IPADDR" in KEYS && "NETMASK" in KEYS && "GATEWAY" in KEYS && "ONBOOT" in KEYS
    ensures "DNS1" in KEYS && "DNS2" in KEYS
    ensures PlaceOf("DEVICE") == 0 && PlaceOf("IPADDR") == 1 && PlaceOf("NETMASK") == 2 && PlaceOf("GATEWAY") == 3
    ensures PlaceOf("ONBOOT") == 4 && PlaceOf("DNS1") == 5 && PlaceOf("DNS2") == 6
  {
    assert KEYS[0] == "DEVICE" && KEYS[1] == "IPADDR" && KEYS[2] == "NETMASK" && KEYS[3] == "GATEWAY";
    assert KEYS[4] == "ONBOOT" && KEYS[5] == "DNS1" && KEYS[6] == "DNS2";
  }

  /** A request asks for nothing but these. */
  lemma OnlyTheseAsked(info: string, k: string)
    requires Asked(info, k).Some?
    ensures k in {"DEVICE", "IPADDR", "NETMASK", "GATEWAY", "ONBOOT", "DNS1", "DNS2", "BOOTPROTO"}
  {
    hide Field;
  }

  /** `bd_split` into a list. */
  method BdSplit(buff: string, sep: string) returns (list: seq<string>)
    requires sep != ""
    ensures list == Pieces(buff, sep)
  {
    hide Pieces, Find, At;
    list := [];
    var start := 0;
    assert buff[0..] == buff && [] + Pieces(buff, sep) == Pieces(buff, sep);
    while true
      invariant start <= |buff| && Pieces(buff, sep) == list + Pieces(buff[start..], sep)
      decreases |buff| - start
    {
      PiecesFrom(buff, sep, start);
      var end := Find(buff, sep, start);
      if end == -1 {
        list := list + [buff[start..]];
        return;
      }
      var piece := buff[start..end];
      ghost var rest := Pieces(buff[end + |sep|..], sep);
      assert list + ([piece] + rest) == (list + [piece]) + rest;
      list := list + [piece];
      start := end + |sep|;
    }
  }

  /** `bd_network_getModityIfcfgInfo` into a new map.  Its loop ends with the fields alone, so a request
      of more than seven fields runs past the keys. */
  method GetModityIfcfgInfo(info: string) returns (rc: int, m: map<string, string>)
    requires |Pieces(info, ",")| <= |KEYS|
    ensures info == "" ==> rc == -1 && m == map[]
    ensures info != "" ==> rc == 0 && forall k :: Get(m, k) == Asked(info, k)
  {
    hide Pieces, Trim;
    m := map[];
    if info == "" {
      return -1, m;
    }
    var ipInfo := BdSplit(info, ",");
    var n := 0;
    while n < |ipInfo|
      invariant 0 <= n <= |ipInfo| <= |KEYS|
      invariant forall k :: Get(m, k) == if k in KEYS && PlaceOf(k) < n then Field(info, PlaceOf(k)) else None
    {
      var value := BdTrim(ipInfo[n]);
      KeysOnce(n);
      m := Insert(m, KEYS[n], value);
      n := n + 1;
    }
    assert PlaceOf("IPADDR") == 1;
    assert Get(m, "IPADDR") == Field(info, 1);
    if "IPADDR" in m {
      m := Insert(m, "BOOTPROTO", if m["IPADDR"] == "" then "dhcp" else "none");
    }
    rc := 0;
  }

  lemma KeysOnce(n: nat)
    requires n < |KEYS|
    ensures forall k | k in KEYS :: PlaceOf(k) == n <==> k == KEYS[n]
    ensures "BOOTPROTO" !in KEYS
  {
    assert |"BOOTPROTO"| == 9;
    assert PlaceOf(KEYS[n]) == n by {
      assert KEYS[0][0] == 'D' && KEYS[1][0] == 'I' && KEYS[2][0] == 'N' && KEYS[3][0] == 'G' && KEYS[4][0] == 'O';
      assert |KEYS[5]| == 4 && |KEYS[6]| == 4 && KEYS[5][3] == '1' && KEYS[6][3] == '2';
    }
  }

  /** All that a request without line ends asks for fits the lines of a file. */
  lemma AskedIsFit(info: string, k: string)
    requires '\n' !in info && Asked(info, k).Some?
    ensures Fit(k, Asked(info, k).value)
  {
    hide Pieces, Trim, Find;
    KeyIsFit(k);
    if k in KEYS {
      PiecesWithin(info, ",", Pieces(info, ",")[PlaceOf(k)]);
      TrimTrim(Pieces(info, ",")[PlaceOf(k)]);
    } else {
      TrimIs("dhcp", 0, 4);
      TrimIs("none", 0, 4);
      assert "dhcp"[0..4] == "dhcp" && "none"[0..4] == "none";
    }
  }

  lemma KeyIsFit(k: string)
    requires k in KEYS || k == "BOOTPROTO"
    ensures Trim(k) == k && '=' !in k && '\n' !in k && k != "" && k[0] != '#'
  {
    hide Trim;
    assert k[0..|k|] == k;
    TrimIs(k, 0, |k|);
  }

  lemma TrimTrim(s: string)
    ensures Trim(Trim(s)) == Trim(s) && forall c | c in Trim(s) :: c in s
  {
    hide Trim;
    var t := Trim(s);
    if t != "" {
      var i, j := Trimmed(s);
      assert t[0] == s[i] && t[|t| - 1] == s[j - 1];
      TrimIs(t, 0, |t|);
      assert t[0..|t|] == t;
    } else {
      TrimOfNothing();
    }
  }

  lemma TrimOfNothing()
    ensures Trim("") == ""
  {
  }

  lemma {:induction false} PiecesWithin(s: string, sep: string, piece: string)
    requires sep != "" && piece in Pieces(s, sep)
    ensures forall c | c in piece :: c in s
    decreases |s|
  {
    hide Find;
    var p := Find(s, sep, 0);
    if p != -1 && piece != s[..p] {
      PiecesWithin(s[p + |sep|..], sep, piece);
    }
  }

  /** What a key reads as once a request has been carried out. */
  function Answered(info: string, content: string, k: string): Option<string> {
    var v := Asked(info, k);
    if v.None? then Lookup(Lines(content), k) else if v.value == "" then None else v
  }

  /** `bd_network_modifyIfcfg`: `goodName` is the verdict of the check of the device name, `files` the
      files of that device.  Reading the new file gives for every key what was asked for, and what
      stood there before for the others; if it could not be renamed it is beside the missing one. */
  method ModifyIfcfg(ipInfo: string, goodName: bool, files: Files, ops: Ops) returns (rc: int, r: Files)
    requires |Pieces(ipInfo, ",")| <= |KEYS|
    ensures rc == 0 || rc == -1
    ensures var ready := ipInfo != "" && Field(ipInfo, 0) != Some("") && goodName && files.file.Some? && ops.creates;
            && (rc == 0 <==> ready && ops.unlinks && ops.renames)
            && (!ready ==> r == files)
            && (ready && !ops.unlinks ==> r.file == files.file)
            && (ready && ops.unlinks ==>
                  && r == (if ops.renames then Files(r.file, None) else Files(None, r.tmp))
                  && var made := if ops.renames then r.file else r.tmp;
                     made.Some? && ('\n' !in ipInfo ==>
                       forall k :: Lookup(Lines(made.value), k) == Answered(ipInfo, files.file.value, k)))
  {
    hide Pieces, Trim, Lines, Lookup, Field, Modified, Rewrite, Lists, Unlines, Asked;
    var got, m := GetModityIfcfgInfo(ipInfo);
    if got != 0 {
      return -1, files;
    }
    DeviceIsAsked(ipInfo);
    assert Get(m, "DEVICE") == Field(ipInfo, 0);
    if m["DEVICE"] == "" || !goodName || files.file.None? {
      return -1, files;
    }
    var path := "/etc/sysconfig/network-scripts/ifcfg-" + m["DEVICE"];
    ghost var order;
    rc, r, order := ModifyIfcfgFile(path, files, m, ops);
    if '\n' !in ipInfo && ops.creates {
      forall k | k in m ensures Fit(k, m[k]) {
        assert Get(m, k) == Asked(ipInfo, k);
        AskedIsFit(ipInfo, k);
      }
      ghost var text := Unlines(Modified(Lines(files.file.value), m, order));
      forall k ensures Lookup(Lines(text), k) == Answered(ipInfo, files.file.value, k) {
        ReadAfterModify(files.file.value, m, order, k);
        assert Get(m, k) == Asked(ipInfo, k);
      }
    }
  }

  lemma DeviceIsAsked(info: string)
    ensures Asked(info, "DEVICE") == Field(info, 0) && Field(info, 0).Some?
  {
    hide Pieces, Trim;
    KeysOnce(0);
  }
}
