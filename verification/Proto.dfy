/** The message of probuf/socmsg.pb.cpp.  The members of the message stand in a table by their field
    number: 1 serial_no, 2 version, 3 service_no, 4 time, 5 mode, 6 code, 7 enptype, 8 comtype, 9 desc,
    10 content; 11 is the one extension that is registered, register_sn. */
module Proto {
  import opened Optional
  import opened Wire

  /** What a message says: the fields that are set, and what it was sent that nobody knows. */
  datatype Msg = Msg(nums: map<nat, nat>, texts: map<nat, seq<Byte>>, unknown: seq<Unknown>)

  const EMPTY := Msg(map[], map[], [])

  predicate IsNum(k: nat) { 1 <= k <= 8 || k == 11 }
  predicate IsText(k: nat) { k == 9 || k == 10 }
  predicate IsEnum(k: nat) { k == 3 || k == 5 || k == 7 || k == 8 }

  /** The `IsValid` functions. */
  predicate Legal(k: nat, v: nat) {
    match k
    case 3 => 100000 <= v <= 100008 || 200000 <= v <= 200004 || v == 999999
    case 5 => v <= 3
    case 7 => 4000 <= v <= 4005
    case 8 => 5000 <= v <= 5002
    case 2 => v < TWO_32
    case 6 => v < TWO_32
    case _ => v < TWO_64
  }

  /** The tag of a field; none needs more than one byte. */
  function TagOf(k: nat): nat { if IsText(k) then 8 * k + 2 else 8 * k }

  predicate IsKnown(tag: nat) { 1 <= tag / 8 <= 11 && tag == TagOf(tag / 8) }

  /** The low 32 bits as a signed number, as 64 bits again: how an unknown enumerator is kept. */
  function SignExtended(v: nat): nat
    requires v < TWO_32
  {
    if v < TWO_31 then v else v + TWO_64 - TWO_32
  }

  /** A field that no member can hold, as the parser leaves it. */
  predicate Foreign(u: Unknown, depth: nat) {
    && Fits(u, depth)
    && (IsKnown(Tag(u)) ==>
          && u.Number? && IsEnum(u.field) && SignExtended(u.value % TWO_32) == u.value
          && !Legal(u.field, u.value % TWO_32))
  }

  /** Only fields there are, with values of their types. */
  predicate Sound(m: Msg) {
    && (forall k | k in m.nums :: IsNum(k) && Legal(k, m.nums[k]))
    && (forall k | k in m.texts :: IsText(k) && |m.texts[k]| < TWO_31)
  }

  predicate Ok(m: Msg, depth: nat) { Sound(m) && forall u | u in m.unknown :: Foreign(u, depth) }

  // The plain loop: read a tag, read its field, begin again.

  function SetNum(m: Msg, k: nat, v: nat): Msg { m.(nums := m.nums[k := v]) }
  function SetText(m: Msg, k: nat, data: seq<Byte>): Msg { m.(texts := m.texts[k := data]) }
  function Keep(m: Msg, u: Unknown): Msg { m.(unknown := m.unknown + [u]) }

  /** The number that arrived for field `k`. */
  function Arrived(m: Msg, k: nat, v: nat): Msg {
    if IsEnum(k) then
      if Legal(k, v % TWO_32) then SetNum(m, k, v % TWO_32) else Keep(m, Number(k, SignExtended(v % TWO_32)))
    else SetNum(m, k, if k == 2 || k == 6 then v % TWO_32 else v)
  }

  function ReadField(m: Msg, k: nat, s: seq<Byte>): (r: Option<(Msg, seq<Byte>)>)
    ensures r.Some? ==> |r.value.1| < |s|
  {
    if IsText(k) then
      var r := ReadBytes(s);
      if r.None? then None else Some((SetText(m, k, r.value.0), r.value.1))
    else
      var r := ReadVarint(s);
      if r.None? then None else Some((Arrived(m, k, r.value.0), r.value.1))
  }

  /** How parsing ends; `clean` when it used up all its input, which the callers that parse a whole
      buffer ask for. */
  datatype Outcome = Failed | Parsed(m: Msg, clean: bool)

  function Parse(m: Msg, s: seq<Byte>, depth: nat): Outcome
    decreases |s|
  {
    var (tag, rest) := ReadTag(s);
    if tag == 0 || EndsGroup(tag) then Parsed(m, s == [])
    else if IsKnown(tag) then Fielded(m, tag / 8, rest, depth)
    else
      var r := Skip(tag, rest, depth);
      if r.None? then Failed else Parse(Keep(m, r.value.0), r.value.1, depth)
  }

  /** The loop from a field on whose tag was read. */
  function Fielded(m: Msg, k: nat, s: seq<Byte>, depth: nat): Outcome
    decreases |s|
  {
    var r := ReadField(m, k, s);
    if r.None? then Failed else Parse(r.value.0, r.value.1, depth)
  }

  // Writing.

  function Part(m: Msg, k: nat): seq<Byte> {
    if k in m.nums && !IsText(k) then Varint(TagOf(k)) + Varint(m.nums[k])
    else if k in m.texts && IsText(k) then Varint(TagOf(k)) + Counted(m.texts[k])
    else []
  }

  function Parts(m: Msg, k: nat): seq<Byte>
    decreases 12 - k
  {
    if k > 11 then [] else Part(m, k) + Parts(m, k + 1)
  }

  /** All set fields in the order of their numbers, then the unknown ones as they came. */
  function Serialize(m: Msg): seq<Byte> { Parts(m, 1) + EmitAll(m.unknown) }

  function Merge(m: Msg, from: Msg): Msg {
    Msg(m.nums + from.nums, m.texts + from.texts, m.unknown + from.unknown)
  }

  // The bytes that are written.

  /** The tags, each the field's number and the type of its value. */
  lemma TagsAre(tag: nat)
    ensures IsKnown(tag) <==> tag in {0x08, 0x10, 0x18, 0x20, 0x28, 0x30, 0x38, 0x40, 0x4a, 0x52, 0x58}
  {
  }

  /** A number: one byte for the tag, then its digits to base 128. */
  lemma NumberBytes(m: Msg, k: nat)
    requires k in {1, 2, 3, 4, 5, 6, 7, 8, 11}
    ensures if k in m.nums then
              var s := Part(m, k);
              |s| >= 2 && s[0] == 8 * k && IsVarint(s[1..]) && Base128(s[1..]) == m.nums[k]
            else Part(m, k) == []
  {
    hide Varint, IsVarint, Base128;
    if k in m.nums {
      OneByte(8 * k);
      VarintIsBase128(m.nums[k]);
      assert Part(m, k)[1..] == Varint(m.nums[k]);
    }
  }

  /** A text: one byte for the tag, `n - 1` bytes for the length, then the text. */
  lemma TextBytes(m: Msg, k: nat) returns (n: nat)
    requires k in {9, 10}
    ensures if k in m.texts then
              var s := Part(m, k);
              && 2 <= n <= |s| && s[0] == 8 * k + 2 && IsVarint(s[1..n]) && Base128(s[1..n]) == |m.texts[k]|
              && s[n..] == m.texts[k]
            else Part(m, k) == []
  {
    hide Varint, IsVarint, Base128;
    n := 1;
    if k in m.texts {
      OneByte(8 * k + 2);
      var length := Varint(|m.texts[k]|);
      VarintIsBase128(|m.texts[k]|);
      n := 1 + |length|;
      assert Part(m, k)[1..n] == length;
    }
  }

  lemma OneByte(v: nat)
    requires v < 128
    ensures Varint(v) == [v]
  {
  }

  /** The fields in the order of their numbers, then what nobody knows. */
  lemma WrittenInOrder(m: Msg)
    ensures Serialize(m) == Part(m, 1) + Part(m, 2) + Part(m, 3) + Part(m, 4) + Part(m, 5) + Part(m, 6) + Part(m, 7)
                            + Part(m, 8) + Part(m, 9) + Part(m, 10) + Part(m, 11) + EmitAll(m.unknown)
  {
    hide Part, EmitAll;
    var a := Parts(m, 9);
    assert a == Part(m, 9) + (Part(m, 10) + (Part(m, 11) + [])) by { ThreeParts(m, 9); }
    var b := Parts(m, 5);
    assert b == Part(m, 5) + (Part(m, 6) + (Part(m, 7) + (Part(m, 8) + a))) by { FourParts(m, 5); }
    assert Parts(m, 1) == Part(m, 1) + (Part(m, 2) + (Part(m, 3) + (Part(m, 4) + b))) by { FourParts(m, 1); }
    hide Parts;
    assert a == Part(m, 9) + Part(m, 10) + Part(m, 11);
    Grouped(Part(m, 5), Part(m, 6), Part(m, 7), Part(m, 8), a);
    Grouped(Part(m, 1), Part(m, 2), Part(m, 3), Part(m, 4), b);
  }

  lemma ThreeParts(m: Msg, k: nat)
    requires k == 9
    ensures Parts(m, k) == Part(m, k) + (Part(m, k + 1) + (Part(m, k + 2) + []))
  {
    hide Part;
    assert Parts(m, 12) == [];
    assert Parts(m, 11) == Part(m, 11) + Parts(m, 12);
    assert Parts(m, 10) == Part(m, 10) + Parts(m, 11);
  }

  lemma FourParts(m: Msg, k: nat)
    requires k <= 7
    ensures Parts(m, k) == Part(m, k) + (Part(m, k + 1) + (Part(m, k + 2) + (Part(m, k + 3) + Parts(m, k + 4))))
  {
    hide Part;
    assert Parts(m, k + 3) == Part(m, k + 3) + Parts(m, k + 4);
    assert Parts(m, k + 2) == Part(m, k + 2) + Parts(m, k + 3);
    assert Parts(m, k + 1) == Part(m, k + 1) + Parts(m, k + 2);
  }

  lemma Grouped(a: seq<Byte>, b: seq<Byte>, c: seq<Byte>, d: seq<Byte>, e: seq<Byte>)
    ensures a + (b + (c + (d + e))) == a + b + c + d + e
  {
  }

  /** A field of a merge is that of the second message if it has one, and of the first otherwise; what nobody
      knows is kept of both, in order. */
  lemma MergedField(m: Msg, from: Msg, k: nat)
    ensures At(Merge(m, from).nums, k) == if k in from.nums then Some(from.nums[k]) else At(m.nums, k)
    ensures At(Merge(m, from).texts, k) == if k in from.texts then Some(from.texts[k]) else At(m.texts, k)
    ensures Merge(m, from).unknown == m.unknown + from.unknown
  {
  }

  /** Sign extension keeps the signed number: as 32 bits and as 64 bits it is the same. */
  lemma SignKept(v: nat)
    requires v < TWO_32
    ensures SignExtended(v) < TWO_64
    ensures (if v < TWO_31 then v else v - TWO_32) ==
            (if SignExtended(v) < TWO_64 / 2 then SignExtended(v) else SignExtended(v) - TWO_64)
  {
  }

  /** The enumerators of the message. */
  lemma EnumeratorsAre(v: nat)
    ensures Legal(3, v) <==> v in {100000, 100001, 100002, 100003, 100004, 100005, 100006, 100007, 100008,
                                   200000, 200001, 200002, 200003, 200004, 999999}
    ensures Legal(5, v) <==> v in {0, 1, 2, 3}
    ensures Legal(7, v) <==> v in {4000, 4001, 4002, 4003, 4004, 4005}
    ensures Legal(8, v) <==> v in {5000, 5001, 5002}
  {
  }

  /** What a number in the input, of `n` bytes, does to a member that is no enumeration: the last one stays, with
      as many bits as the member has. */
  lemma NumberRead(m: Msg, k: nat, s: seq<Byte>) returns (n: nat)
    requires k in {1, 2, 4, 6, 11} && ReadField(m, k, s).Some?
    ensures 0 < n <= 10 && n <= |s| && IsVarint(s[..n])
    ensures var v := Base128(s[..n]) % (if k == 2 || k == 6 then TWO_32 else TWO_64);
            ReadField(m, k, s).value == (Msg(m.nums[k := v], m.texts, m.unknown), s[n..])
  {
    hide ReadVarint, IsVarint, Base128;
    ReadVarintTakes(s);
    n := |s| - |ReadVarint(s).value.1|;
    LowBits(Base128(s[..n]));
  }

  /** To an enumeration: the low 32 bits, if they are one of its enumerators; otherwise they are kept as a
      field that nobody knows. */
  lemma EnumeratorRead(m: Msg, k: nat, s: seq<Byte>) returns (n: nat)
    requires k in {3, 5, 7, 8} && ReadField(m, k, s).Some?
    ensures 0 < n <= 10 && n <= |s| && IsVarint(s[..n])
    ensures var v := Base128(s[..n]) % TWO_32;
            ReadField(m, k, s).value ==
            (if Legal(k, v) then Msg(m.nums[k := v], m.texts, m.unknown)
             else Msg(m.nums, m.texts, m.unknown + [Number(k, SignExtended(v))]), s[n..])
  {
    hide ReadVarint, IsVarint, Base128, Legal, SignExtended;
    ReadVarintTakes(s);
    n := |s| - |ReadVarint(s).value.1|;
    LowBits(Base128(s[..n]));
  }

  // Parsing what was written.

  /** `m` with field `k` of `from`. */
  function MergePart(m: Msg, from: Msg, k: nat): Msg {
    if k in from.nums && !IsText(k) then SetNum(m, k, from.nums[k])
    else if k in from.texts && IsText(k) then SetText(m, k, from.texts[k])
    else m
  }

  function MergeParts(m: Msg, from: Msg, k: nat): Msg
    decreases 12 - k
  {
    if k > 11 then m else MergeParts(MergePart(m, from, k), from, k + 1)
  }

  lemma ParseOnce(m: Msg, k: nat, s: seq<Byte>, depth: nat)
    requires 1 <= k <= 11
    ensures Parse(m, Varint(TagOf(k)) + s, depth) == Fielded(m, k, s, depth)
  {
    hide Varint, ReadTag, Fielded, Skip;
    ReadOfTag(TagOf(k), s);
  }

  lemma ParsePart(m: Msg, from: Msg, k: nat, rest: seq<Byte>, depth: nat)
    requires 1 <= k <= 11 && Sound(from)
    ensures Parse(m, Part(from, k) + rest, depth) == Parse(MergePart(m, from, k), rest, depth)
  {
    hide Varint, ReadVarint, ReadBytes, Counted, Parse;
    if k in from.nums && !IsText(k) {
      var v := from.nums[k];
      assert Part(from, k) + rest == Varint(TagOf(k)) + (Varint(v) + rest);
      ParseOnce(m, k, Varint(v) + rest, depth);
      ReadOfVarint(v, rest);
    } else if k in from.texts && IsText(k) {
      var data := from.texts[k];
      assert Part(from, k) + rest == Varint(TagOf(k)) + (Counted(data) + rest);
      ParseOnce(m, k, Counted(data) + rest, depth);
      ReadOfCounted(data, rest);
    } else {
      assert Part(from, k) + rest == rest;
    }
  }

  lemma {:induction false} ParseParts(m: Msg, from: Msg, k: nat, rest: seq<Byte>, depth: nat)
    requires 1 <= k && Sound(from)
    ensures Parse(m, Parts(from, k) + rest, depth) == Parse(MergeParts(m, from, k), rest, depth)
    decreases 12 - k
  {
    hide Sound, Part, MergePart, Parse;
    if k > 11 {
      assert Parts(from, k) + rest == rest;
    } else {
      var more := Parts(from, k + 1) + rest;
      assert Parts(from, k) + rest == Part(from, k) + more;
      ParsePart(m, from, k, more, depth);
      ParseParts(MergePart(m, from, k), from, k + 1, rest, depth);
    }
  }

  /** A kept field parses to a kept field. */
  lemma ParseForeign(m: Msg, u: Unknown, rest: seq<Byte>, depth: nat)
    requires Foreign(u, depth)
    ensures Parse(m, Emit(u) + rest, depth) == Parse(Keep(m, u), rest, depth)
  {
    hide Varint, ReadVarint, ReadBytes, Counted, Skip, ReadTag;
    var tail := Body(u) + rest;
    assert Emit(u) + rest == Varint(Tag(u)) + tail;
    ReadOfTag(Tag(u), tail);
    if IsKnown(Tag(u)) {
      ReadOfVarint(u.value, rest);
    } else {
      SkipOfBody(u, rest, depth);
    }
  }

  lemma {:induction false} ParseUnknown(m: Msg, us: seq<Unknown>, rest: seq<Byte>, depth: nat)
    requires forall u | u in us :: Foreign(u, depth)
    ensures Parse(m, EmitAll(us) + rest, depth) == Parse(m.(unknown := m.unknown + us), rest, depth)
    decreases |us|
  {
    hide Foreign, Emit, Parse;
    if us == [] {
      assert EmitAll(us) + rest == rest && m.unknown + us == m.unknown;
    } else {
      var more := EmitAll(us[1..]) + rest;
      assert EmitAll(us) + rest == Emit(us[0]) + more;
      ParseForeign(m, us[0], more, depth);
      ParseUnknown(Keep(m, us[0]), us[1..], rest, depth);
      assert m.unknown + [us[0]] + us[1..] == m.unknown + us;
    }
  }

  function At<T>(m: map<nat, T>, k: nat): Option<T> { if k in m then Some(m[k]) else None }

  /** One field of the merge of one field. */
  lemma PartAt(m: Msg, from: Msg, k: nat, j: nat)
    requires (j in from.nums ==> IsNum(j)) && (j in from.texts ==> IsText(j))
    ensures var r := MergePart(m, from, k);
            && r.unknown == m.unknown
            && At(r.nums, j) == At(if j in from.nums && j == k then from.nums else m.nums, j)
            && At(r.texts, j) == At(if j in from.texts && j == k then from.texts else m.texts, j)
  {
  }

  lemma {:induction false} MergedAt(m: Msg, from: Msg, k: nat, j: nat)
    requires 1 <= k && (j in from.nums ==> IsNum(j)) && (j in from.texts ==> IsText(j))
    ensures var r := MergeParts(m, from, k);
            && r.unknown == m.unknown
            && At(r.nums, j) == At(if j in from.nums && j >= k then from.nums else m.nums, j)
            && At(r.texts, j) == At(if j in from.texts && j >= k then from.texts else m.texts, j)
    decreases 12 - k
  {
    hide MergeParts, MergePart;
    MergePartsOnce(m, from, k);
    if k <= 11 {
      MergedAt(MergePart(m, from, k), from, k + 1, j);
      PartAt(m, from, k, j);
    }
  }

  /** Merging the fields one by one is merging all of them. */
  lemma MergeOfParts(m: Msg, from: Msg)
    requires Sound(from)
    ensures MergeParts(m, from, 1) == Msg(m.nums + from.nums, m.texts + from.texts, m.unknown)
  {
    hide MergeParts, Sound;
    var r := MergeParts(m, from, 1);
    OnlyFields(from, 1);
    MergedAt(m, from, 1, 1);
    forall j: nat ensures At(r.nums, j) == At(m.nums + from.nums, j) {
      OnlyFields(from, j);
      MergedAt(m, from, 1, j);
    }
    forall j: nat ensures At(r.texts, j) == At(m.texts + from.texts, j) {
      OnlyFields(from, j);
      MergedAt(m, from, 1, j);
    }
    SameMap(r.nums, m.nums + from.nums);
    SameMap(r.texts, m.texts + from.texts);
  }

  lemma OnlyFields(m: Msg, j: nat)
    requires Sound(m)
    ensures (j in m.nums ==> IsNum(j)) && (j in m.texts ==> IsText(j))
  {
    hide Legal;
  }

  lemma SameMap<T>(a: map<nat, T>, b: map<nat, T>)
    requires forall j: nat :: At(a, j) == At(b, j)
    ensures a == b
  {
    assert forall j: nat :: j in a ==> At(a, j) == At(b, j);
    assert forall j: nat :: j in b ==> At(a, j) == At(b, j);
  }

  /** Parsing what was written for a message merges it, and goes on with what follows. */
  lemma ParseOfSerialize(m: Msg, from: Msg, rest: seq<Byte>, depth: nat)
    requires Ok(from, depth)
    ensures Parse(m, Serialize(from) + rest, depth) == Parse(Merge(m, from), rest, depth)
  {
    hide Parse, Parts, EmitAll, MergeParts;
    assert Serialize(from) + rest == Parts(from, 1) + (EmitAll(from.unknown) + rest);
    ParseParts(m, from, 1, EmitAll(from.unknown) + rest, depth);
    MergeOfParts(m, from);
    ParseUnknown(MergeParts(m, from, 1), from.unknown, rest, depth);
  }

  lemma ParseOfNothing(m: Msg, depth: nat)
    ensures Parse(m, [], depth) == Parsed(m, true)
  {
  }

  /** Round trip: every message reads back, with the same fields set. */
  lemma RoundTrip(m: Msg, depth: nat)
    requires Ok(m, depth)
    ensures Parse(EMPTY, Serialize(m), depth) == Parsed(m, true)
  {
    hide Parse, Ok, Serialize;
    ParseOfSerialize(EMPTY, m, [], depth);
    ParseOfNothing(m, depth);
    assert Serialize(m) + [] == Serialize(m);
    assert Merge(EMPTY, m) == m;
  }

  /** Two messages one after the other parse to the second merged into the first. */
  lemma Concatenation(a: Msg, b: Msg, depth: nat)
    requires Ok(a, depth) && Ok(b, depth)
    ensures Parse(EMPTY, Serialize(a) + Serialize(b), depth) == Parsed(Merge(a, b), true)
  {
    hide Parse, Ok, Serialize;
    ParseOfSerialize(EMPTY, a, Serialize(b), depth);
    assert Merge(EMPTY, a) == a;
    ParseOfSerialize(a, b, [], depth);
    assert Serialize(b) + [] == Serialize(b);
    ParseOfNothing(Merge(a, b), depth);
  }

  lemma ArrivedIsOk(m: Msg, k: nat, v: nat, depth: nat)
    requires Ok(m, depth) && IsNum(k) && v < TWO_64
    ensures Ok(Arrived(m, k, v), depth)
  {
    if IsEnum(k) && !Legal(k, v % TWO_32) {
      var u := Number(k, SignExtended(v % TWO_32));
      assert u.value % TWO_32 == v % TWO_32;
      assert Foreign(u, depth);
    }
  }

  /** Whatever bytes arrive: a parsed message is one that reads back. */
  lemma {:induction false} ParsedIsOk(m: Msg, s: seq<Byte>, depth: nat)
    requires Ok(m, depth)
    ensures var r := Parse(m, s, depth);
            r.Parsed? ==> Ok(r.m, depth)
    decreases |s|
  {
    hide ReadTag, ReadVarint, ReadBytes, Skip, Arrived, Legal, Fits;
    var (tag, rest) := ReadTag(s);
    if tag == 0 || EndsGroup(tag) {
    } else if IsKnown(tag) {
      var k := tag / 8;
      var r := ReadField(m, k, rest);
      if r.Some? {
        if !IsText(k) {
          ArrivedIsOk(m, k, ReadVarint(rest).value.0, depth);
        }
        ParsedIsOk(r.value.0, r.value.1, depth);
      }
    } else {
      var r := Skip(tag, rest, depth);
      if r.Some? {
        SkipFits(tag, rest, depth);
        ParsedIsOk(Keep(m, r.value.0), r.value.1, depth);
      }
    }
  }

  /** So writing a message that was parsed and parsing it again gives the same one. */
  lemma ParseAgain(s: seq<Byte>, depth: nat)
    ensures var r := Parse(EMPTY, s, depth);
            r.Parsed? ==> Parse(EMPTY, Serialize(r.m), depth) == Parsed(r.m, true)
  {
    hide Parse, Serialize;
    ParsedIsOk(EMPTY, s, depth);
    var r := Parse(EMPTY, s, depth);
    if r.Parsed? {
      RoundTrip(r.m, depth);
    }
  }

  // Any two texts, however they were written.

  lemma FieldBefore(m: Msg, k: nat, s: seq<Byte>, t: seq<Byte>)
    ensures var r := ReadField(m, k, s);
            r.Some? ==> ReadField(m, k, s + t) == Some((r.value.0, r.value.1 + t))
  {
    hide ReadVarint, ReadBytes, Arrived;
    VarintBefore(s, t);
    BytesBefore(s, t);
  }

  /** A text that parses to its end is a prefix to go on from. */
  lemma {:induction false} ParseBefore(m: Msg, s: seq<Byte>, t: seq<Byte>, depth: nat)
    ensures var r := Parse(m, s, depth);
            r.Parsed? && r.clean ==> Parse(m, s + t, depth) == Parse(r.m, t, depth)
    decreases |s|
  {
    hide ReadTag, ReadField, Skip, Parse;
    ParseStep(m, s, depth);
    ParseStep(m, s + t, depth);
    var (tag, rest) := ReadTag(s);
    TagBefore(s, t);
    if tag == 0 || EndsGroup(tag) {
      assert s == [] ==> s + t == t;
    } else {
      FieldBefore(m, tag / 8, rest, t);
      SkipBefore(tag, rest, t, depth);
      var r := if IsKnown(tag) then ReadField(m, tag / 8, rest)
               else var u := Skip(tag, rest, depth);
                    if u.None? then None else Some((Keep(m, u.value.0), u.value.1));
      if r.Some? {
        ParseBefore(r.value.0, r.value.1, t, depth);
      }
    }
  }

  lemma MergeThenField(m: Msg, a: Msg, k: nat, s: seq<Byte>)
    ensures var (r, q) := (ReadField(a, k, s), ReadField(Merge(m, a), k, s));
            r.None? <==> q.None?
    ensures var (r, q) := (ReadField(a, k, s), ReadField(Merge(m, a), k, s));
            r.Some? ==> q == Some((Merge(m, r.value.0), r.value.1))
  {
    hide ReadVarint, ReadBytes, Legal, SignExtended;
    forall v: nat ensures Merge(m, SetNum(a, k, v)) == SetNum(Merge(m, a), k, v) {
      SetOver(m.nums, a.nums, k, v);
    }
    forall data: seq<Byte> ensures Merge(m, SetText(a, k, data)) == SetText(Merge(m, a), k, data) {
      assert m.texts + a.texts[k := data] == (m.texts + a.texts)[k := data];
    }
    forall u: Unknown ensures Merge(m, Keep(a, u)) == Keep(Merge(m, a), u) {
      assert m.unknown + (a.unknown + [u]) == m.unknown + a.unknown + [u];
    }
  }

  /** Parsing into a message is merging what the text says into it. */
  lemma {:induction false} ParseMerges(m: Msg, a: Msg, s: seq<Byte>, depth: nat)
    ensures var r := Parse(a, s, depth);
            Parse(Merge(m, a), s, depth) == if r.Failed? then Failed else Parsed(Merge(m, r.m), r.clean)
    decreases |s|
  {
    hide ReadTag, ReadField, Skip, Parse, Merge;
    ParseStep(a, s, depth);
    ParseStep(Merge(m, a), s, depth);
    var (tag, rest) := ReadTag(s);
    if tag != 0 && !EndsGroup(tag) {
      if IsKnown(tag) {
        MergeThenField(m, a, tag / 8, rest);
        var r := ReadField(a, tag / 8, rest);
        if r.Some? {
          ParseMerges(m, r.value.0, r.value.1, depth);
        }
      } else {
        var u := Skip(tag, rest, depth);
        if u.Some? {
          MergeThenKeep(m, a, u.value.0);
          ParseMerges(m, Keep(a, u.value.0), u.value.1, depth);
        }
      }
    }
  }

  lemma MergeThenKeep(m: Msg, a: Msg, u: Unknown)
    ensures Merge(m, Keep(a, u)) == Keep(Merge(m, a), u)
  {
    assert m.unknown + (a.unknown + [u]) == m.unknown + a.unknown + [u];
  }

  /** For all texts: one after the other, they parse to the second message merged into the first. */
  lemma ParseOfConcatenation(s: seq<Byte>, t: seq<Byte>, depth: nat)
    ensures var (a, b) := (Parse(EMPTY, s, depth), Parse(EMPTY, t, depth));
            a.Parsed? && a.clean ==>
              Parse(EMPTY, s + t, depth) == if b.Failed? then Failed else Parsed(Merge(a.m, b.m), b.clean)
  {
    hide Parse;
    var a := Parse(EMPTY, s, depth);
    if a.Parsed? && a.clean {
      ParseBefore(EMPTY, s, t, depth);
      ParseMerges(a.m, EMPTY, t, depth);
      assert Merge(a.m, EMPTY) == a.m;
    }
  }

  // The fast path.

  /** When the next byte is the tag of field `k`, the plain loop goes to that field too. */
  lemma ExpectTag(m: Msg, k: nat, s: seq<Byte>, depth: nat)
    requires 1 <= k <= 11 && s != [] && s[0] == TagOf(k)
    ensures Parse(m, s, depth) == Fielded(m, k, s[1..], depth)
  {
    hide Varint, ReadTag, Fielded, Skip;
    ReadOfShortTag(TagOf(k), s);
  }

  // The object.

  function Default(k: nat): nat {
    match k
    case 2 => 16777216
    case 3 => 100001
    case 7 => 4000
    case 8 => 5000
    case _ => 0
  }

  /** The defaults: version 1.0.0.0, and the first enumerators of their kind but for the service. */
  lemma DefaultsAre()
    ensures Default(1) == Default(4) == Default(5) == Default(6) == 0
    ensures Default(2) == 0x0100_0000 && Default(3) == 100001 && Default(7) == 4000 && Default(8) == 5000
  {
  }

  /** One of the first eight bits, or one of the two after them. */
  predicate AnyNum(has: set<nat>) { exists k | k in has :: 1 <= k <= 8 }
  predicate AnyText(has: set<nat>) { exists k | k in has :: IsText(k) }

  /** The members of the object and their bits.  A member whose bit is clear holds its default. */
  ghost predicate Good(has: set<nat>, num: map<nat, nat>, text: map<nat, seq<Byte>>, ext: map<nat, nat>) {
    && (forall k | k in has :: 1 <= k <= 10)
    && (forall k :: k in num <==> 1 <= k <= 8)
    && (forall k | k in num :: Legal(k, num[k]) && (k !in has ==> num[k] == Default(k)))
    && (forall k :: k in text <==> IsText(k))
    && (forall k | k in text :: |text[k]| < TWO_31 && (k !in has ==> text[k] == []))
    && (forall k | k in ext :: k == 11 && ext[k] < TWO_64)
  }

  /** The members whose bit is set. */
  function Only<T>(m: map<nat, T>, has: set<nat>): map<nat, T> { map k | k in m && k in has :: m[k] }

  function Said(has: set<nat>, num: map<nat, nat>, text: map<nat, seq<Byte>>, ext: map<nat, nat>,
                unknown: seq<Unknown>): Msg
  {
    Msg(Only(num, has) + ext, Only(text, has), unknown)
  }

  lemma SetOver(a: map<nat, nat>, b: map<nat, nat>, k: nat, v: nat)
    ensures a + b[k := v] == (a + b)[k := v]
    ensures k !in b ==> a[k := v] + b == (a + b)[k := v]
  {
    var (x, y) := (a + b[k := v], (a + b)[k := v]);
    assert x.Keys == y.Keys;
    assert forall j | j in x :: x[j] == y[j];
    if k !in b {
      var z := a[k := v] + b;
      assert z.Keys == y.Keys;
      assert forall j | j in z :: z[j] == y[j];
    }
  }

  lemma OnlySet<T>(m: map<nat, T>, has: set<nat>, k: nat, v: T)
    ensures Only(m[k := v], has + {k}) == Only(m, has)[k := v]
    ensures k !in m ==> Only(m, has + {k}) == Only(m, has)
  {
  }

  lemma SetSays(has: set<nat>, num: map<nat, nat>, text: map<nat, seq<Byte>>, ext: map<nat, nat>,
                unknown: seq<Unknown>, k: nat, v: nat)
    requires Good(has, num, text, ext) && 1 <= k <= 8 && Legal(k, v)
    ensures Good(has + {k}, num[k := v], text, ext)
    ensures Said(has + {k}, num[k := v], text, ext, unknown) == SetNum(Said(has, num, text, ext, unknown), k, v)
  {
    hide Legal, Default, Only;
    assert k !in text && k !in ext;
    OnlySet(num, has, k, v);
    OnlySet(text, has, k, []);
    SetOver(Only(num, has), ext, k, v);
  }

  lemma SetBytesSays(has: set<nat>, num: map<nat, nat>, text: map<nat, seq<Byte>>, ext: map<nat, nat>,
                     unknown: seq<Unknown>, k: nat, data: seq<Byte>)
    requires Good(has, num, text, ext) && IsText(k) && |data| < TWO_31
    ensures Good(has + {k}, num, text[k := data], ext)
    ensures Said(has + {k}, num, text[k := data], ext, unknown) == SetText(Said(has, num, text, ext, unknown), k, data)
  {
    hide Legal, Default, Only;
    OnlySet(text, has, k, data);
    OnlySet(num, has, k, 0);
  }

  lemma ExtensionSays(has: set<nat>, num: map<nat, nat>, text: map<nat, seq<Byte>>, ext: map<nat, nat>,
                      unknown: seq<Unknown>, v: nat)
    requires Good(has, num, text, ext) && v < TWO_64
    ensures Good(has, num, text, ext[11 := v])
    ensures Said(has, num, text, ext[11 := v], unknown) == SetNum(Said(has, num, text, ext, unknown), 11, v)
  {
    hide Legal, Default, Only;
    SetOver(Only(num, has), ext, 11, v);
  }

  /** What the message says of one field. */
  lemma SaidOf(has: set<nat>, num: map<nat, nat>, text: map<nat, seq<Byte>>, ext: map<nat, nat>,
               unknown: seq<Unknown>, k: nat)
    requires Good(has, num, text, ext)
    ensures var m := Said(has, num, text, ext, unknown);
            && At(m.nums, k) ==
               (if 1 <= k <= 8 && k in has then At(num, k) else if k == 11 then At(ext, k) else None)
            && At(m.texts, k) == (if IsText(k) && k in has then At(text, k) else None)
            && m.unknown == unknown
    ensures 1 <= k <= 8 ==> k in num && Legal(k, num[k])
    ensures IsText(k) ==> k in text && |text[k]| < TWO_31
    ensures forall v | At(ext, k) == Some(v) :: k == 11 && v < TWO_64
  {
    hide Legal, Default;
  }

  lemma SaidIsSound(has: set<nat>, num: map<nat, nat>, text: map<nat, seq<Byte>>, ext: map<nat, nat>,
                    unknown: seq<Unknown>)
    requires Good(has, num, text, ext)
    ensures Sound(Said(has, num, text, ext, unknown))
  {
    hide Good, Said;
    var m := Said(has, num, text, ext, unknown);
    forall k | k in m.nums ensures IsNum(k) && Legal(k, m.nums[k]) {
      SaidOf(has, num, text, ext, unknown, k);
    }
    forall k | k in m.texts ensures IsText(k) && |m.texts[k]| < TWO_31 {
      SaidOf(has, num, text, ext, unknown, k);
    }
  }

  /** Clearing the bits when the members hold their defaults says nothing any more. */
  lemma ClearedSays(num: map<nat, nat>, text: map<nat, seq<Byte>>)
    requires (forall k :: k in num <==> 1 <= k <= 8) && (forall k | k in num :: num[k] == Default(k))
    requires (forall k :: k in text <==> IsText(k)) && (forall k | k in text :: text[k] == [])
    ensures Good({}, num, text, map[]) && Said({}, num, text, map[], []) == EMPTY
  {
    assert Only(num, {}) == map[] && Only(text, {}) == map[];
  }

  class Message {
    var has: set<nat>
    var num: map<nat, nat>
    var text: map<nat, seq<Byte>>
    var extensions: map<nat, nat>
    var unknownFields: seq<Unknown>

    ghost predicate Valid()
      reads this
    {
      Good(has, num, text, extensions)
    }

    ghost function Value(): Msg
      reads this
    {
      Said(has, num, text, extensions, unknownFields)
    }

    /** `SharedCtor`. */
    constructor ()
      ensures Valid() && Value() == EMPTY
    {
      num := map k: nat | 1 <= k <= 8 :: Default(k);
      text := map[9 := [], 10 := []];
      has, extensions, unknownFields := {}, map[], [];
      new;
      ClearedSays(num, text);
    }

    /** The members are only reset when one of their bits is set. */
    method Clear()
      requires Valid()
      modifies this
      ensures Valid() && Value() == EMPTY
    {
      hide Legal, Default, Said;
      extensions := map[];
      if AnyNum(has) {
        num := map k | k in num :: Default(k);
      }
      if AnyText(has) {
        text := map k | k in text :: if k in has then [] else text[k];
      }
      ClearedSays(num, text);
      has := {};
      unknownFields := [];
    }

    /** A setter: the member and its has-bit. */
    method Set(k: nat, v: nat)
      requires Valid() && 1 <= k <= 8 && Legal(k, v)
      modifies this`num, this`has
      ensures Valid() && Value() == SetNum(old(Value()), k, v)
    {
      hide Good, Said, Legal;
      SetSays(has, num, text, extensions, unknownFields, k, v);
      num, has := num[k := v], has + {k};
    }

    method SetBytes(k: nat, data: seq<Byte>)
      requires Valid() && IsText(k) && |data| < TWO_31
      modifies this`text, this`has
      ensures Valid() && Value() == SetText(old(Value()), k, data)
    {
      hide Good, Said;
      SetBytesSays(has, num, text, extensions, unknownFields, k, data);
      text, has := text[k := data], has + {k};
    }

    method SetExtension(v: nat)
      requires Valid() && v < TWO_64
      modifies this`extensions
      ensures Valid() && Value() == SetNum(old(Value()), 11, v)
    {
      hide Good, Said;
      ExtensionSays(has, num, text, extensions, unknownFields, v);
      extensions := extensions[11 := v];
    }

    method AddUnknown(us: seq<Unknown>)
      requires Valid()
      modifies this`unknownFields
      ensures Valid() && Value() == old(Value()).(unknown := old(Value()).unknown + us)
    {
      hide Good;
      unknownFields := unknownFields + us;
    }

    lemma FieldIs(k: nat)
      requires Valid()
      ensures At(Value().nums, k) ==
              (if 1 <= k <= 8 && k in has then At(num, k) else if k == 11 then At(extensions, k) else None)
      ensures At(Value().texts, k) == (if IsText(k) && k in has then At(text, k) else None)
      ensures Value().unknown == unknownFields
      ensures 1 <= k <= 8 ==> k in num && Legal(k, num[k])
      ensures IsText(k) ==> k in text && |text[k]| < TWO_31
      ensures forall v | At(extensions, k) == Some(v) :: k == 11 && v < TWO_64
    {
      hide Good, Said, Legal;
      SaidOf(has, num, text, extensions, unknownFields, k);
    }

    /** What is to be written for a field. */
    lemma PartIs(k: nat)
      requires Valid() && 1 <= k <= 11
      ensures k <= 8 ==> k in num && Part(Value(), k) == if k in has then Varint(TagOf(k)) + Varint(num[k]) else []
      ensures 9 <= k <= 10 ==>
                k in text && Part(Value(), k) == if k in has then Varint(TagOf(k)) + Counted(text[k]) else []
      ensures k == 11 ==>
                Part(Value(), k) == if 11 in extensions then Varint(88) + Varint(extensions[11]) else []
    {
      hide Varint, Counted, Value, Legal, Good;
      FieldIs(k);
    }

    lemma IsSound()
      requires Valid()
      ensures Sound(Value())
    {
      hide Good, Said, Sound;
      SaidIsSound(has, num, text, extensions, unknownFields);
    }

    /** The code behind one `parse_` label. */
    method ParseField(k: nat, input: seq<Byte>) returns (ok: bool, rest: seq<Byte>)
      requires Valid() && 1 <= k <= 10
      modifies this
      ensures Valid()
      ensures ok == ReadField(old(Value()), k, input).Some?
      ensures ok ==> Some((Value(), rest)) == ReadField(old(Value()), k, input)
    {
      hide ReadVarint, ReadBytes, SignExtended, Good, Said;
      ok, rest := true, [];
      if k == 9 || k == 10 {
        var r := ReadBytes(input);
        if r.None? {
          return false, [];
        }
        SetBytes(k, r.value.0);
        rest := r.value.1;
      } else {
        var r := ReadVarint(input);
        if r.None? {
          return false, [];
        }
        var v := r.value.0;
        rest := r.value.1;
        if IsEnum(k) {
          v := v % TWO_32;
          if Legal(k, v) {
            Set(k, v);
          } else {
            AddUnknown([Number(k, SignExtended(v))]);
          }
        } else {
          Set(k, if k == 2 || k == 6 then v % TWO_32 else v);
        }
      }
    }

    /** `handle_unusual` for a tag that does not end the message: the registered extension, or a field
        to be kept. */
    method ParseUnusual(tag: nat, input: seq<Byte>, depth: nat) returns (ok: bool, rest: seq<Byte>)
      requires Valid() && 0 < tag < TWO_32 && !EndsGroup(tag) && !(IsKnown(tag) && tag < 88)
      modifies this`extensions, this`unknownFields
      ensures Valid()
      ensures var r := if IsKnown(tag) then ReadField(old(Value()), tag / 8, input)
                       else var u := Skip(tag, input, depth);
                            if u.None? then None else Some((Keep(old(Value()), u.value.0), u.value.1));
              ok == r.Some? && (ok ==> Some((Value(), rest)) == r)
    {
      hide ReadVarint, ReadBytes, Skip, Legal, Good, Said;
      if tag == 88 {
        var r := ReadVarint(input);
        if r.None? {
          return false, [];
        }
        SetExtension(r.value.0);
        return true, r.value.1;
      }
      var u := Skip(tag, input, depth);
      if u.None? {
        return false, [];
      }
      AddUnknown([u.value.0]);
      return true, u.value.1;
    }

    /** `MergePartialFromCodedStream`.  After each field the parser looks whether the tag of the next
        field follows and then jumps into its case.  The look may miss a tag that does follow, when
        the stream has not buffered it; `sees` stands for that. */
    method MergePartialFromCodedStream(input: seq<Byte>, depth: nat, sees: nat -> bool)
      returns (ok: bool, clean: bool)
      requires Valid()
      modifies this
      ensures Valid()
      ensures var r := Parse(old(Value()), input, depth);
              ok == r.Parsed? && (ok ==> r == Parsed(Value(), clean))
    {
      hide Parse, ReadTag, ReadField, Skip, Valid, Value;
      var s, at: nat := input, 0;
      while true
        invariant Valid() && at <= 10
        invariant Parse(old(Value()), input, depth) ==
                  if at == 0 then Parse(Value(), s, depth) else Fielded(Value(), at, s, depth)
        decreases |s|
      {
        if at == 0 {
          ParseStep(Value(), s, depth);
          var (tag, more) := ReadTag(s);
          if IsKnown(tag) && tag < 88 {
            s, at := more, tag / 8;
          } else if tag == 0 || EndsGroup(tag) {
            return true, s == [];
          } else {
            ok, s := ParseUnusual(tag, more, depth);
            if !ok {
              return false, false;
            }
            continue;
          }
        }
        ok, s := ParseField(at, s);
        if !ok {
          return false, false;
        }
        if at == 10 && sees(|s|) && s == [] {
          ParseOfNothing(Value(), depth);
          return true, true;
        }
        if at < 10 && sees(|s|) && s != [] && s[0] == TagOf(at + 1) {
          ExpectTag(Value(), at + 1, s, depth);
          s, at := s[1..], at + 1;
        } else {
          at := 0;
        }
      }
    }

    method SerializeWithCachedSizes() returns (out: seq<Byte>)
      requires Valid()
      ensures out == Serialize(Value())
    {
      hide Varint, Counted, EmitAll, Parts, Part, Value, Legal, Good;
      out := [];
      ghost var m := Value();
      for k := 1 to 9
        invariant Parts(m, 1) == out + Parts(m, k)
      {
        FieldIs(k);
        PartIs(k);
        WriteOne(out, m, k);
        if k in has {
          out := out + (Varint(TagOf(k)) + Varint(num[k]));
        }
      }
      for k := 9 to 11
        invariant Parts(m, 1) == out + Parts(m, k)
      {
        FieldIs(k);
        PartIs(k);
        WriteOne(out, m, k);
        if k in has {
          out := out + (Varint(TagOf(k)) + Counted(text[k]));
        }
      }
      FieldIs(11);
      PartIs(11);
      WriteOne(out, m, 11);
      if 11 in extensions {
        out := out + (Varint(88) + Varint(extensions[11]));
      }
      assert Parts(m, 1) == out + Parts(m, 12);
      out := out + EmitAll(unknownFields);
    }

    method ByteSize() returns (size: nat)
      requires Valid()
      ensures size == |Serialize(Value())|
    {
      hide Varint, VarintSize, EmitAll, Parts, Value, Good, Sound;
      size := 0;
      ghost var m := Value();
      IsSound();
      if AnyNum(has) {
        for k := 1 to 9
          invariant |Parts(m, 1)| == size + |Parts(m, k)|
        {
          FieldIs(k);
          SizeOfPart(m, k);
          if k in has {
            size := size + (1 + VarintSize(num[k]));
          }
        }
      } else {
        forall k | 1 <= k < 9 ensures Part(m, k) == [] {
          FieldIs(k);
        }
        NoParts(m, 1, 9);
      }
      if AnyText(has) {
        for k := 9 to 11
          invariant |Parts(m, 1)| == size + |Parts(m, k)|
        {
          FieldIs(k);
          SizeOfPart(m, k);
          if k in has {
            size := size + (1 + VarintSize(|text[k]|) + |text[k]|);
          }
        }
      } else {
        forall k | 9 <= k < 11 ensures Part(m, k) == [] {
          FieldIs(k);
        }
        NoParts(m, 9, 11);
      }
      FieldIs(11);
      SizeOfPart(m, 11);
      PartsOnce(m, 11);
      if 11 in extensions {
        size := size + (1 + VarintSize(extensions[11]));
      }
      size := size + |EmitAll(unknownFields)|;
    }

    method MergeFrom(from: Message)
      requires Valid() && from.Valid() && from != this
      modifies this
      ensures Valid() && Value() == Merge(old(Value()), from.Value())
    {
      hide MergeParts, Legal, Sound, Good, Said;
      ghost var m := Value();
      ghost var f := from.Value();
      if AnyNum(from.has) {
        for k := 1 to 9
          invariant Valid() && MergeParts(m, f, 1) == MergeParts(Value(), f, k)
        {
          from.FieldIs(k);
          MergePartsOnce(Value(), f, k);
          if k in from.has {
            Set(k, from.num[k]);
          }
        }
      } else {
        forall k | 1 <= k < 9 ensures MergePart(m, f, k) == m {
          from.FieldIs(k);
        }
        NoMerge(m, f, 1, 9);
      }
      if AnyText(from.has) {
        for k := 9 to 11
          invariant Valid() && MergeParts(m, f, 1) == MergeParts(Value(), f, k)
        {
          from.FieldIs(k);
          MergePartsOnce(Value(), f, k);
          if k in from.has {
            SetBytes(k, from.text[k]);
          }
        }
      } else {
        ghost var now := Value();
        forall k | 9 <= k < 11 ensures MergePart(now, f, k) == now {
          from.FieldIs(k);
        }
        NoMerge(now, f, 9, 11);
      }
      ghost var now := Value();
      MergePartsOnce(now, f, 11);
      MergePartsOnce(MergePart(now, f, 11), f, 12);
      from.IsSound();
      MergeOfParts(m, f);
      from.FieldIs(11);
      if 11 in from.extensions {
        SetExtension(from.extensions[11]);
      }
      AddUnknown(from.unknownFields);
    }

    /** An accessor: a field that is not set reads as its default. */
    method Get(k: nat) returns (v: nat)
      requires Valid() && 1 <= k <= 8
      ensures v == if k in Value().nums then Value().nums[k] else Default(k)
    {
      FieldIs(k);
      v := num[k];
    }

    method IsInitialized() returns (r: bool)
      requires Valid()
      ensures r <==> 1 in Value().nums && 4 in Value().nums
    {
      hide Good, Said, Legal;
      FieldIs(1);
      FieldIs(4);
      r := {1, 4} <= has;
    }
  }

  lemma SizeOfPart(m: Msg, k: nat)
    requires 1 <= k <= 11 && Sound(m)
    ensures |Parts(m, k)| == |Parts(m, k + 1)| +
            if k in m.nums && !IsText(k) then 1 + VarintSize(m.nums[k])
            else if k in m.texts && IsText(k) then 1 + VarintSize(|m.texts[k]|) + |m.texts[k]|
            else 0
  {
    hide VarintSize, Parts;
    PartsOnce(m, k);
    assert |Varint(TagOf(k))| == 1;
    if k in m.nums && !IsText(k) {
      SizeOfVarint(m.nums[k]);
    } else if k in m.texts && IsText(k) {
      SizeOfVarint(|m.texts[k]|);
    }
  }

  lemma PartsOnce(m: Msg, k: nat)
    requires 1 <= k <= 11
    ensures Parts(m, k) == Part(m, k) + Parts(m, k + 1) && Parts(m, 12) == []
  {
    hide Part;
  }

  lemma WriteOne(out: seq<Byte>, m: Msg, k: nat)
    requires 1 <= k <= 11
    ensures out + Parts(m, k) == out + Part(m, k) + Parts(m, k + 1) && Parts(m, 12) == [] && out + [] == out
  {
    hide Part, Parts;
    PartsOnce(m, k);
    assert out + (Part(m, k) + Parts(m, k + 1)) == out + Part(m, k) + Parts(m, k + 1);
  }

  lemma MergePartsOnce(m: Msg, from: Msg, k: nat)
    ensures MergeParts(m, from, k) == if k > 11 then m else MergeParts(MergePart(m, from, k), from, k + 1)
  {
    hide MergePart;
  }

  lemma {:induction false} NoMerge(m: Msg, from: Msg, k: nat, end: nat)
    requires 1 <= k <= end <= 12 && forall j | k <= j < end :: MergePart(m, from, j) == m
    ensures MergeParts(m, from, k) == MergeParts(m, from, end)
    decreases end - k
  {
    hide MergePart;
    if k < end {
      NoMerge(m, from, k + 1, end);
    }
  }

  lemma {:induction false} NoParts(m: Msg, k: nat, end: nat)
    requires 1 <= k <= end <= 12 && forall j | k <= j < end :: Part(m, j) == []
    ensures Parts(m, k) == Parts(m, end)
    decreases end - k
  {
    hide Part;
    if k < end {
      NoParts(m, k + 1, end);
    }
  }

  /** One turn of the plain loop. */
  lemma ParseStep(m: Msg, s: seq<Byte>, depth: nat)
    ensures var (tag, rest) := ReadTag(s);
            Parse(m, s, depth) ==
            if tag == 0 || EndsGroup(tag) then Parsed(m, s == [])
            else
              var r := if IsKnown(tag) then ReadField(m, tag / 8, rest)
                       else var u := Skip(tag, rest, depth);
                            if u.None? then None else Some((Keep(m, u.value.0), u.value.1));
              if r.None? then Failed else Parse(r.value.0, r.value.1, depth)
  {
    hide ReadTag, Skip, ReadField;
  }
}
