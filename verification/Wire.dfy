/** The wire format of Protocol Buffers, as far as probuf/socmsg.pb.cpp uses it: varints, tags, bytes
    and fields that nobody knows. */
module Wire {
  import opened Arith
  import opened Optional

  type Byte = x: int | 0 <= x < 256

  const TWO_31: int := 0x8000_0000
  const TWO_32: int := 0x1_0000_0000
  const TWO_64: int := 0x1_0000_0000_0000_0000

  // Varints.

  /** Groups of seven bits, the lowest first; all but the last have the high bit set. */
  function Varint(v: nat): (s: seq<Byte>)
    ensures s != []
  {
    if v < 128 then [v] else [128 + v % 128] + Varint(v / 128)
  }

  /** The groups at the start of `s`, at most `n` of them, as a number, and what follows. */
  function Groups(s: seq<Byte>, n: nat): (r: Option<(nat, seq<Byte>)>)
    ensures r.Some? ==> |r.value.1| < |s|
  {
    if s == [] || n == 0 then None
    else if s[0] < 128 then Some((s[0], s[1..]))
    else
      var high := Groups(s[1..], n - 1);
      if high.None? then None else Some((s[0] - 128 + 128 * high.value.0, high.value.1))
  }

  /** A varint of at most ten bytes; bits from 64 on are lost. */
  function ReadVarint(s: seq<Byte>): (r: Option<(nat, seq<Byte>)>)
    ensures r.Some? ==> r.value.0 < TWO_64 && |r.value.1| < |s|
  {
    var r := Groups(s, 10);
    if r.None? then None else Some((r.value.0 % TWO_64, r.value.1))
  }

  function Pow128(n: nat): nat { if n == 0 then 1 else 128 * Pow128(n - 1) }

  /** The low seven bits of each byte as the digits of a number, the lowest first. */
  function Base128(s: seq<Byte>): nat {
    if s == [] then 0 else s[0] % 128 + 128 * Base128(s[1..])
  }

  /** All bytes but the last have the high bit set. */
  predicate IsVarint(s: seq<Byte>) {
    s != [] && s[|s| - 1] < 128 && forall i | 0 <= i < |s| - 1 :: s[i] >= 128
  }

  /** The sum by positions. */
  lemma {:induction false} Base128Snoc(s: seq<Byte>, b: Byte)
    ensures Base128(s + [b]) == Base128(s) + b % 128 * Pow128(|s|)
  {
    if s == [] {
      assert [b][1..] == [] && [] + [b] == [b];
    } else {
      assert (s + [b])[1..] == s[1..] + [b];
      Base128Snoc(s[1..], b);
      TimesPower(b % 128, |s|);
    }
  }

  lemma TimesPower(d: nat, n: nat)
    requires n > 0
    ensures d * Pow128(n) == 128 * (d * Pow128(n - 1))
  {
  }

  /** What is written for a number are its digits to base 128, with a bit that says whether more follow. */
  lemma {:induction false} VarintIsBase128(v: nat)
    ensures IsVarint(Varint(v)) && Base128(Varint(v)) == v
    decreases v
  {
    var s := Varint(v);
    if v < 128 {
      assert s[1..] == [];
    } else {
      VarintIsBase128(v / 128);
      assert s[1..] == Varint(v / 128);
      forall i | 0 < i < |s| ensures s[i] == Varint(v / 128)[i - 1] {
        assert s[i] == s[1..][i - 1];
      }
    }
  }

  /** What is read of any bytes: the digits up to the first byte without that bit; nothing is read exactly
      when there is none among the first `n`. */
  lemma {:induction false} GroupsAreBase128(s: seq<Byte>, n: nat)
    ensures var r := Groups(s, n);
            if r.Some? then
              var k := |s| - |r.value.1|;
              0 < k <= n && s[k..] == r.value.1 && IsVarint(s[..k]) && r.value.0 == Base128(s[..k])
            else forall i | 0 <= i < n && i < |s| :: s[i] >= 128
    decreases n
  {
    if s != [] && n > 0 {
      if s[0] < 128 {
        assert s[..1] == [s[0]] && [s[0]][1..] == [];
      } else {
        GroupsAreBase128(s[1..], n - 1);
        var r := Groups(s[1..], n - 1);
        if r.Some? {
          LongerVarint(s, |s| - |r.value.1|);
        } else {
          forall i | 0 < i < n && i < |s| ensures s[i] >= 128 {
            assert s[i] == s[1..][i - 1];
          }
        }
      }
    }
  }

  lemma LongerVarint(s: seq<Byte>, k: nat)
    requires 1 < k <= |s| && s[0] >= 128 && IsVarint(s[1..][..k - 1])
    ensures s[1..][k - 1..] == s[k..] && IsVarint(s[..k])
    ensures Base128(s[..k]) == s[0] - 128 + 128 * Base128(s[1..][..k - 1])
  {
    var (a, b) := (s[..k], s[1..][..k - 1]);
    assert a[1..] == b;
    forall i | 0 < i < k ensures a[i] == b[i - 1] {
      assert a[i] == a[1..][i - 1];
    }
  }

  lemma {:induction false} GroupsOfVarint(v: nat, n: nat, rest: seq<Byte>)
    requires n > 0 && v < Pow128(n)
    ensures Groups(Varint(v) + rest, n) == Some((v, rest)) && |Varint(v)| <= n
    decreases n
  {
    var s := Varint(v) + rest;
    if v < 128 {
      assert s[1..] == rest;
    } else {
      assert Pow128(n) == 128 * Pow128(n - 1);
      assert n > 1;
      GroupsOfVarint(v / 128, n - 1, rest);
      assert s[1..] == Varint(v / 128) + rest;
    }
  }

  lemma ReadOfVarint(v: nat, rest: seq<Byte>)
    requires v < TWO_64
    ensures ReadVarint(Varint(v) + rest) == Some((v, rest)) && |Varint(v)| <= 10
  {
    hide Varint, Groups;
    assert Pow128(5) == 0x8_0000_0000;
    assert Pow128(10) == 0x40_0000_0000_0000_0000;
    GroupsOfVarint(v, 10, rest);
  }

  /** The size of a varint, by comparison. */
  function VarintSize(v: nat): nat
    requires v < TWO_64
  {
    if v < 0x80 then 1 else if v < 0x4000 then 2 else if v < 0x20_0000 then 3 else if v < 0x1000_0000 then 4
    else if v < 0x8_0000_0000 then 5 else if v < 0x400_0000_0000 then 6 else if v < 0x2_0000_0000_0000 then 7
    else if v < 0x100_0000_0000_0000 then 8 else if v < 0x8000_0000_0000_0000 then 9 else 10
  }

  lemma {:induction false} SizeOfVarint(v: nat)
    requires v < TWO_64
    ensures |Varint(v)| == VarintSize(v)
  {
    if v >= 128 {
      SizeOfVarint(v / 128);
    }
  }

  // Tags.

  /** The next tag, 0 at the end of the input or when it cannot be read. */
  function ReadTag(s: seq<Byte>): (r: (nat, seq<Byte>))
    ensures r.0 < TWO_32 && |r.1| <= |s| && (r.0 != 0 ==> |r.1| < |s|)
  {
    var r := ReadVarint(s);
    if r.None? then (0, s) else (r.value.0 % TWO_32, r.value.1)
  }

  lemma ReadOfTag(tag: nat, rest: seq<Byte>)
    requires tag < TWO_32
    ensures ReadTag(Varint(tag) + rest) == (tag, rest)
  {
    hide Varint, ReadVarint;
    ReadOfVarint(tag, rest);
  }

  /** A tag of one byte. */
  lemma ReadOfShortTag(tag: nat, s: seq<Byte>)
    requires tag < 128 && s != [] && s[0] == tag
    ensures ReadTag(s) == (tag, s[1..])
  {
    assert Varint(tag) == [tag];
    assert s == [tag] + s[1..];
    ReadOfTag(tag, s[1..]);
  }

  predicate EndsGroup(tag: nat) { tag % 8 == 4 }

  // Bytes with their length.

  function Counted(data: seq<Byte>): seq<Byte> { Varint(|data|) + data }

  /** The length is read as 32 bits; from 2^31 on it is refused. */
  function ReadBytes(s: seq<Byte>): (r: Option<(seq<Byte>, seq<Byte>)>)
    ensures r.Some? ==> |r.value.0| < TWO_31 && |r.value.1| < |s|
  {
    var r := ReadVarint(s);
    if r.None? then None
    else
      var (size, rest) := (r.value.0 % TWO_32, r.value.1);
      if size >= TWO_31 || size > |rest| then None else Some((rest[..size], rest[size..]))
  }

  lemma ReadOfCounted(data: seq<Byte>, rest: seq<Byte>)
    requires |data| < TWO_31
    ensures ReadBytes(Counted(data) + rest) == Some((data, rest))
  {
    hide Varint, ReadVarint;
    assert Counted(data) + rest == Varint(|data|) + (data + rest);
    ReadOfVarint(|data|, data + rest);
    assert (data + rest)[..|data|] == data && (data + rest)[|data|..] == rest;
  }

  // Fields that nobody knows.

  datatype Unknown =
    | Number(field: nat, value: nat)
    | Fixed64(field: nat, data: seq<Byte>)
    | Bytes(field: nat, data: seq<Byte>)
    | Group(field: nat, items: seq<Unknown>)
    | Fixed32(field: nat, data: seq<Byte>)

  function Tag(u: Unknown): nat {
    8 * u.field + match u { case Number(_, _) => 0 case Fixed64(_, _) => 1 case Bytes(_, _) => 2
                            case Group(_, _) => 3 case Fixed32(_, _) => 5 }
  }

  /** What fits the format, groups at most `depth` deep. */
  predicate Fits(u: Unknown, depth: nat)
    decreases u
  {
    && 0 < Tag(u) && Tag(u) + 1 < TWO_32
    && match u {
         case Number(_, v) => v < TWO_64
         case Fixed64(_, data) => |data| == 8
         case Bytes(_, data) => |data| < TWO_31
         case Group(_, items) => depth > 0 && forall x | x in items :: Fits(x, depth - 1)
         case Fixed32(_, data) => |data| == 4
       }
  }

  function Body(u: Unknown): seq<Byte>
    decreases u, 0
  {
    match u
    case Number(_, v) => Varint(v)
    case Fixed64(_, data) => data
    case Bytes(_, data) => Counted(data)
    case Group(_, items) => EmitAll(items) + Varint(Tag(u) + 1)
    case Fixed32(_, data) => data
  }

  function Emit(u: Unknown): seq<Byte>
    decreases u, 1
  {
    Varint(Tag(u)) + Body(u)
  }

  function EmitAll(items: seq<Unknown>): seq<Byte> {
    if items == [] then [] else Emit(items[0]) + EmitAll(items[1..])
  }

  function ReadFixed(s: seq<Byte>, n: nat): (r: Option<(seq<Byte>, seq<Byte>)>)
    ensures r.Some? ==> |r.value.0| == n && |r.value.1| <= |s|
  {
    if |s| < n then None else Some((s[..n], s[n..]))
  }

  /** The field after a tag, kept as it is. */
  function Skip(tag: nat, s: seq<Byte>, depth: nat): (r: Option<(Unknown, seq<Byte>)>)
    ensures r.Some? ==> |r.value.1| <= |s| && Tag(r.value.0) == tag
    decreases |s|, depth, 0
  {
    var field := tag / 8;
    match tag % 8
    case 0 => var r := ReadVarint(s); if r.None? then None else Some((Number(field, r.value.0), r.value.1))
    case 1 => var r := ReadFixed(s, 8); if r.None? then None else Some((Fixed64(field, r.value.0), r.value.1))
    case 2 => var r := ReadBytes(s); if r.None? then None else Some((Bytes(field, r.value.0), r.value.1))
    case 3 =>
      if depth == 0 then None
      else
        var r := SkipAll(s, depth - 1);
        if r.None? || r.value.1 != tag + 1 then None else Some((Group(field, r.value.0), r.value.2))
    case 5 => var r := ReadFixed(s, 4); if r.None? then None else Some((Fixed32(field, r.value.0), r.value.1))
    case _ => None
  }

  /** Fields up to the end of a group or of the input, and the tag that ended them. */
  function SkipAll(s: seq<Byte>, depth: nat): (r: Option<(seq<Unknown>, nat, seq<Byte>)>)
    ensures r.Some? ==> |r.value.2| <= |s|
    decreases |s|, depth, 1
  {
    var (tag, rest) := ReadTag(s);
    if tag == 0 || EndsGroup(tag) then Some(([], tag, rest))
    else
      var u := Skip(tag, rest, depth);
      if u.None? then None
      else
        var more := SkipAll(u.value.1, depth);
        if more.None? then None else Some(([u.value.0] + more.value.0, more.value.1, more.value.2))
  }

  /** A field that was kept is read back the same, whatever follows it. */
  lemma {:induction false} SkipOfBody(u: Unknown, rest: seq<Byte>, depth: nat)
    requires Fits(u, depth)
    ensures Skip(Tag(u), Body(u) + rest, depth) == Some((u, rest))
    decreases u, 0
  {
    hide Varint, ReadVarint, ReadBytes, Counted, EmitAll, SkipAll;
    match u
    case Number(_, v) => ReadOfVarint(v, rest);
    case Fixed64(_, data) => assert (data + rest)[..8] == data && (data + rest)[8..] == rest;
    case Bytes(_, data) => ReadOfCounted(data, rest);
    case Group(_, items) => {
      SkipOfItems(items, Tag(u) + 1, rest, depth - 1);
      assert Body(u) + rest == EmitAll(items) + (Varint(Tag(u) + 1) + rest);
    }
    case Fixed32(_, data) => assert (data + rest)[..4] == data && (data + rest)[4..] == rest;
  }

  lemma {:induction false} SkipOfItems(items: seq<Unknown>, end: nat, rest: seq<Byte>, depth: nat)
    requires (forall x | x in items :: Fits(x, depth)) && EndsGroup(end) && end < TWO_32
    ensures SkipAll(EmitAll(items) + (Varint(end) + rest), depth) == Some((items, end, rest))
    decreases items
  {
    hide Varint, ReadTag, Body, Skip;
    var s := EmitAll(items) + (Varint(end) + rest);
    if items == [] {
      assert s == Varint(end) + rest;
      ReadOfTag(end, rest);
    } else {
      var (u, tail) := (items[0], EmitAll(items[1..]) + (Varint(end) + rest));
      assert u in items && Fits(u, depth);
      assert Emit(u) == Varint(Tag(u)) + Body(u);
      assert s == Emit(u) + EmitAll(items[1..]) + (Varint(end) + rest);
      assert s == Varint(Tag(u)) + (Body(u) + tail);
      ReadOfTag(Tag(u), Body(u) + tail);
      SkipOfBody(u, tail, depth);
      SkipOfItems(items[1..], end, rest, depth);
      assert [u] + items[1..] == items;
    }
  }

  // What each wire type takes of the bytes.

  /** The digits of a number that was read, at most ten. */
  lemma ReadVarintTakes(s: seq<Byte>)
    ensures var r := ReadVarint(s);
            if r.Some? then
              var k := |s| - |r.value.1|;
              && 0 < k <= 10 && IsVarint(s[..k]) && r.value.1 == s[k..]
              && r.value.0 == Base128(s[..k]) % TWO_64
            else forall i | 0 <= i < 10 && i < |s| :: s[i] >= 128
  {
    hide Groups, IsVarint, Base128;
    GroupsAreBase128(s, 10);
  }

  /** A tag is the low 32 bits of a number. */
  lemma ReadTagTakes(s: seq<Byte>)
    ensures if forall i | 0 <= i < 10 && i < |s| :: s[i] >= 128 then ReadTag(s) == (0, s)
            else
              var k := |s| - |ReadTag(s).1|;
              0 < k <= 10 && IsVarint(s[..k]) && ReadTag(s) == (Base128(s[..k]) % TWO_32, s[k..])
  {
    hide ReadVarint, IsVarint, Base128;
    ReadVarintTakes(s);
    var r := ReadVarint(s);
    if r.Some? {
      var k := |s| - |r.value.1|;
      LowBits(Base128(s[..k]));
      LastDigit(s, k);
    }
  }

  lemma LastDigit(s: seq<Byte>, k: nat)
    requires 0 < k <= |s| && IsVarint(s[..k])
    ensures s[k - 1] < 128
  {
  }

  /** How a field that nobody knows is written: its number and type, then the value; a group ends with a tag of
      type 4. */
  lemma EmitIs(u: Unknown)
    ensures Emit(u) == match u
                       case Number(f, v) => Varint(8 * f) + Varint(v)
                       case Fixed64(f, data) => Varint(8 * f + 1) + data
                       case Bytes(f, data) => Varint(8 * f + 2) + (Varint(|data|) + data)
                       case Group(f, items) => Varint(8 * f + 3) + (EmitAll(items) + Varint(8 * f + 4))
                       case Fixed32(f, data) => Varint(8 * f + 5) + data
  {
    hide Varint, EmitAll;
  }

  /** Types 1 and 5 take eight and four bytes; 4, 6 and 7 are refused. */
  lemma SkipTakes(tag: nat, s: seq<Byte>, depth: nat)
    ensures tag % 8 in {4, 6, 7} ==> Skip(tag, s, depth).None?
    ensures tag % 8 == 1 ==>
              Skip(tag, s, depth) == if |s| < 8 then None else Some((Fixed64(tag / 8, s[..8]), s[8..]))
    ensures tag % 8 == 5 ==>
              Skip(tag, s, depth) == if |s| < 4 then None else Some((Fixed32(tag / 8, s[..4]), s[4..]))
  {
    hide ReadVarint, ReadBytes, SkipAll;
  }

  /** Type 0 takes a number. */
  lemma SkipTakesNumber(tag: nat, s: seq<Byte>, depth: nat, u: Unknown, rest: seq<Byte>)
    requires tag % 8 == 0 && Skip(tag, s, depth) == Some((u, rest))
    ensures var k := |s| - |rest|;
            && 0 < k <= 10 && IsVarint(s[..k]) && rest == s[k..]
            && u == Number(tag / 8, Base128(s[..k]) % TWO_64)
  {
    hide ReadVarint, IsVarint, Base128;
    ReadVarintTakes(s);
  }

  /** Type 2 takes a number `n` in `k` bytes, and as many bytes as its low 32 bits say. */
  lemma ReadBytesTakes(s: seq<Byte>, data: seq<Byte>, rest: seq<Byte>) returns (k: nat)
    requires ReadBytes(s) == Some((data, rest))
    ensures 0 < k <= 10 && k <= |s| && IsVarint(s[..k]) && Base128(s[..k]) % TWO_32 == |data| < TWO_31
    ensures s[k..] == data + rest
  {
    hide ReadVarint, IsVarint, Base128;
    ReadVarintTakes(s);
    k := |s| - |ReadVarint(s).value.1|;
    LowBits(Base128(s[..k]));
  }

  lemma LowBits(v: nat)
    ensures v % TWO_64 % TWO_32 == v % TWO_32
  {
    var (q, w) := (v / TWO_64, v % TWO_64);
    var (p, r) := (w / TWO_32, w % TWO_32);
    assert v == TWO_64 * q + w && w == TWO_32 * p + r && TWO_64 * q == TWO_32 * (TWO_32 * q);
    QuotientIs(v, TWO_32, TWO_32 * q + p, r);
  }

  /** All that is kept fits. */
  lemma {:induction false} SkipFits(tag: nat, s: seq<Byte>, depth: nat)
    requires 0 < tag < TWO_32
    ensures var r := Skip(tag, s, depth);
            r.Some? ==> Fits(r.value.0, depth)
    decreases |s|, depth, 0
  {
    hide ReadVarint, ReadBytes, ReadFixed, SkipAll;
    if tag % 8 == 3 && depth > 0 {
      SkipAllFit(s, depth - 1);
    }
  }

  lemma {:induction false} SkipAllFit(s: seq<Byte>, depth: nat)
    ensures var r := SkipAll(s, depth);
            r.Some? ==> forall x | x in r.value.0 :: Fits(x, depth)
    decreases |s|, depth, 1
  {
    hide ReadTag, Skip;
    var (tag, rest) := ReadTag(s);
    if tag != 0 && !EndsGroup(tag) {
      SkipFits(tag, rest, depth);
      var u := Skip(tag, rest, depth);
      if u.Some? {
        SkipAllFit(u.value.1, depth);
      }
    }
  }

  // What is read does not depend on what follows it.

  lemma {:induction false} GroupsBefore(s: seq<Byte>, n: nat, t: seq<Byte>)
    ensures var r := Groups(s, n);
            r.Some? ==> Groups(s + t, n) == Some((r.value.0, r.value.1 + t))
    decreases n
  {
    if s != [] && n > 0 {
      assert (s + t)[1..] == s[1..] + t;
      GroupsBefore(s[1..], n - 1, t);
    }
  }

  lemma VarintBefore(s: seq<Byte>, t: seq<Byte>)
    ensures var r := ReadVarint(s);
            r.Some? ==> ReadVarint(s + t) == Some((r.value.0, r.value.1 + t))
  {
    hide Groups;
    GroupsBefore(s, 10, t);
  }

  lemma TagBefore(s: seq<Byte>, t: seq<Byte>)
    ensures var (tag, rest) := ReadTag(s);
            tag != 0 ==> ReadTag(s + t) == (tag, rest + t)
  {
    hide ReadVarint;
    VarintBefore(s, t);
  }

  lemma BytesBefore(s: seq<Byte>, t: seq<Byte>)
    ensures var r := ReadBytes(s);
            r.Some? ==> ReadBytes(s + t) == Some((r.value.0, r.value.1 + t))
  {
    hide ReadVarint;
    VarintBefore(s, t);
    var r := ReadVarint(s);
    if r.Some? {
      var (size, rest) := (r.value.0 % TWO_32, r.value.1);
      assert size <= |rest| ==> (rest + t)[..size] == rest[..size] && (rest + t)[size..] == rest[size..] + t;
    }
  }

  lemma FixedBefore(s: seq<Byte>, n: nat, t: seq<Byte>)
    ensures var r := ReadFixed(s, n);
            r.Some? ==> ReadFixed(s + t, n) == Some((r.value.0, r.value.1 + t))
  {
    assert n <= |s| ==> (s + t)[..n] == s[..n] && (s + t)[n..] == s[n..] + t;
  }

  lemma {:induction false} SkipBefore(tag: nat, s: seq<Byte>, t: seq<Byte>, depth: nat)
    ensures var r := Skip(tag, s, depth);
            r.Some? ==> Skip(tag, s + t, depth) == Some((r.value.0, r.value.1 + t))
    decreases |s|, depth, 0
  {
    hide ReadVarint, ReadBytes, ReadFixed, SkipAll;
    VarintBefore(s, t);
    BytesBefore(s, t);
    FixedBefore(s, 8, t);
    FixedBefore(s, 4, t);
    if depth > 0 {
      SkipAllBefore(s, t, depth - 1);
    }
  }

  lemma {:induction false} SkipAllBefore(s: seq<Byte>, t: seq<Byte>, depth: nat)
    ensures var r := SkipAll(s, depth);
            r.Some? && r.value.1 != 0 ==> SkipAll(s + t, depth) == Some((r.value.0, r.value.1, r.value.2 + t))
    decreases |s|, depth, 1
  {
    hide ReadTag, Skip;
    var (tag, rest) := ReadTag(s);
    TagBefore(s, t);
    if tag != 0 && !EndsGroup(tag) {
      SkipBefore(tag, rest, t, depth);
      var u := Skip(tag, rest, depth);
      if u.Some? {
        SkipAllBefore(u.value.1, t, depth);
      }
    }
  }
}
