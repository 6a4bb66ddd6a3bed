/** The two codecs of crypt/base64.cpp. */
module Base64 {
  import opened Arith
  import Wire

  type Byte = Wire.Byte

  // The encoding of section 4 of RFC 4648.

  /** The alphabet. */
  function Letter(v: nat): (c: char)
    requires v < 64
    ensures c as int != 0 && c != '='
  {
    if v < 26 then 'A' + v as char
    else if v < 52 then 'a' + (v - 26) as char
    else if v < 62 then '0' + (v - 52) as char
    else if v == 62 then '+' else '/'
  }

  /** The place of a character in the alphabet, or -1. */
  function Place(c: char): (v: int)
    ensures -1 <= v < 64 && (v >= 0 ==> Letter(v) == c)
  {
    if 'A' <= c <= 'Z' then c as int - 'A' as int
    else if 'a' <= c <= 'z' then c as int - 'a' as int + 26
    else if '0' <= c <= '9' then c as int - '0' as int + 52
    else if c == '+' then 62 else if c == '/' then 63 else -1
  }

  lemma PlaceOfLetter(v: nat)
    requires v < 64
    ensures Place(Letter(v)) == v
  {
  }

  /** Three bytes as one number, and its four groups of six bits. */
  function Join(a: Byte, b: Byte, c: Byte): nat { 65536 * a as nat + 256 * b as nat + c as nat }

  function Sextet(v: nat, k: nat): (r: nat)
    requires k < 4
    ensures r < 64
  {
    (if k == 0 then v / 262144 else if k == 1 then v / 4096 else if k == 2 then v / 64 else v) % 64
  }

  function Quad(a: Byte, b: Byte, c: Byte): (s: string)
    ensures |s| == 4
  {
    var v := Join(a, b, c);
    [Letter(Sextet(v, 0)), Letter(Sextet(v, 1)), Letter(Sextet(v, 2)), Letter(Sextet(v, 3))]
  }

  /** The alphabet of section 4 of RFC 4648, written out. */
  function Alphabet(): (s: string)
    ensures |s| == 64
  {
    "ABCDEFGHIJKLMNOP" + "QRSTUVWXYZabcdef" + "ghijklmnopqrstuv" + "wxyz0123456789+/"
  }

  lemma AlphabetIs(v: nat)
    requires v < 64
    ensures Letter(v) == Alphabet()[v]
  {
    if v < 16 {
      assert Alphabet()[v] == "ABCDEFGHIJKLMNOP"[v];
    } else if v < 32 {
      assert Alphabet()[v] == "QRSTUVWXYZabcdef"[v - 16];
    } else if v < 48 {
      assert Alphabet()[v] == "ghijklmnopqrstuv"[v - 32];
    } else {
      assert Alphabet()[v] == "wxyz0123456789+/"[v - 48];
    }
  }

  /** Three bytes as one number in four digits to base 64, the first one highest. */
  lemma QuadIsBase64(a: Byte, b: Byte, c: Byte) returns (p: nat, q: nat, r: nat, t: nat)
    ensures p < 64 && q < 64 && r < 64 && t < 64
    ensures 64 * 64 * 64 * p + 64 * 64 * q + 64 * r + t == 256 * 256 * a as nat + 256 * b as nat + c as nat
    ensures Quad(a, b, c) == [Alphabet()[p], Alphabet()[q], Alphabet()[r], Alphabet()[t]]
  {
    hide Sextet, Letter, Alphabet;
    var v := Join(a, b, c);
    MasksAreSextets(a, b, c);
    p, q, r, t := Sextet(v, 0), Sextet(v, 1), Sextet(v, 2), Sextet(v, 3);
    DigitsTo64(a as nat, b as nat, c as nat);
    AlphabetIs(p);
    AlphabetIs(q);
    AlphabetIs(r);
    AlphabetIs(t);
  }

  lemma DigitsTo64(a: nat, b: nat, c: nat)
    ensures 64 * 64 * 64 * (a / 4) + 64 * 64 * (a % 4 * 16 + b / 16) + 64 * (b % 16 * 4 + c / 64) + c % 64 ==
            256 * 256 * a + 256 * b + c
  {
    assert a == 4 * (a / 4) + a % 4 && b == 16 * (b / 16) + b % 16 && c == 64 * (c / 64) + c % 64;
  }

  /** Four such digits as three bytes: the same number. */
  lemma TripleIsBase256(p: nat, q: nat, r: nat, t: nat)
    requires p < 64 && q < 64 && r < 64 && t < 64
    ensures var s := Triple(p, q, r, t);
            256 * 256 * s[0] as nat + 256 * s[1] as nat + s[2] as nat == 64 * 64 * 64 * p + 64 * 64 * q + 64 * r + t
  {
    DigitsTo256(262144 * p + 4096 * q + 64 * r + t);
  }

  lemma DigitsTo256(v: nat)
    requires v < 16777216
    ensures 65536 * (v / 65536 % 256) + 256 * (v / 256 % 256) + v % 256 == v
  {
    var (h, l) := (v / 256, v % 256);
    var (x, y) := (h / 256, h % 256);
    assert v == 256 * h + l && h == 256 * x + y;
    QuotientIs(v, 65536, x, 256 * y + l);
  }

  function Rfc(s: seq<Byte>): string {
    if s == [] then ""
    else if |s| == 1 then Quad(s[0], 0, 0)[..2] + "=="
    else if |s| == 2 then Quad(s[0], s[1], 0)[..3] + "="
    else Quad(s[0], s[1], s[2]) + Rfc(s[3..])
  }

  /** Four groups of six bits as three bytes. */
  function Triple(p: nat, q: nat, r: nat, t: nat): (s: seq<Byte>)
    requires p < 64 && q < 64 && r < 64 && t < 64
    ensures |s| == 3
  {
    var v := 262144 * p + 4096 * q + 64 * r + t;
    [v / 65536 % 256, v / 256 % 256, v % 256]
  }

  /** Four groups of six bits in one number. */
  lemma SextetsOf(p: nat, q: nat, r: nat, t: nat)
    requires p < 64 && q < 64 && r < 64 && t < 64
    ensures var v := 262144 * p + 4096 * q + 64 * r + t;
            Sextet(v, 0) == p && Sextet(v, 1) == q && Sextet(v, 2) == r && Sextet(v, 3) == t
  {
    var v := 262144 * p + 4096 * q + 64 * r + t;
    assert v / 262144 == p;
    assert v / 4096 == 64 * p + q;
    assert v / 64 == 4096 * p + 64 * q + r;
  }

  /** The masks and shifts of the encoder on one triple: four groups of six bits. */
  lemma MasksAreSextets(a: Byte, b: Byte, c: Byte)
    ensures var v := Join(a, b, c);
            && Sextet(v, 0) == a as nat / 4
            && Sextet(v, 1) == a as nat % 4 * 16 + b as nat / 16
            && Sextet(v, 2) == b as nat % 16 * 4 + c as nat / 64
            && Sextet(v, 3) == c as nat % 64
  {
    hide Sextet;
    var x: nat := a;
    var y: nat := b;
    var z: nat := c;
    assert x == 4 * (x / 4) + x % 4 && y == 16 * (y / 16) + y % 16 && z == 64 * (z / 64) + z % 64;
    SextetsOf(x / 4, x % 4 * 16 + y / 16, y % 16 * 4 + z / 64, z % 64);
  }

  /** Taking six bits from each of four groups gives the three bytes back. */
  lemma TripleOfQuad(a: Byte, b: Byte, c: Byte)
    ensures var v := Join(a, b, c);
            Triple(Sextet(v, 0), Sextet(v, 1), Sextet(v, 2), Sextet(v, 3)) == [a, b, c]
  {
    hide Sextet, Triple;
    MasksAreSextets(a, b, c);
    var x: nat := a;
    var y: nat := b;
    var z: nat := c;
    assert x == 4 * (x / 4) + x % 4 && y == 16 * (y / 16) + y % 16 && z == 64 * (z / 64) + z % 64;
    TripleIs(x / 4, x % 4 * 16 + y / 16, y % 16 * 4 + z / 64, z % 64, a, b, c);
  }

  lemma TripleIs(p: nat, q: nat, r: nat, t: nat, a: Byte, b: Byte, c: Byte)
    requires p < 64 && q < 64 && r < 64 && t < 64
    requires 262144 * p + 4096 * q + 64 * r + t == 65536 * a as nat + 256 * b as nat + c as nat
    ensures Triple(p, q, r, t) == [a, b, c]
  {
    var v := 262144 * p + 4096 * q + 64 * r + t;
    BytesOf(v, a, b, c);
  }

  lemma BytesOf(v: nat, a: nat, b: nat, c: nat)
    requires a < 256 && b < 256 && c < 256 && v == 65536 * a + 256 * b + c
    ensures v / 65536 % 256 == a && v / 256 % 256 == b && v % 256 == c
  {
    assert v / 65536 == a;
    assert v / 256 == 256 * a + b;
  }

  // The first codec: data padded with '=' bytes.

  /** The encoder fills up the data, not the text. */
  function Filled(s: seq<Byte>): (r: seq<Byte>)
    ensures |r| % 3 == 0
  {
    s + match |s| % 3 { case 0 => [] case 1 => [0x3D, 0x3D] case _ => [0x3D] }
  }

  lemma RfcOnce(s: seq<Byte>, i: nat)
    requires |s| % 3 == 0 && i % 3 == 0 && i < |s|
    ensures i + 3 <= |s| && Rfc(s[i..]) == Quad(s[i], s[i + 1], s[i + 2]) + Rfc(s[i + 3..])
  {
    hide Quad;
    assert s[i..][3..] == s[i + 3..];
  }

  /** The letters of the values are the text. */
  predicate Spells(dst: seq<nat>, text: string) {
    |dst| == |text| && forall k | 0 <= k < |dst| :: dst[k] < 64 && Letter(dst[k]) == text[k]
  }

  /** Three bytes more. */
  lemma SpellsMore(dst: seq<nat>, text: string, x: Byte, y: Byte, z: Byte)
    requires Spells(dst, text)
    ensures var (a, b, c) := (x as nat, y as nat, z as nat);
            Spells(dst + [a / 4, a % 4 * 16 + b / 16, b % 16 * 4 + c / 64, c % 64], text + Quad(x, y, z))
  {
    hide Letter, Sextet;
    MasksAreSextets(x, y, z);
  }

  /** `Base64Encode`: a buffer of six-bit values, then the letters in their place. */
  method Base64Encode(src: seq<Byte>) returns (szOut: string)
    ensures szOut == Rfc(Filled(src))
  {
    hide Rfc, Spells, Filled;
    var n := |src|;
    var buf := src;
    if n % 3 != 0 {
      buf := src + seq(3 - n % 3, _ => 0x3D);
    }
    assert buf == Filled(src) by { FilledUp(src, buf); }
    var dst := SixBits(buf);
    szOut := LettersOf(dst, Rfc(buf));
  }

  lemma FilledUp(src: seq<Byte>, buf: seq<Byte>)
    requires buf == src + seq((3 - |src| % 3) % 3, _ => 0x3D)
    ensures buf == Filled(src)
  {
  }

  /** The first loop. */
  method SixBits(buf: seq<Byte>) returns (dst: seq<nat>)
    requires |buf| % 3 == 0
    ensures Spells(dst, Rfc(buf))
  {
    hide Rfc, Quad, Spells;
    dst := [];
    var i := 0;
    ghost var text := "";
    SpellsNone(dst, text);
    assert buf[0..] == buf && text + Rfc(buf) == Rfc(buf);
    while i < |buf|
      invariant i % 3 == 0 && i <= |buf| && Spells(dst, text) && Rfc(buf) == text + Rfc(buf[i..])
    {
      var a: nat, b: nat, c: nat := buf[i], buf[i + 1], buf[i + 2];
      SpellsMore(dst, text, buf[i], buf[i + 1], buf[i + 2]);
      RfcOnce(buf, i);
      Regroup(text, Quad(buf[i], buf[i + 1], buf[i + 2]), Rfc(buf[i + 3..]));
      text := text + Quad(buf[i], buf[i + 1], buf[i + 2]);
      dst := dst + [a / 4, a % 4 * 16 + b / 16, b % 16 * 4 + c / 64, c % 64];
      i := i + 3;
    }
    assert buf[i..] == [] && text + "" == text;
    RfcOfNone();
  }

  lemma Regroup(a: string, b: string, c: string)
    ensures a + (b + c) == a + b + c
  {
  }

  /** The last loop: the letters in the place of the values. */
  method LettersOf(dst: seq<nat>, ghost text: string) returns (szOut: string)
    requires Spells(dst, text)
    ensures szOut == text
  {
    hide Letter;
    szOut := seq(|dst|, k requires 0 <= k < |dst| => Letter(dst[k]));
  }

  lemma SpellsNone(dst: seq<nat>, text: string)
    requires dst == [] && text == ""
    ensures Spells(dst, text)
  {
  }

  lemma RfcOfNone()
    ensures Rfc([]) == ""
  {
  }

  function PlaceOf(b: Byte): (v: int)
    ensures -1 <= v < 64
  {
    Place(b as char)
  }

  /** The text with each character replaced by its place, up to the first that has none. */
  function Places(s: seq<Byte>): (r: seq<Byte>)
    ensures |r| == |s|
  {
    if s == [] || PlaceOf(s[0]) == -1 then s else [PlaceOf(s[0])] + Places(s[1..])
  }

  /** Byte `i` becomes its index in the alphabet, if it and all bytes before it are of the alphabet; otherwise it
      stays. */
  lemma {:induction false} PlacesAt(s: seq<Byte>, i: nat)
    requires i < |s|
    ensures if forall j | 0 <= j <= i :: s[j] as char in Alphabet() then
              Places(s)[i] < 64 && Alphabet()[Places(s)[i]] == s[i] as char
            else Places(s)[i] == s[i]
    decreases i
  {
    hide Place, Letter, Alphabet;
    PlaceIs(s[0] as char);
    if PlaceOf(s[0]) != -1 {
      if i > 0 {
        PlacesAt(s[1..], i - 1);
        assert forall j | 0 <= j <= i :: j > 0 ==> s[j] == s[1..][j - 1];
        assert (forall j | 0 <= j <= i :: s[j] as char in Alphabet()) <==>
               (forall j | 0 <= j <= i - 1 :: s[1..][j] as char in Alphabet());
      }
    }
  }

  lemma PlaceIs(c: char)
    ensures Place(c) != -1 <==> c in Alphabet()
    ensures Place(c) != -1 ==> Alphabet()[Place(c)] == c
  {
    hide Place, Letter, Alphabet;
    if Place(c) != -1 {
      AlphabetIs(Place(c));
    }
    if c in Alphabet() {
      var v :| 0 <= v < 64 && Alphabet()[v] == c;
      AlphabetIs(v);
      PlaceOfLetter(v);
    }
  }

  /** The bytes of the decoder for one group of four. */
  function Three(p: Byte, q: Byte, r: Byte, t: Byte): seq<Byte> {
    [(p as nat * 4 + q as nat / 16 % 4) % 256, (q as nat % 16 * 16 + r as nat / 4 % 16) % 256,
     (r as nat % 4 * 64 + t as nat) % 256]
  }

  function Threes(s: seq<Byte>): seq<Byte>
    requires |s| % 4 == 0
  {
    if s == [] then [] else Three(s[0], s[1], s[2], s[3]) + Threes(s[4..])
  }

  /** The first loop of `Base64Decode`, which maps its source in place. */
  method MapToPlaces(src: array<Byte>)
    modifies src
    ensures src[..] == Places(old(src[..]))
  {
    hide Places, PlaceOf;
    var i := 0;
    ghost var was := src[..];
    ghost var done: seq<Byte> := [];
    assert was[0..] == was && done + was == was && done + Places(was) == Places(was);
    while i < src.Length
      invariant i == |done| <= |was| == src.Length
      invariant src[..] == done + was[i..] && Places(was) == done + Places(was[i..])
    {
      assert src[i] == src[..][i] == was[i];
      var p := PlaceOf(src[i]);
      PlacesOnce(was, i);
      if p == -1 {
        return;
      }
      src[i] := p;
      Replaced(done, was, p);
      assert done + ([p] + Places(was[i + 1..])) == done + [p] + Places(was[i + 1..]);
      done := done + [p];
      i := i + 1;
    }
    PlacesOfNone();
    assert was[i..] == [] && done + [] == done;
  }

  lemma Replaced(done: seq<Byte>, was: seq<Byte>, p: Byte)
    requires |done| < |was|
    ensures (done + was[|done|..])[|done| := p] == done + [p] + was[|done| + 1..]
  {
  }

  /** `Base64Decode`.  A length that is not a multiple of four makes it run over its buffers. */
  method Base64Decode(src: array<Byte>) returns (lpOut: seq<Byte>)
    requires src.Length % 4 == 0 && forall i | 0 <= i < src.Length :: src[i] != 0
    modifies src
    ensures src[..] == Places(old(src[..]))
    ensures lpOut == Threes(src[..]) + [0]
  {
    hide Places, Threes, Three;
    MapToPlaces(src);
    lpOut := [];
    var i := 0;
    ghost var s := src[..];
    assert s[0..] == s;
    while i < src.Length
      invariant src[..] == s && i <= src.Length && i % 4 == 0 && Threes(s) == lpOut + Threes(s[i..])
    {
      ThreesOnce(s, i);
      var more := Three(src[i], src[i + 1], src[i + 2], src[i + 3]);
      assert lpOut + (more + Threes(s[i + 4..])) == lpOut + more + Threes(s[i + 4..]);
      lpOut := lpOut + more;
      i := i + 4;
    }
    assert s[i..] == [] && Threes([]) == [] by { ThreesOfNone(); }
    lpOut := lpOut + [0];
  }

  lemma PlacesOnce(s: seq<Byte>, i: nat)
    requires i < |s|
    ensures Places(s[i..]) == if PlaceOf(s[i]) == -1 then s[i..] else [PlaceOf(s[i])] + Places(s[i + 1..])
  {
    assert s[i..][1..] == s[i + 1..];
  }

  lemma PlacesOfNone()
    ensures Places([]) == []
  {
  }

  lemma ThreesOnce(s: seq<Byte>, i: nat)
    requires |s| % 4 == 0 && i % 4 == 0 && i < |s|
    ensures i + 4 <= |s| && Threes(s[i..]) == Three(s[i], s[i + 1], s[i + 2], s[i + 3]) + Threes(s[i + 4..])
  {
    hide Three;
    assert s[i..][4..] == s[i + 4..];
  }

  lemma ThreesOfNone()
    ensures Threes([]) == []
  {
  }

  /** A text as the bytes of its characters. */
  function Codes(s: string): (r: seq<Byte>)
    ensures |r| == |s|
  {
    seq(|s|, i requires 0 <= i < |s| => s[i] as int % 256)
  }

  predicate Low(d: seq<Byte>) { forall i | 0 <= i < |d| :: d[i] < 64 }

  function Four(v: nat): (d: seq<Byte>)
    ensures |d| == 4 && Low(d)
  {
    [Sextet(v, 0), Sextet(v, 1), Sextet(v, 2), Sextet(v, 3)]
  }

  /** The groups of six bits of the data. */
  function Sextets(s: seq<Byte>): (d: seq<Byte>)
    requires |s| % 3 == 0
    ensures 3 * |d| == 4 * |s| && Low(d)
  {
    if s == [] then [] else Four(Join(s[0], s[1], s[2])) + Sextets(s[3..])
  }

  function Letters(d: seq<Byte>): (s: string)
    requires Low(d)
    ensures |s| == |d|
  {
    if d == [] then "" else [Letter(d[0])] + Letters(d[1..])
  }

  lemma {:induction false} LettersAppend(d: seq<Byte>, e: seq<Byte>)
    requires Low(d) && Low(e)
    ensures Letters(d + e) == Letters(d) + Letters(e)
    decreases |d|
  {
    hide Letter;
    if d == [] {
      assert d + e == e;
    } else {
      assert (d + e)[1..] == d[1..] + e;
      LettersAppend(d[1..], e);
    }
  }

  lemma {:induction false} RfcIsLetters(s: seq<Byte>)
    requires |s| % 3 == 0
    ensures Rfc(s) == Letters(Sextets(s))
    decreases |s|
  {
    hide Letter, Sextet;
    if s != [] {
      RfcIsLetters(s[3..]);
      var d := Four(Join(s[0], s[1], s[2]));
      LettersAppend(d, Sextets(s[3..]));
      FourLetters(d[0], d[1], d[2], d[3]);
    }
  }

  lemma FourLetters(p: Byte, q: Byte, r: Byte, t: Byte)
    requires p < 64 && q < 64 && r < 64 && t < 64
    ensures Letters([p, q, r, t]) == [Letter(p), Letter(q), Letter(r), Letter(t)]
  {
    hide Letter;
    assert [p, q, r, t][1..] == [q, r, t] && [q, r, t][1..] == [r, t] && [r, t][1..] == [t] && [t][1..] == [];
    assert Letters([t]) == [Letter(t)];
    assert Letters([r, t]) == [Letter(r), Letter(t)];
    assert Letters([q, r, t]) == [Letter(q), Letter(r), Letter(t)];
  }

  lemma {:induction false} PlacesOfLetters(d: seq<Byte>)
    requires Low(d)
    ensures Places(Codes(Letters(d))) == d
    decreases |d|
  {
    hide Letter, Place;
    if d != [] {
      PlaceOfLetter(d[0]);
      LetterIsByte(d[0]);
      PlacesOfLetters(d[1..]);
      var s := Codes(Letters(d));
      assert s[1..] == Codes(Letters(d[1..]));
      assert s[0] as char == Letter(d[0]);
    }
  }

  lemma {:induction false} ThreesOfSextets(s: seq<Byte>)
    requires |s| % 3 == 0
    ensures |Sextets(s)| % 4 == 0 && Threes(Sextets(s)) == s
    decreases |s|
  {
    hide Sextet, Join, Three, Threes, Sextets;
    if s == [] {
      ThreesOfNone();
      SextetsOfNone();
    } else {
      var d := Sextets(s);
      SextetsOnce(s);
      ThreesOfSextets(s[3..]);
      ThreesOnce(d, 0);
      assert d[0..] == d && d[4..] == Sextets(s[3..]);
      MasksAreSextets(s[0], s[1], s[2]);
      ThreeIs(s[0], s[1], s[2], d[0], d[1], d[2], d[3]);
      assert s == [s[0], s[1], s[2]] + s[3..];
    }
  }

  lemma SextetsOfNone()
    ensures Sextets([]) == []
  {
  }

  lemma SextetsOnce(s: seq<Byte>)
    requires |s| % 3 == 0 && s != []
    ensures Sextets(s) == Four(Join(s[0], s[1], s[2])) + Sextets(s[3..])
  {
    hide Four, Join;
  }

  lemma ThreeIs(a: Byte, b: Byte, c: Byte, p: Byte, q: Byte, r: Byte, t: Byte)
    requires p as nat == a as nat / 4 && q as nat == a as nat % 4 * 16 + b as nat / 16
    requires r as nat == b as nat % 16 * 4 + c as nat / 64 && t as nat == c as nat % 64
    ensures Three(p, q, r, t) == [a, b, c]
  {
    var x: nat := a;
    var y: nat := b;
    var z: nat := c;
    assert x == 4 * (x / 4) + x % 4 && y == 16 * (y / 16) + y % 16 && z == 64 * (z / 64) + z % 64;
    assert q as nat / 16 == x % 4 && q as nat % 16 == y / 16;
    assert r as nat / 4 == y % 16 && r as nat % 4 == z / 64;
  }

  lemma LetterIsByte(v: nat)
    requires v < 64
    ensures Letter(v) as int < 256 && Letter(v) as int != 0
  {
  }

  /** The first codec: the text is that of the data filled up with '=' bytes, and decoding gives the
      data with those bytes. */
  lemma DecodeOfEncode(s: seq<Byte>)
    ensures |Rfc(Filled(s))| % 4 == 0
    ensures |Places(Codes(Rfc(Filled(s))))| % 4 == 0
    ensures Threes(Places(Codes(Rfc(Filled(s))))) == Filled(s)
  {
    hide Rfc, Sextets, Letters, Places, Threes, Filled;
    RfcIsLetters(Filled(s));
    PlacesOfLetters(Sextets(Filled(s)));
    ThreesOfSextets(Filled(s));
  }

  /** Both calls, one after the other. */
  method EncodeThenDecode(s: seq<Byte>) returns (text: string, lpOut: seq<Byte>)
    ensures text == Rfc(Filled(s)) && lpOut == Filled(s) + [0]
  {
    hide Rfc, Places, Threes, Filled, Sextets, Letters;
    text := Base64Encode(s);
    DecodeOfEncode(s);
    RfcIsLetters(Filled(s));
    ghost var d := Sextets(Filled(s));
    forall i | 0 <= i < |text| ensures Codes(text)[i] != 0 {
      LettersAt(d, i);
    }
    var src := new Byte[|text|](i requires 0 <= i < |text| => text[i] as int % 256);
    assert src[..] == Codes(text);
    lpOut := Base64Decode(src);
  }

  lemma {:induction false} LettersAt(d: seq<Byte>, i: nat)
    requires Low(d) && i < |d|
    ensures 0 < Letters(d)[i] as int < 256 && Letters(d)[i] != '='
    decreases i
  {
    hide Letter;
    if i == 0 {
      LetterIsByte(d[0]);
    } else {
      LettersAt(d[1..], i - 1);
    }
  }

  lemma {:induction false} RfcIsPadded(s: seq<Byte>)
    requires |s| % 3 != 0
    ensures |Rfc(s)| > 0 && Rfc(s)[|Rfc(s)| - 1] == '='
    decreases |s|
  {
    hide Quad;
    if |s| > 3 {
      RfcIsPadded(s[3..]);
    }
  }

  lemma FilledIsSame(s: seq<Byte>)
    ensures Filled(s) == s <==> |s| % 3 == 0
  {
    assert |s| % 3 == 0 ==> s + [] == s;
  }

  /** The data comes back, and the text is that of RFC 4648, exactly for data of whole groups of three. */
  lemma WholeTriples(s: seq<Byte>)
    ensures |Places(Codes(Rfc(Filled(s))))| % 4 == 0
    ensures Threes(Places(Codes(Rfc(Filled(s))))) == s <==> |s| % 3 == 0
    ensures Rfc(Filled(s)) == Rfc(s) <==> |s| % 3 == 0
  {
    hide Rfc, Places, Threes, Filled, Sextets, Letters, Codes;
    DecodeOfEncode(s);
    FilledIsSame(s);
    if |s| % 3 != 0 {
      RfcIsPadded(s);
      RfcIsLetters(Filled(s));
      var d := Sextets(Filled(s));
      if Letters(d) == Rfc(s) {
        LettersAt(d, |d| - 1);
        assert false;
      }
    }
  }

  /** One byte, `a`: the padding of the data comes back with it, and the text is another one. */
  lemma OneByteIsPadded()
    ensures Filled([97]) == [97, 61, 61] && Rfc(Filled([97])) == "YT09" && Rfc([97]) == "YQ=="
  {
    assert [97, 61, 61][3..] == [] && Rfc([]) == "";
    assert Rfc([97, 61, 61]) == Quad(97, 61, 61) + "";
  }

  // The second codec: text padded with '=' characters, a C string at a time.

  /** What `strncpy` takes of a group and `strlen` finds in it: the bytes before the first NUL. */
  function Cut(g: seq<Byte>): (c: seq<Byte>)
    ensures |c| <= |g| && forall i | 0 <= i < |c| :: c[i] == g[i] && c[i] != 0
    ensures |c| < |g| ==> g[|c|] == 0
  {
    if g == [] || g[0] == 0 then [] else [g[0]] + Cut(g[1..])
  }

  /** The low 24 bits of `buf | (long)b << (16 - 8 * i)`, where `buf` has nothing yet below the bits of
      byte `i - 1`.  A byte from 128 on is a negative `char`; its sign fills all bits above it. */
  function OrIn(buf: nat, b: Byte, i: nat): nat
    requires i < 3
  {
    var low := if i == 0 then 65536 else if i == 1 then 256 else 1;
    (if b < 128 then buf else 16777216 - 256 * low) + b as nat * low
  }

  function Merged(c: seq<Byte>): nat
    requires |c| <= 3
  {
    if c == [] then 0 else OrIn(Merged(c[..|c| - 1]), c[|c| - 1], |c| - 1)
  }

  function EncodeGroup(g: seq<Byte>): (s: string)
    requires |g| <= 3
    ensures |s| == 4
  {
    var c := Cut(g);
    seq(4, i requires 0 <= i < 4 => if i <= |c| then Letter(Sextet(Merged(c), i)) else '=')
  }

  function Encoded(s: seq<Byte>): string {
    if s == [] then "" else if |s| <= 3 then EncodeGroup(s) else EncodeGroup(s[..3]) + Encoded(s[3..])
  }

  predicate Readable(s: string) { forall i | 0 <= i < |s| :: s[i] == '=' || Place(s[i]) >= 0 }

  function Value(c: char): (v: nat)
    requires c == '=' || Place(c) >= 0
    ensures v < 64
  {
    if c == '=' then 0 else Place(c)
  }

  function Decoded(s: string): seq<Byte>
    requires Readable(s)
  {
    if |s| < 4 then [] else Triple(Value(s[0]), Value(s[1]), Value(s[2]), Value(s[3])) + Decoded(s[4..])
  }

  /** The inner loops of `base64_encode`. */
  method EncodeOneGroup(g: seq<Byte>) returns (s: string)
    requires |g| <= 3
    ensures s == EncodeGroup(g)
  {
    hide Letter, Sextet, OrIn, Cut;
    var c := Cut(g);
    var buf := 0;
    for i := 0 to |c|
      invariant buf == Merged(c[..i])
    {
      assert c[..i + 1][..i] == c[..i] && c[..i + 1][i] == c[i];
      buf := OrIn(buf, c[i], i);
    }
    assert c[..|c|] == c;
    s := "";
    for i := 0 to 4
      invariant |s| == i && forall k | 0 <= k < i :: s[k] == EncodeGroup(g)[k]
    {
      s := s + if |c| + 1 > i then [Letter(Sextet(buf, i))] else "=";
    }
  }

  /** `base64_encode`; a NUL follows the last byte of `src`. */
  method EncodeString(src: seq<Byte>) returns (dst: string)
    ensures dst == Encoded(src)
  {
    hide Encoded, EncodeGroup;
    var n := |src|;
    var count := n / 3 + if n % 3 != 0 then 1 else 0;
    dst := "";
    EncodedOfNone();
    assert src[3 * 0..] == src && (count == 0 ==> src == []);
    for j := 0 to count
      invariant 3 * j <= n + 2 && (j < count ==> 3 * j < n)
      invariant j < count ==> Encoded(src) == dst + Encoded(src[3 * j..])
      invariant j == count ==> dst == Encoded(src)
    {
      var end := if 3 * j + 3 <= n then 3 * j + 3 else n;
      var more := EncodeOneGroup(src[3 * j..end]);
      EncodedOnce(src, 3 * j);
      assert dst + (more + Encoded(src[end..])) == dst + more + Encoded(src[end..]);
      dst := dst + more;
    }
  }

  lemma EncodedOfNone()
    ensures Encoded([]) == ""
  {
  }

  lemma EncodedOnce(s: seq<Byte>, i: nat)
    requires i < |s|
    ensures var end := if i + 3 <= |s| then i + 3 else |s|;
            Encoded(s[i..]) == EncodeGroup(s[i..end]) + Encoded(s[end..])
            && (end == |s| ==> Encoded(s[i..]) == EncodeGroup(s[i..end]))
  {
    hide EncodeGroup;
    var rest := s[i..];
    if |rest| <= 3 {
      assert s[i..|s|] == rest && s[|s|..] == [];
      assert EncodeGroup(rest) + "" == EncodeGroup(rest);
    } else {
      assert rest[..3] == s[i..i + 3] && rest[3..] == s[i + 3..];
    }
  }

  /** The search of the decoder through its table. */
  method FindPlace(c: char) returns (k: nat)
    requires Place(c) >= 0
    ensures k == Place(c)
  {
    k := 0;
    while Letter(k) != c
      invariant k <= Place(c)
      decreases 64 - k
    {
      k := k + 1;
    }
    PlaceOfLetter(k);
  }

  /** `base64_decode`.  The search does not end for a character outside the alphabet. */
  method DecodeString(src: string) returns (dst: seq<Byte>)
    requires Readable(src)
    ensures dst == Decoded(src)
  {
    hide Decoded, Place, Triple, Value, Readable;
    dst := [];
    assert src[4 * 0..] == src;
    for j := 0 to |src| / 4
      invariant Readable(src[4 * j..]) && Decoded(src) == dst + Decoded(src[4 * j..])
    {
      ReadableParts(src, 4 * j);
      var g := FindValues(src[4 * j..4 * j + 4]);
      DecodedOnce(src, 4 * j);
      var more := Triple(g[0], g[1], g[2], g[3]);
      assert dst + (more + Decoded(src[4 * j + 4..])) == dst + more + Decoded(src[4 * j + 4..]);
      dst := dst + more;
    }
    DecodedOfFew(src[4 * (|src| / 4)..]);
  }

  lemma ReadableParts(s: string, i: nat)
    requires Readable(s) && i + 4 <= |s|
    ensures Readable(s[i..i + 4]) && Readable(s[i..]) && Readable(s[i + 4..])
  {
    hide Place;
  }

  /** The values of the characters of a group. */
  method FindValues(group: string) returns (g: seq<nat>)
    requires Readable(group)
    ensures |g| == |group| && forall k | 0 <= k < |g| :: g[k] == Value(group[k])
  {
    hide Place;
    g := [];
    for i := 0 to |group|
      invariant |g| == i && forall k | 0 <= k < i :: g[k] == Value(group[k])
    {
      var tmp := 0;
      if group[i] != '=' {
        tmp := FindPlace(group[i]);
      }
      g := g + [tmp];
    }
  }

  lemma DecodedOfFew(s: string)
    requires |s| < 4 && Readable(s)
    ensures Decoded(s) == []
  {
  }

  lemma DecodedOnce(s: string, i: nat)
    requires i + 4 <= |s| && Readable(s)
    ensures Decoded(s[i..]) ==
            Triple(Value(s[i]), Value(s[i + 1]), Value(s[i + 2]), Value(s[i + 3])) + Decoded(s[i + 4..])
  {
    hide Triple, Place;
    assert s[i..][4..] == s[i + 4..];
  }

  // What survives.

  /** Three bytes from those of a group: a byte from 128 on makes the ones before it 255. */
  function Spread(c: seq<Byte>): (r: seq<Byte>)
    requires |c| <= 3
    ensures |r| == 3
  {
    match |c|
    case 0 => [0, 0, 0]
    case 1 => [c[0], 0, 0]
    case 2 => [if c[1] >= 128 then 255 else c[0], c[1], 0]
    case _ => [if c[1] >= 128 || c[2] >= 128 then 255 else c[0], if c[2] >= 128 then 255 else c[1], c[2]]
  }

  /** What a group decodes to. */
  function Sent(g: seq<Byte>): (r: seq<Byte>)
    requires |g| <= 3
    ensures |r| == 3
  {
    Spread(Cut(g))
  }

  /** The groups that come back whole: nothing after a NUL, and nothing before a byte from 128 on but
      bytes of 255. */
  predicate Plain(g: seq<Byte>)
    requires |g| <= 3
  {
    forall i, j | 0 <= i < j < |g| :: (g[i] == 0 ==> g[j] == 0) && (g[j] >= 128 ==> g[i] == 255)
  }

  predicate AllPlain(s: seq<Byte>) {
    if |s| <= 3 then Plain(s) else Plain(s[..3]) && AllPlain(s[3..])
  }

  function AllSent(s: seq<Byte>): seq<Byte> {
    if s == [] then [] else if |s| <= 3 then Sent(s) else Sent(s[..3]) + AllSent(s[3..])
  }

  function Zeros(n: nat): seq<Byte> { seq(n, _ => 0) }

  /** The zero bytes up to a multiple of three. */
  function Gap(n: nat): nat { (3 - n % 3) % 3 }

  lemma MergedOnce(c: seq<Byte>, b: Byte)
    requires |c| < 3
    ensures Merged(c + [b]) == OrIn(Merged(c), b, |c|) && Merged([]) == 0
  {
    hide OrIn;
    assert (c + [b])[..|c|] == c;
  }

  function JoinAll(s: seq<Byte>): nat
    requires |s| == 3
  {
    Join(s[0], s[1], s[2])
  }

  lemma MergedOfNone()
    ensures Merged([]) == JoinAll([0, 0, 0])
  {
    hide Join, OrIn;
    JoinOfNothing();
  }

  lemma MergedOfOne(a: Byte)
    ensures Merged([a]) == JoinAll([a, 0, 0])
  {
    hide Merged, OrIn, Join;
    JoinOfNothing();
    MergedOnce([], a);
    assert [] + [a] == [a];
    OrInto(0, 0, 0, a);
  }

  lemma MergedOfTwo(a: Byte, b: Byte)
    ensures Merged([a, b]) == JoinAll([if b >= 128 then 255 else a, b, 0])
  {
    hide Merged, OrIn, Join;
    MergedOfOne(a);
    MergedOnce([a], b);
    assert [a] + [b] == [a, b];
    OrInto(a, 0, 1, b);
  }

  lemma MergedOfThree(a: Byte, b: Byte, d: Byte)
    ensures Merged([a, b, d]) == JoinAll([if b >= 128 || d >= 128 then 255 else a, if d >= 128 then 255 else b, d])
  {
    hide Merged, OrIn, Join;
    MergedOfTwo(a, b);
    MergedOnce([a, b], d);
    assert [a, b] + [d] == [a, b, d];
    OrInto(if b >= 128 then 255 else a, b, 2, d);
  }

  lemma MergedIs(c: seq<Byte>)
    requires |c| <= 3
    ensures Merged(c) == JoinAll(Spread(c))
  {
    hide Merged, JoinAll;
    if |c| == 0 {
      assert c == [];
      MergedOfNone();
    } else if |c| == 1 {
      assert c == [c[0]];
      MergedOfOne(c[0]);
    } else if |c| == 2 {
      assert c == [c[0], c[1]];
      MergedOfTwo(c[0], c[1]);
    } else {
      assert c == [c[0], c[1], c[2]];
      MergedOfThree(c[0], c[1], c[2]);
    }
  }

  lemma JoinOfNothing()
    ensures Join(0, 0, 0) == 0
  {
  }

  lemma OrInto(a: Byte, b: Byte, i: nat, x: Byte)
    requires i < 3 && (i < 2 ==> b == 0) && (i < 1 ==> a == 0)
    ensures OrIn(Join(a, b, 0), x, i) ==
            if i == 0 then Join(x, 0, 0)
            else if i == 1 then Join(if x >= 128 then 255 else a, x, 0)
            else Join(if x >= 128 then 255 else a, if x >= 128 then 255 else b, x)
  {
  }

  /** The letters that are replaced by '=' stand for zero. */
  lemma PaddingIsZero(a: Byte, b: Byte, c: Byte)
    ensures var v := Join(a, b, c);
            (c == 0 ==> Sextet(v, 3) == 0) && (b == 0 && c == 0 ==> Sextet(v, 2) == 0)
            && (a == 0 && b == 0 && c == 0 ==> Sextet(v, 1) == 0)
  {
    hide Sextet, Join;
    MasksAreSextets(a, b, c);
    ZeroBits();
  }

  lemma ZeroBits()
    ensures 0 % 4 * 16 + 0 / 16 == 0 && 0 % 16 * 4 + 0 / 64 == 0 && 0 % 64 == 0
  {
  }

  lemma SpreadEnd(c: seq<Byte>)
    requires |c| <= 3
    ensures (|c| < 3 ==> Spread(c)[2] == 0) && (|c| < 2 ==> Spread(c)[1] == 0) && (|c| < 1 ==> Spread(c)[0] == 0)
  {
  }

  lemma DecodeGroup(g: seq<Byte>, rest: string)
    requires |g| <= 3 && Readable(rest)
    ensures Readable(EncodeGroup(g) + rest) && Decoded(EncodeGroup(g) + rest) == Sent(g) + Decoded(rest)
  {
    hide Letter, Sextet, Cut, Triple, Place, Merged, Join, Spread;
    var s := EncodeGroup(g) + rest;
    var (c, v) := (Cut(g), Merged(Cut(g)));
    MergedIs(c);
    SpreadEnd(c);
    PaddingIsZero(Sent(g)[0], Sent(g)[1], Sent(g)[2]);
    forall i | 0 <= i < 4 ensures (s[i] == '=' || Place(s[i]) >= 0) && Value(s[i]) == Sextet(v, i) {
      if i <= |c| {
        PlaceOfLetter(Sextet(v, i));
      }
    }
    forall i | 4 <= i < |s| ensures s[i] == '=' || Place(s[i]) >= 0 {
      assert s[i] == rest[i - 4];
    }
    assert s[4..] == rest;
    TripleOfQuad(Sent(g)[0], Sent(g)[1], Sent(g)[2]);
    assert Sent(g) == [Sent(g)[0], Sent(g)[1], Sent(g)[2]];
  }

  /** What comes back, for any bytes. */
  lemma {:induction false} DecodedIsSent(s: seq<Byte>)
    ensures Readable(Encoded(s)) && Decoded(Encoded(s)) == AllSent(s)
    decreases |s|
  {
    hide EncodeGroup, Decoded, Sent, Place;
    if s == [] {
      DecodedOfFew("");
    } else if |s| <= 3 {
      DecodeGroup(s, "");
      DecodedOfFew("");
      assert EncodeGroup(s) + "" == EncodeGroup(s) && Sent(s) + [] == Sent(s);
    } else {
      DecodedIsSent(s[3..]);
      DecodeGroup(s[..3], Encoded(s[3..]));
    }
  }

  lemma PlainIsSent(g: seq<Byte>)
    requires 0 < |g| <= 3
    ensures Sent(g) == g + Zeros(3 - |g|) <==> Plain(g)
  {
    hide Cut;
    var (c, t) := (Cut(g), g + Zeros(3 - |g|));
    assert Sent(g) == t <==> Sent(g)[0] == t[0] && Sent(g)[1] == t[1] && Sent(g)[2] == t[2];
  }

  lemma {:induction false} AllPlainIsSent(s: seq<Byte>)
    ensures AllSent(s) == s + Zeros(Gap(|s|)) <==> AllPlain(s)
    decreases |s|
  {
    hide Sent, Plain;
    if s == [] {
      assert AllPlain(s) by { PlainOfNone(); }
    } else if |s| <= 3 {
      PlainIsSent(s);
    } else {
      PlainIsSent(s[..3]);
      assert s[..3] + Zeros(0) == s[..3];
      AllPlainIsSent(s[3..]);
      assert Gap(|s|) == Gap(|s[3..]|);
      SameParts(Sent(s[..3]), AllSent(s[3..]), s, Zeros(Gap(|s|)));
    }
  }

  lemma SameParts(a: seq<Byte>, b: seq<Byte>, s: seq<Byte>, zeros: seq<Byte>)
    requires |a| == 3 <= |s|
    ensures a + b == s + zeros <==> a == s[..3] && b == s[3..] + zeros
  {
    var t := s + zeros;
    assert t == s[..3] + (s[3..] + zeros);
    assert (a + b)[..3] == a && (a + b)[3..] == b;
    assert t[..3] == s[..3] && t[3..] == s[3..] + zeros;
  }

  lemma PlainOfNone()
    ensures Plain([])
  {
  }

  /** The second codec: decoding gives the bytes back, followed by the zeros up to a multiple of three,
      exactly for the data whose groups are plain. */
  lemma RoundTrip(s: seq<Byte>)
    ensures Readable(Encoded(s)) && (Decoded(Encoded(s)) == s + Zeros(Gap(|s|)) <==> AllPlain(s))
  {
    hide Encoded, Decoded, Readable, AllPlain, AllSent;
    DecodedIsSent(s);
    AllPlainIsSent(s);
  }

  /** A byte from 128 on turns the one before it to 255, and nothing after a NUL is encoded. */
  lemma HighBytesAndNulsFail(high: seq<Byte>, nul: seq<Byte>)
    requires high == [65, 200, 66] && nul == [65, 0, 66]
    ensures !AllPlain(high) && Readable(Encoded(high)) && Decoded(Encoded(high)) == [255, 200, 66]
    ensures !AllPlain(nul) && Readable(Encoded(nul)) && Decoded(Encoded(nul)) == [65, 0, 0]
  {
    hide Encoded, Decoded, Readable, Cut;
    assert high[0] == 65 && high[1] == 200 && nul[1] == 0 && nul[2] == 66;
    DecodedIsSent(high);
    DecodedIsSent(nul);
    CutsOf(65, 200, 66);
  }

  lemma CutsOf(a: Byte, b: Byte, c: Byte)
    requires a != 0 && b != 0 && c != 0
    ensures Cut([a, b, c]) == [a, b, c] && Cut([a, 0, c]) == [a]
  {
    assert [a, b, c][1..] == [b, c] && [b, c][1..] == [c] && [c][1..] == [];
    assert [a, 0, c][1..] == [0, c] && Cut([0, c]) == [];
  }

  /** Text is: bytes from 1 to 127 are plain, and their encoding is that of RFC 4648. */
  lemma {:induction false} TextIsPlain(s: seq<Byte>)
    requires forall i | 0 <= i < |s| :: 1 <= s[i] <= 127
    ensures AllPlain(s) && Encoded(s) == Rfc(s)
    decreases |s|
  {
    hide EncodeGroup, Quad;
    if s != [] {
      var g := if |s| <= 3 then s else s[..3];
      TextGroup(g);
      if |s| > 3 {
        TextIsPlain(s[3..]);
      } else if |s| == 3 {
        assert s[3..] == [] && Rfc([]) == "" && Quad(s[0], s[1], s[2]) + "" == Quad(s[0], s[1], s[2]);
      }
    }
  }

  lemma TextGroup(g: seq<Byte>)
    requires 0 < |g| <= 3 && forall i | 0 <= i < |g| :: 1 <= g[i] <= 127
    ensures EncodeGroup(g) == if |g| == 1 then Quad(g[0], 0, 0)[..2] + "=="
                              else if |g| == 2 then Quad(g[0], g[1], 0)[..3] + "="
                              else Quad(g[0], g[1], g[2])
  {
    hide Letter, Sextet, Cut, Merged, Join;
    assert Cut(g) == g;
    MergedIs(g);
  }
}
