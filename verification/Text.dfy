/** Strings as the agent handles them: lines, pieces and decimal numbers. */
module Text {
  import opened Arith

  // Searching.

  /** `sep` stands at place `i` of `s`. */
  predicate At(s: string, sep: string, i: int) {
    0 <= i && i + |sep| <= |s| && s[i..i + |sep|] == sep
  }

  lemma AtIs(s: string, sep: string, i: nat)
    requires At(s, sep, i)
    ensures i + |sep| <= |s| && s == s[..i] + sep + s[i + |sep|..]
  {
  }

  /** `find(sep, from)`: the first place from `from` on, or -1. */
  function Find(s: string, sep: string, from: nat): (p: int)
    requires from <= |s|
    ensures p == -1 || (from <= p && p + |sep| <= |s| && At(s, sep, p))
    ensures forall i | from <= i && (p == -1 || i < p) :: !At(s, sep, i)
    decreases |s| - from
  {
    if At(s, sep, from) then from
    else if from == |s| then -1
    else Find(s, sep, from + 1)
  }

  lemma FindIsFirst(s: string, sep: string, from: nat, p: nat)
    requires from <= p && At(s, sep, p) && forall i | from <= i < p :: !At(s, sep, i)
    ensures from <= |s| && Find(s, sep, from) == p
  {
  }

  /** Searching on from `k` is searching the rest. */
  lemma FindInRest(s: string, sep: string, k: nat)
    requires k <= |s|
    ensures var p := Find(s[k..], sep, 0);
            Find(s, sep, k) == if p == -1 then -1 else k + p
  {
    var rest := s[k..];
    forall i: int | 0 <= i ensures At(rest, sep, i) <==> At(s, sep, k + i) {
      if i + |sep| <= |rest| {
        assert rest[i..i + |sep|] == s[k + i..k + i + |sep|];
      }
    }
    var p := Find(rest, sep, 0);
    if p != -1 {
      forall i | k <= i < k + p ensures !At(s, sep, i) {
        assert !At(rest, sep, i - k);
      }
      FindIsFirst(s, sep, k, k + p);
    } else {
      var q := Find(s, sep, k);
      assert q != -1 ==> At(rest, sep, q - k);
    }
  }

  // Splitting.

  /** The pieces of `s` between the separators. */
  function Pieces(s: string, sep: string): (r: seq<string>)
    requires sep != ""
    ensures r != []
    decreases |s|
  {
    var p := Find(s, sep, 0);
    if p == -1 then [s] else [s[..p]] + Pieces(s[p + |sep|..], sep)
  }

  function Join(pieces: seq<string>, sep: string): string
    requires pieces != []
  {
    if |pieces| == 1 then pieces[0] else pieces[0] + sep + Join(pieces[1..], sep)
  }

  function NonEmpty(pieces: seq<string>): seq<string> {
    if pieces == [] then []
    else NonEmpty(pieces[..|pieces| - 1]) + (if pieces[|pieces| - 1] == "" then [] else [pieces[|pieces| - 1]])
  }

  /** The pieces that are not empty, each as often as it is there, in their order. */
  lemma {:induction false} NonEmptyIs(pieces: seq<string>)
    ensures forall piece :: piece in NonEmpty(pieces) <==> piece in pieces && piece != ""
    ensures forall piece: string | piece != "" :: multiset(NonEmpty(pieces))[piece] == multiset(pieces)[piece]
  {
    if pieces != [] {
      NonEmptyIs(pieces[..|pieces| - 1]);
      assert pieces == pieces[..|pieces| - 1] + [pieces[|pieces| - 1]];
    }
  }

  ghost predicate Contains(s: string, sep: string) { exists i :: At(s, sep, i) }

  /** The pieces put together again are the string. */
  lemma {:induction false} JoinOfPieces(s: string, sep: string)
    requires sep != ""
    ensures Join(Pieces(s, sep), sep) == s
    decreases |s|
  {
    var p := Find(s, sep, 0);
    if p != -1 {
      var rest := s[p + |sep|..];
      JoinOfPieces(rest, sep);
      assert Pieces(s, sep)[1..] == Pieces(rest, sep);
      assert s == s[..p] + sep + rest by { AtIs(s, sep, p); }
    }
  }

  /** No piece contains the separator. */
  lemma {:induction false} PiecesAreFree(s: string, sep: string)
    requires sep != ""
    ensures forall piece | piece in Pieces(s, sep) :: !Contains(piece, sep)
    decreases |s|
  {
    var p := Find(s, sep, 0);
    if p != -1 {
      PiecesAreFree(s[p + |sep|..], sep);
      forall i ensures !At(s[..p], sep, i) {
        if At(s[..p], sep, i) {
          assert s[..p][i..i + |sep|] == s[i..i + |sep|];
          assert At(s, sep, i);
        }
      }
    }
  }

  lemma OneChar(s: string, sep: string, i: int)
    requires |sep| == 1
    ensures At(s, sep, i) <==> 0 <= i < |s| && s[i] == sep[0]
  {
    if 0 <= i < |s| {
      assert s[i..i + 1] == [s[i]];
    }
  }

  lemma FreeOfChar(s: string, sep: string)
    requires |sep| == 1 && sep[0] !in s
    ensures Find(s, sep, 0) == -1
  {
    forall i ensures !At(s, sep, i) {
      OneChar(s, sep, i);
    }
  }

  lemma FindAfter(head: string, sep: string, rest: string)
    requires |sep| == 1 && sep[0] !in head
    ensures Find(head + sep + rest, sep, 0) == |head|
  {
    var s := head + sep + rest;
    forall i | 0 <= i < |head| ensures !At(s, sep, i) {
      OneChar(s, sep, i);
    }
    OneChar(s, sep, |head|);
    FindIsFirst(s, sep, 0, |head|);
  }

  /** With a separator of one character, splitting undoes joining: the pieces are the only ones that
      join to the string and are free of the separator. */
  lemma {:induction false} PiecesOfJoin(pieces: seq<string>, sep: string)
    requires |sep| == 1 && pieces != []
    requires forall piece | piece in pieces :: sep[0] !in piece
    ensures Pieces(Join(pieces, sep), sep) == pieces
    decreases |pieces|
  {
    hide Pieces, Find, At;
    if |pieces| == 1 {
      FreeOfChar(pieces[0], sep);
      PiecesOnce(pieces[0], sep);
    } else {
      var (head, rest) := (pieces[0], Join(pieces[1..], sep));
      var s := head + sep + rest;
      FindAfter(head, sep, rest);
      PiecesOnce(s, sep);
      assert s[..|head|] == head && s[|head| + 1..] == rest;
      PiecesOfJoin(pieces[1..], sep);
    }
  }

  lemma PiecesOnce(s: string, sep: string)
    requires sep != ""
    ensures var p := Find(s, sep, 0);
            Pieces(s, sep) == PiecesAt(s, sep, p)
  {
    hide Find, At;
  }

  lemma RestOfRest(s: string, at: nat, p: nat, q: nat)
    requires at <= p <= q <= |s|
    ensures s[at..][..p - at] == s[at..p] && s[at..][q - at..] == s[q..]
  {
  }

  /** The pieces of `s` when the separator stands first at `p`, or nowhere. */
  function PiecesAt(s: string, sep: string, p: int): seq<string>
    requires sep != "" && (p == -1 || (0 <= p && p + |sep| <= |s|))
  {
    if p == -1 then [s] else [s[..p]] + Pieces(s[p + |sep|..], sep)
  }

  /** The pieces of the rest of `s` from `at` on, by the place `q` in the rest or the place `p` in `s`. */
  lemma PiecesAtRest(s: string, sep: string, at: nat, q: int, p: int)
    requires sep != "" && at <= |s| && p == (if q == -1 then -1 else at + q)
    requires q == -1 || (0 <= q && p + |sep| <= |s|)
    ensures PiecesAt(s[at..], sep, q) == if p == -1 then [s[at..]] else [s[at..p]] + Pieces(s[p + |sep|..], sep)
  {
    hide Pieces;
    if q != -1 {
      RestOfRest(s, at, p, p + |sep|);
    }
  }

  /** The first piece of what is left of a string from `at` on. */
  lemma PiecesFrom(s: string, sep: string, at: nat)
    requires sep != "" && at <= |s|
    ensures var p := Find(s, sep, at);
            Pieces(s[at..], sep) == if p == -1 then [s[at..]] else [s[at..p]] + Pieces(s[p + |sep|..], sep)
  {
    hide Pieces, PiecesAt, At, Find;
    var rest := s[at..];
    FindInRest(s, sep, at);
    var (q, p) := (Find(rest, sep, 0), Find(s, sep, at));
    PiecesAtRest(s, sep, at, q, p);
    assert Pieces(rest, sep) == PiecesAt(rest, sep, q) by {
      PiecesOnce(rest, sep);
    }
  }

  /** The pieces that `string_split` appends. */
  function Kept(pieces: seq<string>, btrim: bool): seq<string> {
    if btrim then NonEmpty(pieces) else pieces
  }

  lemma KeptSnoc(vec: seq<string>, pieces: seq<string>, last: string, btrim: bool)
    ensures Kept([], btrim) == []
    ensures vec + Kept(pieces + [last], btrim) ==
            if last != "" || !btrim then vec + Kept(pieces, btrim) + [last] else vec + Kept(pieces, btrim)
  {
    assert (pieces + [last])[..|pieces|] == pieces;
  }

  /** `string_split`: the pieces are appended to the vector, with `btrim` only those not empty. */
  method StringSplit(src: string, pattern: string, vec: seq<string>, btrim: bool) returns (r: seq<string>)
    requires pattern != ""
    ensures r == vec + Kept(Pieces(src, pattern), btrim)
  {
    hide Pieces, Kept, Find, At;
    r := vec;
    var oldpos := 0;
    ghost var done: seq<string> := [];
    KeptSnoc(vec, [], "", btrim);
    assert src[0..] == src;
    while true
      invariant oldpos <= |src|
      invariant Pieces(src, pattern) == done + Pieces(src[oldpos..], pattern)
      invariant r == vec + Kept(done, btrim)
      decreases |src| - oldpos
    {
      PiecesFrom(src, pattern, oldpos);
      var newpos := Find(src, pattern, oldpos);
      if newpos == -1 {
        break;
      }
      var str := src[oldpos..newpos];
      if str != "" || !btrim {
        r := r + [str];
      }
      KeptSnoc(vec, done, str, btrim);
      ghost var rest := Pieces(src[newpos + |pattern|..], pattern);
      assert done + ([str] + rest) == (done + [str]) + rest;
      done := done + [str];
      oldpos := newpos + |pattern|;
    }
    var str := src[oldpos..];
    KeptSnoc(vec, done, str, btrim);
    if str != "" || !btrim {
      r := r + [str];
    }
  }

  // Lines.

  /** The results of `getline` on a text until it fails; a newline at the very end starts no line. */
  function Lines(s: string): (r: seq<string>)
    decreases |s|
  {
    if s == "" then []
    else
      var p := Find(s, "\n", 0);
      if p == -1 then [s] else [s[..p]] + Lines(s[p + 1..])
  }

  /** The text up to `at` ends with a whole line. */
  predicate LineStart(s: string, at: nat) { at <= |s| && (at == 0 || s[at - 1] == '\n') }

  function Unlines(lines: seq<string>): string {
    if lines == [] then "" else lines[0] + "\n" + Unlines(lines[1..])
  }

  /** The lines of what is left of a text from `at` on. */
  lemma LinesFrom(s: string, at: nat)
    requires at < |s|
    ensures var p := Find(s, "\n", at);
            Lines(s[at..]) == if p == -1 then [s[at..]] else [s[at..p]] + Lines(s[p + 1..])
  {
    hide Lines, At, Find;
    FindInRest(s, "\n", at);
    LinesOnce(s[at..]);
    var p := Find(s, "\n", at);
    if p != -1 {
      RestOfRest(s, at, p, p + 1);
    }
  }

  lemma LinesOnce(s: string)
    requires s != ""
    ensures var p := Find(s, "\n", 0);
            Lines(s) == if p == -1 then [s] else [s[..p]] + Lines(s[p + 1..])
  {
    hide Find, At;
  }

  /** What begins after whole lines adds its own lines. */
  lemma {:induction false} LinesAppend(a: string, b: string)
    requires LineStart(a, |a|)
    ensures Lines(a + b) == Lines(a) + Lines(b)
    decreases |a|
  {
    hide Lines, Find, At;
    if a == "" {
      assert a + b == b;
      LinesOfNone();
    } else {
      var p := FirstLineEnds(a, b);
      var rest := a[p + 1..];
      LinesAppend(rest, b);
      assert [a[..p]] + (Lines(rest) + Lines(b)) == [a[..p]] + Lines(rest) + Lines(b);
    }
  }

  /** The first line of a text of whole lines is also that of a longer one. */
  lemma FirstLineEnds(a: string, b: string) returns (p: nat)
    requires a != "" && LineStart(a, |a|)
    ensures p < |a| && LineStart(a[p + 1..], |a| - p - 1)
    ensures Lines(a) == [a[..p]] + Lines(a[p + 1..]) && Lines(a + b) == [a[..p]] + Lines(a[p + 1..] + b)
  {
    hide Lines, Find, At;
    OneChar(a, "\n", |a| - 1);
    p := FirstNewline(a);
    FindInLonger(a, b, "\n");
    LinesOnce(a);
    LinesOnce(a + b);
    assert (a + b)[p + 1..] == a[p + 1..] + b && (a + b)[..p] == a[..p];
  }

  lemma FirstNewline(a: string) returns (p: nat)
    requires a != "" && a[|a| - 1] == '\n'
    ensures p < |a| && Find(a, "\n", 0) == p
  {
    hide Find;
    OneChar(a, "\n", |a| - 1);
    p := Find(a, "\n", 0);
  }

  lemma LinesOfNone()
    ensures Lines("") == []
  {
  }

  lemma FindInLonger(a: string, b: string, sep: string)
    requires |sep| == 1
    ensures var p := Find(a, sep, 0);
            p != -1 ==> Find(a + b, sep, 0) == p
  {
    var p := Find(a, sep, 0);
    if p != -1 {
      forall i | 0 <= i <= p ensures At(a + b, sep, i) <==> At(a, sep, i) {
        OneChar(a, sep, i);
        OneChar(a + b, sep, i);
      }
      FindIsFirst(a + b, sep, 0, p);
    }
  }

  lemma {:induction false} LinesAreFree(s: string)
    ensures forall line | line in Lines(s) :: '\n' !in line
    decreases |s|
  {
    if s != "" {
      var p := Find(s, "\n", 0);
      var head := if p == -1 then s else s[..p];
      forall i | 0 <= i < |head| ensures head[i] != '\n' {
        OneChar(s, "\n", i);
        assert !At(s, "\n", i);
      }
      if p != -1 {
        LinesAreFree(s[p + 1..]);
      }
    }
  }

  /** The lines with a newline after each are the text, to which one is added unless it ends with one. */
  lemma {:induction false} UnlinesOfLines(s: string)
    ensures Unlines(Lines(s)) == if s == "" || s[|s| - 1] == '\n' then s else s + "\n"
    decreases |s|
  {
    hide Lines, Find, At;
    if s == "" {
      LinesOfNone();
    } else {
      LinesOnce(s);
      var p := Find(s, "\n", 0);
      if p == -1 {
        OneChar(s, "\n", |s| - 1);
        assert Unlines([s]) == s + "\n" + Unlines([]);
      } else {
        UnlinesOfLines(s[p + 1..]);
        var (head, rest) := (s[..p], s[p + 1..]);
        OneChar(s, "\n", p);
        assert s == head + "\n" + rest;
        assert ([head] + Lines(rest))[1..] == Lines(rest);
      }
    }
  }

  lemma {:induction false} LinesOfUnlines(lines: seq<string>)
    requires forall line | line in lines :: '\n' !in line
    ensures Lines(Unlines(lines)) == lines
    decreases |lines|
  {
    if lines != [] {
      var (head, rest) := (lines[0], Unlines(lines[1..]));
      FindAfter(head, "\n", rest);
      LinesOfUnlines(lines[1..]);
      var s := head + "\n" + rest;
      assert s[..|head|] == head && s[|head| + 1..] == rest;
    }
  }

  /** A line that ends. */
  lemma LinesOfOne(line: string)
    requires '\n' !in line
    ensures Lines(line + "\n") == [line]
  {
    LinesOfUnlines([line]);
    assert [line][1..] == [] && Unlines([]) == "";
    assert Unlines([line]) == line + "\n" + "";
    assert line + "\n" + "" == line + "\n";
  }

  /** A last line without an end. */
  lemma LinesOfRest(line: string)
    requires '\n' !in line && line != ""
    ensures Lines(line) == [line]
  {
    FreeOfChar(line, "\n");
  }

  lemma {:induction false} NonEmptyAppend(a: seq<string>, b: seq<string>)
    ensures NonEmpty(a + b) == NonEmpty(a) + NonEmpty(b)
    decreases |b|
  {
    if b == [] {
      assert a + b == a;
    } else {
      assert (a + b)[..|a + b| - 1] == a + b[..|b| - 1];
      NonEmptyAppend(a, b[..|b| - 1]);
    }
  }

  /** One `getline` at `at`: the line, where the next one starts, and what `tellg` says then, which is
      -1 once the end was hit. */
  datatype Read = NoLine | Line(text: string, next: nat, tell: int)

  function GetLine(s: string, at: nat): Read {
    if at >= |s| then NoLine
    else
      var p := Find(s, "\n", at);
      if p == -1 then Line(s[at..], |s|, -1) else Line(s[at..p], p + 1, p + 1)
  }

  lemma GetLineAt(before: string, line: string, after: string)
    requires '\n' !in line
    ensures GetLine(before + (line + "\n" + after), |before|) ==
            Line(line, |before| + |line| + 1, |before| + |line| + 1)
  {
    hide At, Find;
    var s := before + (line + "\n" + after);
    assert s[|before|..] == line + "\n" + after;
    FindAfter(line, "\n", after);
    FindInRest(s, "\n", |before|);
  }

  // Decimal numbers.

  type Int64 = x: int | -0x8000_0000_0000_0000 <= x < 0x8000_0000_0000_0000

  predicate IsDigit(c: char) { '0' <= c <= '9' }

  function Digit(d: nat): (c: char)
    requires d < 10
    ensures IsDigit(c) && c as int - '0' as int == d
  {
    '0' + d as char
  }

  /** `%u`. */
  function Decimal(n: nat): (s: string)
    ensures s != "" && forall c | c in s :: IsDigit(c)
  {
    if n < 10 then [Digit(n)] else Decimal(n / 10) + [Digit(n % 10)]
  }

  /** `%lld`. */
  function SignedDecimal(n: int): string { if n < 0 then "-" + Decimal(-n) else Decimal(n) }

  /** The number of digits at the start of `s`. */
  function DigitCount(s: string): (k: nat)
    ensures k <= |s| && (forall i | 0 <= i < k :: IsDigit(s[i])) && (k < |s| ==> !IsDigit(s[k]))
  {
    if s == "" || !IsDigit(s[0]) then 0 else 1 + DigitCount(s[1..])
  }

  function Number(digits: string): nat
    requires forall c | c in digits :: IsDigit(c)
  {
    if digits == "" then 0
    else
      assert IsDigit(digits[|digits| - 1]);
      10 * Number(digits[..|digits| - 1]) + (digits[|digits| - 1] as int - '0' as int)
  }

  /** `atoll` on a text that does not start with white space. */
  function Atoll(s: string): int {
    if s != "" && (s[0] == '-' || s[0] == '+') then
      var n: int := Number(s[1..][..DigitCount(s[1..])]);
      if s[0] == '-' then -n else n
    else Number(s[..DigitCount(s)])
  }

  lemma {:induction false} NumberOfDecimal(n: nat)
    ensures Number(Decimal(n)) == n
  {
    if n >= 10 {
      NumberOfDecimal(n / 10);
      var s := Decimal(n);
      assert s[..|s| - 1] == Decimal(n / 10);
    }
  }

  /** The digits of a number, whatever follows them that is not a digit. */
  lemma DigitsOf(m: nat, after: string)
    requires after == "" || !IsDigit(after[0])
    ensures var digits := Decimal(m);
            IsDigit(digits[0]) && DigitCount(digits + after) == |digits| && Number((digits + after)[..|digits|]) == m
  {
    hide Decimal, Number, DigitCount;
    var digits := Decimal(m);
    CountOf(digits, after);
    NumberOfDecimal(m);
    assert (digits + after)[..|digits|] == digits;
    assert digits[0] in digits;
  }

  /** A number reads back from its text, whatever follows it that is not a digit. */
  lemma AtollOfDecimal(n: int, after: string)
    requires after == "" || !IsDigit(after[0])
    ensures Atoll(SignedDecimal(n) + after) == n
  {
    hide Decimal, Number, DigitCount;
    var m: nat := if n < 0 then -n else n;
    DigitsOf(m, after);
    var s := SignedDecimal(n) + after;
    if n < 0 {
      assert s[1..] == Decimal(m) + after && s[0] == '-';
    } else {
      assert s == Decimal(m) + after && s[0] == Decimal(m)[0];
    }
  }

  lemma {:induction false} CountOf(digits: string, after: string)
    requires (forall c | c in digits :: IsDigit(c)) && (after == "" || !IsDigit(after[0]))
    ensures DigitCount(digits + after) == |digits|
    decreases |digits|
  {
    if digits != "" {
      assert (digits + after)[1..] == digits[1..] + after;
      CountOf(digits[1..], after);
    } else {
      assert digits + after == after;
    }
  }

  function Pow10(k: nat): (p: nat)
    ensures p > 0
  {
    if k == 0 then 1 else 10 * Pow10(k - 1)
  }

  lemma {:induction false} DecimalLength(n: nat, k: nat)
    requires k >= 1 && n < Pow10(k)
    ensures |Decimal(n)| <= k
  {
    if n >= 10 {
      assert Pow10(k) == 10 * Pow10(k - 1);
      assert k >= 2;
      DecimalLength(n / 10, k - 1);
    }
  }

  /** The digits of a number by their places, the last one being that of the ones, and none too many. */
  lemma {:induction false} DecimalIs(n: nat, k: nat)
    requires k < |Decimal(n)|
    ensures Decimal(n)[|Decimal(n)| - 1 - k] as int == 48 + n / Pow10(k) % 10
    ensures n < Pow10(|Decimal(n)|) && (|Decimal(n)| > 1 ==> n >= Pow10(|Decimal(n)| - 1))
    decreases n
  {
    hide Decimal, Pow10;
    FirstPowers();
    DecimalOnce(n);
    if n >= 10 {
      var (s, t) := (Decimal(n), Decimal(n / 10));
      DecimalIs(n / 10, if k == 0 then 0 else k - 1);
      OneDigitMore(n, |t|);
      if k > 0 {
        assert s[|s| - 1 - k] == s[..|t|][|t| - 1 - (k - 1)];
        TenthOf(n, k);
      }
    }
  }

  lemma FirstPowers()
    ensures Pow10(0) == 1 && Pow10(1) == 10
  {
  }

  lemma DecimalOnce(n: nat)
    ensures n < 10 ==> |Decimal(n)| == 1 && Decimal(n)[0] as int == 48 + n
    ensures n >= 10 ==>
              && |Decimal(n)| == |Decimal(n / 10)| + 1 && Decimal(n)[..|Decimal(n / 10)|] == Decimal(n / 10)
              && Decimal(n)[|Decimal(n / 10)|] as int == 48 + n % 10
  {
  }

  lemma OneDigitMore(n: nat, l: nat)
    requires l >= 1 && n >= 10 && n / 10 < Pow10(l) && (l > 1 ==> n / 10 >= Pow10(l - 1))
    ensures Pow10(l) <= n < Pow10(l + 1)
  {
    assert Pow10(l + 1) == 10 * Pow10(l) && Pow10(l) == 10 * Pow10(l - 1);
    assert l == 1 ==> Pow10(l - 1) == 1;
  }

  lemma TenthOf(n: nat, k: nat)
    requires k > 0
    ensures n / 10 / Pow10(k - 1) == n / Pow10(k)
  {
    var p := Pow10(k - 1);
    var (q, r) := (n / 10 / p, n / 10 % p);
    assert n == 10 * (n / 10) + n % 10 && n / 10 == p * q + r;
    assert 10 * (p * q) == 10 * p * q;
    QuotientIs(n, 10 * p, q, 10 * r + n % 10);
  }

  /** A minus sign and the digits of the number without it. */
  lemma SignedDecimalIs(n: int)
    ensures SignedDecimal(n)[0] == '-' <==> n < 0
    ensures SignedDecimal(n) == (if n < 0 then ['-'] + Decimal(-n) else Decimal(n))
  {
    hide Decimal;
    assert n >= 0 ==> Decimal(n)[0] in Decimal(n);
  }

  lemma Int64Length(n: Int64)
    ensures |SignedDecimal(n)| <= 20
  {
    var m: int := n;
    if m < 0 {
      m := -m;
    }
    assert Pow10(5) == 100_000;
    assert Pow10(10) == 10_000_000_000;
    assert Pow10(15) == 1_000_000_000_000_000;
    assert Pow10(19) == 10_000_000_000_000_000_000;
    DecimalLength(m, 19);
  }
}
