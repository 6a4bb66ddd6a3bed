/** What the rewriter of ifcfg files makes of each line, told by the characters of the line and by the lines before
    it, without the loop that carries the rest of the map along. */
module IfcfgLines {
  import opened Optional
  import opened Text
  import opened Ifcfg

  // Lines by their characters.

  /** As a signed character: up to a space, or negative. */
  lemma BlankIsSigned(c: char)
    requires c as int < 256
    ensures Blank(c) <==> (c as int + 128) % 256 - 128 <= 32
  {
  }

  ghost predicate HasText(line: string) { exists i | 0 <= i < |line| :: !Blank(line[i]) }

  /** The first character that is not blank is '#'. */
  ghost predicate IsComment(line: string) {
    exists i | 0 <= i < |line| :: line[i] == '#' && forall j | 0 <= j < i :: Blank(line[j])
  }

  /** `t` is `s` without the blanks at both ends. */
  ghost predicate IsTrimmed(s: string, t: string) {
    exists i, j | 0 <= i <= j <= |s| ::
      && t == s[i..j] && (i < j ==> !Blank(s[i]) && !Blank(s[j - 1]))
      && (forall k | 0 <= k < i :: Blank(s[k])) && forall k | j <= k < |s| :: Blank(s[k])
  }

  /** The text before the first '=' of a line that is neither blank nor a comment, trimmed. */
  ghost predicate HasKey(line: string, k: string) {
    && HasText(line) && !IsComment(line)
    && exists p | 0 <= p < |line| :: line[p] == '=' && '=' !in line[..p] && IsTrimmed(line[..p], k)
  }

  lemma AllBlank(s: string)
    ensures Trim(s) == "" <==> forall i | 0 <= i < |s| :: Blank(s[i])
  {
    var t := TrimLeft(s);
    if t != "" {
      assert s[|s| - |t|] == t[0];
    }
  }

  lemma TrimmedIs(s: string, t: string)
    ensures IsTrimmed(s, t) <==> Trim(s) == t
  {
    hide TrimLeft, TrimRight, Trim;
    AllBlank(s);
    if Trim(s) == "" {
      assert t == "" ==> s[0..0] == t;
    } else {
      var i, j := Trimmed(s);
      assert t == Trim(s) ==> t == s[i..j];
    }
    if IsTrimmed(s, t) {
      var i, j :| 0 <= i <= j <= |s| && t == s[i..j] && (i < j ==> !Blank(s[i]) && !Blank(s[j - 1]))
                  && (forall k | 0 <= k < i :: Blank(s[k])) && forall k | j <= k < |s| :: Blank(s[k]);
      if i < j {
        TrimIs(s, i, j);
      }
    }
  }

  lemma TextIs(line: string)
    ensures HasText(line) <==> Trim(line) != ""
    ensures HasText(line) ==> (IsComment(line) <==> Trim(line)[0] == '#')
  {
    hide TrimLeft, TrimRight, Trim;
    AllBlank(line);
    if Trim(line) != "" {
      var i, j := Trimmed(line);
      assert Trim(line)[0] == line[i];
    }
  }

  lemma NotBefore(line: string, p: nat, q: nat)
    requires p <= |line| && q < |line| && line[q] == '=' && '=' !in line[..p]
    ensures p <= q
  {
    if q < p {
      InHead(line, p, q);
    }
  }

  lemma InHead(line: string, p: nat, q: nat)
    requires q < p <= |line|
    ensures line[q] in line[..p]
  {
    assert line[..p][q] == line[q];
  }

  /** The rewriter finds a key in a line exactly if it has it. */
  lemma KeyIs(line: string, k: string)
    ensures HasKey(line, k) <==> Key(line) == Some(k)
  {
    hide TrimLeft, TrimRight, Trim, Find, HasText, IsComment, IsTrimmed;
    TextIs(line);
    FirstEq(line);
    var p := Find(line, "=", 0);
    if p != -1 {
      TrimmedIs(line[..p], k);
      forall q | 0 <= q < |line| && line[q] == '=' && '=' !in line[..q] ensures q == p {
        NotBefore(line, p, q);
        NotBefore(line, q, p);
      }
    }
  }

  // What the reader finds.

  ghost predicate Blanks(s: string) { forall i | 0 <= i < |s| :: Blank(s[i]) }

  /** An entry with blanks anywhere around its key and its value reads as the two. */
  lemma EntryOfText(a: string, k: string, b: string, c: string, v: string, d: string)
    requires Blanks(a) && Blanks(b) && Blanks(c) && Blanks(d)
    requires k != "" && !Blank(k[0]) && !Blank(k[|k| - 1]) && '=' !in k && k[0] != '#'
    requires v != "" ==> !Blank(v[0]) && !Blank(v[|v| - 1])
    ensures Entry(a + (k + b + "=" + (c + v) + d)) == Some((k, v))
  {
    hide TrimLeft, TrimRight, Trim, Find, Blanks, Entry;
    var head := k + b;
    TrimOfHeadBlanks(k, b);
    NoEquals(b);
    if v == "" {
      var core := head + "=";
      BlanksJoin(c, d);
      TrimOfCore(a, core, c + d);
      assert a + (head + "=" + (c + v) + d) == a + core + (c + d);
      EntryOfCore(a + core + (c + d), core, head, "");
    } else {
      var core := head + "=" + (c + v);
      TrimOfCore(a, core, d);
      assert a + (core + d) == a + core + d;
      TrimOfTailBlanks(c, v);
      EntryOfCore(a + core + d, core, head, c + v);
    }
  }

  lemma EntryOfCore(line: string, core: string, head: string, tail: string)
    requires Trim(line) == core == head + "=" + tail && head != "" && head[0] != '#' && '=' !in head
    ensures Entry(line) == Some((TrimRight(head), TrimLeft(tail)))
  {
    hide TrimLeft, TrimRight, Trim, Find;
    FindAfter(head, "=", tail);
    assert core[..|head|] == head && core[|head| + 1..] == tail;
  }

  lemma BlanksJoin(c: string, d: string)
    requires Blanks(c) && Blanks(d)
    ensures Blanks(c + d)
  {
  }

  lemma NoEquals(s: string)
    requires Blanks(s)
    ensures '=' !in s
  {
  }

  lemma TrimOfCore(a: string, core: string, d: string)
    requires Blanks(a) && Blanks(d) && core != "" && !Blank(core[0]) && !Blank(core[|core| - 1])
    ensures Trim(a + core + d) == core
  {
    hide Trim;
    var s := a + core + d;
    TrimIs(s, |a|, |a| + |core|);
    assert s[|a|..|a| + |core|] == core;
  }

  lemma TrimOfHeadBlanks(k: string, b: string)
    requires k != "" && !Blank(k[|k| - 1]) && Blanks(b)
    ensures TrimRight(k + b) == k
  {
    hide TrimRight;
    TrimRightIs(k + b, |k|);
    assert (k + b)[..|k|] == k;
  }

  lemma TrimOfTailBlanks(c: string, v: string)
    requires v != "" && !Blank(v[0]) && Blanks(c)
    ensures TrimLeft(c + v) == v
  {
    hide TrimLeft;
    TrimLeftIs(c + v, |c|);
    assert (c + v)[|c|..] == v;
  }

  lemma {:induction false} TrimRightIs(s: string, n: nat)
    requires n <= |s| && (forall k | n <= k < |s| :: Blank(s[k])) && (n > 0 ==> !Blank(s[n - 1]))
    ensures TrimRight(s) == s[..n]
    decreases |s|
  {
    hide Blank;
    if n < |s| {
      TrimRightIs(s[..|s| - 1], n);
      assert s[..|s| - 1][..n] == s[..n];
    } else {
      assert s[..n] == s;
    }
  }

  // What becomes of each line.

  /** One of the first `n` lines has the key. */
  ghost predicate Named(lines: seq<string>, n: nat, k: string)
    requires n <= |lines|
  {
    exists j | 0 <= j < n :: HasKey(lines[j], k)
  }

  /** What stands in the new file for line `n`: nothing for a blank line; the line itself if it has no key of the
      map, or one that an earlier line had already; otherwise the entry of the map, or nothing if that is empty. */
  ghost function Image(lines: seq<string>, n: nat, m: map<string, string>): seq<string>
    requires n < |lines|
  {
    if !HasText(lines[n]) then []
    else if forall k | k in m :: !HasKey(lines[n], k) then [lines[n]]
    else
      var k :| k in m && HasKey(lines[n], k);
      if m[k] == "" then []
      else if Named(lines, n, k) then [lines[n]]
      else [k + "=" + m[k]]
  }

  ghost function ImagesFrom(lines: seq<string>, n: nat, m: map<string, string>): seq<string>
    requires n <= |lines|
    decreases |lines| - n
  {
    if n == |lines| then [] else Image(lines, n, m) + ImagesFrom(lines, n + 1, m)
  }

  /** The entries that are still to be written when `n` lines were read: those whose key none of them has, and
      the empty ones. */
  ghost function Waiting(lines: seq<string>, n: nat, m: map<string, string>): map<string, string>
    requires n <= |lines|
  {
    map k | k in m && (m[k] == "" || !Named(lines, n, k)) :: m[k]
  }

  lemma ImageIs(lines: seq<string>, n: nat, m: map<string, string>, k: string)
    requires n < |lines| && HasText(lines[n]) && k in m && HasKey(lines[n], k)
    ensures Image(lines, n, m) ==
            if m[k] == "" then [] else if Named(lines, n, k) then [lines[n]] else [k + "=" + m[k]]
  {
    hide HasKey, HasText, Named;
    forall q | HasKey(lines[n], q) ensures q == k {
      KeyIs(lines[n], q);
      KeyIs(lines[n], k);
    }
  }

  lemma NamedNext(lines: seq<string>, n: nat, k: string)
    requires n < |lines|
    ensures Named(lines, n + 1, k) <==> Named(lines, n, k) || HasKey(lines[n], k)
  {
    hide HasKey;
  }

  lemma StepIs(lines: seq<string>, n: nat, m: map<string, string>)
    requires n < |lines|
    ensures Step(lines[n], Waiting(lines, n, m)) == (Image(lines, n, m), Waiting(lines, n + 1, m))
  {
    hide HasKey, HasText, Named, Key, Trim;
    var (line, left) := (lines[n], Waiting(lines, n, m));
    TextIs(line);
    forall k
      ensures HasKey(line, k) <==> Key(line) == Some(k)
      ensures Named(lines, n + 1, k) <==> Named(lines, n, k) || HasKey(line, k)
    {
      KeyIs(line, k);
      NamedNext(lines, n, k);
    }
    NoKeyNoText(line);
    if HasText(line) && Key(line).Some? && Key(line).value in m {
      var k := Key(line).value;
      ImageIs(lines, n, m, k);
      assert k !in left ==> left - {k} == left;
    }
    SameWaiting(lines, n, m);
  }

  lemma NoKeyNoText(line: string)
    ensures !HasText(line) ==> Key(line).None?
  {
    hide HasText, Trim;
    TextIs(line);
  }

  /** How the entries that wait change with a line. */
  lemma SameWaiting(lines: seq<string>, n: nat, m: map<string, string>)
    requires n < |lines|
    ensures var k := Key(lines[n]);
            Waiting(lines, n + 1, m) ==
            if k.Some? && k.value in m && m[k.value] != "" then Waiting(lines, n, m) - {k.value}
            else Waiting(lines, n, m)
  {
    hide HasKey, Named, Key;
    var (a, b) := (Waiting(lines, n, m), Waiting(lines, n + 1, m));
    forall k ensures k in b <==> k in a && (m[k] == "" || Key(lines[n]) != Some(k)) {
      KeyIs(lines[n], k);
      NamedNext(lines, n, k);
    }
  }

  lemma {:induction false} RewriteFrom(lines: seq<string>, n: nat, m: map<string, string>)
    requires n <= |lines|
    ensures Rewrite(lines[n..], Waiting(lines, n, m)) == (ImagesFrom(lines, n, m), Waiting(lines, |lines|, m))
    decreases |lines| - n
  {
    hide Step, Image, Waiting;
    if n < |lines| {
      RewriteFrom(lines, n + 1, m);
      StepIs(lines, n, m);
      RewriteOnce(lines, n, Waiting(lines, n, m));
    }
  }

  /** The new file: for each line in turn what stands for it, and then the entries whose keys no line has. */
  lemma ModifiedByLine(lines: seq<string>, m: map<string, string>, order: seq<string>)
    ensures Modified(lines, m, order) == ImagesFrom(lines, 0, m) + Tail(order, Waiting(lines, |lines|, m))
    ensures Rewrite(lines, m).1 == Waiting(lines, |lines|, m)
  {
    hide Rewrite, Tail, ImagesFrom, HasKey;
    assert lines[0..] == lines;
    assert Waiting(lines, 0, m) == m;
    RewriteFrom(lines, 0, m);
  }

  // The other lines.

  /** A line with text that has no key of the map. */
  ghost predicate Stays(line: string, m: map<string, string>) {
    HasText(line) && forall k | k in m :: !HasKey(line, k)
  }

  ghost function Staying(lines: seq<string>, m: map<string, string>): seq<string> {
    if lines == [] then []
    else (if Stays(lines[0], m) then [lines[0]] else []) + Staying(lines[1..], m)
  }

  lemma {:induction false} StayingAppend(a: seq<string>, b: seq<string>, m: map<string, string>)
    ensures Staying(a + b, m) == Staying(a, m) + Staying(b, m)
    decreases |a|
  {
    hide Stays;
    if a == [] {
      assert a + b == b;
    } else {
      assert (a + b)[1..] == a[1..] + b;
      StayingAppend(a[1..], b, m);
    }
  }

  lemma StayingOfOne(line: string, m: map<string, string>)
    ensures Staying([line], m) == (if Stays(line, m) then [line] else []) && Staying([], m) == []
  {
    hide Stays;
    assert [line][1..] == [];
  }

  lemma SettingGoes(k: string, m: map<string, string>)
    requires AllFit(m) && k in m && m[k] != ""
    ensures !Stays(Setting(k, m[k]), m)
  {
    hide HasKey, HasText, Trim, Key;
    EntryOfSetting(k, m[k]);
    KeyIs(Setting(k, m[k]), k);
  }

  lemma StayingOfStep(line: string, left: map<string, string>, m: map<string, string>)
    requires AllFit(m) && Part(left, m)
    ensures Staying(Step(line, left).0, m) == Staying([line], m) && Part(Step(line, left).1, m)
  {
    hide HasKey, HasText, Staying, Key, Trim, Setting, AllFit;
    TextIs(line);
    StayingOfOne(line, m);
    if Key(line).Some? {
      var k := Key(line).value;
      KeyIs(line, k);
      if k in left && left[k] != "" {
        SettingGoes(k, m);
        StayingOfOne(Setting(k, left[k]), m);
      }
    }
  }

  lemma {:induction false} StayingOfRewrite(lines: seq<string>, left: map<string, string>, m: map<string, string>)
    requires AllFit(m) && Part(left, m)
    ensures Staying(Rewrite(lines, left).0, m) == Staying(lines, m) && Part(Rewrite(lines, left).1, m)
    decreases |lines|
  {
    hide Step, Stays, Staying, AllFit, Part;
    if lines != [] {
      var (out, rest) := Step(lines[0], left);
      StayingOfStep(lines[0], left, m);
      StayingOfRewrite(lines[1..], rest, m);
      StayingAppend(out, Rewrite(lines[1..], rest).0, m);
      StayingAppend([lines[0]], lines[1..], m);
      assert [lines[0]] + lines[1..] == lines;
    }
  }

  lemma {:induction false} StayingOfTail(order: seq<string>, left: map<string, string>, m: map<string, string>)
    requires AllFit(m) && Part(left, m)
    ensures Staying(Tail(order, left), m) == []
    decreases |order|
  {
    hide Stays, Staying, AllFit, Setting;
    StayingOfOne("", m);
    if order != [] {
      var k := order[0];
      StayingOfTail(order[1..], left, m);
      if k in left && left[k] != "" {
        SettingGoes(k, m);
        StayingOfOne(Setting(k, left[k]), m);
        StayingAppend([Setting(k, left[k])], Tail(order[1..], left), m);
      } else {
        assert [] + Tail(order[1..], left) == Tail(order[1..], left);
      }
    }
  }

  /** Comments, lines without '=' and the entries for other keys are in the new file as they were, in their order,
      and nothing else is there but entries for keys of the map. */
  lemma OthersStay(lines: seq<string>, m: map<string, string>, order: seq<string>)
    requires AllFit(m)
    ensures Staying(Modified(lines, m, order), m) == Staying(lines, m)
  {
    hide Rewrite, Tail, Staying, AllFit;
    StayingOfRewrite(lines, m, m);
    StayingOfTail(order, Rewrite(lines, m).1, m);
    StayingAppend(Rewrite(lines, m).0, Tail(order, Rewrite(lines, m).1), m);
  }

  /** A line is kept as it is if it is a comment or has no '=', and is not blank. */
  lemma CommentsStay(line: string, m: map<string, string>)
    requires HasText(line) && (IsComment(line) || '=' !in line)
    ensures Stays(line, m)
  {
  }
}
