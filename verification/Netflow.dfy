/** NetFlow v5: the receiver of Plugin/netflow/NetflowUdp.cpp and the drain loop of
    Plugin/netflow/NetflowMgr.cpp. */
module Netflow {
  import opened Optional
  import opened Wire
  import Text

  // The datagram.

  /** One flow, as an exporter sends it in 48 bytes. */
  datatype Flow = Flow(
    srcaddr: seq<Byte>, dstaddr: seq<Byte>, nexthop: seq<Byte>, input: nat, output: nat, dPkts: nat, dOctets: nat,
    first: nat, last: nat, srcport: nat, dstport: nat, pad1: Byte, tcpFlags: Byte, prot: Byte, tos: Byte,
    srcAs: nat, dstAs: nat, srcMask: Byte, dstMask: Byte, pad2: nat)

  const TWO_16: int := 0x1_0000

  predicate FlowFits(f: Flow) {
    && |f.srcaddr| == 4 && |f.dstaddr| == 4 && |f.nexthop| == 4
    && f.input < TWO_16 && f.output < TWO_16 && f.srcport < TWO_16 && f.dstport < TWO_16
    && f.srcAs < TWO_16 && f.dstAs < TWO_16 && f.pad2 < TWO_16
    && f.dPkts < TWO_32 && f.dOctets < TWO_32 && f.first < TWO_32 && f.last < TWO_32
  }

  /** Big-endian numbers. */
  function Two(v: nat): seq<Byte>
    requires v < TWO_16
  {
    [v / 256, v % 256]
  }

  function Four(v: nat): seq<Byte>
    requires v < TWO_32
  {
    Two(v / TWO_16) + Two(v % TWO_16)
  }

  function Image(f: Flow): (s: seq<Byte>)
    requires FlowFits(f)
    ensures |s| == 48
  {
    f.srcaddr + f.dstaddr + f.nexthop + Two(f.input) + Two(f.output)
    + Four(f.dPkts) + Four(f.dOctets) + Four(f.first) + Four(f.last)
    + Two(f.srcport) + Two(f.dstport) + [f.pad1, f.tcpFlags, f.prot, f.tos]
    + Two(f.srcAs) + Two(f.dstAs) + [f.srcMask, f.dstMask] + Two(f.pad2)
  }

  function Images(fs: seq<Flow>): seq<Byte>
    requires forall f | f in fs :: FlowFits(f)
  {
    if fs == [] then [] else Image(fs[0]) + Images(fs[1..])
  }

  /** Version, count, up time, seconds, and the twelve bytes that nobody looks at. */
  function Header(version: nat, count: nat, sysUptime: nat, unixSecs: nat, rest: seq<Byte>): (s: seq<Byte>)
    requires version < TWO_16 && count < TWO_16 && sysUptime < TWO_32 && unixSecs < TWO_32 && |rest| == 12
    ensures |s| == 24
  {
    Two(version) + Two(count) + Four(sysUptime) + Four(unixSecs) + rest
  }

  // What the receiver makes of it.

  datatype Record = Record(
    agentIp: string, srcaddr: string, dstaddr: string, nexthop: string, input: nat, output: nat, dPkts: nat,
    dOctets: nat, first: int, last: int, srcport: nat, dstport: nat, prot: nat, srcAs: nat, dstAs: nat,
    srcMask: nat, dstMask: nat, flownum: nat, recordTime: nat)

  function Ntohs(s: seq<Byte>, i: nat): nat
    requires i + 2 <= |s|
  {
    var high: int := s[i];
    256 * high + s[i + 1]
  }

  function Ntohl(s: seq<Byte>, i: nat): nat
    requires i + 4 <= |s|
  {
    TWO_16 * Ntohs(s, i) + Ntohs(s, i + 2)
  }

  /** `%d.%d.%d.%d`. */
  function Dotted(s: seq<Byte>, i: nat): string
    requires i + 4 <= |s|
  {
    Text.Decimal(s[i]) + "." + Text.Decimal(s[i + 1]) + "." + Text.Decimal(s[i + 2]) + "." + Text.Decimal(s[i + 3])
  }

  /** A number kept in an `int`. */
  function ToInt(v: int): (r: int)
    ensures -TWO_31 <= r < TWO_31 && (r - v) % TWO_32 == 0
  {
    var w := v % TWO_32;
    if w < TWO_31 then w else w - TWO_32
  }

  /** The record that the flow is to become: each field the number or the address that was sent, the
      times moved so that the flow ends at the time of the datagram. */
  function Received(f: Flow, unixSecs: nat, count: nat, agentIp: string): Record
    requires FlowFits(f)
  {
    Record(agentIp, Dotted(f.srcaddr, 0), Dotted(f.dstaddr, 0), Dotted(f.nexthop, 0), f.input, f.output, f.dPkts,
           f.dOctets, ToInt(unixSecs + f.first - f.last), ToInt(unixSecs), f.srcport, f.dstport, f.prot, f.srcAs,
           f.dstAs, f.srcMask, f.dstMask, count, unixSecs)
  }

  function ReceivedAll(fs: seq<Flow>, unixSecs: nat, count: nat, agentIp: string): (rs: seq<Record>)
    requires forall f | f in fs :: FlowFits(f)
    ensures |rs| == |fs|
  {
    if fs == [] then []
    else [Received(fs[0], unixSecs, count, agentIp)] + ReceivedAll(fs[1..], unixSecs, count, agentIp)
  }

  /** The flow in 48 bytes. */
  function FlowIn(s: seq<Byte>): (f: Flow)
    requires |s| == 48
    ensures FlowFits(f)
  {
    Flow(s[0..4], s[4..8], s[8..12], Ntohs(s, 12), Ntohs(s, 14), Ntohl(s, 16), Ntohl(s, 20), Ntohl(s, 24), Ntohl(s, 28),
         Ntohs(s, 32), Ntohs(s, 34), s[36], s[37], s[38], s[39], Ntohs(s, 40), Ntohs(s, 42), s[44], s[45], Ntohs(s, 46))
  }

  lemma FlowInImage(f: Flow)
    requires FlowFits(f)
    ensures FlowIn(Image(f)) == f
  {
  }

  lemma TwoOf(s: seq<Byte>, i: nat)
    requires i + 2 <= |s|
    ensures Ntohs(s, i) < TWO_16 && Two(Ntohs(s, i)) == s[i..i + 2]
  {
  }

  lemma FourOf(s: seq<Byte>, i: nat)
    requires i + 4 <= |s|
    ensures Ntohl(s, i) < TWO_32 && Four(Ntohl(s, i)) == s[i..i + 4]
  {
    hide Two, Ntohs;
    TwoOf(s, i);
    TwoOf(s, i + 2);
    var (a, b) := (Ntohs(s, i), Ntohs(s, i + 2));
    assert (TWO_16 * a + b) / TWO_16 == a && (TWO_16 * a + b) % TWO_16 == b;
  }

  /** The 48 bytes and the flow say the same: nothing of the flow is lost or moved. */
  lemma ImageOfFlowIn(s: seq<Byte>)
    requires |s| == 48
    ensures Image(FlowIn(s)) == s
  {
    hide Two, Four, Ntohs, Ntohl;
    TwoOf(s, 12);
    TwoOf(s, 14);
    TwoOf(s, 32);
    TwoOf(s, 34);
    TwoOf(s, 40);
    TwoOf(s, 42);
    TwoOf(s, 46);
    FourOf(s, 16);
    FourOf(s, 20);
    FourOf(s, 24);
    FourOf(s, 28);
    assert s[0..4] + s[4..8] + s[8..12] + s[12..14] + s[14..16] == s[..16];
    assert s[..16] + s[16..20] + s[20..24] + s[24..28] + s[28..32] == s[..32];
    assert s[..32] + s[32..34] + s[34..36] + [s[36], s[37], s[38], s[39]] == s[..40];
    assert s[..40] + s[40..42] + s[42..44] + [s[44], s[45]] + s[46..48] == s;
  }

  function FlowsIn(s: seq<Byte>, count: nat): (fs: seq<Flow>)
    requires |s| == 48 * count
    ensures |fs| == count && forall f | f in fs :: FlowFits(f)
  {
    if count == 0 then [] else [FlowIn(s[..48])] + FlowsIn(s[48..], count - 1)
  }

  lemma {:induction false} FlowsInImages(fs: seq<Flow>)
    requires forall f | f in fs :: FlowFits(f)
    ensures |Images(fs)| == 48 * |fs| && FlowsIn(Images(fs), |fs|) == fs
    decreases |fs|
  {
    hide Image, FlowIn, FlowFits;
    if fs != [] {
      var rest := Images(fs[1..]);
      FlowsInImages(fs[1..]);
      FlowInImage(fs[0]);
      assert (Image(fs[0]) + rest)[..48] == Image(fs[0]) && (Image(fs[0]) + rest)[48..] == rest;
    }
  }

  /** The number of flows that a datagram claims. */
  function Count(d: seq<Byte>): nat
    requires |d| >= 24
  {
    Ntohs(d, 2)
  }

  /** At least one flow, and as many as the header says. */
  predicate Accepted(d: seq<Byte>) { |d| >= 24 && Count(d) >= 1 && |d| == 24 + 48 * Count(d) }

  /** The records of an accepted datagram. */
  function Records(d: seq<Byte>, agentIp: string): seq<Record>
    requires Accepted(d)
  {
    ReceivedAll(FlowsIn(d[24..], Count(d)), Ntohl(d, 8), Count(d), agentIp)
  }

  // The records by the bytes of the datagram.

  /** Two and four bytes as a number, the first byte highest. */
  function Big2(d: seq<Byte>, o: nat): nat
    requires o + 2 <= |d|
  {
    d[o] as nat * 0x100 + d[o + 1] as nat
  }

  function Big4(d: seq<Byte>, o: nat): nat
    requires o + 4 <= |d|
  {
    d[o] as nat * 0x100_0000 + d[o + 1] as nat * 0x1_0000 + d[o + 2] as nat * 0x100 + d[o + 3] as nat
  }

  /** Four bytes as numbers with dots between them. */
  function Address(d: seq<Byte>, o: nat): string
    requires o + 4 <= |d|
  {
    Text.Join([Text.Decimal(d[o]), Text.Decimal(d[o + 1]), Text.Decimal(d[o + 2]), Text.Decimal(d[o + 3])], ".")
  }

  lemma NumbersAre(s: seq<Byte>, i: nat)
    requires i + 4 <= |s|
    ensures Ntohs(s, i) == Big2(s, i) && Ntohl(s, i) == Big4(s, i) && Dotted(s, i) == Address(s, i)
  {
    var (a, b, c, d) := (Text.Decimal(s[i]), Text.Decimal(s[i + 1]), Text.Decimal(s[i + 2]), Text.Decimal(s[i + 3]));
    hide Text.Decimal;
    var pieces := [a, b, c, d];
    assert pieces[1..] == [b, c, d] && [b, c, d][1..] == [c, d] && [c, d][1..] == [d];
    assert Text.Join([d], ".") == d && Text.Join([c, d], ".") == c + "." + d;
    assert Text.Join([b, c, d], ".") == b + "." + (c + "." + d);
  }

  /** A datagram is accepted if it has a header of 24 bytes, the two bytes from 2 on say that there is at least one
      flow, and 48 bytes follow for each. */
  lemma AcceptedIs(d: seq<Byte>)
    ensures Accepted(d) <==> |d| >= 24 && Big2(d, 2) >= 1 && |d| == 24 + 48 * Big2(d, 2)
  {
    if |d| >= 24 {
      NumbersAre(d, 2);
    }
  }

  /** `r` has what stands in the 48 bytes of `d` from `o` on. */
  predicate ReadsAt(r: Record, d: seq<Byte>, o: nat)
    requires o + 48 <= |d|
  {
    && r.srcaddr == Address(d, o) && r.dstaddr == Address(d, o + 4) && r.nexthop == Address(d, o + 8)
    && r.input == Big2(d, o + 12) && r.output == Big2(d, o + 14)
    && r.dPkts == Big4(d, o + 16) && r.dOctets == Big4(d, o + 20)
    && r.srcport == Big2(d, o + 32) && r.dstport == Big2(d, o + 34) && r.prot == d[o + 38]
    && r.srcAs == Big2(d, o + 40) && r.dstAs == Big2(d, o + 42)
    && r.srcMask == d[o + 44] && r.dstMask == d[o + 45]
  }

  /** `r` ends at the time of the datagram and begins as long before as the flow took, in 32 bits. */
  predicate TimedAt(r: Record, d: seq<Byte>, o: nat)
    requires 24 <= o && o + 48 <= |d|
  {
    && r.recordTime == Big4(d, 8) && (r.last - Big4(d, 8)) % TWO_32 == 0
    && (r.first - (Big4(d, 8) + Big4(d, o + 24) - Big4(d, o + 28))) % TWO_32 == 0
    && -TWO_31 <= r.first < TWO_31 && -TWO_31 <= r.last < TWO_31
  }

  /** Record `i` of an accepted datagram, by the bytes. */
  lemma RecordAt(d: seq<Byte>, agentIp: string, i: nat)
    requires Accepted(d) && i < Count(d)
    ensures |Records(d, agentIp)| == Big2(d, 2)
    ensures var (r, o) := (Records(d, agentIp)[i], 24 + 48 * i);
            && ReadsAt(r, d, o) && TimedAt(r, d, o) && r.agentIp == agentIp && r.flownum == Big2(d, 2)
  {
    hide ReceivedAll, FlowsIn, FlowIn, Received, ReadsAt, TimedAt, Ntohl, Ntohs, Big2, Big4;
    NumbersAre(d, 2);
    NumbersAre(d, 8);
    var (s, o) := (d[24..], 24 + 48 * i);
    FlowAt(s, Count(d), i);
    ReceivedAt(FlowsIn(s, Count(d)), Ntohl(d, 8), Count(d), agentIp, i);
    assert s[48 * i..48 * i + 48] == d[o..o + 48];
    ReceivedIs(d, o, agentIp);
  }

  lemma {:induction false} FlowAt(s: seq<Byte>, count: nat, i: nat)
    requires |s| == 48 * count && i < count
    ensures FlowsIn(s, count)[i] == FlowIn(s[48 * i..48 * i + 48])
    decreases i
  {
    hide FlowIn;
    if i > 0 {
      FlowAt(s[48..], count - 1, i - 1);
      assert s[48..][48 * (i - 1)..48 * (i - 1) + 48] == s[48 * i..48 * i + 48];
    }
  }

  lemma {:induction false} ReceivedAt(fs: seq<Flow>, unixSecs: nat, count: nat, agentIp: string, i: nat)
    requires (forall f | f in fs :: FlowFits(f)) && i < |fs|
    ensures ReceivedAll(fs, unixSecs, count, agentIp)[i] == Received(fs[i], unixSecs, count, agentIp)
    decreases i
  {
    hide Received;
    if i > 0 {
      ReceivedAt(fs[1..], unixSecs, count, agentIp, i - 1);
    }
  }

  lemma NumbersMoved(d: seq<Byte>, o: nat, i: nat)
    requires o + 48 <= |d| && i + 4 <= 48
    ensures var s := d[o..o + 48];
            Ntohs(s, i) == Big2(d, o + i) && Ntohl(s, i) == Big4(d, o + i) && Dotted(s, i) == Address(d, o + i)
  {
    hide Text.Decimal;
    NumbersAre(d[o..o + 48], i);
  }

  lemma ReceivedIs(d: seq<Byte>, o: nat, agentIp: string)
    requires 24 <= o && o + 48 <= |d|
    ensures var r := Received(FlowIn(d[o..o + 48]), Ntohl(d, 8), Ntohs(d, 2), agentIp);
            ReadsAt(r, d, o) && TimedAt(r, d, o) && r.agentIp == agentIp && r.flownum == Ntohs(d, 2)
  {
    hide Ntohl, Ntohs, Big2, Big4, Address, Dotted;
    var s := d[o..o + 48];
    NumbersAre(d, 8);
    NumbersMoved(d, o, 0);
    NumbersMoved(d, o, 4);
    NumbersMoved(d, o, 8);
    NumbersMoved(d, o, 12);
    NumbersMoved(d, o, 14);
    NumbersMoved(d, o, 16);
    NumbersMoved(d, o, 20);
    NumbersMoved(d, o, 24);
    NumbersMoved(d, o, 28);
    NumbersMoved(d, o, 32);
    NumbersMoved(d, o, 34);
    NumbersMoved(d, o, 40);
    NumbersMoved(d, o, 42);
    DottedOf(s, 0);
    DottedOf(s, 4);
    DottedOf(s, 8);
  }

  lemma DottedOf(s: seq<Byte>, i: nat)
    requires i + 4 <= |s|
    ensures Dotted(s[i..i + 4], 0) == Dotted(s, i)
  {
    hide Text.Decimal;
  }

  /** What an exporter sends is accepted and becomes the records it is to become, in its order. */
  lemma RecordsOfDatagram(version: nat, sysUptime: nat, unixSecs: nat, rest: seq<Byte>, fs: seq<Flow>, agentIp: string)
    requires version < TWO_16 && sysUptime < TWO_32 && unixSecs < TWO_32 && |rest| == 12
    requires 1 <= |fs| < TWO_16 && forall f | f in fs :: FlowFits(f)
    ensures var d := Header(version, |fs|, sysUptime, unixSecs, rest) + Images(fs);
            Accepted(d) && Records(d, agentIp) == ReceivedAll(fs, unixSecs, |fs|, agentIp)
  {
    hide FlowsIn, Images, ReceivedAll, FlowFits;
    var header := Header(version, |fs|, sysUptime, unixSecs, rest);
    var d := header + Images(fs);
    FlowsInImages(fs);
    assert d[24..] == Images(fs);
    HeaderFields(header, version, |fs|, sysUptime, unixSecs, rest);
    assert d[2] == header[2] && d[3] == header[3];
    assert d[8] == header[8] && d[9] == header[9] && d[10] == header[10] && d[11] == header[11];
  }

  lemma HeaderFields(s: seq<Byte>, version: nat, count: nat, sysUptime: nat, unixSecs: nat, rest: seq<Byte>)
    requires version < TWO_16 && count < TWO_16 && sysUptime < TWO_32 && unixSecs < TWO_32 && |rest| == 12
    requires s == Header(version, count, sysUptime, unixSecs, rest)
    ensures Ntohs(s, 2) == count && Ntohl(s, 8) == unixSecs
  {
  }

  /** The flow takes as long as the exporter said, whatever wraps. */
  lemma DurationKept(f: Flow, unixSecs: nat, count: nat, agentIp: string)
    requires FlowFits(f)
    ensures var r := Received(f, unixSecs, count, agentIp);
            (r.last - r.first - (f.last - f.first)) % TWO_32 == 0
  {
    hide ToInt, Dotted;
    var r := Received(f, unixSecs, count, agentIp);
    var a: int := unixSecs + f.first - f.last;
    var b: int := unixSecs;
    assert (r.first - a) % TWO_32 == 0 && (r.last - b) % TWO_32 == 0;
    var (p, q) := ((r.first - a) / TWO_32, (r.last - b) / TWO_32);
    assert r.last - r.first - (f.last - f.first) == (q - p) * TWO_32;
  }

  // The receiver.

  class NetUdpClientService {
    const buf: array<Byte>
    /** `m_netflow_result`. */
    var queue: seq<Record>
    /** All records that ever were appended. */
    ghost var received: seq<Record>
    // The local variables of `handle_input`, which keep their values while it waits for the mutex.
    var count: nat
    var unixSecs: nat
    var agentIp: string
    var i: nat

    ghost predicate Valid()
      reads this`count, this`i
    {
      buf.Length == 10240 && i <= count && 24 + 48 * count <= buf.Length
    }

    /** The records of the datagram at hand that are not yet in the queue. */
    ghost function Pending(): (rs: seq<Record>)
      requires Valid()
      reads this`count, this`unixSecs, this`agentIp, this`i, buf
    {
      Rest(buf[..24 + 48 * count], i, count, unixSecs, agentIp)
    }

    constructor ()
      ensures Valid() && fresh(buf) && queue == [] && received == [] && Pending() == []
    {
      buf := new Byte[10240](_ => 0);
      queue, received, count, unixSecs, agentIp, i := [], [], 0, 0, "", 0;
      new;
      RestOfNone(buf[..24], 0, 0, "");
    }

    /** One record from its 48 bytes. */
    method DecodeRecord(recordstr: seq<Byte>, unixSecs: nat, count: nat, agentIp: string) returns (r: Record)
      requires |recordstr| == 48
      ensures r == Received(FlowIn(recordstr), unixSecs, count, agentIp)
    {
      hide Text.Decimal, Ntohl, Ntohs, ToInt;
      var srcaddr := Dotted(recordstr, 0);
      var dstaddr := Dotted(recordstr, 4);
      var nexthop := Dotted(recordstr, 8);
      var first := Ntohl(recordstr, 24);
      var last := Ntohl(recordstr, 28);
      r := Record(agentIp, srcaddr, dstaddr, nexthop, Ntohs(recordstr, 12), Ntohs(recordstr, 14), Ntohl(recordstr, 16),
                  Ntohl(recordstr, 20), ToInt(unixSecs + first - last), ToInt(unixSecs), Ntohs(recordstr, 32),
                  Ntohs(recordstr, 34), recordstr[38], Ntohs(recordstr, 40), Ntohs(recordstr, 42), recordstr[44],
                  recordstr[45], count, unixSecs);
    }

    /** `handle_input` up to its loop, with what `recv` brought: nothing on an error, or the bytes that fit
        the buffer. */
    method Begin(arrived: Option<seq<Byte>>, remoteAddr: string)
      requires Valid() && i == count && (arrived.Some? ==> |arrived.value| <= buf.Length)
      modifies this`count, this`unixSecs, this`agentIp, this`i, buf
      ensures Valid() && Pending() == Content(arrived, remoteAddr)
    {
      hide FlowsIn, ReceivedAll;
      for k := 0 to buf.Length
        modifies buf
      {
        buf[k] := 0;
      }
      count, unixSecs, agentIp, i := 0, 0, remoteAddr, 0;
      RestOfNone(buf[..24], 0, 0, remoteAddr);
      var rev: int := -1;
      if arrived.Some? {
        rev := |arrived.value|;
        forall k | 0 <= k < rev {
          buf[k] := arrived.value[k];
        }
      }
      RestOfNone(buf[..24], 0, 0, remoteAddr);
      if rev < 72 {
        return;
      }
      ghost var d := arrived.value;
      assert buf[..rev] == d;
      if (rev - 24) % 48 != 0 {
        return;
      }
      var headstr := buf[..24];
      assert headstr == d[..24];
      var claimed := Ntohs(headstr, 2);
      unixSecs := Ntohl(headstr, 8);
      assert claimed == Count(d) && unixSecs == Ntohl(d, 8);
      if rev != 24 + 48 * claimed {
        RestOfNone(buf[..24], 0, unixSecs, remoteAddr);
        return;
      }
      count := claimed;
      assert d[24 + 48 * 0..] == d[24..];
    }

    /** One turn of its loop: a record is decoded and appended under the mutex. */
    method AppendOne()
      requires Valid() && i < count
      modifies this`queue, this`received, this`i
      ensures Valid() && i == old(i) + 1
      ensures old(Pending()) == [old(Pending()[0])] + Pending()
      ensures queue == old(queue) + [old(Pending()[0])] && received == old(received) + [old(Pending()[0])]
    {
      hide FlowsIn, ReceivedAll, FlowIn, Received, Rest;
      ghost var d := buf[..24 + 48 * count];
      RestOnce(d, i, count, unixSecs, agentIp);
      var recordstr := buf[24 + 48 * i..24 + 48 * (i + 1)];
      SliceOfSlice(buf[..], 24 + 48 * count, 24 + 48 * i, 24 + 48 * (i + 1));
      var record := DecodeRecord(recordstr, unixSecs, count, agentIp);
      queue, received, i := queue + [record], received + [record], i + 1;
    }

    /** `handle_input` without interruption. */
    method HandleInput(arrived: Option<seq<Byte>>, remoteAddr: string)
      requires Valid() && i == count && (arrived.Some? ==> |arrived.value| <= buf.Length)
      modifies this, buf
      ensures Valid() && i == count
      ensures queue == old(queue) + Content(arrived, remoteAddr)
      ensures received == old(received) + Content(arrived, remoteAddr)
    {
      hide Content, Rest;
      Begin(arrived, remoteAddr);
      ghost var done: seq<Record> := [];
      assert done + Pending() == Pending();
      while i < count
        invariant Valid() && Content(arrived, remoteAddr) == done + Pending()
        invariant queue == old(queue) + done && received == old(received) + done
        decreases count - i
      {
        ghost var rest := Pending();
        AppendOne();
        assert done + ([rest[0]] + Pending()) == done + [rest[0]] + Pending();
        done := done + [rest[0]];
      }
      RestOfNone(buf[..24 + 48 * count], count, unixSecs, agentIp);
      assert done + [] == done;
    }
  }

  /** The records of what `recv` brought. */
  function Content(arrived: Option<seq<Byte>>, agentIp: string): seq<Record> {
    if arrived.Some? && Accepted(arrived.value) then Records(arrived.value, agentIp) else []
  }

  /** The records from flow `i` on. */
  function Rest(d: seq<Byte>, i: nat, count: nat, unixSecs: nat, agentIp: string): (rs: seq<Record>)
    requires i <= count && |d| == 24 + 48 * count
    ensures |rs| == count - i
  {
    ReceivedAll(FlowsIn(d[24 + 48 * i..], count - i), unixSecs, count, agentIp)
  }

  lemma SliceOfSlice(s: seq<Byte>, n: nat, from: nat, to: nat)
    requires from <= to <= n <= |s|
    ensures s[..n][from..to] == s[from..to]
  {
  }

  lemma RestOnce(d: seq<Byte>, i: nat, count: nat, unixSecs: nat, agentIp: string)
    requires i < count && |d| == 24 + 48 * count
    ensures Rest(d, i, count, unixSecs, agentIp) ==
            [Received(FlowIn(d[24 + 48 * i..24 + 48 * (i + 1)]), unixSecs, count, agentIp)]
            + Rest(d, i + 1, count, unixSecs, agentIp)
  {
    hide FlowIn, Received;
    var s := d[24 + 48 * i..];
    assert s[..48] == d[24 + 48 * i..24 + 48 * (i + 1)] && s[48..] == d[24 + 48 * (i + 1)..];
    assert FlowsIn(s, count - i)[1..] == FlowsIn(s[48..], count - i - 1);
  }

  lemma RestOfNone(d: seq<Byte>, count: nat, unixSecs: nat, agentIp: string)
    requires |d| == 24 + 48 * count
    ensures Rest(d, count, count, unixSecs, agentIp) == []
  {
  }

  // The drain.

  /** What the drain lets through, given the filters and the names of the protocols. */
  datatype Filters = Filters(srcip: seq<string>, dstip: seq<string>, prot: seq<string>)

  function ProtName(protStr: map<int, string>, prot: int): string {
    if prot in protStr && protStr[prot] != "" then protStr[prot]
    else if prot < 0 then Text.SignedDecimal(prot) else Text.Decimal(prot)
  }

  predicate Passes(r: Record, fs: Filters, protStr: map<int, string>) {
    r.srcaddr !in fs.srcip && r.dstaddr !in fs.dstip && ProtName(protStr, r.prot) !in fs.prot
  }

  function Passing(rs: seq<Record>, fs: Filters, protStr: map<int, string>): (p: seq<Record>)
    ensures forall r :: r in p <==> r in rs && Passes(r, fs, protStr)
  {
    if rs == [] then []
    else Passing(rs[..|rs| - 1], fs, protStr)
         + if Passes(rs[|rs| - 1], fs, protStr) then [rs[|rs| - 1]] else []
  }

  lemma PassingSnoc(rs: seq<Record>, r: Record, fs: Filters, protStr: map<int, string>)
    ensures Passing(rs + [r], fs, protStr) == Passing(rs, fs, protStr) + if Passes(r, fs, protStr) then [r] else []
  {
    assert (rs + [r])[..|rs|] == rs;
  }

  /** A lookup of a protocol that is not there puts an empty name there; the names stay the same. */
  lemma LookedUp(protStr: map<int, string>, prot: int, q: int)
    ensures prot !in protStr ==> ProtName(protStr[prot := ""], q) == ProtName(protStr, q)
  {
  }

  /** What one `recv` brings, and from where. */
  datatype Arrival = Arrival(datagram: Option<seq<Byte>>, remoteAddr: string)

  predicate Bounded(a: Arrival) { a.datagram.Some? ==> |a.datagram.value| <= 10240 }

  /** The records of the accepted datagrams, in order. */
  function Arrived(arrivals: seq<Arrival>): seq<Record> {
    if arrivals == [] then []
    else
      var a := arrivals[|arrivals| - 1];
      Arrived(arrivals[..|arrivals| - 1]) + Content(a.datagram, a.remoteAddr)
  }

  /** Whose turn it is: the receiver's, to begin with the next datagram or to append one record, or the
      report loop's, to look whether a sweep is due, with `bReportCtrl` as it then is, or to sweep. */
  datatype Turn = Receiver | Reporter(control: bool)

  /** How far the receiver is, the datagrams begun and the records of the last one that are left, after one
      more turn. */
  function Further(arrivals: seq<Arrival>, p: (nat, nat)): (q: (nat, nat))
    requires p.0 <= |arrivals|
    ensures q.0 <= |arrivals|
  {
    if p.1 > 0 then (p.0, p.1 - 1)
    else if p.0 < |arrivals| then (p.0 + 1, |Content(arrivals[p.0].datagram, arrivals[p.0].remoteAddr)|)
    else p
  }

  function Progress(arrivals: seq<Arrival>, turns: seq<Turn>): (p: (nat, nat))
    ensures p.0 <= |arrivals|
  {
    if turns == [] then (0, 0)
    else
      var p := Progress(arrivals, turns[..|turns| - 1]);
      if turns[|turns| - 1].Receiver? then Further(arrivals, p) else p
  }

  class NetflowMgr {
    const server: NetUdpClientService
    const filters: Filters
    const nListCtrl: nat
    const nBreakCtrl: nat
    var protStr: map<int, string>
    var bReportCtrl: bool
    /** Whether the look at the length of the queue, before the mutex, called for a sweep. */
    var due: bool
    /** The records handed to the report function. */
    var reported: seq<Record>
    /** All records taken off the queue. */
    ghost var taken: seq<Record>
    ghost const names: map<int, string>

    /** Received, taken and queued records fit together, and the reports are the taken ones that pass. */
    ghost predicate Valid()
      reads this, server
    {
      && server.Valid()
      && server.received == taken + server.queue
      && reported == Passing(taken, filters, names)
      && forall q :: ProtName(protStr, q) == ProtName(names, q)
    }

    constructor (filters: Filters, protStr: map<int, string>, nListCtrl: nat, nBreakCtrl: nat)
      ensures Valid() && fresh(server) && fresh(server.buf) && taken == [] && server.Pending() == []
      ensures this.filters == filters && names == protStr && this.nBreakCtrl == nBreakCtrl
    {
      server := new NetUdpClientService();
      this.filters, this.protStr, this.nListCtrl, this.nBreakCtrl := filters, protStr, nListCtrl, nBreakCtrl;
      names := protStr;
      bReportCtrl, due, reported, taken := false, false, [], [];
    }

    /** The decision on the record at the front. */
    method Filtered(r: Record) returns (drop: bool)
      requires forall q :: ProtName(protStr, q) == ProtName(names, q)
      modifies this`protStr
      ensures drop == !Passes(r, filters, names)
      ensures forall q :: ProtName(protStr, q) == ProtName(names, q)
    {
      hide ProtName;
      drop := r.srcaddr in filters.srcip;
      if !drop {
        drop := r.dstaddr in filters.dstip;
      }
      var protCur := ProtName(protStr, r.prot);
      if r.prot !in protStr {
        forall q ensures ProtName(protStr[r.prot as int := ""], q) == ProtName(names, q) {
          LookedUp(protStr, r.prot, q);
        }
        protStr := protStr[r.prot as int := ""];
      }
      if !drop {
        drop := protCur in filters.prot;
      }
    }

    /** One turn of the report loop, for the record at the front of the queue. */
    method TakeFirst() returns (drop: bool)
      requires Valid() && server.queue != []
      modifies this`protStr, this`reported, this`taken, server`queue
      ensures Valid() && server.received == old(server.received)
      ensures server.queue == old(server.queue)[1..] && taken == old(taken) + [old(server.queue)[0]]
      ensures reported == old(reported) + if drop then [] else [old(server.queue)[0]]
    {
      hide Passing, ProtName, Passes;
      var r := server.queue[0];
      PassingSnoc(taken, r, filters, names);
      assert server.queue == [r] + server.queue[1..];
      assert taken + ([r] + server.queue[1..]) == taken + [r] + server.queue[1..];
      drop := Filtered(r);
      server.queue := server.queue[1..];
      taken := taken + [r];
      if !drop {
        reported := reported + [r];
      }
    }

    /** The report loop looks, without the mutex, whether a sweep is due. */
    method Look(control: bool)
      requires Valid()
      modifies this`bReportCtrl, this`due
      ensures Valid() && due == (|server.queue| > nListCtrl || control)
    {
      bReportCtrl := control;
      due := |server.queue| > nListCtrl || bReportCtrl;
    }

    /** One sweep, under the mutex.  It takes records off the front of the queue; it reports those that
        pass, at most `nBreakCtrl + 1` of them, and stops early only when it has reported as many. */
    method Drain()
      requires Valid()
      modifies this`protStr, this`reported, this`taken, this`due, server`queue
      ensures Valid() && !due && server.received == old(server.received)
      ensures old(taken) <= taken && old(reported) <= reported
      ensures |reported| <= |old(reported)| + nBreakCtrl + 1
      ensures server.queue == [] || |reported| == |old(reported)| + nBreakCtrl + 1
    {
      hide Passing, ProtName;
      due := false;
      var broken := 0;
      while server.queue != []
        invariant Valid() && !due && server.received == old(server.received)
        invariant old(taken) <= taken && old(reported) <= reported
        invariant |reported| == |old(reported)| + broken && broken <= nBreakCtrl
        decreases |server.queue|
      {
        var drop := TakeFirst();
        if drop {
          continue;
        }
        broken := broken + 1;
        if broken > nBreakCtrl {
          break;
        }
      }
    }

    /** The receiver's turn: a record of the datagram at hand, or the next datagram. */
    method Receive(arrivals: seq<Arrival>, next: nat) returns (n: nat)
      requires Valid() && next <= |arrivals| && forall a | a in arrivals :: Bounded(a)
      modifies server, server.buf
      ensures Valid() && next <= n <= next + 1 && n <= |arrivals|
      ensures (n, |server.Pending()|) == Further(arrivals, (next, |old(server.Pending())|))
      ensures server.received + server.Pending() == old(server.received + server.Pending()) +
                if n == next then [] else Content(arrivals[next].datagram, arrivals[next].remoteAddr)
    {
      hide Passing, ProtName, Content, Rest;
      n := next;
      if server.i < server.count {
        server.AppendOne();
      } else if next < |arrivals| {
        assert Bounded(arrivals[next]);
        server.Begin(arrivals[next].datagram, arrivals[next].remoteAddr);
        n := next + 1;
      }
    }

    /** Any interleaving of the two threads, which take the mutex for one record and for one sweep.  What was
        received is, in order of arrival, what the accepted datagrams hold, up to where the receiver is. */
    method Serve(arrivals: seq<Arrival>, turns: seq<Turn>) returns (next: nat)
      requires Valid() && server.received == server.Pending() == [] && forall a | a in arrivals :: Bounded(a)
      modifies this, server, server.buf
      ensures Valid() && (next, |server.Pending()|) == Progress(arrivals, turns)
      ensures server.received + server.Pending() == Arrived(arrivals[..next])
    {
      hide Passing, ProtName, Content, Rest, Further;
      next := 0;
      for k := 0 to |turns|
        invariant Valid() && (next, |server.Pending()|) == Progress(arrivals, turns[..k])
        invariant next <= |arrivals| && server.received + server.Pending() == Arrived(arrivals[..next])
      {
        assert turns[..k + 1][..k] == turns[..k];
        match turns[k] {
          case Receiver =>
            ArrivedNext(arrivals, next);
            next := Receive(arrivals, next);
          case Reporter(control) =>
            if due {
              Drain();
            } else {
              Look(control);
            }
        }
      }
      assert turns[..|turns|] == turns;
    }

    /** Of the records that were taken off the queue those are reported that no filter names: not their addresses,
        and not their protocol, by its name if there is one and by its number otherwise. */
    lemma ReportedIs(r: Record)
      requires Valid() && r in taken
      ensures var prot := if r.prot in names && names[r.prot] != "" then names[r.prot] else Text.Decimal(r.prot);
              r in reported <==> r.srcaddr !in filters.srcip && r.dstaddr !in filters.dstip && prot !in filters.prot
    {
    }

    /** The reports, the records filtered out and the queue divide what was received among them: nothing
        is lost and nothing is reported twice. */
    lemma Partition(r: Record)
      requires Valid()
      ensures multiset(server.received)[r] ==
              (if Passes(r, filters, names) then multiset(reported)[r] else multiset(taken)[r])
              + multiset(server.queue)[r]
      ensures Passes(r, filters, names) || r !in reported
    {
      hide Passes, ProtName;
      CountPassing(taken, filters, names, r);
    }
  }

  lemma ArrivedNext(arrivals: seq<Arrival>, next: nat)
    requires next <= |arrivals|
    ensures next < |arrivals| ==>
              Arrived(arrivals[..next + 1]) ==
              Arrived(arrivals[..next]) + Content(arrivals[next].datagram, arrivals[next].remoteAddr)
  {
    hide Content;
    if next < |arrivals| {
      assert arrivals[..next + 1][..next] == arrivals[..next];
    }
  }

  lemma {:induction false} CountPassing(rs: seq<Record>, fs: Filters, protStr: map<int, string>, r: Record)
    ensures Passes(r, fs, protStr) ==> multiset(Passing(rs, fs, protStr))[r] == multiset(rs)[r]
    decreases |rs|
  {
    hide Passes;
    if rs != [] {
      CountPassing(rs[..|rs| - 1], fs, protStr, r);
      assert rs == rs[..|rs| - 1] + [rs[|rs| - 1]];
    }
  }
}
