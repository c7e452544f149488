/** The TCP stream between edge and supernode: frames are a big-endian 16-bit length followed by
    the payload, and the receiver reassembles them from reads of any size. */
module TcpFraming {
  import opened Words

  const PKT_BUF_SIZE: nat := 4096

  /** The length of the main loop's packet buffer, which includes the prefix. */
  const BUFFER: nat := PKT_BUF_SIZE + 2

  type Payload = seq<Byte>

  // ---- the sender ----

  function Header(p: Payload): seq<Byte> { [(|p| / 256) % 256, |p| % 256] }

  /** What sendto_sock puts on the stream; the length is cut to 16 bits. */
  function Frame(p: Payload): seq<Byte> { Header(p) + p }

  function Stream(frames: seq<Payload>): seq<Byte> {
    if frames == [] then [] else Frame(frames[0]) + Stream(frames[1..])
  }

  // ---- the receiver, byte by byte ----

  /** The receiver's counters - how many bytes it waits for, and those it has - with the payloads
      handed to process_udp.  Closing the connection leaves the counters as they are.  In
      `OutOfBounds` the next read would write outside the buffer. */
  datatype Rx =
    | Open(expected: nat, partial: seq<Byte>, delivered: seq<Payload>)
    | Shut(expected: nat, partial: seq<Byte>, delivered: seq<Payload>)
    | OutOfBounds(delivered: seq<Payload>)
  {
    /** The next read asks for at least one byte. */
    predicate Reads() { Open? && |partial| < expected }
  }

  const Start := Open(2, [], [])

  /** A read for expected - |partial| bytes at offset |partial| stays within the buffer; headers
      come first; and only a header leaves nothing to ask for, that of an empty frame. */
  predicate Within(expected: nat, partial: seq<Byte>) {
    2 <= expected <= BUFFER && |partial| <= expected && (|partial| < 2 ==> expected == 2)
    && (|partial| == expected ==> expected == 2)
  }

  predicate InBuffer(r: Rx) { r.Open? ==> Within(r.expected, r.partial) }

  /** The largest payload that is taken: with forced TCP the main loop also closes a connection
      whose frame would fill the buffer. */
  function Limit(forced: bool): nat { if forced then PKT_BUF_SIZE - 3 else PKT_BUF_SIZE - 2 }

  predicate Good(forced: bool, p: Payload) { 1 <= |p| <= Limit(forced) }

  ghost predicate AllGood(forced: bool, d: seq<Payload>) { forall i {:trigger d[i]} :: 0 <= i < |d| ==> Good(forced, d[i]) }

  function Be16(hi: int, lo: int): int { 256 * hi + lo }

  /** The state after a header: `expected` is a 16-bit number.  With forced TCP the main loop
      resets the counters when it closes the connection. */
  function AfterHeader(forced: bool, header: seq<Byte>, d: seq<Payload>): (r: Rx)
    requires |header| == 2
    ensures InBuffer(r)
  {
    var e := (2 + Be16(header[0], header[1])) % 0x1_0000;
    if e > Limit(forced) + 2 then (if forced then Shut(2, [], d) else Shut(e, header, d))
    else if e < 2 then OutOfBounds(d)
    else Open(e, header, d)
  }

  /** The state when a read completed what was expected. */
  function Completed(forced: bool, partial: seq<Byte>, d: seq<Payload>): (r: Rx)
    requires |partial| >= 2
    ensures InBuffer(r)
  {
    if |partial| == 2 then AfterHeader(forced, partial, d) else Open(2, [], d + [partial[2..]])
  }

  function Feed(forced: bool, r: Rx, b: Byte): (t: Rx)
    requires r.Reads() && InBuffer(r)
    ensures InBuffer(t)
  {
    var partial := r.partial + [b];
    if |partial| == r.expected then Completed(forced, partial, r.delivered) else Open(r.expected, partial, r.delivered)
  }

  /** The state after a stream of bytes; a receiver that does not read leaves the rest unread. */
  function FeedAll(forced: bool, r: Rx, s: seq<Byte>): (t: Rx)
    requires InBuffer(r)
    ensures InBuffer(t)
    decreases |s|, s, forced, r
  {
    if s == [] || !r.Reads() then r
    else FeedAll(forced, Feed(forced, r, s[0]), s[1..])
  }

  /** A read that asks for nothing: what is there is looked at again. */
  function ReadNothing(forced: bool, r: Rx): (t: Rx)
    requires InBuffer(r)
    ensures InBuffer(t)
  {
    if r.Open? && |r.partial| == r.expected then AfterHeader(forced, r.partial, r.delivered) else r
  }

  lemma {:induction false} FeedAllJoins(forced: bool, r: Rx, s: seq<Byte>, t: seq<Byte>)
    requires InBuffer(r)
    ensures FeedAll(forced, r, s + t) == FeedAll(forced, FeedAll(forced, r, s), t)
    decreases |s|
  {
    if s == [] {
      assert s + t == t;
    } else if r.Reads() {
      assert (s + t)[1..] == s[1..] + t;
      FeedAllJoins(forced, Feed(forced, r, s[0]), s[1..], t);
    }
  }

  /** Bytes that do not complete what is expected are only collected. */
  lemma {:induction false} Collects(forced: bool, r: Rx, s: seq<Byte>)
    requires InBuffer(r) && r.Open? && |r.partial| + |s| < r.expected
    ensures FeedAll(forced, r, s) == Open(r.expected, r.partial + s, r.delivered)
    decreases |s|
  {
    if s == [] {
      assert r.partial + s == r.partial;
    } else {
      assert r.partial + [s[0]] + s[1..] == r.partial + s;
      Collects(forced, Feed(forced, r, s[0]), s[1..]);
    }
  }

  /** Bytes that complete it. */
  lemma Completes(forced: bool, r: Rx, s: seq<Byte>)
    requires InBuffer(r) && r.Open? && s != [] && |r.partial| + |s| == r.expected
    ensures FeedAll(forced, r, s) == Completed(forced, r.partial + s, r.delivered)
  {
    var n := |s| - 1;
    assert s == s[..n] + [s[n]];
    FeedAllJoins(forced, r, s[..n], [s[n]]);
    Collects(forced, r, s[..n]);
    assert r.partial + s[..n] + [s[n]] == r.partial + s;
    var m := FeedAll(forced, r, s[..n]);
    assert FeedAll(forced, m, [s[n]]) == Feed(forced, m, s[n]) by {
      assert [s[n]][1..] == [];
    }
  }

  // ---- round trip ----

  lemma HeaderValue(p: Payload)
    requires |p| < 0x1_0000
    ensures Be16(Header(p)[0], Header(p)[1]) == |p|
  {
  }

  lemma HeaderRead(forced: bool, d: seq<Payload>, p: Payload)
    requires Good(forced, p)
    ensures FeedAll(forced, Open(2, [], d), Header(p)) == Open(2 + |p|, Header(p), d)
  {
    Completes(forced, Open(2, [], d), Header(p));
    assert [] + Header(p) == Header(p);
    HeaderValue(p);
  }

  lemma BodyRead(forced: bool, d: seq<Payload>, p: Payload)
    requires Good(forced, p)
    ensures FeedAll(forced, Open(2 + |p|, Header(p), d), p) == Open(2, [], d + [p])
  {
    Completes(forced, Open(2 + |p|, Header(p), d), p);
    assert (Header(p) + p)[2..] == p;
  }

  /** At a frame boundary one good frame is delivered, and nothing else happens. */
  lemma FrameDelivered(forced: bool, d: seq<Payload>, p: Payload)
    requires Good(forced, p)
    ensures FeedAll(forced, Open(2, [], d), Frame(p)) == Open(2, [], d + [p])
  {
    FeedAllJoins(forced, Open(2, [], d), Header(p), p);
    HeaderRead(forced, d, p);
    BodyRead(forced, d, p);
  }

  lemma {:induction false} FramesDelivered(forced: bool, d: seq<Payload>, frames: seq<Payload>)
    requires AllGood(forced, frames)
    ensures FeedAll(forced, Open(2, [], d), Stream(frames)) == Open(2, [], d + frames)
    decreases |frames|
  {
    if frames == [] {
      assert d + frames == d;
    } else {
      FrameDelivered(forced, d, frames[0]);
      FeedAllJoins(forced, Open(2, [], d), Frame(frames[0]), Stream(frames[1..]));
      FramesDelivered(forced, d + [frames[0]], frames[1..]);
      assert d + [frames[0]] + frames[1..] == d + frames;
    }
  }

  /** The counters are those of a connection that began at a frame boundary. */
  predicate Sane(forced: bool, r: Rx) { InBuffer(r) && (r.Open? ==> r.expected <= Limit(forced) + 2) }

  lemma FeedGood(forced: bool, r: Rx, b: Byte)
    requires r.Reads() && Sane(forced, r) && AllGood(forced, r.delivered)
    ensures Sane(forced, Feed(forced, r, b)) && AllGood(forced, Feed(forced, r, b).delivered)
  {
  }

  /** Whatever arrives, as long as no read leaves the buffer only good payloads are delivered. */
  lemma {:induction false} DeliveredGood(forced: bool, r: Rx, s: seq<Byte>)
    requires Sane(forced, r) && AllGood(forced, r.delivered)
    ensures Sane(forced, FeedAll(forced, r, s)) && AllGood(forced, FeedAll(forced, r, s).delivered)
    decreases |s|
  {
    if s != [] && r.Reads() {
      FeedGood(forced, r, s[0]);
      DeliveredGood(forced, Feed(forced, r, s[0]), s[1..]);
    }
  }

  /** The receiver hands over exactly the payloads that were framed, and then is ready for more,
      if and only if every payload has between 1 byte and the limit. */
  lemma ExactlyTheGood(forced: bool, frames: seq<Payload>)
    ensures FeedAll(forced, Start, Stream(frames)).delivered == frames <==> AllGood(forced, frames)
    ensures AllGood(forced, frames) <==> forall i {:trigger frames[i]} :: 0 <= i < |frames| ==> 1 <= |frames[i]| <= (if forced then 4093 else 4094)
    ensures FeedAll(forced, Start, Stream(frames)) == Open(2, [], frames) <==> AllGood(forced, frames)
  {
    if AllGood(forced, frames) {
      FramesDelivered(forced, [], frames);
      assert [] + frames == frames;
    } else {
      DeliveredGood(forced, Start, Stream(frames));
    }
  }

  /** An empty payload wedges the receiver: it waits for two bytes, has two, and reads no more. */
  lemma EmptyFrameWedges(forced: bool, d: seq<Payload>, rest: seq<Byte>)
    ensures FeedAll(forced, Open(2, [], d), Frame([]) + rest) == Open(2, [0, 0], d)
  {
    var s := Frame([]) + rest;
    assert s[..2] == [0, 0] && s[2..] == rest;
    HeaderStep(forced, d, s);
    Stopped(forced, Open(2, [0, 0], d), rest);
  }

  // ---- reads outside the buffer ----

  /** One of the length prefixes that a receiver at a frame boundary meets in `s` is 65534 or
      65535; an empty frame and one beyond the limit end the reading. */
  predicate MeetsWrap(forced: bool, s: seq<Byte>)
    decreases |s|
  {
    |s| >= 2
    && var n := Be16(s[0], s[1]);
       n >= 65534 || (1 <= n <= Limit(forced) && 2 + n <= |s| && MeetsWrap(forced, s[2 + n..]))
  }

  /** 16-bit wrap-around: after such a prefix fewer bytes are expected than are there, and the
      difference, as a size, is far larger than the buffer. */
  lemma WrapLeavesBuffer(forced: bool, d: seq<Payload>, hi: Byte, lo: Byte)
    requires Be16(hi, lo) >= 65534
    ensures FeedAll(forced, Open(2, [], d), [hi, lo]) == OutOfBounds(d)
  {
    Completes(forced, Open(2, [], d), [hi, lo]);
    assert [] + [hi, lo] == [hi, lo];
  }

  lemma Stopped(forced: bool, r: Rx, s: seq<Byte>)
    requires InBuffer(r) && !r.Reads()
    ensures FeedAll(forced, r, s) == r
  {
  }

  lemma HeaderStep(forced: bool, d: seq<Payload>, s: seq<Byte>)
    requires |s| >= 2
    ensures FeedAll(forced, Open(2, [], d), s) == FeedAll(forced, AfterHeader(forced, s[..2], d), s[2..])
  {
    assert s == s[..2] + s[2..] && [] + s[..2] == s[..2];
    FeedAllJoins(forced, Open(2, [], d), s[..2], s[2..]);
    Completes(forced, Open(2, [], d), s[..2]);
  }

  lemma HeaderOpens(forced: bool, h: seq<Byte>, d: seq<Payload>)
    requires |h| == 2
    ensures var n := Be16(h[0], h[1]); var r := AfterHeader(forced, h, d);
            if 1 <= n <= Limit(forced) then r == Open(2 + n, h, d) else !r.Reads() && (r.OutOfBounds? <==> n >= 65534)
  {
  }

  /** The payload of a good length, if it is all there. */
  lemma BodyStep(forced: bool, h: seq<Byte>, d: seq<Payload>, r: seq<Byte>, n: nat)
    requires |h| == 2 && 1 <= n <= Limit(forced)
    ensures n <= |r| ==> FeedAll(forced, Open(2 + n, h, d), r) == FeedAll(forced, Open(2, [], d + [r[..n]]), r[n..])
    ensures n > |r| ==> FeedAll(forced, Open(2 + n, h, d), r).Open?
  {
    var m := Open(2 + n, h, d);
    if n <= |r| {
      assert r == r[..n] + r[n..];
      FeedAllJoins(forced, m, r[..n], r[n..]);
      Completes(forced, m, r[..n]);
      assert (h + r[..n])[2..] == r[..n];
    } else {
      Collects(forced, m, r);
    }
  }

  /** From a frame boundary every read stays inside the buffer if and only if no prefix of 65534 or
      65535 is met. */
  lemma {:induction false} LeavesBufferExactly(forced: bool, d: seq<Payload>, s: seq<Byte>)
    ensures FeedAll(forced, Open(2, [], d), s).OutOfBounds? <==> MeetsWrap(forced, s)
    decreases |s|
  {
    if |s| < 2 {
      Collects(forced, Open(2, [], d), s);
    } else {
      var h, r, n := s[..2], s[2..], Be16(s[0], s[1]);
      HeaderStep(forced, d, s);
      HeaderOpens(forced, h, d);
      if 1 <= n <= Limit(forced) {
        BodyStep(forced, h, d, r, n);
        if n <= |r| {
          assert s[2 + n..] == r[n..];
          LeavesBufferExactly(forced, d + [r[..n]], r[n..]);
        }
      } else {
        Stopped(forced, AfterHeader(forced, h, d), r);
      }
    }
  }

  // ---- the next connection ----

  /** A read error or an oversized frame closes the connection. */
  function Broken(r: Rx): Rx { if r.Open? then Shut(r.expected, r.partial, r.delivered) else r }

  /** Counters that a closed connection can leave: those of an open one, or what an oversized
      prefix set.  The bytes may be those of a datagram received since. */
  predicate Survives(expected: nat, partial: seq<Byte>) {
    Within(expected, partial) || (|partial| == 2 && BUFFER < expected < 0x1_0000)
  }

  lemma {:induction false} ShutSurvives(forced: bool, r: Rx, s: seq<Byte>)
    requires InBuffer(r) && (r.Shut? ==> Survives(r.expected, r.partial))
    ensures var t := Broken(FeedAll(forced, r, s)); t.Shut? ==> Survives(t.expected, t.partial)
    decreases |s|
  {
    if s != [] && r.Reads() { ShutSurvives(forced, Feed(forced, r, s[0]), s[1..]); }
  }

  /** The first read of the next connection uses the counters that are there, even if it asks for
      nothing. */
  function Reconnect(forced: bool, r: Rx): (t: Rx)
    requires r.Shut? && Survives(r.expected, r.partial)
    ensures InBuffer(t)
  {
    if r.expected > BUFFER then OutOfBounds(r.delivered)
    else ReadNothing(forced, Open(r.expected, r.partial, r.delivered))
  }

  /** A frame of one byte, with the value 1. */
  const ONE: Payload := [1]

  lemma StreamOfOne()
    ensures Stream([ONE]) == [0, 1, 1]
  {
    assert Frame(ONE) == [0, 1, 1] && Stream([ONE][1..]) == [];
  }

  /** A header byte left over shifts the next header. */
  lemma HalfHeaderMisses(forced: bool, a: Byte, d: seq<Payload>)
    ensures FeedAll(forced, Open(2, [a], d), [0, 1, 1]).delivered == d
  {
    var r := Open(2, [a], d);
    var t := AfterHeader(forced, [a, 0], d);
    assert [0, 1, 1] == [0] + [1, 1] && [a] + [0] == [a, 0];
    FeedAllJoins(forced, r, [0], [1, 1]);
    Completes(forced, r, [0]);
    if t.Reads() { Collects(forced, t, [1, 1]); } else { Stopped(forced, t, [1, 1]); }
  }

  /** The rest of an old frame swallows the beginning of the new one. */
  lemma OldFrameSwallows(forced: bool, e: nat, partial: seq<Byte>, d: seq<Payload>)
    requires Within(e, partial) && 2 <= |partial| && 1 <= e - |partial| <= 3
    ensures FeedAll(forced, Open(e, partial, d), [0, 1, 1]).delivered
         == d + [partial[2..] + [0, 1, 1][..e - |partial|]]
  {
    var k, s: seq<Byte> := e - |partial|, [0, 1, 1];
    var r := Open(e, partial, d);
    assert s == s[..k] + s[k..];
    FeedAllJoins(forced, r, s[..k], s[k..]);
    Completes(forced, r, s[..k]);
    assert (partial + s[..k])[2..] == partial[2..] + s[..k];
    var t := Open(2, [], d + [partial[2..] + s[..k]]);
    if k == 1 {
      assert s[1..] == [1, 1] && [] + [1, 1] == [1, 1];
      Completes(forced, t, [1, 1]);
    } else {
      Collects(forced, t, s[k..]);
    }
  }

  /** A receiver that is not at a frame boundary does not deliver the frame. */
  lemma Misses(forced: bool, r: Rx)
    requires InBuffer(r) && !(r.Open? && r.expected == 2 && r.partial == [])
    ensures FeedAll(forced, r, [0, 1, 1]).delivered != r.delivered + [ONE]
  {
    if !r.Reads() {
      Stopped(forced, r, [0, 1, 1]);
    } else if |r.partial| < 2 {
      assert r == Open(2, [r.partial[0]], r.delivered);
      HalfHeaderMisses(forced, r.partial[0], r.delivered);
    } else if r.expected - |r.partial| > 3 {
      Collects(forced, r, [0, 1, 1]);
    } else {
      var d, k := r.delivered, r.expected - |r.partial|;
      OldFrameSwallows(forced, r.expected, r.partial, d);
      var q := r.partial[2..] + [0, 1, 1][..k];
      assert q != ONE by { assert |q| == 1 ==> q[0] == 0; }
      assert (d + [q])[|d|] == q && (d + [ONE])[|d|] == ONE;
    }
  }

  lemma StaleMisses(forced: bool, e: nat, partial: seq<Byte>, d: seq<Payload>)
    requires Survives(e, partial) && !(e == 2 && partial == [])
    ensures FeedAll(forced, Reconnect(forced, Shut(e, partial, d)), Stream([ONE])).delivered != d + [ONE]
  {
    StreamOfOne();
    Misses(forced, Reconnect(forced, Shut(e, partial, d)));
  }

  /** The next connection delivers every sequence of good frames if and only if the counters it
      finds are those of a frame boundary. */
  lemma HarmlessReconnect(forced: bool, e: nat, partial: seq<Byte>, d: seq<Payload>)
    requires Survives(e, partial)
    ensures (forall frames {:trigger Stream(frames)} :: AllGood(forced, frames) ==>
               FeedAll(forced, Reconnect(forced, Shut(e, partial, d)), Stream(frames)).delivered == d + frames)
       <==> e == 2 && partial == []
  {
    if e == 2 && partial == [] {
      forall frames {:trigger Stream(frames)} | AllGood(forced, frames)
        ensures FeedAll(forced, Reconnect(forced, Shut(e, partial, d)), Stream(frames)).delivered == d + frames
      {
        FramesDelivered(forced, d, frames);
      }
    } else {
      StaleMisses(forced, e, partial, d);
      assert Good(forced, ONE) && AllGood(forced, [ONE]);
    }
  }

  /** Outside forced TCP an oversized frame leaves counters with which the next connection writes
      outside the buffer at once, unless the prefix exceeds the limit by no more than two. */
  lemma OversizedReconnect(hi: Byte, lo: Byte, d: seq<Payload>)
    requires PKT_BUF_SIZE - 2 < Be16(hi, lo) < 65534
    ensures var r := FeedAll(false, Open(2, [], d), [hi, lo]);
            r == Shut(2 + Be16(hi, lo), [hi, lo], d) && Survives(r.expected, r.partial)
            && (Reconnect(false, r) == OutOfBounds(d) <==> Be16(hi, lo) > PKT_BUF_SIZE)
  {
    Completes(false, Open(2, [], d), [hi, lo]);
    assert [] + [hi, lo] == [hi, lo];
  }

  // ---- datagrams in the same buffer ----

  /** The first bytes of the buffer after a datagram was received into it. */
  function Overwritten(partial: seq<Byte>, g: seq<Byte>): (q: seq<Byte>)
    ensures |q| == |partial|
  {
    if |g| < |partial| then g + partial[|g|..] else g[..|partial|]
  }

  /** A multicast or UDP datagram is received at the beginning of the buffer; the counters stay. */
  function Datagram(r: Rx, g: seq<Byte>): (t: Rx)
    ensures InBuffer(r) ==> InBuffer(t)
    ensures r.Shut? && Survives(r.expected, r.partial) ==> t.Shut? && Survives(t.expected, t.partial)
  {
    if r.OutOfBounds? then r else r.(partial := Overwritten(r.partial, g))
  }

  /** The receiver after `n` bytes of the frame of `p`. */
  function Midway(forced: bool, d: seq<Payload>, p: Payload, n: nat): (r: Rx)
    requires n <= |Frame(p)|
    ensures InBuffer(r)
  {
    FeedAll(forced, Open(2, [], d), Frame(p)[..n])
  }

  lemma MidwayIs(forced: bool, d: seq<Payload>, p: Payload, n: nat)
    requires Good(forced, p) && n < |Frame(p)|
    ensures Midway(forced, d, p, n) == Open(if n < 2 then 2 else 2 + |p|, Frame(p)[..n], d)
  {
    var f := Frame(p);
    if n < 2 {
      Collects(forced, Open(2, [], d), f[..n]);
      assert [] + f[..n] == f[..n];
    } else {
      assert f[..n] == Header(p) + p[..n - 2];
      FeedAllJoins(forced, Open(2, [], d), Header(p), p[..n - 2]);
      HeaderRead(forced, d, p);
      Collects(forced, Open(2 + |p|, Header(p), d), p[..n - 2]);
    }
  }

  /** A datagram between the bytes of a frame does no harm: the frame is delivered, and the
      receiver is ready for the next one. */
  ghost predicate Unharmed(forced: bool, d: seq<Payload>, p: Payload, n: nat, g: seq<Byte>)
    requires n <= |Frame(p)|
  {
    FeedAll(forced, Datagram(Midway(forced, d, p, n), g), Frame(p)[n..]) == Open(2, [], d + [p])
  }

  /** At a boundary nothing is overwritten, and after the header only what is no longer needed. */
  lemma HarmlessDatagram(forced: bool, d: seq<Payload>, p: Payload, n: nat, g: seq<Byte>)
    requires Good(forced, p) && (n == 0 || n == 2)
    ensures Unharmed(forced, d, p, n, g)
  {
    MidwayIs(forced, d, p, n);
    var q := Overwritten(Frame(p)[..n], g);
    if n == 0 {
      assert q == [] && Frame(p)[..0] == [] && Frame(p)[0..] == Frame(p);
      FrameDelivered(forced, d, p);
    } else {
      assert Frame(p)[2..] == p;
      Completes(forced, Open(2 + |p|, q, d), p);
      assert (q + p)[2..] == p;
    }
  }

  /** A first header byte of 255 makes any length too large. */
  lemma HeaderHarmed(forced: bool, d: seq<Payload>, p: Payload)
    requires Good(forced, p)
    ensures FeedAll(forced, Datagram(Midway(forced, d, p, 1), [255]), Frame(p)[1..]).delivered == d
  {
    MidwayIs(forced, d, p, 1);
    var f, r := Frame(p), Open(2, [255], d);
    assert Overwritten(f[..1], [255]) == [255];
    assert f[1..] == [f[1]] + p;
    FeedAllJoins(forced, r, [f[1]], p);
    Completes(forced, r, [f[1]]);
    assert [255] + [f[1]] == [255, f[1]];
    Stopped(forced, AfterHeader(forced, [255, f[1]], d), p);
  }

  /** A payload byte that is overwritten is delivered as it is. */
  lemma BodyHarmed(forced: bool, d: seq<Payload>, p: Payload, n: nat, x: Byte)
    requires Good(forced, p) && 2 < n < |Frame(p)| && x != p[0]
    ensures FeedAll(forced, Datagram(Midway(forced, d, p, n), [0, 0, x]), Frame(p)[n..]) == Open(2, [], d + [[x] + p[1..]])
  {
    MidwayIs(forced, d, p, n);
    var f := Frame(p);
    var q := Overwritten(f[..n], [0, 0, x]);
    Completes(forced, Open(2 + |p|, q, d), f[n..]);
    assert q == [0, 0, x] + f[3..n] && f[3..n] + f[n..] == p[1..];
    assert (q + f[n..])[2..] == [x] + p[1..];
  }

  /** Within a frame every datagram is harmless if and only if nothing has been read yet, or the
      header and nothing more. */
  lemma HarmlessDatagramExactly(forced: bool, d: seq<Payload>, p: Payload, n: nat)
    requires Good(forced, p) && n < |Frame(p)|
    ensures (forall g {:trigger Unharmed(forced, d, p, n, g)} :: |g| <= PKT_BUF_SIZE ==> Unharmed(forced, d, p, n, g))
       <==> n == 0 || n == 2
  {
    if n == 0 || n == 2 {
      forall g ensures Unharmed(forced, d, p, n, g) { HarmlessDatagram(forced, d, p, n, g); }
    } else if n == 1 {
      HeaderHarmed(forced, d, p);
      assert !Unharmed(forced, d, p, n, [255]);
    } else {
      var x := if p[0] == 0 then 1 else 0;
      BodyHarmed(forced, d, p, n, x);
      var q := [x] + p[1..];
      assert (d + [q])[|d|] == q && (d + [p])[|d|] == p && q[0] != p[0];
      assert !Unharmed(forced, d, p, n, [0, 0, x]);
    }
  }

  // ---- the receiver, read by read ----

  datatype Status = Up | Down | Wild

  class Receiver {
    const forced: bool
    const buf: array<Byte>
    var expected: nat
    var position: nat
    var status: Status
    var delivered: seq<Payload>

    constructor (forced_: bool)
      ensures Valid() && fresh(buf) && forced == forced_ && View() == Start
    {
      forced := forced_;
      buf := new Byte[BUFFER](_ => 0);
      expected, position, status, delivered := 2, 0, Up, [];
    }

    ghost predicate Valid()
      reads this, buf
    {
      && buf.Length == BUFFER && position <= BUFFER
      && (status == Up ==> Within(expected, buf[..position]))
      && (status == Down ==> Survives(expected, buf[..position]))
    }

    ghost function View(): (r: Rx)
      reads this, buf
      requires Valid()
      ensures InBuffer(r)
    {
      match status
      case Up => Open(expected, buf[..position], delivered)
      case Down => Shut(expected, buf[..position], delivered)
      case Wild => OutOfBounds(delivered)
    }

    /** A read of fetch_and_eventually_process_data that returned `chunk`, without error, and the
        main loop's test after it.  However a stream is cut, the effect is that of its bytes one
        by one. */
    method Receive(chunk: seq<Byte>)
      requires Valid() && status == Up && |chunk| <= expected - position
      modifies this, buf
      ensures Valid()
      ensures View() == if chunk == [] then ReadNothing(forced, old(View())) else FeedAll(forced, old(View()), chunk)
    {
      ghost var r := View();
      Store(chunk);
      assert buf[..position] == r.partial + chunk;
      if position == expected {
        ghost var partial := buf[..position];
        if chunk != [] { Completes(forced, r, chunk); } else { assert partial == r.partial; }
        if position == 2 {
          assert buf[0] == partial[0] && buf[1] == partial[1];
          expected := (expected + Be16(buf[0], buf[1])) % 0x1_0000;
          if expected > PKT_BUF_SIZE { status := Down; }
          else if expected < position { status := Wild; }
        } else {
          delivered := delivered + [buf[2..position]];
          assert buf[2..position] == buf[..position][2..];
          expected, position := 2, 0;
        }
        if forced && (expected >= PKT_BUF_SIZE || position >= PKT_BUF_SIZE) {
          status, expected, position := Down, 2, 0;
        }
      } else if chunk != [] {
        Collects(forced, r, chunk);
      } else {
        assert r.partial + chunk == r.partial;
      }
    }

    /** recvfrom into the buffer from `position` on. */
    method Store(chunk: seq<Byte>)
      requires buf.Length == BUFFER && position + |chunk| <= BUFFER
      modifies this`position, buf
      ensures position == old(position) + |chunk| && buf[..position] == old(buf[..position]) + chunk
    {
      var k := 0;
      while k < |chunk|
        invariant 0 <= k <= |chunk| && position == old(position)
        invariant forall j {:trigger buf[j]} :: 0 <= j < position ==> buf[j] == old(buf[j])
        invariant forall j {:trigger chunk[j]} :: 0 <= j < k ==> buf[position + j] == chunk[j]
      {
        buf[position + k] := chunk[k];
        k := k + 1;
      }
      position := position + |chunk|;
    }

    /** A read that failed. */
    method Fail()
      requires Valid() && status == Up
      modifies this`status
      ensures Valid() && View() == Broken(old(View()))
    {
      status := Down;
    }

    /** The first read of a new connection, which may ask for nothing. */
    method Reopen()
      requires Valid() && status == Down
      modifies this, buf
      ensures Valid() && View() == Reconnect(forced, old(View()))
    {
      if expected > BUFFER {
        status := Wild;
      } else {
        status := Up;
        if position == expected { Receive([]); }
      }
    }

    /** The UDP branch of fetch_and_eventually_process_data: recvfrom at offset 0. */
    method ReceiveDatagram(g: seq<Byte>)
      requires Valid() && |g| <= PKT_BUF_SIZE
      modifies buf
      ensures Valid() && View() == Datagram(old(View()), g)
    {
      var k := 0;
      while k < |g|
        invariant 0 <= k <= |g|
        invariant forall j {:trigger buf[j]} :: 0 <= j < BUFFER ==> buf[j] == if j < k then g[j] else old(buf[j])
      {
        buf[k] := g[k];
        k := k + 1;
      }
      assert buf[..position] == Overwritten(old(buf[..position]), g);
    }
  }

  /** Every way to cut the stream: `cuts` says how much each read would take.  If all payloads
      are within the limits, those handed over are exactly those framed, in order, and as many
      reads as there are bytes leave nothing unread. */
  method Transfer(forced: bool, frames: seq<Payload>, cuts: seq<nat>) returns (rx: Receiver, left: seq<Byte>)
    ensures rx.Valid() && rx.forced == forced && |left| <= |Stream(frames)|
    ensures rx.View() == FeedAll(forced, Start, Stream(frames)[..|Stream(frames)| - |left|])
    ensures AllGood(forced, frames) && left == [] ==> rx.View() == Open(2, [], frames)
    ensures AllGood(forced, frames) ==> rx.status == Up
    ensures AllGood(forced, frames) && |cuts| >= |Stream(frames)| ==> left == []
  {
    var s := Stream(frames);
    rx := new Receiver(forced);
    left := Pump(rx, s, cuts);
    if AllGood(forced, frames) { PrefixReads(forced, frames, |s| - |left|); }
    ExactlyTheGood(forced, frames);
    if left == [] { assert s[..|s|] == s; }
  }

  /** Reads from a stream until the cuts, the stream or the receiver's demand end. */
  method Pump(rx: Receiver, s: seq<Byte>, cuts: seq<nat>) returns (left: seq<Byte>)
    requires rx.Valid() && rx.View() == Start
    modifies rx, rx.buf
    ensures rx.Valid() && |left| <= |s|
    ensures rx.View() == FeedAll(rx.forced, Start, s[..|s| - |left|])
    ensures left == [] || !rx.View().Reads() || |s| - |left| >= |cuts|
  {
    left := s;
    var i, n := 0, 0;
    while i < |cuts| && left != [] && rx.status == Up && rx.position < rx.expected
      invariant rx.Valid()
      invariant 0 <= i <= n <= |s| && i <= |cuts| && left == s[n..]
      invariant rx.View() == FeedAll(rx.forced, Start, s[..n])
      decreases |cuts| - i
    {
      var k := Amount(cuts[i], rx.expected - rx.position, |left|);
      Advance(rx.forced, s, n, k);
      rx.Receive(left[..k]);
      left := left[k..];
      i, n := i + 1, n + k;
    }
    assert n == |s| - |left|;
  }

  /** A read takes at least one byte, at most those asked for and those there are. */
  function Amount(cut: nat, want: nat, there: nat): (k: nat)
    requires want > 0 && there > 0
    ensures 0 < k <= want && k <= there
  {
    var c := if cut == 0 then 1 else cut;
    var d := if c < want then c else want;
    if d < there then d else there
  }

  lemma Advance(forced: bool, s: seq<Byte>, n: nat, k: nat)
    requires n + k <= |s|
    ensures FeedAll(forced, Start, s[..n + k]) == FeedAll(forced, FeedAll(forced, Start, s[..n]), s[n..][..k])
  {
    assert s[..n + k] == s[..n] + s[n..][..k];
    FeedAllJoins(forced, Start, s[..n], s[n..][..k]);
  }

  /** A receiver of good frames never stops reading. */
  lemma PrefixReads(forced: bool, frames: seq<Payload>, n: nat)
    requires AllGood(forced, frames) && n <= |Stream(frames)|
    ensures FeedAll(forced, Start, Stream(frames)[..n]).Reads()
  {
    var s := Stream(frames);
    assert s == s[..n] + s[n..];
    FeedAllJoins(forced, Start, s[..n], s[n..]);
    FramesDelivered(forced, [], frames);
  }
}
