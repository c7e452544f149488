/** Recognition of KCP packets: a datagram is one if it is a non-empty concatenation of
    well-formed segments that all belong to the same conversation. */
module KcpPacket {
  import opened Words

  const OVERHEAD: nat := 24

  /** n2n_kcp_read_le32. */
  function Le32(b0: int, b1: int, b2: int, b3: int): int { b0 + 256 * (b1 + 256 * (b2 + 256 * b3)) }

  function ReadLe32(s: seq<Byte>, at: nat): (r: nat)
    requires at + 4 <= |s|
    ensures r < 0x1_0000_0000
  {
    Le32(s[at], s[at + 1], s[at + 2], s[at + 3])
  }

  /** n2n_kcp_cmd_is_valid: PUSH, ACK, WASK, WINS. */
  predicate ValidCmd(cmd: Byte) { cmd == 81 || cmd == 82 || cmd == 83 || cmd == 84 }

  // ---- what a packet is ----

  /** A 24-byte header with a valid command, whose length field is the length of the payload. */
  predicate WellFormed(seg: seq<Byte>) {
    |seg| >= OVERHEAD && ValidCmd(seg[4]) && ReadLe32(seg, 20) == |seg| - OVERHEAD
  }

  /** Bytes 20 to 23 hold the length of what follows the 24 bytes of the header. */
  lemma WellFormedMeans(seg: seq<Byte>)
    ensures WellFormed(seg) <==>
              |seg| >= 24 && 81 <= seg[4] <= 84
              && |seg| == 24 + Le32(seg[20], seg[21], seg[22], seg[23])
  {
  }

  predicate SegmentOf(seg: seq<Byte>, conv: nat) { WellFormed(seg) && ReadLe32(seg, 0) == conv }

  function Concat(segs: seq<seq<Byte>>): seq<Byte> { if segs == [] then [] else segs[0] + Concat(segs[1..]) }

  ghost predicate AllOf(segs: seq<seq<Byte>>, conv: nat) {
    forall i {:trigger segs[i]} :: 0 <= i < |segs| ==> SegmentOf(segs[i], conv)
  }

  ghost predicate Decomposes(buf: seq<Byte>, segs: seq<seq<Byte>>, conv: nat) { Concat(segs) == buf && AllOf(segs, conv) }

  ghost predicate IsPacket(buf: seq<Byte>, conv: nat) { exists segs :: segs != [] && Decomposes(buf, segs, conv) }

  // ---- the scan ----

  /** The header at the front of `s` is one the loop accepts. */
  predicate HeaderOk(s: seq<Byte>, conv: nat) {
    |s| >= OVERHEAD && ReadLe32(s, 0) == conv && ValidCmd(s[4]) && ReadLe32(s, 20) <= |s| - OVERHEAD
  }

  predicate Parses(s: seq<Byte>, conv: nat)
    decreases |s|
  {
    s == [] || (HeaderOk(s, conv) && Parses(s[OVERHEAD + ReadLe32(s, 20)..], conv))
  }

  /** The header determines where the first segment ends. */
  lemma FirstSegment(seg: seq<Byte>, rest: seq<Byte>, conv: nat)
    requires SegmentOf(seg, conv)
    ensures HeaderOk(seg + rest, conv) && OVERHEAD + ReadLe32(seg + rest, 20) == |seg|
    ensures (seg + rest)[|seg|..] == rest && (seg + rest)[..|seg|] == seg
  {
    var s := seg + rest;
    assert s[0] == seg[0] && s[1] == seg[1] && s[2] == seg[2] && s[3] == seg[3] && s[4] == seg[4];
    assert s[20] == seg[20] && s[21] == seg[21] && s[22] == seg[22] && s[23] == seg[23];
  }

  lemma CutSegment(s: seq<Byte>, conv: nat)
    requires HeaderOk(s, conv)
    ensures SegmentOf(s[..OVERHEAD + ReadLe32(s, 20)], conv)
  {
    var seg := s[..OVERHEAD + ReadLe32(s, 20)];
    assert s[0] == seg[0] && s[1] == seg[1] && s[2] == seg[2] && s[3] == seg[3] && s[4] == seg[4];
    assert s[20] == seg[20] && s[21] == seg[21] && s[22] == seg[22] && s[23] == seg[23];
  }

  lemma {:induction false} ParsesIfDecomposes(s: seq<Byte>, segs: seq<seq<Byte>>, conv: nat)
    requires Decomposes(s, segs, conv)
    ensures Parses(s, conv)
    decreases |segs|
  {
    if segs != [] {
      FirstSegment(segs[0], Concat(segs[1..]), conv);
      ParsesIfDecomposes(Concat(segs[1..]), segs[1..], conv);
    }
  }

  lemma {:induction false} DecomposesIfParses(s: seq<Byte>, conv: nat) returns (segs: seq<seq<Byte>>)
    requires Parses(s, conv)
    ensures Decomposes(s, segs, conv) && (s != [] ==> segs != [])
    decreases |s|
  {
    if s == [] { return []; }
    var n := OVERHEAD + ReadLe32(s, 20);
    CutSegment(s, conv);
    var rest := DecomposesIfParses(s[n..], conv);
    segs := [s[..n]] + rest;
    assert segs[1..] == rest && s == s[..n] + s[n..];
  }

  /** There is only one way to cut a packet into segments, whatever their conversations. */
  lemma {:induction false} UniqueDecomposition(a: seq<seq<Byte>>, b: seq<seq<Byte>>)
    requires forall i {:trigger a[i]} :: 0 <= i < |a| ==> WellFormed(a[i])
    requires forall i {:trigger b[i]} :: 0 <= i < |b| ==> WellFormed(b[i])
    requires Concat(a) == Concat(b)
    ensures a == b
    decreases |a|
  {
    if a != [] && b != [] {
      FirstSegment(a[0], Concat(a[1..]), ReadLe32(a[0], 0));
      FirstSegment(b[0], Concat(b[1..]), ReadLe32(b[0], 0));
      assert a[0] == b[0];
      UniqueDecomposition(a[1..], b[1..]);
      assert a == [a[0]] + a[1..] && b == [b[0]] + b[1..];
    }
  }

  lemma ConvIsFirst(buf: seq<Byte>, conv: nat)
    requires IsPacket(buf, conv)
    ensures |buf| >= OVERHEAD && conv == ReadLe32(buf, 0) && Parses(buf, conv)
  {
    var segs :| segs != [] && Decomposes(buf, segs, conv);
    FirstSegment(segs[0], Concat(segs[1..]), conv);
    ParsesIfDecomposes(buf, segs, conv);
  }

  /** The scan of the buffer for the conversation of its first header succeeds. */
  predicate IsKcp(buf: seq<Byte>) { |buf| >= OVERHEAD && Parses(buf, ReadLe32(buf, 0)) }

  /** That is, it is a packet of some conversation, and then of that one. */
  lemma IsKcpExactly(buf: seq<Byte>)
    ensures IsKcp(buf) <==> exists c :: IsPacket(buf, c)
    ensures IsKcp(buf) ==> IsPacket(buf, ReadLe32(buf, 0))
  {
    if IsKcp(buf) { PacketIfParses(buf, ReadLe32(buf, 0)); } else { NotPacket(buf); }
  }

  /** n2n_kcp_packet_get_conv.  A datagram's length fits into 32 bits. */
  method GetConv(buf: seq<Byte>) returns (ok: bool, conv: nat)
    requires |buf| < 0x1_0000_0000
    ensures ok <==> exists c :: IsPacket(buf, c)
    ensures ok ==> IsPacket(buf, conv) && conv < 0x1_0000_0000
    ensures !ok ==> conv == 0
    ensures ok == IsKcp(buf) && (ok ==> conv == ReadLe32(buf, 0))
  {
    if |buf| < OVERHEAD {
      NotPacket(buf);
      return false, 0;
    }
    var packetConv := ReadLe32(buf, 0);
    ok := Scan(buf, packetConv);
    if ok {
      PacketIfParses(buf, packetConv);
      conv := packetConv;
    } else {
      NotPacket(buf);
      conv := 0;
    }
  }

  /** A sum of 32-bit unsigned numbers. */
  function Wrap32(x: nat): (r: nat)
    ensures x < 0x1_0000_0000 ==> r == x
  {
    x % 0x1_0000_0000
  }

  /** The rest of the buffer from offset `p` on is a sequence of segments. */
  ghost predicate RestParses(buf: seq<Byte>, p: nat, conv: nat) { p <= |buf| && Parses(buf[p..], conv) }

  /** Its loop over the segments. */
  method Scan(buf: seq<Byte>, packetConv: nat) returns (ok: bool)
    requires |buf| < 0x1_0000_0000
    ensures ok <==> Parses(buf, packetConv)
  {
    var p, remaining := 0, |buf|;
    ghost var goal := RestParses(buf, 0, packetConv);
    assert buf[0..] == buf;
    while remaining >= OVERHEAD
      invariant 0 <= remaining && p + remaining == |buf|
      invariant goal <==> RestParses(buf, p, packetConv)
      decreases remaining
    {
      ScanStep(buf, p, packetConv);
      var segConv, cmd, segLen := ReadLe32(buf, p), buf[p + 4], ReadLe32(buf, p + 20);
      if segConv != packetConv { return false; }
      if !ValidCmd(cmd) { return false; }
      if segLen > remaining - OVERHEAD { return false; }
      var step := Wrap32(OVERHEAD + segLen);
      p, remaining := p + step, remaining - step;
    }
    return remaining == 0;
  }

  lemma PacketIfParses(buf: seq<Byte>, conv: nat)
    requires buf != [] && Parses(buf, conv)
    ensures IsPacket(buf, conv)
  {
    var segs := DecomposesIfParses(buf, conv);
  }

  /** One turn of the loop, at offset `p`. */
  lemma ScanStep(buf: seq<Byte>, p: nat, conv: nat)
    requires p + OVERHEAD <= |buf|
    ensures var ok := ReadLe32(buf, p) == conv && ValidCmd(buf[p + 4]) && ReadLe32(buf, p + 20) <= |buf| - p - OVERHEAD;
            if ok then RestParses(buf, p, conv) <==> RestParses(buf, p + OVERHEAD + ReadLe32(buf, p + 20), conv)
            else !RestParses(buf, p, conv)
  {
    var s := buf[p..];
    assert s[0] == buf[p] && s[1] == buf[p + 1] && s[2] == buf[p + 2] && s[3] == buf[p + 3] && s[4] == buf[p + 4];
    assert s[20] == buf[p + 20] && s[21] == buf[p + 21] && s[22] == buf[p + 22] && s[23] == buf[p + 23];
    if HeaderOk(s, conv) { assert buf[p + OVERHEAD + ReadLe32(buf, p + 20)..] == s[OVERHEAD + ReadLe32(s, 20)..]; }
  }

  /** Without a parse there is no conversation the buffer could belong to. */
  lemma NotPacket(buf: seq<Byte>)
    requires |buf| < OVERHEAD || !Parses(buf, ReadLe32(buf, 0))
    ensures forall c :: !IsPacket(buf, c)
  {
    forall c ensures !IsPacket(buf, c) {
      if IsPacket(buf, c) { ConvIsFirst(buf, c); }
    }
  }
}
