/** Header encryption: the packet's header is re-ordered, masked with time stamp, checksum and
    random, and encrypted in place.  The block cipher, the counter-mode key stream and the hash
    are parameters; 64-bit numbers are their eight bytes, most significant first. */
module HeaderEncryption {
  import opened Words

  type Bytes = seq<Byte>

  /** Bitwise exclusive or of two bytes. */
  function XorByte(a: Byte, b: Byte): (r: Byte) {
    assert Pow2(8) == 256;
    XorBits(a, b, 8)
  }

  lemma XorByteCancels(a: Byte, b: Byte)
    ensures XorByte(XorByte(a, b), b) == a && XorByte(a, b) == XorByte(b, a)
  {
    assert Pow2(8) == 256;
    XorCommutes(a, b, 8);
    XorCommutes(XorBits(a, b, 8), b, 8);
    XorSelfBits(b, a, 8);
  }

  function XorAll(a: Bytes, b: Bytes): (r: Bytes)
    requires |a| == |b|
    ensures |r| == |a|
  {
    seq(|a|, i requires 0 <= i < |a| => XorByte(a[i], b[i]))
  }

  lemma XorAllCancels(a: Bytes, b: Bytes)
    requires |a| == |b|
    ensures XorAll(XorAll(a, b), b) == a
  {
    forall i | 0 <= i < |a| ensures XorAll(XorAll(a, b), b)[i] == a[i] { XorByteCancels(a[i], b[i]); }
  }

  /** speck_128_encrypt and speck_128_decrypt with the IV key, the key stream of speck_ctr with
      the header key, and pearson_hash_64. */
  datatype Ciphers = Ciphers(enc: Bytes -> Bytes, dec: Bytes -> Bytes, stream: (Bytes, nat) -> Byte, hash: Bytes -> Bytes) {
    ghost predicate BlockOk(b: Bytes) { |b| == 16 ==> |enc(b)| == 16 && dec(enc(b)) == b && |dec(b)| == 16 }

    ghost predicate HashOk(b: Bytes) { |hash(b)| == 8 }

    /** Decryption of a block undoes encryption; a hash has eight bytes. */
    ghost predicate Ok() {
      (forall b {:trigger BlockOk(b)} :: BlockOk(b)) && forall b {:trigger HashOk(b)} :: HashOk(b)
    }

    /** speck_ctr: exclusive or with a prefix of the key stream of `iv`. */
    function Ctr(iv: Bytes, b: Bytes): (r: Bytes)
      ensures |r| == |b|
    {
      XorAll(b, Stream(iv, |b|))
    }

    function Stream(iv: Bytes, n: nat): (r: Bytes)
      ensures |r| == n
    {
      seq<Byte>(n, i requires 0 <= i < n => stream(iv, i))
    }

    lemma CtrUndoes(iv: Bytes, b: Bytes)
      ensures Ctr(iv, Ctr(iv, b)) == b
    {
      XorAllCancels(b, Stream(iv, |b|));
    }

    lemma CtrPrefix(iv: Bytes, b: Bytes, n: nat)
      requires n <= |b|
      ensures Ctr(iv, b)[..n] == Ctr(iv, b[..n])
    {
    }
  }

  const MAGIC_HIGH: seq<Byte> := [0x6E, 0x32]

  /** 0x6E320000 + header_len, big-endian. */
  function Magic(headerLen: nat): (r: Bytes)
    requires headerLen < 0x1_0000
    ensures |r| == 4
  {
    MAGIC_HIGH + [headerLen / 256, headerLen % 256]
  }

  /** test_magic - 0x6E320000 in 32 bits. */
  function HeaderLen(m: Bytes): nat
    requires |m| == 4
  {
    (Be32(m[0], m[1], m[2], m[3]) - 0x6E32_0000) % 0x1_0000_0000
  }

  function Be32(a: int, b: int, c: int, d: int): int { ((a * 256 + b) * 256 + c) * 256 + d }

  lemma MagicReadsBack(headerLen: nat)
    requires headerLen < 0x1_0000
    ensures HeaderLen(Magic(headerLen)) == headerLen
  {
  }

  // ---- the packet as a value ----

  /** The 16 bytes from which the IV is made. */
  function PreIv(checksum: Bytes, stamp: Bytes, random: Bytes): (r: Bytes)
    requires |checksum| == 8 && |stamp| == 8 && |random| == 4
    ensures |r| == 16
  {
    checksum[..4] + XorAll(checksum[4..], stamp[..4]) + stamp[4..] + random
  }

  /** What packet_header_encrypt makes of the packet `p`. */
  ghost function Encrypted(K: Ciphers, p: Bytes, headerLen: nat, stamp: Bytes, random: Bytes): (r: Bytes)
    requires K.Ok() && 24 <= |p| < 0x1_0000 && 16 <= headerLen <= |p| && |stamp| == 8 && |random| == 4
  {
    assert K.HashOk(p);
    var iv := K.enc(PreIv(K.hash(p), stamp, random));
    var clear := Magic(headerLen) + p[..4] + p[24..];
    iv + K.Ctr(iv, clear[..headerLen - 16]) + clear[headerLen - 16..]
  }

  datatype Outcome = Rejected | Accepted(stamp: Bytes)
    | OutOfBounds  // a header length below 16 makes speck_ctr's length wrap around; not modelled further

  // ---- in place ----

  /** Bytes `at..at + |b|` of the packet are replaced. */
  method Overwrite(packet: array<Byte>, at: nat, b: Bytes)
    requires at + |b| <= packet.Length
    modifies packet
    ensures packet[..] == old(packet[..at]) + b + old(packet[at + |b|..])
  {
    var i := 0;
    while i < |b|
      invariant 0 <= i <= |b|
      invariant forall j {:trigger packet[j]} :: 0 <= j < packet.Length && !(at <= j < at + i) ==> packet[j] == old(packet[j])
      invariant forall j {:trigger b[j]} :: 0 <= j < i ==> packet[at + j] == b[j]
    {
      packet[at + i] := b[i];
      i := i + 1;
    }
  }

  function Spliced(s: Bytes, at: nat, b: Bytes): (r: Bytes)
    requires at + |b| <= |s|
    ensures |r| == |s|
  {
    s[..at] + b + s[at + |b|..]
  }

  /** A splice within, before or after the first part of a packet given in parts. */
  lemma SpliceMiddle(s: Bytes, a: Bytes, b: Bytes, c: Bytes, x: Bytes)
    requires s == a + b + c && |x| == |b|
    ensures Spliced(s, |a|, x) == a + x + c
  {
  }

  lemma OrderSaved(p: Bytes, c: Bytes)
    requires 24 <= |p| && |c| == 8
    ensures var p2 := Spliced(Spliced(p, 20, p[..4]), 0, c);
            p2 == c + p[8..20] + p[..4] + p[24..] && p2[4..8] == c[4..]
  {
    var p1 := Spliced(p, 20, p[..4]);
    assert p1 == p[..20] + p[..4] + p[24..];
    assert p1[8..] == p[8..20] + p[..4] + p[24..];
    var p2 := Spliced(p1, 0, c);
    assert p1[..0] == [];
    assert p2 == c + p1[8..];
  }

  /** The pre-IV is written over the first sixteen bytes piece by piece. */
  lemma PreIvWritten(p: Bytes, c: Bytes, stamp: Bytes, random: Bytes)
    requires 24 <= |p| && |c| == 8 && |stamp| == 8 && |random| == 4
    ensures var p1 := Spliced(p, 20, p[..4]);
            var p2 := Spliced(p1, 0, c);
            var p3 := Spliced(p2, 4, XorAll(p2[4..8], stamp[..4]));
            var p4 := Spliced(p3, 8, stamp[4..]);
            var p5 := Spliced(p4, 12, random);
            p5 == PreIv(c, stamp, random) + p[16..20] + p[..4] + p[24..]
  {
    OrderSaved(p, c);
    var rest := p[..4] + p[24..];
    var p2 := c + p[8..20] + p[..4] + p[24..];
    var x := XorAll(c[4..], stamp[..4]);
    assert p2 == c[..4] + c[4..] + (p[8..20] + rest);
    SpliceMiddle(p2, c[..4], c[4..], p[8..20] + rest, x);
    var p3 := c[..4] + x + (p[8..20] + rest);
    assert p3 == (c[..4] + x) + p[8..12] + (p[12..20] + rest);
    SpliceMiddle(p3, c[..4] + x, p[8..12], p[12..20] + rest, stamp[4..]);
    var p4 := (c[..4] + x) + stamp[4..] + (p[12..20] + rest);
    assert p4 == (c[..4] + x + stamp[4..]) + p[12..16] + (p[16..20] + rest);
    SpliceMiddle(p4, c[..4] + x + stamp[4..], p[12..16], p[16..20] + rest, random);
  }

  lemma EncryptionWritten(K: Ciphers, q: Bytes, pre: Bytes, first: Bytes, rest: Bytes, mid: Bytes, headerLen: nat)
    requires K.Ok() && |pre| == 16 && |mid| == 4 && |first| == 4 && q == pre + mid + first + rest
    requires 16 <= headerLen <= |q| < 0x1_0000 && |K.enc(pre)| == 16
    ensures var iv := K.enc(pre);
            var q1 := Spliced(q, 0, iv);
            var q2 := Spliced(q1, 16, Magic(headerLen));
            var clear := Magic(headerLen) + first + rest;
            q[..16] == pre && q2[..16] == iv
            && Spliced(q2, 16, K.Ctr(iv, q2[16..headerLen])) == iv + K.Ctr(iv, clear[..headerLen - 16]) + clear[headerLen - 16..]
  {
    var iv := K.enc(pre);
    var q1 := Spliced(q, 0, iv);
    assert q == [] + pre + (mid + first + rest);
    SpliceMiddle(q, [], pre, mid + first + rest, iv);
    assert q1 == iv + mid + (first + rest);
    SpliceMiddle(q1, iv, mid, first + rest, Magic(headerLen));
    var q2 := Spliced(q1, 16, Magic(headerLen));
    var clear := Magic(headerLen) + first + rest;
    assert q2 == iv + clear;
    assert q2[16..headerLen] == clear[..headerLen - 16];
    assert q2[headerLen..] == clear[headerLen - 16..];
  }

  datatype Sealing = Refused | Sealed
    | SealOutOfBounds  // a header length below 16 makes speck_ctr's length wrap around; not modelled further

  /** The first 24 bytes become the pre-IV, four unused bytes and the old first word. */
  method WritePreIv(packet: array<Byte>, checksum: Bytes, stamp: Bytes, random: Bytes)
    requires packet.Length >= 24 && |checksum| == 8 && |stamp| == 8 && |random| == 4
    modifies packet
    ensures var p := old(packet[..]);
            packet[..] == PreIv(checksum, stamp, random) + p[16..20] + p[..4] + p[24..]
  {
    PreIvWritten(packet[..], checksum, stamp, random);
    Overwrite(packet, 20, packet[..4]);
    Overwrite(packet, 0, checksum);
    Overwrite(packet, 4, XorAll(packet[4..8], stamp[..4]));
    Overwrite(packet, 8, stamp[4..]);
    Overwrite(packet, 12, random);
  }

  /** packet_header_encrypt; `random` is the random word.  That the header is not longer than the
      packet is left to the caller. */
  method Encrypt(K: Ciphers, packet: array<Byte>, headerLen: nat, stamp: Bytes, random: Bytes) returns (r: Sealing)
    requires K.Ok() && packet.Length < 0x1_0000 && headerLen < 0x1_0000 && |stamp| == 8 && |random| == 4
    requires packet.Length >= 24 ==> headerLen <= packet.Length
    modifies packet
    ensures r == if packet.Length < 24 then Refused else if headerLen < 16 then SealOutOfBounds else Sealed
    ensures r == Refused ==> packet[..] == old(packet[..])
    ensures r == Sealed ==> packet[..] == Encrypted(K, old(packet[..]), headerLen, stamp, random)
  {
    if packet.Length < 24 { return Refused; }
    ghost var p := packet[..];
    assert K.HashOk(p);
    var checksum := K.hash(packet[..]);
    WritePreIv(packet, checksum, stamp, random);
    ghost var pre := PreIv(checksum, stamp, random);
    assert K.BlockOk(pre);
    ghost var q := packet[..];
    assert q[..16] == pre;
    Overwrite(packet, 0, K.enc(packet[..16]));
    Overwrite(packet, 16, Magic(headerLen));
    if headerLen < 16 { return SealOutOfBounds; }
    EncryptionWritten(K, q, pre, p[..4], p[24..], p[16..20], headerLen);
    Overwrite(packet, 16, K.Ctr(packet[..16], packet[16..headerLen]));
    return Sealed;
  }

  // ---- decryption ----

  /** What packet_header_decrypt returns for the packet in the first `len` bytes of the buffer
      `q`, and what it leaves in the buffer. */
  ghost function Decrypted(K: Ciphers, q: Bytes, len: nat, name: Bytes): (r: (Outcome, Bytes))
    requires K.Ok() && 24 <= |q| && len <= |q| && |name| == 20
    ensures |r.1| == |q|
  {
    var iv := q[..16];
    var h := HeaderLen(K.Ctr(iv, q[16..20]));
    if h > len then (Rejected, q)
    else if h < 16 then (OutOfBounds, q)
    else
      assert K.BlockOk(iv);
      var pre, body := K.dec(iv), K.Ctr(iv, q[16..h]) + q[h..];
      var p := body[4..8] + name + body[8..];
      assert K.HashOk(p[..len]);
      var c := K.hash(p[..len]);
      (if c[..4] != pre[..4] then Rejected else Accepted(XorAll(pre[4..8], c[4..]) + pre[8..12]), p)
  }

  lemma DecryptionWritten(K: Ciphers, q: Bytes, h: nat, pre: Bytes, name: Bytes)
    requires 24 <= |q| && 16 <= h <= |q| && |pre| == 16 && |name| == 20
    ensures var body := K.Ctr(q[..16], q[16..h]) + q[h..];
            var q1 := Spliced(q, 16, K.Ctr(q[..16], q[16..h]));
            var q2 := Spliced(q1, 0, pre);
            var q3 := Spliced(q2, 0, q2[20..24]);
            q1[..16] == q[..16] && q2[..12] == pre[..12] && Spliced(q3, 4, name) == body[4..8] + name + body[8..]
  {
    var e := K.Ctr(q[..16], q[16..h]);
    var body := e + q[h..];
    assert q == q[..16] + q[16..h] + q[h..];
    SpliceMiddle(q, q[..16], q[16..h], q[h..], e);
    var q1 := q[..16] + e + q[h..];
    assert q1 == [] + q[..16] + body;
    SpliceMiddle(q1, [], q[..16], body, pre);
    var q2 := [] + pre + body;
    assert q2[20..24] == body[4..8];
    NameWritten(q2, pre, body, name);
  }

  lemma NameWritten(q2: Bytes, pre: Bytes, body: Bytes, name: Bytes)
    requires |pre| == 16 && |body| >= 8 && |name| == 20 && q2 == [] + pre + body
    ensures q2[..12] == pre[..12] && q2[20..24] == body[4..8]
    ensures Spliced(Spliced(q2, 0, body[4..8]), 4, name) == body[4..8] + name + body[8..]
  {
    var q3 := Spliced(q2, 0, body[4..8]);
    assert q3 == body[4..8] + (pre[4..] + body[..8]) + body[8..];
    SpliceMiddle(q3, body[4..8], pre[4..] + body[..8], body[8..], name);
  }

  /** The packet `p` is accepted exactly if its hash begins as the decrypted IV `pre` does, and the
      stamp is what `pre` holds of it. */
  ghost predicate Verdict(K: Ciphers, pre: Bytes, p: Bytes, r: Outcome) {
    |pre| == 16 && |K.hash(p)| == 8
    && r == if K.hash(p)[..4] == pre[..4] then Accepted(XorAll(pre[4..8], K.hash(p)[4..]) + pre[8..12]) else Rejected
  }

  lemma HashLength(K: Ciphers, b: Bytes)
    requires K.Ok()
    ensures |K.hash(b)| == 8
  {
    assert K.HashOk(b);
  }

  /** The header's first four bytes, then the packet without its name. */
  lemma BodyReads(K: Ciphers, iv: Bytes, q: Bytes, h: nat, name: Bytes)
    requires 24 <= |q| && 20 <= h <= |q| && |name| == 20
    ensures var body := K.Ctr(iv, q[16..h]) + q[h..]; var p := body[4..8] + name + body[8..];
            body == K.Ctr(iv, q[16..20]) + (p[..4] + p[24..])
  {
    var body := K.Ctr(iv, q[16..h]) + q[h..];
    K.CtrPrefix(iv, q[16..h], 4);
    assert q[16..h][..4] == q[16..20];
    assert body == body[..4] + body[4..8] + body[8..];
  }

  lemma DecryptedReads(K: Ciphers, q: Bytes, len: nat, name: Bytes)
    requires K.Ok() && 24 <= |q| && len <= |q| && |name| == 20
    requires 16 <= HeaderLen(K.Ctr(q[..16], q[16..20])) <= len
    ensures var h := HeaderLen(K.Ctr(q[..16], q[16..20])); var (r, p) := Decrypted(K, q, len, name);
            |p| == |q| && Verdict(K, K.dec(q[..16]), p[..len], r) && p[4..24] == name
            && (h >= 20 ==> K.Ctr(q[..16], q[16..h]) + q[h..] == K.Ctr(q[..16], q[16..20]) + (p[..4] + p[24..]))
  {
    var iv, h := q[..16], HeaderLen(K.Ctr(q[..16], q[16..20]));
    assert K.BlockOk(iv);
    var p := Decrypted(K, q, len, name).1;
    HashLength(K, p[..len]);
    if h >= 20 { BodyReads(K, iv, q, h, name); }
  }

  /** The outcome `r` and the bytes `p` left for the buffer `q`: a header length beyond the packet is
      rejected with nothing changed; else the packet is accepted exactly if the hash of what is left
      begins as the decrypted IV does, and what is left is the name and what was decrypted. */
  ghost predicate Meant(K: Ciphers, q: Bytes, len: nat, name: Bytes, r: Outcome, p: Bytes) {
    24 <= |q| == |p| && len <= |q| && |name| == 20
    && var h := HeaderLen(K.Ctr(q[..16], q[16..20]));
       && (h > len ==> r == Rejected && p == q)
       && (h <= len && h < 16 ==> r == OutOfBounds)
       && (16 <= h <= len ==> Verdict(K, K.dec(q[..16]), p[..len], r) && p[4..24] == name)
       && (20 <= h <= len ==> K.Ctr(q[..16], q[16..h]) + q[h..] == K.Ctr(q[..16], q[16..20]) + (p[..4] + p[24..]))
  }

  lemma DecryptedMeans(K: Ciphers, q: Bytes, len: nat, name: Bytes)
    requires K.Ok() && 24 <= |q| && len <= |q| && |name| == 20
    ensures Meant(K, q, len, name, Decrypted(K, q, len, name).0, Decrypted(K, q, len, name).1)
  {
    if 16 <= HeaderLen(K.Ctr(q[..16], q[16..20])) <= len { DecryptedReads(K, q, len, name); }
  }

  /** The writes of packet_header_decrypt; the time stamp and the checksum are taken out of the
      pre-IV before the packet's first bytes and the name replace it. */
  method Unwrap(K: Ciphers, packet: array<Byte>, headerLen: nat, name: Bytes) returns (stamp: Bytes, checksumHigh: Bytes)
    requires K.Ok() && 24 <= packet.Length && 16 <= headerLen <= packet.Length && |name| == 20
    modifies packet
    ensures var q := old(packet[..]); var pre := K.dec(q[..16]); var body := K.Ctr(q[..16], q[16..headerLen]) + q[headerLen..];
            |pre| == 16 && stamp == pre[4..12] && checksumHigh == pre[..4] && packet[..] == body[4..8] + name + body[8..]
  {
    ghost var q := packet[..];
    ghost var pre := K.dec(q[..16]);
    assert K.BlockOk(q[..16]);
    DecryptionWritten(K, q, headerLen, pre, name);
    Overwrite(packet, 16, K.Ctr(packet[..16], packet[16..headerLen]));
    Overwrite(packet, 0, K.dec(packet[..16]));
    assert packet[..12] == pre[..12];
    stamp, checksumHigh := packet[4..12], packet[..4];
    assert stamp == pre[4..12] && checksumHigh == pre[..4];
    Overwrite(packet, 0, packet[20..24]);
    Overwrite(packet, 4, name);
  }

  /** packet_header_decrypt with the given community name. */
  method Decrypt(K: Ciphers, packet: array<Byte>, len: nat, name: Bytes) returns (r: Outcome)
    requires K.Ok() && 24 <= packet.Length && len <= packet.Length && |name| == 20
    modifies packet
    ensures (r, packet[..]) == Decrypted(K, old(packet[..]), len, name)
    ensures Meant(K, old(packet[..]), len, name, r, packet[..])
  {
    ghost var q := packet[..];
    DecryptedMeans(K, q, len, name);
    var testMagic := K.Ctr(packet[..16], packet[16..20]);
    var headerLen := HeaderLen(testMagic);
    if headerLen > len { return Rejected; }
    if headerLen < 16 { return OutOfBounds; }
    assert K.BlockOk(q[..16]);
    var stamp, checksumHigh := Unwrap(K, packet, headerLen, name);
    ghost var pre := K.dec(q[..16]);
    assert K.HashOk(packet[..len]);
    var checksum := K.hash(packet[..len]);
    if checksum[..4] != checksumHigh { return Rejected; }
    assert pre[4..12][..4] == pre[4..8] && pre[4..12][4..] == pre[8..12];
    return Accepted(XorAll(stamp[..4], checksum[4..]) + stamp[4..]);
  }

  // ---- round trip ----

  /** The receiver finds the header length and recovers what follows the IV. */
  lemma HeaderRecovered(K: Ciphers, iv: Bytes, clear: Bytes, headerLen: nat)
    requires |iv| == 16 && 20 <= headerLen < 0x1_0000 && headerLen - 16 <= |clear| && |clear| >= 4 && clear[..4] == Magic(headerLen)
    ensures var q := iv + K.Ctr(iv, clear[..headerLen - 16]) + clear[headerLen - 16..];
            q[..16] == iv && |q| == 16 + |clear| && HeaderLen(K.Ctr(iv, q[16..20])) == headerLen
            && K.Ctr(iv, q[16..headerLen]) + q[headerLen..] == clear
  {
    var n := headerLen - 16;
    var e := K.Ctr(iv, clear[..n]);
    var q := iv + e + clear[n..];
    assert q[16..headerLen] == e && q[headerLen..] == clear[n..];
    K.CtrUndoes(iv, clear[..n]);
    assert q[16..20] == e[..4];
    K.CtrPrefix(iv, clear[..n], 4);
    assert clear[..n][..4] == clear[..4];
    K.CtrUndoes(iv, clear[..4]);
    MagicReadsBack(headerLen);
    assert clear == clear[..n] + clear[n..];
  }

  lemma PreIvReads(c: Bytes, stamp: Bytes, random: Bytes)
    requires |c| == 8 && |stamp| == 8 && |random| == 4
    ensures var pre := PreIv(c, stamp, random);
            pre[..4] == c[..4] && XorAll(pre[4..8], c[4..]) + pre[8..12] == stamp
  {
    var pre := PreIv(c, stamp, random);
    assert pre[4..8] == XorAll(c[4..], stamp[..4]) && pre[8..12] == stamp[4..];
    XorAllCommutes(c[4..], stamp[..4]);
    XorAllCancels(stamp[..4], c[4..]);
    assert stamp == stamp[..4] + stamp[4..];
  }

  lemma XorAllCommutes(a: Bytes, b: Bytes)
    requires |a| == |b|
    ensures XorAll(a, b) == XorAll(b, a)
  {
    forall i | 0 <= i < |a| ensures XorAll(a, b)[i] == XorAll(b, a)[i] { XorByteCancels(a[i], b[i]); }
  }

  /** For every packet that holds the community name, every header length from 20 up to the
      packet's length, every stamp and random word: decryption succeeds, restores every byte of
      the packet and returns the stamp. */
  lemma RoundTrip(K: Ciphers, p: Bytes, headerLen: nat, stamp: Bytes, random: Bytes, name: Bytes)
    requires K.Ok() && 24 <= |p| < 0x1_0000 && 20 <= headerLen <= |p| && |stamp| == 8 && |random| == 4
    requires |name| == 20 && p[4..24] == name
    ensures |Encrypted(K, p, headerLen, stamp, random)| == |p|
    ensures Decrypted(K, Encrypted(K, p, headerLen, stamp, random), |p|, name) == (Accepted(stamp), p)
  {
    assert K.HashOk(p);
    var c := K.hash(p);
    var pre := PreIv(c, stamp, random);
    assert K.BlockOk(pre);
    var iv := K.enc(pre);
    var clear := Magic(headerLen) + p[..4] + p[24..];
    HeaderRecovered(K, iv, clear, headerLen);
    assert clear[4..8] == p[..4] && clear[8..] == p[24..];
    assert p[..4] + name + p[24..] == p && p[..|p|] == p;
    PreIvReads(c, stamp, random);
  }

  // ---- altered packets ----

  /** What a receiver with the keys reads in a sealed packet: the pre-IV, the magic number with the
      header length, the rest of the packet without its community name. */
  lemma SealedReads(K: Ciphers, p: Bytes, headerLen: nat, stamp: Bytes, random: Bytes)
    requires K.Ok() && 24 <= |p| < 0x1_0000 && 20 <= headerLen <= |p| && |stamp| == 8 && |random| == 4
    ensures var q := Encrypted(K, p, headerLen, stamp, random);
            && |q| == |p| && |K.dec(q[..16])| == 16 && |K.hash(p)| == 8
            && K.dec(q[..16])[..4] == K.hash(p)[..4] && K.dec(q[..16])[8..] == stamp[4..] + random
            && XorAll(K.dec(q[..16])[4..8], K.hash(p)[4..]) == stamp[..4]
            && K.Ctr(q[..16], q[16..headerLen]) + q[headerLen..]
               == [0x6E, 0x32, headerLen / 256, headerLen % 256] + p[..4] + p[24..]
            && HeaderLen(K.Ctr(q[..16], q[16..20])) == headerLen
  {
    assert K.HashOk(p);
    var c := K.hash(p);
    var pre := PreIv(c, stamp, random);
    assert K.BlockOk(pre);
    var iv := K.enc(pre);
    HeaderRecovered(K, iv, Magic(headerLen) + p[..4] + p[24..], headerLen);
    PreIvReads(c, stamp, random);
    assert pre[4..8] == XorAll(c[4..], stamp[..4]) && pre[8..] == stamp[4..] + random;
    XorAllCommutes(c[4..], stamp[..4]);
    XorAllCancels(stamp[..4], c[4..]);
  }

  /** The packet that a receiver reads if the bytes from `headerLen` on are `tail` instead. */
  function Reread(p: Bytes, headerLen: nat, tail: Bytes, name: Bytes): (r: Bytes)
    requires 24 <= |p| && 20 <= headerLen <= |p| && |tail| == |p| - headerLen && |name| == 20
    ensures |r| == |p|
  {
    var c := (p[..4] + p[24..])[..headerLen - 20] + tail;
    c[..4] + name + c[4..]
  }

  lemma AlteredSlices(q0: Bytes, headerLen: nat, tail: Bytes)
    requires 20 <= headerLen <= |q0| && |tail| == |q0| - headerLen
    ensures var q := q0[..headerLen] + tail;
            q[..16] == q0[..16] && q[16..20] == q0[16..20] && q[16..headerLen] == q0[16..headerLen] && q[headerLen..] == tail
  {
  }

  lemma AlteredReads(K: Ciphers, p: Bytes, headerLen: nat, stamp: Bytes, random: Bytes, tail: Bytes)
    requires K.Ok() && 24 <= |p| < 0x1_0000 && 20 <= headerLen <= |p| && |stamp| == 8 && |random| == 4
    requires |tail| == |p| - headerLen && |Encrypted(K, p, headerLen, stamp, random)| == |p|
    ensures var q0 := Encrypted(K, p, headerLen, stamp, random); var q := q0[..headerLen] + tail;
            && HeaderLen(K.Ctr(q[..16], q[16..20])) == headerLen && q[headerLen..] == tail
            && K.Ctr(q[..16], q[16..headerLen]) + q0[headerLen..] == Magic(headerLen) + (p[..4] + p[24..])
            && |K.dec(q[..16])| == 16 && |K.hash(p)| == 8 && K.dec(q[..16])[..4] == K.hash(p)[..4]
  {
    SealedReads(K, p, headerLen, stamp, random);
    AlteredSlices(Encrypted(K, p, headerLen, stamp, random), headerLen, tail);
  }

  lemma RereadIs(p: Bytes, headerLen: nat, tail: Bytes, name: Bytes, left: Bytes)
    requires 24 <= |p| && 20 <= headerLen <= |p| && |tail| == |p| - headerLen && |name| == 20
    requires |left| == |p| && left[4..24] == name
    requires left[..4] + left[24..] == (p[..4] + p[24..])[..headerLen - 20] + tail
    ensures left == Reread(p, headerLen, tail, name)
  {
    var c := (p[..4] + p[24..])[..headerLen - 20] + tail;
    assert c[..4] == left[..4] && c[4..] == left[24..];
    assert left == left[..4] + left[4..24] + left[24..];
  }

  /** A sealed packet that is altered from `headerLen` on is rejected, unless the hash of what it
      then reads begins like that of the packet that was sealed. */
  lemma AlteredExactly(K: Ciphers, p: Bytes, headerLen: nat, stamp: Bytes, random: Bytes, name: Bytes, tail: Bytes)
    requires K.Ok() && 24 <= |p| < 0x1_0000 && 20 <= headerLen <= |p| && |stamp| == 8 && |random| == 4 && |name| == 20
    requires |tail| == |p| - headerLen && |Encrypted(K, p, headerLen, stamp, random)| == |p|
    ensures var q := Encrypted(K, p, headerLen, stamp, random)[..headerLen] + tail;
            var (r, left) := Decrypted(K, q, |p|, name);
            var p' := Reread(p, headerLen, tail, name);
            && left == p' && |K.hash(p')| == |K.hash(p)| == 8
            && (r.Accepted? <==> K.hash(p')[..4] == K.hash(p)[..4]) && (!r.Accepted? ==> r == Rejected)
  {
    var q0 := Encrypted(K, p, headerLen, stamp, random);
    var q := q0[..headerLen] + tail;
    AlteredReads(K, p, headerLen, stamp, random, tail);
    DecryptedReads(K, q, |p|, name);
    var (r, left) := Decrypted(K, q, |p|, name);
    TailReplaced(K.Ctr(q[..16], q[16..headerLen]), q0[headerLen..], tail, K.Ctr(q[..16], q[16..20]), Magic(headerLen),
                 p[..4] + p[24..], left[..4] + left[24..], headerLen);
    RereadIs(p, headerLen, tail, name, left);
    assert left[..|p|] == left;
  }

  lemma TailReplaced(e: Bytes, t: Bytes, tail: Bytes, magic: Bytes, m: Bytes, c: Bytes, c': Bytes, headerLen: nat)
    requires headerLen >= 20 && |e| == headerLen - 16 && |magic| == |m| == 4 && |t| == |tail|
    requires e + tail == magic + c' && e + t == m + c
    ensures c' == c[..headerLen - 20] + tail
  {
    assert c == (e + t)[4..] == e[4..] + t;
    assert c' == (e + tail)[4..] == e[4..] + tail;
  }

  // ---- exactly which header lengths ----

  /** The round trip succeeds with these ciphers, stamp and random word. */
  ghost predicate Restores(K: Ciphers, p: Bytes, headerLen: nat, stamp: Bytes, random: Bytes, name: Bytes)
    requires 24 <= |p| < 0x1_0000 && 16 <= headerLen <= |p| && |name| == 20
  {
    K.Ok() && |stamp| == 8 && |random| == 4 ==>
      var q := Encrypted(K, p, headerLen, stamp, random);
      |q| == |p| && Decrypted(K, q, |p|, name) == (Accepted(stamp), p)
  }

  lemma {:induction false} XorSame(x: nat, n: nat)
    ensures XorBits(x, x, n) == 0
  {
    if n > 0 { XorSame(x / 2, n - 1); }
  }

  lemma XorBack(b: nat, k: nat, n: nat)
    requires k < 4 && b % 4 == 0 && n >= 2
    ensures XorBits(b + k, b, n) == k
  {
    var q := b / 4;
    Quarters(q, k);
    XorSame(q, n - 2);
    XorStep(2 * q + k / 2, 2 * q, q, q, k / 2, n - 1);
    XorStep(4 * q + k, 4 * q, 2 * q + k / 2, 2 * q, k % 2, n);
  }

  /** One bit of an exclusive or with an even number. */
  lemma XorStep(x: nat, y: nat, x': nat, y': nat, low: nat, n: nat)
    requires n > 0 && x / 2 == x' && y / 2 == y' && x % 2 == low && y % 2 == 0
    ensures XorBits(x, y, n) == low + 2 * XorBits(x', y', n - 1)
  {
  }

  lemma Quarters(q: nat, k: nat)
    requires k < 4
    ensures (4 * q + k) / 2 == 2 * q + k / 2 && (4 * q + k) % 2 == k % 2 && (4 * q) / 2 == 2 * q && (4 * q) % 2 == 0
    ensures (2 * q + k / 2) / 2 == q && (2 * q + k / 2) % 2 == k / 2 && (2 * q) / 2 == q && (2 * q) % 2 == 0
    ensures k == k % 2 + 2 * (k / 2)
  {
  }

  lemma XorZero(x: Byte)
    ensures XorByte(x, 0) == x
  {
    assert Pow2(8) == 256;
    XorZeroBits(x, 8);
  }

  /** Ciphers whose key stream changes only the fourth byte. */
  function Garbling(): Ciphers {
    Ciphers(b => b, b => b, (iv: Bytes, i: nat) => if i == 3 then 16 else 0, b => [0, 0, 0, 0, 0, 0, 0, 0])
  }

  lemma GarblingOk()
    ensures Garbling().Ok()
  {
  }

  lemma GarblingKeeps(iv: Bytes, b: Bytes)
    requires |b| <= 3
    ensures Garbling().Ctr(iv, b) == b
  {
    forall i | 0 <= i < |b| ensures Garbling().Ctr(iv, b)[i] == b[i] { XorZero(b[i]); }
  }

  lemma GarbledWord(iv: Bytes, b: Bytes)
    requires |b| == 4 && 16 <= b[3] < 20
    ensures Garbling().Ctr(iv, b) == b[..3] + [b[3] - 16]
  {
    var m := Garbling().Ctr(iv, b);
    XorZero(b[0]);
    XorZero(b[1]);
    XorZero(b[2]);
    XorBack(16, b[3] - 16, 8);
    assert m[0] == b[0] && m[1] == b[1] && m[2] == b[2] && m[3] == b[3] - 16;
  }

  lemma GarbledMagic(iv: Bytes, headerLen: nat)
    requires 16 <= headerLen < 20
    ensures HeaderLen(Garbling().Ctr(iv, Magic(headerLen))) == headerLen - 16
  {
    var b := Magic(headerLen);
    GarbledWord(iv, b);
    assert b[..3] + [b[3] - 16] == Magic(headerLen - 16);
    MagicReadsBack(headerLen - 16);
  }

  /** With a header of 16 to 19 bytes part of the magic number stays unencrypted, and the receiver
      may take any number for the header length: here one below 16. */
  lemma ShortHeaderFails(p: Bytes, headerLen: nat, stamp: Bytes, random: Bytes, name: Bytes)
    requires 24 <= |p| < 0x1_0000 && 16 <= headerLen < 20 && |stamp| == 8 && |random| == 4 && |name| == 20
    ensures Garbling().Ok()
    ensures var q := Encrypted(Garbling(), p, headerLen, stamp, random);
            |q| == |p| && Decrypted(Garbling(), q, |p|, name) == (OutOfBounds, q)
  {
    GarblingOk();
    var K := Garbling();
    assert K.HashOk(p);
    var pre := PreIv(K.hash(p), stamp, random);
    var clear := Magic(headerLen) + p[..4] + p[24..];
    GarblingKeeps(pre, clear[..headerLen - 16]);
    var q := Encrypted(K, p, headerLen, stamp, random);
    assert q == pre + clear;
    assert q[..16] == pre && q[16..20] == Magic(headerLen);
    GarbledMagic(pre, headerLen);
  }

  /** The round trip holds for all ciphers, stamps and random words if and only if the header has
      at least 20 bytes. */
  lemma RoundTripExactly(p: Bytes, headerLen: nat, name: Bytes)
    requires 24 <= |p| < 0x1_0000 && 16 <= headerLen <= |p| && |name| == 20 && p[4..24] == name
    ensures (forall K, stamp, random {:trigger Restores(K, p, headerLen, stamp, random, name)} ::
               Restores(K, p, headerLen, stamp, random, name)) <==> headerLen >= 20
  {
    if headerLen >= 20 {
      forall K, stamp, random ensures Restores(K, p, headerLen, stamp, random, name) {
        if K.Ok() && |stamp| == 8 && |random| == 4 { RoundTrip(K, p, headerLen, stamp, random, name); }
      }
    } else {
      var stamp: Bytes, random: Bytes := [0, 0, 0, 0, 0, 0, 0, 0], [0, 0, 0, 0];
      ShortHeaderFails(p, headerLen, stamp, random, name);
      assert !Restores(Garbling(), p, headerLen, stamp, random, name);
    }
  }
}
