/** Binary data as printable characters, six bits each, and back. */
module AsciiCode {
  import opened Words

  type Bytes = seq<Byte>

  /** The table b2a: 0-9, A-Z, a-z, '+' and '-'. */
  function ToChar(v: int): Byte
    requires 0 <= v < 64
  {
    if v < 10 then 0x30 + v else if v < 36 then 0x41 + (v - 10) else if v < 62 then 0x61 + (v - 36)
    else if v == 62 then 0x2b else 0x2d
  }

  /** The table a2b, whose entry `i` stands for character 0x20 + i; 0xff marks invalid ones.
      Only 96 of its 256 entries are given, the others are 0. */
  function Table(i: int): Byte
    requires 0 <= i < 256
  {
    var ch := i + 0x20;
    if i >= 96 then 0
    else if 0x30 <= ch <= 0x39 then ch - 0x30
    else if 0x41 <= ch <= 0x5a then ch - 0x41 + 10
    else if 0x61 <= ch <= 0x7a then ch - 0x61 + 36
    else if ch == 0x2b || ch == 0x3c then 0x3e
    else if ch == 0x2d || ch == 0x3e then 0x3f
    else 0xff
  }

  predicate InAlphabet(ch: Byte) { exists v :: 0 <= v < 64 && ch == ToChar(v) }

  // ---- encoding ----

  /** ceil(8 n / 6). */
  function CharsFor(n: nat): nat { (8 * n + 5) / 6 }

  /** Six bits of the pair of bytes a, b from bit `s` on, as the encoder gets them: a << s cut to
      eight bits, or-ed with b >> (8 - s), and the whole >> 2.  The or-ed bits are disjoint. */
  function SixBits(s: nat, a: int, b: int): (r: int)
    requires s in {0, 2, 4, 6} && 0 <= a < 256 && 0 <= b < 256
    ensures 0 <= r < 64
  {
    SixBits2(a, b);
    SixBits4(a, b);
    SixBits6(a, b);
    Shifted(s, a, b)
  }

  function Shifted(s: nat, a: int, b: int): int
    requires s in {0, 2, 4, 6} && 0 <= a < 256 && 0 <= b < 256
  {
    if s == 0 then a / 4
    else if s == 2 then ((a * 4) % 256 + b / 64) / 4
    else if s == 4 then ((a * 16) % 256 + b / 16) / 4
    else ((a * 64) % 256 + b / 4) / 4
  }

  lemma SixBits2(a: int, b: int)
    requires 0 <= a < 256 && 0 <= b < 256
    ensures Shifted(2, a, b) == a % 64
  {
    var q, r := a / 64, a % 64;
    assert a * 4 == 256 * q + 4 * r;
    Remainder256(q, 4 * r);
  }

  lemma SixBits4(a: int, b: int)
    requires 0 <= a < 256 && 0 <= b < 256
    ensures Shifted(4, a, b) == (a % 16) * 4 + b / 64
  {
    var q, r := a / 16, a % 16;
    assert a * 16 == 256 * q + 16 * r;
    Remainder256(q, 16 * r);
  }

  lemma SixBits6(a: int, b: int)
    requires 0 <= a < 256 && 0 <= b < 256
    ensures Shifted(6, a, b) == (a % 4) * 16 + b / 16
  {
    var q, r := a / 4, a % 4;
    assert a * 64 == 256 * q + 64 * r;
    Remainder256(q, 64 * r);
  }

  function ByteAt(b: Bytes, i: nat): int { if i < |b| then b[i] else 0 }

  lemma BitPosition(j: nat)
    ensures (6 * j) % 8 in {0, 2, 4, 6}
  {
    var q, r := j / 4, j % 4;
    assert 6 * j == 8 * (3 * q) + 6 * r;
    EightsDrop(3 * q, 6 * r);
  }

  lemma EightsDrop(k: int, r: int)
    ensures (8 * k + r) % 8 == r % 8
  {
  }

  /** Character `j` of the code: the second byte of the pair is 0 past the end of the data. */
  function Sextet(b: Bytes, j: nat): (r: int)
    requires j < CharsFor(|b|)
    ensures 0 <= r < 64
  {
    BitPosition(j);
    SixBits((6 * j) % 8, ByteAt(b, 6 * j / 8), ByteAt(b, 6 * j / 8 + 1))
  }

  function Encoded(b: Bytes): (s: Bytes)
    ensures |s| == CharsFor(|b|)
  {
    seq<Byte>(CharsFor(|b|), j requires 0 <= j < CharsFor(|b|) => ToChar(Sextet(b, j)))
  }

  lemma GroupBits(b: Bytes, g: nat)
    requires 3 * g + 2 < |b|
    ensures 4 * g + 3 < CharsFor(|b|)
    ensures Sextet(b, 4 * g) == b[3 * g] / 4 && Sextet(b, 4 * g + 1) == (b[3 * g] % 4) * 16 + b[3 * g + 1] / 16
    ensures Sextet(b, 4 * g + 2) == (b[3 * g + 1] % 16) * 4 + b[3 * g + 2] / 64 && Sextet(b, 4 * g + 3) == b[3 * g + 2] % 64
  {
    SixBits6(b[3 * g], b[3 * g + 1]);
    SixBits4(b[3 * g + 1], b[3 * g + 2]);
    SixBits2(b[3 * g + 2], ByteAt(b, 3 * g + 3));
    assert 6 * (4 * g) / 8 == 3 * g && (6 * (4 * g)) % 8 == 0;
    assert 6 * (4 * g + 1) / 8 == 3 * g && (6 * (4 * g + 1)) % 8 == 6;
    assert 6 * (4 * g + 2) / 8 == 3 * g + 1 && (6 * (4 * g + 2)) % 8 == 4;
    assert 6 * (4 * g + 3) / 8 == 3 * g + 2 && (6 * (4 * g + 3)) % 8 == 2;
  }

  function Base64(v0: int, v1: int, v2: int, v3: int): int { ((v0 * 64 + v1) * 64 + v2) * 64 + v3 }

  function Base256(a: int, b: int, c: int): int { (a * 256 + b) * 256 + c }

  /** Four characters stand for three bytes: the same number in base 64 and in base 256. */
  lemma GroupValue(b: Bytes, g: nat)
    requires 3 * g + 2 < |b|
    ensures 4 * g + 3 < CharsFor(|b|)
    ensures Base64(Sextet(b, 4 * g), Sextet(b, 4 * g + 1), Sextet(b, 4 * g + 2), Sextet(b, 4 * g + 3))
         == Base256(b[3 * g], b[3 * g + 1], b[3 * g + 2])
  {
    GroupBits(b, g);
  }

  /** bin_to_ascii: ceil(8 n / 6) characters of the alphabet and a terminating 0. */
  method BinToAscii(out: array<Byte>, inp: Bytes)
    requires out.Length > CharsFor(|inp|)
    modifies out
    ensures out[..CharsFor(|inp|)] == Encoded(inp) && out[CharsFor(|inp|)] == 0
    ensures forall i {:trigger out[i]} :: CharsFor(|inp|) < i < out.Length ==> out[i] == old(out[i])
  {
    var bitCount, outCount := 0, 0;
    while bitCount < 8 * |inp|
      invariant 0 <= outCount <= CharsFor(|inp|) && bitCount == 6 * outCount
      invariant forall j {:trigger out[j]} :: 0 <= j < outCount ==> out[j] == Encoded(inp)[j]
      invariant forall i {:trigger out[i]} :: CharsFor(|inp|) < i < out.Length ==> out[i] == old(out[i])
    {
      BitPosition(outCount);
      var buf1 := inp[bitCount / 8];
      var buf2 := if bitCount + 8 < 8 * |inp| then inp[bitCount / 8 + 1] else 0;
      assert buf2 == ByteAt(inp, bitCount / 8 + 1);
      out[outCount] := ToChar(SixBits(bitCount % 8, buf1, buf2));
      bitCount, outCount := bitCount + 6, outCount + 1;
    }
    out[outCount] := 0;
  }

  // ---- decoding ----

  /** The decoder between two characters: its 16-bit buffer, the number of bits in it that have
      not been put out, and the output. */
  datatype Dec = Dec(buf: int, bits: nat, out: Bytes)

  predicate DecOk(d: Dec) { 0 <= d.buf < 0x1_0000 && d.bits in {0, 2, 4, 6} }

  /** buf | v for a table entry, with the six low bits of buf clear. */
  function Or(buf: int, v: int): int { if v == 0xff then buf - buf % 256 + 255 else buf + v }

  /** What the character contributes.  The test for validity looks at the entry 0x20 further on. */
  function Entry(ch: Byte): int { if 0x20 < ch < 0x80 && Table(ch) != 0xff then Table(ch - 0x20) else 0 }

  function Step(d: Dec, ch: Byte): (e: Dec)
    requires DecOk(d)
    ensures DecOk(e)
  {
    var buf := Or((d.buf * 64) % 0x1_0000, Entry(ch));
    BufInRange(d.buf, Entry(ch));
    Emit(buf, d.bits + 6, d.out)
  }

  lemma BufInRange(buf: int, v: int)
    requires 0 <= buf < 0x1_0000 && (0 <= v < 64 || v == 0xff)
    ensures 0 <= Or((buf * 64) % 0x1_0000, v) < 0x1_0000
    ensures (buf * 64) % 0x1_0000 == 64 * (buf % 1024)
  {
    var q, r := buf / 1024, buf % 1024;
    assert buf * 64 == 0x1_0000 * q + 64 * r;
  }

  /** A byte is put out as soon as there are eight bits. */
  function Emit(buf: int, bits: nat, out: Bytes): Dec {
    if bits < 8 then Dec(buf, bits, out)
    else if bits == 8 then Dec(buf, 0, out + [buf % 256])
    else if bits == 10 then Dec(buf, 2, out + [(buf / 4) % 256])
    else Dec(buf, 4, out + [(buf / 16) % 256])
  }

  function Run(d: Dec, s: Bytes): (e: Dec)
    requires DecOk(d)
    ensures DecOk(e)
    decreases |s|, s, d
  {
    if s == [] then d else Run(Step(d, s[0]), s[1..])
  }

  /** Every six bits in appear as bits out or are still in the buffer. */
  lemma {:induction false} RunBits(d: Dec, s: Bytes)
    requires DecOk(d)
    ensures 8 * |Run(d, s).out| + Run(d, s).bits == 8 * |d.out| + d.bits + 6 * |s|
    decreases |s|
  {
    if s != [] { RunBits(Step(d, s[0]), s[1..]); }
  }

  lemma {:induction false} RunSplits(d: Dec, s: Bytes, t: Bytes)
    requires DecOk(d)
    ensures Run(d, s + t) == Run(Run(d, s), t)
    decreases |s|
  {
    if s == [] {
      assert s + t == t;
    } else {
      assert (s + t)[1..] == s[1..] + t;
      RunSplits(Step(d, s[0]), s[1..], t);
    }
  }

  const Fresh := Dec(0, 0, [])

  /** ascii_to_bin: floor(6 n / 8) bytes, whatever the characters. */
  method AsciiToBin(out: array<Byte>, inp: Bytes)
    requires out.Length >= 6 * |inp| / 8
    modifies out
    ensures |Run(Fresh, inp).out| == 6 * |inp| / 8 && out[..6 * |inp| / 8] == Run(Fresh, inp).out
    ensures forall i {:trigger out[i]} :: 6 * |inp| / 8 <= i < out.Length ==> out[i] == old(out[i])
  {
    RunBits(Fresh, inp);
    var inCount, outCount, bitCount, buf := 0, 0, 0, 0;
    ghost var d := Fresh;
    while inCount < |inp|
      invariant 0 <= inCount <= |inp| && DecOk(d)
      invariant 0 <= outCount <= out.Length && d == Dec(buf, bitCount, out[..outCount])
      invariant Run(d, inp[inCount..]) == Run(Fresh, inp)
      invariant 8 * outCount + bitCount == 6 * inCount
      invariant forall i {:trigger out[i]} :: outCount <= i < out.Length ==> out[i] == old(out[i])
    {
      BufInRange(buf, Entry(inp[inCount]));
      ghost var was := out[..outCount];
      d := Step(d, inp[inCount]);
      buf := (buf * 64) % 0x1_0000;
      buf := Or(buf, Entry(inp[inCount]));
      bitCount := bitCount + 6;
      if bitCount >= 8 {
        bitCount := bitCount - 8;
        out[outCount] := if bitCount == 0 then buf % 256 else if bitCount == 2 then (buf / 4) % 256 else (buf / 16) % 256;
        outCount := outCount + 1;
        assert out[..outCount] == was + [out[outCount - 1]];
      }
      assert inp[inCount..][1..] == inp[inCount + 1..];
      inCount := inCount + 1;
    }
  }

  // ---- round trip ----

  /** Although the validity test looks at the wrong entry, every character of the alphabet passes
      it and gives back its six bits. */
  lemma EntryOfChar(v: int)
    requires 0 <= v < 64
    ensures Entry(ToChar(v)) == v
  {
  }

  /** It lets exactly these characters outside the alphabet through; their entry 0xff is or-ed
      in and also sets two bits of the character before. */
  lemma PassesWrongly(ch: Byte)
    ensures Entry(ch) == 0xff <==> 0x21 <= ch <= 0x2a || ch in {0x2c, 0x2e, 0x2f, 0x3a, 0x60} || 0x7b <= ch <= 0x7f
    ensures Entry(ch) == 0xff ==> !InAlphabet(ch)
  {
  }

  lemma {:induction false} StepOf(d: Dec, v: int)
    requires DecOk(d) && 0 <= v < 64
    ensures Step(d, ToChar(v)) == Emit(64 * (d.buf % 1024) + v, d.bits + 6, d.out)
  {
    EntryOfChar(v);
    BufInRange(d.buf, v);
  }

  /** What a shift by six bits keeps of the low ten. */
  lemma ShiftedLow(x: int, a: int)
    requires 0 <= x && 0 <= a < 64
    ensures (64 * x + a) % 1024 == 64 * (x % 16) + a
  {
    var q, r := x / 16, x % 16;
    assert 64 * x + a == 1024 * q + (64 * r + a);
    Remainder1024(q, 64 * r + a);
  }

  lemma Remainder1024(q: int, r: int)
    requires 0 <= r < 1024
    ensures (1024 * q + r) % 1024 == r
  {
  }

  lemma Remainder256(q: int, r: int)
    requires 0 <= r < 256
    ensures (256 * q + r) % 256 == r
  {
  }

  /** The bytes that come out at the second, third and fourth character of a group. */
  lemma SecondOut(x: int, a: int, b: int)
    requires 0 <= x && 0 <= a < 64 && 0 <= b < 64
    ensures ((64 * ((64 * x + a) % 1024) + b) / 16) % 256 == 4 * a + b / 16
  {
    ShiftedLow(x, a);
    var r := x % 16;
    assert (64 * (64 * r + a) + b) / 16 == 256 * r + (4 * a + b / 16);
    Remainder256(r, 4 * a + b / 16);
  }

  lemma ThirdOut(y: int, b: int, c: int)
    requires 0 <= y && 0 <= b < 64 && 0 <= c < 64
    ensures ((64 * ((64 * y + b) % 1024) + c) / 4) % 256 == 16 * (b % 16) + c / 4
  {
    ShiftedLow(y, b);
    var r, q := y % 16, b / 16;
    assert (64 * (64 * r + b) + c) / 4 == 256 * (4 * r + q) + (16 * (b % 16) + c / 4);
    Remainder256(4 * r + q, 16 * (b % 16) + c / 4);
  }

  lemma FourthOut(z: int, c: int, e: int)
    requires 0 <= z && 0 <= c < 64 && 0 <= e < 64
    ensures (64 * ((64 * z + c) % 1024) + e) % 256 == 64 * (c % 4) + e
  {
    ShiftedLow(z, c);
    var r, q := z % 16, c / 4;
    assert 64 * (64 * r + c) + e == 256 * (16 * r + q) + (64 * (c % 4) + e);
    Remainder256(16 * r + q, 64 * (c % 4) + e);
  }

  /** Two, three and four characters, starting with no bits left over. */
  lemma TwoChars(d: Dec, a: int, b: int) returns (x: int)
    requires DecOk(d) && d.bits == 0 && 0 <= a < 64 && 0 <= b < 64
    ensures 0 <= x && Run(d, [ToChar(a), ToChar(b)]) == Dec(64 * x + b, 4, d.out + [4 * a + b / 16])
  {
    StepOf(d, a);
    var d1 := Step(d, ToChar(a));
    StepOf(d1, b);
    SecondOut(d.buf % 1024, a, b);
    x := d1.buf % 1024;
    assert [ToChar(a), ToChar(b)][1..] == [ToChar(b)];
    assert [ToChar(b)][1..] == [];
    assert Run(d1, [ToChar(b)]) == Step(d1, ToChar(b));
  }

  lemma ThirdChar(d: Dec, y: int, b: int, c: int) returns (z: int)
    requires DecOk(d) && d.bits == 4 && 0 <= y && 0 <= b < 64 && 0 <= c < 64 && d.buf == 64 * y + b
    ensures 0 <= z && Run(d, [ToChar(c)]) == Dec(64 * z + c, 2, d.out + [16 * (b % 16) + c / 4])
  {
    StepOf(d, c);
    ThirdOut(y, b, c);
    z := d.buf % 1024;
    assert [ToChar(c)][1..] == [];
    assert Run(d, [ToChar(c)]) == Step(d, ToChar(c));
  }

  lemma FourthChar(d: Dec, z: int, c: int, e: int) returns (w: int)
    requires DecOk(d) && d.bits == 2 && 0 <= z && 0 <= c < 64 && 0 <= e < 64 && d.buf == 64 * z + c
    ensures Run(d, [ToChar(e)]) == Dec(w, 0, d.out + [64 * (c % 4) + e])
  {
    StepOf(d, e);
    FourthOut(z, c, e);
    w := 64 * (d.buf % 1024) + e;
    assert [ToChar(e)][1..] == [];
    assert Run(d, [ToChar(e)]) == Step(d, ToChar(e));
  }

  /** Code characters after a group of three bytes are the code of the rest. */
  lemma NextGroup(b: Bytes, j: nat)
    requires |b| >= 3 && j < CharsFor(|b| - 3)
    ensures j + 4 < CharsFor(|b|) && Sextet(b, j + 4) == Sextet(b[3..], j)
  {
    NextPosition(j);
    ThreeFurther(b, 6 * j / 8);
    ThreeFurther(b, 6 * j / 8 + 1);
    assert CharsFor(|b|) == CharsFor(|b| - 3) + 4;
  }

  /** Four characters on, the bit position is the same and the byte three further. */
  lemma NextPosition(j: nat)
    ensures (6 * (j + 4)) % 8 == (6 * j) % 8 && 6 * (j + 4) / 8 == 6 * j / 8 + 3
  {
    var q, r := 6 * j / 8, (6 * j) % 8;
    assert 6 * (j + 4) == 8 * (q + 3) + r;
  }

  lemma ThreeFurther(b: Bytes, i: nat)
    requires |b| >= 3
    ensures ByteAt(b, i + 3) == ByteAt(b[3..], i)
  {
  }

  // the sextets of a group, from its bytes

  lemma Sextet0(b: Bytes)
    requires |b| >= 1
    ensures Sextet(b, 0) == b[0] / 4
  {
  }

  lemma Sextet1(b: Bytes)
    requires |b| >= 1
    ensures Sextet(b, 1) == (b[0] % 4) * 16 + ByteAt(b, 1) / 16
  {
    SixBits6(b[0], ByteAt(b, 1));
  }

  lemma Sextet2(b: Bytes)
    requires |b| >= 2
    ensures Sextet(b, 2) == (b[1] % 16) * 4 + ByteAt(b, 2) / 64
  {
    SixBits4(b[1], ByteAt(b, 2));
  }

  lemma Sextet3(b: Bytes)
    requires |b| >= 3
    ensures Sextet(b, 3) == b[2] % 64
  {
    SixBits2(b[2], ByteAt(b, 3));
  }

  lemma FirstByte(x: int, y: int)
    requires 0 <= x < 256 && 0 <= y < 256
    ensures 4 * (x / 4) + ((x % 4) * 16 + y / 16) / 16 == x
  {
  }

  lemma SecondByte(x: int, y: int, z: int)
    requires 0 <= x < 256 && 0 <= y < 256 && 0 <= z < 256
    ensures 16 * (((x % 4) * 16 + y / 16) % 16) + ((y % 16) * 4 + z / 64) / 4 == y
  {
  }

  lemma ThirdByte(y: int, z: int)
    requires 0 <= y < 256 && 0 <= z < 256
    ensures 64 * (((y % 16) * 4 + z / 64) % 4) + z % 64 == z
  {
  }

  /** The bytes of the group are determined by its sextets. */
  lemma BytesBack(b: Bytes)
    requires |b| >= 1
    ensures 4 * Sextet(b, 0) + Sextet(b, 1) / 16 == b[0]
    ensures |b| >= 2 ==> 16 * (Sextet(b, 1) % 16) + Sextet(b, 2) / 4 == b[1]
    ensures |b| >= 3 ==> 64 * (Sextet(b, 2) % 4) + Sextet(b, 3) == b[2]
  {
    Sextet0(b);
    Sextet1(b);
    FirstByte(b[0], ByteAt(b, 1));
    if |b| >= 2 {
      Sextet2(b);
      SecondByte(b[0], b[1], ByteAt(b, 2));
    }
    if |b| >= 3 {
      Sextet3(b);
      ThirdByte(b[1], b[2]);
    }
  }

  function Four(a: int, b: int, c: int, e: int): Bytes
    requires 0 <= a < 64 && 0 <= b < 64 && 0 <= c < 64 && 0 <= e < 64
  {
    [ToChar(a), ToChar(b)] + [ToChar(c)] + [ToChar(e)]
  }

  lemma GroupSplits(b: Bytes)
    requires |b| >= 3
    ensures Encoded(b) == Four(Sextet(b, 0), Sextet(b, 1), Sextet(b, 2), Sextet(b, 3)) + Encoded(b[3..])
  {
    var s := Encoded(b);
    forall j: nat | j < CharsFor(|b| - 3) ensures s[j + 4] == Encoded(b[3..])[j] { NextGroup(b, j); }
    assert s[4..] == Encoded(b[3..]);
    assert s[..4] == [s[0], s[1]] + [s[2]] + [s[3]];
    assert s == s[..4] + s[4..];
  }

  /** Four characters give three bytes. */
  lemma Group(d: Dec, a: int, b: int, c: int, e: int) returns (w: int)
    requires DecOk(d) && d.bits == 0 && 0 <= a < 64 && 0 <= b < 64 && 0 <= c < 64 && 0 <= e < 64
    ensures Run(d, Four(a, b, c, e)) == Dec(w, 0, d.out + [4 * a + b / 16] + [16 * (b % 16) + c / 4] + [64 * (c % 4) + e])
  {
    var p := TwoChars(d, a, b);
    var s2 := [ToChar(a), ToChar(b)];
    var d2 := Run(d, s2);
    var q := ThirdChar(d2, p, b, c);
    RunSplits(d, s2, [ToChar(c)]);
    var d3 := Run(d2, [ToChar(c)]);
    w := FourthChar(d3, q, c, e);
    RunSplits(d, s2 + [ToChar(c)], [ToChar(e)]);
  }

  lemma GroupDecodes(d: Dec, b: Bytes) returns (e: Dec)
    requires DecOk(d) && d.bits == 0 && |b| >= 3
    ensures DecOk(e) && e.bits == 0 && e.out == d.out + b[..3]
    ensures Run(d, Encoded(b)) == Run(e, Encoded(b[3..]))
  {
    var s := Four(Sextet(b, 0), Sextet(b, 1), Sextet(b, 2), Sextet(b, 3));
    GroupSplits(b);
    RunSplits(d, s, Encoded(b[3..]));
    e := Run(d, s);
    var w := Group(d, Sextet(b, 0), Sextet(b, 1), Sextet(b, 2), Sextet(b, 3));
    BytesBack(b);
    assert d.out + [b[0]] + [b[1]] + [b[2]] == d.out + b[..3];
  }

  lemma {:induction false} DecodesFrom(d: Dec, b: Bytes)
    requires DecOk(d) && d.bits == 0
    ensures Run(d, Encoded(b)).out == d.out + b
    decreases |b|
  {
    if b == [] {
      assert Encoded(b) == [] && d.out + b == d.out;
    } else if |b| == 1 {
      OneByte(d, b);
    } else if |b| == 2 {
      TwoBytes(d, b);
    } else {
      var e := GroupDecodes(d, b);
      DecodesFrom(e, b[3..]);
      assert d.out + b[..3] + b[3..] == d.out + b;
    }
  }

  lemma OneByte(d: Dec, b: Bytes)
    requires DecOk(d) && d.bits == 0 && |b| == 1
    ensures Run(d, Encoded(b)).out == d.out + b
  {
    var x, y := Sextet(b, 0), Sextet(b, 1);
    assert Encoded(b) == [ToChar(x), ToChar(y)];
    var p := TwoChars(d, x, y);
    BytesBack(b);
    assert b == [b[0]];
  }

  lemma TwoBytes(d: Dec, b: Bytes)
    requires DecOk(d) && d.bits == 0 && |b| == 2
    ensures Run(d, Encoded(b)).out == d.out + b
  {
    var x, y, z := Sextet(b, 0), Sextet(b, 1), Sextet(b, 2);
    assert Encoded(b) == [ToChar(x), ToChar(y)] + [ToChar(z)];
    var p := TwoChars(d, x, y);
    var d2 := Run(d, [ToChar(x), ToChar(y)]);
    var q := ThirdChar(d2, p, y, z);
    RunSplits(d, [ToChar(x), ToChar(y)], [ToChar(z)]);
    BytesBack(b);
    assert d.out + [b[0]] + [b[1]] == d.out + b;
  }

  /** Decoding the code of any byte string gives it back, and nothing more. */
  lemma RoundTrip(b: Bytes)
    ensures Run(Fresh, Encoded(b)).out == b
    ensures forall j {:trigger Encoded(b)[j]} :: 0 <= j < CharsFor(|b|) ==> InAlphabet(Encoded(b)[j])
  {
    DecodesFrom(Fresh, b);
    assert [] + b == b;
    forall j: nat {:trigger Encoded(b)[j]} | j < CharsFor(|b|) ensures InAlphabet(Encoded(b)[j]) {
      var v := Sextet(b, j);
      assert Encoded(b)[j] == ToChar(v);
    }
  }
}
