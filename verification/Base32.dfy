/**
 Base32 without padding (section 6 of RFC 4648): a streaming encoder and decoder over a 32-bit
 accumulator whose high bits are shifted out, against the plain regrouping of bits.

 The same encoder text appears three times in the repository; it is modelled once.
 */
module Base32 {
  import opened Basics

  type Bit = x: int | 0 <= x < 2
  type Byte = x: int | 0 <= x < 256
  type Quint = x: int | 0 <= x < 32
  type Word = x: int | 0 <= x < 0x1_0000_0000

  // -- Bits of numbers -------------------------------------------------------------------

  /** Bit `k` of `v`, bit 0 the least significant. */
  function BitOf(v: nat, k: nat): Bit {
    if k == 0 then v % 2 else BitOf(v / 2, k - 1)
  }

  function Pow2(n: nat): (p: nat)
    ensures p >= 1
  {
    if n == 0 then 1 else 2 * Pow2(n - 1)
  }

  lemma Powers()
    ensures Pow2(5) == 32 && Pow2(8) == 256 && Pow2(31) == 0x8000_0000
  {
    assert Pow2(8) == 0x100;
    assert Pow2(16) == 0x1_0000;
    assert Pow2(24) == 0x100_0000;
  }

  lemma {:induction false} ZeroBit(k: nat)
    ensures BitOf(0, k) == 0
  {
    if k > 0 {
      ZeroBit(k - 1);
    }
  }

  /** A number is determined by its bits. */
  lemma {:induction false} SameBits(a: nat, b: nat, w: nat)
    requires a < Pow2(w) && b < Pow2(w)
    requires forall k :: 0 <= k < w ==> BitOf(a, k) == BitOf(b, k)
    ensures a == b
    decreases w
  {
    if w > 0 {
      assert BitOf(a, 0) == BitOf(b, 0);
      forall k | 0 <= k < w - 1 ensures BitOf(a / 2, k) == BitOf(b / 2, k) {
        assert BitOf(a, k + 1) == BitOf(b, k + 1);
      }
      SameBits(a / 2, b / 2, w - 1);
    }
  }

  lemma Times(k: int, m: int)
    requires m > 0
    ensures k >= 1 ==> k * m >= m
    ensures k <= -1 ==> k * m <= -m
  {
    if k >= 1 {
      assert (k - 1) * m >= 0;
    } else if k <= -1 {
      assert (-k - 1) * m >= 0;
    }
  }

  lemma Rest(q: int, m: int, r: int)
    requires 0 <= r < m
    ensures (q * m + r) % m == r
  {
    var x := q * m + r;
    var y, z := x / m, x % m;
    assert x == m * y + z;
    assert (q - y) * m == z - r;
    Times(q - y, m);
  }

  lemma HalfRest(x: nat, p: nat)
    requires p > 0
    ensures 0 <= x % (2 * p) && x % (2 * p) % 2 == x % 2 && x % (2 * p) / 2 == (x / 2) % p
  {
    var q, r := (x / 2) / p, (x / 2) % p;
    assert x / 2 == p * q + r;
    assert x == q * (2 * p) + (2 * r + x % 2);
    Rest(q, 2 * p, 2 * r + x % 2);
  }

  /** Masking keeps the low bits. */
  lemma {:induction false} MaskBit(y: nat, w: nat, k: nat)
    requires k < w
    ensures y % Pow2(w) >= 0 && BitOf(y % Pow2(w), k) == BitOf(y, k)
    decreases w
  {
    HalfRest(y, Pow2(w - 1));
    if k > 0 {
      MaskBit(y / 2, w - 1, k - 1);
    }
  }

  // -- Bit strings -----------------------------------------------------------------------

  /** Bit `k` of a bit string, zeros past its end. */
  function At(bits: seq<Bit>, k: nat): Bit {
    if k < |bits| then bits[k] else 0
  }

  /** The number written by the `n` bits that begin at `start`. */
  function Gather(bits: seq<Bit>, start: nat, n: nat): nat {
    if n == 0 then 0 else 2 * Gather(bits, start, n - 1) + At(bits, start + n - 1)
  }

  lemma {:induction false} GatherBit(bits: seq<Bit>, start: nat, n: nat, k: nat)
    requires k < n
    ensures BitOf(Gather(bits, start, n), k) == At(bits, start + n - 1 - k)
    decreases n
  {
    var g, b := Gather(bits, start, n - 1), At(bits, start + n - 1);
    assert (2 * g + b) / 2 == g && (2 * g + b) % 2 == b;
    if k > 0 {
      GatherBit(bits, start, n - 1, k - 1);
    }
  }

  lemma {:induction false} GatherBound(bits: seq<Bit>, start: nat, n: nat)
    ensures Gather(bits, start, n) < Pow2(n)
    decreases n
  {
    if n > 0 {
      GatherBound(bits, start, n - 1);
    }
  }

  /** Masking `w` bits out of a number whose low bits are a stretch of `bits` reads that stretch. */
  lemma Masked(y: nat, w: nat, bits: seq<Bit>, start: nat)
    requires forall k :: 0 <= k < w ==> BitOf(y, k) == At(bits, start + w - 1 - k)
    ensures y % Pow2(w) == Gather(bits, start, w)
  {
    var low, g := y % Pow2(w), Gather(bits, start, w);
    GatherBound(bits, start, w);
    forall k | 0 <= k < w ensures BitOf(low, k) == BitOf(g, k) {
      MaskBit(y, w, k);
      GatherBit(bits, start, w, k);
    }
    SameBits(low, g, w);
  }

  function ByteBits(data: seq<Byte>): (bits: seq<Bit>)
    ensures |bits| == 8 * |data|
  {
    seq(8 * |data|, k requires 0 <= k < 8 * |data| => BitOf(data[k / 8], 7 - k % 8))
  }

  function QuintBits(qs: seq<Quint>): (bits: seq<Bit>)
    ensures |bits| == 5 * |qs|
  {
    seq(5 * |qs|, k requires 0 <= k < 5 * |qs| => BitOf(qs[k / 5], 4 - k % 5))
  }

  function QuintAt(bits: seq<Bit>, j: nat): Quint {
    GatherBound(bits, 5 * j, 5);
    Powers();
    Gather(bits, 5 * j, 5)
  }

  function ByteAt(bits: seq<Bit>, j: nat): Byte {
    GatherBound(bits, 8 * j, 8);
    Powers();
    Gather(bits, 8 * j, 8)
  }

  /** The ideal encoding: the bits in groups of five, the last padded with zeros. */
  function Chunk5(bits: seq<Bit>): (qs: seq<Quint>)
    ensures |qs| == (|bits| + 4) / 5
  {
    seq((|bits| + 4) / 5, j requires 0 <= j < (|bits| + 4) / 5 => QuintAt(bits, j))
  }

  /** The ideal decoding: the bits in groups of eight, an incomplete rest dropped. */
  function Chunk8(bits: seq<Bit>): (bs: seq<Byte>)
    ensures |bs| == |bits| / 8
  {
    seq(|bits| / 8, j requires 0 <= j < |bits| / 8 => ByteAt(bits, j))
  }

  // -- The 32-bit accumulator ------------------------------------------------------------

  function Doubled(x: Word): Word {
    2 * (x as int) % 0x1_0000_0000
  }

  function ShiftLeft(x: Word, n: nat): Word {
    if n == 0 then x else Doubled(ShiftLeft(x, n - 1))
  }

  function ShiftRight(x: Word, n: nat): Word {
    if n == 0 then x else ShiftRight(x / 2, n - 1)
  }

  lemma {:induction false} HighBit(x: nat, m: nat, k: nat)
    requires k < m
    ensures BitOf(x + Pow2(m), k) == BitOf(x, k)
    decreases k
  {
    if k > 0 {
      HighBit(x / 2, m - 1, k - 1);
      assert (x + Pow2(m)) / 2 == x / 2 + Pow2(m - 1);
    }
  }

  /** Doubling frees bit 0 for the low bit of `b` and loses only bit 31. */
  lemma DoubleAdd(y: Word, b: nat, k: nat)
    requires k < 32
    ensures BitOf(Doubled(y) + b, k) == if k == 0 then b % 2 else BitOf(y + b / 2, k - 1)
  {
    var rest: nat := Doubled(y);
    var half := rest / 2;
    assert rest == 2 * half;
    assert (rest + b) / 2 == half + b / 2 && (rest + b) % 2 == b % 2;
    if k > 0 && half != y {
      Powers();
      assert y == half + 0x8000_0000;
      HighBit(half + b / 2, 31, k - 1);
    }
  }

  /** A shift to the left loses the high bits and makes room for `b`: adding `b` sets the low bits
      and leaves the others, as or-ing it in does. */
  lemma {:induction false} ShiftIn(x: Word, w: nat, b: nat, k: nat)
    requires b < Pow2(w) && k < 32
    ensures BitOf(ShiftLeft(x, w) + b, k) == if k < w then BitOf(b, k) else BitOf(x, k - w)
    decreases w
  {
    if w > 0 {
      DoubleAdd(ShiftLeft(x, w - 1), b, k);
      if k > 0 {
        ShiftIn(x, w - 1, b / 2, k - 1);
      }
    }
  }

  lemma {:induction false} ShiftOut(x: Word, n: nat, k: nat)
    ensures BitOf(ShiftRight(x, n), k) == BitOf(x, n + k)
    decreases n
  {
    if n > 0 {
      ShiftOut(x / 2, n - 1, k);
    }
  }

  lemma LowBitsFree(x: Word, w: nat)
    requires w <= 32
    ensures ShiftLeft(x, w) % Pow2(w) == 0
  {
    var low := ShiftLeft(x, w) % Pow2(w);
    forall k | 0 <= k < w ensures BitOf(low, k) == BitOf(0, k) {
      ShiftIn(x, w, 0, k);
      MaskBit(ShiftLeft(x, w), w, k);
    }
    SameBits(low, 0, w);
  }

  lemma Room(x: Word)
    ensures ShiftLeft(x, 5) + 31 < 0x1_0000_0000 && ShiftLeft(x, 8) + 255 < 0x1_0000_0000
  {
    Powers();
    LowBitsFree(x, 5);
    LowBitsFree(x, 8);
  }

  // -- The alphabet --------------------------------------------------------------------

  const ALPHABET: string := "ABCDEFGHIJKLMNOPQRSTUVWXYZ234567"

  function IndexOf(c: char): Option<Quint> {
    var up := if 'a' <= c <= 'z' then (c as int - 32) as char else c;
    if 'A' <= up <= 'Z' then Some(up as int - 65)
    else if '2' <= up <= '7' then Some(up as int - 24)
    else None
  }

  /** The position test of the decoder inverts the table of the encoder. */
  lemma AlphabetInverse(q: Quint)
    ensures |ALPHABET| == 32 && IndexOf(ALPHABET[q]) == Some(q) && !Skipped(ALPHABET[q])
  {
    if q < 8 {
      assert q == 0 || q == 1 || q == 2 || q == 3 || q == 4 || q == 5 || q == 6 || q == 7;
    } else if q < 16 {
      assert q == 8 || q == 9 || q == 10 || q == 11 || q == 12 || q == 13 || q == 14 || q == 15;
    } else if q < 24 {
      assert q == 16 || q == 17 || q == 18 || q == 19 || q == 20 || q == 21 || q == 22 || q == 23;
    } else {
      assert q == 24 || q == 25 || q == 26 || q == 27 || q == 28 || q == 29 || q == 30 || q == 31;
    }
  }

  /** Padding and white space are ignored. */
  predicate Skipped(c: char) {
    c == '=' || White(c)
  }

  function Text(qs: seq<Quint>): (s: string)
    ensures |s| == |qs|
  {
    seq(|qs|, j requires 0 <= j < |qs| => ALPHABET[qs[j]])
  }

  /** The symbols of a text, unless it holds a character outside the alphabet. */
  function Symbols(s: string): Option<seq<Quint>> {
    if s == [] then Some([])
    else
      var c := s[|s| - 1];
      match Symbols(s[..|s| - 1])
      case None => None
      case Some(qs) =>
        if Skipped(c) then Some(qs)
        else
          match IndexOf(c)
          case None => None
          case Some(q) => Some(qs + [q])
  }

  // -- The encoder -----------------------------------------------------------------------

  /** The encoder's state once the first `e` bits are read: the low `bits` bits of the accumulator
      are the input not yet written out. */
  ghost predicate Encoding(all: seq<Bit>, e: nat, qs: seq<Quint>, buffer: Word, bits: nat) {
    && 5 * |qs| + bits == e <= |all|
    && (forall k :: 0 <= k < bits ==> BitOf(buffer, k) == At(all, e - 1 - k))
    && forall j :: 0 <= j < |qs| ==> qs[j] == QuintAt(all, j)
  }

  lemma ReadByte(data: seq<Byte>, n: nat, qs: seq<Quint>, buffer: Word, bits: nat)
    requires n < |data| && Encoding(ByteBits(data), 8 * n, qs, buffer, bits) && bits < 5
    ensures ShiftLeft(buffer, 8) + data[n] < 0x1_0000_0000
    ensures Encoding(ByteBits(data), 8 * n + 8, qs, ShiftLeft(buffer, 8) + data[n], bits + 8)
  {
    Room(buffer);
    Powers();
    var next, all := ShiftLeft(buffer, 8) + data[n], ByteBits(data);
    forall k | 0 <= k < bits + 8 ensures BitOf(next, k) == At(all, 8 * n + 7 - k) {
      ShiftIn(buffer, 8, data[n], k);
      if k < 8 {
        BitOfByte(data, n, k);
      } else {
        assert BitOf(buffer, k - 8) == At(all, 8 * n - 1 - (k - 8));
      }
    }
  }

  lemma BitOfByte(data: seq<Byte>, n: nat, k: nat)
    requires n < |data| && k < 8
    ensures At(ByteBits(data), 8 * n + 7 - k) == BitOf(data[n], k)
  {
    assert (8 * n + 7 - k) / 8 == n && (8 * n + 7 - k) % 8 == 7 - k;
  }

  lemma WriteQuint(all: seq<Bit>, e: nat, qs: seq<Quint>, buffer: Word, bits: nat)
    requires Encoding(all, e, qs, buffer, bits) && bits >= 5
    ensures Encoding(all, e, qs + [ShiftRight(buffer, bits - 5) % 32], buffer, bits - 5)
  {
    var y := ShiftRight(buffer, bits - 5);
    forall k | 0 <= k < 5 ensures BitOf(y, k) == At(all, 5 * |qs| + 4 - k) {
      ShiftOut(buffer, bits - 5, k);
    }
    Masked(y, 5, all, 5 * |qs|);
    Powers();
  }

  /** The inner loop: write out symbols while five bits are there. */
  method Drain(ghost all: seq<Bit>, ghost e: nat, start: seq<Quint>, buffer: Word, have: nat)
    returns (qs: seq<Quint>, bits: nat)
    requires Encoding(all, e, start, buffer, have)
    ensures bits < 5 && Encoding(all, e, qs, buffer, bits)
  {
    qs, bits := start, have;
    while bits >= 5
      invariant Encoding(all, e, qs, buffer, bits)
    {
      WriteQuint(all, e, qs, buffer, bits);
      bits := bits - 5;
      qs := qs + [ShiftRight(buffer, bits) % 32];
    }
  }

  method Encode(data: seq<Byte>) returns (out: string)
    ensures out == Text(Chunk5(ByteBits(data)))
    ensures |out| == (8 * |data| + 4) / 5
  {
    var buffer: Word, bits: nat := 0, 0;
    var qs: seq<Quint> := [];
    ghost var all := ByteBits(data);
    for n := 0 to |data|
      invariant bits < 5 && Encoding(all, 8 * n, qs, buffer, bits)
    {
      ReadByte(data, n, qs, buffer, bits);
      buffer := ShiftLeft(buffer, 8) + data[n];
      bits := bits + 8;
      qs, bits := Drain(all, 8 * n + 8, qs, buffer, bits);
    }
    LastQuint(all, qs, buffer, bits);
    if bits > 0 {
      qs := qs + [ShiftLeft(buffer, 5 - bits) % 32];
    }
    out := Text(qs);
  }

  /** What follows the loop: the bits left over, if any, make one more symbol. */
  lemma LastQuint(all: seq<Bit>, qs: seq<Quint>, buffer: Word, bits: nat)
    requires bits < 5 && Encoding(all, |all|, qs, buffer, bits)
    ensures Chunk5(all) == if bits > 0 then qs + [ShiftLeft(buffer, 5 - bits) % 32] else qs
  {
    if bits > 0 {
      var y := ShiftLeft(buffer, 5 - bits);
      forall k | 0 <= k < 5 ensures BitOf(y, k) == At(all, 5 * |qs| + 4 - k) {
        ShiftIn(buffer, 5 - bits, 0, k);
        ZeroBit(k);
      }
      Masked(y, 5, all, 5 * |qs|);
      Powers();
    }
  }

  // -- The decoder -----------------------------------------------------------------------

  function DecodeText(s: string): Result<seq<Byte>, string> {
    match Symbols(s)
    case None => Err("invalid base32 in TOTP secret")
    case Some(qs) => if |qs| < 2 then Err("empty TOTP secret") else Ok(Chunk8(QuintBits(qs)))
  }

  lemma {:induction false} InvalidStays(s: string, i: nat)
    requires i <= |s| && Symbols(s[..i]).None?
    ensures Symbols(s).None?
    decreases |s| - i
  {
    if i < |s| {
      assert s[..i + 1][..i] == s[..i];
      InvalidStays(s, i + 1);
    } else {
      assert s[..i] == s;
    }
  }

  /** The decoder's state once the bits `all` are read. */
  ghost predicate Decoding(all: seq<Bit>, out: seq<Byte>, buf: Word, bits: nat) {
    && 8 * |out| + bits == |all|
    && (forall k :: 0 <= k < bits ==> BitOf(buf, k) == At(all, |all| - 1 - k))
    && forall j :: 0 <= j < |out| ==> out[j] == ByteAt(all, j)
  }

  lemma {:induction false} OlderBits(all: seq<Bit>, more: seq<Bit>, start: nat, n: nat)
    requires start + n <= |all| <= |more| && more[..|all|] == all
    ensures Gather(more, start, n) == Gather(all, start, n)
    decreases n
  {
    if n > 0 {
      OlderBits(all, more, start, n - 1);
      assert more[..|all|][start + n - 1] == all[start + n - 1];
    }
  }

  lemma OneMore(qs: seq<Quint>, q: Quint)
    ensures QuintBits(qs + [q])[..5 * |qs|] == QuintBits(qs)
    ensures forall k :: 0 <= k < 5 ==> At(QuintBits(qs + [q]), 5 * |qs| + 4 - k) == BitOf(q, k)
  {
    forall k | 0 <= k < 5 ensures At(QuintBits(qs + [q]), 5 * |qs| + 4 - k) == BitOf(q, k) {
      assert (5 * |qs| + 4 - k) / 5 == |qs| && (5 * |qs| + 4 - k) % 5 == 4 - k;
    }
  }

  lemma ReadQuint(all: seq<Bit>, more: seq<Bit>, out: seq<Byte>, buf: Word, bits: nat, q: Quint)
    requires Decoding(all, out, buf, bits) && bits < 8
    requires |more| == |all| + 5 && more[..|all|] == all
    requires forall k :: 0 <= k < 5 ==> At(more, |all| + 4 - k) == BitOf(q, k)
    ensures ShiftLeft(buf, 5) + q < 0x1_0000_0000
    ensures Decoding(more, out, ShiftLeft(buf, 5) + q, bits + 5)
  {
    Room(buf);
    Powers();
    var next := ShiftLeft(buf, 5) + q;
    forall k | 0 <= k < bits + 5 ensures BitOf(next, k) == At(more, |all| + 4 - k) {
      ShiftIn(buf, 5, q, k);
      if k >= 5 {
        assert BitOf(buf, k - 5) == At(all, |all| - 1 - (k - 5));
        assert more[..|all|][|all| + 4 - k] == all[|all| + 4 - k];
      }
    }
    forall j | 0 <= j < |out| ensures out[j] == ByteAt(more, j) {
      OlderBits(all, more, 8 * j, 8);
    }
  }

  lemma WriteByte(all: seq<Bit>, out: seq<Byte>, buf: Word, bits: nat)
    requires Decoding(all, out, buf, bits) && bits >= 8
    ensures Decoding(all, out + [ShiftRight(buf, bits - 8) % 256], buf, bits - 8)
  {
    var y := ShiftRight(buf, bits - 8);
    forall k | 0 <= k < 8 ensures BitOf(y, k) == At(all, 8 * |out| + 7 - k) {
      ShiftOut(buf, bits - 8, k);
    }
    Masked(y, 8, all, 8 * |out|);
    Powers();
  }

  lemma OneSymbol(read: string, c: char)
    ensures Symbols(read + [c]) ==
      if Symbols(read).None? then None
      else if Skipped(c) then Symbols(read)
      else if IndexOf(c).None? then None
      else Some(Symbols(read).value + [IndexOf(c).value])
  {
    assert (read + [c])[..|read|] == read;
  }

  /** One symbol read, and a byte written out when eight bits are there. */
  lemma ReadThenWrite(all: seq<Bit>, more: seq<Bit>, out: seq<Byte>, buf: Word, bits: nat, q: Quint)
    requires Decoding(all, out, buf, bits) && bits < 8
    requires |more| == |all| + 5 && more[..|all|] == all
    requires forall k :: 0 <= k < 5 ==> At(more, |all| + 4 - k) == BitOf(q, k)
    ensures ShiftLeft(buf, 5) + q < 0x1_0000_0000
    ensures
      var next: Word := ShiftLeft(buf, 5) + q;
      if bits + 5 < 8 then Decoding(more, out, next, bits + 5)
      else Decoding(more, out + [ShiftRight(next, bits + 5 - 8) % 256], next, bits + 5 - 8)
  {
    ReadQuint(all, more, out, buf, bits, q);
    if bits + 5 >= 8 {
      WriteByte(more, out, ShiftLeft(buf, 5) + q, bits + 5);
    }
  }

  /** The loop invariant: the characters `read` hold the symbols `qs`. */
  ghost predicate Reading(read: string, qs: seq<Quint>, out: seq<Byte>, buf: Word, bits: nat) {
    Symbols(read) == Some(qs) && bits < 8 && Decoding(QuintBits(qs), out, buf, bits)
  }

  lemma SkipOne(read: string, c: char, qs: seq<Quint>, out: seq<Byte>, buf: Word, bits: nat)
    requires Reading(read, qs, out, buf, bits) && Skipped(c)
    ensures Reading(read + [c], qs, out, buf, bits)
  {
    OneSymbol(read, c);
  }

  lemma ReadOne(read: string, c: char, qs: seq<Quint>, out: seq<Byte>, buf: Word, bits: nat, q: Quint)
    requires Reading(read, qs, out, buf, bits) && !Skipped(c) && IndexOf(c) == Some(q)
    ensures ShiftLeft(buf, 5) + q < 0x1_0000_0000
    ensures
      var next: Word := ShiftLeft(buf, 5) + q;
      if bits + 5 < 8 then Reading(read + [c], qs + [q], out, next, bits + 5)
      else Reading(read + [c], qs + [q], out + [ShiftRight(next, bits + 5 - 8) % 256], next, bits + 5 - 8)
  {
    OneSymbol(read, c);
    OneMore(qs, q);
    ReadThenWrite(QuintBits(qs), QuintBits(qs + [q]), out, buf, bits, q);
  }

  lemma AllDecoded(s: string, qs: seq<Quint>, out: seq<Byte>, buf: Word, bits: nat)
    requires Reading(s, qs, out, buf, bits)
    ensures DecodeText(s) == if out == [] then Err("empty TOTP secret") else Ok(out)
  {
    assert out == Chunk8(QuintBits(qs));
  }

  method Decode(s: string) returns (r: Result<seq<Byte>, string>)
    ensures r == DecodeText(s)
  {
    var buf: Word, bits: nat := 0, 0;
    var out: seq<Byte> := [];
    ghost var qs: seq<Quint> := [];
    for i := 0 to |s|
      invariant Reading(s[..i], qs, out, buf, bits)
    {
      ghost var read := s[..i];
      assert s[..i + 1] == read + [s[i]];
      if Skipped(s[i]) {
        SkipOne(read, s[i], qs, out, buf, bits);
      } else {
        var val := IndexOf(s[i]);
        if val.None? {
          OneSymbol(read, s[i]);
          InvalidStays(s, i + 1);
          return Err("invalid base32 in TOTP secret");
        }
        ReadOne(read, s[i], qs, out, buf, bits, val.value);
        qs := qs + [val.value];
        buf := ShiftLeft(buf, 5) + val.value;
        bits := bits + 5;
        if bits >= 8 {
          bits := bits - 8;
          out := out + [ShiftRight(buf, bits) % 256];
        }
      }
    }
    assert s[..|s|] == s;
    AllDecoded(s, qs, out, buf, bits);
    if out == [] {
      return Err("empty TOTP secret");
    }
    return Ok(out);
  }

  // -- What the decoder overlooks and what it refuses ------------------------------------------

  /** A character outside the alphabet in either case that is neither padding nor white space. */
  predicate Foreign(c: char) {
    !('A' <= c <= 'Z') && !('a' <= c <= 'z') && !('2' <= c <= '7') && c != '=' && !White(c)
  }

  /** A text is refused as invalid exactly when it holds a foreign character. */
  lemma {:induction false} InvalidIff(s: string)
    ensures Symbols(s).None? <==> exists i :: 0 <= i < |s| && Foreign(s[i])
  {
    if s != [] {
      var front := s[..|s| - 1];
      InvalidIff(front);
      assert forall i :: 0 <= i < |front| ==> front[i] == s[i];
    }
  }

  /** Padding and white space make no difference, wherever they stand. */
  lemma {:induction false} FillersIgnored(a: string, c: char, b: string)
    requires c == '=' || White(c)
    ensures Symbols(a + [c] + b) == Symbols(a + b)
    decreases |b|
  {
    if b == [] {
      assert a + [c] + b == a + [c] && a + b == a;
      OneSymbol(a, c);
    } else {
      var front, last := b[..|b| - 1], b[|b| - 1];
      FillersIgnored(a, c, front);
      OneSymbol(a + [c] + front, last);
      OneSymbol(a + front, last);
      assert a + [c] + front + [last] == a + [c] + b && a + front + [last] == a + b;
    }
  }

  function Lower(c: char): char {
    if 'A' <= c <= 'Z' then (c as int + 32) as char else c
  }

  function Lowered(s: string): (t: string)
    ensures |t| == |s|
  {
    seq(|s|, i requires 0 <= i < |s| => Lower(s[i]))
  }

  lemma LowerSame(c: char)
    ensures IndexOf(Lower(c)) == IndexOf(c) && Skipped(Lower(c)) == Skipped(c)
  {
  }

  /** Nor does the case of letters. */
  lemma {:induction false} CaseIgnored(s: string)
    ensures Symbols(Lowered(s)) == Symbols(s)
  {
    if s != [] {
      CaseIgnored(s[..|s| - 1]);
      LowerSame(s[|s| - 1]);
      assert Lowered(s)[..|s| - 1] == Lowered(s[..|s| - 1]);
    }
  }

  /** So every such text decodes as the one without, and a text is an error exactly when it holds a foreign
      character or fewer than two symbols. */
  lemma DecodingIgnores(a: string, c: char, b: string)
    requires c == '=' || White(c)
    ensures DecodeText(a + [c] + b) == DecodeText(a + b)
    ensures DecodeText(Lowered(a)) == DecodeText(a)
    ensures DecodeText(a).Ok? <==>
      (forall i :: 0 <= i < |a| ==> !Foreign(a[i])) && Symbols(a).Some? && |Symbols(a).value| >= 2
  {
    FillersIgnored(a, c, b);
    CaseIgnored(a);
    InvalidIff(a);
  }

  // -- Numbers inside a byte string ----------------------------------------------------------

  /** Reading on by eight bits. */
  lemma {:induction false} GatherMore(bits: seq<Bit>, start: nat, n: nat, m: nat)
    ensures Gather(bits, start, n + m) == Pow2(m) * Gather(bits, start, n) + Gather(bits, start + n, m)
    decreases m
  {
    if m > 0 {
      GatherMore(bits, start, n, m - 1);
      TwiceOf(Pow2(m - 1), Gather(bits, start, n));
    }
  }

  lemma TwiceOf(p: int, g: int)
    ensures (2 * p) * g == 2 * (p * g)
  {
  }

  /** The last `w` bits of a byte. */
  lemma LowOfByte(data: seq<Byte>, i: nat, w: nat, start: nat)
    requires i < |data| && w <= 8 && start + w == 8 * i + 8
    ensures Gather(ByteBits(data), start, w) == data[i] % Pow2(w)
  {
    forall k | 0 <= k < 8 ensures At(ByteBits(data), 8 * i + 7 - k) == BitOf(data[i], k) {
      BitOfByte(data, i, k);
    }
    LowFromBits(data[i], ByteBits(data), i, w, start);
  }

  lemma LowFromBits(b: Byte, bits: seq<Bit>, i: nat, w: nat, start: nat)
    requires w <= 8 && start + w == 8 * i + 8
    requires forall k :: 0 <= k < 8 ==> At(bits, 8 * i + 7 - k) == BitOf(b, k)
    ensures Gather(bits, start, w) == b % Pow2(w)
  {
    forall k | 0 <= k < w ensures BitOf(b, k) == At(bits, start + w - 1 - k) {
      assert start + w - 1 - k == 8 * i + 7 - k;
    }
    Masked(b, w, bits, start);
  }

  // -- The round trip --------------------------------------------------------------------

  lemma {:induction false} SymbolsOfText(qs: seq<Quint>)
    ensures Symbols(Text(qs)) == Some(qs)
  {
    if qs != [] {
      var front, last := qs[..|qs| - 1], qs[|qs| - 1];
      SymbolsOfText(front);
      AlphabetInverse(last);
      assert Text(qs)[..|qs| - 1] == Text(front);
      assert front + [last] == qs;
    }
  }

  /** Writing out five-bit groups as bits gives the input bits back, followed by zeros. */
  lemma BitsOfChunks(bits: seq<Bit>, k: nat)
    requires k < 5 * |Chunk5(bits)|
    ensures QuintBits(Chunk5(bits))[k] == At(bits, k)
  {
    GatherBit(bits, 5 * (k / 5), 5, 4 - k % 5);
  }

  lemma BitBack(data: seq<Byte>, i: nat, k: nat)
    requires i < |data| && k < 8
    ensures BitOf(data[i], k) == At(QuintBits(Chunk5(ByteBits(data))), 8 * i + 7 - k)
  {
    BitsOfChunks(ByteBits(data), 8 * i + 7 - k);
    BitOfByte(data, i, k);
  }

  lemma ByteFromBits(b: Byte, bits: seq<Bit>, i: nat)
    requires forall k :: 0 <= k < 8 ==> BitOf(b, k) == At(bits, 8 * i + 7 - k)
    ensures ByteAt(bits, i) == b
  {
    Masked(b, 8, bits, 8 * i);
    Powers();
  }

  lemma ByteBack(data: seq<Byte>, i: nat)
    requires i < |data|
    ensures ByteAt(QuintBits(Chunk5(ByteBits(data))), i) == data[i]
  {
    var back := QuintBits(Chunk5(ByteBits(data)));
    forall k | 0 <= k < 8 ensures BitOf(data[i], k) == At(back, 8 * i + 7 - k) {
      BitBack(data, i, k);
    }
    ByteFromBits(data[i], back, i);
  }

  /** Decoding undoes encoding on every non-empty byte string; the empty one encodes to a text the
      decoder refuses. */
  lemma DecodeUndoesEncode(data: seq<Byte>)
    ensures DecodeText(Text(Chunk5(ByteBits(data)))) ==
      if data == [] then Err("empty TOTP secret") else Ok(data)
  {
    var qs := Chunk5(ByteBits(data));
    SymbolsOfText(qs);
    forall i | 0 <= i < |data| ensures ByteAt(QuintBits(qs), i) == data[i] {
      ByteBack(data, i);
    }
    assert data != [] ==> Chunk8(QuintBits(qs)) == data;
  }

  /** Different byte strings never share an encoding. */
  lemma EncodeInjective(a: seq<Byte>, b: seq<Byte>)
    requires Text(Chunk5(ByteBits(a))) == Text(Chunk5(ByteBits(b)))
    ensures a == b
  {
    DecodeUndoesEncode(a);
    DecodeUndoesEncode(b);
  }
}
