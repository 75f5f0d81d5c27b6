/**
 Time-based one-time codes (RFC 6238 over RFC 4226): the client's code generator and verifier, the
 server's own copy of both, and how long a shown code stays the current one.

 The keyed hash is a parameter: any function from the 64-bit counter to at least twenty bytes.
 */
module Totp {
  import opened Basics
  import opened Base32

  type Mac = f: nat -> seq<Byte> | forall c :: |f(c)| >= 20 witness (c: nat) => seq(20, i => 0)

  type Text = seq<bv8>

  // -- Codes -----------------------------------------------------------------------------

  /** Dynamic truncation, section 5.3 of RFC 4226: every byte read lies inside the digest. */
  function Truncated(digest: seq<Byte>): (bin: nat)
    requires |digest| >= 20
    ensures bin < 0x8000_0000
  {
    var offset: nat := digest[|digest| - 1] % 16;
    var b0: nat, b1: nat, b2: nat, b3: nat :=
      digest[offset] % 128, digest[offset + 1], digest[offset + 2], digest[offset + 3];
    b0 * 0x100_0000 + b1 * 0x1_0000 + b2 * 0x100 + b3
  }

  function Pow10(n: nat): (p: nat)
    ensures p >= 1
  {
    if n == 0 then 1 else 10 * Pow10(n - 1)
  }

  type Digit = x: int | 0 <= x < 10

  /** Decimal digits, at least one of them. */
  function Decimal(n: nat): seq<Digit> {
    if n < 10 then [n] else Decimal(n / 10) + [n % 10]
  }

  function Zeros(n: nat): (zs: seq<Digit>)
    ensures |zs| == n
  {
    seq(n, i => 0)
  }

  /** Zero padding to a minimum width. */
  function Padded(n: nat, width: nat): seq<Digit> {
    var ds := Decimal(n);
    if |ds| >= width then ds else Zeros(width - |ds|) + ds
  }

  function NumberOf(ds: seq<Digit>): nat {
    if ds == [] then 0 else 10 * NumberOf(ds[..|ds| - 1]) + ds[|ds| - 1]
  }

  const ASCII_DIGITS: Text := [48, 49, 50, 51, 52, 53, 54, 55, 56, 57]

  function Printed(ds: seq<Digit>): (t: Text)
    ensures |t| == |ds|
  {
    seq(|ds|, i requires 0 <= i < |ds| => ASCII_DIGITS[ds[i]])
  }

  const U32: nat := 0x1_0000_0000

  /** How 32-bit arithmetic that overflows ends: in a panic, or in the wrapped value. */
  datatype Build = Checked | Wrapping

  /** 10^digits as 32 bits hold it. */
  function Modulus(digits: nat): nat {
    Pow10(digits) % U32
  }

  /** Neither does 10^digits overflow where that panics, nor is the remainder taken by zero. */
  predicate Computes(b: Build, digits: nat) {
    if b.Checked? then Pow10(digits) < U32 else Modulus(digits) != 0
  }

  /** The number a code shows: the truncated digest, reduced by the modulus. */
  function CodeNumber(mac: Mac, digits: nat, counter: nat): nat {
    if Modulus(digits) == 0 then 0 else Truncated(mac(counter)) % Modulus(digits)
  }

  function CodeOf(mac: Mac, digits: nat, counter: nat): Text {
    Printed(Padded(CodeNumber(mac, digits, counter), digits))
  }

  /** `None` where the source panics. */
  function CodeAt(b: Build, mac: Mac, period: nat, digits: nat, unix: nat): Option<Text> {
    if period == 0 || !Computes(b, digits) then None
    else Some(CodeOf(mac, digits, unix / period))
  }

  lemma {:induction false} DecimalWidth(n: nat, w: nat)
    requires n < Pow10(w) && w >= 1
    ensures 1 <= |Decimal(n)| <= w && NumberOf(Decimal(n)) == n
    decreases w
  {
    if n >= 10 {
      DecimalWidth(n / 10, w - 1);
      assert Decimal(n)[..|Decimal(n)| - 1] == Decimal(n / 10);
    } else {
      assert Decimal(n)[..0] == [];
    }
  }

  lemma {:induction false} LeadingZeros(k: nat, ds: seq<Digit>)
    ensures NumberOf(Zeros(k) + ds) == NumberOf(ds)
    decreases k + |ds|
  {
    var all := Zeros(k) + ds;
    if ds != [] {
      LeadingZeros(k, ds[..|ds| - 1]);
      assert all[..|all| - 1] == Zeros(k) + ds[..|ds| - 1];
    } else if k > 0 {
      LeadingZeros(k - 1, []);
      assert all[..|all| - 1] == Zeros(k - 1) + [];
    }
  }

  lemma {:induction false} Pow10Grows(n: nat, m: nat)
    requires n <= m
    ensures Pow10(n) <= Pow10(m)
    decreases m
  {
    if n < m {
      Pow10Grows(n, m - 1);
    }
  }

  lemma Pow10Fits(n: nat)
    ensures Pow10(n) < 0x1_0000_0000 <==> n <= 9
  {
    assert Pow10(9) == 1_000_000_000 && Pow10(10) == 10_000_000_000;
    if n <= 9 {
      Pow10Grows(n, 9);
    } else {
      Pow10Grows(10, n);
    }
  }

  /** Ten to the n is two to the n times an odd number. */
  lemma {:induction false} OddPart(n: nat) returns (m: nat)
    ensures Pow10(n) == Pow2(n) * (2 * m + 1)
  {
    if n == 0 {
      m := 0;
    } else {
      var k := OddPart(n - 1);
      m := 5 * k + 2;
      TenTimes(Pow2(n - 1), k);
    }
  }

  lemma TenTimes(p: int, k: int)
    ensures 10 * (p * (2 * k + 1)) == (2 * p) * (2 * (5 * k + 2) + 1)
  {
  }

  lemma {:induction false} Pow2Split(n: nat, m: nat)
    ensures Pow2(n + m) == Pow2(n) * Pow2(m)
    decreases m
  {
    if m > 0 {
      Pow2Split(n, m - 1);
    }
  }

  lemma Parity(p: int, m: int, r: int, q: int)
    requires p > 0
    ensures p * (2 * m + 1) != (p * (2 * r)) * q
  {
    var d := 2 * m + 1 - 2 * (r * q);
    assert d != 0;
    Times(d, p);
    assert p * (2 * m + 1) - (p * (2 * r)) * q == d * p;
  }

  lemma PowU32()
    ensures Pow2(32) == U32
  {
    Powers();
    assert Pow2(32) == 2 * Pow2(31);
  }

  lemma ModulusNotZero(n: nat)
    requires n < 32
    ensures Modulus(n) != 0
  {
    var m := OddPart(n);
    Pow2Split(n, 32 - n);
    PowU32();
    var p, r, q := Pow2(n), Pow2(31 - n), Pow10(n) / U32;
    assert Pow2(32 - n) == 2 * r;
    Parity(p, m, r, q);
  }

  lemma {:induction false} ModulusZero(n: nat)
    requires n >= 32
    ensures Modulus(n) == 0
  {
    if n == 32 {
      var m := OddPart(32);
      PowU32();
      assert Pow10(32) == (2 * m + 1) * U32 + 0;
      Rest(2 * m + 1, U32, 0);
    } else {
      ModulusZero(n - 1);
    }
  }

  lemma ComputesIff(b: Build, digits: nat)
    ensures Computes(b, digits) <==> digits <= if b.Checked? then 9 else 31
    ensures digits <= 9 ==> Modulus(digits) == Pow10(digits)
    ensures Computes(b, digits) ==> 0 < Modulus(digits) <= Pow10(digits)
  {
    Pow10Fits(digits);
    if digits < 32 {
      ModulusNotZero(digits);
    } else {
      ModulusZero(digits);
    }
  }

  /** The wrapped modulus shows the wrong number for exactly the digests that reach it. */
  lemma WrappedCodeIff(bin: nat, digits: nat)
    requires bin < 0x8000_0000 && digits < 32
    ensures Modulus(digits) > 0
    ensures bin % Modulus(digits) == bin % Pow10(digits) <==> digits <= 9 || bin < Modulus(digits)
  {
    ComputesIff(Wrapping, digits);
    if digits >= 10 {
      Pow10Grows(10, digits);
      assert Pow10(10) == 10_000_000_000;
      Small(bin, Pow10(digits));
      if bin < Modulus(digits) {
        Small(bin, Modulus(digits));
      }
    }
  }

  lemma Small(x: nat, m: nat)
    requires x < m
    ensures x % m == x
  {
  }

  lemma PaddedShape(n: nat, width: nat)
    requires n < Pow10(width)
    ensures |Padded(n, width)| == Max(width, 1) && NumberOf(Padded(n, width)) == n
  {
    DecimalWidth(n, Max(width, 1));
    var ds := Decimal(n);
    if |ds| < width {
      LeadingZeros(width - |ds|, ds);
    }
  }

  /** The text spells this number in decimal. */
  ghost predicate Spells(code: Text, n: nat) {
    exists ds :: code == Printed(ds) && NumberOf(ds) == n
  }

  lemma CodeSpells(b: Build, mac: Mac, digits: nat, counter: nat)
    requires Computes(b, digits)
    ensures Modulus(digits) > 0 && |CodeOf(mac, digits, counter)| == Max(digits, 1)
    ensures Spells(CodeOf(mac, digits, counter), Truncated(mac(counter)) % Modulus(digits))
  {
    ComputesIff(b, digits);
    PaddedShape(CodeNumber(mac, digits, counter), digits);
  }

  /** A code is shown exactly when the parameters are in range for the build, it has exactly `digits`
      characters exactly when at least one was asked for, and it spells the truncated digest modulo what
      10^digits is in 32 bits, which for up to nine digits is 10^digits. */
  lemma CodeShape(b: Build, mac: Mac, period: nat, digits: nat, unix: nat)
    ensures CodeAt(b, mac, period, digits, unix).Some? <==> period > 0 && digits <= if b.Checked? then 9 else 31
    ensures CodeAt(b, mac, period, digits, unix).Some? ==>
      && Modulus(digits) > 0
      && |CodeAt(b, mac, period, digits, unix).value| == Max(digits, 1)
      && Spells(CodeAt(b, mac, period, digits, unix).value, Truncated(mac(unix / period)) % Modulus(digits))
  {
    ComputesIff(b, digits);
    if CodeAt(b, mac, period, digits, unix).Some? {
      CodeSpells(b, mac, digits, unix / period);
    }
  }

  // -- What is truncated --------------------------------------------------------------------

  /** The last four bits of the digest name a byte. */
  function OffsetOf(digest: seq<Byte>): nat
    requires |digest| >= 20
  {
    Gather(ByteBits(digest), 8 * |digest| - 4, 4)
  }

  lemma OffsetByte(digest: seq<Byte>)
    requires |digest| >= 20
    ensures OffsetOf(digest) == digest[|digest| - 1] % 16
  {
    LowOfByte(digest, |digest| - 1, 4, 8 * |digest| - 4);
    assert Pow2(4) == 16;
  }

  lemma SevenBits(digest: seq<Byte>, i: nat)
    requires i < |digest|
    ensures Gather(ByteBits(digest), 8 * i + 1, 7) == digest[i] % 128
  {
    LowOfByte(digest, i, 7, 8 * i + 1);
    assert Pow2(7) == 128;
  }

  lemma NextByte(digest: seq<Byte>, start: nat, n: nat, i: nat)
    requires i < |digest| && start + n == 8 * i
    ensures Gather(ByteBits(digest), start, n + 8) == 256 * Gather(ByteBits(digest), start, n) + digest[i]
  {
    WholeByte(digest, i);
    NextEight(ByteBits(digest), start, n, digest[i]);
  }

  lemma WholeByte(digest: seq<Byte>, i: nat)
    requires i < |digest|
    ensures Gather(ByteBits(digest), 8 * i, 8) == digest[i]
  {
    LowOfByte(digest, i, 8, 8 * i);
    WholeMod(digest[i]);
  }

  lemma WholeMod(b: Byte)
    ensures b % Pow2(8) == b
  {
    Powers();
  }

  lemma NextEight(bits: seq<Bit>, start: nat, n: nat, b: int)
    requires Gather(bits, start + n, 8) == b
    ensures Gather(bits, start, n + 8) == 256 * Gather(bits, start, n) + b
  {
    GatherMore(bits, start, n, 8);
    Powers();
  }

  /** Dynamic truncation reads the 31 bits after the top bit of the byte that the last four bits of the
      digest name (section 5.3 of RFC 4226). */
  lemma TruncatedBits(digest: seq<Byte>)
    requires |digest| >= 20
    ensures Truncated(digest) == Gather(ByteBits(digest), 8 * OffsetOf(digest) + 1, 31)
  {
    OffsetByte(digest);
    var o: nat := digest[|digest| - 1] % 16;
    TruncatedAt(digest, o);
  }

  lemma TruncatedAt(digest: seq<Byte>, o: nat)
    requires |digest| >= 20 && o == digest[|digest| - 1] % 16
    ensures Truncated(digest) == Gather(ByteBits(digest), 8 * o + 1, 31)
  {
    SevenBits(digest, o);
    NextByte(digest, 8 * o + 1, 7, o + 1);
    NextByte(digest, 8 * o + 1, 15, o + 2);
    NextByte(digest, 8 * o + 1, 23, o + 3);
  }

  // -- What is printed and typed -------------------------------------------------------------

  /** The characters of a code are the ASCII digits. */
  lemma PrintedAscii(ds: seq<Digit>, i: nat)
    requires i < |ds|
    ensures Printed(ds)[i] as int == '0' as int + ds[i]
  {
    var d := ds[i];
    assert d == 0 || d == 1 || d == 2 || d == 3 || d == 4 || d == 5 || d == 6 || d == 7 || d == 8 || d == 9;
  }

  function DigitChar(d: Digit): char {
    ('0' as int + d) as char
  }

  function Shown(ds: seq<Digit>): (s: string)
    ensures |s| == |ds|
  {
    seq(|ds|, i requires 0 <= i < |ds| => DigitChar(ds[i]))
  }

  lemma DigitBytes(d: Digit)
    ensures Utf8Char(DigitChar(d)) == [ASCII_DIGITS[d]]
  {
    assert d == 0 || d == 1 || d == 2 || d == 3 || d == 4 || d == 5 || d == 6 || d == 7 || d == 8 || d == 9;
  }

  lemma {:induction false} ShownBytes(ds: seq<Digit>)
    ensures Utf8(Shown(ds)) == Printed(ds)
  {
    if ds != [] {
      var front, last := ds[..|ds| - 1], ds[|ds| - 1];
      ShownBytes(front);
      DigitBytes(last);
      assert Shown(ds)[..|ds| - 1] == Shown(front);
    }
  }

  /** A code typed as its digits, with any white space around it, is what the verifier compares. */
  lemma TypedCode(before: string, ds: seq<Digit>, after: string)
    requires ds != []
    requires forall i :: 0 <= i < |before| ==> White(before[i])
    requires forall i :: 0 <= i < |after| ==> White(after[i])
    ensures Typed(before + Shown(ds) + after) == Printed(ds)
  {
    var core := Shown(ds);
    assert core[0] == DigitChar(ds[0]) && core[|core| - 1] == DigitChar(ds[|ds| - 1]);
    TrimAround(before, core, after);
    ShownBytes(ds);
  }

  // -- Comparison ------------------------------------------------------------------------

  lemma NoDifference(diff: bv8, x: bv8, y: bv8)
    ensures diff | (x ^ y) == 0 <==> diff == 0 && x == y
  {
  }

  /** The comparison that looks at every byte decides equality. */
  method ConstantTimeEq(a: Text, b: Text) returns (same: bool)
    ensures same <==> a == b
  {
    if |a| != |b| {
      return false;
    }
    var diff: bv8 := 0;
    for i := 0 to |a|
      invariant diff == 0 <==> a[..i] == b[..i]
    {
      NoDifference(diff, a[i], b[i]);
      assert a[..i + 1] == a[..i] + [a[i]] && b[..i + 1] == b[..i] + [b[i]];
      diff := diff | (a[i] ^ b[i]);
    }
    assert a[..|a|] == a && b[..|b|] == b;
    return diff == 0;
  }

  // -- Verification ----------------------------------------------------------------------

  /** The bytes of a typed code, without the white space around it. */
  function Typed(code: string): Text {
    Utf8(Trim(code))
  }

  /** The three counters a verifier should accept, section 5.2 of RFC 6238: the current one and one
      step to each side, none below zero. */
  function Window(counter: nat): set<nat> {
    {Max(counter - 1, 0), counter, counter + 1}
  }

  lemma DivShift(t: nat, p: nat)
    requires p > 0
    ensures (t + p) / p == t / p + 1
    ensures t >= p ==> t / p >= 1 && (t - p) / p == t / p - 1
    ensures t < p ==> t / p == 0
  {
    Quotient(t / p + 1, p, t % p);
    assert t == (t / p) * p + t % p;
    assert (t / p + 1) * p == (t / p) * p + p;
    if t >= p {
      Quotient(t / p - 1, p, t % p);
      assert (t / p - 1) * p == (t / p) * p - p;
      Times(1 - t / p, p);
    } else {
      Quotient(0, p, t);
    }
  }

  lemma Quotient(q: int, m: int, r: int)
    requires 0 <= r < m
    ensures (q * m + r) / m == q
  {
    var x := q * m + r;
    var y, z := x / m, x % m;
    assert x == m * y + z;
    assert (q - y) * m == z - r;
    Times(q - y, m);
  }

  predicate Accepts(mac: Mac, digits: nat, code: string, counters: set<nat>) {
    exists c :: c in counters && Typed(code) == CodeOf(mac, digits, c)
  }

  function CodesOf(mac: Mac, digits: nat, counters: seq<nat>): (codes: seq<Text>)
    ensures |codes| == |counters|
  {
    seq(|counters|, i requires 0 <= i < |counters| => CodeOf(mac, digits, counters[i]))
  }

  lemma AcceptsCodes(mac: Mac, digits: nat, code: string, counters: seq<nat>)
    ensures Typed(code) in CodesOf(mac, digits, counters) <==>
      Accepts(mac, digits, code, set c | c in counters)
  {
    var codes, typed := CodesOf(mac, digits, counters), Typed(code);
    if typed in codes {
      var i :| 0 <= i < |codes| && codes[i] == typed;
      assert counters[i] in counters;
    }
    if Accepts(mac, digits, code, set c | c in counters) {
      var c :| c in (set c | c in counters) && typed == CodeOf(mac, digits, c);
      var i :| 0 <= i < |counters| && counters[i] == c;
      assert codes[i] == typed;
    }
  }

  /** The search both verifiers run over the candidate codes. */
  method AnyMatch(codes: seq<Text>, typed: Text) returns (found: bool)
    ensures found <==> typed in codes
  {
    for i := 0 to |codes|
      invariant typed !in codes[..i]
    {
      found := ConstantTimeEq(codes[i], typed);
      if found {
        return;
      }
    }
    return false;
  }

  function ClientCounters(unix: nat, period: nat): seq<nat>
    requires period > 0
  {
    [Max(unix - period, 0) / period, unix / period, (unix + period) / period]
  }

  lemma ClientWindow(unix: nat, period: nat)
    requires period > 0
    ensures (set c | c in ClientCounters(unix, period)) == Window(unix / period)
  {
    DivShift(unix, period);
  }

  lemma ClientAccepts(mac: Mac, digits: nat, code: string, unix: nat, period: nat)
    requires period > 0
    ensures Typed(code) in CodesOf(mac, digits, ClientCounters(unix, period)) <==>
      Accepts(mac, digits, code, Window(unix / period))
  {
    AcceptsCodes(mac, digits, code, ClientCounters(unix, period));
    ClientWindow(unix, period);
  }

  /** `t` is a time at most one period away from `unix`, and `c` its counter. */
  predicate Near(unix: nat, period: nat, t: nat, c: nat)
    requires period > 0
  {
    unix - period <= t <= unix + period && t / period == c
  }

  lemma DivOrdered(a: nat, b: nat, p: nat)
    requires p > 0 && a <= b
    ensures a / p <= b / p
  {
    var x, y := a / p, b / p;
    assert a == x * p + a % p && b == y * p + b % p;
    assert (x - y) * p == b % p - a % p + a - b;
    Times(x - y, p);
  }

  /** The counters accepted are exactly those of the times at most one period away. */
  lemma WindowIff(unix: nat, period: nat, c: nat)
    requires period > 0
    ensures c in Window(unix / period) <==> exists t: nat :: Near(unix, period, t, c)
  {
    DivShift(unix, period);
    var low: nat := Max(unix - period, 0);
    assert low / period == Max(unix / period - 1, 0);
    assert Near(unix, period, low, low / period) && Near(unix, period, unix, unix / period);
    assert Near(unix, period, unix + period, unix / period + 1);
    if exists t: nat :: Near(unix, period, t, c) {
      var t: nat :| Near(unix, period, t, c);
      DivOrdered(low, t, period);
      DivOrdered(t, unix + period, period);
    }
  }

  /** The client's verifier: a time before the epoch is taken as the epoch. Out-of-range parameters
      panic in the source. */
  method VerifyAt(b: Build, mac: Mac, period: nat, digits: nat, code: string, unix: nat) returns (r: Option<bool>)
    requires unix + period < 0x8000_0000_0000_0000
    ensures r.Some? <==> period > 0 && digits <= if b.Checked? then 9 else 31
    ensures r.Some? ==> (r.value <==> Accepts(mac, digits, code, Window(unix / period)))
  {
    ComputesIff(b, digits);
    if period == 0 || !Computes(b, digits) {
      return None;
    }
    var codes := CodesOf(mac, digits, ClientCounters(unix, period));
    var found := AnyMatch(codes, Typed(code));
    ClientAccepts(mac, digits, code, unix, period);
    return Some(found);
  }

  // -- The server's copy -----------------------------------------------------------------

  /** Division that rounds toward zero. */
  function TruncDiv(a: int, b: int): int
    requires b > 0
  {
    if a >= 0 then a / b else -((-a) / b)
  }

  /** The counter of the server's generator: a signed quotient reinterpreted as unsigned. */
  function ServerCounter(unix: int): nat
    requires -0x8000_0000_0000_0000 <= unix < 0x8000_0000_0000_0000
  {
    TruncDiv(unix, 30) % 0x1_0000_0000_0000_0000
  }

  function ServerCounters(unix: nat): seq<nat>
    requires unix + 30 < 0x8000_0000_0000_0000
  {
    [ServerCounter(unix - 30), ServerCounter(unix), ServerCounter(unix + 30)]
  }

  function ServerWindow(unix: nat): set<nat>
    requires unix + 30 < 0x8000_0000_0000_0000
  {
    set c | c in ServerCounters(unix)
  }

  /** The server's verifier, fixed to six digits and thirty seconds. */
  method ServerVerify(mac: Mac, code: string, unix: nat) returns (ok: bool)
    requires unix + 30 < 0x8000_0000_0000_0000
    ensures ok <==> Accepts(mac, 6, code, ServerWindow(unix))
  {
    var counters := ServerCounters(unix);
    ok := AnyMatch(CodesOf(mac, 6, counters), Typed(code));
    AcceptsCodes(mac, 6, code, counters);
  }

  lemma CountersOfServer(unix: nat)
    requires unix + 30 < 0x8000_0000_0000_0000
    ensures ServerCounter(unix) == unix / 30 && ServerCounter(unix + 30) == unix / 30 + 1
    ensures ServerCounter(unix - 30) == if unix == 0 then 0xFFFF_FFFF_FFFF_FFFF else Max(unix / 30 - 1, 0)
  {
  }

  /** The two copies accept the same codes at every second after the epoch. At the epoch itself the
      server also takes the code of the last 64-bit counter. */
  lemma CopiesAgree(mac: Mac, code: string, unix: nat)
    requires unix + 30 < 0x8000_0000_0000_0000
    ensures Accepts(mac, 6, code, ServerWindow(unix)) <==>
      || Accepts(mac, 6, code, Window(unix / 30))
      || (unix == 0 && Typed(code) == CodeOf(mac, 6, 0xFFFF_FFFF_FFFF_FFFF))
  {
    CountersOfServer(unix);
    if unix == 0 {
      assert ServerWindow(0) == Window(0) + {0xFFFF_FFFF_FFFF_FFFF};
      assert 0xFFFF_FFFF_FFFF_FFFF in ServerWindow(0);
    } else {
      assert ServerWindow(unix) == Window(unix / 30);
    }
  }

  // -- Rollover --------------------------------------------------------------------------

  function RemainingMs(period: nat, unixMs: nat): (r: nat)
    requires period > 0
  {
    period * 1000 - unixMs % (period * 1000)
  }

  lemma NestedDiv(ms: nat, p: nat)
    requires p > 0
    ensures ms / 1000 / p == ms / (p * 1000)
  {
    var s, q, r := ms / 1000, ms / 1000 / p, ms / 1000 % p;
    assert s == q * p + r;
    assert ms == q * (p * 1000) + (r * 1000 + ms % 1000) by {
      assert (q * p) * 1000 == q * (p * 1000);
    }
    Quotient(q, p * 1000, r * 1000 + ms % 1000);
  }

  /** The shown time is exact: the counter, and with it the code, stays for every millisecond before
      it has passed and advances by one when it has. */
  lemma CodeHoldsUntilRollover(period: nat, ms: nat, d: nat)
    requires period > 0
    ensures 1 <= RemainingMs(period, ms) <= period * 1000
    ensures d < RemainingMs(period, ms) ==> (ms + d) / 1000 / period == ms / 1000 / period
    ensures d == RemainingMs(period, ms) ==> (ms + d) / 1000 / period == ms / 1000 / period + 1
  {
    var m := period * 1000;
    var q, r := ms / m, ms % m;
    assert ms == q * m + r;
    NestedDiv(ms, period);
    NestedDiv(ms + d, period);
    if d < m - r {
      Quotient(q, m, r + d);
    } else if d == m - r {
      assert (q + 1) * m == q * m + m;
      Quotient(q + 1, m, 0);
    }
  }
}
