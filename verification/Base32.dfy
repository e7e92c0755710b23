/** The two-factor secret: an unpadded base32 string decoded with a 32-bit shift register. */
module Base32 {
  import opened Basics
  import opened ByteStream

  const REGISTER := 0x1_0000_0000

  // ---------------------------------------------------------------------
  // Bits, most significant first
  // ---------------------------------------------------------------------

  type Bits = seq<bool>

  function Pow2(n: nat): (r: nat)
    ensures r > 0
  {
    if n == 0 then 1 else 2 * Pow2(n - 1)
  }

  function ToNat(b: Bits): (v: nat)
    ensures v < Pow2(|b|)
  {
    if b == [] then 0 else 2 * ToNat(b[..|b| - 1]) + if b[|b| - 1] then 1 else 0
  }

  function ToBits(v: nat, n: nat): (b: Bits)
    ensures |b| == n
  {
    if n == 0 then [] else ToBits(v / 2, n - 1) + [v % 2 == 1]
  }

  lemma {:induction false} ToNatOfBits(v: nat, n: nat)
    requires v < Pow2(n)
    ensures ToNat(ToBits(v, n)) == v
  {
    if n > 0 {
      ToNatOfBits(v / 2, n - 1);
      assert ToBits(v, n)[..n - 1] == ToBits(v / 2, n - 1);
    }
  }

  lemma {:induction false} ToBitsOfNat(b: Bits)
    ensures ToBits(ToNat(b), |b|) == b
  {
    if b != [] {
      var init := b[..|b| - 1];
      ToBitsOfNat(init);
      assert ToNat(b) / 2 == ToNat(init);
      assert b == init + [b[|b| - 1]];
    }
  }

  lemma {:induction false} PowAdd(a: nat, b: nat)
    ensures Pow2(a + b) == Pow2(a) * Pow2(b)
  {
    if a > 0 { PowAdd(a - 1, b); }
  }

  lemma ToNatSnoc(b: Bits)
    requires b != []
    ensures ToNat(b) == 2 * ToNat(b[..|b| - 1]) + if b[|b| - 1] then 1 else 0
    ensures Pow2(|b|) == 2 * Pow2(|b| - 1)
  {
  }

  lemma Scale(x: nat, p: nat, t: nat, last: nat)
    ensures 2 * (x * p + t) + last == x * (2 * p) + (2 * t + last)
  {
  }

  lemma {:induction false} ToNatAppend(a: Bits, b: Bits)
    ensures ToNat(a + b) == ToNat(a) * Pow2(|b|) + ToNat(b)
  {
    hide ToNat, Pow2;
    if b == [] {
      assert a + b == a;
      EmptyBits();
    } else {
      var init := b[..|b| - 1];
      ToNatAppend(a, init);
      assert (a + b)[..|a + b| - 1] == a + init;
      ToNatSnoc(a + b);
      ToNatSnoc(b);
      Scale(ToNat(a), Pow2(|init|), ToNat(init), if b[|b| - 1] then 1 else 0);
    }
  }

  lemma EmptyBits()
    ensures ToNat([]) == 0 && Pow2(0) == 1
  {
  }

  // ---------------------------------------------------------------------
  // The alphabet of section 6 of RFC 4648
  // ---------------------------------------------------------------------

  predicate IsSymbol(ch: char) { 'A' <= ch <= 'Z' || '2' <= ch <= '7' }

  function Symbol(v: nat): (ch: char)
    requires v < 32
    ensures IsSymbol(ch)
  {
    if v < 26 then ('A' as int + v) as char else ('2' as int + v - 26) as char
  }

  /** The value of a symbol as the decoder computes it: letters by their low five bits. */
  function SymbolValue(ch: char): (v: nat)
    requires IsSymbol(ch)
    ensures v < 32
  {
    if 'A' <= ch <= 'Z' then (ch as int) % 32 - 1 else ch as int - 24
  }

  lemma SymbolsDecode(v: nat)
    requires v < 32
    ensures SymbolValue(Symbol(v)) == v
  {
  }

  predicate Valid(s: string) { forall ch <- s :: IsSymbol(ch) }

  /** The concatenated 5-bit groups of a string. */
  function Groups(s: string): (b: Bits)
    requires Valid(s)
    ensures |b| == 5 * |s|
  {
    if s == "" then [] else Groups(s[..|s| - 1]) + ToBits(SymbolValue(s[|s| - 1]), 5)
  }

  /** The whole bytes a bit string starts with. */
  function BytesOf(b: Bits): (r: seq<Byte>)
    ensures |r| == |b| / 8
  {
    if |b| < 8 then [] else
      ToNatBound(b[..8]);
      [ToNat(b[..8])] + BytesOf(b[8..])
  }

  lemma ToNatBound(b: Bits)
    requires |b| == 8
    ensures ToNat(b) < 256
  {
    ByteSize();
  }

  // ---------------------------------------------------------------------
  // The decoder
  // ---------------------------------------------------------------------

  /** A symbol with anything else in it makes the whole key empty. */
  function Decoded(s: string): seq<Byte> {
    if Valid(s) then BytesOf(Groups(s)) else []
  }

  /** The register after shifting in a symbol: the low 32 bits of everything read so far. */
  lemma RegisterStep(register: nat, bits: Bits, v: nat)
    requires register == ToNat(bits) % REGISTER && v < 32
    ensures (register * 32) % REGISTER + v == ToNat(bits + ToBits(v, 5)) % REGISTER
  {
    assert Pow2(5) == 32;
    ToNatAppend(bits, ToBits(v, 5));
    ToNatOfBits(v, 5);
    ShiftIn(ToNat(bits), v);
  }

  lemma ShiftIn(n: nat, v: nat)
    requires v < 32
    ensures ((n % REGISTER) * 32) % REGISTER + v == (n * 32 + v) % REGISTER
  {
    var q, m := n / REGISTER, n % REGISTER;
    var a, b := m * 32 / REGISTER, m * 32 % REGISTER;
    assert b == 32 * (m - a * (REGISTER / 32));
    ModUnique(n * 32 + v, REGISTER, q * 32 + a, b + v);
  }

  /** The byte above the lowest l bits is still whole in the register: at most 12 bits are needed. */
  lemma ByteInRegister(p: nat, x: nat, t: nat, l: nat)
    requires l <= 4 && x < 256 && t < Pow2(l)
    ensures (((p * 256 + x) * Pow2(l) + t) % REGISTER / Pow2(l)) % 256 == x
  {
    assert Pow2(0) == 1 && Pow2(1) == 2 && Pow2(2) == 4 && Pow2(3) == 8 && Pow2(4) == 16;
    if l == 0 { Extract(p, x, t, 1); }
    else if l == 1 { Extract(p, x, t, 2); }
    else if l == 2 { Extract(p, x, t, 4); }
    else if l == 3 { Extract(p, x, t, 8); }
    else { Extract(p, x, t, 16); }
  }

  lemma Extract(p: nat, x: nat, t: nat, m: nat)
    requires (m == 1 || m == 2 || m == 4 || m == 8 || m == 16) && x < 256 && t < m
    ensures (((p * 256 + x) * m + t) % REGISTER / m) % 256 == x
  {
    var r := REGISTER / m;
    var y := p * 256 + x;
    ExtractParts(p, x, t, m, r, y / r, y % r);
  }

  lemma ExtractParts(p: nat, x: nat, t: nat, m: nat, r: nat, q: nat, low: nat)
    requires (m == 1 || m == 2 || m == 4 || m == 8 || m == 16) && r == REGISTER / m && x < 256 && t < m
    requires p * 256 + x == q * r + low && low < r
    ensures (((p * 256 + x) * m + t) % REGISTER / m) % 256 == x
  {
    Regroup(q, r, m, low, t);
    var v := low * m + t;
    ModUnique((p * 256 + x) * m + t, REGISTER, q, v);
    ModUnique(v, m, low, t);
    LowByte(p, x, q, r / 256, low);
  }

  lemma Regroup(q: nat, r: nat, m: nat, low: nat, t: nat)
    requires (m == 1 || m == 2 || m == 4 || m == 8 || m == 16) && r == REGISTER / m
    ensures (q * r + low) * m + t == q * REGISTER + (low * m + t)
    ensures low < r && t < m ==> low * m + t < REGISTER
    ensures (r / 256) * 256 == r > 0
  {
  }

  lemma LowByte(p: nat, x: nat, q: nat, k: nat, low: nat)
    requires p * 256 + x == q * (k * 256) + low && x < 256
    ensures low % 256 == x
  {
    assert q * (k * 256) == (q * k) * 256;
    ModUnique(low, 256, p - q * k, x);
  }

  lemma {:induction false} BytesOfSplit(a: Bits, b: Bits)
    requires |a| % 8 == 0
    ensures BytesOf(a + b) == BytesOf(a) + BytesOf(b)
    decreases |a|
  {
    if a == [] {
      assert a + b == b;
    } else {
      assert (a + b)[..8] == a[..8];
      assert (a + b)[8..] == a[8..] + b;
      BytesOfSplit(a[8..], b);
    }
  }

  /** With eight or more bits beyond the bytes already produced, exactly one more byte is due, and it
      is the one the register shows above its spare bits. */
  lemma NextByte(bits: Bits, k: nat, left: nat)
    requires |bits| == 8 * k + 8 + left && left <= 4
    ensures BytesOf(bits) == BytesOf(bits[..8 * k]) + [(ToNat(bits) % REGISTER / Pow2(left)) % 256]
  {
    hide ToNat, Pow2, BytesOf;
    var p, x, t := bits[..8 * k], bits[8 * k..8 * k + 8], bits[8 * k + 8..];
    assert bits == (p + x) + t;
    assert bits == p + (x + t);
    BytesOfSplit(p, x + t);
    OneByte(x, t);
    ToNatAppend(p + x, t);
    ToNatAppend(p, x);
    ByteSize();
    ByteInRegister(ToNat(p), ToNat(x), ToNat(t), left);
  }

  lemma ByteSize()
    ensures Pow2(8) == 256
  {
    assert Pow2(4) == 16;
    PowAdd(4, 4);
  }

  lemma OneByte(x: Bits, t: Bits)
    requires |x| == 8 && |t| < 8
    ensures ToNat(x) < 256 && BytesOf(x + t) == [ToNat(x)]
  {
    hide ToNat, Pow2;
    ToNatBound(x);
    assert (x + t)[..8] == x && (x + t)[8..] == t;
  }

  /** Between two bytes nothing is due. */
  lemma NoByte(bits: Bits, k: nat)
    requires 8 * k <= |bits| < 8 * k + 8
    ensures BytesOf(bits) == BytesOf(bits[..8 * k])
  {
    assert bits == bits[..8 * k] + bits[8 * k..];
    BytesOfSplit(bits[..8 * k], bits[8 * k..]);
  }

  method DecodeSecret(secret: string) returns (key: seq<Byte>)
    ensures key == Decoded(secret)
  {
    hide ToNat, Pow2, BytesOf, SymbolValue, ToBits;
    key := [];
    EmptyBits();
    NoBytes();
    var buffer, left: nat := 0, 0;
    var i := 0;
    while i < |secret|
      invariant 0 <= i <= |secret| && Valid(secret[..i])
      invariant buffer == ToNat(Groups(secret[..i])) % REGISTER
      invariant left < 8 && 8 * |key| + left == 5 * i
      invariant key == BytesOf(Groups(secret[..i]))
    {
      var ch := secret[i];
      buffer := (buffer * 32) % REGISTER;
      if !IsSymbol(ch) {
        return [];
      }
      ghost var bits := Groups(secret[..i]);
      ghost var k := |key|;
      assert secret[..i + 1][..i] == secret[..i];
      RegisterStep(ToNat(bits) % REGISTER, bits, SymbolValue(ch));
      // the low five bits are zero, so this is the bitwise or of the two
      buffer := buffer + SymbolValue(ch);
      ghost var now := bits + ToBits(SymbolValue(ch), 5);
      assert Groups(secret[..i + 1]) == now;
      left := left + 5;
      BytesStep(bits, now, k);
      if left >= 8 {
        left := left - 8;
        NextByte(now, k, left);
        key := key + [buffer / Pow2(left) % 256];
      } else {
        NoByte(now, k);
      }
      i := i + 1;
    }
    assert secret[..i] == secret;
  }

  lemma NoBytes()
    ensures BytesOf([]) == []
  {
  }

  lemma BytesStep(bits: Bits, now: Bits, k: nat)
    requires 8 * k <= |bits| < 8 * k + 8 && bits <= now
    ensures BytesOf(now[..8 * k]) == BytesOf(bits)
  {
    NoByte(bits, k);
    assert now[..8 * k] == bits[..8 * k];
  }

  // ---------------------------------------------------------------------
  // The encoding it undoes
  // ---------------------------------------------------------------------

  function BitsOf(bytes: seq<Byte>): (b: Bits)
    ensures |b| == 8 * |bytes|
  {
    if bytes == [] then [] else ToBits(bytes[0], 8) + BitsOf(bytes[1..])
  }

  function Zeros(n: nat): (b: Bits)
    ensures |b| == n
  {
    seq(n, _ => false)
  }

  /** The last group is filled up with zero bits. */
  function Padded(b: Bits): (r: Bits)
    ensures |r| % 5 == 0 && b <= r && |r| < |b| + 5
  {
    b + Zeros((5 - |b| % 5) % 5)
  }

  function SymbolsOf(b: Bits): (s: string)
    requires |b| % 5 == 0
    ensures Valid(s) && 5 * |s| == |b|
  {
    if b == [] then ""
    else
      assert Pow2(5) == 32;
      SymbolsOf(b[..|b| - 5]) + [Symbol(ToNat(b[|b| - 5..]))]
  }

  /** Unpadded base32, as section 6 of RFC 4648 defines it. */
  function Encoded(bytes: seq<Byte>): (s: string)
    ensures Valid(s)
  {
    SymbolsOf(Padded(BitsOf(bytes)))
  }

  lemma {:induction false} GroupsOfSymbols(b: Bits)
    requires |b| % 5 == 0
    ensures Groups(SymbolsOf(b)) == b
    decreases |b|
  {
    if b != [] {
      var init, last := b[..|b| - 5], b[|b| - 5..];
      GroupsOfSymbols(init);
      assert Pow2(5) == 32;
      SymbolsDecode(ToNat(last));
      ToBitsOfNat(last);
      assert SymbolsOf(b)[..|SymbolsOf(b)| - 1] == SymbolsOf(init);
      assert b == init + last;
    }
  }

  lemma {:induction false} BytesOfBits(bytes: seq<Byte>, spare: Bits)
    requires |spare| < 8
    ensures BytesOf(BitsOf(bytes) + spare) == bytes
  {
    if bytes == [] {
      assert BitsOf(bytes) + spare == spare;
    } else {
      var rest := BitsOf(bytes[1..]) + spare;
      assert BitsOf(bytes) + spare == ToBits(bytes[0], 8) + rest;
      assert (ToBits(bytes[0], 8) + rest)[..8] == ToBits(bytes[0], 8);
      assert (ToBits(bytes[0], 8) + rest)[8..] == rest;
      ByteSize();
      ToNatOfBits(bytes[0], 8);
      BytesOfBits(bytes[1..], spare);
    }
  }

  /** Decoding inverts unpadded encoding, for every byte string. */
  lemma RoundTrip(bytes: seq<Byte>)
    ensures Decoded(Encoded(bytes)) == bytes
  {
    hide BytesOf, Groups, SymbolsOf, BitsOf, Zeros;
    GroupsOfSymbols(Padded(BitsOf(bytes)));
    var spare := Zeros((5 - |BitsOf(bytes)| % 5) % 5);
    BytesOfBits(bytes, spare);
  }

  /** A key is empty exactly for a broken secret or one too short to hold a byte; otherwise it has
      five eighths of the length of the secret. */
  lemma KeyLength(secret: string)
    ensures |Decoded(secret)| == if Valid(secret) then 5 * |secret| / 8 else 0
    ensures Decoded(secret) == [] <==> !Valid(secret) || |secret| < 2
  {
  }
}
