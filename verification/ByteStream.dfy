/** Byte streams: the reader and writer every binary format of the server goes through. */
module ByteStream {

  import opened Basics

  type Byte = x: int | 0 <= x < 256

  datatype Option<+T> = None | Some(value: T)

  const MAX_STRING := 0xFFFF

  // ---------------------------------------------------------------------
  // Little-endian integers of a fixed number of bytes
  // ---------------------------------------------------------------------

  function Pow256(n: nat): (r: nat)
    ensures r > 0
  {
    if n == 0 then 1 else 256 * Pow256(n - 1)
  }

  function ToLE(v: nat, n: nat): (s: seq<Byte>)
    ensures |s| == n
  {
    if n == 0 then [] else [v % 256] + ToLE(v / 256, n - 1)
  }

  function FromLE(s: seq<Byte>): (v: nat)
    ensures v < Pow256(|s|)
  {
    if s == [] then 0 else s[0] + 256 * FromLE(s[1..])
  }

  lemma {:induction false} FromToLE(v: nat, n: nat)
    requires v < Pow256(n)
    ensures FromLE(ToLE(v, n)) == v
  {
    if n > 0 {
      FromToLE(v / 256, n - 1);
      assert ToLE(v, n)[1..] == ToLE(v / 256, n - 1);
    }
  }

  /** The other direction: the bytes are determined by the number they denote. */
  lemma {:induction false} ToFromLE(s: seq<Byte>)
    ensures ToLE(FromLE(s), |s|) == s
  {
    if s != [] {
      ToFromLE(s[1..]);
      assert FromLE(s) / 256 == FromLE(s[1..]);
      assert [s[0]] + s[1..] == s;
    }
  }

  lemma WordSizes()
    ensures Pow256(1) == 0x100 && Pow256(2) == 0x1_0000
    ensures Pow256(4) == 0x1_0000_0000 && Pow256(8) == 0x1_0000_0000_0000_0000
  {
    assert Pow256(3) == 0x100_0000;
    assert Pow256(5) == 0x100_0000_0000;
    assert Pow256(6) == 0x1_0000_0000_0000;
    assert Pow256(7) == 0x100_0000_0000_0000;
  }

  /** Two's complement: a signed value of n bytes stored as an unsigned one, and read back. */
  function ToUnsigned(v: int, n: nat): (u: nat)
    ensures u < Pow256(n)
  {
    v % Pow256(n)
  }

  function ToSigned(u: nat, n: nat): int {
    if 2 * u < Pow256(n) then u else u - Pow256(n)
  }

  predicate FitsSigned(v: int, n: nat) {
    -(Pow256(n) as int) <= 2 * v < Pow256(n)
  }

  lemma SignedRoundTrip(v: int, n: nat)
    requires FitsSigned(v, n)
    ensures ToSigned(ToUnsigned(v, n), n) == v
  {
    var m := Pow256(n);
    if v < 0 {
      ModUnique(v, m, -1, v + m);
    } else {
      ModUnique(v, m, 0, v);
    }
  }

  // ---------------------------------------------------------------------
  // What a read does to the bytes not yet consumed
  // ---------------------------------------------------------------------

  function TakeNat(s: seq<Byte>, n: nat): Option<(nat, seq<Byte>)> {
    if |s| < n then None else Some((FromLE(s[..n]), s[n..]))
  }

  function TakeString(s: seq<Byte>): Option<(seq<Byte>, seq<Byte>)> {
    match TakeNat(s, 2)
    case None => None
    case Some((len, rest)) =>
      if |rest| < len then None else Some((rest[..len], rest[len..]))
  }

  /** A string of more than 65535 bytes is replaced by the empty string. */
  function StringBytes(str: seq<Byte>): seq<Byte> {
    if |str| > MAX_STRING then ToLE(0, 2) else ToLE(|str|, 2) + str
  }

  lemma TakeNatOfBytes(v: nat, n: nat, rest: seq<Byte>)
    requires v < Pow256(n)
    ensures TakeNat(ToLE(v, n) + rest, n) == Some((v, rest))
  {
    FromToLE(v, n);
    var s := ToLE(v, n) + rest;
    assert s[..n] == ToLE(v, n);
    assert s[n..] == rest;
  }

  lemma TakeByte(b: Byte, rest: seq<Byte>)
    ensures TakeNat([b] + rest, 1) == Some((b, rest))
  {
    var s := [b] + rest;
    assert s[..1] == [b];
    assert s[1..] == rest;
    assert FromLE([b]) == b + 256 * FromLE([]);
  }

  lemma FirstByte(s: seq<Byte>)
    ensures TakeNat(s, 1) == if s == [] then None else Some((s[0], s[1..]))
  {
    if s != [] {
      assert s == [s[0]] + s[1..];
      TakeByte(s[0], s[1..]);
    }
  }

  /** Writing then reading a string gives it back exactly when its length fits 16 bits,
      and gives the empty string otherwise; the bytes after it are untouched either way. */
  lemma StringRoundTrip(str: seq<Byte>, rest: seq<Byte>)
    ensures TakeString(StringBytes(str) + rest) == Some((if |str| <= MAX_STRING then str else [], rest))
    ensures TakeString(StringBytes(str) + rest) == Some((str, rest)) <==> |str| <= MAX_STRING
  {
    WordSizes();
    if |str| > MAX_STRING {
      TakeNatOfBytes(0, 2, rest);
    } else {
      assert StringBytes(str) + rest == ToLE(|str|, 2) + (str + rest);
      TakeNatOfBytes(|str|, 2, str + rest);
      assert (str + rest)[..|str|] == str;
      assert (str + rest)[|str|..] == rest;
    }
  }

  // ---------------------------------------------------------------------
  // The stream objects
  // ---------------------------------------------------------------------

  class PropStream {
    var data: seq<Byte>
    var p: nat

    ghost predicate Valid()
      reads this
    {
      p <= |data|
    }

    function Rest(): seq<Byte>
      reads this
      requires Valid()
    {
      data[p..]
    }

    constructor Init(bytes: seq<Byte>)
      ensures Valid() && Rest() == bytes
    {
      data := bytes;
      p := 0;
    }

    method Read(n: nat) returns (r: Option<nat>)
      requires Valid()
      modifies this
      ensures Valid()
      ensures match TakeNat(old(Rest()), n)
              case None => r == None && Rest() == old(Rest())
              case Some((v, rest)) => r == Some(v) && Rest() == rest
    {
      if |data| - p < n {
        return None;
      }
      r := Some(FromLE(data[p..p + n]));
      assert data[p..][..n] == data[p..p + n];
      p := p + n;
    }

    /** A string whose characters are missing is refused after its length has been consumed. */
    method ReadString() returns (r: Option<seq<Byte>>)
      requires Valid()
      modifies this
      ensures Valid()
      ensures match TakeString(old(Rest()))
              case None => r == None && Rest() == if |old(Rest())| < 2 then old(Rest()) else old(Rest())[2..]
              case Some((str, rest)) => r == Some(str) && Rest() == rest
    {
      var len := Read(2);
      if len == None || |data| - p < len.value {
        return None;
      }
      assert data[p..][..len.value] == data[p..p + len.value];
      r := Some(data[p..p + len.value]);
      p := p + len.value;
    }

    method Skip(n: nat) returns (ok: bool)
      requires Valid()
      modifies this
      ensures Valid()
      ensures ok == (n <= |old(Rest())|)
      ensures Rest() == if ok then old(Rest())[n..] else old(Rest())
    {
      if |data| - p < n {
        return false;
      }
      p := p + n;
      return true;
    }
  }

  class PropWriteStream {
    var buffer: seq<Byte>

    constructor ()
      ensures buffer == []
    {
      buffer := [];
    }

    method Clear()
      modifies this
      ensures buffer == []
    {
      buffer := [];
    }

    /** Writes the low n bytes of v. */
    method Write(v: nat, n: nat)
      modifies this
      ensures buffer == old(buffer) + ToLE(v, n)
    {
      buffer := buffer + ToLE(v, n);
    }

    method WriteByte(b: Byte)
      modifies this
      ensures buffer == old(buffer) + [b]
    {
      buffer := buffer + [b];
    }

    method WriteString(str: seq<Byte>)
      modifies this
      ensures buffer == old(buffer) + StringBytes(str)
    {
      if |str| > MAX_STRING {
        Write(0, 2);
        return;
      }
      Write(|str|, 2);
      buffer := buffer + str;
    }
  }
}
