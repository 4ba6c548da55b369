/** Variable-length integers (src/serialize.h): base 128, most significant digit first, one less in every digit but
    the last. Bytes are read from a sequence; running out of it is the stream's exception. */
module VarInt {
  import opened Wrappers
  import opened Bytes
  import opened Numbers

  /** The digits before the last. */
  function Leading(m: nat): seq<Byte> {
    if m <= 127 then [128 + m] else Leading(m / 128 - 1) + [128 + m % 128]
  }

  /** WriteVarInt. A negative number of a signed type comes out as one byte. */
  function Written(n: int): seq<Byte> {
    if n <= 127 then [n % 128] else Leading(n / 128 - 1) + [n % 128]
  }

  function ReadOn(n: nat, s: seq<Byte>): Option<Got<nat>>
    decreases |s|
  {
    if s == [] then None
    else
      var m := 128 * n + s[0] % 128;
      if s[0] >= 128 then ReadOn(m + 1, s[1..]) else Some(Got(m, s[1..]))
  }

  /** ReadVarInt. */
  function Read(s: seq<Byte>): Option<Got<nat>> {
    ReadOn(0, s)
  }

  // ------------------------------------------------------------------- the form

  /** Sequences of one length in the order of their first difference. */
  ghost predicate Precedes(s: seq<Byte>, t: seq<Byte>) {
    |s| == |t| && exists i :: 0 <= i < |s| && s[..i] == t[..i] && s[i] < t[i]
  }

  lemma PrecedesLonger(s: seq<Byte>, t: seq<Byte>, a: Byte, b: Byte)
    requires Precedes(s, t) || (s == t && a < b)
    ensures Precedes(s + [a], t + [b])
  {
    if s == t {
      assert (s + [a])[..|s|] == (t + [b])[..|s|];
    } else {
      var i :| 0 <= i < |s| && s[..i] == t[..i] && s[i] < t[i];
      assert (s + [a])[..i] == s[..i] && (t + [b])[..i] == t[..i];
    }
  }

  /** Larger numbers are written longer, or later in the order of bytes. */
  lemma {:induction false} LeadingOrder(m: nat, n: nat)
    requires m < n
    ensures |Leading(m)| < |Leading(n)| || Precedes(Leading(m), Leading(n))
  {
    hide Precedes;
    if n <= 127 {
      OneByte(128 + m, 128 + n);
    } else if m > 127 {
      if m / 128 < n / 128 { LeadingOrder(m / 128 - 1, n / 128 - 1); }
      if |Leading(m)| >= |Leading(n)| {
        PrecedesLonger(Leading(m / 128 - 1), Leading(n / 128 - 1), 128 + m % 128, 128 + n % 128);
      }
    }
  }

  lemma OneByte(a: Byte, b: Byte)
    requires a < b
    ensures Precedes([a], [b])
  {
    assert [a][..0] == [b][..0];
  }

  lemma WrittenOrder(m: nat, n: nat)
    requires m < n
    ensures |Written(m)| < |Written(n)| || Precedes(Written(m), Written(n))
  {
    hide Precedes;
    if n <= 127 {
      OneByte(m, n);
    } else if m > 127 {
      if m / 128 < n / 128 { LeadingOrder(m / 128 - 1, n / 128 - 1); }
      if |Written(m)| >= |Written(n)| {
        PrecedesLonger(Leading(m / 128 - 1), Leading(n / 128 - 1), m % 128, n % 128);
      }
    }
  }

  /** All bytes but the last have their top bit set. */
  lemma {:induction false} LeadingBits(m: nat)
    ensures forall i :: 0 <= i < |Leading(m)| ==> Leading(m)[i] >= 128
  {
    if m > 127 { LeadingBits(m / 128 - 1); }
  }

  lemma WrittenBits(n: nat)
    ensures |Written(n)| > 0 && Written(n)[|Written(n)| - 1] < 128
    ensures forall i :: 0 <= i < |Written(n)| - 1 ==> Written(n)[i] >= 128
  {
    hide Leading;
    if n > 127 { LeadingBits(n / 128 - 1); }
  }

  /** The first byte of a number is the number, or has its top bit set. */
  lemma FirstDigit(n: nat)
    ensures Written(n) != [] && (if n < 128 then Written(n)[0] == n else Written(n)[0] >= 128)
  {
    hide Leading;
    WrittenBits(n);
    if n > 127 { LeadingLength(n / 128 - 1); }
  }

  lemma LeadingLength(m: nat)
    ensures |Leading(m)| > 0
  {
  }

  /** Numbers listed with the format, as the code writes them. */
  lemma KnownNumbers()
    ensures Written(0) == [0x00] && Written(1) == [0x01] && Written(127) == [0x7F]
    ensures Written(128) == [0x80, 0x00] && Written(255) == [0x80, 0x7F] && Written(256) == [0x81, 0x00]
    ensures Written(16383) == [0xFE, 0x7F] && Written(16384) == [0xFF, 0x00] && Written(16511) == [0xFF, 0x7F]
    ensures Written(65535) == [0x82, 0xFE, 0x7F] && Written(0x1_0000_0000) == [0x8E, 0xFE, 0xFE, 0xFF, 0x00]
  {
  }

  // -------------------------------------------------------------- round trips

  lemma {:induction false} ReadLeading(m: nat, t: seq<Byte>)
    ensures ReadOn(0, Leading(m) + t) == ReadOn(m + 1, t)
  {
    if m > 127 {
      var last := [128 + m % 128];
      ReadLeading(m / 128 - 1, last + t);
      assert Leading(m) + t == Leading(m / 128 - 1) + (last + t);
      assert (last + t)[1..] == t;
    }
  }

  /** What is read is what was written, and the bytes after it are left. */
  lemma ReadWritten(n: int, rest: seq<Byte>)
    ensures Read(Written(n) + rest) == Some(Got(if n < 0 then n % 128 else n, rest))
  {
    hide ReadOn, Leading;
    if n > 127 {
      var last := [n % 128];
      ReadLeading(n / 128 - 1, last + rest);
      assert Written(n) + rest == Leading(n / 128 - 1) + (last + rest);
      ReadLast(n / 128, n % 128, rest);
    } else {
      ReadLast(0, n % 128, rest);
    }
  }

  lemma ReadLast(m: nat, d: nat, rest: seq<Byte>)
    requires d < 128
    ensures ReadOn(m, [d] + rest) == Some(Got(128 * m + d, rest))
  {
    assert ([d] + rest)[1..] == rest;
  }

  lemma {:induction false} ReadOnUnique(m: nat, s: seq<Byte>)
    requires ReadOn(m + 1, s).Some?
    ensures var g := ReadOn(m + 1, s).value; Leading(m) + s == Written(g.value) + g.rest
    decreases |s|
  {
    hide Leading, Written;
    var n := 128 * (m + 1) + s[0] % 128;
    OneMore(m, s[0]);
    assert Leading(m) + s == (Leading(m) + [s[0]]) + s[1..];
    if s[0] >= 128 { ReadOnUnique(n, s[1..]); }
  }

  lemma OneMore(m: nat, b: Byte)
    ensures var n := 128 * (m + 1) + b % 128; (if b >= 128 then Leading(n) else Written(n)) == Leading(m) + [b]
  {
    var n := 128 * (m + 1) + b % 128;
    assert n / 128 - 1 == m && n % 128 == b % 128;
  }

  /** Every number has exactly one encoding: bytes that read as a number are its encoding. */
  lemma WrittenRead(s: seq<Byte>)
    requires Read(s).Some?
    ensures var g := Read(s).value; s == Written(g.value) + g.rest
  {
    assert s == [s[0]] + s[1..];
    if s[0] >= 128 {
      assert Leading(s[0] - 128) == [s[0]];
      ReadOnUnique(s[0] - 128, s[1..]);
    }
  }

  /** The temporary buffer, of one byte for seven bits of the type, is always large enough. */
  lemma BufferFits(n: nat, bits: nat)
    requires bits > 0 && n < Pow(2, bits)
    ensures |Written(n)| <= (bits + 6) / 7
  {
    hide Pow, Mul, Leading;
    var k := (bits + 6) / 7;
    PowGrows(2, bits, 7 * k);
    SmallPowers();
    PowMul(2, 7, k);
    PowUnit(128);
    if n > 127 {
      LessByOne(n, k);
      LeadingFits(n / 128 - 1, k - 1);
    }
  }

  lemma LessByOne(n: nat, k: nat)
    requires n > 127 && k > 0 && n < Pow(128, k)
    ensures k > 1 && n / 128 - 1 < Pow(128, k - 1)
  {
    hide Pow, Mul;
    PowUnit(128);
    PowStep(128, k - 1);
  }

  lemma {:induction false} LeadingFits(m: nat, k: nat)
    requires k > 0 && m < Pow(128, k)
    ensures |Leading(m)| <= k
  {
    hide Pow, Mul;
    if m > 127 {
      LessByOne(m, k);
      LeadingFits(m / 128 - 1, k - 1);
    }
  }

  // ------------------------------------------------------------------- methods

  /** WriteVarInt: the digits are found from the last and put out from the first. */
  method Write(n0: int) returns (out: seq<Byte>)
    ensures out == Written(n0)
  {
    hide Backwards;
    var n, tmp: seq<Byte> := n0, [n0 % 128];
    BackwardsLast([]);
    BackwardsLast(tmp);
    while n > 127
      invariant |tmp| > 0
      invariant |tmp| == 1 ==> n == n0 && Backwards(tmp) == [n0 % 128]
      invariant |tmp| > 1 ==> n >= 0
      invariant |tmp| > 1 ==>
        exists low :: Backwards(tmp) == [128 + n % 128] + low && Written(n0) == Leading(n) + low
    {
      ghost var before := tmp;
      n := n / 128 - 1;
      tmp := tmp + [128 + n % 128];
      assert tmp[..|tmp| - 1] == before;
      BackwardsLast(tmp);
      assert Written(n0) == Leading(n) + Backwards(before);
    }
    out := Emit(tmp);
  }

  /** The second loop of WriteVarInt. */
  method Emit(tmp: seq<Byte>) returns (out: seq<Byte>)
    ensures out == Backwards(tmp)
  {
    hide Backwards;
    out := [];
    var len := |tmp|;
    assert tmp[..len] == tmp;
    while len > 0
      invariant 0 <= len <= |tmp| && out + Backwards(tmp[..len]) == Backwards(tmp)
    {
      len := len - 1;
      assert tmp[..len + 1][..len] == tmp[..len];
      BackwardsLast(tmp[..len + 1]);
      out := out + [tmp[len]];
    }
    BackwardsLast(tmp[..0]);
  }

  function Backwards(s: seq<Byte>): seq<Byte> {
    if s == [] then [] else Backwards(s[1..]) + [s[0]]
  }

  lemma {:induction false} BackwardsLast(s: seq<Byte>)
    ensures s == [] ==> Backwards(s) == []
    ensures s != [] ==> Backwards(s) == [s[|s| - 1]] + Backwards(s[..|s| - 1])
  {
    if |s| > 1 {
      BackwardsLast(s[1..]);
      assert s[1..][..|s| - 2] == s[..|s| - 1][1..];
    }
  }

  /** ReadVarInt. */
  method ReadFrom(s: seq<Byte>) returns (r: Option<Got<nat>>)
    ensures r == Read(s)
  {
    var n: nat, p := 0, 0;
    while p < |s|
      invariant 0 <= p <= |s| && ReadOn(n, s[p..]) == Read(s)
    {
      var ch := s[p];
      n := 128 * n + ch % 128;
      p := p + 1;
      if ch < 128 { return Some(Got(n, s[p..])); }
      n := n + 1;
    }
    return None;
  }
}
