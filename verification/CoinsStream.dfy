/** The loops that write and read coin records (src/coins.cpp, CalcMaskSize; src/coins.h, CCoins::Serialize and
    Unserialize). */
module CoinsStream {
  import opened Wrappers
  import opened Bytes
  import opened Numbers
  import opened LimbShifts
  import opened Coins
  import opened CoinsCodec
  import Amounts
  import Scripts
  import VarInt

  // -------------------------------------------------------------------- writing

  lemma {:induction false} NoBitsSet(bits: seq<bool>)
    requires forall i :: 0 <= i < |bits| ==> !bits[i]
    ensures ByteOf(bits) == 0
  {
    if bits != [] { NoBitsSet(bits[..|bits| - 1]); }
  }

  lemma MaskByteZero(vout: seq<TxOut>, b: nat)
    ensures MaskByte(vout, b) == 0 <==> forall i :: 0 <= i < 8 ==> !MaskBits(vout, b)[i]
  {
    hide ByteOf, At;
    if MaskByte(vout, b) == 0 {
      forall i | 0 <= i < 8 ensures !MaskBits(vout, b)[i] { ZeroByte(vout, b, i); }
    }
    if forall i :: 0 <= i < 8 ==> !MaskBits(vout, b)[i] { NoBitsSet(MaskBits(vout, b)); }
  }

  lemma MaskGrows(m: seq<Byte>, b: nat)
    requires b < |m|
    ensures |TrimZeros(m[..b + 1])| == (if m[b] != 0 then b + 1 else |TrimZeros(m[..b])|)
    ensures NonZeros(m[..b + 1]) == NonZeros(m[..b]) + (if m[b] != 0 then 1 else 0)
  {
    assert m[..b + 1][..b] == m[..b];
  }

  /** CalcMaskSize. */
  method CalcMaskSize(vout: seq<TxOut>) returns (bytes: nat, nonzero: nat)
    ensures bytes == |Mask(vout)| && nonzero == NonZeros(Mask(vout))
  {
    hide TrimZeros, NonZeros, MaskByte;
    ghost var m := AllMask(vout);
    bytes, nonzero := 0, 0;
    var b := 0;
    EmptyMask(m);
    while 2 + b * 8 < |vout|
      invariant 0 <= b <= |m| && (2 + b * 8 < |vout| <==> b < |m|)
      invariant bytes == |TrimZeros(m[..b])| && nonzero == NonZeros(m[..b])
    {
      var zero := AllSpent(vout, b);
      MaskGrows(m, b);
      assert m[b] == MaskByte(vout, b);
      if !zero {
        bytes := b + 1;
        nonzero := nonzero + 1;
      }
      b := b + 1;
    }
    assert m[..|m|] == m;
    TrimZerosIs(m);
  }

  lemma EmptyMask(m: seq<Byte>)
    ensures TrimZeros(m[..0]) == [] && NonZeros(m[..0]) == 0
  {
  }

  lemma BitsBeyond(vout: seq<TxOut>, b: nat, i: nat)
    requires i <= 8 && (i == 8 || 2 + b * 8 + i >= |vout|)
    ensures forall j :: i <= j < 8 ==> !MaskBits(vout, b)[j]
  {
    forall j | i <= j < 8 ensures !MaskBits(vout, b)[j] {
      assert !At(vout, 2 + b * 8 + j);
    }
  }

  /** The inner loop of CalcMaskSize: whether a byte of the mask is zero. */
  method AllSpent(vout: seq<TxOut>, b: nat) returns (zero: bool)
    ensures zero <==> MaskByte(vout, b) == 0
  {
    zero := true;
    var i := 0;
    while i < 8 && 2 + b * 8 + i < |vout|
      invariant 0 <= i <= 8 && (zero <==> forall j :: 0 <= j < i ==> !MaskBits(vout, b)[j])
    {
      if !IsNull(vout[2 + b * 8 + i]) {
        assert MaskBits(vout, b)[i];
        zero := false;
      }
      i := i + 1;
    }
    BitsBeyond(vout, b, i);
    MaskByteZero(vout, b);
  }

  lemma {:induction false} ByteTail(bits: seq<bool>, n: nat)
    requires n <= |bits| && forall i :: n <= i < |bits| ==> !bits[i]
    ensures ByteOf(bits) == ByteOf(bits[..n])
  {
    if n < |bits| {
      ByteTail(bits[..|bits| - 1], n);
      assert bits[..|bits| - 1][..n] == bits[..n];
    } else {
      assert bits[..n] == bits;
    }
  }

  /** One byte of the mask. */
  method AvailByte(vout: seq<TxOut>, b: nat) returns (ch: nat)
    ensures ch == MaskByte(vout, b)
  {
    hide ByteOf, BitOr;
    ghost var bits := MaskBits(vout, b);
    ch := 0;
    NoBitsSet(bits[..0]);
    var i := 0;
    while i < 8 && 2 + b * 8 + i < |vout|
      invariant 0 <= i <= 8 && ch == ByteOf(bits[..i])
    {
      ByteBound(bits[..i]);
      MulUnit(Pow(2, i));
      OrDisjoint(ch, 1, i);
      ByteGrows(bits, i);
      if !IsNull(vout[2 + b * 8 + i]) { ch := BitOr(ch, Pow(2, i)); }
      i := i + 1;
    }
    BitsBeyond(vout, b, i);
    ByteTail(bits, i);
  }

  lemma ByteGrows(bits: seq<bool>, i: nat)
    requires i < |bits|
    ensures ByteOf(bits[..i + 1]) == ByteOf(bits[..i]) + if bits[i] then Pow(2, i) else 0
  {
    assert bits[..i + 1][..i] == bits[..i];
  }

  method WriteMask(vout: seq<TxOut>, bytes: nat) returns (out: seq<Byte>)
    requires bytes == |Mask(vout)|
    ensures out == Mask(vout)
  {
    hide TrimZeros, MaskByte;
    TrimZerosIs(AllMask(vout));
    out := [];
    for b := 0 to bytes
      invariant out == AllMask(vout)[..b]
    {
      var ch := AvailByte(vout, b);
      assert AllMask(vout)[b] == MaskByte(vout, b);
      out := out + [ch];
    }
  }

  method WriteOuts(k: Scripts.Curve, vout: seq<TxOut>) returns (out: seq<Byte>)
    ensures out == OutsWritten(k, vout)
  {
    hide OutWritten;
    out := [];
    for i := 0 to |vout|
      invariant out + OutsWritten(k, vout[i..]) == OutsWritten(k, vout)
    {
      assert vout[i..][1..] == vout[i + 1..];
      if !IsNull(vout[i]) {
        var o := WriteOut(k, vout[i]);
        out := out + o;
      }
    }
  }

  method WriteOut(k: Scripts.Curve, o: TxOut) returns (out: seq<Byte>)
    ensures out == OutWritten(k, o)
  {
    var amount := Amounts.Compress(o.value);
    out := VarInt.Write(amount);
    out := out + Scripts.Written(k, o.script);
  }

  /** The header code of CCoins::Serialize. */
  method HeaderCode(c: Coins, count: nat) returns (code: nat)
    requires !IsPruned(c) && count == NonZeros(Mask(c.vout))
    ensures code == Code(c)
  {
    hide Mask, NonZeros;
    var first, second := |c.vout| > 0 && !IsNull(c.vout[0]), |c.vout| > 1 && !IsNull(c.vout[1]);
    NotPrunedShows(c);
    assert first || second || count != 0;
    code := 16 * (count - if first || second then 0 else 1)
      + Flag(c.coinBase, 1) + Flag(c.coinStake, 2) + Flag(first, 4) + Flag(second, 8);
  }

  /** CCoins::Serialize. */
  method Serialize(k: Scripts.Curve, c: Coins) returns (out: seq<Byte>)
    requires !IsPruned(c)
    ensures out == Serialized(k, c)
  {
    hide OutsWritten, Mask, NonZeros, Code, VarInt.Written;
    var bytes, count := CalcMaskSize(c.vout);
    var code := HeaderCode(c, count);
    var version := VarInt.Write(c.version);
    var header := VarInt.Write(code);
    var mask := WriteMask(c.vout, bytes);
    var outs := WriteOuts(k, c.vout);
    var height := VarInt.Write(c.height);
    out := version + header + mask + outs + height;
    assert out == version + (header + (mask + (outs + height)));
  }

  // -------------------------------------------------------------------- reading

  /** What has been read already, before what is still to be read. */
  function After<T>(done: seq<T>, r: Option<Got<seq<T>>>): Option<Got<seq<T>>> {
    match r
    case None => None
    case Some(g) => Some(Got(done + g.value, g.rest))
  }

  /** The loop over the mask in CCoins::Unserialize. */
  method ReadMaskFrom(count0: nat, s0: seq<Byte>) returns (r: Option<Got<seq<bool>>>)
    ensures r == ReadMask(count0, s0)
  {
    hide BitsOf;
    var count, s, avail := count0, s0, [];
    AfterNothing(ReadMask(count0, s0));
    while count > 0
      invariant After(avail, ReadMask(count, s)) == ReadMask(count0, s0)
      decreases |s|
    {
      if s == [] { return None; }
      var ch := s[0];
      var before := avail;
      for p := 0 to 8
        invariant avail == before + BitsOf(ch)[..p]
      {
        BitIs(ch, p);
        avail := avail + [Kept(ch, p) % 2 == 1];
      }
      assert BitsOf(ch)[..8] == BitsOf(ch);
      var next := if ch != 0 then count - 1 else count;
      AfterMore(before, BitsOf(ch), ReadMask(next, s[1..]));
      count := next;
      s := s[1..];
    }
    assert avail + [] == avail;
    return Some(Got(avail, s));
  }

  lemma BitIs(x: nat, p: nat)
    requires p < 8
    ensures BitsOf(x)[p] == (Kept(x, p) % 2 == 1)
  {
  }

  lemma AfterNothing<T>(r: Option<Got<seq<T>>>)
    ensures After([], r) == r
  {
    if r.Some? { assert [] + r.value.value == r.value.value; }
  }

  lemma AfterMore<T>(a: seq<T>, b: seq<T>, r: Option<Got<seq<T>>>)
    ensures After(a, After(b, r)) == After(a + b, r)
  {
    if r.Some? { assert a + (b + r.value.value) == a + b + r.value.value; }
  }

  method ReadOut(k: Scripts.Curve, s: seq<Byte>) returns (r: Option<Got<TxOut>>)
    ensures r == OutRead(k, s)
  {
    var amount := VarInt.ReadFrom(s);
    if amount == None { return None; }
    var script := Scripts.Read(k, amount.value.rest);
    if script == None { return None; }
    var value := Amounts.Decompress(amount.value.value);
    return Some(Got(TxOut(value, script.value.value, NULL_OUT.rounds), script.value.rest));
  }

  /** The loop over the outputs in CCoins::Unserialize. */
  method ReadOuts(k: Scripts.Curve, avail: seq<bool>, s0: seq<Byte>) returns (r: Option<Got<seq<TxOut>>>)
    ensures r == OutsRead(k, avail, s0)
  {
    hide OutRead;
    var s, vout := s0, seq(|avail|, _ => NULL_OUT);
    AfterNothing(OutsRead(k, avail, s0));
    assert avail[0..] == avail;
    for i := 0 to |avail|
      invariant |vout| == |avail| && forall j :: i <= j < |vout| ==> vout[j] == NULL_OUT
      invariant After(vout[..i], OutsRead(k, avail[i..], s)) == OutsRead(k, avail, s0)
    {
      assert avail[i..][1..] == avail[i + 1..];
      ghost var done := vout[..i];
      if avail[i] {
        var o := ReadOut(k, s);
        if o == None { return None; }
        vout := vout[i := o.value.value];
        s := o.value.rest;
      }
      AfterMore(done, [vout[i]], OutsRead(k, avail[i + 1..], s));
      assert vout[..i + 1] == done + [vout[i]];
    }
    assert vout[..|avail|] + [] == vout;
    return Some(Got(vout, s));
  }

  /** CCoins::Unserialize. */
  method Unserialize(k: Scripts.Curve, s: seq<Byte>) returns (r: Option<Got<Coins>>)
    ensures r == Unserialized(k, s)
  {
    hide ReadMask, OutsRead;
    var version := VarInt.ReadFrom(s);
    if version == None { return None; }
    var code := VarInt.ReadFrom(version.value.rest);
    if code == None { return None; }
    var h := HeaderOf(code.value.value);
    var mask := ReadMaskFrom(h.count, code.value.rest);
    if mask == None { return None; }
    var outs := ReadOuts(k, [h.first, h.second] + mask.value.value, mask.value.rest);
    if outs == None { return None; }
    var height := VarInt.ReadFrom(outs.value.rest);
    if height == None { return None; }
    var c := Coins(h.coinBase, h.coinStake, outs.value.value, height.value.value, version.value.value);
    return Some(Got(Cleanup(c), height.value.rest));
  }
}
