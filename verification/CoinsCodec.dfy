/** The stored form of a coin record (src/coins.h, CCoins::Serialize and Unserialize; src/coins.cpp, CalcMaskSize;
    src/compressor.h, CTxOutCompressor). */
module CoinsCodec {
  import opened Wrappers
  import opened Bytes
  import opened Numbers
  import opened LimbShifts
  import opened Coins
  import Amounts
  import Scripts
  import VarInt

  predicate At(vout: seq<TxOut>, i: nat) {
    i < |vout| && !IsNull(vout[i])
  }

  // ----------------------------------------------------------------- bitmask

  /** The availability of the eight outputs of a mask byte; the first two outputs are not in the mask. */
  function MaskBits(vout: seq<TxOut>, b: nat): seq<bool> {
    seq(8, i requires 0 <= i < 8 => At(vout, 2 + b * 8 + i))
  }

  function ByteOf(bits: seq<bool>): nat {
    if bits == [] then 0
    else ByteOf(bits[..|bits| - 1]) + if bits[|bits| - 1] then Pow(2, |bits| - 1) else 0
  }

  function BitsOf(x: nat): (bits: seq<bool>)
    ensures |bits| == 8
  {
    seq(8, p requires 0 <= p < 8 => Kept(x, p) % 2 == 1)
  }

  function MaskLength(n: nat): nat {
    if n <= 2 then 0 else (n + 5) / 8
  }

  lemma {:induction false} ByteBound(bits: seq<bool>)
    ensures ByteOf(bits) < Pow(2, |bits|)
  {
    hide Mul;
    if bits != [] {
      ByteBound(bits[..|bits| - 1]);
      PowTwice(|bits| - 1);
    }
  }

  function MaskByte(vout: seq<TxOut>, b: nat): Byte {
    ByteBound(MaskBits(vout, b));
    SmallPowers();
    ByteOf(MaskBits(vout, b))
  }

  function AllMask(vout: seq<TxOut>): (m: seq<Byte>)
    ensures |m| == MaskLength(|vout|)
  {
    seq(MaskLength(|vout|), b requires 0 <= b => MaskByte(vout, b))
  }

  function TrimZeros(m: seq<Byte>): seq<Byte> {
    if m == [] || m[|m| - 1] != 0 then m else TrimZeros(m[..|m| - 1])
  }

  function NonZeros(m: seq<Byte>): nat {
    if m == [] then 0 else NonZeros(m[..|m| - 1]) + if m[|m| - 1] != 0 then 1 else 0
  }

  /** The mask bytes that are written: those up to the last one with an available output. */
  function Mask(vout: seq<TxOut>): seq<Byte> {
    TrimZeros(AllMask(vout))
  }

  lemma {:induction false} TrimZerosIs(m: seq<Byte>)
    ensures TrimZeros(m) <= m && (TrimZeros(m) == [] || TrimZeros(m)[|TrimZeros(m)| - 1] != 0)
    ensures forall i :: |TrimZeros(m)| <= i < |m| ==> m[i] == 0
    ensures NonZeros(TrimZeros(m)) == NonZeros(m)
  {
    if m != [] && m[|m| - 1] == 0 { TrimZerosIs(m[..|m| - 1]); }
  }

  /** A bit of a byte made of bits is that bit. */
  lemma {:induction false} BitOfByte(bits: seq<bool>, p: nat)
    requires p < |bits|
    ensures Kept(ByteOf(bits), p) % 2 == (if bits[p] then 1 else 0)
  {
    hide Mul, Quo, Kept;
    var k := |bits| - 1;
    ByteBound(bits[..k]);
    ByteBound(bits);
    var low := ByteOf(bits[..k]);
    if p == k {
      PowTwice(k);
      TopBit(ByteOf(bits), k);
    } else {
      BitOfByte(bits[..k], p);
      if bits[k] { HigherBit(low, p, k); }
    }
  }

  lemma HigherBit(x: nat, p: nat, k: nat)
    requires p < k
    ensures Kept(x + Pow(2, k), p) % 2 == Kept(x, p) % 2
  {
    hide Mul, Quo, Rem, Pow;
    PowPositive(2, p);
    QuoRem(x, Pow(2, p));
    PowAdd(2, k - p - 1, 1);
    PowUnit(2);
    PowAdd(2, k - p, p);
    MulPlus(Pow(2, p), Quo(x, Pow(2, p)), Pow(2, k - p));
    QuoRemUnique(x + Pow(2, k), Pow(2, p), Quo(x, Pow(2, p)) + Pow(2, k - p), Rem(x, Pow(2, p)));
    MulSwap(Pow(2, k - p - 1), 2);
    MulIs(2, Pow(2, k - p - 1));
    EvenAdded(Quo(x, Pow(2, p)), Pow(2, k - p - 1));
  }

  lemma EvenAdded(a: int, b: int)
    ensures (a + 2 * b) % 2 == a % 2
  {
  }

  lemma BitsOfMask(vout: seq<TxOut>, b: nat)
    ensures BitsOf(MaskByte(vout, b)) == MaskBits(vout, b)
  {
    hide Kept, ByteOf;
    forall p | 0 <= p < 8 ensures BitsOf(MaskByte(vout, b))[p] == MaskBits(vout, b)[p] {
      BitOfByte(MaskBits(vout, b), p);
    }
  }

  /** A mask byte is zero only when none of its outputs is available. */
  lemma ZeroByte(vout: seq<TxOut>, b: nat, i: nat)
    requires MaskByte(vout, b) == 0 && i < 8
    ensures !At(vout, 2 + b * 8 + i)
  {
    hide Kept, ByteOf;
    BitsOfMask(vout, b);
    assert !BitsOf(0)[i] by { NoBits(i); }
    assert MaskBits(vout, b)[i] == At(vout, 2 + b * 8 + i);
  }

  lemma NoBits(i: nat)
    ensures Kept(0, i) == 0
  {
    hide Mul, Quo, Pow;
    PowPositive(2, i);
    QuoNat(0, Pow(2, i));
  }

  // ---------------------------------------------------------------- reading a mask

  function AllBits(m: seq<Byte>): seq<bool> {
    if m == [] then [] else BitsOf(m[0]) + AllBits(m[1..])
  }

  /** The reader's loop over the mask: so many bytes that are not zero are still to come. */
  function ReadMask(count: nat, s: seq<Byte>): Option<Got<seq<bool>>>
    decreases |s|
  {
    if count == 0 then Some(Got([], s))
    else if s == [] then None
    else match ReadMask(if s[0] != 0 then count - 1 else count, s[1..])
      case None => None
      case Some(g) => Some(Got(BitsOf(s[0]) + g.value, g.rest))
  }

  lemma {:induction false} NonZerosFront(m: seq<Byte>)
    requires m != []
    ensures NonZeros(m) == NonZeros(m[1..]) + if m[0] != 0 then 1 else 0
  {
    if |m| > 1 {
      NonZerosFront(m[..|m| - 1]);
      assert m[..|m| - 1][1..] == m[1..][..|m| - 2];
    }
  }

  /** Counting the bytes that are not zero stops at the last byte written. */
  lemma {:induction false} ReadMaskWritten(m: seq<Byte>, rest: seq<Byte>)
    requires m == [] || m[|m| - 1] != 0
    ensures ReadMask(NonZeros(m), m + rest) == Some(Got(AllBits(m), rest))
  {
    hide BitsOf;
    if m == [] {
      assert m + rest == rest;
    } else {
      NonZerosFront(m);
      assert (m + rest)[1..] == m[1..] + rest;
      ReadMaskWritten(m[1..], rest);
    }
  }

  lemma {:induction false} AllBitsLength(m: seq<Byte>)
    ensures |AllBits(m)| == 8 * |m|
  {
    hide BitsOf;
    if m != [] { AllBitsLength(m[1..]); }
  }

  lemma {:induction false} AllBitsAt(m: seq<Byte>, b: nat, p: nat)
    requires b < |m| && p < 8
    ensures |AllBits(m)| == 8 * |m| && AllBits(m)[8 * b + p] == BitsOf(m[b])[p]
  {
    hide BitsOf;
    AllBitsLength(m);
    if b > 0 { AllBitsAt(m[1..], b - 1, p); }
  }

  /** The availability the reader ends up with. */
  function Available(vout: seq<TxOut>): seq<bool> {
    [At(vout, 0), At(vout, 1)] + AllBits(Mask(vout))
  }

  /** It is that of the outputs, and no output beyond it is available. */
  lemma AvailableIs(vout: seq<TxOut>, i: nat)
    ensures |Available(vout)| == 2 + 8 * |Mask(vout)|
    ensures i < |Available(vout)| ==> Available(vout)[i] == At(vout, i)
    ensures i >= |Available(vout)| ==> !At(vout, i)
  {
    hide Kept, ByteOf, BitsOf, AllBits, TrimZeros;
    var m := Mask(vout);
    AllBitsLength(m);
    TrimZerosIs(AllMask(vout));
    if i >= 2 {
      var b := (i - 2) / 8;
      if b < |m| {
        assert m[b] == MaskByte(vout, b);
        AllBitsAt(m, b, (i - 2) % 8);
        BitsOfMask(vout, b);
      } else if b < MaskLength(|vout|) {
        assert AllMask(vout)[b] == MaskByte(vout, b);
        ZeroByte(vout, b, (i - 2) % 8);
      }
    }
  }

  // ------------------------------------------------------------------- outputs

  /** CTxOutCompressor, writing. */
  function OutWritten(c: Scripts.Curve, o: TxOut): seq<Byte> {
    VarInt.Written(Amounts.Squeezed(o.value)) + Scripts.Written(c, o.script)
  }

  /** CTxOutCompressor, reading into a null output: the rounds are not stored. */
  function OutRead(c: Scripts.Curve, s: seq<Byte>): Option<Got<TxOut>> {
    match VarInt.Read(s)
    case None => None
    case Some(amount) =>
      match Scripts.Read(c, amount.rest)
      case None => None
      case Some(script) =>
        Some(Got(TxOut(Amounts.Expanded(amount.value), script.value, NULL_OUT.rounds), script.rest))
  }

  /** An output as it is read back. */
  function OutBack(o: TxOut): TxOut {
    if IsNull(o) then NULL_OUT else TxOut(Amounts.Expanded(Amounts.Squeezed(o.value)), o.script, NULL_OUT.rounds)
  }

  lemma OutReadWritten(c: Scripts.Curve, o: TxOut, rest: seq<Byte>)
    requires !IsNull(o)
    ensures OutRead(c, OutWritten(c, o) + rest) == Some(Got(OutBack(o), rest))
  {
    var amount, script := Amounts.Squeezed(o.value), Scripts.Written(c, o.script);
    assert OutWritten(c, o) + rest == VarInt.Written(amount) + (script + rest);
    VarInt.ReadWritten(amount, script + rest);
    Scripts.ReadWritten(c, o.script, rest);
  }

  function OutsWritten(c: Scripts.Curve, vout: seq<TxOut>): seq<Byte>
  {
    if vout == [] then []
    else (if IsNull(vout[0]) then [] else OutWritten(c, vout[0])) + OutsWritten(c, vout[1..])
  }

  function OutsRead(c: Scripts.Curve, avail: seq<bool>, s: seq<Byte>): Option<Got<seq<TxOut>>> {
    if avail == [] then Some(Got([], s))
    else
      var first := if avail[0] then OutRead(c, s) else Some(Got(NULL_OUT, s));
      match first
      case None => None
      case Some(o) =>
        match OutsRead(c, avail[1..], o.rest)
        case None => None
        case Some(g) => Some(Got([o.value] + g.value, g.rest))
  }

  /** The first n outputs as they are read back. */
  function Restored(vout: seq<TxOut>, n: nat): seq<TxOut> {
    seq(n, i requires 0 <= i => if At(vout, i) then OutBack(vout[i]) else NULL_OUT)
  }

  lemma RestoredNone(vout: seq<TxOut>)
    ensures Restored(vout, 0) == []
  {
  }

  lemma RestoredFront(vout: seq<TxOut>, n: nat)
    requires n > 0
    ensures Restored(vout, n) == [if At(vout, 0) then OutBack(vout[0]) else NULL_OUT]
                               + Restored(if vout == [] then [] else vout[1..], n - 1)
  {
    hide OutBack;
  }

  lemma {:induction false} NoOutsWritten(c: Scripts.Curve, vout: seq<TxOut>)
    requires AllNull(vout)
    ensures OutsWritten(c, vout) == []
  {
    if vout != [] { NoOutsWritten(c, vout[1..]); }
  }

  lemma OutsReadNone(c: Scripts.Curve, s: seq<Byte>)
    ensures OutsRead(c, [], s) == Some(Got([], s))
  {
  }

  lemma OutsReadFront(c: Scripts.Curve, avail: seq<bool>, s: seq<Byte>, o: Got<TxOut>)
    requires avail != [] && (if avail[0] then OutRead(c, s) == Some(o) else o == Got(NULL_OUT, s))
    requires OutsRead(c, avail[1..], o.rest).Some?
    ensures var g := OutsRead(c, avail[1..], o.rest).value;
      OutsRead(c, avail, s) == Some(Got([o.value] + g.value, g.rest))
  {
  }

  lemma OutsWrittenFront(c: Scripts.Curve, vout: seq<TxOut>)
    ensures vout == [] ==> OutsWritten(c, vout) == []
    ensures vout != [] ==>
      OutsWritten(c, vout) == (if IsNull(vout[0]) then [] else OutWritten(c, vout[0])) + OutsWritten(c, vout[1..])
  {
  }

  lemma {:induction false} OutsReadWritten(c: Scripts.Curve, vout: seq<TxOut>, avail: seq<bool>, rest: seq<Byte>)
    requires forall i :: 0 <= i < |avail| ==> avail[i] == At(vout, i)
    requires forall i :: |avail| <= i < |vout| ==> IsNull(vout[i])
    ensures OutsRead(c, avail, OutsWritten(c, vout) + rest) == Some(Got(Restored(vout, |avail|), rest))
    decreases |avail|
  {
    hide OutWritten, OutRead, Restored, OutBack, OutsRead, OutsWritten;
    if avail == [] {
      OutsReadNone(c, OutsWritten(c, vout) + rest);
      NoOutsWritten(c, vout);
      assert OutsWritten(c, vout) + rest == rest;
      RestoredNone(vout);
    } else {
      var tail := if vout == [] then [] else vout[1..];
      forall i | 0 <= i < |avail| - 1 ensures avail[1..][i] == At(tail, i) { assert avail[i + 1] == At(vout, i + 1); }
      OutsReadWritten(c, tail, avail[1..], rest);
      RestoredFront(vout, |avail|);
      OutsWrittenFront(c, vout);
      var s := OutsWritten(c, tail) + rest;
      if avail[0] {
        OutReadWritten(c, vout[0], s);
        assert OutsWritten(c, vout) + rest == OutWritten(c, vout[0]) + s;
        OutsReadFront(c, avail, OutsWritten(c, vout) + rest, Got(OutBack(vout[0]), s));
      } else {
        assert OutsWritten(c, vout) + rest == s;
        OutsReadFront(c, avail, s, Got(NULL_OUT, s));
      }
    }
  }

  // ------------------------------------------------------------------- records

  function Flag(b: bool, n: nat): nat {
    if b then n else 0
  }

  /** The header code. */
  function Code(c: Coins): nat
    requires !IsPruned(c)
  {
    var m := NonZeros(Mask(c.vout));
    NotPrunedShows(c);
    16 * (m - if At(c.vout, 0) || At(c.vout, 1) then 0 else 1)
      + Flag(c.coinBase, 1) + Flag(c.coinStake, 2) + Flag(At(c.vout, 0), 4) + Flag(At(c.vout, 1), 8)
  }

  /** The assertion of Serialize: a record that is not pruned has an available output that the header shows. */
  lemma NotPrunedShows(c: Coins)
    requires !IsPruned(c)
    ensures At(c.vout, 0) || At(c.vout, 1) || NonZeros(Mask(c.vout)) > 0
  {
    hide TrimZeros, NonZeros, Mask;
    var i :| 0 <= i < |c.vout| && !IsNull(c.vout[i]);
    if i >= 2 {
      AvailableIs(c.vout, i);
      TrimZerosIs(AllMask(c.vout));
      SomeNonZero(c.vout);
    }
  }

  lemma SomeNonZero(vout: seq<TxOut>)
    requires Mask(vout) != []
    ensures NonZeros(Mask(vout)) > 0
  {
    TrimZerosIs(AllMask(vout));
  }

  /** CCoins::Serialize. */
  function Serialized(k: Scripts.Curve, c: Coins): seq<Byte>
    requires !IsPruned(c)
  {
    VarInt.Written(c.version) + (VarInt.Written(Code(c))
      + (Mask(c.vout) + (OutsWritten(k, c.vout) + VarInt.Written(c.height))))
  }

  /** The parts of a header code. */
  datatype Header = Header(coinBase: bool, coinStake: bool, first: bool, second: bool, count: nat)

  function HeaderOf(code: nat): Header {
    Header(code % 2 == 1, code / 2 % 2 == 1, code / 4 % 2 == 1, code / 8 % 2 == 1,
           code / 16 + if code / 4 % 4 != 0 then 0 else 1)
  }

  lemma HeaderOfCode(c: Coins)
    requires !IsPruned(c)
    ensures HeaderOf(Code(c))
         == Header(c.coinBase, c.coinStake, At(c.vout, 0), At(c.vout, 1), NonZeros(Mask(c.vout)))
    ensures var code := Code(c);
      && (code % 2 == 1 <==> c.coinBase) && (code / 2 % 2 == 1 <==> c.coinStake)
      && (code / 4 % 2 == 1 <==> At(c.vout, 0)) && (code / 8 % 2 == 1 <==> At(c.vout, 1))
      && code / 16 == NonZeros(Mask(c.vout)) - if At(c.vout, 0) || At(c.vout, 1) then 0 else 1
  {
    hide Mask, NonZeros;
    NotPrunedShows(c);
    FlagBits(NonZeros(Mask(c.vout)), c.coinBase, c.coinStake, At(c.vout, 0), At(c.vout, 1));
  }

  lemma FlagBits(n: nat, b: bool, s: bool, f: bool, g: bool)
    requires n > 0 || f || g
    ensures var code := 16 * (n - if f || g then 0 else 1) + Flag(b, 1) + Flag(s, 2) + Flag(f, 4) + Flag(g, 8);
      HeaderOf(code) == Header(b, s, f, g, n)
  {
    var m := n - if f || g then 0 else 1;
    var r := Flag(b, 1) + Flag(s, 2) + Flag(f, 4) + Flag(g, 8);
    LowBits(m, r);
    FourFlags(b, s, f, g);
  }

  lemma LowBits(m: nat, r: nat)
    requires r < 16
    ensures var c := 16 * m + r;
      && c % 2 == r % 2 && c / 2 % 2 == r / 2 % 2 && c / 4 % 2 == r / 4 % 2 && c / 8 % 2 == r / 8 % 2
      && c / 4 % 4 == r / 4 % 4 && c / 16 == m
  {
    var c := 16 * m + r;
    Halved(8 * m, r);
    Halved(4 * m, r / 2);
    Halved(2 * m, r / 4);
    Halved(m, r / 8);
    Halvings(c);
    Halvings(r);
    LowTwo(m, r / 4);
  }

  lemma Halved(m: nat, r: nat)
    ensures (2 * m + r) / 2 == m + r / 2 && (2 * m + r) % 2 == r % 2
  {
  }

  lemma Halvings(c: nat)
    ensures c / 4 == c / 2 / 2 && c / 8 == c / 4 / 2 && c / 16 == c / 8 / 2
  {
  }

  lemma LowTwo(m: nat, r: nat)
    ensures (4 * m + r) % 4 == r % 4
  {
  }

  lemma FourFlags(b: bool, s: bool, f: bool, g: bool)
    ensures var r := Flag(b, 1) + Flag(s, 2) + Flag(f, 4) + Flag(g, 8);
      && r < 16
      && r % 2 == Flag(b, 1) && r / 2 % 2 == Flag(s, 1) && r / 4 % 2 == Flag(f, 1) && r / 8 % 2 == Flag(g, 1)
      && (r / 4 % 4 != 0 <==> f || g)
  {
    if b { if s { if f { if g {} else {} } else { if g {} else {} } } else { if f {} else {} } }
  }

  /** The rest of the record, once the header is known. */
  function Body(k: Scripts.Curve, version: nat, h: Header, s: seq<Byte>): Option<Got<Coins>> {
    match ReadMask(h.count, s)
    case None => None
    case Some(mask) =>
      match OutsRead(k, [h.first, h.second] + mask.value, mask.rest)
      case None => None
      case Some(outs) =>
        match VarInt.Read(outs.rest)
        case None => None
        case Some(height) =>
          Some(Got(Cleanup(Coins(h.coinBase, h.coinStake, outs.value, height.value, version)), height.rest))
  }

  /** CCoins::Unserialize. */
  function Unserialized(k: Scripts.Curve, s: seq<Byte>): Option<Got<Coins>> {
    match VarInt.Read(s)
    case None => None
    case Some(version) =>
      match VarInt.Read(version.rest)
      case None => None
      case Some(code) => Body(k, version.value, HeaderOf(code.value), code.rest)
  }

  /** An integer as it is read back. */
  function ReadBack(n: int): nat {
    if n < 0 then n % 128 else n
  }

  /** A record as it is read back: cleaned up, and without what is not stored. */
  function Stored(c: Coins): Coins {
    var vout := Trim(c.vout);
    Coins(c.coinBase, c.coinStake, Trim(Restored(vout, |vout|)), ReadBack(c.height), ReadBack(c.version))
  }

  lemma TrimIs(v: seq<TxOut>, n: nat)
    requires n <= |v| && Tidy(v[..n]) && AllNull(v[n..])
    ensures Trim(v) == v[..n]
  {
    hide Trim, AllNull;
    TrimTail(v);
    AllNullFrom(v, n);
    assert |Trim(v)| == n;
  }

  lemma AllNullFrom(v: seq<TxOut>, n: nat)
    requires n <= |v| && AllNull(v[n..])
    ensures forall i :: n <= i < |v| ==> IsNull(v[i])
  {
    forall i | n <= i < |v| ensures IsNull(v[i]) { assert v[n..][i - n] == v[i]; }
  }

  lemma TrimRestored(vout: seq<TxOut>, n: nat)
    requires forall i :: n <= i < |vout| ==> IsNull(vout[i])
    ensures Trim(Restored(vout, n)) == Trim(Restored(Trim(vout), |Trim(vout)|))
  {
    hide Trim, OutBack;
    var r := Trim(vout);
    var v, w := Restored(vout, n), Restored(r, |r|);
    TrimTail(vout);
    assert r != [] ==> !IsNull(vout[|r| - 1]);
    assert v[..|r|] == w;
    TrimTail(w);
    var s := Trim(w);
    forall i | |s| <= i < n ensures IsNull(v[i]) {
      if i < |r| { assert v[i] == w[i]; }
    }
    assert v[..|s|] == s;
    TrimIs(v, |s|);
  }

  lemma BodyRead(k: Scripts.Curve, c: Coins, rest: seq<Byte>)
    requires !IsPruned(c)
    ensures Body(k, ReadBack(c.version), HeaderOf(Code(c)),
                 Mask(c.vout) + (OutsWritten(k, c.vout) + (VarInt.Written(c.height) + rest)))
         == Some(Got(Stored(c), rest))
  {
    hide AllBits, TrimZeros, NonZeros, OutsRead, OutsWritten, ReadMask, Restored, At, Trim, HeaderOf, Code;
    HeaderOfCode(c);
    var vout := c.vout;
    var outs := OutsWritten(k, vout) + (VarInt.Written(c.height) + rest);
    TrimZerosIs(AllMask(vout));
    ReadMaskWritten(Mask(vout), outs);
    var avail := Available(vout);
    forall i: nat ensures i < |avail| ==> avail[i] == At(vout, i) { AvailableIs(vout, i); }
    forall i | |avail| <= i < |vout| ensures IsNull(vout[i]) { AvailableIs(vout, i); NotAt(vout, i); }
    OutsReadWritten(k, vout, avail, VarInt.Written(c.height) + rest);
    VarInt.ReadWritten(c.height, rest);
    TrimRestored(vout, |avail|);
  }

  lemma NotAt(vout: seq<TxOut>, i: nat)
    requires i < |vout| && !At(vout, i)
    ensures IsNull(vout[i])
  {
  }

  /** Reading what was written gives the record as stored, and consumes exactly the bytes written. */
  lemma UnserializeSerialized(k: Scripts.Curve, c: Coins, rest: seq<Byte>)
    requires !IsPruned(c)
    ensures Unserialized(k, Serialized(k, c) + rest) == Some(Got(Stored(c), rest))
  {
    hide Mask, OutsWritten, Body, Code, HeaderOf, Stored;
    var outs := OutsWritten(k, c.vout) + (VarInt.Written(c.height) + rest);
    var tail := Mask(c.vout) + outs;
    assert Serialized(k, c) + rest == VarInt.Written(c.version) + (VarInt.Written(Code(c)) + tail);
    VarInt.ReadWritten(c.version, VarInt.Written(Code(c)) + tail);
    VarInt.ReadWritten(Code(c), tail);
    BodyRead(k, c, rest);
  }

  /** What a record must be to come back the same. */
  predicate Storable(c: Coins) {
    c.version >= 0 && c.height >= 0 && Tidy(c.vout) && forall i :: 0 <= i < |c.vout| ==> c.vout[i] == OutBack(c.vout[i])
  }

  /** A negative version comes back as another one; DisconnectBlock allows for it where it looks at the outputs of the
      block. */
  lemma VersionIsLost()
    ensures var c := Coins(false, false, [TxOut(5, [], -10)], 7, -1);
      !IsPruned(c) && Stored(c).version == 127 && !Same(Stored(c), c)
  {
    hide Restored, Trim;
    var c := Coins(false, false, [TxOut(5, [], -10)], 7, -1);
    assert !IsNull(c.vout[0]);
  }

  /** Outputs as the rules of the network make them: all money can be compressed, and the rounds of an output are never
      anything but the initial value. */
  predicate Ordinary(o: TxOut) {
    o == NULL_OUT || (!IsNull(o) && Amounts.InWord(o.value) && o.rounds == NULL_OUT.rounds)
  }

  lemma OrdinaryBack(o: TxOut)
    requires Ordinary(o)
    ensures OutBack(o) == o
  {
    hide Amounts.Squeezed, Amounts.Expanded, Amounts.InWord;
    if o != NULL_OUT { Amounts.ComesBack(o.value); }
  }

  /** Of a record with ordinary outputs everything comes back. */
  lemma OrdinaryStored(c: Coins)
    requires c.version >= 0 && c.height >= 0 && Tidy(c.vout)
    requires forall i :: 0 <= i < |c.vout| ==> Ordinary(c.vout[i])
    ensures Stored(c) == c
  {
    hide Ordinary, OutBack, Stored;
    forall i | 0 <= i < |c.vout| ensures c.vout[i] == OutBack(c.vout[i]) { OrdinaryBack(c.vout[i]); }
    StoredSame(c);
  }

  /** A record comes back the same exactly when it is cleaned up and holds nothing that is not stored. */
  lemma StoredSame(c: Coins)
    ensures Stored(c) == c <==> Storable(c)
  {
    hide OutBack, Trim;
    var vout := Trim(c.vout);
    var v := Restored(vout, |vout|);
    NullBack();
    if Stored(c) == c {
      assert Trim(v) == c.vout;
      assert v == c.vout && vout == c.vout;
      forall i | 0 <= i < |c.vout| ensures c.vout[i] == OutBack(c.vout[i]) {
        assert v[i] == c.vout[i];
        NullOnly(c.vout[i]);
      }
    }
    if Storable(c) {
      assert AllNull(c.vout[|c.vout|..]);
      TrimIs(c.vout, |c.vout|);
      assert c.vout[..|c.vout|] == c.vout;
      forall i | 0 <= i < |c.vout| ensures v[i] == c.vout[i] { NullOnly(c.vout[i]); }
      assert v == c.vout;
    }
  }

  lemma NullBack()
    ensures OutBack(NULL_OUT) == NULL_OUT
  {
  }

  lemma NullOnly(o: TxOut)
    ensures IsNull(o) ==> OutBack(o) == NULL_OUT
  {
  }
}
