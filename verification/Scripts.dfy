/** Compression of output scripts (src/compressor.cpp, src/compressor.h). What is known of the curve is a parameter:
    which uncompressed keys are valid, and how a compressed key is decompressed. */
module Scripts {
  import opened Wrappers
  import opened Bytes
  import opened VarInt

  type Script = seq<Byte>

  const OP_DUP: Byte := 0x76
  const OP_HASH160: Byte := 0xa9
  const OP_EQUAL: Byte := 0x87
  const OP_EQUALVERIFY: Byte := 0x88
  const OP_CHECKSIG: Byte := 0xac
  const SPECIAL_SCRIPTS := 6

  /** IsFullyValid and Decompress of CPubKey. */
  datatype CurveFns = CurveFns(valid: seq<Byte> -> bool, decompress: seq<Byte> -> Option<seq<Byte>>)

  /** A key with its second coordinate reduced to its parity. */
  function Halved(key: seq<Byte>): seq<Byte>
    requires |key| == 65
  {
    [2 + key[64] % 2] + key[1..33]
  }

  ghost predicate CurveOk(c: CurveFns) {
    && (forall key :: |key| == 65 && key[0] == 4 && c.valid(key) ==> c.decompress(Halved(key)) == Some(key))
    && (forall half :: c.decompress(half).Some? ==> |c.decompress(half).value| == 65)
  }

  /** Decompression undoes compression on valid keys, and gives 65 bytes. */
  type Curve = c: CurveFns | CurveOk(c) witness CurveFns(_ => false, _ => None)

  predicate IsToKeyID(s: Script) {
    |s| == 25 && s[0] == OP_DUP && s[1] == OP_HASH160 && s[2] == 20 && s[23] == OP_EQUALVERIFY && s[24] == OP_CHECKSIG
  }

  predicate IsToScriptID(s: Script) {
    |s| == 23 && s[0] == OP_HASH160 && s[1] == 20 && s[22] == OP_EQUAL
  }

  /** A compressed key. */
  predicate IsToShortKey(s: Script) {
    |s| == 35 && s[0] == 33 && s[34] == OP_CHECKSIG && (s[1] == 2 || s[1] == 3)
  }

  /** An uncompressed key, which has to be valid to be compressible. */
  predicate IsToLongKey(c: Curve, s: Script) {
    |s| == 67 && s[0] == 65 && s[66] == OP_CHECKSIG && s[1] == 4 && c.valid(s[1..66])
  }

  /** CScriptCompressor::Compress. */
  function Compress(c: Curve, s: Script): (out: Option<seq<Byte>>)
    ensures out.Some? ==>
      out.value != [] && out.value[0] < SPECIAL_SCRIPTS && |out.value| == 1 + SpecialSize(out.value[0])
  {
    if IsToKeyID(s) then Some([0] + s[3..23])
    else if IsToScriptID(s) then Some([1] + s[2..22])
    else if IsToShortKey(s) then Some([s[1]] + s[2..34])
    else if IsToLongKey(c, s) then Some([4 + s[65] % 2] + s[2..34])
    else None
  }

  /** GetSpecialSize. */
  function SpecialSize(n: nat): nat {
    if n <= 1 then 20 else if n <= 5 then 32 else 0
  }

  /** CScriptCompressor::Decompress into an empty script; a key that is not on the curve leaves it empty. */
  function Decompress(c: Curve, n: nat, s: seq<Byte>): Script
    requires n < SPECIAL_SCRIPTS && |s| == SpecialSize(n)
  {
    if n == 0 then [OP_DUP, OP_HASH160, 20] + s + [OP_EQUALVERIFY, OP_CHECKSIG]
    else if n == 1 then [OP_HASH160, 20] + s + [OP_EQUAL]
    else if n <= 3 then [33, n] + s + [OP_CHECKSIG]
    else match c.decompress([n - 2] + s)
      case None => []
      case Some(key) => [65] + key + [OP_CHECKSIG]
  }

  /** Decompressing gives the script back. */
  lemma DecompressCompress(c: Curve, s: Script)
    requires Compress(c, s).Some?
    ensures var out := Compress(c, s).value; Decompress(c, out[0], out[1..]) == s
  {
    var out := Compress(c, s).value;
    if IsToKeyID(s) {
      assert out[1..] == s[3..23];
    } else if IsToScriptID(s) {
      assert out[1..] == s[2..22];
    } else if IsToShortKey(s) {
      assert out[1..] == s[2..34];
    } else {
      var key := s[1..66];
      assert out[1..] == s[2..34] == key[1..33];
      assert [out[0] - 2] + out[1..] == Halved(key);
    }
  }

  // ---------------------------------------------------------------- framing

  /** CScriptCompressor::Serialize. */
  function Written(c: Curve, s: Script): seq<Byte> {
    match Compress(c, s)
    case Some(out) => out
    case None => VarInt.Written(|s| + SPECIAL_SCRIPTS) + s
  }

  function Take(s: seq<Byte>, n: nat): Option<Got<seq<Byte>>> {
    if n <= |s| then Some(Got(s[..n], s[n..])) else None
  }

  /** CScriptCompressor::Unserialize. */
  function Read(c: Curve, s: seq<Byte>): Option<Got<Script>> {
    match VarInt.Read(s)
    case None => None
    case Some(size) =>
      if size.value < SPECIAL_SCRIPTS then
        match Take(size.rest, SpecialSize(size.value))
        case None => None
        case Some(g) => Some(Got(Decompress(c, size.value, g.value), g.rest))
      else Take(size.rest, size.value - SPECIAL_SCRIPTS)
  }

  /** The first byte tells the forms apart: 0 and 1 for key and script hashes, 2 and 3 for short keys, 4 and 5 for long
      ones by the parity of their second coordinate, and anything else for a script stored whole. */
  lemma FirstByte(c: Curve, s: Script)
    ensures var out := Written(c, s);
      && out != []
      && (out[0] == 0 <==> IsToKeyID(s)) && (out[0] == 1 <==> IsToScriptID(s))
      && (out[0] == 2 || out[0] == 3 <==> IsToShortKey(s)) && (IsToShortKey(s) ==> out[0] == s[1])
      && (out[0] == 4 || out[0] == 5 <==> IsToLongKey(c, s)) && (IsToLongKey(c, s) ==> out[0] % 2 == s[65] % 2)
  {
    if Compress(c, s).None? { VarInt.FirstDigit(|s| + SPECIAL_SCRIPTS); }
  }

  /** Every script is read back, whatever follows it. */
  lemma ReadWritten(c: Curve, s: Script, rest: seq<Byte>)
    ensures Read(c, Written(c, s) + rest) == Some(Got(s, rest))
  {
    match Compress(c, s)
    case Some(out) =>
      var tail := out[1..] + rest;
      assert out + rest == VarInt.Written(out[0]) + tail;
      VarInt.ReadWritten(out[0], tail);
      assert tail[..SpecialSize(out[0])] == out[1..] && tail[SpecialSize(out[0])..] == rest;
      DecompressCompress(c, s);
    case None =>
      var size := VarInt.Written(|s| + SPECIAL_SCRIPTS);
      assert size + s + rest == size + (s + rest);
      VarInt.ReadWritten(|s| + SPECIAL_SCRIPTS, s + rest);
      assert (s + rest)[..|s|] == s && (s + rest)[|s|..] == rest;
  }
}
