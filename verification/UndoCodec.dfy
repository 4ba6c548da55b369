/** The stored form of undo records, which DisconnectBlock reads back from disk (src/undo.h, CTxInUndo and CTxUndo). */
module UndoCodec {
  import opened Wrappers
  import opened Bytes
  import opened Coins
  import opened CoinsSpend
  import Codec = CoinsCodec
  import Scripts
  import VarInt

  /** Heights are unsigned words. */
  const WORD := 0x1_0000_0000

  /** The heights that the code of an undo record has room for. */
  const HEIGHTS := 0x4000_0000

  /** The height and the two flags, in one unsigned word. */
  function Code(u: Undo): nat {
    (4 * u.height + Codec.Flag(u.coinBase, 2) + Codec.Flag(u.coinStake, 1)) % WORD
  }

  /** CTxInUndo::Serialize. */
  function Written(k: Scripts.Curve, u: Undo): seq<Byte> {
    VarInt.Written(Code(u))
      + ((if u.height % WORD > 0 then VarInt.Written(u.version) else []) + Codec.OutWritten(k, u.out))
  }

  /** CTxInUndo::Unserialize, into a new record. */
  function Read(k: Scripts.Curve, s: seq<Byte>): Option<Got<Undo>> {
    match VarInt.Read(s)
    case None => None
    case Some(code) => ReadOn(k, code.value, code.rest)
  }

  /** The rest of the record, once the code is known. */
  function ReadOn(k: Scripts.Curve, code: nat, s: seq<Byte>): Option<Got<Undo>> {
    match (if code / 4 > 0 then VarInt.Read(s) else Some(Got(0, s)))
    case None => None
    case Some(version) =>
      match Codec.OutRead(k, version.rest)
      case None => None
      case Some(out) =>
        Some(Got(Undo(out.value, code / 2 % 2 == 1, code % 2 == 1, code / 4, version.value), out.rest))
  }

  /** An undo record as it is read back. */
  function Back(u: Undo): Undo {
    u.(out := Codec.OutBack(u.out), version := if u.height > 0 then Codec.ReadBack(u.version) else 0)
  }

  /** Undo records as spending makes them. */
  predicate Fits(u: Undo) {
    !IsNull(u.out) && 0 <= u.height < HEIGHTS
  }

  lemma CodeParts(u: Undo)
    requires 0 <= u.height < HEIGHTS
    ensures Code(u) / 4 == u.height && Code(u) / 2 % 2 == Codec.Flag(u.coinBase, 1)
    ensures Code(u) % 2 == Codec.Flag(u.coinStake, 1)
  {
    var r := Codec.Flag(u.coinBase, 2) + Codec.Flag(u.coinStake, 1);
    assert Code(u) == 4 * u.height + r;
    Codec.Halved(2 * u.height, r);
    Codec.Halved(u.height, r / 2);
    Codec.Halvings(Code(u));
  }

  /** Reading what was written gives the record as stored, and consumes exactly the bytes written. */
  lemma ReadWritten(k: Scripts.Curve, u: Undo, rest: seq<Byte>)
    requires Fits(u)
    ensures Read(k, Written(k, u) + rest) == Some(Got(Back(u), rest))
  {
    hide Code, Codec.OutWritten, Back, ReadOn;
    var out := Codec.OutWritten(k, u.out) + rest;
    var version := if u.height > 0 then VarInt.Written(u.version) else [];
    assert Written(k, u) + rest == VarInt.Written(Code(u)) + (version + out);
    VarInt.ReadWritten(Code(u), version + out);
    ReadOnWritten(k, u, rest);
  }

  lemma ReadOnWritten(k: Scripts.Curve, u: Undo, rest: seq<Byte>)
    requires Fits(u)
    ensures var out := Codec.OutWritten(k, u.out) + rest;
      ReadOn(k, Code(u), (if u.height > 0 then VarInt.Written(u.version) else []) + out) == Some(Got(Back(u), rest))
  {
    hide Code, Codec.OutWritten, Codec.OutRead, Codec.OutBack;
    CodeParts(u);
    var out := Codec.OutWritten(k, u.out) + rest;
    VarInt.ReadWritten(u.version, out);
    assert [] + out == out;
    Codec.OutReadWritten(k, u.out, rest);
  }

  /** What an undo record must be to come back the same: a negative version does not, nor does a version without a
      height, or a height that takes more than 30 bits. */
  predicate Keeps(u: Undo) {
    u.height < HEIGHTS && Codec.OutBack(u.out) == u.out && if u.height > 0 then u.version >= 0 else u.version == 0
  }

  /** An undo record comes back the same exactly then. */
  lemma ComesBack(k: Scripts.Curve, u: Undo)
    requires !IsNull(u.out) && 0 <= u.height < WORD
    ensures Read(k, Written(k, u)) == Some(Got(u, [])) <==> Keeps(u)
  {
    hide Codec.OutWritten, Codec.OutRead, Codec.OutBack;
    if u.height < HEIGHTS {
      assert Written(k, u) + [] == Written(k, u);
      ReadWritten(k, u, []);
    } else {
      var tail := Written(k, u)[|VarInt.Written(Code(u))|..];
      assert Written(k, u) == VarInt.Written(Code(u)) + tail;
      VarInt.ReadWritten(Code(u), tail);
    }
  }

  // ------------------------------------------------------- transactions and blocks

  function Backs(us: seq<Undo>): (r: seq<Undo>)
    ensures |r| == |us|
  {
    seq(|us|, i requires 0 <= i < |us| => Back(us[i]))
  }

  /** CTxUndo, without the number of its records in front. */
  function ListWritten(k: Scripts.Curve, us: seq<Undo>): seq<Byte> {
    if us == [] then [] else Written(k, us[0]) + ListWritten(k, us[1..])
  }

  function ListRead(k: Scripts.Curve, n: nat, s: seq<Byte>): Option<Got<seq<Undo>>> {
    if n == 0 then Some(Got([], s))
    else match Read(k, s)
      case None => None
      case Some(u) =>
        match ListRead(k, n - 1, u.rest)
        case None => None
        case Some(us) => Some(Got([u.value] + us.value, us.rest))
  }

  predicate AllFit(us: seq<Undo>) {
    forall i :: 0 <= i < |us| ==> Fits(us[i])
  }

  lemma {:induction false} ListReadWritten(k: Scripts.Curve, us: seq<Undo>, rest: seq<Byte>)
    requires AllFit(us)
    ensures ListRead(k, |us|, ListWritten(k, us) + rest) == Some(Got(Backs(us), rest))
    decreases |us|
  {
    hide Written, Read, Back, Fits;
    if us == [] {
      assert ListWritten(k, us) + rest == rest;
    } else {
      var tail := ListWritten(k, us[1..]) + rest;
      assert ListWritten(k, us) + rest == Written(k, us[0]) + tail;
      ReadWritten(k, us[0], tail);
      ListReadWritten(k, us[1..], rest);
      assert Backs(us) == [Back(us[0])] + Backs(us[1..]);
    }
  }

  function AllBacks(uss: seq<seq<Undo>>): (r: seq<seq<Undo>>)
    ensures |r| == |uss|
  {
    seq(|uss|, i requires 0 <= i < |uss| => Backs(uss[i]))
  }

  function Lengths(uss: seq<seq<Undo>>): seq<nat> {
    seq(|uss|, i requires 0 <= i < |uss| => |uss[i]|)
  }

  /** CBlockUndo, likewise. */
  function BlockWritten(k: Scripts.Curve, uss: seq<seq<Undo>>): seq<Byte> {
    if uss == [] then [] else ListWritten(k, uss[0]) + BlockWritten(k, uss[1..])
  }

  function BlockRead(k: Scripts.Curve, ns: seq<nat>, s: seq<Byte>): Option<Got<seq<seq<Undo>>>>
    decreases |ns|
  {
    if ns == [] then Some(Got([], s))
    else match ListRead(k, ns[0], s)
      case None => None
      case Some(us) =>
        match BlockRead(k, ns[1..], us.rest)
        case None => None
        case Some(uss) => Some(Got([us.value] + uss.value, uss.rest))
  }

  /** The undo records of a block come back as stored. */
  lemma {:induction false} BlockReadWritten(k: Scripts.Curve, uss: seq<seq<Undo>>, rest: seq<Byte>)
    requires forall i :: 0 <= i < |uss| ==> AllFit(uss[i])
    ensures BlockRead(k, Lengths(uss), BlockWritten(k, uss) + rest) == Some(Got(AllBacks(uss), rest))
    decreases |uss|
  {
    hide ListWritten, ListRead, Backs, AllFit;
    if uss == [] {
      assert BlockWritten(k, uss) + rest == rest;
    } else {
      var tail := BlockWritten(k, uss[1..]) + rest;
      assert BlockWritten(k, uss) + rest == ListWritten(k, uss[0]) + tail;
      ListReadWritten(k, uss[0], tail);
      BlockReadWritten(k, uss[1..], rest);
      assert Lengths(uss)[1..] == Lengths(uss[1..]);
      assert AllBacks(uss) == [Backs(uss[0])] + AllBacks(uss[1..]);
    }
  }
}
