/** Base 58 text (src/base58.cpp). Bytes are numbers below 256; a C string is a string without NUL. */
module Base58 {
  import opened Wrappers
  import opened Bytes
  import opened Numbers
  import opened Radix

  // ---------------------------------------------------------------- alphabet

  /** pszBase58, by its six runs of consecutive characters: no 0, I, O or l. */
  function Letter(d: nat): char
    requires d < 58
  {
    if d < 9 then '1' + d as char
    else if d < 17 then 'A' + (d - 9) as char
    else if d < 22 then 'J' + (d - 17) as char
    else if d < 33 then 'P' + (d - 22) as char
    else if d < 44 then 'a' + (d - 33) as char
    else 'm' + (d - 44) as char
  }

  /** mapBase58, by the same runs. */
  function DigitOf(c: char): int {
    if '1' <= c <= '9' then c as int - '1' as int
    else if 'A' <= c <= 'H' then c as int - 'A' as int + 9
    else if 'J' <= c <= 'N' then c as int - 'J' as int + 17
    else if 'P' <= c <= 'Z' then c as int - 'P' as int + 22
    else if 'a' <= c <= 'k' then c as int - 'a' as int + 33
    else if 'm' <= c <= 'z' then c as int - 'm' as int + 44
    else -1
  }

  /** isspace in the C locale. */
  predicate IsSpace(c: char) {
    c == ' ' || 9 <= c as int <= 13
  }

  /** The two tables are inverse to each other. */
  lemma TablesAgree(d: nat, c: char)
    ensures d < 58 ==> DigitOf(Letter(d)) == d && !IsSpace(Letter(d)) && Letter(d) != '\0'
    ensures DigitOf(c) < 58 && (DigitOf(c) >= 0 ==> Letter(DigitOf(c)) == c && !IsSpace(c))
  {
  }

  /** The alphabet is in ascending order. */
  lemma AlphabetRises(d: nat, e: nat)
    requires d < e < 58
    ensures Letter(d) < Letter(e)
  {
  }

  /** It has the digits and the letters of both cases, but for the four that look like others. */
  lemma AlphabetIs(c: char)
    ensures (exists d: nat :: d < 58 && Letter(d) == c) <==>
      ('0' <= c <= '9' || 'A' <= c <= 'Z' || 'a' <= c <= 'z') && c != '0' && c != 'I' && c != 'O' && c != 'l'
    ensures DigitOf(c) >= 0 <==> exists d: nat :: d < 58 && Letter(d) == c
  {
    TablesAgree(0, c);
    if d: nat :| d < 58 && Letter(d) == c { TablesAgree(d, c); }
  }

  predicate InAlphabet(t: string) {
    forall i :: 0 <= i < |t| ==> DigitOf(t[i]) >= 0
  }

  function Letters(s: seq<nat>): string
    requires Digital(58, s)
  {
    seq(|s|, i requires 0 <= i < |s| => Letter(s[i]))
  }

  function DigitsOf(t: string): (s: seq<nat>)
    requires InAlphabet(t)
    ensures |s| == |t|
  {
    seq(|t|, i requires 0 <= i < |t| => DigitOf(t[i]))
  }

  lemma LettersDigits(s: seq<nat>)
    requires Digital(58, s)
    ensures InAlphabet(Letters(s)) && DigitsOf(Letters(s)) == s
  {
    forall i | 0 <= i < |s| ensures DigitOf(Letter(s[i])) == s[i] { TablesAgree(s[i], 'a'); }
  }

  lemma DigitsLetters(t: string)
    requires InAlphabet(t)
    ensures Digital(58, DigitsOf(t)) && Letters(DigitsOf(t)) == t
  {
    forall i | 0 <= i < |t| ensures DigitOf(t[i]) < 58 && Letter(DigitOf(t[i])) == t[i] { TablesAgree(0, t[i]); }
  }

  // ------------------------------------------------------------ change of base

  function LeadingZeros(s: seq<nat>): nat {
    if s == [] || s[0] != 0 then 0 else 1 + LeadingZeros(s[1..])
  }

  function Zeros(n: nat): seq<nat> {
    seq(n, _ => 0)
  }

  /** The same number in another base, with as many leading zeros. */
  function Recode(from: nat, to: nat, s: seq<nat>): seq<nat>
    requires to > 1
  {
    Zeros(LeadingZeros(s)) + Digits(to, Val(from, s))
  }

  lemma {:induction false} LeadingZerosAre(s: seq<nat>, z: nat)
    requires z <= |s| && AllZero(s[..z]) && Canonical(s[z..])
    ensures LeadingZeros(s) == z
  {
    if z > 0 {
      assert s[0] == s[..z][0];
      assert s[1..][..z - 1] == s[..z][1..] && s[1..][z - 1..] == s[z..];
      LeadingZerosAre(s[1..], z - 1);
    }
  }

  lemma {:induction false} LeadingZerosSplit(s: seq<nat>)
    ensures LeadingZeros(s) <= |s|
    ensures s[..LeadingZeros(s)] == Zeros(LeadingZeros(s)) && Canonical(s[LeadingZeros(s)..])
  {
    if s != [] && s[0] == 0 {
      LeadingZerosSplit(s[1..]);
      var z := LeadingZeros(s[1..]);
      assert s[..z + 1] == [0] + s[1..][..z];
      assert s[z + 1..] == s[1..][z..];
    }
  }

  lemma RecodeParts(from: nat, to: nat, s: seq<nat>)
    requires from > 1 && to > 1
    ensures Digital(to, Recode(from, to, s))
    ensures LeadingZeros(Recode(from, to, s)) == LeadingZeros(s)
    ensures Val(to, Recode(from, to, s)) == Val(from, s)
  {
    hide Val, Digits, LeadingZeros;
    var z, ds := Zeros(LeadingZeros(s)), Digits(to, Val(from, s));
    DigitsVal(to, Val(from, s));
    ValLeadingZeros(to, z, ds);
    assert (z + ds)[..|z|] == z && (z + ds)[|z|..] == ds;
    LeadingZerosAre(z + ds, |z|);
  }

  /** Changing the base and back gives the digits there were. */
  lemma RecodeTwice(from: nat, to: nat, s: seq<nat>)
    requires from > 1 && to > 1 && Digital(from, s)
    ensures Recode(to, from, Recode(from, to, s)) == s
  {
    hide Val, Digits, LeadingZeros;
    RecodeParts(from, to, s);
    LeadingZerosSplit(s);
    var z := LeadingZeros(s);
    DigitsLeft(from, s[..z], s[z..]);
    assert s == s[..z] + s[z..];
  }

  // ------------------------------------------------------------- buffer sizes

  lemma SmallFacts()
    ensures Pow(2, 35) <= Pow(58, 6) && Pow(58, 50) <= Pow(2, 293)
  {
    hide Mul;
    FewPowers();
    PowAdd(58, 10, 10);
    PowAdd(58, 20, 20);
    PowAdd(58, 40, 10);
    PowAdd(2, 35, 35);
    PowAdd(2, 70, 70);
    PowAdd(2, 140, 140);
    PowAdd(2, 280, 13);
    Literals();
  }

  lemma FewPowers()
    ensures Pow(58, 6) == 38_068_692_544 && Pow(58, 10) == 430_804_206_899_405_824
    ensures Pow(2, 35) == 34_359_738_368 && Pow(2, 13) == 8192
  {
    hide Mul, Pow;
    SmallPowers();
    PowAdd(2, 7, 7);
    PowAdd(2, 14, 14);
    PowAdd(2, 28, 7);
    MulIs(128, 128);
    MulIs(16_384, 16_384);
    MulIs(268_435_456, 128);
    PowStep(2, 8);
    PowStep(2, 9);
    PowStep(2, 10);
    PowStep(2, 11);
    PowStep(2, 12);
    PowUnit(58);
    PowStep(58, 1);
    PowStep(58, 2);
    PowStep(58, 3);
    PowStep(58, 4);
    PowStep(58, 5);
    PowStep(58, 6);
    PowStep(58, 7);
    PowStep(58, 8);
    PowStep(58, 9);
  }

  lemma Literals()
    ensures var a := 430_804_206_899_405_824; var b := 34_359_738_368;
      var c := Mul(b, b); var e := Mul(c, c); Mul(Mul(Mul(a, a), Mul(a, a)), a) <= Mul(Mul(e, e), 8192)
  {
    hide Mul;
    var a := 430_804_206_899_405_824;
    var b := 34_359_738_368;
    MulIs(a, a);
    MulIs(a * a, a * a);
    MulIs(a * a * (a * a), a);
    MulIs(b, b);
    MulIs(b * b, b * b);
    MulIs(b * b * (b * b), b * b * (b * b));
    MulIs(b * b * (b * b) * (b * b * (b * b)), 8192);
  }

  /** The buffer of EncodeBase58 is large enough: log 256 / log 58 is below 138 / 100. */
  lemma EncodeFits(n: nat)
    ensures Pow(256, n) <= Pow(58, n * 138 / 100 + 1)
  {
    hide Pow, Mul;
    var m := n * 138 / 100 + 1;
    assert 48 * n <= 35 * m;
    SmallFacts();
    PowEight(n);
    PowMul(2, 8 * n, 6);
    PowMul(58, 6, m);
    PowMul(58, m, 6);
    PowMul(2, 35, m);
    PowGrows(2, 48 * n, 35 * m);
    PowOrder(Pow(2, 35), Pow(58, 6), m);
    PowRoot(Pow(256, n), Pow(58, m), 6);
  }

  lemma PowEight(n: nat)
    ensures Pow(256, n) == Pow(2, 8 * n)
  {
    hide Pow;
    PowMul(2, 8, n);
    SmallPowers();
  }

  /** The buffer of DecodeBase58 is large enough: log 58 / log 256 is below 733 / 1000. */
  lemma DecodeFits(n: nat)
    ensures Pow(58, n) <= Pow(256, n * 733 / 1000 + 1)
  {
    hide Pow, Mul;
    var m := n * 733 / 1000 + 1;
    assert 293 * n <= 400 * m;
    SmallFacts();
    PowEight(m);
    PowMul(2, 8 * m, 50);
    PowMul(58, 50, n);
    PowMul(58, n, 50);
    PowMul(2, 293, n);
    PowGrows(2, 293 * n, 400 * m);
    PowOrder(Pow(58, 50), Pow(2, 293), n);
    PowRoot(Pow(58, n), Pow(256, m), 50);
  }

  // ------------------------------------------------------------------ encoding

  function Encoded(b: seq<Byte>): string {
    RecodeParts(256, 58, b);
    Letters(Recode(256, 58, b))
  }

  /** Before each step the number so far leaves room for the rest. */
  lemma Room(from: nat, to: nat, s: seq<nat>, k: nat, size: nat)
    requires from > 1 && k < |s| && Digital(from, s) && Pow(from, |s|) <= Pow(to, size)
    ensures Val(from, s[..k + 1]) == Mul(Val(from, s[..k]), from) + s[k] < Pow(to, size)
  {
    hide Val, Pow;
    assert s[..k + 1] == s[..k] + [s[k]];
    ValAppend(from, s[..k], s[k]);
    ValBound(from, s[..k + 1]);
    PowGrows(from, k + 1, |s|);
  }

  lemma EmptyBuffer(b: nat, s: seq<nat>)
    requires b > 0 && forall i :: 0 <= i < |s| ==> s[i] == 0
    ensures Digital(b, s) && AllZero(s[..|s|]) && Val(b, s) == 0
  {
    ValZeros(b, s);
  }

  /** The number of leading zeros in part of a buffer. */
  method SkipZeros(buffer: array<nat>, start: nat) returns (it: nat)
    requires start <= buffer.Length && AllZero(buffer[..start])
    ensures start <= it <= buffer.Length && AllZero(buffer[..it]) && Canonical(buffer[it..])
  {
    it := start;
    while it < buffer.Length && buffer[it] == 0
      invariant start <= it <= buffer.Length && AllZero(buffer[..it])
    {
      it := it + 1;
    }
  }

  /** EncodeBase58. */
  method Encode(b: seq<Byte>) returns (text: string)
    ensures text == Encoded(b)
  {
    hide Val, Pow, Mul, Digits, LeadingZeros;
    var zeroes := 0;
    while zeroes < |b| && b[zeroes] == 0
      invariant 0 <= zeroes <= |b| && AllZero(b[..zeroes])
    {
      zeroes := zeroes + 1;
    }
    LeadingZerosAre(b, zeroes);
    var rest: seq<nat> := b[zeroes..];
    var size := |rest| * 138 / 100 + 1;
    EncodeFits(|rest|);
    var b58 := new nat[size](_ => 0);
    var length: nat, p: nat := 0, 0;
    ValZeros(58, b58[..]);
    ValEmpty(256);
    while p < |rest|
      invariant 0 <= p <= |rest| && length <= size
      invariant Digital(58, b58[..]) && AllZero(b58[..size - length])
      invariant Val(58, b58[..]) == Val(256, rest[..p])
    {
      Room(256, 58, rest, p, size);
      var carry;
      length, carry := MulAdd(b58, 58, 256, rest[p], length);
      assert carry == 0;
      p := p + 1;
    }
    assert rest[..p] == rest;
    var it := SkipZeros(b58, size - length);
    BufferEncodes(b, zeroes, b58[..], it);
    text := Translate(zeroes, b58, it);
  }

  /** The end of EncodeBase58: the letters of the digits in the buffer. */
  method Translate(zeroes: nat, b58: array<nat>, first: nat) returns (text: string)
    requires Digital(58, b58[..]) && first <= b58.Length
    ensures Digital(58, Zeros(zeroes) + b58[..][first..])
    ensures text == Letters(Zeros(zeroes) + b58[..][first..])
  {
    hide Letter;
    text := seq(zeroes, _ => '1');
    LetterZero();
    ghost var ds := Zeros(zeroes) + b58[..][first..];
    var it := first;
    while it < b58.Length
      invariant first <= it <= b58.Length && |text| == zeroes + it - first
      invariant forall i :: 0 <= i < |text| ==> text[i] == Letter(ds[i])
    {
      assert ds[|text|] == b58[it];
      text := text + [Letter(b58[it])];
      it := it + 1;
    }
  }

  lemma LetterZero()
    ensures Letter(0) == '1'
  {
  }

  /** A buffer that holds the number encodes the bytes. */
  lemma BufferEncodes(b: seq<Byte>, zeroes: nat, buffer: seq<nat>, first: nat)
    requires zeroes <= |b| && first <= |buffer| && AllZero(b[..zeroes]) && LeadingZeros(b) == zeroes
    requires Digital(58, buffer) && AllZero(buffer[..first]) && Canonical(buffer[first..])
    requires Val(58, buffer) == Val(256, b[zeroes..])
    ensures Recode(256, 58, b) == Zeros(zeroes) + buffer[first..]
  {
    hide Val, Digits, LeadingZeros;
    ValSuffix(256, b, zeroes);
    DigitsLeft(58, buffer[..first], buffer[first..]);
    assert buffer == buffer[..first] + buffer[first..];
  }

  // ------------------------------------------------------------------ decoding

  function TrimLeft(s: string): string {
    if s != [] && IsSpace(s[0]) then TrimLeft(s[1..]) else s
  }

  function TrimRight(s: string): string {
    if s != [] && IsSpace(s[|s| - 1]) then TrimRight(s[..|s| - 1]) else s
  }

  predicate Spaces(s: string) {
    forall i :: 0 <= i < |s| ==> IsSpace(s[i])
  }

  /** The bytes a text stands for. */
  function BytesOf(t: string): (b: seq<Byte>)
    requires InAlphabet(t)
  {
    RecodeParts(58, 256, DigitsOf(t));
    Recode(58, 256, DigitsOf(t))
  }

  /** Space around the text is ignored; everything else has to be in the alphabet. */
  function Decoded(psz: string): Option<seq<Byte>> {
    var t := TrimRight(TrimLeft(psz));
    if InAlphabet(t) then Some(BytesOf(t)) else None
  }

  lemma {:induction false} TrimLeftIs(s: string, i: nat)
    requires i <= |s| && Spaces(s[..i]) && (i < |s| ==> !IsSpace(s[i]))
    ensures TrimLeft(s) == s[i..]
  {
    if i > 0 {
      assert s[0] == s[..i][0];
      assert s[1..][..i - 1] == s[..i][1..] && s[1..][i - 1..] == s[i..];
      TrimLeftIs(s[1..], i - 1);
    }
  }

  lemma {:induction false} TrimRightIs(s: string, j: nat)
    requires j <= |s| && Spaces(s[j..]) && (j > 0 ==> !IsSpace(s[j - 1]))
    ensures TrimRight(s) == s[..j]
  {
    if j < |s| {
      assert s[|s| - 1] == s[j..][|s| - 1 - j];
      assert s[..|s| - 1][j..] == s[j..][..|s| - 1 - j] && s[..|s| - 1][..j] == s[..j];
      TrimRightIs(s[..|s| - 1], j);
    } else {
      assert s[..j] == s;
    }
  }

  /** Trimming stops at the last character that is not a space. */
  lemma {:induction false} TrimRightKeeps(s: string, q: nat)
    requires q < |s| && !IsSpace(s[q])
    ensures q < |TrimRight(s)| && TrimRight(s) <= s
  {
    if IsSpace(s[|s| - 1]) { TrimRightKeeps(s[..|s| - 1], q); }
  }

  /** DecodeBase58 on a C string. */
  method Decode(psz: string) returns (r: Option<seq<Byte>>)
    ensures r == Decoded(psz)
  {
    hide TrimLeft, TrimRight, BytesOf;
    var p := 0;
    while p < |psz| && IsSpace(psz[p])
      invariant 0 <= p <= |psz| && Spaces(psz[..p])
    {
      p := p + 1;
    }
    TrimLeftIs(psz, p);
    var ok, q, b := DecodeRun(psz[p..]);
    if !ok {
      TrimRightKeeps(psz[p..], q);
      return None;
    }
    var e := p + q;
    while e < |psz| && IsSpace(psz[e])
      invariant p + q <= e <= |psz| && Spaces(psz[p + q..e])
    {
      assert psz[p + q..e + 1] == psz[p + q..e] + [psz[e]];
      e := e + 1;
    }
    if e < |psz| {
      TrimRightKeeps(psz[p..], e - p);
      assert q < e - p;
      assert TrimRight(psz[p..])[q] == psz[p + q];
      NoSpaceIn(TrimRight(psz[p..]), q);
      return None;
    }
    assert psz[p..][q..] == psz[p + q..e];
    TrimRightIs(psz[p..], q);
    return Some(b);
  }

  lemma NoSpaceIn(t: string, i: nat)
    requires i < |t| && IsSpace(t[i])
    ensures !InAlphabet(t)
  {
    TablesAgree(0, t[i]);
  }

  /** The part of DecodeBase58 that converts, up to a space: it stops where it meets a character outside the
      alphabet. */
  method DecodeRun(s: string) returns (ok: bool, q: nat, b: seq<Byte>)
    ensures q <= |s| && forall i :: 0 <= i < q ==> !IsSpace(s[i])
    ensures InAlphabet(s[..q])
    ensures ok ==> b == BytesOf(s[..q]) && (q < |s| ==> IsSpace(s[q]))
    ensures !ok ==> q < |s| && !IsSpace(s[q]) && DigitOf(s[q]) < 0
  {
    hide Val, Pow, Mul, Digits, LeadingZeros, DigitOf, Digital, AllZero, Canonical, BytesOf;
    var zeroes := 0;
    while zeroes < |s| && s[zeroes] == '1'
      invariant 0 <= zeroes <= |s| && forall i :: 0 <= i < zeroes ==> s[i] == '1'
    {
      zeroes := zeroes + 1;
    }
    OneIsZero();
    var text := s[zeroes..];
    var size := |text| * 733 / 1000 + 1;
    DecodeFits(|text|);
    var b256 := new nat[size](_ => 0);
    var length: nat, p: nat := 0, 0;
    EmptyBuffer(256, b256[..]);
    assert b256[..][..size] == b256[..size];
    ValEmpty(58);
    assert DigitsOf(text[..0]) == [];
    while p < |text| && !IsSpace(text[p])
      invariant 0 <= p <= |text| && length <= size
      invariant forall i :: 0 <= i < p ==> !IsSpace(text[i])
      invariant InAlphabet(text[..p])
      invariant Digital(256, b256[..]) && AllZero(b256[..size - length])
      invariant Val(256, b256[..]) == Val(58, DigitsOf(text[..p]))
    {
      var digit := DigitOf(text[p]);
      if digit < 0 {
        ok, q, b := false, zeroes + p, [];
        RunPrefix(s, zeroes, p);
        return;
      }
      TablesAgree(0, text[p]);
      TextRoom(text, p, size);
      var carry;
      length, carry := MulAdd(b256, 256, 58, digit, length);
      assert carry == 0;
      p := p + 1;
    }
    var it := SkipZeros(b256, size - length);
    ok, q := true, zeroes + p;
    RunPrefix(s, zeroes, p);
    assert b256[..] == b256[..it] + b256[it..];
    SuffixDigital(256, b256[..], it);
    assert b256[..][it..] == b256[it..];
    DigitsLeft(256, b256[..it], b256[it..]);
    RunBytes(s, zeroes, p);
    b := Zeros(zeroes) + b256[it..];
  }

  lemma SuffixDigital(b: nat, s: seq<nat>, k: nat)
    requires Digital(b, s) && k <= |s|
    ensures Digital(b, s[k..])
  {
  }

  lemma OneIsZero()
    ensures DigitOf('1') == 0 && !IsSpace('1')
  {
  }

  lemma TextRoom(text: string, p: nat, size: nat)
    requires p < |text| && InAlphabet(text[..p]) && DigitOf(text[p]) >= 0 && Pow(58, |text|) <= Pow(256, size)
    ensures InAlphabet(text[..p + 1])
    ensures Val(58, DigitsOf(text[..p + 1])) == Mul(Val(58, DigitsOf(text[..p])), 58) + DigitOf(text[p])
    ensures Val(58, DigitsOf(text[..p + 1])) < Pow(256, size)
  {
    hide Val, Pow, Mul, DigitOf;
    assert text[..p + 1] == text[..p] + [text[p]];
    var s := DigitsOf(text[..p + 1]);
    DigitsLetters(text[..p + 1]);
    assert s == DigitsOf(text[..p]) + [DigitOf(text[p])];
    ValAppend(58, DigitsOf(text[..p]), DigitOf(text[p]));
    ValBound(58, s);
    PowGrows(58, p + 1, |text|);
  }

  lemma RunPrefix(s: string, zeroes: nat, p: nat)
    requires zeroes + p <= |s| && (forall i :: 0 <= i < zeroes ==> s[i] == '1') && InAlphabet(s[zeroes..][..p])
    ensures InAlphabet(s[..zeroes + p])
  {
    hide DigitOf;
    OneIsZero();
    forall i | 0 <= i < zeroes + p ensures DigitOf(s[i]) >= 0 {
      if i >= zeroes { assert s[i] == s[zeroes..][..p][i - zeroes]; }
    }
  }

  /** Leading ones become leading zeros, and the rest the digits of the number. */
  lemma RunBytes(s: string, zeroes: nat, p: nat)
    requires zeroes + p <= |s| && (forall i :: 0 <= i < zeroes ==> s[i] == '1')
    requires InAlphabet(s[..zeroes + p]) && InAlphabet(s[zeroes..][..p]) && (p > 0 ==> s[zeroes] != '1')
    ensures BytesOf(s[..zeroes + p]) == Zeros(zeroes) + Digits(256, Val(58, DigitsOf(s[zeroes..][..p])))
  {
    hide Val, Digits, LeadingZeros, DigitOf;
    OneIsZero();
    var all, rest := DigitsOf(s[..zeroes + p]), DigitsOf(s[zeroes..][..p]);
    assert AllZero(all[..zeroes]);
    assert all[zeroes..] == rest;
    if p > 0 { OnlyOneIsZero(s[zeroes]); }
    LeadingZerosAre(all, zeroes);
    ValLeadingZeros(58, all[..zeroes], rest);
    assert all == all[..zeroes] + rest;
  }

  lemma OnlyOneIsZero(c: char)
    requires c != '1'
    ensures DigitOf(c) != 0
  {
  }

  // --------------------------------------------------------------- round trips

  lemma TrimNothing(t: string)
    requires InAlphabet(t)
    ensures TrimRight(TrimLeft(t)) == t
  {
    forall i | 0 <= i < |t| ensures !IsSpace(t[i]) { TablesAgree(0, t[i]); }
    TrimLeftIs(t, 0);
    TrimRightIs(t, |t|);
  }

  /** Decoding an encoding gives the bytes back. */
  lemma DecodeEncode(b: seq<Byte>)
    ensures Decoded(Encoded(b)) == Some(b)
  {
    hide TrimLeft, TrimRight, LeadingZeros, Val, Digits;
    RecodeParts(256, 58, b);
    LettersDigits(Recode(256, 58, b));
    TrimNothing(Encoded(b));
    RecodeTwice(256, 58, b);
  }

  /** Encoding what a text stands for gives the text back. */
  lemma EncodeDecode(t: string)
    requires InAlphabet(t)
    ensures Encoded(BytesOf(t)) == t && Decoded(t) == Some(BytesOf(t))
  {
    hide TrimLeft, TrimRight, LeadingZeros, Val, Digits;
    DigitsLetters(t);
    RecodeTwice(58, 256, DigitsOf(t));
    TrimNothing(t);
  }

  /** A text is accepted exactly when, without the space around it, it is the encoding of some bytes. */
  lemma AcceptsEncodings(psz: string, b: seq<Byte>)
    ensures Decoded(psz) == Some(b) <==> TrimRight(TrimLeft(psz)) == Encoded(b)
  {
    hide TrimLeft, TrimRight, Encoded, BytesOf;
    var t := TrimRight(TrimLeft(psz));
    if InAlphabet(t) { EncodeDecode(t); }
    DecodeEncode(b);
    EncodedLetters(b);
    TrimNothing(Encoded(b));
  }

  lemma EncodedLetters(b: seq<Byte>)
    ensures InAlphabet(Encoded(b))
  {
    RecodeParts(256, 58, b);
    LettersDigits(Recode(256, 58, b));
  }

  // ------------------------------------------------------------------- checksum

  /** Hash, of which only the first four bytes are used here. */
  type Hasher = h: seq<Byte> -> seq<Byte> | forall s :: |h(s)| == 32 witness _ => seq(32, _ => 0)

  /** EncodeBase58Check. */
  method EncodeCheck(hash: Hasher, b: seq<Byte>) returns (text: string)
    ensures text == Encoded(b + hash(b)[..4])
  {
    text := Encode(b + hash(b)[..4]);
  }

  /** DecodeBase58Check on a C string: it accepts exactly the texts that EncodeBase58Check gives, up to space around
      them. */
  method DecodeCheck(hash: Hasher, psz: string) returns (r: Option<seq<Byte>>)
    ensures forall b: seq<Byte> :: r == Some(b) <==> TrimRight(TrimLeft(psz)) == Encoded(b + hash(b)[..4])
  {
    hide TrimLeft, TrimRight, Encoded, Decoded;
    var got := Decode(psz);
    if got == None || |got.value| < 4 {
      r := None;
    } else {
      var n := |got.value| - 4;
      r := if hash(got.value[..n])[..4] != got.value[n..] then None else Some(got.value[..n]);
      assert got.value == got.value[..n] + got.value[n..];
    }
    forall b: seq<Byte> ensures r == Some(b) <==> TrimRight(TrimLeft(psz)) == Encoded(b + hash(b)[..4]) {
      var full := b + hash(b)[..4];
      AcceptsEncodings(psz, full);
      assert full[..|b|] == b && full[|b|..] == hash(b)[..4];
    }
  }

  /** The C string in a std::string: everything before its first NUL. */
  function CString(s: string): string {
    if s == [] || s[0] == '\0' then [] else [s[0]] + CString(s[1..])
  }

  method DecodeString(s: string) returns (r: Option<seq<Byte>>)
    ensures r == Decoded(CString(s))
    ensures '\0' !in s ==> r == Decoded(s)
  {
    NoNul(s);
    r := Decode(CString(s));
  }

  lemma {:induction false} NoNul(s: string)
    ensures '\0' !in s ==> CString(s) == s
  {
    if s != [] && '\0' !in s { NoNul(s[1..]); }
  }
}
