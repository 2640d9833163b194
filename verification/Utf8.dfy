/** Go's `utf8.DecodeRune` and `utf8.FullRune` over bytes, and what they mean in terms of the
    grammar in section 4 of RFC 3629. */
module Utf8 {
  import opened Common

  type Bytes = seq<byte>

  const NEWLINE: byte := 0x0A
  const QUESTION: byte := 0x3F
  const RUNE_ERROR := 0xFFFD

  /** Bytes in the encoding that a first byte announces; 0 for a byte that starts none. */
  function Announced(b: byte): nat {
    if b < 0x80 then 1
    else if b < 0xC2 then 0
    else if b < 0xE0 then 2
    else if b < 0xF0 then 3
    else if b < 0xF5 then 4
    else 0
  }

  predicate Tail(b: byte) {
    0x80 <= b < 0xC0
  }

  /** The second byte has a narrower range after E0, ED, F0 and F4: no overlong forms, no
      surrogates, nothing above U+10FFFF. */
  predicate SecondOk(first: byte, second: byte) {
    if first == 0xE0 then 0xA0 <= second < 0xC0
    else if first == 0xED then 0x80 <= second < 0xA0
    else if first == 0xF0 then 0x90 <= second < 0xC0
    else if first == 0xF4 then 0x80 <= second < 0x90
    else Tail(second)
  }

  /** A complete character at the start of `p`. */
  predicate StartsWithChar(p: Bytes) {
    && p != []
    && var n := Announced(p[0]);
       0 < n <= |p|
       && (n >= 2 ==> SecondOk(p[0], p[1]))
       && (n >= 3 ==> Tail(p[2]))
       && (n >= 4 ==> Tail(p[3]))
  }

  function CodePoint(p: Bytes): int
    requires StartsWithChar(p)
  {
    match Announced(p[0])
    case 1 => p[0]
    case 2 => Join(p[0] as int - 0xC0, p[1])
    case 3 => Join(Join(p[0] as int - 0xE0, p[1]), p[2])
    case _ => Join(Join(Join(p[0] as int - 0xF0, p[1]), p[2]), p[3])
  }

  /** Append the six bits of a continuation byte. */
  function Join(high: int, tail: byte): int {
    high * 0x40 + (tail as int - 0x80)
  }

  datatype Rune = Rune(value: int, size: nat)

  function DecodeRune(p: Bytes): (r: Rune)
    ensures r.size <= |p| && (p != [] ==> 1 <= r.size <= 4)
  {
    if p == [] then Rune(RUNE_ERROR, 0)
    else if StartsWithChar(p) then Rune(CodePoint(p), Announced(p[0]))
    else Rune(RUNE_ERROR, 1)
  }

  predicate Undecodable(p: Bytes) {
    p != [] && DecodeRune(p) == Rune(RUNE_ERROR, 1)
  }

  /** True unless `p` is empty or could still grow into a character. */
  predicate FullRune(p: Bytes) {
    && p != []
    && (|p| >= Announced(p[0])
        || (|p| > 1 && !SecondOk(p[0], p[1]))
        || (|p| > 2 && !Tail(p[2])))
  }

  // ---- Against the standard ----

  predicate Scalar(c: int) {
    0 <= c < 0xD800 || 0xE000 <= c < 0x11_0000
  }

  /** The continuation byte for the low six bits. */
  function Low(c: nat): byte {
    0x80 + c % 0x40
  }

  /** The encoding table of section 3 of RFC 3629. */
  function Encode(c: int): (p: Bytes)
    requires Scalar(c)
  {
    if c < 0x80 then [c]
    else if c < 0x800 then [0xC0 + c / 0x40, Low(c)]
    else if c < 0x1_0000 then [0xE0 + c / 0x40 / 0x40, Low(c / 0x40), Low(c)]
    else [0xF0 + c / 0x40 / 0x40 / 0x40, Low(c / 0x40 / 0x40), Low(c / 0x40), Low(c)]
  }

  lemma JoinSplit(high: int, tail: byte)
    requires high >= 0 && Tail(tail)
    ensures Join(high, tail) >= 0 && Join(high, tail) / 0x40 == high && Low(Join(high, tail)) == tail
  {
  }

  lemma SplitJoin(c: nat)
    ensures Tail(Low(c)) && Join(c / 0x40, Low(c)) == c
  {
  }

  /** Decoding inverts the standard's encoding, whatever follows it. */
  lemma DecodeInvertsEncode(c: int, rest: Bytes)
    requires Scalar(c)
    ensures DecodeRune(Encode(c) + rest) == Rune(c, |Encode(c)|)
    ensures !Undecodable(Encode(c) + rest)
  {
    var e := Encode(c);
    var p := e + rest;
    assert forall i :: 0 <= i < |e| ==> p[i] == e[i];
    SplitJoin(c);
    SplitJoin(c / 0x40);
    SplitJoin(c / 0x40 / 0x40);
    assert Announced(p[0]) == |e|;
  }

  /** And only encodings decode: what is accepted is the encoding of a Unicode scalar value. */
  lemma EncodeInvertsDecode(p: Bytes)
    requires StartsWithChar(p)
    ensures Scalar(CodePoint(p)) && Encode(CodePoint(p)) == p[..Announced(p[0])]
  {
    var n := Announced(p[0]);
    if n == 2 {
      JoinSplit(p[0] as int - 0xC0, p[1]);
    } else if n == 3 {
      var c := Join(p[0] as int - 0xE0, p[1]);
      JoinSplit(p[0] as int - 0xE0, p[1]);
      JoinSplit(c, p[2]);
    } else if n == 4 {
      var c := Join(p[0] as int - 0xF0, p[1]);
      var d := Join(c, p[2]);
      JoinSplit(p[0] as int - 0xF0, p[1]);
      JoinSplit(c, p[2]);
      JoinSplit(d, p[3]);
    }
  }

  /** U+FFFD itself takes three bytes, so size 1 tells a decoding error from it. */
  lemma ErrorIsSizeOne(p: Bytes)
    requires p != []
    ensures Undecodable(p) <==> !StartsWithChar(p)
  {
  }

  // ---- Cuts ----

  /** What decodes at the start of a full cut decodes the same in the uncut bytes. */
  lemma FullRuneDecides(cut: Bytes, whole: Bytes)
    requires FullRune(cut) && cut <= whole
    ensures DecodeRune(whole) == DecodeRune(cut)
  {
    assert forall i :: 0 <= i < |cut| ==> whole[i] == cut[i];
  }

  /** A cut that is not full is shorter than a character. */
  lemma PartialRuneIsShort(cut: Bytes)
    requires !FullRune(cut)
    ensures |cut| <= 3
  {
  }

  /** And it really could still become one: FullRune is false for exactly the beginnings of characters. */
  lemma PartialRuneCanGrow(cut: Bytes) returns (rest: Bytes)
    requires !FullRune(cut) && cut != []
    ensures rest != [] && StartsWithChar(cut + rest) && Undecodable(cut)
  {
    var second: byte := if cut[0] == 0xE0 then 0xA0 else if cut[0] == 0xF0 then 0x90 else 0x80;
    var missing := Announced(cut[0]) - |cut|;
    rest := (if |cut| == 1 then [second] else []) + [0x80, 0x80, 0x80];
    var p := cut + rest;
    assert forall i :: 0 <= i < |cut| ==> p[i] == cut[i];
  }

  // ---- Validity and repair ----

  predicate ValidUtf8(s: Bytes)
    decreases |s|
  {
    s == [] || (StartsWithChar(s) && ValidUtf8(s[Announced(s[0])..]))
  }

  /** Every undecodable byte becomes '?', everything else stays: the same bytes, valid. */
  function Repair(s: Bytes): (r: Bytes)
    ensures |r| == |s|
    decreases |s|
  {
    if s == [] then []
    else if Undecodable(s) then [QUESTION] + Repair(s[1..])
    else s[..DecodeRune(s).size] + Repair(s[DecodeRune(s).size..])
  }

  lemma {:induction false} RepairIsValid(s: Bytes)
    ensures ValidUtf8(Repair(s))
    decreases |s|
  {
    if s != [] {
      var n := DecodeRune(s).size;
      RepairIsValid(s[n..]);
      var head := if Undecodable(s) then [QUESTION] else s[..n];
      assert Repair(s) == head + Repair(s[n..]);
      assert Repair(s)[|head|..] == Repair(s[n..]);
      assert forall i :: 0 <= i < |head| ==> Repair(s)[i] == head[i];
    }
  }

  /** Valid text is left alone. */
  lemma {:induction false} RepairKeepsValid(s: Bytes)
    requires ValidUtf8(s)
    ensures Repair(s) == s
    decreases |s|
  {
    if s != [] {
      RepairKeepsValid(s[Announced(s[0])..]);
    }
  }

  /** Repair keeps newlines where they are and makes no new ones. */
  lemma {:induction false} RepairKeepsNewlines(s: Bytes, i: nat)
    requires i < |s|
    ensures Repair(s)[i] == NEWLINE <==> s[i] == NEWLINE
    decreases |s|
  {
    var n := DecodeRune(s).size;
    if i >= n {
      RepairKeepsNewlines(s[n..], i - n);
    }
  }

  /** An encoded character stays as it is and repair goes on behind it... */
  lemma RepairOfChar(c: int, rest: Bytes)
    requires Scalar(c)
    ensures Repair(Encode(c) + rest) == Encode(c) + Repair(rest)
    ensures ValidUtf8(Encode(c) + rest) <==> ValidUtf8(rest)
  {
    var s, n := Encode(c) + rest, |Encode(c)|;
    DecodeInvertsEncode(c, rest);
    ErrorIsSizeOne(s);
    assert s[..n] == Encode(c) && s[n..] == rest;
  }

  /** ... and a byte at which none begins becomes '?', and repair goes on with the next byte. */
  lemma RepairOfJunk(s: Bytes)
    requires s != [] && forall c :: Scalar(c) ==> !(Encode(c) <= s)
    ensures Repair(s) == [0x3F] + Repair(s[1..])
    ensures !ValidUtf8(s)
  {
    if StartsWithChar(s) {
      EncodeInvertsDecode(s);
    }
    ErrorIsSizeOne(s);
  }
}
