/** What decoding with `errors="replace"` and encoding again does to the length of a byte
    string. The ranges are those of RFC 3629, section 4. */
module Utf8 {
  type Byte = b: nat | b < 256

  const NEWLINE: Byte := 10

  predicate IsTail(b: Byte) {
    0x80 <= b <= 0xBF
  }

  /** How many bytes the lead byte announces; 0 for a byte that leads nothing. */
  function Announced(b: Byte): nat {
    if b < 0x80 then 1
    else if 0xC2 <= b <= 0xDF then 2
    else if 0xE0 <= b <= 0xEF then 3
    else if 0xF0 <= b <= 0xF4 then 4
    else 0
  }

  /** The second byte is narrower after the lead bytes that would allow overlong forms,
      surrogates or code points past the last. */
  predicate IsSecond(lead: Byte, b: Byte) {
    match lead
    case 0xE0 => 0xA0 <= b <= 0xBF
    case 0xED => 0x80 <= b <= 0x9F
    case 0xF0 => 0x90 <= b <= 0xBF
    case 0xF4 => 0x80 <= b <= 0x8F
    case _ => IsTail(b)
  }

  /** How many of the announced bytes are there and in range: at least the lead byte. */
  function WellFormedPrefix(bs: seq<Byte>): (n: nat)
    requires bs != []
    ensures 1 <= n <= |bs| && n <= 4
    ensures Announced(bs[0]) != 0 ==> n <= Announced(bs[0])
  {
    var want := Announced(bs[0]);
    if want < 2 || |bs| < 2 || !IsSecond(bs[0], bs[1]) then 1
    else if want < 3 || |bs| < 3 || !IsTail(bs[2]) then 2
    else if want < 4 || |bs| < 4 || !IsTail(bs[3]) then 3
    else 4
  }

  /** The head of `bs` is one character, complete. */
  predicate HeadIsCharacter(bs: seq<Byte>)
    requires bs != []
  {
    WellFormedPrefix(bs) == Announced(bs[0])
  }

  predicate IsUtf8(bs: seq<Byte>) {
    bs == [] || (HeadIsCharacter(bs) && IsUtf8(bs[WellFormedPrefix(bs)..]))
  }

  // ---------------------------------------------------------------------------
  // Characters, as they are encoded.
  // ---------------------------------------------------------------------------

  /** A code point other than a surrogate. */
  predicate IsScalar(c: nat) {
    c <= 0x10FFFF && !(0xD800 <= c <= 0xDFFF)
  }

  /** Section 3 of RFC 3629. */
  function Encode(c: nat): (bs: seq<Byte>)
    requires IsScalar(c)
    ensures bs != []
  {
    if c < 0x80 then [c]
    else if c < 0x800 then [0xC0 + c / 64, 0x80 + c % 64]
    else if c < 0x10000 then [0xE0 + c / 4096, 0x80 + c / 64 % 64, 0x80 + c % 64]
    else [0xF0 + c / 262144, 0x80 + c / 4096 % 64, 0x80 + c / 64 % 64, 0x80 + c % 64]
  }

  function EncodeAll(cs: seq<nat>): seq<Byte>
    requires forall i :: 0 <= i < |cs| ==> IsScalar(cs[i])
  {
    if cs == [] then [] else Encode(cs[0]) + EncodeAll(cs[1..])
  }

  lemma TwoInRange(c: nat)
    requires 0x80 <= c < 0x800
    ensures Announced(0xC0 + c / 64) == 2 && IsSecond(0xC0 + c / 64, 0x80 + c % 64)
  {
  }

  lemma ThreeInRange(c: nat)
    requires IsScalar(c) && 0x800 <= c < 0x10000
    ensures 0xE0 <= 0xE0 + c / 4096 <= 0xEF && IsSecond(0xE0 + c / 4096, 0x80 + c / 64 % 64)
  {
    var (top, mid) := (c / 4096, c / 64);
    assert mid / 64 == top && mid == top * 64 + mid % 64;
  }

  lemma FourInRange(c: nat)
    requires IsScalar(c) && 0x10000 <= c
    ensures 0xF0 <= 0xF0 + c / 262144 <= 0xF4 && IsSecond(0xF0 + c / 262144, 0x80 + c / 4096 % 64)
  {
    var (top, mid) := (c / 262144, c / 4096);
    assert mid / 64 == top && mid == top * 64 + mid % 64;
  }

  /** The bytes of a code point announce how many they are, and are all in range. */
  lemma EncodedInRange(c: nat)
    requires IsScalar(c)
    ensures var bs := Encode(c);
            && |bs| == Announced(bs[0])
            && (|bs| > 1 ==> IsSecond(bs[0], bs[1]))
            && (|bs| > 2 ==> IsTail(bs[2]))
            && (|bs| > 3 ==> IsTail(bs[3]))
  {
    if 0x80 <= c < 0x800 { TwoInRange(c); }
    if 0x800 <= c < 0x10000 { ThreeInRange(c); }
    if 0x10000 <= c { FourInRange(c); }
  }

  lemma EncodedIsCharacter(c: nat, rest: seq<Byte>)
    requires IsScalar(c)
    ensures HeadIsCharacter(Encode(c) + rest) && WellFormedPrefix(Encode(c) + rest) == |Encode(c)|
  {
    EncodedInRange(c);
    var (bs, all) := (Encode(c), Encode(c) + rest);
    assert forall i :: 0 <= i < |bs| ==> all[i] == bs[i];
  }

  /** The six bits of a byte after the first. */
  function Six(b: Byte): int {
    b as int - 0x80
  }

  /** The code point of a character, from its bytes. */
  function Scalar(bs: seq<Byte>): int
    requires bs != [] && HeadIsCharacter(bs)
  {
    match WellFormedPrefix(bs)
    case 1 => bs[0]
    case 2 => (bs[0] as int - 0xC0) * 64 + Six(bs[1])
    case 3 => ((bs[0] as int - 0xE0) * 64 + Six(bs[1])) * 64 + Six(bs[2])
    case 4 => (((bs[0] as int - 0xF0) * 64 + Six(bs[1])) * 64 + Six(bs[2])) * 64 + Six(bs[3])
  }

  lemma LastDigit(front: nat, digit: nat)
    requires digit < 64
    ensures (front * 64 + digit) / 64 == front && (front * 64 + digit) % 64 == digit
  {
  }

  lemma TwoBytes(x: Byte, y: Byte)
    requires Announced(x) == 2 && IsSecond(x, y)
    ensures var c := (x as int - 0xC0) * 64 + Six(y); c >= 0 && IsScalar(c) && Encode(c) == [x, y]
  {
  }

  lemma ThreeBytes(x: Byte, y: Byte, z: Byte)
    requires Announced(x) == 3 && IsSecond(x, y) && IsTail(z)
    ensures var c := ((x as int - 0xE0) * 64 + Six(y)) * 64 + Six(z);
            c >= 0 && IsScalar(c) && Encode(c) == [x, y, z]
  {
    LastDigit(x as int - 0xE0, Six(y));
    LastDigit((x as int - 0xE0) * 64 + Six(y), Six(z));
  }

  lemma FourBytes(w: Byte, x: Byte, y: Byte, z: Byte)
    requires Announced(w) == 4 && IsSecond(w, x) && IsTail(y) && IsTail(z)
    ensures var c := (((w as int - 0xF0) * 64 + Six(x)) * 64 + Six(y)) * 64 + Six(z);
            c >= 0 && IsScalar(c) && Encode(c) == [w, x, y, z]
  {
    var top := (w as int - 0xF0) * 64 + Six(x);
    var front := top * 64 + Six(y);
    var c := front * 64 + Six(z);
    LastDigit(w as int - 0xF0, Six(x));
    LastDigit(top, Six(y));
    LastDigit(front, Six(z));
    assert c / 4096 == top && c / 262144 == w as int - 0xF0;
  }

  /** A character encodes its code point. */
  lemma CharacterIsEncoded(bs: seq<Byte>)
    requires bs != [] && HeadIsCharacter(bs)
    ensures Scalar(bs) >= 0 && IsScalar(Scalar(bs)) && Encode(Scalar(bs)) == bs[..WellFormedPrefix(bs)]
  {
    match WellFormedPrefix(bs)
    case 1 =>
    case 2 => TwoBytes(bs[0], bs[1]);
    case 3 => ThreeBytes(bs[0], bs[1], bs[2]);
    case 4 => FourBytes(bs[0], bs[1], bs[2], bs[3]);
  }

  lemma {:induction false} EncodedIsValid(cs: seq<nat>)
    requires forall i :: 0 <= i < |cs| ==> IsScalar(cs[i])
    ensures IsUtf8(EncodeAll(cs))
  {
    if cs != [] {
      EncodedIsCharacter(cs[0], EncodeAll(cs[1..]));
      EncodedIsValid(cs[1..]);
      assert EncodeAll(cs)[|Encode(cs[0])|..] == EncodeAll(cs[1..]);
    }
  }

  /** `decode("utf-8", errors="replace")`: U+FFFD stands for a broken character, as far as it was well
      formed. */
  function Decoded(bs: seq<Byte>): (cs: seq<nat>)
    ensures forall i :: 0 <= i < |cs| ==> IsScalar(cs[i])
  {
    if bs == [] then []
    else
      var c := if HeadIsCharacter(bs) then CharacterIsEncoded(bs); Scalar(bs) else 0xFFFD;
      [c] + Decoded(bs[WellFormedPrefix(bs)..])
  }

  /** Length of `bs` decoded and encoded again: a broken character, as far as it was well
      formed, becomes U+FFFD, which takes three bytes. */
  function Reencoded(bs: seq<Byte>): nat {
    if bs == [] then 0
    else
      var n := WellFormedPrefix(bs);
      (if HeadIsCharacter(bs) then n else 3) + Reencoded(bs[n..])
  }

  /** That is the length of the decoded text, encoded; and valid bytes are what their text encodes to. */
  lemma {:induction false} ReencodedDecoded(bs: seq<Byte>)
    ensures Reencoded(bs) == |EncodeAll(Decoded(bs))|
    ensures IsUtf8(bs) ==> EncodeAll(Decoded(bs)) == bs
    decreases |bs|
  {
    if bs != [] {
      var n, cs := WellFormedPrefix(bs), Decoded(bs);
      ReencodedDecoded(bs[n..]);
      assert cs[1..] == Decoded(bs[n..]);
      if HeadIsCharacter(bs) { CharacterIsEncoded(bs); }
      assert bs == bs[..n] + bs[n..];
    }
  }

  /** Re-encoding never shortens. */
  lemma {:induction false} ReencodedAtLeast(bs: seq<Byte>)
    ensures Reencoded(bs) >= |bs|
    decreases |bs|
  {
    if bs != [] { ReencodedAtLeast(bs[WellFormedPrefix(bs)..]); }
  }

  lemma {:induction false} ValidKeepsLength(bs: seq<Byte>)
    requires IsUtf8(bs)
    ensures Reencoded(bs) == |bs|
    decreases |bs|
  {
    if bs != [] { ValidKeepsLength(bs[WellFormedPrefix(bs)..]); }
  }

  /** A newline never falls inside a character, so valid text can be cut after one. */
  lemma {:induction false} CutAfterNewline(bs: seq<Byte>, i: nat)
    requires IsUtf8(bs) && i < |bs| && bs[i] == NEWLINE
    ensures IsUtf8(bs[..i + 1]) && IsUtf8(bs[i + 1..])
    decreases |bs|
  {
    var n, front := WellFormedPrefix(bs), bs[..i + 1];
    assert n <= i + 1;
    assert WellFormedPrefix(front) == n && front[0] == bs[0];
    if n <= i {
      CutAfterNewline(bs[n..], i - n);
      assert front[n..] == bs[n..][..i - n + 1];
      assert bs[n..][i - n + 1..] == bs[i + 1..];
    } else {
      assert front[n..] == [];
    }
  }
}
