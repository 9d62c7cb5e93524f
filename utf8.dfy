/** UTF-8, as Python's `str.encode()` produces it and `bytes.decode()`
    (strict mode) accepts it; see Table 3-7 of the Unicode Standard for the
    well-formed byte sequences. */
module Utf8 {
  import opened Common

  /** The one to four bytes encoding one Unicode scalar value. */
  function EncodeChar(c: char): (r: seq<byte>)
    ensures 1 <= |r| <= 4
    ensures (c as int < 0x80) <==> |r| == 1
    ensures c as int < 0x80 ==> r[0] == c as int
  {
    var v := c as int;
    if v < 0x80 then [v]
    else if v < 0x800 then [0xC0 + v / 64, 0x80 + v % 64]
    else if v < 0x10000 then [0xE0 + v / 4096, 0x80 + (v / 64) % 64, 0x80 + v % 64]
    else [0xF0 + v / 262144, 0x80 + (v / 4096) % 64, 0x80 + (v / 64) % 64, 0x80 + v % 64]
  }

  /** Python's `s.encode()`. */
  function Encode(s: string): seq<byte>
  {
    if s == [] then [] else EncodeChar(s[0]) + Encode(s[1..])
  }

  predicate IsContinuation(b: byte)
  {
    0x80 <= b <= 0xBF
  }

  /** Length of the well-formed sequence that `b` begins with, or 0 when `b`
      does not begin with one. */
  function WellFormedPrefix(b: seq<byte>): (n: nat)
    ensures n <= |b| && n <= 4
  {
    if |b| == 0 then 0
    else if b[0] <= 0x7F then 1
    else if 0xC2 <= b[0] <= 0xDF then
      (if |b| >= 2 && IsContinuation(b[1]) then 2 else 0)
    else if 0xE0 <= b[0] <= 0xEF then
      var lo := if b[0] == 0xE0 then 0xA0 else 0x80;
      var hi := if b[0] == 0xED then 0x9F else 0xBF;
      (if |b| >= 3 && lo <= b[1] <= hi && IsContinuation(b[2]) then 3 else 0)
    else if 0xF0 <= b[0] <= 0xF4 then
      var lo := if b[0] == 0xF0 then 0x90 else 0x80;
      var hi := if b[0] == 0xF4 then 0x8F else 0xBF;
      (if |b| >= 4 && lo <= b[1] <= hi && IsContinuation(b[2]) && IsContinuation(b[3]) then 4 else 0)
    else 0
  }

  /** `b.decode()` succeeds: `b` is a concatenation of well-formed sequences. */
  predicate IsValid(b: seq<byte>)
    decreases |b|
  {
    b == [] || (WellFormedPrefix(b) > 0 && IsValid(b[WellFormedPrefix(b)..]))
  }

  lemma EncodeCharWellFormed(c: char, rest: seq<byte>)
    ensures WellFormedPrefix(EncodeChar(c) + rest) == |EncodeChar(c)|
  {
    var v := c as int;
    var e := EncodeChar(c);
    var b := e + rest;
    if v < 0x80 {
    } else if v < 0x800 {
      assert b[0] == 0xC0 + v / 64 && b[1] == 0x80 + v % 64;
    } else if v < 0x10000 {
      assert v < 0xD800 || v >= 0xE000;
      assert b[0] == 0xE0 + v / 4096 && b[1] == 0x80 + (v / 64) % 64;
      assert v < 0x1000 ==> v / 64 >= 32;
      assert v / 4096 == 0xD ==> v < 0xD800;
    } else {
      assert b[0] == 0xF0 + v / 262144 && b[1] == 0x80 + (v / 4096) % 64;
      assert v < 0x40000 ==> v / 4096 >= 16;
      assert v / 262144 == 4 ==> v / 4096 - 256 < 16;
    }
  }

  /** Everything `encode` produces, `decode` accepts. */
  lemma {:induction false} EncodeIsValid(s: string)
    ensures IsValid(Encode(s))
  {
    if s != [] {
      var e := EncodeChar(s[0]);
      EncodeIsValid(s[1..]);
      EncodeCharWellFormed(s[0], Encode(s[1..]));
      assert (e + Encode(s[1..]))[|e|..] == Encode(s[1..]);
    }
  }

  /** Bytes below 0x80 decode one by one: ASCII is valid UTF-8. */
  lemma {:induction false} AsciiIsValid(b: seq<byte>)
    requires forall i :: 0 <= i < |b| ==> b[i] < 0x80
    ensures IsValid(b)
    decreases |b|
  {
    if b != [] {
      AsciiIsValid(b[1..]);
    }
  }
}
