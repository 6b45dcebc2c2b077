/** JavaScript strings are sequences of UTF-16 code units, and a regular
    expression without the `u` flag matches them unit by unit. A character
    above U+FFFF is two units, a surrogate pair. */
module Utf16 {
  import opened Common

  /** One UTF-16 code unit. */
  type Unit = u: int | 0 <= u < 0x1_0000

  /** A JavaScript string. */
  type Units = seq<Unit>

  predicate IsBmp(c: char)
  {
    (c as int) < 0x1_0000
  }

  predicate IsHighSurrogate(u: Unit)
  {
    0xD800 <= u < 0xDC00
  }

  predicate IsLowSurrogate(u: Unit)
  {
    0xDC00 <= u < 0xE000
  }

  /** The code point a surrogate pair stands for. */
  function PairValue(hi: Unit, lo: Unit): int
    requires IsHighSurrogate(hi) && IsLowSurrogate(lo)
  {
    (hi - 0xD800) * 0x400 + (lo - 0xDC00) + 0x1_0000
  }

  /** The units of one character: the character itself below U+10000, a
      surrogate pair above. */
  function EncodeChar(c: char): (r: Units)
    ensures IsBmp(c) ==> r == [c as int]
    ensures !IsBmp(c) ==> |r| == 2 && IsHighSurrogate(r[0]) && IsLowSurrogate(r[1]) && PairValue(r[0], r[1]) == c as int
  {
    if IsBmp(c) then [c as int]
    else
      var v := c as int - 0x1_0000;
      [0xD800 + v / 0x400, 0xDC00 + v % 0x400]
  }

  /** The UTF-16 form of a text. */
  function Encode(s: string): (r: Units)
    ensures |r| >= |s|
  {
    if |s| == 0 then [] else EncodeChar(s[0]) + Encode(s[1..])
  }

  /** The text a sequence of units spells, or None when a surrogate is unpaired. */
  function Decode(u: Units): Option<string>
  {
    if |u| == 0 then Some([])
    else if IsHighSurrogate(u[0]) then
      if |u| >= 2 && IsLowSurrogate(u[1]) then
        match Decode(u[2..])
        case None => None
        case Some(rest) => Some([PairValue(u[0], u[1]) as char] + rest)
      else None
    else if IsLowSurrogate(u[0]) then None
    else
      match Decode(u[1..])
      case None => None
      case Some(rest) => Some([u[0] as char] + rest)
  }

  /** Encoding loses nothing: the units decode back to the text. */
  lemma {:induction false} DecodeEncode(s: string)
    ensures Decode(Encode(s)) == Some(s)
  {
    if |s| > 0 {
      var head := EncodeChar(s[0]);
      var rest := Encode(s[1..]);
      DecodeEncode(s[1..]);
      assert Encode(s) == head + rest;
      if IsBmp(s[0]) {
        assert (head + rest)[1..] == rest;
      } else {
        assert (head + rest)[2..] == rest;
      }
      assert [s[0]] + s[1..] == s;
    }
  }

  /** A character below U+10000 in front of a text adds its own unit in
      front of the text's units. */
  lemma EncodeBmpCons(c: char, rest: string)
    requires IsBmp(c)
    ensures Encode([c] + rest) == [c as int] + Encode(rest)
  {
    assert ([c] + rest)[0] == c && ([c] + rest)[1..] == rest;
  }

  /** Encoding respects concatenation. */
  lemma {:induction false} EncodeConcat(a: string, b: string)
    ensures Encode(a + b) == Encode(a) + Encode(b)
    decreases |a|
  {
    if |a| == 0 {
      assert a + b == b;
    } else {
      assert (a + b)[0] == a[0];
      assert (a + b)[1..] == a[1..] + b;
      EncodeConcat(a[1..], b);
    }
  }
}
