/**
 * UTF-16 as section 2.1 of RFC 2781 defines it: a scalar value below U+10000
 * is one 16-bit code unit; any other is a surrogate pair, the high unit
 * carrying the top ten bits of `v - 0x10000` and the low unit the bottom ten.
 * This is what Rust's `str::encode_utf16` yields for the menu texts.
 */
module Utf16 {
  import opened Common

  newtype CodeUnit = x: int | 0 <= x < 0x1_0000

  /** Number of code units the encoding of `c` takes. */
  function Width(c: char): nat
  {
    if c as int < 0x1_0000 then 1 else 2
  }

  /** Sum of the widths of the characters of `s`. */
  function EncodedLength(s: string): nat
  {
    if s == [] then 0 else Width(s[0]) + EncodedLength(s[1..])
  }

  function EncodeChar(c: char): seq<CodeUnit>
  {
    var v := c as int;
    if v < 0x1_0000 then [v as CodeUnit]
    else
      var u := v - 0x1_0000;
      [(0xD800 + u / 0x400) as CodeUnit, (0xDC00 + u % 0x400) as CodeUnit]
  }

  /** `s.encode_utf16()`. */
  function Encode(s: string): seq<CodeUnit>
  {
    if s == [] then [] else EncodeChar(s[0]) + Encode(s[1..])
  }

  /** The inverse of `Encode`: `None` on an unpaired surrogate. */
  function Decode(units: seq<CodeUnit>): (r: Option<string>)
    decreases |units|
  {
    if units == [] then Some([])
    else
      var u := units[0] as int;
      if u < 0xD800 || 0xE000 <= u then
        match Decode(units[1..])
        case None => None
        case Some(rest) => Some([u as char] + rest)
      else if u < 0xDC00 && 2 <= |units| && 0xDC00 <= units[1] as int < 0xE000 then
        var high := u - 0xD800;
        var low := units[1] as int - 0xDC00;
        assert high * 0x400 <= 0x3FF * 0x400;
        var v := 0x1_0000 + high * 0x400 + low;
        match Decode(units[2..])
        case None => None
        case Some(rest) => Some([v as char] + rest)
      else None
  }

  lemma {:induction false} EncodeLength(s: string)
    ensures |Encode(s)| == EncodedLength(s)
  {
    if s != [] {
      EncodeLength(s[1..]);
    }
  }

  /** Decoding an encoded string gives the string back. */
  lemma {:induction false} DecodeEncode(s: string)
    ensures Decode(Encode(s)) == Some(s)
  {
    if s != [] {
      DecodeEncode(s[1..]);
      var c := s[0];
      var head := EncodeChar(c);
      var rest := Encode(s[1..]);
      assert Encode(s) == head + rest;
      var v := c as int;
      if v < 0x1_0000 {
        assert (head + rest)[1..] == rest;
        assert [c] + s[1..] == s;
      } else {
        var u := v - 0x1_0000;
        assert (head + rest)[2..] == rest;
        assert (head + rest)[1] == head[1];
        assert 0x1_0000 + (u / 0x400) * 0x400 + u % 0x400 == v;
        assert [c] + s[1..] == s;
      }
    }
  }

  /** No character other than NUL encodes to a zero code unit. */
  lemma {:induction false} EncodeHasNoZero(s: string)
    ensures (forall i :: 0 <= i < |s| ==> s[i] != '\0') ==>
              forall j :: 0 <= j < |Encode(s)| ==> Encode(s)[j] != 0
  {
    if s != [] && forall i :: 0 <= i < |s| ==> s[i] != '\0' {
      EncodeHasNoZero(s[1..]);
      var head := EncodeChar(s[0]);
      assert Encode(s) == head + Encode(s[1..]);
      assert forall j :: 0 <= j < |head| ==> head[j] != 0;
    }
  }

  /**
   * `text.encode_utf16().chain(once(0))`: the text as it is handed to
   * `AppendMenuW`, the encoding of `s` followed by one 0 unit.
   */
  function WideString(s: string): (w: seq<CodeUnit>)
    ensures |w| == EncodedLength(s) + 1
    ensures w[|w| - 1] == 0
    ensures Decode(w[..|w| - 1]) == Some(s)
    ensures (forall i :: 0 <= i < |s| ==> s[i] != '\0') ==>
              forall j :: 0 <= j < |w| - 1 ==> w[j] != 0
  {
    EncodeLength(s);
    DecodeEncode(s);
    assert (Encode(s) + [0])[..|Encode(s)|] == Encode(s);
    EncodeHasNoZero(s);
    Encode(s) + [0]
  }
}
