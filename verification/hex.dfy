/** Small helper types shared by the model. */
module Wrappers {
  datatype Option<T> = None | Some(value: T)
}

/** Upper-case, zero-padded, two-digit-per-byte hexadecimal rendering of tile
    data, and its decoder. */
module Hex {
  import opened Wrappers

  /** The characters the rendering may produce: 0-9 and upper-case A-F. */
  predicate IsHexDigit(c: char)
  {
    '0' <= c <= '9' || 'A' <= c <= 'F'
  }

  /** The upper-case hexadecimal digit of a nibble. */
  function DigitOf(v: nat): (c: char)
    requires v < 16
    ensures IsHexDigit(c)
  {
    if v < 10 then ('0' as int + v) as char else ('A' as int + (v - 10)) as char
  }

  /** The value of an upper-case hexadecimal digit, if `c` is one; the inverse
      of `DigitOf`. */
  function DigitValue(c: char): (r: Option<nat>)
    ensures r.Some? <==> IsHexDigit(c)
    ensures r.Some? ==> r.value < 16 && DigitOf(r.value) == c
  {
    if '0' <= c <= '9' then Some(c as int - '0' as int)
    else if 'A' <= c <= 'F' then Some(c as int - 'A' as int + 10)
    else None
  }

  /** One byte as two digits, high nibble first, zero-padded. */
  function ByteToHex(b: bv8): (s: string)
    ensures |s| == 2
    ensures IsHexDigit(s[0]) && IsHexDigit(s[1])
  {
    [DigitOf(b as int / 16), DigitOf(b as int % 16)]
  }

  /** The hex rendering of a tile: the bytes' two-digit forms concatenated in
      order, with no separators. */
  function ToHexString(data: seq<bv8>): (s: string)
    ensures |s| == 2 * |data|
    ensures forall k :: 0 <= k < |s| ==> IsHexDigit(s[k])
  {
    if data == [] then "" else ByteToHex(data[0]) + ToHexString(data[1..])
  }

  /** The byte whose high nibble is `hi` and low nibble is `lo`. */
  function FromNibbles(hi: nat, lo: nat): bv8
    requires hi < 16 && lo < 16
  {
    ((hi as bv8) << 4) | (lo as bv8)
  }

  /** Parses a string of digit pairs back into bytes; `None` for an odd length
      or a character that is not an upper-case hexadecimal digit. */
  function FromHexString(s: string): (r: Option<seq<bv8>>)
    decreases |s|
  {
    if s == [] then Some([])
    else if |s| == 1 then None
    else match (DigitValue(s[0]), DigitValue(s[1]), FromHexString(s[2..]))
      case (Some(hi), Some(lo), Some(rest)) => Some([FromNibbles(hi, lo)] + rest)
      case _ => None
  }

  /** A concrete rendering: upper-case digits, each byte zero-padded to two. */
  lemma HexExample()
    ensures ToHexString([0x0A, 0xF0, 0x00]) == "0AF000"
  {
  }

  /** Byte `i` of the tile occupies positions `2i` (high nibble) and `2i + 1`
      (low nibble) of its rendering. */
  lemma {:induction false} HexAt(data: seq<bv8>, i: nat)
    requires i < |data|
    ensures ToHexString(data)[2 * i] == DigitOf(data[i] as int / 16)
    ensures ToHexString(data)[2 * i + 1] == DigitOf(data[i] as int % 16)
  {
    if i > 0 {
      HexAt(data[1..], i - 1);
    }
  }

  lemma SmallToBv(x: nat)
    requires x < 16
    ensures (x as bv8) as int == x
  {
  }

  lemma BvToInt(b: bv8)
    ensures (b as int) as bv8 == b
  {
  }

  lemma HighNibble(b: bv8)
    ensures b as int / 16 == (b >> 4) as int
  {
  }

  lemma LowNibble(b: bv8)
    ensures b as int % 16 == (b & 0xF) as int
  {
  }

  /** A byte is recovered from its two nibbles. */
  lemma ByteFromNibbles(b: bv8)
    ensures FromNibbles(b as int / 16, b as int % 16) == b
  {
    HighNibble(b);
    LowNibble(b);
    BvToInt(b >> 4);
    BvToInt(b & 0xF);
  }

  /** The high nibble of a byte assembled from two nibbles is the first. */
  lemma HighOfNibbles(hi: nat, lo: nat)
    requires hi < 16 && lo < 16
    ensures FromNibbles(hi, lo) as int / 16 == hi
  {
    var b := FromNibbles(hi, lo);
    HighNibble(b);
    assert b >> 4 == hi as bv8;
    SmallToBv(hi);
  }

  /** The low nibble of a byte assembled from two nibbles is the second. */
  lemma LowOfNibbles(hi: nat, lo: nat)
    requires hi < 16 && lo < 16
    ensures FromNibbles(hi, lo) as int % 16 == lo
  {
    var b := FromNibbles(hi, lo);
    LowNibble(b);
    assert b & 0xF == lo as bv8;
    SmallToBv(lo);
  }

  /** A digit reads back as the nibble it was made from. */
  lemma DigitRoundTrip(v: nat)
    requires v < 16
    ensures DigitValue(DigitOf(v)) == Some(v)
  {
  }

  /** Decoding the rendering of any tile gives back its bytes. */
  lemma {:induction false} DecodeEncode(data: seq<bv8>)
    ensures FromHexString(ToHexString(data)) == Some(data)
  {
    if data != [] {
      var b, tail := data[0], data[1..];
      var hi, lo := b as int / 16, b as int % 16;
      var s := ToHexString(data);
      assert s == [DigitOf(hi), DigitOf(lo)] + ToHexString(tail);
      assert s[2..] == ToHexString(tail);
      DigitRoundTrip(hi);
      DigitRoundTrip(lo);
      DecodeEncode(tail);
      ByteFromNibbles(b);
      assert FromHexString(s) == Some([FromNibbles(hi, lo)] + tail);
      assert [b] + tail == data;
    }
  }

  /** Every string the decoder accepts is the rendering of what it decodes to,
      so the rendering is the only spelling of a tile. */
  lemma {:induction false} EncodeDecode(s: string, data: seq<bv8>)
    requires FromHexString(s) == Some(data)
    ensures ToHexString(data) == s
    decreases |s|
  {
    if s != [] {
      var hi, lo := DigitValue(s[0]).value, DigitValue(s[1]).value;
      var rest := FromHexString(s[2..]).value;
      assert data == [FromNibbles(hi, lo)] + rest;
      HighOfNibbles(hi, lo);
      LowOfNibbles(hi, lo);
      EncodeDecode(s[2..], rest);
      assert data[1..] == rest;
      assert s == s[..2] + s[2..];
    }
  }

  /** The decoder accepts exactly the strings of even length made of
      upper-case hexadecimal digits. */
  lemma {:induction false} DecodeAccepts(s: string)
    ensures FromHexString(s).Some? <==> |s| % 2 == 0 && forall k :: 0 <= k < |s| ==> IsHexDigit(s[k])
    decreases |s|
  {
    if |s| >= 2 {
      DecodeAccepts(s[2..]);
      assert forall k :: 2 <= k < |s| ==> s[k] == s[2..][k - 2];
    }
  }
}
