/**
 * `getStringFromBuffer` of lib/utils.ts: every byte of a buffer written as two
 * lowercase hexadecimal digits, joined without separator.
 */
module BufferHex {
  import opened Wrappers
  import opened NumberText

  type Byte = b: int | 0 <= b < 256

  predicate IsLowerHex(c: char) { IsDigitOf(c, 16) }

  /** `b.toString(16).padStart(2, "0")`: the high nibble, then the low nibble. */
  function ByteToHex(b: Byte): (s: string)
    ensures s == [DigitChar(b / 16), DigitChar(b % 16)]
  {
    HexPair(b);
    PadStart(ToRadix(b, 16), 2, '0')
  }

  lemma HexPair(b: Byte)
    ensures PadStart(ToRadix(b, 16), 2, '0') == [DigitChar(b / 16), DigitChar(b % 16)]
  {
    if b < 16 {
      assert ToRadix(b, 16) == [DigitChar(b)];
      assert PadStart(ToRadix(b, 16), 2, '0') == PadStart(['0', DigitChar(b)], 2, '0');
    } else {
      assert ToRadix(b / 16, 16) == [DigitChar(b / 16)];
      assert ToRadix(b, 16) == [DigitChar(b / 16), DigitChar(b % 16)];
    }
  }

  /** `Array.from(new Uint8Array(buffer)).map(...).join("")` */
  function GetStringFromBuffer(buffer: seq<Byte>): (s: string)
    ensures |s| == 2 * |buffer|
    ensures forall i :: 0 <= i < |s| ==> IsLowerHex(s[i])
  {
    if buffer == [] then "" else ByteToHex(buffer[0]) + GetStringFromBuffer(buffer[1..])
  }

  /** Reads a string of lowercase hex digit pairs back into bytes; None when it is not one. */
  function BufferFromString(s: string): Option<seq<Byte>>
    decreases |s|
  {
    if s == [] then Some([])
    else if |s| == 1 || !IsLowerHex(s[0]) || !IsLowerHex(s[1]) then None
    else
      match BufferFromString(s[2..])
      case None => None
      case Some(rest) => Some([DigitValue(s[0]) * 16 + DigitValue(s[1])] + rest)
  }

  /** Byte `i` of the buffer is written at characters `2i` and `2i+1`. */
  lemma {:induction false} ByteAt(buffer: seq<Byte>, i: int)
    requires 0 <= i < |buffer|
    ensures GetStringFromBuffer(buffer)[2 * i..2 * i + 2] == ByteToHex(buffer[i])
  {
    var s := GetStringFromBuffer(buffer);
    var head := ByteToHex(buffer[0]);
    var tail := GetStringFromBuffer(buffer[1..]);
    assert s == head + tail;
    if i > 0 {
      ByteAt(buffer[1..], i - 1);
      assert s[2 * i..2 * i + 2] == tail[2 * (i - 1)..2 * (i - 1) + 2];
    }
  }

  /** Decoding the encoded string gives back the buffer. */
  lemma {:induction false} DecodeEncode(buffer: seq<Byte>)
    ensures BufferFromString(GetStringFromBuffer(buffer)) == Some(buffer)
  {
    if buffer != [] {
      var s := GetStringFromBuffer(buffer);
      var b := buffer[0];
      DecodeEncode(buffer[1..]);
      assert s[2..] == GetStringFromBuffer(buffer[1..]);
      DigitRoundTrip(b / 16);
      DigitRoundTrip(b % 16);
      assert [buffer[0]] + buffer[1..] == buffer;
    }
  }

  /** Every string of lowercase hex pairs is the encoding of the buffer it decodes to. */
  lemma {:induction false} EncodeDecode(s: string, buffer: seq<Byte>)
    requires BufferFromString(s) == Some(buffer)
    ensures GetStringFromBuffer(buffer) == s
    decreases |s|
  {
    if s != [] {
      var rest := BufferFromString(s[2..]).value;
      EncodeDecode(s[2..], rest);
      var hi, lo := DigitValue(s[0]), DigitValue(s[1]);
      assert buffer == [hi * 16 + lo] + rest;
      assert (hi * 16 + lo) / 16 == hi && (hi * 16 + lo) % 16 == lo;
      DigitCharOf(s[0]);
      DigitCharOf(s[1]);
      assert buffer[1..] == rest;
      assert s == s[..2] + s[2..];
    }
  }
}
