/** The "modified UTF-8" text encoding of CONSTANT_Utf8 entries (section 4.4.7 of
    the Java Virtual Machine Specification, Java SE 8), as `readUTF` of
    `java.io.DataInput` decodes it: one byte for code units 1..0x7F, two bytes
    for 0 and 0x80..0x7FF, three bytes for the rest; no four-byte forms. */
module ModifiedUtf8 {
  import opened Primitives

  /** Adds a decoded code unit in front of the rest of the decoding. */
  function Prepend(c: JChar, rest: Option<JString>): Option<JString>
  {
    match rest
    case None => None
    case Some(s) => Some([c] + s)
  }

  predicate IsContinuation(b: Byte)
  {
    b / 64 == 2   // (b & 0xC0) == 0x80
  }

  /** Decodes the bytes the way `DataInputStream.readUTF` does once it has read
      the length prefix and the body; `None` is its UTFDataFormatException. The
      decoder accepts overlong forms (as Java's does) and rejects bytes whose
      top nibble is 8..11 or 15, a truncated sequence at the end, and a
      continuation byte that does not start with the bits 10. A decoded text has
      at most one code unit per byte. */
  function Decode(bs: seq<Byte>): (r: Option<JString>)
    ensures r.Some? ==> |r.value| <= |bs|
    decreases |bs|
  {
    if bs == [] then Some([])
    else
      var c: int := bs[0];
      if c / 16 <= 7 then
        Prepend(c, Decode(bs[1..]))
      else if c / 16 == 12 || c / 16 == 13 then
        if |bs| < 2 || !IsContinuation(bs[1]) then None
        else Prepend((c % 32) * 64 + bs[1] as int % 64, Decode(bs[2..]))
      else if c / 16 == 14 then
        if |bs| < 3 || !IsContinuation(bs[1]) || !IsContinuation(bs[2]) then None
        else Prepend((c % 16) * 4096 + (bs[1] as int % 64) * 64 + bs[2] as int % 64, Decode(bs[3..]))
      else
        None
  }

  /** The encoding a Java compiler writes for one code unit. */
  function EncodeUnit(c: JChar): (r: seq<Byte>)
    ensures 1 <= |r| <= 3
  {
    if 1 <= c < 0x80 then [c]
    else if c < 0x800 then [0xC0 + c / 64, 0x80 + c % 64]
    else [0xE0 + c / 4096, 0x80 + (c / 64) % 64, 0x80 + c % 64]
  }

  function Encode(s: JString): seq<Byte>
  {
    if s == [] then [] else EncodeUnit(s[0]) + Encode(s[1..])
  }

  /** One encoded code unit decodes back to itself, whatever follows it. */
  lemma DecodeUnit(c: JChar, rest: seq<Byte>)
    ensures Decode(EncodeUnit(c) + rest) == Prepend(c, Decode(rest))
  {
    if 1 <= c < 0x80 {
      DecodeOneByte(c, rest);
    } else if c < 0x800 {
      DecodeTwoBytes(c, rest);
    } else {
      DecodeThreeBytes(c, rest);
    }
  }

  lemma DecodeOneByte(c: JChar, rest: seq<Byte>)
    requires 1 <= c < 0x80
    ensures Decode(EncodeUnit(c) + rest) == Prepend(c, Decode(rest))
  {
    var bs := [c as Byte] + rest;
    assert EncodeUnit(c) == [c];
    assert bs[0] == c && bs[1..] == rest;
  }

  lemma DecodeTwoBytes(c: JChar, rest: seq<Byte>)
    requires c == 0 || 0x80 <= c < 0x800
    ensures Decode(EncodeUnit(c) + rest) == Prepend(c, Decode(rest))
  {
    var x, y: Byte := 0xC0 + c / 64, 0x80 + c % 64;
    var bs := [x, y] + rest;
    assert EncodeUnit(c) == [x, y];
    assert bs[0] == x && bs[1] == y && bs[2..] == rest;
    assert (x as int % 32) * 64 + y as int % 64 == (c / 64) * 64 + c % 64 == c;
  }

  lemma DecodeThreeBytes(c: JChar, rest: seq<Byte>)
    requires 0x800 <= c
    ensures Decode(EncodeUnit(c) + rest) == Prepend(c, Decode(rest))
  {
    var hi, mid, lo := c / 4096, (c / 64) % 64, c % 64;
    var x, y, z: Byte := 0xE0 + hi, 0x80 + mid, 0x80 + lo;
    var bs := [x, y, z] + rest;
    assert EncodeUnit(c) == [x, y, z];
    assert bs[0] == x && bs[1] == y && bs[2] == z && bs[3..] == rest;
    assert c % 4096 == mid * 64 + lo;
    assert c == hi * 4096 + c % 4096;
    assert (x as int % 16) * 4096 + (y as int % 64) * 64 + z as int % 64 == c;
  }

  /** Every string survives encoding and decoding: `readUTF` returns exactly
      the text that was encoded. */
  lemma {:induction false} DecodeEncode(s: JString)
    ensures Decode(Encode(s)) == Some(s)
  {
    if s != [] {
      DecodeEncode(s[1..]);
      DecodeUnit(s[0], Encode(s[1..]));
      assert s == [s[0]] + s[1..];
    }
  }

  /** Text of code units 1..0x7F is stored byte for byte. */
  lemma {:induction false} EncodeAscii(s: JString)
    requires forall i :: 0 <= i < |s| ==> 1 <= s[i] < 0x80
    ensures Encode(s) == s
  {
    if s != [] {
      EncodeAscii(s[1..]);
    }
  }
}
