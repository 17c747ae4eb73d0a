/** Java-level primitive values used by the class-file scanner: unsigned bytes,
    UTF-16 code units, the 32- and 64-bit two's-complement wrap-around of Java's
    `int` and `long`, big-endian composition, and the exceptions the scanner can
    raise, as values. */
module Primitives {

  /** One byte of a class file, as its unsigned value (Java's `b & 0xff`). */
  type Byte = x: int | 0 <= x < 256

  /** A Java `char`: one UTF-16 code unit. */
  type JChar = x: int | 0 <= x < 0x1_0000

  /** A Java `String`: a sequence of UTF-16 code units. */
  type JString = seq<JChar>

  /** The Java text s is the string literal t, character by character. */
  predicate Spells(s: JString, t: string)
  {
    |s| == |t| && forall i :: 0 <= i < |s| ==> s[i] == t[i] as int
  }

  /** A Java `int`. */
  type JInt = x: int | -0x8000_0000 <= x < 0x8000_0000

  const MaxInt: int := 0x7FFF_FFFF

  /** The exceptions the cursor and the decoder can raise. Each one aborts the
      current class file; none of them stops a scan. */
  datatype Error =
    | EOF                     // java.io.EOFException
    | IllegalArgument         // IllegalArgumentException from seek
    | IndexOutOfBounds        // IndexOutOfBoundsException from readFully
    | UtfDataFormat           // UTFDataFormatException from readUTF
    | ClassFormat             // ClassFormatError: unknown tag
    | ArrayIndexOutOfBounds   // constant-pool index out of range
    | ClassCast               // a slot that is neither text nor absent where text is expected
    | NullPointer             // a null type name dereferenced
    | NegativeArraySize       // buffer capacity doubled past Integer.MAX_VALUE
    | NoReporter              // AssertionError: the reporter implements none of the reporter interfaces

  datatype Result<T> = Ok(value: T) | Err(error: Error)

  datatype Outcome = Pass | Fail(error: Error)

  datatype Option<T> = None | Some(value: T)

  /** Java's wrap-around of `int` arithmetic: the unique integer in
      [-2^31, 2^31) congruent to `x` modulo 2^32 (WrapShort and WrapLong are
      the same for 16 and 64 bits). */
  function WrapInt(x: int): (r: int)
    ensures -0x8000_0000 <= r < 0x8000_0000
    ensures (x - r) % 0x1_0000_0000 == 0
    ensures -0x8000_0000 <= x < 0x8000_0000 ==> r == x
  {
    var m := x % 0x1_0000_0000;
    if m < 0x8000_0000 then m else m - 0x1_0000_0000
  }

  function WrapShort(x: int): (r: int)
    ensures -0x8000 <= r < 0x8000
    ensures (x - r) % 0x1_0000 == 0
    ensures -0x8000 <= x < 0x8000 ==> r == x
  {
    var m := x % 0x1_0000;
    if m < 0x8000 then m else m - 0x1_0000
  }

  function WrapLong(x: int): (r: int)
    ensures -0x8000_0000_0000_0000 <= r < 0x8000_0000_0000_0000
    ensures (x - r) % 0x1_0000_0000_0000_0000 == 0
    ensures -0x8000_0000_0000_0000 <= x < 0x8000_0000_0000_0000 ==> r == x
  {
    var m := x % 0x1_0000_0000_0000_0000;
    if m < 0x8000_0000_0000_0000 then m else m - 0x1_0000_0000_0000_0000
  }

  /** Java's `(byte)` reading of a stored byte. */
  function SignedByte(b: Byte): (r: int)
    ensures -128 <= r < 128
    ensures (r - b) % 256 == 0
  {
    if b < 128 then b else b - 256
  }

  function Pow256(n: nat): (r: nat)
    ensures r >= 1
  {
    if n == 0 then 1 else 256 * Pow256(n - 1)
  }

  /** The unsigned big-endian number the bytes `s` spell (first byte most significant). */
  function BigEndian(s: seq<Byte>): nat
  {
    if s == [] then 0 else BigEndian(s[..|s| - 1]) * 256 + s[|s| - 1]
  }

  /** A big-endian number of n bytes is below 256^n. */
  lemma {:induction false} BigEndianBound(s: seq<Byte>)
    ensures BigEndian(s) < Pow256(|s|)
  {
    if s != [] {
      BigEndianBound(s[..|s| - 1]);
    }
  }

  /** Appending a byte shifts the number one byte to the left. */
  lemma BigEndianSnoc(s: seq<Byte>, x: Byte)
    ensures BigEndian(s + [x]) == BigEndian(s) * 256 + x
  {
    assert (s + [x])[..|s + [x]| - 1] == s;
  }

  /** Different byte strings of one length spell different numbers. */
  lemma {:induction false} BigEndianInjective(s: seq<Byte>, t: seq<Byte>)
    requires |s| == |t|
    requires BigEndian(s) == BigEndian(t)
    ensures s == t
  {
    if s != [] {
      var n := |s| - 1;
      assert BigEndian(s[..n]) * 256 + s[n] == BigEndian(t[..n]) * 256 + t[n];
      assert s[n] == t[n] && BigEndian(s[..n]) == BigEndian(t[..n]);
      BigEndianInjective(s[..n], t[..n]);
      assert s == s[..n] + [s[n]] && t == t[..n] + [t[n]];
    }
  }

  /** Concatenation: the bytes of `t` take the low |t| bytes of the number. */
  lemma {:induction false} BigEndianAppend(s: seq<Byte>, t: seq<Byte>)
    ensures BigEndian(s + t) == BigEndian(s) * Pow256(|t|) + BigEndian(t)
  {
    if t != [] {
      var n := |t| - 1;
      assert (s + t)[..|s + t| - 1] == s + t[..n];
      BigEndianAppend(s, t[..n]);
      var a, q, c := BigEndian(s), Pow256(n), BigEndian(t[..n]);
      assert BigEndian(s + t) == (a * q + c) * 256 + t[n];
      ShiftByte(a, q, c, t[n]);
      assert BigEndian(t) == c * 256 + t[n];
      assert Pow256(|t|) == 256 * q;
    } else {
      assert s + t == s;
    }
  }

  lemma ShiftByte(a: int, q: int, c: int, x: int)
    ensures (a * q + c) * 256 + x == a * (256 * q) + (c * 256 + x)
  {
  }

  lemma BigEndian2(s: seq<Byte>)
    requires |s| == 2
    ensures BigEndian(s) == s[0] as int * 0x100 + s[1] as int
  {
    assert s[..1][..0] == [];
    assert BigEndian(s[..1]) == BigEndian([]) * 256 + s[0];
  }

  lemma BigEndian4(s: seq<Byte>)
    requires |s| == 4
    ensures BigEndian(s) == s[0] as int * 0x100_0000 + s[1] as int * 0x1_0000 + s[2] as int * 0x100 + s[3] as int
  {
    BigEndian2(s[2..]);
    BigEndian2(s[..2]);
    BigEndianAppend(s[..2], s[2..]);
    assert s == s[..2] + s[2..];
  }

  lemma BigEndian8(s: seq<Byte>)
    requires |s| == 8
    ensures BigEndian(s) == BigEndian(s[..4]) * 0x1_0000_0000 + BigEndian(s[4..])
  {
    BigEndianAppend(s[..4], s[4..]);
    assert s == s[..4] + s[4..];
    assert Pow256(4) == 0x1_0000_0000;
  }
}
