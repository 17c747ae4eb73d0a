/** The byte cursor over one class file: a growable array `buffer`, the number
    `size` of bytes it holds and the read position `pointer`. The pure reads at
    the top of the module say what each read of the cursor yields at a position
    of a byte string; the class `ClassFileBuffer` is the cursor itself. */
module ClassFileBuffers {
  import opened Primitives
  import ModifiedUtf8

  /** The capacity the decoder's buffer starts with (8 KiB). */
  const DefaultCapacity: int := 8 * 1024

  /** Doubling a capacity of 2^30 or more overflows Java's `int`, so no buffer
      grows beyond this. */
  const MaxCapacity: int := 0x4000_0000

  /** Capacities are powers of two: 8 KiB doubled. */
  predicate PowerOfTwo(n: int)
    decreases n
  {
    if n <= 1 then n == 1 else n % 2 == 0 && PowerOfTwo(n / 2)
  }

  lemma MaxCapacityIsPowerOfTwo()
    ensures PowerOfTwo(MaxCapacity)
  {
    assert PowerOfTwo(0x400);
    assert PowerOfTwo(0x10_0000);
    assert PowerOfTwo(0x4000_0000);
  }

  /** Doubling a power of two below a larger power of two stays within it. */
  lemma {:induction false} DoubleWithin(n: int, bound: int)
    requires PowerOfTwo(n) && PowerOfTwo(bound) && n < bound
    ensures 2 * n <= bound && PowerOfTwo(2 * n)
    decreases n
  {
    assert (2 * n) / 2 == n;
    if n > 1 {
      DoubleWithin(n / 2, bound / 2);
    }
  }

  /** The bytes of one class file; a buffer never holds more than its capacity. */
  type ClassBytes = b: seq<Byte> | |b| <= MaxCapacity

  /** The result of reading at a position: the value and the position after it,
      or the exception raised. */
  datatype Parse<T> = Parsed(value: T, next: nat) | Failed(error: Error)

  /** `readUnsignedByte` at position p of b. */
  function ReadU1(b: seq<Byte>, p: nat): (r: Parse<int>)
    ensures r.Parsed? <==> p < |b|
    ensures r.Parsed? ==> r.next == p + 1 && 0 <= r.value < 256 && r.value == b[p]
    ensures r.Failed? ==> r.error == EOF
  {
    if p >= |b| then Failed(EOF) else Parsed(b[p], p + 1)
  }

  /** `readUnsignedShort` at position p of b: two bytes, high byte first. */
  function ReadU2(b: seq<Byte>, p: nat): (r: Parse<int>)
    ensures r.Parsed? <==> p + 2 <= |b|
    ensures r.Parsed? ==> r.next == p + 2 && 0 <= r.value < 0x1_0000
    ensures r.Failed? ==> r.error == EOF
  {
    if p + 2 > |b| then Failed(EOF) else Parsed(b[p] as int * 0x100 + b[p + 1] as int, p + 2)
  }

  /** The value `ReadU2` reads is the big-endian number of its two bytes. */
  lemma ReadU2IsBigEndian(b: seq<Byte>, p: nat)
    requires p + 2 <= |b|
    ensures ReadU2(b, p).value == BigEndian(b[p..p + 2])
  {
    BigEndian2(b[p..p + 2]);
  }

  /** `readInt` at position p of b: the two's-complement value of four bytes,
      high byte first. */
  function ReadI32(b: seq<Byte>, p: nat): (r: Parse<int>)
    ensures r.Parsed? <==> p + 4 <= |b|
    ensures r.Parsed? ==> r.next == p + 4 && -0x8000_0000 <= r.value < 0x8000_0000
    ensures r.Failed? ==> r.error == EOF
  {
    if p + 4 > |b| then Failed(EOF)
    else Parsed(WrapInt(b[p] as int * 0x100_0000 + b[p + 1] as int * 0x1_0000 + b[p + 2] as int * 0x100 + b[p + 3] as int), p + 4)
  }

  /** The value `ReadI32` reads is the big-endian number of its four bytes,
      wrapped to an `int`. */
  lemma ReadI32IsBigEndian(b: seq<Byte>, p: nat)
    requires p + 4 <= |b|
    ensures ReadI32(b, p).value == WrapInt(BigEndian(b[p..p + 4]))
  {
    BigEndian4(b[p..p + 4]);
  }

  /** `skipBytes(n)` at position p of b, that is `seek(p + n)` with Java's `int`
      addition; the value is n. */
  function Skip(b: seq<Byte>, p: nat, n: int): (r: Parse<int>)
    ensures r.Parsed? ==> r.next <= |b| && r.value == n
    ensures -0x8000_0000 <= p + n < 0x8000_0000 ==>
              (r.Parsed? <==> 0 <= p + n <= |b|) &&
              (r.Parsed? ==> r.next == p + n) &&
              (p + n < 0 ==> r == Failed(IllegalArgument)) &&
              (p + n > |b| ==> r == Failed(EOF))
  {
    var target := WrapInt(p + n);
    if target < 0 then Failed(IllegalArgument)
    else if target > |b| then Failed(EOF)
    else Parsed(n, target)
  }

  /** Skipping a signed 32-bit count from inside a class file: a target past
      2^31 - 1 wraps around to a negative one. */
  lemma SkipSigned(b: ClassBytes, p: nat, n: int)
    requires p <= |b| && -0x8000_0000 <= n < 0x8000_0000
    ensures Skip(b, p, n).Parsed? <==> 0 <= p + n <= |b|
    ensures Skip(b, p, n).Parsed? ==> Skip(b, p, n).next == p + n
    ensures p + n < 0 ==> Skip(b, p, n) == Failed(IllegalArgument)
    ensures |b| < p + n < 0x8000_0000 ==> Skip(b, p, n) == Failed(EOF)
    ensures p + n >= 0x8000_0000 ==> Skip(b, p, n) == Failed(IllegalArgument)
  {
    if p + n >= 0x8000_0000 {
      assert WrapInt(p + n) == p + n - 0x1_0000_0000;
    }
  }

  /** `readUTF` at position p of b: an unsigned 16-bit length, then that many
      bytes of modified UTF-8. */
  function ReadUtf(b: seq<Byte>, p: nat): (r: Parse<JString>)
    ensures r.Parsed? ==> p + 2 <= r.next <= |b|
  {
    match ReadU2(b, p)
    case Failed(e) => Failed(e)
    case Parsed(len, q) =>
      if q + len > |b| then Failed(EOF)
      else
        match ModifiedUtf8.Decode(b[q..q + len])
        case None => Failed(UtfDataFormat)
        case Some(s) => Parsed(s, q + len)
  }

  /** The cursor after a call returned `r` and left the read position at `pos`
      agrees with the pure read `spec`. */
  predicate Agrees<T(==)>(r: Result<T>, pos: int, spec: Parse<T>)
  {
    match spec
    case Parsed(v, q) => r == Ok(v) && pos == q
    case Failed(e) => r == Err(e)
  }

  /** What `readLong` computes as written: the first four bytes are shifted
      as `long`s, but the last four are shifted and summed as `int`s, so
      `read() << 24` is negative when the fifth byte is 0x80 or more, and the
      `int` sum is sign-extended when it is added to the `long` part. */
  function LongAsWritten(s: seq<Byte>): (r: int)
    requires |s| == 8
    ensures r == WrapLong(BigEndian(s) - if s[4] >= 128 then 0x1_0000_0000 else 0)
  {
    BigEndian8(s);
    BigEndian4(s[..4]);
    BigEndian4(s[4..]);
    var high := s[0] as int * 0x100_0000_0000_0000 + s[1] as int * 0x1_0000_0000_0000
              + s[2] as int * 0x100_0000_0000 + s[3] as int * 0x1_0000_0000;
    var low := WrapInt(s[4] as int * 0x100_0000) + s[5] as int * 0x1_0000 + s[6] as int * 0x100 + s[7] as int;
    assert high == BigEndian(s[..4]) * 0x1_0000_0000;
    assert WrapInt(s[4] as int * 0x100_0000) == s[4] as int * 0x100_0000 - if s[4] >= 128 then 0x1_0000_0000 else 0;
    WrapLong(high + low)
  }

  /** Two numbers 2^32 apart never wrap to the same `long`. */
  lemma WrapLongApart(x: int)
    ensures WrapLong(x - 0x1_0000_0000) != WrapLong(x)
  {
  }

  /** `readLong` as written returns the two's-complement value of the eight
      bytes exactly when the fifth byte is below 0x80. */
  lemma LongAsWrittenCorrectIff(s: seq<Byte>)
    requires |s| == 8
    ensures LongAsWritten(s) == WrapLong(BigEndian(s)) <==> s[4] < 128
  {
    if s[4] >= 128 {
      WrapLongApart(BigEndian(s));
    }
  }

  /** The bytes 00 00 00 00 80 00 00 00 spell 2^31, but `readLong` as written
      returns -2^31. */
  lemma LongAsWrittenCounterexample()
    ensures LongAsWritten([0, 0, 0, 0, 0x80, 0, 0, 0]) == -0x8000_0000
    ensures WrapLong(BigEndian([0, 0, 0, 0, 0x80, 0, 0, 0])) == 0x8000_0000
  {
    var s: seq<Byte> := [0, 0, 0, 0, 0x80, 0, 0, 0];
    BigEndian8(s);
    BigEndian4(s[..4]);
    BigEndian4(s[4..]);
    assert BigEndian(s) == 0x8000_0000;
  }

  /** The capacity `readFrom` ends with when a buffer of capacity `cap` takes in
      a stream of n bytes, and whether it got there: the capacity doubles each
      time the bytes fill it, and doubling fails from MaxCapacity on. */
  function Grow(cap: nat, n: nat): (r: (nat, bool))
    requires PowerOfTwo(cap) && cap <= MaxCapacity
    ensures PowerOfTwo(r.0) && cap <= r.0 <= MaxCapacity
    ensures r.1 <==> n < r.0
    decreases n + 1 - cap
  {
    if n < cap then (cap, true)
    else if cap >= MaxCapacity then (cap, false)
    else
      MaxCapacityIsPowerOfTwo();
      DoubleWithin(cap, MaxCapacity);
      Grow(2 * cap, n)
  }

  /** A capacity the bytes fill grows as its double does. */
  lemma GrowDoubles(cap: nat, n: nat)
    requires PowerOfTwo(cap) && PowerOfTwo(2 * cap) && 2 * cap <= MaxCapacity && cap <= n
    ensures Grow(cap, n) == Grow(2 * cap, n)
  {
  }

  /** The exception, if any, `readFully(bytes, offset, length)` raises for an
      array of `arrayLength` elements, with Java's `int` additions. */
  function ReadFullyCheck(arrayLength: int, offset: int, length: int, pointer: int, size: int): (r: Outcome)
    ensures r.Pass? ==> 0 <= offset && 0 <= length && offset + length <= arrayLength && pointer + length <= size
    ensures 0 <= pointer && 0 <= offset && 0 <= length && offset + length <= arrayLength && pointer + length <= size ==> r.Pass?
    ensures r.Fail? ==> r.error == IndexOutOfBounds || r.error == EOF
    ensures 0 <= pointer && r == Fail(EOF) ==> pointer + length > size
  {
    if length < 0 || offset < 0 || WrapInt(offset + length) > arrayLength then Fail(IndexOutOfBounds)
    else if WrapInt(pointer + length) > size then Fail(EOF)
    // System.arraycopy rejects what the wrapped sums let through
    else if offset + length > arrayLength || pointer + length > size then Fail(IndexOutOfBounds)
    else Pass
  }

  class ClassFileBuffer {
    var buffer: array<Byte>
    var size: int     // the number of significant bytes read
    var pointer: int  // the read position

    ghost predicate Valid()
      reads this
    {
      PowerOfTwo(buffer.Length) && buffer.Length <= MaxCapacity && 0 <= pointer <= size <= buffer.Length
    }

    /** The bytes of the class file being read. */
    ghost function Contents(): seq<Byte>
      reads this`buffer, this`size, buffer
      requires 0 <= size <= buffer.Length
    {
      buffer[..size]
    }

    /** An empty cursor with the default capacity. */
    constructor ()
      ensures Valid() && fresh(buffer)
      ensures buffer.Length == DefaultCapacity && size == 0 && pointer == 0
    {
      buffer := new Byte[DefaultCapacity];
      size, pointer := 0, 0;
      new;
      assert PowerOfTwo(8192);
    }

    constructor WithCapacity(initialCapacity: int)
      requires PowerOfTwo(initialCapacity) && initialCapacity <= MaxCapacity
      ensures Valid() && fresh(buffer)
      ensures buffer.Length == initialCapacity && size == 0 && pointer == 0
    {
      buffer := new Byte[initialCapacity];
      size, pointer := 0, 0;
    }

    /** An empty cursor of the given capacity; a capacity below 1 is refused. */
    static method Create(initialCapacity: JInt) returns (r: Result<ClassFileBuffer>)
      requires initialCapacity >= 1 ==> PowerOfTwo(initialCapacity) && initialCapacity <= MaxCapacity
      ensures r.Err? <==> initialCapacity < 1
      ensures r.Err? ==> r.error == IllegalArgument
      ensures r.Ok? ==> fresh(r.value) && fresh(r.value.buffer) && r.value.Valid()
      ensures r.Ok? ==> r.value.buffer.Length == initialCapacity && r.value.size == 0 && r.value.pointer == 0
    {
      if initialCapacity < 1 {
        return Err(IllegalArgument);
      }
      var b := new ClassFileBuffer.WithCapacity(initialCapacity);
      return Ok(b);
    }

    /** Clears the cursor and fills it with every byte of the stream `data`.
        Each read of the stream delivers some of its next bytes, at least one
        and at most the free room; the capacity doubles whenever the bytes fill
        it. */
    method ReadFrom(data: seq<Byte>) returns (r: Outcome)
      requires Valid()
      modifies this, buffer
      ensures Valid() && pointer == 0
      ensures buffer == old(buffer) || fresh(buffer)
      ensures Grow(old(buffer.Length), |data|) == (buffer.Length, r.Pass?)
      ensures r.Pass? ==> Contents() == data && size < buffer.Length
      ensures r.Fail? ==> r.error == NegativeArraySize && size == buffer.Length <= |data| && Contents() == data[..size]
    {
      pointer := 0;
      size := 0;
      var rest := data;  // what the stream has not delivered yet
      var n := 0;
      while n >= 0
        invariant Valid() && pointer == 0 && size < buffer.Length
        invariant buffer == old(buffer) || fresh(buffer)
        invariant size + |rest| == |data| && rest == data[size..] && buffer[..size] == data[..size]
        invariant Grow(buffer.Length, |data|) == Grow(old(buffer.Length), |data|)
        invariant n < 0 ==> rest == []
        decreases |rest|, if n >= 0 then 1 else 0
      {
        n, rest, r := ReadChunk(data, rest);
        if r.Fail? {
          return;
        }
      }
      assert Grow(buffer.Length, |data|) == (buffer.Length, true);
      r := Pass;
    }

    /** One turn of the loop of `readFrom`: a read of the stream, then a
        doubling of the capacity if the bytes fill it. */
    method ReadChunk(ghost data: seq<Byte>, rest: seq<Byte>) returns (n: int, rest': seq<Byte>, r: Outcome)
      requires Valid() && pointer == 0 && size < buffer.Length
      requires size + |rest| == |data| && rest == data[size..] && buffer[..size] == data[..size]
      modifies this, buffer
      ensures pointer == 0 && 0 <= size <= buffer.Length && PowerOfTwo(buffer.Length) && buffer.Length <= MaxCapacity
      ensures buffer == old(buffer) || fresh(buffer)
      ensures size + |rest'| == |data| && rest' == data[size..] && buffer[..size] == data[..size]
      ensures Grow(buffer.Length, |data|) == Grow(old(buffer.Length), |data|)
      ensures n < 0 ==> rest' == []
      ensures n >= 0 ==> |rest'| < |rest|
      ensures r.Pass? ==> size < buffer.Length
      ensures r.Fail? ==> r.error == NegativeArraySize && size == buffer.Length && Grow(buffer.Length, |data|) == (buffer.Length, false)
    {
      n, rest' := Deliver(data, rest);
      ghost var filled, cap := buffer[..size], buffer.Length;
      r := ResizeIfNeeded();
      assert buffer[..size] == filled;
      if buffer.Length != cap {
        GrowDoubles(cap, |data|);
      }
    }

    /** A read of the stream, its bytes counted into `size`. */
    method Deliver(ghost data: seq<Byte>, rest: seq<Byte>) returns (n: int, rest': seq<Byte>)
      requires Valid() && pointer == 0 && size < buffer.Length
      requires size + |rest| == |data| && rest == data[size..] && buffer[..size] == data[..size]
      modifies this`size, buffer
      ensures Valid() && old(size) <= size
      ensures size + |rest'| == |data| && rest' == data[size..] && buffer[..size] == data[..size]
      ensures n < 0 ==> rest' == []
      ensures n >= 0 ==> |rest'| < |rest|
    {
      n, rest' := StreamRead(rest);
      if n > 0 {
        assert data[..size + n] == data[..size] + rest[..n];
        size := size + n;
      }
    }

    /** `in.read(buffer, size, buffer.length - size)` on a stream whose
        remaining bytes are `rest`: -1 at the end of the stream, otherwise some
        number n of them, at least one, at most the free room, stored from
        `size` on. */
    method StreamRead(rest: seq<Byte>) returns (n: int, rest': seq<Byte>)
      requires Valid() && size < buffer.Length
      modifies buffer
      ensures rest == [] ==> n == -1 && rest' == [] && buffer[..] == old(buffer[..])
      ensures rest != [] ==> 1 <= n <= buffer.Length - size && n <= |rest| && rest' == rest[n..]
      ensures rest != [] ==> buffer[..size + n] == old(buffer[..size]) + rest[..n]
    {
      if rest == [] {
        return -1, [];
      }
      n :| 1 <= n <= buffer.Length - size && n <= |rest|;
      forall k | 0 <= k < n {
        buffer[size + k] := rest[k];
      }
      assert buffer[..size + n] == old(buffer[..size]) + rest[..n];
      rest' := rest[n..];
    }

    /** Doubles the capacity when the bytes fill it, keeping them. */
    method ResizeIfNeeded() returns (r: Outcome)
      requires PowerOfTwo(buffer.Length) && buffer.Length <= MaxCapacity && 0 <= size <= buffer.Length
      modifies this
      ensures size == old(size) && pointer == old(pointer)
      ensures buffer == old(buffer) || fresh(buffer)
      ensures r.Fail? <==> old(size) >= old(buffer.Length) >= MaxCapacity
      ensures r.Fail? ==> r.error == NegativeArraySize
      ensures buffer.Length == if old(size) >= old(buffer.Length) && r.Pass? then 2 * old(buffer.Length) else old(buffer.Length)
      ensures buffer[..old(buffer.Length)] == old(buffer[..])
      ensures PowerOfTwo(buffer.Length) && buffer.Length <= MaxCapacity
    {
      if size >= buffer.Length {
        var newLength := WrapInt(buffer.Length * 2);
        if newLength < 0 {
          return Fail(NegativeArraySize);
        }
        MaxCapacityIsPowerOfTwo();
        DoubleWithin(buffer.Length, MaxCapacity);
        var newBuffer := new Byte[newLength];
        forall k | 0 <= k < buffer.Length {
          newBuffer[k] := buffer[k];
        }
        buffer := newBuffer;
      }
      return Pass;
    }

    /** Moves the read position to an absolute position. */
    method Seek(position: JInt) returns (r: Outcome)
      requires Valid()
      modifies this`pointer
      ensures Valid()
      ensures r.Pass? <==> 0 <= position <= size
      ensures position < 0 ==> r == Fail(IllegalArgument)
      ensures 0 <= position && position > size ==> r == Fail(EOF)
      ensures pointer == if r.Pass? then position else old(pointer)
    {
      if position < 0 {
        return Fail(IllegalArgument);
      }
      if position > size {
        return Fail(EOF);
      }
      pointer := position;
      return Pass;
    }

    method Size() returns (s: int)
      requires Valid()
      ensures s == |Contents()|
    {
      return size;
    }

    /** Copies the next `length` bytes into bytes[offset..offset + length). */
    method ReadFully(bytes: array<Byte>, offset: JInt, length: JInt) returns (r: Outcome)
      requires Valid()
      modifies this`pointer, bytes
      ensures Valid()
      ensures r == ReadFullyCheck(bytes.Length, offset, length, old(pointer), size)
      ensures r.Fail? ==> pointer == old(pointer) && bytes[..] == old(bytes[..])
      ensures r.Pass? ==> pointer == old(pointer) + length
      ensures r.Pass? ==> bytes[..] == old(bytes[..offset]) + old(buffer[pointer..pointer + length]) + old(bytes[offset + length..])
    {
      r := ReadFullyCheck(bytes.Length, offset, length, pointer, size);
      if r.Fail? {
        return;
      }
      var chunk := buffer[pointer..pointer + length];
      forall k | 0 <= k < length {
        bytes[offset + k] := chunk[k];
      }
      assert bytes[..] == old(bytes[..offset]) + chunk + old(bytes[offset + length..]);
      pointer := pointer + length;
    }

    /** Reads the whole of `bytes`. */
    method ReadFullyArray(bytes: array<Byte>) returns (r: Outcome)
      requires Valid() && bytes.Length <= MaxInt
      modifies this`pointer, bytes
      ensures Valid()
      ensures r == ReadFullyCheck(bytes.Length, 0, bytes.Length, old(pointer), size)
      ensures r.Pass? <==> old(pointer) + bytes.Length <= size
      ensures r.Fail? ==> pointer == old(pointer) && bytes[..] == old(bytes[..])
      ensures r.Pass? ==> pointer == old(pointer) + bytes.Length && bytes[..] == old(buffer[pointer..pointer + bytes.Length])
    {
      r := ReadFully(bytes, 0, bytes.Length);
    }

    /** Moves the read position by n, which may be negative. */
    method SkipBytes(n: JInt) returns (r: Result<int>)
      requires Valid()
      modifies this`pointer
      ensures Valid()
      ensures Agrees(r, pointer, Skip(Contents(), old(pointer), n))
      ensures r.Err? ==> pointer == old(pointer)
      ensures old(pointer) + n < 0 ==> r == Err(IllegalArgument)
      ensures old(pointer) + n > size ==> r.Err?
      ensures 0 <= old(pointer) + n <= size ==> r == Ok(n) && pointer == old(pointer) + n
    {
      var o := Seek(WrapInt(pointer + n));
      if o.Fail? {
        return Err(o.error);
      }
      return Ok(n);
    }

    /** The next byte, unsigned; only called where a byte is left. */
    method Read() returns (r: Byte)
      requires Valid() && pointer < size
      modifies this`pointer
      ensures Valid()
      ensures r == Contents()[old(pointer)] && pointer == old(pointer) + 1
    {
      r := buffer[pointer];
      pointer := pointer + 1;
    }

    method ReadByte() returns (r: Result<int>)
      requires Valid()
      modifies this`pointer
      ensures Valid()
      ensures r.Ok? <==> old(pointer) < size
      ensures r.Ok? ==> r.value == SignedByte(Contents()[old(pointer)]) && pointer == old(pointer) + 1
      ensures r.Err? ==> r.error == EOF && pointer == old(pointer)
    {
      if pointer >= size {
        return Err(EOF);
      }
      var b := Read();
      return Ok(SignedByte(b));
    }

    method ReadBoolean() returns (r: Result<bool>)
      requires Valid()
      modifies this`pointer
      ensures Valid()
      ensures r.Ok? <==> old(pointer) < size
      ensures r.Ok? ==> r.value == (Contents()[old(pointer)] != 0) && pointer == old(pointer) + 1
      ensures r.Err? ==> r.error == EOF && pointer == old(pointer)
    {
      var b := ReadByte();
      if b.Err? {
        return Err(b.error);
      }
      return Ok(b.value != 0);
    }

    method ReadUnsignedByte() returns (r: Result<int>)
      requires Valid()
      modifies this`pointer
      ensures Valid()
      ensures Agrees(r, pointer, ReadU1(Contents(), old(pointer)))
      ensures r.Ok? <==> old(pointer) < size
      ensures r.Ok? ==> 0 <= r.value < 256 && r.value == Contents()[old(pointer)] && pointer == old(pointer) + 1
      ensures r.Err? ==> r.error == EOF && pointer == old(pointer)
    {
      if pointer >= size {
        return Err(EOF);
      }
      var b := Read();
      return Ok(b as int);
    }

    method ReadUnsignedShort() returns (r: Result<int>)
      requires Valid()
      modifies this`pointer
      ensures Valid()
      ensures Agrees(r, pointer, ReadU2(Contents(), old(pointer)))
      ensures r.Ok? <==> old(pointer) + 2 <= size
      ensures r.Ok? ==> 0 <= r.value < 0x1_0000 && pointer == old(pointer) + 2
      ensures r.Ok? ==> r.value == BigEndian(Contents()[old(pointer)..old(pointer) + 2])
      ensures r.Err? ==> r.error == EOF && pointer == old(pointer)
    {
      if pointer + 2 > size {
        return Err(EOF);
      }
      var hi := Read();
      var lo := Read();
      BigEndian2(Contents()[old(pointer)..old(pointer) + 2]);
      return Ok(hi as int * 0x100 + lo as int);
    }

    /** `(short) readUnsignedShort()`. */
    method ReadShort() returns (r: Result<int>)
      requires Valid()
      modifies this`pointer
      ensures Valid()
      ensures r.Ok? <==> old(pointer) + 2 <= size
      ensures r.Ok? ==> -0x8000 <= r.value < 0x8000 && pointer == old(pointer) + 2
      ensures r.Ok? ==> (r.value - BigEndian(Contents()[old(pointer)..old(pointer) + 2])) % 0x1_0000 == 0
      ensures r.Err? ==> r.error == EOF && pointer == old(pointer)
    {
      var u := ReadUnsignedShort();
      if u.Err? {
        return u;
      }
      return Ok(WrapShort(u.value));
    }

    /** `(char) readUnsignedShort()`. */
    method ReadChar() returns (r: Result<JChar>)
      requires Valid()
      modifies this`pointer
      ensures Valid()
      ensures r.Ok? <==> old(pointer) + 2 <= size
      ensures r.Ok? ==> r.value == BigEndian(Contents()[old(pointer)..old(pointer) + 2]) && pointer == old(pointer) + 2
      ensures r.Err? ==> r.error == EOF && pointer == old(pointer)
    {
      var u := ReadUnsignedShort();
      if u.Err? {
        return Err(u.error);
      }
      return Ok(u.value);
    }

    method ReadInt() returns (r: Result<int>)
      requires Valid()
      modifies this`pointer
      ensures Valid()
      ensures Agrees(r, pointer, ReadI32(Contents(), old(pointer)))
      ensures r.Ok? <==> old(pointer) + 4 <= size
      ensures r.Ok? ==> pointer == old(pointer) + 4
      ensures r.Ok? ==> r.value == WrapInt(BigEndian(Contents()[old(pointer)..old(pointer) + 4]))
      ensures r.Err? ==> r.error == EOF && pointer == old(pointer)
    {
      if pointer + 4 > size {
        return Err(EOF);
      }
      var b0 := Read();
      var b1 := Read();
      var b2 := Read();
      var b3 := Read();
      BigEndian4(Contents()[old(pointer)..old(pointer) + 4]);
      // (b0 << 24) + (b1 << 16) + (b2 << 8) + b3 in 32-bit arithmetic
      return Ok(WrapInt(b0 as int * 0x100_0000 + b1 as int * 0x1_0000 + b2 as int * 0x100 + b3 as int));
    }

    /** The two's-complement value of the next eight bytes (see LongAsWritten
        for what the source computes). */
    method ReadLong() returns (r: Result<int>)
      requires Valid()
      modifies this`pointer
      ensures Valid()
      ensures r.Ok? <==> old(pointer) + 8 <= size
      ensures r.Ok? ==> pointer == old(pointer) + 8
      ensures r.Ok? ==> r.value == WrapLong(BigEndian(Contents()[old(pointer)..old(pointer) + 8]))
      ensures r.Err? ==> r.error == EOF && pointer == old(pointer)
    {
      if pointer + 8 > size {
        return Err(EOF);
      }
      ghost var s := Contents()[pointer..pointer + 8];
      var b0 := Read();
      var b1 := Read();
      var b2 := Read();
      var b3 := Read();
      var b4 := Read();
      var b5 := Read();
      var b6 := Read();
      var b7 := Read();
      BigEndian8(s);
      BigEndian4(s[..4]);
      BigEndian4(s[4..]);
      var hi := b0 as int * 0x100_0000 + b1 as int * 0x1_0000 + b2 as int * 0x100 + b3 as int;
      var lo := b4 as int * 0x100_0000 + b5 as int * 0x1_0000 + b6 as int * 0x100 + b7 as int;
      return Ok(WrapLong(hi * 0x1_0000_0000 + lo));
    }

    method ReadUTF() returns (r: Result<JString>)
      requires Valid()
      modifies this`pointer
      ensures Valid()
      ensures Agrees(r, pointer, ReadUtf(Contents(), old(pointer)))
    {
      var bytes := ReadUtfBytes();
      if bytes.Err? {
        return Err(bytes.error);
      }
      var s := ModifiedUtf8.Decode(bytes.value);
      if s.None? {
        return Err(UtfDataFormat);
      }
      return Ok(s.value);
    }

    /** The length-prefixed bytes `readUTF` decodes, read with `readFully`. */
    method ReadUtfBytes() returns (r: Result<seq<Byte>>)
      requires Valid()
      modifies this`pointer
      ensures Valid()
      ensures match ReadU2(Contents(), old(pointer))
              case Failed(e) => r == Err(e)
              case Parsed(len, q) =>
                if q + len > size then r == Err(EOF)
                else r == Ok(Contents()[q..q + len]) && pointer == q + len
    {
      ghost var b := Contents();
      var len := ReadUnsignedShort();
      if len.Err? {
        return Err(len.error);
      }
      ghost var q := pointer;
      assert ReadU2(b, q - 2) == Parsed(len.value, q);
      var bytes := new Byte[len.value];
      assert ReadFullyCheck(bytes.Length, 0, len.value, q, size) == if q + len.value > size then Fail(EOF) else Pass;
      var o := ReadFully(bytes, 0, len.value);
      if o.Fail? {
        return Err(o.error);
      }
      assert bytes[..] == b[q..q + len.value] by {
        assert bytes[..] == buffer[q..q + len.value];
      }
      return Ok(bytes[..]);
    }
  }
}
