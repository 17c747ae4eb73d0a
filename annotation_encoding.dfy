/** The `annotation` and `element_value` structures of section 4.7.16 of the
    Java Virtual Machine Specification as values, with the bytes a compiler
    writes for them; the decoder's grammar reads exactly those bytes back. */
module AnnotationEncoding {
  import opened Primitives
  import opened ClassFileBuffers
  import opened ClassFileFormat

  /** An element value; indices are constant-pool indices the decoder skips. */
  datatype Value =
    | ConstValue(tag: Byte, index: int)               // B C D F I J S Z s
    | EnumValue(typeIndex: int, nameIndex: int)       // e
    | ClassValue(index: int)                          // c
    | AnnotationValue(annotation: Anno)               // @
    | ArrayValue(values: seq<Value>)                  // [

  /** An annotation: its type's index and its element-value pairs, the
      pairs' name indices and values side by side. */
  datatype Anno = Anno(typeIndex: int, names: seq<int>, values: seq<Value>)

  /** An unsigned 16-bit number, high byte first. */
  function U2(n: int): (r: seq<Byte>)
    requires 0 <= n < 0x1_0000
    ensures |r| == 2 && BigEndian(r) == n
  {
    BigEndian2([n / 256, n % 256]);
    [n / 256, n % 256]
  }

  predicate IsU2(n: int)
  {
    0 <= n < 0x1_0000
  }

  predicate AllU2(ns: seq<int>)
  {
    forall i :: 0 <= i < |ns| ==> IsU2(ns[i])
  }

  /** Values a class file can hold: 16-bit indices and counts, known tags,
      and annotation types that `resolveUtf8` can read from the pool. */
  predicate ValidValue(pool: seq<Slot>, v: Value)
    decreases v
  {
    match v
    case ConstValue(tag, index) => IsConstantValueTag(tag as int) && IsU2(index)
    case EnumValue(t, n) => IsU2(t) && IsU2(n)
    case ClassValue(index) => IsU2(index)
    case AnnotationValue(a) => ValidAnno(pool, a)
    case ArrayValue(vs) => IsU2(|vs|) && ValidValues(pool, vs)
  }

  predicate ValidAnno(pool: seq<Slot>, a: Anno)
    decreases a
  {
    IsU2(a.typeIndex) && ResolveAt(pool, a.typeIndex).Ok? && IsU2(|a.values|) &&
    |a.names| == |a.values| && AllU2(a.names) && ValidValues(pool, a.values)
  }

  predicate ValidValues(pool: seq<Slot>, vs: seq<Value>)
    decreases vs
  {
    vs != [] ==> ValidValue(pool, vs[0]) && ValidValues(pool, vs[1..])
  }

  function EncodeValue(pool: seq<Slot>, v: Value): seq<Byte>
    requires ValidValue(pool, v)
    decreases v
  {
    match v
    case ConstValue(tag, index) => [tag] + U2(index)
    case EnumValue(t, n) => [EnumTag as Byte] + U2(t) + U2(n)
    case ClassValue(index) => [ClassTag as Byte] + U2(index)
    case AnnotationValue(a) => [AnnotationTag as Byte] + EncodeAnno(pool, a)
    case ArrayValue(vs) => [ArrayTag as Byte] + U2(|vs|) + EncodeValues(pool, vs)
  }

  function EncodeAnno(pool: seq<Slot>, a: Anno): seq<Byte>
    requires ValidAnno(pool, a)
    decreases a
  {
    U2(a.typeIndex) + U2(|a.values|) + EncodePairs(pool, a.names, a.values)
  }

  function EncodePairs(pool: seq<Slot>, names: seq<int>, values: seq<Value>): seq<Byte>
    requires |names| == |values| && AllU2(names) && ValidValues(pool, values)
    decreases values
  {
    if values == [] then []
    else
      assert IsU2(names[0]);
      U2(names[0]) + EncodeValue(pool, values[0]) + EncodePairs(pool, names[1..], values[1..])
  }

  function EncodeValues(pool: seq<Slot>, vs: seq<Value>): seq<Byte>
    requires ValidValues(pool, vs)
    decreases vs
  {
    if vs == [] then [] else EncodeValue(pool, vs[0]) + EncodeValues(pool, vs[1..])
  }

  /** The bytes x + y lie at position p of b. */
  lemma Split(b: seq<Byte>, p: nat, x: seq<Byte>, y: seq<Byte>)
    requires p + |x| + |y| <= |b| && b[p..p + |x| + |y|] == x + y
    ensures b[p..p + |x|] == x && b[p + |x|..p + |x| + |y|] == y
  {
    assert b[p..p + |x|] == b[p..p + |x| + |y|][..|x|];
    assert b[p + |x|..p + |x| + |y|] == b[p..p + |x| + |y|][|x|..];
  }

  /** A value of one tag byte and a fixed-size body. */
  lemma FixedRoundTrip(b: ClassBytes, p: nat, pool: seq<Slot>, v: Value)
    requires v.ConstValue? || v.EnumValue? || v.ClassValue?
    requires ValidValue(pool, v)
    requires p + |EncodeValue(pool, v)| <= |b| && b[p..p + |EncodeValue(pool, v)|] == EncodeValue(pool, v)
    ensures ElementValue(b, p, pool) == Parsed((), p + |EncodeValue(pool, v)|)
  {
    var e := EncodeValue(pool, v);
    assert b[p] == e[0];
    assert ReadU1(b, p) == Parsed(e[0] as int, p + 1);
  }

  /** An element value decodes from exactly the bytes it is written as. */
  lemma ValueRoundTrip(b: ClassBytes, p: nat, pool: seq<Slot>, v: Value)
    requires ValidValue(pool, v)
    requires p + |EncodeValue(pool, v)| <= |b| && b[p..p + |EncodeValue(pool, v)|] == EncodeValue(pool, v)
    ensures ElementValue(b, p, pool) == Parsed((), p + |EncodeValue(pool, v)|)
    decreases v, 1
  {
    match v
    case ConstValue(_, _) => FixedRoundTrip(b, p, pool, v);
    case EnumValue(_, _) => FixedRoundTrip(b, p, pool, v);
    case ClassValue(_) => FixedRoundTrip(b, p, pool, v);
    case AnnotationValue(a) => NestedRoundTrip(b, p, pool, v);
    case ArrayValue(vs) => ArrayRoundTrip(b, p, pool, v);
  }

  lemma NestedRoundTrip(b: ClassBytes, p: nat, pool: seq<Slot>, v: Value)
    requires v.AnnotationValue? && ValidValue(pool, v)
    requires p + |EncodeValue(pool, v)| <= |b| && b[p..p + |EncodeValue(pool, v)|] == EncodeValue(pool, v)
    ensures ElementValue(b, p, pool) == Parsed((), p + |EncodeValue(pool, v)|)
    decreases v, 0
  {
    var a := v.annotation;
    Split(b, p, [AnnotationTag as Byte], EncodeAnno(pool, a));
    assert ReadU1(b, p) == Parsed(AnnotationTag, p + 1);
    AnnoRoundTrip(b, p + 1, pool, a);
  }

  lemma ArrayRoundTrip(b: ClassBytes, p: nat, pool: seq<Slot>, v: Value)
    requires v.ArrayValue? && ValidValue(pool, v)
    requires p + |EncodeValue(pool, v)| <= |b| && b[p..p + |EncodeValue(pool, v)|] == EncodeValue(pool, v)
    ensures ElementValue(b, p, pool) == Parsed((), p + |EncodeValue(pool, v)|)
    decreases v, 0
  {
    var vs := v.values;
    Split(b, p, [ArrayTag as Byte] + U2(|vs|), EncodeValues(pool, vs));
    Split(b, p, [ArrayTag as Byte], U2(|vs|));
    assert ReadU1(b, p) == Parsed(ArrayTag, p + 1);
    ReadU2IsBigEndian(b, p + 1);
    assert ReadU2(b, p + 1) == Parsed(|vs|, p + 3);
    ValuesRoundTrip(b, p + 3, pool, vs);
    assert |EncodeValue(pool, v)| == 3 + |EncodeValues(pool, vs)|;
  }

  /** An annotation decodes from exactly its bytes, to its type's name. */
  lemma AnnoRoundTrip(b: ClassBytes, p: nat, pool: seq<Slot>, a: Anno)
    requires ValidAnno(pool, a)
    requires p + |EncodeAnno(pool, a)| <= |b| && b[p..p + |EncodeAnno(pool, a)|] == EncodeAnno(pool, a)
    ensures Annotation(b, p, pool) == Parsed(ResolveAt(pool, a.typeIndex).value, p + |EncodeAnno(pool, a)|)
    decreases a, 1
  {
    Split(b, p, U2(a.typeIndex) + U2(|a.values|), EncodePairs(pool, a.names, a.values));
    Split(b, p, U2(a.typeIndex), U2(|a.values|));
    ReadU2IsBigEndian(b, p);
    ReadU2IsBigEndian(b, p + 2);
    assert Resolve(b, p, pool) == Parsed(ResolveAt(pool, a.typeIndex).value, p + 2);
    assert ReadU2(b, p + 2) == Parsed(|a.values|, p + 4);
    assert AnnotationHead(b, p, pool) == Parsed((ResolveAt(pool, a.typeIndex).value, |a.values|), p + 4);
    PairsRoundTrip(b, p + 4, pool, a.names, a.values);
  }

  lemma PairsRoundTrip(b: ClassBytes, p: nat, pool: seq<Slot>, names: seq<int>, values: seq<Value>)
    requires |names| == |values| && AllU2(names) && ValidValues(pool, values)
    requires p + |EncodePairs(pool, names, values)| <= |b| && b[p..p + |EncodePairs(pool, names, values)|] == EncodePairs(pool, names, values)
    ensures Pairs(b, p, pool, |values|) == Parsed((), p + |EncodePairs(pool, names, values)|)
    decreases values, 1
  {
    if values != [] {
      var q := PairSplit(b, p, pool, names, values);
      ValueRoundTrip(b, p + 2, pool, values[0]);
      PairsRoundTrip(b, q, pool, names[1..], values[1..]);
      PairAdvance(b, p, pool, |values|, q);
    }
  }

  /** The bytes of the first pair and of the pairs after it, which start at q. */
  lemma PairSplit(b: ClassBytes, p: nat, pool: seq<Slot>, names: seq<int>, values: seq<Value>) returns (q: nat)
    requires values != [] && |names| == |values| && AllU2(names) && ValidValues(pool, values)
    requires p + |EncodePairs(pool, names, values)| <= |b| && b[p..p + |EncodePairs(pool, names, values)|] == EncodePairs(pool, names, values)
    ensures q == p + 2 + |EncodeValue(pool, values[0])|
    ensures b[p + 2..q] == EncodeValue(pool, values[0])
    ensures q + |EncodePairs(pool, names[1..], values[1..])| == p + |EncodePairs(pool, names, values)|
    ensures b[q..q + |EncodePairs(pool, names[1..], values[1..])|] == EncodePairs(pool, names[1..], values[1..])
  {
    var x, y, z := U2(names[0]), EncodeValue(pool, values[0]), EncodePairs(pool, names[1..], values[1..]);
    Split(b, p, x + y, z);
    Split(b, p, x, y);
    q := p + 2 + |y|;
  }

  /** A pair whose value ends at q leaves the pairs from q. */
  lemma PairAdvance(b: ClassBytes, p: nat, pool: seq<Slot>, k: nat, q: nat)
    requires p + 2 <= |b| && k > 0 && ElementValue(b, p + 2, pool) == Parsed((), q)
    ensures Pairs(b, p, pool, k) == Pairs(b, q, pool, k - 1)
  {
    assert Skip(b, p, 2) == Parsed(2, p + 2);
  }

  lemma ValuesRoundTrip(b: ClassBytes, p: nat, pool: seq<Slot>, vs: seq<Value>)
    requires ValidValues(pool, vs)
    requires p + |EncodeValues(pool, vs)| <= |b| && b[p..p + |EncodeValues(pool, vs)|] == EncodeValues(pool, vs)
    ensures Elems(b, p, pool, |vs|) == Parsed((), p + |EncodeValues(pool, vs)|)
    decreases vs, 1
  {
    if vs != [] {
      var x, y := EncodeValue(pool, vs[0]), EncodeValues(pool, vs[1..]);
      Split(b, p, x, y);
      ValueRoundTrip(b, p, pool, vs[0]);
      ValuesRoundTrip(b, p + |x|, pool, vs[1..]);
    }
  }

  /** An element value with a tag outside the grammar is a ClassFormatError. */
  lemma UnknownElementTag(b: ClassBytes, p: nat, pool: seq<Slot>)
    requires p < |b|
    requires !IsConstantValueTag(b[p] as int) && b[p] as int !in {EnumTag, ClassTag, AnnotationTag, ArrayTag}
    ensures ElementValue(b, p, pool) == Failed(ClassFormat)
  {
  }
}
