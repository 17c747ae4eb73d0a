/** Properties of the constant pool `readConstantPoolEntries` builds and of
    the names `resolveUtf8` reads out of it. */
module ConstantPoolProperties {
  import opened Primitives
  import opened ClassFileBuffers
  import opened ClassFileFormat

  /** The tags whose entries are passed over, not kept. */
  const SkippedTags: set<int> :=
    {CpMethodType, CpMethodHandle, CpInteger, CpFloat, CpRefField, CpRefMethod, CpRefInterface,
     CpNameAndType, CpInvokeDynamic, CpLong, CpDouble}

  /** Every tag `readConstantPoolEntry` knows. */
  const KnownTags: set<int> := SkippedTags + {CpUtf8, CpClass, CpString}

  /** The size of the body of a skipped entry, by tag (section 4.4 of the Java
      Virtual Machine Specification). */
  function BodySize(tag: int): nat
  {
    if tag == CpMethodType then 2
    else if tag == CpMethodHandle then 3
    else if tag == CpLong || tag == CpDouble then 8
    else 4
  }

  /** A skipped entry consumes its tag byte and a body of fixed size; it is
      wide exactly for CONSTANT_Long and CONSTANT_Double; a truncated body
      is an EOF. */
  lemma SkippedEntry(b: ClassBytes, p: nat)
    requires p < |b| && b[p] as int in SkippedTags
    ensures CpEntry(b, p).Parsed? <==> p + 1 + BodySize(b[p] as int) <= |b|
    ensures CpEntry(b, p).Parsed? ==>
              CpEntry(b, p) == Parsed(Skipped(b[p] as int == CpLong || b[p] as int == CpDouble), p + 1 + BodySize(b[p] as int))
    ensures CpEntry(b, p).Failed? ==> CpEntry(b, p).error == EOF
  {
  }

  /** A CONSTANT_Class or CONSTANT_String entry keeps its 2-byte index. */
  lemma IndexEntry(b: ClassBytes, p: nat)
    requires p < |b| && (b[p] as int == CpClass || b[p] as int == CpString)
    ensures CpEntry(b, p).Parsed? <==> p + 3 <= |b|
    ensures CpEntry(b, p).Parsed? ==> CpEntry(b, p) == Parsed(Stored(Ref(BigEndian(b[p + 1..p + 3]))), p + 3)
    ensures CpEntry(b, p).Failed? ==> CpEntry(b, p).error == EOF
  {
    if p + 3 <= |b| {
      ReadU2IsBigEndian(b, p + 1);
    }
  }

  /** A CONSTANT_Utf8 entry keeps the text `readUTF` decodes. */
  lemma TextEntry(b: ClassBytes, p: nat)
    requires p < |b| && b[p] as int == CpUtf8
    ensures CpEntry(b, p).Parsed? <==> ReadUtf(b, p + 1).Parsed?
    ensures CpEntry(b, p).Parsed? ==>
              CpEntry(b, p) == Parsed(Stored(Text(ReadUtf(b, p + 1).value)), ReadUtf(b, p + 1).next)
  {
  }

  /** Any other tag is a ClassFormatError; no tag at all is an EOF. */
  lemma UnknownTag(b: ClassBytes, p: nat)
    requires p <= |b|
    ensures p == |b| ==> CpEntry(b, p) == Failed(EOF)
    ensures p < |b| && b[p] as int !in KnownTags ==> CpEntry(b, p) == Failed(ClassFormat)
  {
  }

  /** The loop never writes a slot below the one it starts from. */
  lemma {:induction false} FillKeepsEarlier(b: ClassBytes, p: nat, count: nat, i: nat, pool: seq<Slot>, j: nat)
    requires p <= |b| && |pool| == count
    requires j < i && j < count
    requires CpFill(b, p, count, i, pool).Parsed?
    ensures CpFill(b, p, count, i, pool).value[j] == pool[j]
    decreases count - i
  {
    if i < count {
      match CpEntry(b, p)
      case Parsed(Stored(s), q) =>
        FillKeepsEarlier(b, q, count, i + 1, pool[i := s], j);
      case Parsed(Skipped(wide), q) =>
        FillKeepsEarlier(b, q, count, if wide then i + 2 else i + 1, pool, j);
    }
  }

  /** An entry that keeps a value puts it in the slot the loop is at. */
  lemma FillStores(b: ClassBytes, p: nat, count: nat, i: nat, pool: seq<Slot>)
    requires p <= |b| && |pool| == count && i < count
    requires CpEntry(b, p).Parsed? && CpEntry(b, p).value.Stored?
    requires CpFill(b, p, count, i, pool).Parsed?
    ensures CpFill(b, p, count, i, pool).value[i] == CpEntry(b, p).value.slot
  {
    var q := CpEntry(b, p).next;
    FillKeepsEarlier(b, q, count, i + 1, pool[i := CpEntry(b, p).value.slot], i);
  }

  /** A skipped entry leaves its slot as it was, and a wide one the next slot too. */
  lemma FillSkips(b: ClassBytes, p: nat, count: nat, i: nat, pool: seq<Slot>)
    requires p <= |b| && |pool| == count && i < count
    requires CpEntry(b, p).Parsed? && CpEntry(b, p).value.Skipped?
    requires CpFill(b, p, count, i, pool).Parsed?
    ensures CpFill(b, p, count, i, pool).value[i] == pool[i]
    ensures CpEntry(b, p).value.wide && i + 1 < count ==> CpFill(b, p, count, i, pool).value[i + 1] == pool[i + 1]
  {
    var q := CpEntry(b, p).next;
    var wide := CpEntry(b, p).value.wide;
    FillKeepsEarlier(b, q, count, if wide then i + 2 else i + 1, pool, i);
    if wide && i + 1 < count {
      FillKeepsEarlier(b, q, count, i + 2, pool, i + 1);
    }
  }

  /** Slot 0 of a constant pool is never set. */
  lemma SlotZeroEmpty(b: ClassBytes, p: nat)
    requires p <= |b|
    requires ConstantPool(b, p).Parsed? && |ConstantPool(b, p).value| > 0
    ensures ConstantPool(b, p).value[0] == Empty
  {
    var count := ReadU2(b, p).value;
    FillKeepsEarlier(b, p + 2, count, 1, EmptyPool(count), 0);
  }

  /** The constant pool has as many slots as its 16-bit count says. */
  lemma PoolSize(b: ClassBytes, p: nat)
    requires p <= |b|
    requires ConstantPool(b, p).Parsed?
    ensures |ConstantPool(b, p).value| == BigEndian(b[p..p + 2])
  {
    ReadU2IsBigEndian(b, p);
  }

  /** `resolveUtf8` yields a string exactly when the slot holds it, or holds
      the index of a slot that holds it: at most one indirection. */
  lemma ResolvesToText(pool: seq<Slot>, index: int, s: JString)
    ensures ResolveAt(pool, index) == Ok(Some(s)) <==>
              0 <= index < |pool| &&
              (pool[index] == Text(s) ||
               (pool[index].Ref? && 0 <= pool[index].index < |pool| && pool[pool[index].index] == Text(s)))
  {
  }

  /** It yields null exactly for an empty slot, directly or through an index. */
  lemma ResolvesToNull(pool: seq<Slot>, index: int)
    ensures ResolveAt(pool, index) == Ok(None) <==>
              0 <= index < |pool| &&
              (pool[index] == Empty ||
               (pool[index].Ref? && 0 <= pool[index].index < |pool| && pool[pool[index].index] == Empty))
  {
  }

  /** An index outside the pool, before or after one indirection, raises
      ArrayIndexOutOfBoundsException; an index that names an index raises
      ClassCastException. */
  lemma ResolveErrors(pool: seq<Slot>, index: int)
    ensures ResolveAt(pool, index) == Err(ArrayIndexOutOfBounds) <==>
              !(0 <= index < |pool|) || (pool[index].Ref? && !(0 <= pool[index].index < |pool|))
    ensures ResolveAt(pool, index) == Err(ClassCast) <==>
              0 <= index < |pool| && pool[index].Ref? && 0 <= pool[index].index < |pool| && pool[pool[index].index].Ref?
  {
  }

  /** `resolveUtf8` reads exactly two bytes, the big-endian index. */
  lemma ResolveReadsIndex(b: seq<Byte>, p: nat, pool: seq<Slot>)
    ensures Resolve(b, p, pool).Parsed? <==> p + 2 <= |b| && ResolveAt(pool, BigEndian(b[p..p + 2])).Ok?
    ensures Resolve(b, p, pool).Parsed? ==>
              Resolve(b, p, pool) == Parsed(ResolveAt(pool, BigEndian(b[p..p + 2])).value, p + 2)
  {
    if p + 2 <= |b| {
      ReadU2IsBigEndian(b, p);
    }
  }
}
