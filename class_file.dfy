/** What `ADetect` reads from one class file, as pure functions of the bytes:
    the constant pool it keeps, the type names it resolves, the annotation
    grammar it skips through (section 4.7.16 of the Java Virtual Machine
    Specification, Java SE 8) and the reports it emits, in order. The methods
    of the `ADetect` class are proved to agree with these functions. */
module ClassFileFormat {
  import opened Primitives
  import opened ClassFileBuffers

  // Constant-pool tags (section 4.4 of the Java Virtual Machine Specification)
  const CpUtf8 := 1
  const CpInteger := 3
  const CpFloat := 4
  const CpLong := 5
  const CpDouble := 6
  const CpClass := 7
  const CpString := 8
  const CpRefField := 9
  const CpRefMethod := 10
  const CpRefInterface := 11
  const CpNameAndType := 12
  const CpMethodHandle := 15
  const CpMethodType := 16
  const CpInvokeDynamic := 18

  /** Element-value tags whose value is one constant-pool index: the eight
      primitive types and `s` (String). */
  predicate IsConstantValueTag(tag: int)
  {
    tag == 'B' as int || tag == 'C' as int || tag == 'D' as int || tag == 'F' as int || tag == 'I' as int ||
    tag == 'J' as int || tag == 'S' as int || tag == 'Z' as int || tag == 's' as int
  }
  const EnumTag := 'e' as int
  const ClassTag := 'c' as int
  const AnnotationTag := '@' as int
  const ArrayTag := '[' as int

  /** One slot of the `Object[] constantPool`: null, a `String` read from a
      CONSTANT_Utf8 entry, or the `Integer` index stored for CONSTANT_Class
      and CONSTANT_String. */
  datatype Slot = Empty | Text(text: JString) | Ref(index: int)

  /** What reading one constant-pool entry produces: a value for its slot, or
      nothing (the entry is skipped), `wide` telling whether it takes two slots. */
  datatype CpRead = Stored(slot: Slot) | Skipped(wide: bool)

  /** The position after skipping, with the skipped entry's width. */
  function AfterSkip(r: Parse<int>, wide: bool): (s: Parse<CpRead>)
    ensures s.Parsed? <==> r.Parsed?
    ensures s.Parsed? ==> s == Parsed(Skipped(wide), r.next)
    ensures s.Failed? ==> s.error == r.error
  {
    match r
    case Failed(e) => Failed(e)
    case Parsed(_, q) => Parsed(Skipped(wide), q)
  }

  /** `readConstantPoolEntry`: one tag byte, then the entry's body. */
  function CpEntry(b: ClassBytes, p: nat): (r: Parse<CpRead>)
    requires p <= |b|
    ensures r.Parsed? ==> p < r.next <= |b|
  {
    match ReadU1(b, p)
    case Failed(e) => Failed(e)
    case Parsed(tag, q) =>
      if tag == CpMethodType then AfterSkip(Skip(b, q, 2), false)
      else if tag == CpMethodHandle then AfterSkip(Skip(b, q, 3), false)
      else if (tag == CpInteger || tag == CpFloat || tag == CpRefField || tag == CpRefMethod || tag == CpRefInterface ||
               tag == CpNameAndType || tag == CpInvokeDynamic) then
        AfterSkip(Skip(b, q, 4), false)
      else if tag == CpLong || tag == CpDouble then AfterSkip(Skip(b, q, 8), true)
      else if tag == CpUtf8 then
        match ReadUtf(b, q)
        case Failed(e) => Failed(e)
        case Parsed(s, q') => Parsed(Stored(Text(s)), q')
      else if tag == CpClass || tag == CpString then
        match ReadU2(b, q)
        case Failed(e) => Failed(e)
        case Parsed(index, q') => Parsed(Stored(Ref(index)), q')
      else Failed(ClassFormat)
  }

  /** The loop of `readConstantPoolEntries` from slot i on: each entry fills
      slot i, and a wide entry also passes over slot i + 1. */
  function CpFill(b: ClassBytes, p: nat, count: nat, i: nat, pool: seq<Slot>): (r: Parse<seq<Slot>>)
    requires p <= |b| && |pool| == count
    ensures r.Parsed? ==> p <= r.next <= |b| && |r.value| == count
    decreases count - i
  {
    if i >= count then Parsed(pool, p)
    else
      match CpEntry(b, p)
      case Failed(e) => Failed(e)
      case Parsed(Stored(s), q) => CpFill(b, q, count, i + 1, pool[i := s])
      case Parsed(Skipped(wide), q) => CpFill(b, q, count, if wide then i + 2 else i + 1, pool)
  }

  /** The slots a fresh `new Object[count]` starts with. */
  function EmptyPool(count: nat): (pool: seq<Slot>)
    ensures |pool| == count && forall i :: 0 <= i < count ==> pool[i] == Empty
  {
    seq(count, _ => Empty)
  }

  /** `readConstantPoolEntries`: an unsigned 16-bit count, then entries for slots
      1 .. count - 1. */
  function ConstantPool(b: ClassBytes, p: nat): (r: Parse<seq<Slot>>)
    requires p <= |b|
    ensures r.Parsed? ==> p + 2 <= r.next <= |b|
  {
    match ReadU2(b, p)
    case Failed(e) => Failed(e)
    case Parsed(count, q) => CpFill(b, q, count, 1, EmptyPool(count))
  }

  /** The string the slot `index` stands for, following one `Integer`
      indirection: `None` is Java's null. */
  function ResolveAt(pool: seq<Slot>, index: int): (r: Result<Option<JString>>)
    ensures r.Err? ==> r.error == ArrayIndexOutOfBounds || r.error == ClassCast
  {
    if !(0 <= index < |pool|) then Err(ArrayIndexOutOfBounds)
    else
      match pool[index]
      case Empty => Ok(None)
      case Text(s) => Ok(Some(s))
      case Ref(j) =>
        if !(0 <= j < |pool|) then Err(ArrayIndexOutOfBounds)
        else
          match pool[j]
          case Empty => Ok(None)
          case Text(s) => Ok(Some(s))
          case Ref(_) => Err(ClassCast)
  }

  /** `resolveUtf8`: an unsigned 16-bit index, then its string. */
  function Resolve(b: seq<Byte>, p: nat, pool: seq<Slot>): (r: Parse<Option<JString>>)
    ensures r.Parsed? ==> r.next == p + 2 <= |b|
  {
    match ReadU2(b, p)
    case Failed(e) => Failed(e)
    case Parsed(index, q) =>
      match ResolveAt(pool, index)
      case Err(e) => Failed(e)
      case Ok(s) => Parsed(s, q)
  }

  /** `readAnnotation`: the resolved type descriptor, then the element-value
      pairs; the value is the descriptor. */
  function Annotation(b: ClassBytes, p: nat, pool: seq<Slot>): (r: Parse<Option<JString>>)
    requires p <= |b|
    ensures r.Parsed? ==> p + 4 <= r.next <= |b|
    decreases |b| - p, 0, 0
  {
    match AnnotationHead(b, p, pool)
    case Failed(e) => Failed(e)
    case Parsed((name, count), q) =>
      match Pairs(b, q, pool, count)
      case Failed(e) => Failed(e)
      case Parsed(_, q') => Parsed(name, q')
  }

  /** The resolved type descriptor of an annotation and its number of pairs. */
  function AnnotationHead(b: ClassBytes, p: nat, pool: seq<Slot>): (r: Parse<(Option<JString>, int)>)
    requires p <= |b|
    ensures r.Parsed? ==> r.next == p + 4 <= |b| && 0 <= r.value.1 < 0x1_0000
  {
    match Resolve(b, p, pool)
    case Failed(e) => Failed(e)
    case Parsed(name, q) =>
      match ReadU2(b, q)
      case Failed(e) => Failed(e)
      case Parsed(count, q') => Parsed((name, count), q')
  }

  /** The k element-value pairs still to read: each a 2-byte name index and a value. */
  function Pairs(b: ClassBytes, p: nat, pool: seq<Slot>, k: nat): (r: Parse<()>)
    requires p <= |b|
    ensures r.Parsed? ==> p <= r.next <= |b|
    decreases |b| - p, 0, k
  {
    if k == 0 then Parsed((), p)
    else
      match Skip(b, p, 2)
      case Failed(e) => Failed(e)
      case Parsed(_, q) =>
        match ElementValue(b, q, pool)
        case Failed(e) => Failed(e)
        case Parsed(_, q') => Pairs(b, q', pool, k - 1)
  }

  /** `readAnnotationElementValue`: a tag byte, then the value it announces. */
  function ElementValue(b: ClassBytes, p: nat, pool: seq<Slot>): (r: Parse<()>)
    requires p <= |b|
    ensures r.Parsed? ==> p < r.next <= |b|
    decreases |b| - p, 0, 0
  {
    match ReadU1(b, p)
    case Failed(e) => Failed(e)
    case Parsed(tag, q) =>
      if IsConstantValueTag(tag) || tag == ClassTag then Unit(Skip(b, q, 2))
      else if tag == EnumTag then Unit(Skip(b, q, 4))
      else if tag == AnnotationTag then
        match Annotation(b, q, pool)
        case Failed(e) => Failed(e)
        case Parsed(_, q') => Parsed((), q')
      else if tag == ArrayTag then
        match ReadU2(b, q)
        case Failed(e) => Failed(e)
        case Parsed(count, q') => Elems(b, q', pool, count)
      else Failed(ClassFormat)
  }

  /** The k values of an array element value still to read. */
  function Elems(b: ClassBytes, p: nat, pool: seq<Slot>, k: nat): (r: Parse<()>)
    requires p <= |b|
    ensures r.Parsed? ==> p <= r.next <= |b|
    decreases |b| - p, 1, k
  {
    if k == 0 then Parsed((), p)
    else
      match ElementValue(b, p, pool)
      case Failed(e) => Failed(e)
      case Parsed(_, q) => Elems(b, q, pool, k - 1)
  }

  function Unit(r: Parse<int>): (s: Parse<()>)
    ensures s.Parsed? <==> r.Parsed?
    ensures s.Parsed? ==> s.next == r.next
    ensures s.Failed? ==> s.error == r.error
  {
    match r
    case Failed(e) => Failed(e)
    case Parsed(_, q) => Parsed((), q)
  }

  /** Where an annotation sits; the source's reporter type 'T', 'F' or 'M'. */
  datatype Level = TypeLevel | FieldLevel | MethodLevel

  /** One call of `reportTypeAnnotation` (member `None`), `reportFieldAnnotation`
      or `reportMethodAnnotation`: the annotation's class name, the class name
      with dots, and the field or method name (`None` is null). */
  datatype Report = Report(level: Level, annotation: JString, className: JString, member: Option<JString>)

  /** How scanning a part of the class file ended: at a position, or with an exception. */
  datatype Status = Done(pos: nat) | Aborted(error: Error)

  /** The reports emitted so far and how the scan ended. Reports emitted before
      an exception stay emitted. */
  datatype Scan = Scan(log: seq<Report>, status: Status)

  /** What one scan depends on besides the bytes: the map from raw descriptors
      to the annotation class names to report, and which of the three reporter
      interfaces the reporter implements. */
  datatype Config = Config(interest: map<JString, JString>, typeReporter: bool, fieldReporter: bool, methodReporter: bool)

  /** The state one class file's members and attributes are read in. */
  datatype Env = Env(cfg: Config, pool: seq<Slot>, typeName: Option<JString>)

  const Slash := '/' as int
  const Dot := '.' as int

  /** `s.replace(from, to)` for single characters. */
  function Replace(s: JString, from: JChar, to: JChar): (r: JString)
    ensures |r| == |s|
    ensures forall i :: 0 <= i < |s| ==> r[i] == if s[i] == from then to else s[i]
  {
    seq(|s|, i requires 0 <= i < |s| => if s[i] == from then to else s[i])
  }

  /** The member name a report of `level` carries when the member being read
      is `member`: `reportTypeAnnotation` takes none. */
  function MemberOf(level: Level, member: Option<JString>): Option<JString>
  {
    if level == TypeLevel then None else member
  }

  /** The report `readAnnotations` emits for an annotation of interest found at
      `level` on the member `member`. */
  function MakeReport(env: Env, level: Level, annotation: JString, member: Option<JString>): Report
    requires env.typeName.Some?
  {
    Report(level, annotation, Replace(env.typeName.value, Slash, Dot), MemberOf(level, member))
  }

  /** One annotation of `readAnnotations`: parsed, then reported when its
      descriptor is of interest; the class name is needed only then. */
  function AnnotationEntry(env: Env, b: ClassBytes, level: Level, member: Option<JString>, p: nat, acc: seq<Report>): (r: Scan)
    requires p <= |b|
    ensures r.status.Done? ==> p < r.status.pos <= |b|
  {
    match Annotation(b, p, env.pool)
    case Failed(e) => Scan(acc, Aborted(e))
    case Parsed(raw, q) =>
      if raw.None? || raw.value !in env.cfg.interest then Scan(acc, Done(q))
      else if env.typeName.None? then Scan(acc, Aborted(NullPointer))
      else Scan(acc + [MakeReport(env, level, env.cfg.interest[raw.value], member)], Done(q))
  }

  /** The loop of `readAnnotations` with k annotations still to read. */
  function AnnotationsLoop(env: Env, b: ClassBytes, level: Level, member: Option<JString>, p: nat, k: nat, acc: seq<Report>): (r: Scan)
    requires p <= |b|
    ensures r.status.Done? ==> p <= r.status.pos <= |b|
    decreases k
  {
    if k == 0 then Scan(acc, Done(p))
    else
      var s := AnnotationEntry(env, b, level, member, p, acc);
      match s.status
      case Aborted(_) => s
      case Done(q) => AnnotationsLoop(env, b, level, member, q, k - 1, s.log)
  }

  /** `readAnnotations`: an unsigned 16-bit count, then that many annotations. */
  function Annotations(env: Env, b: ClassBytes, level: Level, member: Option<JString>, p: nat, acc: seq<Report>): (r: Scan)
    requires p <= |b|
    ensures r.status.Done? ==> p <= r.status.pos <= |b|
  {
    match ReadU2(b, p)
    case Failed(e) => Scan(acc, Aborted(e))
    case Parsed(count, q) => AnnotationsLoop(env, b, level, member, q, count, acc)
  }

  /** `"RuntimeVisibleAnnotations".equals(name) || "RuntimeInvisibleAnnotations".equals(name)`;
      a null name equals neither. */
  predicate IsAnnotationsAttribute(name: Option<JString>)
  {
    name.Some? && (Spells(name.value, "RuntimeVisibleAnnotations") || Spells(name.value, "RuntimeInvisibleAnnotations"))
  }

  /** The name and the length of an attribute. */
  function AttributeHead(b: ClassBytes, p: nat, pool: seq<Slot>): (r: Parse<(Option<JString>, JInt)>)
    requires p <= |b|
    ensures r.Parsed? ==> r.next == p + 6 <= |b|
  {
    match Resolve(b, p, pool)
    case Failed(e) => Failed(e)
    case Parsed(name, q) =>
      match ReadI32(b, q)
      case Failed(e) => Failed(e)
      case Parsed(length, q') => Parsed((name, length), q')
  }

  /** One attribute of `readAttributes`: an annotations attribute is parsed
      unless reporting is skipped, any other attribute is skipped by its
      signed 32-bit length. */
  function Attribute(env: Env, b: ClassBytes, level: Level, skipReporting: bool, member: Option<JString>,
                     p: nat, acc: seq<Report>): (r: Scan)
    requires p <= |b|
    ensures r.status.Done? ==> r.status.pos <= |b|
  {
    match AttributeHead(b, p, env.pool)
    case Failed(e) => Scan(acc, Aborted(e))
    case Parsed((name, length), q) =>
      if !skipReporting && IsAnnotationsAttribute(name) then
        Annotations(env, b, level, member, q, acc)
      else
        match Skip(b, q, length)
        case Failed(e) => Scan(acc, Aborted(e))
        case Parsed(_, q') => Scan(acc, Done(q'))
  }

  /** The loop of `readAttributes` with k attributes still to read. */
  function AttributesLoop(env: Env, b: ClassBytes, level: Level, skipReporting: bool, member: Option<JString>,
                          p: nat, k: nat, acc: seq<Report>): (r: Scan)
    requires p <= |b|
    ensures r.status.Done? ==> r.status.pos <= |b|
    decreases k
  {
    if k == 0 then Scan(acc, Done(p))
    else
      var s := Attribute(env, b, level, skipReporting, member, p, acc);
      match s.status
      case Aborted(_) => s
      case Done(q) => AttributesLoop(env, b, level, skipReporting, member, q, k - 1, s.log)
  }

  /** `readAttributes`: an unsigned 16-bit count, then that many attributes. */
  function Attributes(env: Env, b: ClassBytes, level: Level, skipReporting: bool, member: Option<JString>,
                      p: nat, acc: seq<Report>): (r: Scan)
    requires p <= |b|
    ensures r.status.Done? ==> r.status.pos <= |b|
  {
    match ReadU2(b, p)
    case Failed(e) => Scan(acc, Aborted(e))
    case Parsed(count, q) => AttributesLoop(env, b, level, skipReporting, member, q, count, acc)
  }

  /** The access flags, name and descriptor of a field or method; the value
      is its name. */
  function MemberHead(b: ClassBytes, p: nat, pool: seq<Slot>): (r: Parse<Option<JString>>)
    requires p <= |b|
    ensures r.Parsed? ==> p + 6 <= r.next <= |b|
  {
    match Skip(b, p, 2)
    case Failed(e) => Failed(e)
    case Parsed(_, q) =>
      match Resolve(b, q, pool)
      case Failed(e) => Failed(e)
      case Parsed(name, q') =>
        match Resolve(b, q', pool)
        case Failed(e) => Failed(e)
        case Parsed(_, q'') => Parsed(name, q'')
  }

  /** One field or method: access flags, the name (kept for the reports),
      the descriptor, then the member's attributes. */
  function Member(env: Env, b: ClassBytes, level: Level, skipReporting: bool, p: nat, acc: seq<Report>): (r: Scan)
    requires p <= |b|
    ensures r.status.Done? ==> r.status.pos <= |b|
  {
    match MemberHead(b, p, env.pool)
    case Failed(e) => Scan(acc, Aborted(e))
    case Parsed(name, q) => Attributes(env, b, level, skipReporting, name, q, acc)
  }

  /** The loop of `readFields` / `readMethods` with k members still to read. */
  function MembersLoop(env: Env, b: ClassBytes, level: Level, skipReporting: bool, p: nat, k: nat, acc: seq<Report>): (r: Scan)
    requires p <= |b|
    ensures r.status.Done? ==> r.status.pos <= |b|
    decreases k
  {
    if k == 0 then Scan(acc, Done(p))
    else
      var s := Member(env, b, level, skipReporting, p, acc);
      match s.status
      case Aborted(_) => s
      case Done(q) => MembersLoop(env, b, level, skipReporting, q, k - 1, s.log)
  }

  /** `readFields` / `readMethods`: an unsigned 16-bit count, then that many members. */
  function Members(env: Env, b: ClassBytes, level: Level, skipReporting: bool, p: nat, acc: seq<Report>): (r: Scan)
    requires p <= |b|
    ensures r.status.Done? ==> r.status.pos <= |b|
  {
    match ReadU2(b, p)
    case Failed(e) => Scan(acc, Aborted(e))
    case Parsed(count, q) => MembersLoop(env, b, level, skipReporting, q, count, acc)
  }

  /** `readInterfaces`: an unsigned 16-bit count, then that many 2-byte indices skipped. */
  function Interfaces(b: seq<Byte>, p: nat): (r: Parse<int>)
    requires p <= |b| <= MaxCapacity
    ensures r.Parsed? ==> r.next == p + 2 + 2 * r.value <= |b|
  {
    match ReadU2(b, p)
    case Failed(e) => Failed(e)
    case Parsed(count, q) =>
      match Skip(b, q, 2 * count)
      case Failed(e) => Failed(e)
      case Parsed(_, q') => Parsed(count, q')
  }

  /** The interfaces are read exactly when the bytes hold the count and
      twice that many bytes after it. */
  lemma InterfacesFit(b: seq<Byte>, p: nat)
    requires p <= |b| <= MaxCapacity
    ensures Interfaces(b, p).Parsed? <==> p + 2 <= |b| && p + 2 + 2 * BigEndian(b[p..p + 2]) <= |b|
  {
    if p + 2 <= |b| {
      ReadU2IsBigEndian(b, p);
    }
  }

  /** Everything before the fields: version, constant pool, access flags, this
      class (its resolved name), super class, interfaces. */
  function Header(b: ClassBytes, p: nat): (r: Parse<(seq<Slot>, Option<JString>)>)
    requires p <= |b|
    ensures r.Parsed? ==> r.next <= |b|
  {
    match Skip(b, p, 4)
    case Failed(e) => Failed(e)
    case Parsed(_, p1) =>
      match ConstantPool(b, p1)
      case Failed(e) => Failed(e)
      case Parsed(pool, p2) =>
        match Skip(b, p2, 2)
        case Failed(e) => Failed(e)
        case Parsed(_, p3) =>
          match Resolve(b, p3, pool)
          case Failed(e) => Failed(e)
          case Parsed(typeName, p4) =>
            match Skip(b, p4, 2)
            case Failed(e) => Failed(e)
            case Parsed(_, p5) =>
              match Interfaces(b, p5)
              case Failed(e) => Failed(e)
              case Parsed(_, p6) => Parsed((pool, typeName), p6)
  }

  /** `detect(DataInput)` on the bytes after the magic number: the reports of
      the fields, then the methods, then the class's own attributes. */
  function DetectClass(cfg: Config, b: ClassBytes, p: nat, acc: seq<Report>): (r: Scan)
    requires p <= |b|
  {
    match Header(b, p)
    case Failed(e) => Scan(acc, Aborted(e))
    case Parsed((pool, typeName), p1) =>
      var env := Env(cfg, pool, typeName);
      var f := Members(env, b, FieldLevel, !cfg.fieldReporter, p1, acc);
      match f.status
      case Aborted(_) => f
      case Done(p2) =>
        var m := Members(env, b, MethodLevel, !cfg.methodReporter, p2, f.log);
        match m.status
        case Aborted(_) => m
        case Done(p3) => Attributes(env, b, TypeLevel, !cfg.typeReporter, None, p3, m.log)
  }

  /** The `int` constant 0xCAFEBABE. */
  const Magic: int := WrapInt(0xCAFE_BABE)

  /** `hasCafebabe`: more than four bytes, the first four reading as 0xCAFEBABE. */
  predicate HasMagic(e: seq<Byte>)
  {
    |e| > 4 && WrapInt(BigEndian(e[..4])) == Magic
  }

  /** The reports one entry of the scan produces, whatever exception ends it. */
  function EntryReports(cfg: Config, e: ClassBytes): seq<Report>
  {
    if HasMagic(e) then DetectClass(cfg, e, 4, []).log else []
  }

  /** `detect(ClassFileIterator)`: each entry is read into the shared buffer,
      whose capacity only grows; an entry the buffer cannot take in reports
      nothing, and no entry stops the scan (closing a stream is taken never
      to fail). */
  function ScanEntries(cfg: Config, cap: nat, entries: seq<seq<Byte>>): seq<Report>
    requires PowerOfTwo(cap) && cap <= MaxCapacity
    decreases |entries|
  {
    if entries == [] then []
    else
      var (cap', ok) := Grow(cap, |entries[0]|);
      (if ok then EntryReports(cfg, entries[0]) else []) + ScanEntries(cfg, cap', entries[1..])
  }

  /** The key `ADetect` files an annotation class under: "L" + name with '/' for '.' + ";". */
  function Descriptor(name: JString): (d: JString)
    ensures |d| == |name| + 2 && d[0] == 'L' as int && d[|d| - 1] == ';' as int
    ensures d[1..|d| - 1] == Replace(name, Dot, Slash)
  {
    ['L' as int] + Replace(name, Dot, Slash) + [';' as int]
  }

  /** The map the constructor builds: one `put` per annotation class, in order. */
  function InterestMap(names: seq<JString>): map<JString, JString>
  {
    if names == [] then map[]
    else InterestMap(names[..|names| - 1])[Descriptor(names[|names| - 1]) := names[|names| - 1]]
  }

  /** The package filter `detect(String...)` makes of a package name: dots
      become slashes, and a slash is appended unless it ends with one. */
  function PackageFilter(name: JString): JString
  {
    var r := Replace(name, Dot, Slash);
    if |r| > 0 && r[|r| - 1] == Slash then r else r + [Slash]
  }
}
