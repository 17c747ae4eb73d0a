/** The `ADetect` scanner: it reads each class file into one reusable
    `ClassFileBuffer`, keeps the constant pool of the current file, and
    reports every annotation of interest on the class, its fields and its
    methods. Each decoding method is proved to agree with the function of
    the same part of the grammar in `ClassFileFormat`. */
module Detector {
  import opened Primitives
  import opened ClassFileBuffers
  import opened ClassFileFormat
  import opened ReportLog
  import opened ScanLoops

  /** The reporter handed to the constructor: the annotation classes it asks
      for (by class name) and which of `TypeReporter`, `FieldReporter` and
      `MethodReporter` it implements. */
  datatype Reporter = Reporter(annotations: seq<JString>, isTypeReporter: bool, isFieldReporter: bool, isMethodReporter: bool)

  class ADetect {
    /** The buffer, reused for every class file. */
    const cpBuffer: ClassFileBuffer
    /** Raw type descriptors ("Lcom/acme/Foo;") to the annotation class names to report. */
    const interest: map<JString, JString>
    const typeReporter: bool
    const fieldReporter: bool
    const methodReporter: bool

    /** The raw name of the class being read ('/' between package parts). */
    var typeName: Option<JString>
    var constantPool: array<Slot>
    var memberName: Option<JString>
    /** Every call made to the reporter so far, in order. */
    var reports: seq<Report>

    ghost predicate Valid()
      reads cpBuffer
    {
      cpBuffer.Valid()
    }

    function Cfg(): Config
    {
      Config(interest, typeReporter, fieldReporter, methodReporter)
    }

    /** The bytes of the current class file. */
    ghost function Bytes(): ClassBytes
      reads cpBuffer`buffer, cpBuffer`size, cpBuffer.buffer
      requires 0 <= cpBuffer.size <= cpBuffer.buffer.Length <= MaxCapacity
    {
      cpBuffer.Contents()
    }

    /** The buffer holds the class file b. */
    ghost predicate Scanning(b: ClassBytes)
      reads cpBuffer, cpBuffer.buffer
    {
      cpBuffer.Valid() && Bytes() == b
    }

    /** The detector is reading the class file b with constant pool and
        class name as in env. */
    ghost predicate Reading(env: Env, b: ClassBytes)
      reads this`constantPool, this`typeName, constantPool, cpBuffer, cpBuffer.buffer
    {
      cpBuffer.Valid() && CurrentEnv() == env && Bytes() == b
    }

    /** What the members and attributes of the current class file are read in. */
    ghost function CurrentEnv(): Env
      reads this`constantPool, this`typeName, constantPool
    {
      Env(Cfg(), constantPool[..], typeName)
    }

    /** The constructor's work for a reporter that implements at least one
        reporter interface: the interest map is built with one `put` per
        annotation class. */
    constructor (reporter: Reporter)
      requires reporter.isTypeReporter || reporter.isFieldReporter || reporter.isMethodReporter
      ensures Valid() && fresh(cpBuffer) && fresh(cpBuffer.buffer)
      ensures interest == InterestMap(reporter.annotations)
      ensures typeReporter == reporter.isTypeReporter && fieldReporter == reporter.isFieldReporter
      ensures methodReporter == reporter.isMethodReporter
      ensures cpBuffer.buffer.Length == DefaultCapacity && cpBuffer.size == 0
      ensures typeName == None && memberName == None && reports == []
    {
      var a := reporter.annotations;
      var m: map<JString, JString> := map[];
      for i := 0 to |a|
        invariant m == InterestMap(a[..i])
      {
        assert a[..i + 1][..i] == a[..i];
        m := m[Descriptor(a[i]) := a[i]];
      }
      assert a[..|a|] == a;
      cpBuffer := new ClassFileBuffer();
      interest := m;
      typeReporter := reporter.isTypeReporter;
      fieldReporter := reporter.isFieldReporter;
      methodReporter := reporter.isMethodReporter;
      typeName := None;
      constantPool := new Slot[0];
      memberName := None;
      reports := [];
    }

    /** `new ADetect(reporter)`: an `AssertionError` for a reporter that
        implements none of the reporter interfaces. */
    static method Create(reporter: Reporter) returns (r: Result<ADetect>)
      ensures r.Err? <==> !(reporter.isTypeReporter || reporter.isFieldReporter || reporter.isMethodReporter)
      ensures r.Err? ==> r.error == NoReporter
      ensures r.Ok? ==> fresh(r.value) && r.value.Valid() && r.value.reports == []
      ensures r.Ok? ==> r.value.Cfg() == Config(InterestMap(reporter.annotations), reporter.isTypeReporter,
                                                 reporter.isFieldReporter, reporter.isMethodReporter)
    {
      if !(reporter.isTypeReporter || reporter.isFieldReporter || reporter.isMethodReporter) {
        return Err(NoReporter);
      }
      var d := new ADetect(reporter);
      return Ok(d);
    }

    /** The package filters of `detect(String...)`, one per package name. */
    static method PackageFilters(packageNames: seq<JString>) returns (pkgNameFilter: array<JString>)
      ensures fresh(pkgNameFilter) && pkgNameFilter.Length == |packageNames|
      ensures forall i :: 0 <= i < |packageNames| ==> pkgNameFilter[i] == PackageFilter(packageNames[i])
    {
      pkgNameFilter := new JString[|packageNames|];
      for i := 0 to pkgNameFilter.Length
        invariant forall j :: 0 <= j < i ==> pkgNameFilter[j] == PackageFilter(packageNames[j])
      {
        pkgNameFilter[i] := Replace(packageNames[i], Dot, Slash);
        var f := pkgNameFilter[i];
        if !(|f| > 0 && f[|f| - 1] == Slash) {
          pkgNameFilter[i] := f + [Slash];
        }
      }
    }

    /** `detect(ClassFileIterator)` over the entries the iterator yields: an
        exception ends only the entry it occurs in. */
    method DetectEntries(entries: seq<seq<Byte>>)
      requires Valid()
      modifies this, cpBuffer, cpBuffer.buffer
      ensures Valid()
      ensures reports == old(reports) + ScanEntries(Cfg(), old(cpBuffer.buffer.Length), entries)
    {
      ghost var total := old(reports) + ScanEntries(Cfg(), cpBuffer.buffer.Length, entries);
      assert entries[0..] == entries;
      for i := 0 to |entries|
        invariant Valid()
        invariant cpBuffer.buffer == old(cpBuffer.buffer) || fresh(cpBuffer.buffer)
        invariant ScanSplits(Cfg(), total, reports, cpBuffer.buffer.Length, entries[i..])
      {
        ScanSplitsStep(Cfg(), total, reports, cpBuffer.buffer.Length, entries, i);
        DetectEntry(entries[i]);
      }
    }

    /** The body of the loop of `detect(ClassFileIterator)`: one entry read
        into the buffer and, if it starts with the magic number, decoded;
        every exception is caught. */
    method DetectEntry(e: seq<Byte>)
      requires Valid()
      modifies this, cpBuffer, cpBuffer.buffer
      ensures Valid()
      ensures cpBuffer.buffer == old(cpBuffer.buffer) || fresh(cpBuffer.buffer)
      ensures cpBuffer.buffer.Length == Grow(old(cpBuffer.buffer.Length), |e|).0
      ensures reports == old(reports) + if Grow(old(cpBuffer.buffer.Length), |e|).1 then EntryReports(Cfg(), e) else []
    {
      ghost var before := reports;
      var o := cpBuffer.ReadFrom(e);
      if o.Fail? {
        return;
      }
      assert Bytes() == e;
      var cafe := HasCafebabe();
      if cafe {
        var _ := Detect();
        LogShift(Cfg(), e, 4, before);
      }
    }

    /** `hasCafebabe` on a buffer just filled (its cursor at the start). */
    method HasCafebabe() returns (r: bool)
      requires Valid() && cpBuffer.pointer == 0
      modifies cpBuffer`pointer
      ensures Valid()
      ensures r == HasMagic(Bytes())
      ensures r ==> cpBuffer.pointer == 4
    {
      var n := cpBuffer.Size();
      if n <= 4 {
        return false;
      }
      var magic := cpBuffer.ReadInt();
      assert Bytes()[..4] == Bytes()[0..4];
      return magic.value == Magic;
    }

    /** `detect(DataInput)`: the class file after the magic number. */
    method Detect() returns (r: Outcome)
      requires Valid()
      modifies this, cpBuffer`pointer
      ensures Valid()
      ensures var s := ClassFileFormat.DetectClass(Cfg(), Bytes(), old(cpBuffer.pointer), old(reports));
              reports == s.log && (r.Pass? <==> s.status.Done?) && (r.Fail? ==> s.status == Aborted(r.error))
    {
      ghost var b, p0, acc := Bytes(), cpBuffer.pointer, reports;
      r := ReadHeader();
      if r.Fail? {
        return;
      }
      ghost var env := CurrentEnv();
      assert Header(b, p0) == Parsed((constantPool[..], typeName), cpBuffer.pointer);
      r := ReadMembers(FieldLevel, !fieldReporter, env, b);
      ghost var f := Members(env, b, FieldLevel, !fieldReporter, Header(b, p0).next, acc);
      assert reports == f.log && Settles(r, cpBuffer.pointer, f.status);
      if r.Fail? {
        return;
      }
      r := ReadMembers(MethodLevel, !methodReporter, env, b);
      ghost var m := Members(env, b, MethodLevel, !methodReporter, f.status.pos, f.log);
      assert reports == m.log && Settles(r, cpBuffer.pointer, m.status);
      if r.Fail? {
        return;
      }
      r := ReadAttributes(TypeLevel, !typeReporter, env, b);
      TypeLevelAttributes(env, b, !typeReporter, memberName, None, m.status.pos, m.log);
    }

    /** The first six steps of `detect(DataInput)`: version, constant pool,
        access flags, this class, super class, interfaces. */
    method ReadHeader() returns (r: Outcome)
      requires Valid()
      modifies this`constantPool, this`typeName, cpBuffer`pointer
      ensures Valid()
      ensures match Header(Bytes(), old(cpBuffer.pointer))
              case Parsed((pool, name), q) => r == Pass && cpBuffer.pointer == q && constantPool[..] == pool && typeName == name
              case Failed(e) => r == Fail(e)
    {
      r := ReadVersion();
      if r.Fail? { return; }
      r := ReadConstantPoolEntries(Bytes());
      if r.Fail? { return; }
      r := ReadAccessFlags();
      if r.Fail? { return; }
      r := ReadThisClass();
      if r.Fail? { return; }
      r := ReadSuperClass();
      if r.Fail? { return; }
      r := ReadInterfaces();
    }

    method ReadVersion() returns (r: Outcome)
      requires Valid()
      modifies cpBuffer`pointer
      ensures Valid()
      ensures Ends(r, cpBuffer.pointer, Skip(Bytes(), old(cpBuffer.pointer), 4))
    {
      var s := cpBuffer.SkipBytes(4);
      r := if s.Ok? then Pass else Fail(s.error);
    }

    /** `readConstantPoolEntries`: a fresh pool of `count` slots, filled from slot 1 on. */
    method ReadConstantPoolEntries(ghost b: ClassBytes) returns (r: Outcome)
      requires Scanning(b)
      modifies this`constantPool, cpBuffer`pointer
      ensures Scanning(b)
      ensures constantPool == old(constantPool) || fresh(constantPool)
      ensures match ConstantPool(b, old(cpBuffer.pointer))
              case Parsed(pool, q) => r == Pass && cpBuffer.pointer == q && fresh(constantPool) && constantPool[..] == pool
              case Failed(e) => r == Fail(e)
    {
      ghost var goal := ConstantPool(b, cpBuffer.pointer);
      var count := cpBuffer.ReadUnsignedShort();
      if count.Err? {
        return Fail(count.error);
      }
      constantPool := new Slot[count.value](_ => Empty);
      assert constantPool[..] == EmptyPool(count.value);
      var i := 1;
      while i < count.value
        invariant 1 <= i
        invariant Scanning(b) && fresh(constantPool) && constantPool.Length == count.value
        invariant Filling(b, cpBuffer.pointer, count.value, i, constantPool[..], goal)
        decreases count.value - i
      {
        ghost var p, pool := cpBuffer.pointer, constantPool[..];
        var wide := ReadConstantPoolEntry(i, b);
        FillingStep(b, p, count.value, i, pool, goal, wide, cpBuffer.pointer, constantPool[..]);
        if wide.Err? {
          return Fail(wide.error);
        }
        i := if wide.value then i + 2 else i + 1;
      }
      return Pass;
    }

    /** `readConstantPoolEntry`: the entry for slot `index`; the result tells
        whether the entry takes two slots. */
    method ReadConstantPoolEntry(index: int, ghost b: ClassBytes) returns (r: Result<bool>)
      requires Scanning(b) && 0 <= index < constantPool.Length
      modifies constantPool, cpBuffer`pointer
      ensures Scanning(b)
      ensures match CpEntry(b, old(cpBuffer.pointer))
              case Parsed(Stored(s), q) =>
                r == Ok(false) && cpBuffer.pointer == q && constantPool[..] == old(constantPool[..])[index := s]
              case Parsed(Skipped(wide), q) =>
                r == Ok(wide) && cpBuffer.pointer == q && constantPool[..] == old(constantPool[..])
              case Failed(e) => r == Err(e)
    {
      var tag := cpBuffer.ReadUnsignedByte();
      if tag.Err? {
        return Err(tag.error);
      }
      var t := tag.value;
      if t == CpMethodType {
        r := SkipEntry(2, false, b);
      } else if t == CpMethodHandle {
        r := SkipEntry(3, false, b);
      } else if (t == CpInteger || t == CpFloat || t == CpRefField || t == CpRefMethod || t == CpRefInterface ||
                   t == CpNameAndType || t == CpInvokeDynamic) {
        r := SkipEntry(4, false, b);
      } else if t == CpLong || t == CpDouble {
        r := SkipEntry(8, true, b);
      } else if t == CpUtf8 {
        var s := cpBuffer.ReadUTF();
        if s.Err? {
          return Err(s.error);
        }
        constantPool[index] := Text(s.value);
        return Ok(false);
      } else if t == CpClass || t == CpString {
        var j := cpBuffer.ReadUnsignedShort();
        if j.Err? {
          return Err(j.error);
        }
        constantPool[index] := Ref(j.value);
        return Ok(false);
      } else {
        return Err(ClassFormat);
      }
    }

    /** A constant-pool entry whose body of n bytes is passed over. */
    method SkipEntry(n: JInt, wide: bool, ghost b: ClassBytes) returns (r: Result<bool>)
      requires Scanning(b)
      modifies cpBuffer`pointer
      ensures Scanning(b)
      ensures match Skip(b, old(cpBuffer.pointer), n)
              case Parsed(_, q) => r == Ok(wide) && cpBuffer.pointer == q
              case Failed(e) => r == Err(e)
    {
      var s := cpBuffer.SkipBytes(n);
      r := if s.Ok? then Ok(wide) else Err(s.error);
    }

    method ReadAccessFlags() returns (r: Outcome)
      requires Valid()
      modifies cpBuffer`pointer
      ensures Valid()
      ensures Ends(r, cpBuffer.pointer, Skip(Bytes(), old(cpBuffer.pointer), 2))
    {
      var s := cpBuffer.SkipBytes(2);
      r := if s.Ok? then Pass else Fail(s.error);
    }

    method ReadThisClass() returns (r: Outcome)
      requires Valid()
      modifies this`typeName, cpBuffer`pointer
      ensures Valid()
      ensures match Resolve(Bytes(), old(cpBuffer.pointer), constantPool[..])
              case Parsed(name, q) => r == Pass && cpBuffer.pointer == q && typeName == name
              case Failed(e) => r == Fail(e) && typeName == old(typeName)
    {
      var name := ResolveUtf8();
      if name.Err? {
        return Fail(name.error);
      }
      typeName := name.value;
      return Pass;
    }

    method ReadSuperClass() returns (r: Outcome)
      requires Valid()
      modifies cpBuffer`pointer
      ensures Valid()
      ensures Ends(r, cpBuffer.pointer, Skip(Bytes(), old(cpBuffer.pointer), 2))
    {
      var s := cpBuffer.SkipBytes(2);
      r := if s.Ok? then Pass else Fail(s.error);
    }

    method ReadInterfaces() returns (r: Outcome)
      requires Valid()
      modifies cpBuffer`pointer
      ensures Valid()
      ensures Ends(r, cpBuffer.pointer, Interfaces(Bytes(), old(cpBuffer.pointer)))
    {
      var count := cpBuffer.ReadUnsignedShort();
      if count.Err? {
        return Fail(count.error);
      }
      var s := cpBuffer.SkipBytes(count.value * 2);
      r := if s.Ok? then Pass else Fail(s.error);
    }

    /** `readFields` (at `FieldLevel`) and `readMethods` (at `MethodLevel`). */
    method ReadMembers(level: Level, skipReporting: bool, ghost env: Env, ghost b: ClassBytes) returns (r: Outcome)
      requires Reading(env, b)
      modifies this`memberName, this`reports, cpBuffer`pointer
      ensures Reading(env, b)
      ensures var s := Members(env, b, level, skipReporting, old(cpBuffer.pointer), old(reports));
              reports == s.log && Settles(r, cpBuffer.pointer, s.status)
    {
      ghost var goal := Members(env, b, level, skipReporting, cpBuffer.pointer, reports);
      MembersStart(env, b, level, skipReporting, cpBuffer.pointer, reports);
      var count := cpBuffer.ReadUnsignedShort();
      if count.Err? {
        return Fail(count.error);
      }
      var i := 0;
      r := Pass;
      while i < count.value && r.Pass?
        invariant 0 <= i <= count.value
        invariant Reading(env, b)
        invariant r.Pass? ==> MembersLeft(env, b, level, skipReporting, cpBuffer.pointer, count.value, i, reports, goal)
        invariant r.Fail? ==> reports == goal.log && goal.status == Aborted(r.error)
      {
        ghost var p, acc := cpBuffer.pointer, reports;
        r := ReadMember(level, skipReporting, env, b);
        MembersStep(env, b, level, skipReporting, p, count.value, i, acc, goal, r, cpBuffer.pointer, reports);
        i := i + 1;
      }
    }

    /** The body of the loops of `readFields` and `readMethods`: one member. */
    method ReadMember(level: Level, skipReporting: bool, ghost env: Env, ghost b: ClassBytes) returns (r: Outcome)
      requires Reading(env, b)
      modifies this`memberName, this`reports, cpBuffer`pointer
      ensures Reading(env, b)
      ensures var s := Member(env, b, level, skipReporting, old(cpBuffer.pointer), old(reports));
              reports == s.log && Settles(r, cpBuffer.pointer, s.status)
    {
      r := ReadMemberHead(env, b);
      if r.Fail? {
        return;
      }
      r := ReadAttributes(level, skipReporting, env, b);
    }

    /** The access flags, the name (kept in `memberName`) and the descriptor
        of a member. */
    method ReadMemberHead(ghost env: Env, ghost b: ClassBytes) returns (r: Outcome)
      requires Reading(env, b)
      modifies this`memberName, cpBuffer`pointer
      ensures Reading(env, b)
      ensures match MemberHead(b, old(cpBuffer.pointer), env.pool)
              case Parsed(name, q) => r == Pass && cpBuffer.pointer == q && memberName == name
              case Failed(e) => r == Fail(e)
    {
      r := ReadAccessFlags();
      if r.Fail? {
        return;
      }
      var name := ResolveUtf8();
      if name.Err? {
        return Fail(name.error);
      }
      memberName := name.value;
      var descriptor := ResolveUtf8();
      if descriptor.Err? {
        return Fail(descriptor.error);
      }
    }

    /** `readAttributes`: an unsigned 16-bit count, then that many attributes. */
    method ReadAttributes(level: Level, skipReporting: bool, ghost env: Env, ghost b: ClassBytes) returns (r: Outcome)
      requires Reading(env, b)
      modifies this`reports, cpBuffer`pointer
      ensures Reading(env, b)
      ensures var s := Attributes(env, b, level, skipReporting, memberName, old(cpBuffer.pointer), old(reports));
              reports == s.log && Settles(r, cpBuffer.pointer, s.status)
    {
      ghost var goal := Attributes(env, b, level, skipReporting, memberName, cpBuffer.pointer, reports);
      AttributesStart(env, b, level, skipReporting, memberName, cpBuffer.pointer, reports);
      var count := cpBuffer.ReadUnsignedShort();
      if count.Err? {
        return Fail(count.error);
      }
      var i := 0;
      r := Pass;
      while i < count.value && r.Pass?
        invariant 0 <= i <= count.value
        invariant Reading(env, b)
        invariant r.Pass? ==> AttributesLeft(env, b, level, skipReporting, memberName, cpBuffer.pointer, count.value, i, reports, goal)
        invariant r.Fail? ==> reports == goal.log && goal.status == Aborted(r.error)
      {
        ghost var p, acc := cpBuffer.pointer, reports;
        r := ReadAttribute(level, skipReporting, env, b);
        AttributesStep(env, b, level, skipReporting, memberName, p, count.value, i, acc, goal, r, cpBuffer.pointer, reports);
        i := i + 1;
      }
    }

    /** The body of the loop of `readAttributes`: annotations are read unless
        reporting is skipped; any other attribute is skipped by its length. */
    method ReadAttribute(level: Level, skipReporting: bool, ghost env: Env, ghost b: ClassBytes) returns (r: Outcome)
      requires Reading(env, b)
      modifies this`reports, cpBuffer`pointer
      ensures Reading(env, b)
      ensures var s := Attribute(env, b, level, skipReporting, memberName, old(cpBuffer.pointer), old(reports));
              reports == s.log && Settles(r, cpBuffer.pointer, s.status)
    {
      var head := ReadAttributeHead(env, b);
      if head.Err? {
        return Fail(head.error);
      }
      var (name, length) := head.value;
      if !skipReporting && IsAnnotationsAttribute(name) {
        r := ReadAnnotations(level, env, b);
      } else {
        var s := cpBuffer.SkipBytes(length);
        r := if s.Ok? then Pass else Fail(s.error);
      }
    }

    /** The name and the signed 32-bit length of an attribute. */
    method ReadAttributeHead(ghost env: Env, ghost b: ClassBytes) returns (r: Result<(Option<JString>, JInt)>)
      requires Reading(env, b)
      modifies cpBuffer`pointer
      ensures Reading(env, b)
      ensures Agrees(r, cpBuffer.pointer, AttributeHead(b, old(cpBuffer.pointer), env.pool))
    {
      var name := ResolveUtf8();
      if name.Err? {
        return Err(name.error);
      }
      var length := cpBuffer.ReadInt();
      if length.Err? {
        return Err(length.error);
      }
      return Ok((name.value, length.value));
    }

    /** `readAnnotations`: an unsigned 16-bit count, then that many annotations. */
    method ReadAnnotations(level: Level, ghost env: Env, ghost b: ClassBytes) returns (r: Outcome)
      requires Reading(env, b)
      modifies this`reports, cpBuffer`pointer
      ensures Reading(env, b)
      ensures var s := Annotations(env, b, level, memberName, old(cpBuffer.pointer), old(reports));
              reports == s.log && Settles(r, cpBuffer.pointer, s.status)
    {
      ghost var goal := Annotations(env, b, level, memberName, cpBuffer.pointer, reports);
      AnnotationsStart(env, b, level, memberName, cpBuffer.pointer, reports);
      var count := cpBuffer.ReadUnsignedShort();
      if count.Err? {
        return Fail(count.error);
      }
      var i := 0;
      r := Pass;
      while i < count.value && r.Pass?
        invariant 0 <= i <= count.value
        invariant Reading(env, b)
        invariant r.Pass? ==> AnnotationsLeft(env, b, level, memberName, cpBuffer.pointer, count.value, i, reports, goal)
        invariant r.Fail? ==> reports == goal.log && goal.status == Aborted(r.error)
      {
        ghost var p, acc := cpBuffer.pointer, reports;
        r := ReportAnnotation(level, env, b);
        AnnotationsStep(env, b, level, memberName, p, count.value, i, acc, goal, r, cpBuffer.pointer, reports);
        i := i + 1;
      }
    }

    /** The body of the loop of `readAnnotations`: an annotation whose
        descriptor is in the interest map is reported, with the class name in
        dotted form. */
    method ReportAnnotation(level: Level, ghost env: Env, ghost b: ClassBytes) returns (r: Outcome)
      requires Reading(env, b)
      modifies this`reports, cpBuffer`pointer
      ensures Reading(env, b)
      ensures var s := AnnotationEntry(env, b, level, memberName, old(cpBuffer.pointer), old(reports));
              reports == s.log && Settles(r, cpBuffer.pointer, s.status)
    {
      var rawTypeName := ReadAnnotation();
      if rawTypeName.Err? {
        return Fail(rawTypeName.error);
      }
      var raw := rawTypeName.value;
      if raw.Some? && raw.value in interest {
        if typeName.None? {
          return Fail(NullPointer);
        }
        var externalTypeName := Replace(typeName.value, Slash, Dot);
        var member := if level == TypeLevel then None else memberName;
        reports := reports + [Report(level, interest[raw.value], externalTypeName, member)];
      }
      return Pass;
    }

    /** `readAnnotation`: the value is the resolved type descriptor. */
    method ReadAnnotation() returns (r: Result<Option<JString>>)
      requires Valid()
      modifies cpBuffer`pointer
      ensures Valid()
      ensures Agrees(r, cpBuffer.pointer, Annotation(Bytes(), old(cpBuffer.pointer), constantPool[..]))
      decreases cpBuffer.size - cpBuffer.pointer
    {
      ghost var b, p0, pool := Bytes(), cpBuffer.pointer, constantPool[..];
      var head := ReadAnnotationHead();
      if head.Err? {
        return Err(head.error);
      }
      var (rawTypeName, count) := head.value;
      ghost var goal := Pairs(b, cpBuffer.pointer, pool, count);
      var i := 0;
      while i < count
        invariant Valid() && Bytes() == b
        invariant p0 + 4 <= cpBuffer.pointer
        invariant PairsLeft(b, cpBuffer.pointer, pool, count, i, goal)
      {
        PairsNext(b, cpBuffer.pointer, pool, count, i, goal);
        var name := cpBuffer.SkipBytes(2);
        if name.Err? {
          return Err(name.error);
        }
        var v := ReadAnnotationElementValue();
        if v.Fail? {
          return Err(v.error);
        }
        i := i + 1;
      }
      return Ok(rawTypeName);
    }

    /** The type descriptor and the pair count at the start of `readAnnotation`. */
    method ReadAnnotationHead() returns (r: Result<(Option<JString>, int)>)
      requires Valid()
      modifies cpBuffer`pointer
      ensures Valid()
      ensures Agrees(r, cpBuffer.pointer, AnnotationHead(Bytes(), old(cpBuffer.pointer), constantPool[..]))
    {
      var rawTypeName := ResolveUtf8();
      if rawTypeName.Err? {
        return Err(rawTypeName.error);
      }
      var count := cpBuffer.ReadUnsignedShort();
      if count.Err? {
        return Err(count.error);
      }
      return Ok((rawTypeName.value, count.value));
    }

    /** `readAnnotationElementValue`. */
    method ReadAnnotationElementValue() returns (r: Outcome)
      requires Valid()
      modifies cpBuffer`pointer
      ensures Valid()
      ensures Ends(r, cpBuffer.pointer, ElementValue(Bytes(), old(cpBuffer.pointer), constantPool[..]))
      decreases cpBuffer.size - cpBuffer.pointer
    {
      ghost var b, p0, pool := Bytes(), cpBuffer.pointer, constantPool[..];
      var tag := cpBuffer.ReadUnsignedByte();
      if tag.Err? {
        return Fail(tag.error);
      }
      var t := tag.value;
      if IsConstantValueTag(t) || t == ClassTag {
        var s := cpBuffer.SkipBytes(2);
        r := if s.Ok? then Pass else Fail(s.error);
      } else if t == EnumTag {
        var s := cpBuffer.SkipBytes(4);
        r := if s.Ok? then Pass else Fail(s.error);
      } else if t == AnnotationTag {
        var a := ReadAnnotation();
        r := if a.Ok? then Pass else Fail(a.error);
      } else if t == ArrayTag {
        var count := cpBuffer.ReadUnsignedShort();
        if count.Err? {
          return Fail(count.error);
        }
        ghost var goal := Elems(b, cpBuffer.pointer, pool, count.value);
        var i := 0;
        while i < count.value
          invariant Valid() && Bytes() == b
          invariant p0 + 3 <= cpBuffer.pointer
          invariant ElemsLeft(b, cpBuffer.pointer, pool, count.value, i, goal)
        {
          ElemsNext(b, cpBuffer.pointer, pool, count.value, i, goal);
          var v := ReadAnnotationElementValue();
          if v.Fail? {
            return v;
          }
          i := i + 1;
        }
        r := Pass;
      } else {
        r := Fail(ClassFormat);
      }
    }

    /** `resolveUtf8`: one unsigned 16-bit index, then its string. */
    method ResolveUtf8() returns (r: Result<Option<JString>>)
      requires Valid()
      modifies cpBuffer`pointer
      ensures Valid()
      ensures Agrees(r, cpBuffer.pointer, Resolve(Bytes(), old(cpBuffer.pointer), constantPool[..]))
    {
      var index := cpBuffer.ReadUnsignedShort();
      if index.Err? {
        return Err(index.error);
      }
      var i := index.value;
      if !(0 <= i < constantPool.Length) {
        return Err(ArrayIndexOutOfBounds);
      }
      var value := constantPool[i];
      if value.Ref? {
        var j := value.index;
        if !(0 <= j < constantPool.Length) {
          return Err(ArrayIndexOutOfBounds);
        }
        var target := constantPool[j];
        if target.Ref? {
          return Err(ClassCast);
        }
        return Ok(if target.Text? then Some(target.text) else None);
      }
      return Ok(if value.Text? then Some(value.text) else None);
    }
  }
}
