# ADetect: an annotation scanner over Java class files, in Dafny

This project models the annotation detector of ProjectNovacula-Core. The
detector is the class `ADetect` and its byte cursor `ClassFileBuffer`.
`ADetect` reads Java class files straight from their bytes, without loading
them. It finds the runtime-visible annotations on a class, on its fields
and on its methods. Each annotation whose type is of interest to the
reporter is reported as a (level, annotation, class, member) record. The
class file grammar follows chapter 4 of the Java Virtual Machine
Specification. The constant pool is described in section 4.4, and the
`RuntimeVisibleAnnotations` attribute in section 4.7.16.

The model has three layers.

- **The byte cursor.** `ClassFileBuffer` is a Dafny `class` with the
  source's fields: `buffer` (an `array`), `size` and `pointer`. Every
  `DataInput` read it implements is a method. Its contract states the
  value read, the new pointer and the exception thrown. Pure functions on
  the byte sequence (`ReadU1`, `ReadU2`, `ReadI32`, `Skip`, `ReadUtf`,
  `Grow`) state what the reads compute. The methods are proved against
  them.
- **The grammar.** The class file format is written as pure functions in
  module `ClassFileFormat`. Each of them returns either the value with the
  next position, or the exception. The scanning functions (`Annotations`,
  `Attributes`, `Members`, `DetectClass`) also carry the reports made so
  far. `ScanEntries` folds scanning over a sequence of entries that share
  one buffer.
- **The detector.** `ADetect` is a `class` with the source's fields:
  - the interest map;
  - the three reporter flags;
  - `cpBuffer`;
  - the constant pool array;
  - the type and member names.

  Reports go to a `reports` log field. Every private `read…` method of the
  source becomes a method whose `ensures` ties the new pointer, pool,
  names and log to the grammar function for the bytes held.

Properties are proved about the grammar functions in separate modules:

- `ConstantPoolProperties`: entry sizes by tag, what the pool keeps, and
  how `resolveUtf8` resolves through at most one indirection and when it
  throws.
- `AnnotationEncoding`: an encoder for well-formed annotations and element
  values. The grammar decodes exactly their bytes (a round trip), and an
  unknown element tag is a ClassFormatError.
- `ReportProperties`: when an annotation is reported, exactly. Every
  report goes to a present reporter and names an annotation class of
  interest. The class name is in dotted form. Field reports come before
  method reports, which come before type reports. An attribute that is
  not read is skipped by its length, forwards or backwards.
- `ReportLog`: reports already made are never changed, and the class's own
  attributes do not depend on the last member name.
- `EntryProperties`: the shared buffer's capacity only grows, and every
  entry below 2^30 bytes fits. A failing entry ends only itself. The scan
  of many entries reports what each entry reports on its own.
- `NameProperties`: the interest map holds exactly the descriptors of the
  annotation classes. Later classes with the same descriptor replace
  earlier ones. The module also proves the shape and idempotence of
  package filters, and the magic-number test.
- `ModifiedUtf8`: the modified UTF-8 decoding of `readUTF`, and its inverse
  encoder, with a round-trip lemma.

Java `int` and `long` arithmetic is written out with `WrapInt` and
`WrapLong` wherever it can overflow. Two places are the `seek` of
`skipBytes` and the sums of `readInt` and `readLong`.

`skipBytes` with a negative count moves the cursor backwards, unlike
`DataInput.skipBytes`, which never does. An attribute
whose signed 32-bit length is negative therefore makes `readAttributes`
re-read earlier bytes. The model follows the code (`SkipSigned`,
`AttributeSkipped`).

## Model

| member | source | states |
|---|---|---|
| Detector.ADetect.constructor | src/main/java/net/foxdenstudio/novacula/core/plugins/detector/ADetect.java:149-169 | builds the interest map with one `put` per annotation class, keyed by its descriptor, records which reporter interfaces are present, and starts with no class name, no member name and no reports |
| Detector.ADetect.Create | src/main/java/net/foxdenstudio/novacula/core/plugins/detector/ADetect.java:149-169 | raises the AssertionError exactly when the reporter implements none of the three reporter interfaces; otherwise the detector's configuration is the interest map and the three reporter flags |
| Detector.ADetect.PackageFilters | src/main/java/net/foxdenstudio/novacula/core/plugins/detector/ADetect.java:187-193 | the filter array has one entry per package name, and entry i is `PackageFilter` of name i |
| Detector.ADetect.DetectEntries | src/main/java/net/foxdenstudio/novacula/core/plugins/detector/ADetect.java:274-295 | the report log grows by exactly `ScanEntries` of the entries: each entry's reports in order, an entry the buffer cannot take in reporting nothing, and no exception stopping the loop |
| Detector.ADetect.DetectEntry | src/main/java/net/foxdenstudio/novacula/core/plugins/detector/ADetect.java:276-293 | the buffer's capacity becomes `Grow(old capacity, entry size)`; the log grows by the entry's `EntryReports` when the buffer took it in and by nothing otherwise |
| Detector.ADetect.HasCafebabe | src/main/java/net/foxdenstudio/novacula/core/plugins/detector/ADetect.java:297-299 | the result is true exactly when the buffer holds more than four bytes whose first big-endian `int` is 0xCAFEBABE, and then the cursor is at offset 4 |
| Detector.ADetect.Detect | src/main/java/net/foxdenstudio/novacula/core/plugins/detector/ADetect.java:304-314 | the log and the outcome are those of `DetectClass` from the cursor: header, fields, methods, then the class's own attributes; reports made before an exception stay in the log |
| Detector.ADetect.ReadHeader | src/main/java/net/foxdenstudio/novacula/core/plugins/detector/ADetect.java:304-310 | succeeds exactly when `Header` parses, leaving the cursor after the interfaces with the constant pool and the resolved class name `Header` gives; otherwise fails with `Header`'s exception |
| Detector.ADetect.ReadVersion | src/main/java/net/foxdenstudio/novacula/core/plugins/detector/ADetect.java:316-324 | passes over exactly 4 bytes, or fails as `skipBytes(4)` does |
| Detector.ADetect.ReadConstantPoolEntries | src/main/java/net/foxdenstudio/novacula/core/plugins/detector/ADetect.java:326-335 | succeeds exactly when `ConstantPool` parses, and then the pool array is fresh, holds exactly `ConstantPool`'s slots and the cursor is after the last entry; otherwise fails with its exception |
| Detector.ADetect.ReadConstantPoolEntry | src/main/java/net/foxdenstudio/novacula/core/plugins/detector/ADetect.java:340-376 | agrees with `CpEntry`: a stored entry sets slot `index` and nothing else, a skipped entry changes no slot and reports whether it is wide, and a failure is `CpEntry`'s exception |
| Detector.ADetect.SkipEntry | src/main/java/net/foxdenstudio/novacula/core/plugins/detector/ADetect.java:345-363 | passes over the entry body of n bytes as `skipBytes(n)` does, returning the entry's width |
| Detector.ADetect.ReadAccessFlags | src/main/java/net/foxdenstudio/novacula/core/plugins/detector/ADetect.java:378-380 | passes over exactly 2 bytes, or fails as `skipBytes(2)` does |
| Detector.ADetect.ReadThisClass | src/main/java/net/foxdenstudio/novacula/core/plugins/detector/ADetect.java:382-387 | sets the class name to what `Resolve` yields and moves 2 bytes on; on failure the class name is unchanged |
| Detector.ADetect.ReadSuperClass | src/main/java/net/foxdenstudio/novacula/core/plugins/detector/ADetect.java:389-391 | passes over exactly 2 bytes, or fails as `skipBytes(2)` does |
| Detector.ADetect.ReadInterfaces | src/main/java/net/foxdenstudio/novacula/core/plugins/detector/ADetect.java:393-396 | agrees with `Interfaces`: a 16-bit count, then twice that many bytes passed over |
| Detector.ADetect.ReadMembers | src/main/java/net/foxdenstudio/novacula/core/plugins/detector/ADetect.java:398-428 | the log and the outcome are those of `Members` at the given level, with annotations read only when that level's reporter is present |
| Detector.ADetect.ReadMember | src/main/java/net/foxdenstudio/novacula/core/plugins/detector/ADetect.java:403-411 | the log and the outcome are those of `Member`: the member's head, then its attributes |
| Detector.ADetect.ReadMemberHead | src/main/java/net/foxdenstudio/novacula/core/plugins/detector/ADetect.java:404-406 | agrees with `MemberHead`: flags skipped, the resolved name stored in `memberName`, the descriptor resolved |
| Detector.ADetect.ReadAttributes | src/main/java/net/foxdenstudio/novacula/core/plugins/detector/ADetect.java:430-452 | the log and the outcome are those of `Attributes` for the current member name |
| Detector.ADetect.ReadAttribute | src/main/java/net/foxdenstudio/novacula/core/plugins/detector/ADetect.java:438-450 | the log and the outcome are those of `Attribute`: an annotations attribute is parsed only when reporting is not skipped; any other attribute is skipped by its signed length |
| Detector.ADetect.ReadAttributeHead | src/main/java/net/foxdenstudio/novacula/core/plugins/detector/ADetect.java:438-440 | agrees with `AttributeHead`: the resolved name and the signed 32-bit length, 6 bytes in all |
| Detector.ADetect.ReadAnnotations | src/main/java/net/foxdenstudio/novacula/core/plugins/detector/ADetect.java:454-483 | the log and the outcome are those of `Annotations`: a 16-bit count, then that many annotations |
| Detector.ADetect.ReportAnnotation | src/main/java/net/foxdenstudio/novacula/core/plugins/detector/ADetect.java:463-481 | the log and the outcome are those of `AnnotationEntry`: one report appended exactly when the descriptor is of interest, with the class name in dotted form; a null class name is a NullPointerException |
| Detector.ADetect.ReadAnnotation | src/main/java/net/foxdenstudio/novacula/core/plugins/detector/ADetect.java:485-501 | agrees with `Annotation`: the resolved type descriptor, with the cursor after all the element-value pairs |
| Detector.ADetect.ReadAnnotationHead | src/main/java/net/foxdenstudio/novacula/core/plugins/detector/ADetect.java:486-488 | agrees with `AnnotationHead`: the resolved type descriptor and the 16-bit pair count |
| Detector.ADetect.ReadAnnotationElementValue | src/main/java/net/foxdenstudio/novacula/core/plugins/detector/ADetect.java:504-540 | agrees with `ElementValue`: the cursor ends where the value's grammar ends, or the call fails with the same exception |
| Detector.ADetect.ResolveUtf8 | src/main/java/net/foxdenstudio/novacula/core/plugins/detector/ADetect.java:546-563 | agrees with `Resolve`: a 2-byte index, then the name that index resolves to in the pool, or the exception resolving it raises |
| ClassFileFormat.AfterSkip | src/main/java/net/foxdenstudio/novacula/core/plugins/detector/ADetect.java:345-363 | a skipped entry parses exactly when its skip does, keeps the skip's end position and its exception, and records the entry's width |
| ClassFileFormat.CpEntry | src/main/java/net/foxdenstudio/novacula/core/plugins/detector/ADetect.java:340-376 | one entry consumes at least its tag byte and ends within the bytes |
| ClassFileFormat.CpFill | src/main/java/net/foxdenstudio/novacula/core/plugins/detector/ADetect.java:329-334 | a filled pool keeps the pool size and ends within the bytes |
| ClassFileFormat.EmptyPool | src/main/java/net/foxdenstudio/novacula/core/plugins/detector/ADetect.java:328 | a fresh pool of `count` slots holds only empty slots |
| ClassFileFormat.ConstantPool | src/main/java/net/foxdenstudio/novacula/core/plugins/detector/ADetect.java:326-335 | a parsed pool consumes at least its 2-byte count |
| ClassFileFormat.ResolveAt | src/main/java/net/foxdenstudio/novacula/core/plugins/detector/ADetect.java:546-563 | the only exceptions are ArrayIndexOutOfBounds and ClassCast; exactly when each arises, and when the result is a string or null, is stated by `ConstantPoolProperties.ResolvesToText`, `ResolvesToNull` and `ResolveErrors` |
| ClassFileFormat.Resolve | src/main/java/net/foxdenstudio/novacula/core/plugins/detector/ADetect.java:546-563 | a resolved name consumes exactly 2 bytes |
| ClassFileFormat.Annotation | src/main/java/net/foxdenstudio/novacula/core/plugins/detector/ADetect.java:485-501 | an annotation consumes at least its 4 header bytes and ends within the bytes |
| ClassFileFormat.AnnotationHead | src/main/java/net/foxdenstudio/novacula/core/plugins/detector/ADetect.java:486-488 | the head is exactly 4 bytes and its count is an unsigned 16-bit number |
| ClassFileFormat.Pairs | src/main/java/net/foxdenstudio/novacula/core/plugins/detector/ADetect.java:492-499 | the pairs end at or after where they start, within the bytes |
| ClassFileFormat.ElementValue | src/main/java/net/foxdenstudio/novacula/core/plugins/detector/ADetect.java:504-540 | an element value consumes at least its tag byte and ends within the bytes |
| ClassFileFormat.Elems | src/main/java/net/foxdenstudio/novacula/core/plugins/detector/ADetect.java:531-534 | the array values end at or after where they start, within the bytes |
| ClassFileFormat.Unit | src/main/java/net/foxdenstudio/novacula/core/plugins/detector/ADetect.java:519-526 | a fixed-size value parses exactly when its skip does, with the same end and exception |
| ClassFileFormat.Replace | src/main/java/net/foxdenstudio/novacula/core/plugins/detector/ADetect.java:468 | `String.replace` on characters: same length, each `from` replaced by `to` and every other character kept in place |
| ClassFileFormat.MakeReport | src/main/java/net/foxdenstudio/novacula/core/plugins/detector/ADetect.java:468-478 | the report of an annotation of interest: its level, the mapped annotation class, the class name with '/' replaced by '.', and the member name except at type level; `ReportProperties.EntryExtends` and `DottedClassName` state what it carries |
| ClassFileFormat.AnnotationEntry | src/main/java/net/foxdenstudio/novacula/core/plugins/detector/ADetect.java:463-481 | a scan that goes on ends strictly after the annotation's first byte and within the bytes |
| ClassFileFormat.AnnotationsLoop | src/main/java/net/foxdenstudio/novacula/core/plugins/detector/ADetect.java:462-482 | a scan that goes on ends within the bytes, at or after its start |
| ClassFileFormat.Annotations | src/main/java/net/foxdenstudio/novacula/core/plugins/detector/ADetect.java:454-483 | a scan that goes on ends within the bytes, at or after its start |
| ClassFileFormat.IsAnnotationsAttribute | src/main/java/net/foxdenstudio/novacula/core/plugins/detector/ADetect.java:441-443 | the two names under which an attribute is read as annotations, a null name being neither; `ReportProperties.AttributeSkipped` states that every other attribute is skipped by its length |
| ClassFileFormat.AttributeHead | src/main/java/net/foxdenstudio/novacula/core/plugins/detector/ADetect.java:438-440 | the head is exactly 6 bytes: a 2-byte name index and a 4-byte length |
| ClassFileFormat.Attribute | src/main/java/net/foxdenstudio/novacula/core/plugins/detector/ADetect.java:438-450 | a scan that goes on ends within the bytes |
| ClassFileFormat.AttributesLoop | src/main/java/net/foxdenstudio/novacula/core/plugins/detector/ADetect.java:437-451 | a scan that goes on ends within the bytes |
| ClassFileFormat.Attributes | src/main/java/net/foxdenstudio/novacula/core/plugins/detector/ADetect.java:430-452 | a scan that goes on ends within the bytes |
| ClassFileFormat.MemberHead | src/main/java/net/foxdenstudio/novacula/core/plugins/detector/ADetect.java:404-406 | the head is at least 6 bytes: flags, name index and descriptor index |
| ClassFileFormat.Member | src/main/java/net/foxdenstudio/novacula/core/plugins/detector/ADetect.java:403-411 | a scan that goes on ends within the bytes |
| ClassFileFormat.MembersLoop | src/main/java/net/foxdenstudio/novacula/core/plugins/detector/ADetect.java:403-411 | a scan that goes on ends within the bytes |
| ClassFileFormat.Members | src/main/java/net/foxdenstudio/novacula/core/plugins/detector/ADetect.java:398-428 | a scan that goes on ends within the bytes |
| ClassFileFormat.Interfaces | src/main/java/net/foxdenstudio/novacula/core/plugins/detector/ADetect.java:393-396 | the interfaces take exactly 2 bytes plus two bytes per counted interface |
| ClassFileFormat.InterfacesFit | src/main/java/net/foxdenstudio/novacula/core/plugins/detector/ADetect.java:393-396 | the interfaces parse exactly when the bytes hold the big-endian count and twice that many bytes after it |
| ClassFileFormat.Header | src/main/java/net/foxdenstudio/novacula/core/plugins/detector/ADetect.java:304-310 | a parsed header ends within the bytes |
| ClassFileFormat.DetectClass | src/main/java/net/foxdenstudio/novacula/core/plugins/detector/ADetect.java:304-314 | the header, then fields, methods and the class's own attributes, each section starting where the previous one ended and the first exception ending the class; `ReportProperties.ClassReports` states what its reports are and in which order, and `ReportLog.LogShift` that they follow the earlier reports unchanged |
| ClassFileFormat.HasMagic | src/main/java/net/foxdenstudio/novacula/core/plugins/detector/ADetect.java:297-299 | more than four bytes whose first big-endian `int` is 0xCAFEBABE; `NameProperties.HasMagicIff` states it as the bytes CA FE BA BE |
| ClassFileFormat.EntryReports | src/main/java/net/foxdenstudio/novacula/core/plugins/detector/ADetect.java:277-293 | the reports of one entry: those `DetectClass` makes after the magic number, whatever exception ends it, and none for an entry that is not a class file (`NameProperties.NotAClassFile`) |
| ClassFileFormat.ScanEntries | src/main/java/net/foxdenstudio/novacula/core/plugins/detector/ADetect.java:274-295 | each entry in turn read into the one buffer, whose capacity follows `Grow`; an entry the buffer cannot hold reports nothing and the scan goes on; `EntryProperties.ScanAppend` and `ScanIsConcatenation` state that it concatenates what each entry reports |
| ClassFileFormat.Descriptor | src/main/java/net/foxdenstudio/novacula/core/plugins/detector/ADetect.java:155 | the key is "L", then the class name with '.' replaced by '/', then ";" |
| ClassFileFormat.InterestMap | src/main/java/net/foxdenstudio/novacula/core/plugins/detector/ADetect.java:154-156 | one `put` per annotation class, in order; `NameProperties.InterestKeys` and `InterestValue` state its keys and that the last class with a descriptor wins |
| ClassFileFormat.PackageFilter | src/main/java/net/foxdenstudio/novacula/core/plugins/detector/ADetect.java:187-193 | dots replaced by slashes, and a slash appended unless one is last; `NameProperties.PackageFilterShape`, `PackageFilterPrefix` and `PackageFilterIdempotent` state its shape |
| ClassFileBuffers.ReadU1 | src/main/java/net/foxdenstudio/novacula/core/plugins/detector/ClassFileBuffer.java:139-144 | succeeds exactly when a byte is left; the value is that byte, in 0..255, one byte on; otherwise EOF |
| ClassFileBuffers.ReadU2 | src/main/java/net/foxdenstudio/novacula/core/plugins/detector/ClassFileBuffer.java:147-152 | succeeds exactly when two bytes are left; two bytes on, the value in 0..65535; otherwise EOF |
| ClassFileBuffers.ReadU2IsBigEndian | src/main/java/net/foxdenstudio/novacula/core/plugins/detector/ClassFileBuffer.java:147-152 | the unsigned short is the big-endian number of its two bytes |
| ClassFileBuffers.ReadI32 | src/main/java/net/foxdenstudio/novacula/core/plugins/detector/ClassFileBuffer.java:165-173 | succeeds exactly when four bytes are left; four bytes on, the value a signed 32-bit number; otherwise EOF |
| ClassFileBuffers.ReadI32IsBigEndian | src/main/java/net/foxdenstudio/novacula/core/plugins/detector/ClassFileBuffer.java:165-173 | the `int` is the big-endian number of its four bytes wrapped to 32 bits |
| ClassFileBuffers.Skip | src/main/java/net/foxdenstudio/novacula/core/plugins/detector/ClassFileBuffer.java:120-123 | `seek(pointer + n)` in `int` arithmetic: when the sum does not overflow, it succeeds exactly for a target in 0..size; a negative target is IllegalArgument and a target past the end is EOF |
| ClassFileBuffers.SkipSigned | src/main/java/net/foxdenstudio/novacula/core/plugins/detector/ClassFileBuffer.java:120-123 | for a signed 32-bit n from inside the bytes: success exactly for a target in 0..size, even backwards; a target past 2^31 - 1 wraps to a negative one and is IllegalArgument |
| ClassFileBuffers.ReadUtf | src/main/java/net/foxdenstudio/novacula/core/plugins/detector/ClassFileBuffer.java:213-215 | a decoded text consumes at least its 2-byte length and ends within the bytes |
| ClassFileBuffers.LongAsWritten | src/main/java/net/foxdenstudio/novacula/core/plugins/detector/ClassFileBuffer.java:176-188 | the sum as written is the big-endian number of the eight bytes minus 2^32 when the fifth byte is 0x80 or more, wrapped to 64 bits |
| ClassFileBuffers.LongAsWrittenCorrectIff | src/main/java/net/foxdenstudio/novacula/core/plugins/detector/ClassFileBuffer.java:176-188 | the as-written value is the two's-complement value of the eight bytes exactly when the fifth byte is below 0x80 |
| ClassFileBuffers.LongAsWrittenCounterexample | src/main/java/net/foxdenstudio/novacula/core/plugins/detector/ClassFileBuffer.java:184 | the bytes 00 00 00 00 80 00 00 00 spell 2^31, but the as-written sum is -2^31 |
| ClassFileBuffers.Grow | src/main/java/net/foxdenstudio/novacula/core/plugins/detector/ClassFileBuffer.java:223-229 | the final capacity is a power of two between the old one and 2^30, and the stream fits exactly when it is smaller than the final capacity |
| ClassFileBuffers.ReadFullyCheck | src/main/java/net/foxdenstudio/novacula/core/plugins/detector/ClassFileBuffer.java:106-117 | passes only for a nonnegative offset and length with offset + length within the array and pointer + length within the bytes, and for a nonnegative pointer whenever those hold; otherwise IndexOutOfBounds or EOF, and EOF only when the bytes run out |
| ClassFileBuffers.ClassFileBuffer.constructor | src/main/java/net/foxdenstudio/novacula/core/plugins/detector/ClassFileBuffer.java:41-43 | an empty cursor of capacity 8192 with pointer and size 0 |
| ClassFileBuffers.ClassFileBuffer.WithCapacity | src/main/java/net/foxdenstudio/novacula/core/plugins/detector/ClassFileBuffer.java:52-57 | an empty cursor of the given capacity |
| ClassFileBuffers.ClassFileBuffer.Create | src/main/java/net/foxdenstudio/novacula/core/plugins/detector/ClassFileBuffer.java:52-57 | IllegalArgument exactly when the capacity is below 1; otherwise an empty cursor of that capacity |
| ClassFileBuffers.ClassFileBuffer.ReadFrom | src/main/java/net/foxdenstudio/novacula/core/plugins/detector/ClassFileBuffer.java:64-75 | pointer 0; the capacity and success are `Grow(old capacity, stream size)`; on success the held bytes are the stream, in order, with size below capacity; on failure NegativeArraySize with a full buffer holding the stream's first bytes |
| ClassFileBuffers.ClassFileBuffer.ReadChunk | src/main/java/net/foxdenstudio/novacula/core/plugins/detector/ClassFileBuffer.java:68-73 | one turn keeps the held bytes a prefix of the stream, keeps `Grow` of the capacity unchanged, and either consumes stream bytes or meets the end |
| ClassFileBuffers.ClassFileBuffer.Deliver | src/main/java/net/foxdenstudio/novacula/core/plugins/detector/ClassFileBuffer.java:69-72 | one read adds the stream's next bytes to the held ones and shortens what is left |
| ClassFileBuffers.ClassFileBuffer.StreamRead | src/main/java/net/foxdenstudio/novacula/core/plugins/detector/ClassFileBuffer.java:69 | -1 at the end of the stream; otherwise between 1 and the free room of the next bytes, stored from `size` on with the earlier bytes kept |
| ClassFileBuffers.ClassFileBuffer.ResizeIfNeeded | src/main/java/net/foxdenstudio/novacula/core/plugins/detector/ClassFileBuffer.java:223-229 | doubles the capacity exactly when the bytes fill it, keeping every byte; NegativeArraySize exactly when a full buffer already has 2^30 bytes |
| ClassFileBuffers.ClassFileBuffer.Seek | src/main/java/net/foxdenstudio/novacula/core/plugins/detector/ClassFileBuffer.java:81-89 | moves to the position exactly when it is in 0..size; IllegalArgument for a negative position, EOF past the end, pointer unchanged on failure |
| ClassFileBuffers.ClassFileBuffer.Size | src/main/java/net/foxdenstudio/novacula/core/plugins/detector/ClassFileBuffer.java:94-96 | the number of bytes held |
| ClassFileBuffers.ClassFileBuffer.ReadFully | src/main/java/net/foxdenstudio/novacula/core/plugins/detector/ClassFileBuffer.java:106-117 | the outcome is `ReadFullyCheck` (IndexOutOfBounds for a bad offset or length, then EOF); on success bytes[offset..offset + length) are the next bytes, the rest of `bytes` is unchanged and the pointer moves by length; on failure nothing changes |
| ClassFileBuffers.ClassFileBuffer.ReadFullyArray | src/main/java/net/foxdenstudio/novacula/core/plugins/detector/ClassFileBuffer.java:101-103 | fills the whole array with the next bytes exactly when that many are left; on failure nothing changes |
| ClassFileBuffers.ClassFileBuffer.SkipBytes | src/main/java/net/foxdenstudio/novacula/core/plugins/detector/ClassFileBuffer.java:120-123 | agrees with `Skip`; returns n; pointer unchanged on failure; a negative target is IllegalArgument |
| ClassFileBuffers.ClassFileBuffer.Read | src/main/java/net/foxdenstudio/novacula/core/plugins/detector/ClassFileBuffer.java:219-221 | the next byte, unsigned, one byte on |
| ClassFileBuffers.ClassFileBuffer.ReadByte | src/main/java/net/foxdenstudio/novacula/core/plugins/detector/ClassFileBuffer.java:126-131 | EOF exactly when no byte is left, pointer unchanged; otherwise the next byte as a signed value, one byte on |
| ClassFileBuffers.ClassFileBuffer.ReadBoolean | src/main/java/net/foxdenstudio/novacula/core/plugins/detector/ClassFileBuffer.java:134-136 | `readByte() != 0`, with its EOF |
| ClassFileBuffers.ClassFileBuffer.ReadUnsignedByte | src/main/java/net/foxdenstudio/novacula/core/plugins/detector/ClassFileBuffer.java:139-144 | agrees with `ReadU1`: EOF exactly when no byte is left, pointer unchanged; otherwise the byte in 0..255 |
| ClassFileBuffers.ClassFileBuffer.ReadUnsignedShort | src/main/java/net/foxdenstudio/novacula/core/plugins/detector/ClassFileBuffer.java:147-152 | agrees with `ReadU2`: EOF exactly when fewer than two bytes are left; otherwise the big-endian value in 0..65535, two bytes on |
| ClassFileBuffers.ClassFileBuffer.ReadShort | src/main/java/net/foxdenstudio/novacula/core/plugins/detector/ClassFileBuffer.java:155-157 | the unsigned short reinterpreted as a signed 16-bit value, with its EOF |
| ClassFileBuffers.ClassFileBuffer.ReadChar | src/main/java/net/foxdenstudio/novacula/core/plugins/detector/ClassFileBuffer.java:160-162 | the unsigned short as a UTF-16 code unit, with its EOF |
| ClassFileBuffers.ClassFileBuffer.ReadInt | src/main/java/net/foxdenstudio/novacula/core/plugins/detector/ClassFileBuffer.java:165-173 | agrees with `ReadI32`: EOF exactly when fewer than four bytes are left; otherwise the big-endian value wrapped to 32 bits, four bytes on |
| ClassFileBuffers.ClassFileBuffer.ReadLong | src/main/java/net/foxdenstudio/novacula/core/plugins/detector/ClassFileBuffer.java:176-188 | EOF exactly when fewer than eight bytes are left; otherwise the 64-bit two's-complement big-endian value of the eight bytes, eight bytes on (the corrected sum) |
| ClassFileBuffers.ClassFileBuffer.ReadUTF | src/main/java/net/foxdenstudio/novacula/core/plugins/detector/ClassFileBuffer.java:213-215 | agrees with `ReadUtf`: a 16-bit length, that many bytes decoded as modified UTF-8, UTFDataFormat for a malformed body |
| ClassFileBuffers.ClassFileBuffer.ReadUtfBytes | src/main/java/net/foxdenstudio/novacula/core/plugins/detector/ClassFileBuffer.java:213-215 | the 16-bit length, then exactly that many bytes, read with `readFully`; EOF when the body runs past the end |
| Primitives.WrapInt | src/main/java/net/foxdenstudio/novacula/core/plugins/detector/ClassFileBuffer.java:169-172 | Java's `int` addition: the unique value in [-2^31, 2^31) congruent to the sum modulo 2^32, the sum itself when it fits |
| Primitives.WrapShort | src/main/java/net/foxdenstudio/novacula/core/plugins/detector/ClassFileBuffer.java:155-157 | the `(short)` cast: the unique value in [-2^15, 2^15) congruent modulo 2^16 |
| Primitives.WrapLong | src/main/java/net/foxdenstudio/novacula/core/plugins/detector/ClassFileBuffer.java:180-187 | Java's `long` addition: the unique value in [-2^63, 2^63) congruent modulo 2^64 |
| Primitives.SignedByte | src/main/java/net/foxdenstudio/novacula/core/plugins/detector/ClassFileBuffer.java:130 | `buffer[pointer]` as a Java `byte`: in [-128, 128) and congruent to the stored byte modulo 256 |
| ModifiedUtf8.Decode | src/main/java/net/foxdenstudio/novacula/core/plugins/detector/ClassFileBuffer.java:213-215 | a decoded text has at most one code unit per byte, as the `char[utflen]` of `readUTF` needs; `DecodeEncode` proves it inverts `Encode` |
| ModifiedUtf8.DecodeEncode | src/main/java/net/foxdenstudio/novacula/core/plugins/detector/ClassFileBuffer.java:213-215 | decoding the modified UTF-8 encoding of any text gives that text back |
| ModifiedUtf8.DecodeUnit | src/main/java/net/foxdenstudio/novacula/core/plugins/detector/ClassFileBuffer.java:213-215 | one encoded code unit decodes to itself whatever follows it |
| ModifiedUtf8.DecodeOneByte | src/main/java/net/foxdenstudio/novacula/core/plugins/detector/ClassFileBuffer.java:213-215 | a code unit in 1..0x7F is one byte and decodes to itself, whatever follows it |
| ModifiedUtf8.DecodeTwoBytes | src/main/java/net/foxdenstudio/novacula/core/plugins/detector/ClassFileBuffer.java:213-215 | 0 and 0x80..0x7FF take two bytes and decode to themselves, whatever follows them |
| ModifiedUtf8.DecodeThreeBytes | src/main/java/net/foxdenstudio/novacula/core/plugins/detector/ClassFileBuffer.java:213-215 | 0x800 and above take three bytes and decode to themselves, whatever follows them |
| ModifiedUtf8.EncodeAscii | src/main/java/net/foxdenstudio/novacula/core/plugins/detector/ClassFileBuffer.java:213-215 | text of code units 1..0x7F is stored byte for byte |
| ConstantPoolProperties.SkippedEntry | src/main/java/net/foxdenstudio/novacula/core/plugins/detector/ADetect.java:345-363 | a skipped tag consumes its tag byte and 2 (tag 16), 3 (tag 15), 8 (tags 5 and 6) or 4 bytes (the rest); it is wide exactly for tags 5 and 6; a short body is EOF |
| ConstantPoolProperties.IndexEntry | src/main/java/net/foxdenstudio/novacula/core/plugins/detector/ADetect.java:367-371 | tags 7 and 8 store the big-endian 2-byte index and consume 3 bytes; a short body is EOF |
| ConstantPoolProperties.TextEntry | src/main/java/net/foxdenstudio/novacula/core/plugins/detector/ADetect.java:364-366 | tag 1 stores the text `readUTF` decodes and ends where it ends; it fails exactly when `readUTF` does |
| ConstantPoolProperties.UnknownTag | src/main/java/net/foxdenstudio/novacula/core/plugins/detector/ADetect.java:343-375 | no tag byte is EOF; any tag outside the fourteen known ones is a ClassFormatError |
| ConstantPoolProperties.FillKeepsEarlier | src/main/java/net/foxdenstudio/novacula/core/plugins/detector/ADetect.java:329-334 | the loop never writes a slot below the one it starts from |
| ConstantPoolProperties.FillStores | src/main/java/net/foxdenstudio/novacula/core/plugins/detector/ADetect.java:329-334 | an entry that stores a value puts it in the slot the loop is at |
| ConstantPoolProperties.FillSkips | src/main/java/net/foxdenstudio/novacula/core/plugins/detector/ADetect.java:330-333 | a skipped entry leaves its slot as it was, and a wide one also the slot after it |
| ConstantPoolProperties.SlotZeroEmpty | src/main/java/net/foxdenstudio/novacula/core/plugins/detector/ADetect.java:326-335 | slot 0 of a parsed pool is never set |
| ConstantPoolProperties.PoolSize | src/main/java/net/foxdenstudio/novacula/core/plugins/detector/ADetect.java:327-328 | the pool has as many slots as its big-endian 16-bit count |
| ConstantPoolProperties.ResolvesToText | src/main/java/net/foxdenstudio/novacula/core/plugins/detector/ADetect.java:546-563 | a string is returned exactly when the slot holds it, or holds the index of an in-range slot that holds it |
| ConstantPoolProperties.ResolvesToNull | src/main/java/net/foxdenstudio/novacula/core/plugins/detector/ADetect.java:546-563 | null is returned exactly for an empty slot, directly or through one index |
| ConstantPoolProperties.ResolveErrors | src/main/java/net/foxdenstudio/novacula/core/plugins/detector/ADetect.java:546-563 | ArrayIndexOutOfBounds exactly for an index outside the pool before or after the indirection; ClassCast exactly when an index names an index |
| ConstantPoolProperties.ResolveReadsIndex | src/main/java/net/foxdenstudio/novacula/core/plugins/detector/ADetect.java:546-563 | `resolveUtf8` succeeds exactly when two bytes are left and their big-endian index resolves, and then it consumes exactly those two bytes |
| AnnotationEncoding.FixedRoundTrip | src/main/java/net/foxdenstudio/novacula/core/plugins/detector/ADetect.java:509-526 | a constant, enum or class value decodes from exactly its tag and fixed-size body |
| AnnotationEncoding.ValueRoundTrip | src/main/java/net/foxdenstudio/novacula/core/plugins/detector/ADetect.java:504-540 | any well-formed element value decodes from exactly the bytes it is written as |
| AnnotationEncoding.NestedRoundTrip | src/main/java/net/foxdenstudio/novacula/core/plugins/detector/ADetect.java:527-529 | a nested annotation value decodes from exactly its '@' tag and the annotation's bytes |
| AnnotationEncoding.ArrayRoundTrip | src/main/java/net/foxdenstudio/novacula/core/plugins/detector/ADetect.java:530-535 | an array value decodes from exactly its '[' tag, its 16-bit count and its values |
| AnnotationEncoding.AnnoRoundTrip | src/main/java/net/foxdenstudio/novacula/core/plugins/detector/ADetect.java:485-501 | an annotation decodes from exactly its bytes, to its type's resolved descriptor |
| AnnotationEncoding.PairsRoundTrip | src/main/java/net/foxdenstudio/novacula/core/plugins/detector/ADetect.java:492-499 | the element-value pairs decode from exactly their bytes |
| AnnotationEncoding.ValuesRoundTrip | src/main/java/net/foxdenstudio/novacula/core/plugins/detector/ADetect.java:532-534 | the values of an array decode from exactly their bytes |
| AnnotationEncoding.UnknownElementTag | src/main/java/net/foxdenstudio/novacula/core/plugins/detector/ADetect.java:536-538 | a tag outside the grammar is a ClassFormatError |
| EntryProperties.CapacityAfter | src/main/java/net/foxdenstudio/novacula/core/plugins/detector/ClassFileBuffer.java:223-229 | the capacity after several entries is a power of two between the starting one and 2^30 |
| EntryProperties.GrowFits | src/main/java/net/foxdenstudio/novacula/core/plugins/detector/ClassFileBuffer.java:223-229 | every entry below 2^30 bytes fits once the buffer has doubled enough |
| EntryProperties.TooLarge | src/main/java/net/foxdenstudio/novacula/core/plugins/detector/ADetect.java:276-290 | an entry of 2^30 bytes or more reports nothing |
| EntryProperties.ScanAppend | src/main/java/net/foxdenstudio/novacula/core/plugins/detector/ADetect.java:274-295 | scanning entries in two parts gives the reports of both parts in order, the second part starting from the capacity the first left |
| EntryProperties.ScanIsConcatenation | src/main/java/net/foxdenstudio/novacula/core/plugins/detector/ADetect.java:274-295 | for entries below 2^30 bytes the scan reports, in order, what each entry reports on its own |
| NameProperties.InterestKeys | src/main/java/net/foxdenstudio/novacula/core/plugins/detector/ADetect.java:154-156 | a descriptor is a key exactly when one of the reporter's annotation classes has it |
| NameProperties.InterestValue | src/main/java/net/foxdenstudio/novacula/core/plugins/detector/ADetect.java:154-156 | the class filed under a descriptor is the last class with that descriptor: later `put`s replace earlier ones |
| NameProperties.DescriptorHasNoDot | src/main/java/net/foxdenstudio/novacula/core/plugins/detector/ADetect.java:155 | no dot between the "L" and the ";" of a descriptor |
| NameProperties.PackageFilterShape | src/main/java/net/foxdenstudio/novacula/core/plugins/detector/ADetect.java:187-193 | a filter ends with '/', has no '.', and is at most one character longer than the name |
| NameProperties.PackageFilterIdempotent | src/main/java/net/foxdenstudio/novacula/core/plugins/detector/ADetect.java:187-193 | normalising a filter again gives the same filter |
| NameProperties.PackageFilterPrefix | src/main/java/net/foxdenstudio/novacula/core/plugins/detector/ADetect.java:187-193 | every '.' of the name becomes '/' and every other character stays in place |
| NameProperties.HasMagicIff | src/main/java/net/foxdenstudio/novacula/core/plugins/detector/ADetect.java:297-299 | the magic test holds exactly for entries of more than four bytes starting CA FE BA BE |
| NameProperties.NotAClassFile | src/main/java/net/foxdenstudio/novacula/core/plugins/detector/ADetect.java:279-281 | an entry that is not a class file reports nothing |
| ReportProperties.AnnotationReported | src/main/java/net/foxdenstudio/novacula/core/plugins/detector/ADetect.java:463-468 | an annotation is reported exactly when its descriptor is a key of the interest map and the class name is not null; a null class name is then a NullPointerException; the report names the class the map holds, and the scan goes on after the annotation |
| ReportProperties.ReportedIffNamed | src/main/java/net/foxdenstudio/novacula/core/plugins/detector/ADetect.java:463-467 | with the constructor's map, an annotation is reported exactly when one of the reporter's annotation classes has its descriptor |
| ReportProperties.EntryExtends | src/main/java/net/foxdenstudio/novacula/core/plugins/detector/ADetect.java:463-481 | one annotation keeps the earlier reports and adds only proper reports of its level; each of them names the member being read (none at type level) |
| ReportProperties.AnnotationsLoopExtends | src/main/java/net/foxdenstudio/novacula/core/plugins/detector/ADetect.java:462-482 | the annotations loop keeps the earlier reports and adds only proper reports of its level; each of them names the member being read (none at type level) |
| ReportProperties.AnnotationsExtends | src/main/java/net/foxdenstudio/novacula/core/plugins/detector/ADetect.java:454-483 | an annotations attribute keeps the earlier reports and adds only proper reports of its level; each of them names the member being read (none at type level) |
| ReportProperties.AttributeSkipped | src/main/java/net/foxdenstudio/novacula/core/plugins/detector/ADetect.java:441-450 | an attribute not read as annotations reports nothing and moves by its signed length from the end of its 6 header bytes, forwards or backwards; a negative target is IllegalArgument, a target past the end is EOF, and one past 2^31 - 1 wraps around to IllegalArgument |
| ReportProperties.AttributeHeader | src/main/java/net/foxdenstudio/novacula/core/plugins/detector/ADetect.java:438-440 | an attribute that goes on had its 6 header bytes; one that has its name but not its length is an EOF |
| ReportProperties.AttributeExtends | src/main/java/net/foxdenstudio/novacula/core/plugins/detector/ADetect.java:437-451 | one attribute keeps the earlier reports and adds only proper reports of its level when reporting is on; each of them names the member being read (none at type level) |
| ReportProperties.AttributesLoopExtends | src/main/java/net/foxdenstudio/novacula/core/plugins/detector/ADetect.java:437-451 | the attributes loop keeps the earlier reports and adds only proper reports of its level; each of them names the member being read (none at type level) |
| ReportProperties.AttributesExtends | src/main/java/net/foxdenstudio/novacula/core/plugins/detector/ADetect.java:430-452 | `readAttributes` keeps the earlier reports and adds only proper reports of its level; each of them names the member being read (none at type level) |
| ReportProperties.MemberExtends | src/main/java/net/foxdenstudio/novacula/core/plugins/detector/ADetect.java:403-411 | one field or method keeps the earlier reports and adds only proper reports of its level, and each of them names that field or method: the name its head resolves to |
| ReportProperties.MembersLoopExtends | src/main/java/net/foxdenstudio/novacula/core/plugins/detector/ADetect.java:403-427 | the members loop keeps the earlier reports and adds only proper reports of its level |
| ReportProperties.MembersExtends | src/main/java/net/foxdenstudio/novacula/core/plugins/detector/ADetect.java:398-428 | `readFields` and `readMethods` keep the earlier reports and add only proper reports of their level |
| ReportProperties.ClassReports | src/main/java/net/foxdenstudio/novacula/core/plugins/detector/ADetect.java:304-314 | every report of a class file goes to a present reporter of its level, names a class of interest and the class in dotted form, and has no member at type level; field reports come before method reports, which come before type reports; a failed header reports nothing; the member name each field or method report carries is stated per member by `ReportProperties.MemberExtends` |
| ReportProperties.DottedClassName | src/main/java/net/foxdenstudio/novacula/core/plugins/detector/ADetect.java:468 | a reported class name has no '/' |
| ReportLog.LogShift | src/main/java/net/foxdenstudio/novacula/core/plugins/detector/ADetect.java:276-293 | the reports of a class file follow those made before it and do not depend on them |
| ReportLog.TypeLevelAttributes | src/main/java/net/foxdenstudio/novacula/core/plugins/detector/ADetect.java:313 | the class's own attributes do not depend on the name of the last field or method read |

## Left out

- `detect(String...)` past the package filters (the class loader, its URLs, the JBoss VFS and jar resolution, `toFile`), `detect()` and `detect(File...)`: these are I/O. The entries a scan reads are an abstract sequence of byte sequences.
- `ClassFileIterator` (its walk over files, jars and zip entries) and the closing of streams: ClassFileIterator.java is not part of this model. `stream.close()` runs outside any handler (in the catch at line 286 of ADetect.java and in the finally at line 291), so an IOException from closing a stream ends the whole scan in the source; the model does not capture it, and `ScanEntries` goes on after every entry.
- The reporter callbacks `reportTypeAnnotation`, `reportFieldAnnotation` and `reportMethodAnnotation`: these are foreign calls. Each becomes one record appended to the `reports` log.
- The `InputStream` of `readFrom`: how many bytes one `read` delivers is a nondeterministic choice in `StreamRead`. An `IOException` from the stream is not modelled.
- Throwables other than the modelled exceptions, for example `OutOfMemoryError` and `StackOverflowError`. `detect(ClassFileIterator)` catches every one of them, and the model catches the modelled ones the same way.
- The library decoding behind `readUTF` (`DataInputStream.readUTF`) is modelled by `ModifiedUtf8.Decode` as the Java Virtual Machine Specification, section 4.4.7, describes it. The irregular forms the library rejects are rejected here too. Other error messages are not modelled.
- `readFloat`, `readDouble` and `readLine`: the detector never calls them, and floating point is outside the model.
- The debug output that `ADetect` can produce: it is I/O only.
- `PluginSystem.java` and `Core.java`: these are the callers of the detector, and they are not part of this model.
- The member name left over from the last field or method: it is part of the detector's state, not an input of `DetectClass`, which reads the class's own attributes with none; `ReportLog.TypeLevelAttributes` shows that type-level attributes do not depend on it.
- ClassFileBuffers.ClassFileBuffer.WithCapacity: requires a capacity that is a power of two and at most 2^30. The source accepts any positive capacity, and doubling keeps the buffer within `int` range only from such capacities.
- ClassFileBuffers.ClassFileBuffer.Create: requires a power-of-two capacity of at most 2^30 when the capacity is positive, for the same reason. The error for a capacity below 1 is modelled in full.
- ClassFileBuffers.ClassFileBuffer.Read: requires a byte to be left. Its callers in the source always check that first. The source's `read` of a stale byte past `size` could otherwise happen, and is not modelled.
- Detector.ADetect.HasCafebabe: requires the cursor at 0. `readFrom` (its only caller's preceding call) always leaves it there.
- Detector.ADetect.constructor: requires at least one reporter interface. `Detector.ADetect.Create` models the `AssertionError` the source raises otherwise.

## Findings

| source | as written | input that shows it | evidently intended | confidence | as-written member | corrected member |
|---|---|---|---|---|---|---|
| src/main/java/net/foxdenstudio/novacula/core/plugins/detector/ClassFileBuffer.java:176-188 | `readLong` adds the fifth byte as an `int` term `(read() << 24)`. That term is sign-extended to `long` when the byte is 0x80 or more, so 2^32 is subtracted from the sum | the bytes 00 00 00 00 80 00 00 00 yield -2147483648 instead of 2147483648 | the 64-bit two's-complement big-endian value of the eight bytes, as `DataInput.readLong` promises | not executed | ClassFileBuffers.LongAsWritten (with ClassFileBuffers.LongAsWrittenCounterexample and ClassFileBuffers.LongAsWrittenCorrectIff) | ClassFileBuffers.ClassFileBuffer.ReadLong |
