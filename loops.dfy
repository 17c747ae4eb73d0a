/** The loops of the detector, one turn at a time: for each loop, a
    predicate saying where the loop stands and what it will end as, and
    lemmas for its first and its next turn. */
module ScanLoops {
  import opened Primitives
  import opened ClassFileBuffers
  import opened ClassFileFormat

  /** A method without a result that returned `r` and left the cursor at `pos`
      agrees with the pure read `spec`. */
  predicate Ends<T>(r: Outcome, pos: int, spec: Parse<T>)
  {
    match spec
    case Parsed(_, q) => r == Pass && pos == q
    case Failed(e) => r == Fail(e)
  }

  /** A method that returned `r` and left the cursor at `pos` ended the way
      the scan status `st` says. */
  predicate Settles(r: Outcome, pos: int, st: Status)
  {
    match st
    case Done(q) => r == Pass && pos == q
    case Aborted(e) => r == Fail(e)
  }

  /** The reports `total` are the reports `done` so far followed by those of
      the entries `rest`, read from a buffer of capacity `cap`. */
  ghost predicate ScanSplits(cfg: Config, total: seq<Report>, done: seq<Report>, cap: nat, rest: seq<seq<Byte>>)
    requires PowerOfTwo(cap) && cap <= MaxCapacity
  {
    total == done + ScanEntries(cfg, cap, rest)
  }

  /** Reading the first of the remaining entries moves it from `rest` to `done`. */
  lemma ScanSplitsStep(cfg: Config, total: seq<Report>, done: seq<Report>, cap: nat, entries: seq<seq<Byte>>, i: nat)
    requires PowerOfTwo(cap) && cap <= MaxCapacity && i < |entries|
    requires ScanSplits(cfg, total, done, cap, entries[i..])
    ensures ScanSplits(cfg, total, done + if Grow(cap, |entries[i]|).1 then EntryReports(cfg, entries[i]) else [],
                       Grow(cap, |entries[i]|).0, entries[i + 1..])
  {
    ScanEntriesFrom(cfg, cap, entries, i);
    Associative(done, if Grow(cap, |entries[i]|).1 then EntryReports(cfg, entries[i]) else [],
                ScanEntries(cfg, Grow(cap, |entries[i]|).0, entries[i + 1..]));
  }

  /** The scan from entry i on: entry i, then the rest with the capacity it
      left behind. */
  lemma ScanEntriesFrom(cfg: Config, cap: nat, entries: seq<seq<Byte>>, i: nat)
    requires PowerOfTwo(cap) && cap <= MaxCapacity && i < |entries|
    ensures ScanEntries(cfg, cap, entries[i..]) ==
              (if Grow(cap, |entries[i]|).1 then EntryReports(cfg, entries[i]) else []) +
              ScanEntries(cfg, Grow(cap, |entries[i]|).0, entries[i + 1..])
  {
    assert entries[i..][0] == entries[i];
    assert entries[i..][1..] == entries[i + 1..];
  }

  /** The constant-pool loop at position p and slot i, with the slots so far,
      ends as `goal`. */
  ghost predicate Filling(b: ClassBytes, p: nat, count: nat, i: nat, pool: seq<Slot>, goal: Parse<seq<Slot>>)
  {
    p <= |b| && |pool| == count && FillRest(b, p, count, i, pool) == goal
  }

  /** What the constant-pool loop ends as from position p and slot i. */
  ghost function FillRest(b: ClassBytes, p: nat, count: nat, i: nat, pool: seq<Slot>): Parse<seq<Slot>>
    requires p <= |b| && |pool| == count
  {
    CpFill(b, p, count, i, pool)
  }

  /** One turn of the constant-pool loop: the entry read from p, which ended
      as `r` at `pos` and left the slots `pool'`, moves the loop on by one
      slot, or two for a wide entry; an entry that fails ends the loop. */
  lemma FillingStep(b: ClassBytes, p: nat, count: nat, i: nat, pool: seq<Slot>, goal: Parse<seq<Slot>>,
                    r: Result<bool>, pos: nat, pool': seq<Slot>)
    requires Filling(b, p, count, i, pool, goal) && i < count
    requires match CpEntry(b, p)
             case Parsed(Stored(s), q) => r == Ok(false) && pos == q && pool' == pool[i := s]
             case Parsed(Skipped(wide), q) => r == Ok(wide) && pos == q && pool' == pool
             case Failed(e) => r == Err(e)
    ensures r.Ok? ==> Filling(b, pos, count, if r.value then i + 2 else i + 1, pool', goal)
    ensures r.Err? ==> goal == Failed(r.error)
  {
  }

  /** The pairs loop of `readAnnotation` at position p, with i of its `count`
      pairs read, ends as `goal`. */
  ghost predicate PairsLeft(b: ClassBytes, p: nat, pool: seq<Slot>, count: nat, i: nat, goal: Parse<()>)
  {
    p <= |b| && i <= count && PairsRest(b, p, pool, count - i) == goal
  }

  ghost function PairsRest(b: ClassBytes, p: nat, pool: seq<Slot>, k: nat): Parse<()>
    requires p <= |b|
  {
    Pairs(b, p, pool, k)
  }

  /** One pair: the name index is skipped, then the value is read. */
  lemma PairsNext(b: ClassBytes, p: nat, pool: seq<Slot>, count: nat, i: nat, goal: Parse<()>)
    requires PairsLeft(b, p, pool, count, i, goal) && i < count
    ensures Skip(b, p, 2).Failed? ==> goal == Failed(Skip(b, p, 2).error)
    ensures Skip(b, p, 2).Parsed? ==>
              match ElementValue(b, p + 2, pool)
              case Failed(e) => goal == Failed(e)
              case Parsed(_, q) => PairsLeft(b, q, pool, count, i + 1, goal)
  {
  }

  /** The loop of an array element value at position p, with i of its
      `count` values read, ends as `goal`. */
  ghost predicate ElemsLeft(b: ClassBytes, p: nat, pool: seq<Slot>, count: nat, i: nat, goal: Parse<()>)
  {
    p <= |b| && i <= count && ElemsRest(b, p, pool, count - i) == goal
  }

  ghost function ElemsRest(b: ClassBytes, p: nat, pool: seq<Slot>, k: nat): Parse<()>
    requires p <= |b|
  {
    Elems(b, p, pool, k)
  }

  lemma ElemsNext(b: ClassBytes, p: nat, pool: seq<Slot>, count: nat, i: nat, goal: Parse<()>)
    requires ElemsLeft(b, p, pool, count, i, goal) && i < count
    ensures match ElementValue(b, p, pool)
            case Failed(e) => goal == Failed(e)
            case Parsed(_, q) => ElemsLeft(b, q, pool, count, i + 1, goal)
  {
  }

  /** The loop of `readFields` / `readMethods` at position p, with i of its `count` members read,
      ends as `goal`. */
  ghost predicate MembersLeft(env: Env, b: ClassBytes, level: Level, skipReporting: bool, p: nat, count: nat, i: nat, acc: seq<Report>, goal: Scan)
  {
    p <= |b| && i <= count && MembersRest(env, b, level, skipReporting, p, count - i, acc) == goal
  }

  /** What the loop of `readFields` / `readMethods` ends as from position p with k members still to read. */
  ghost function MembersRest(env: Env, b: ClassBytes, level: Level, skipReporting: bool, p: nat, k: nat, acc: seq<Report>): Scan
    requires p <= |b|
  {
    MembersLoop(env, b, level, skipReporting, p, k, acc)
  }

  /** The count comes first; a count that cannot be read ends the loop before it starts. */
  lemma MembersStart(env: Env, b: ClassBytes, level: Level, skipReporting: bool, p: nat, acc: seq<Report>)
    requires p <= |b|
    ensures var goal := Members(env, b, level, skipReporting, p, acc);
            match ReadU2(b, p)
            case Failed(e) => goal == Scan(acc, Aborted(e))
            case Parsed(count, q) => MembersLeft(env, b, level, skipReporting, q, count, 0, acc, goal)
  {
  }

  /** One turn of the loop: the member read from p, which ended as `r` at
      `pos` with the reports `log`, moves the loop on by one; one that fails
      ends the loop with its exception. */
  lemma MembersStep(env: Env, b: ClassBytes, level: Level, skipReporting: bool, p: nat, count: nat, i: nat, acc: seq<Report>, goal: Scan,
                    r: Outcome, pos: nat, log: seq<Report>)
    requires MembersLeft(env, b, level, skipReporting, p, count, i, acc, goal) && i < count
    requires var s := Member(env, b, level, skipReporting, p, acc); log == s.log && Settles(r, pos, s.status)
    ensures r.Pass? ==> MembersLeft(env, b, level, skipReporting, pos, count, i + 1, log, goal)
    ensures r.Fail? ==> log == goal.log && goal.status == Aborted(r.error)
  {
  }

  /** The loop of `readAttributes` at position p, with i of its `count` attributes read,
      ends as `goal`. */
  ghost predicate AttributesLeft(env: Env, b: ClassBytes, level: Level, skipReporting: bool, member: Option<JString>, p: nat, count: nat, i: nat, acc: seq<Report>, goal: Scan)
  {
    p <= |b| && i <= count && AttributesRest(env, b, level, skipReporting, member, p, count - i, acc) == goal
  }

  /** What the loop of `readAttributes` ends as from position p with k attributes still to read. */
  ghost function AttributesRest(env: Env, b: ClassBytes, level: Level, skipReporting: bool, member: Option<JString>, p: nat, k: nat, acc: seq<Report>): Scan
    requires p <= |b|
  {
    AttributesLoop(env, b, level, skipReporting, member, p, k, acc)
  }

  /** The count comes first; a count that cannot be read ends the loop before it starts. */
  lemma AttributesStart(env: Env, b: ClassBytes, level: Level, skipReporting: bool, member: Option<JString>, p: nat, acc: seq<Report>)
    requires p <= |b|
    ensures var goal := Attributes(env, b, level, skipReporting, member, p, acc);
            match ReadU2(b, p)
            case Failed(e) => goal == Scan(acc, Aborted(e))
            case Parsed(count, q) => AttributesLeft(env, b, level, skipReporting, member, q, count, 0, acc, goal)
  {
  }

  /** One turn of the loop: the attribute read from p, which ended as `r` at
      `pos` with the reports `log`, moves the loop on by one; one that fails
      ends the loop with its exception. */
  lemma AttributesStep(env: Env, b: ClassBytes, level: Level, skipReporting: bool, member: Option<JString>, p: nat, count: nat, i: nat, acc: seq<Report>, goal: Scan,
                    r: Outcome, pos: nat, log: seq<Report>)
    requires AttributesLeft(env, b, level, skipReporting, member, p, count, i, acc, goal) && i < count
    requires var s := Attribute(env, b, level, skipReporting, member, p, acc); log == s.log && Settles(r, pos, s.status)
    ensures r.Pass? ==> AttributesLeft(env, b, level, skipReporting, member, pos, count, i + 1, log, goal)
    ensures r.Fail? ==> log == goal.log && goal.status == Aborted(r.error)
  {
  }

  /** The loop of `readAnnotations` at position p, with i of its `count` annotations read,
      ends as `goal`. */
  ghost predicate AnnotationsLeft(env: Env, b: ClassBytes, level: Level, member: Option<JString>, p: nat, count: nat, i: nat, acc: seq<Report>, goal: Scan)
  {
    p <= |b| && i <= count && AnnotationsRest(env, b, level, member, p, count - i, acc) == goal
  }

  /** What the loop of `readAnnotations` ends as from position p with k annotations still to read. */
  ghost function AnnotationsRest(env: Env, b: ClassBytes, level: Level, member: Option<JString>, p: nat, k: nat, acc: seq<Report>): Scan
    requires p <= |b|
  {
    AnnotationsLoop(env, b, level, member, p, k, acc)
  }

  /** The count comes first; a count that cannot be read ends the loop before it starts. */
  lemma AnnotationsStart(env: Env, b: ClassBytes, level: Level, member: Option<JString>, p: nat, acc: seq<Report>)
    requires p <= |b|
    ensures var goal := Annotations(env, b, level, member, p, acc);
            match ReadU2(b, p)
            case Failed(e) => goal == Scan(acc, Aborted(e))
            case Parsed(count, q) => AnnotationsLeft(env, b, level, member, q, count, 0, acc, goal)
  {
  }

  /** One turn of the loop: the annotation read from p, which ended as `r` at
      `pos` with the reports `log`, moves the loop on by one; one that fails
      ends the loop with its exception. */
  lemma AnnotationsStep(env: Env, b: ClassBytes, level: Level, member: Option<JString>, p: nat, count: nat, i: nat, acc: seq<Report>, goal: Scan,
                    r: Outcome, pos: nat, log: seq<Report>)
    requires AnnotationsLeft(env, b, level, member, p, count, i, acc, goal) && i < count
    requires var s := AnnotationEntry(env, b, level, member, p, acc); log == s.log && Settles(r, pos, s.status)
    ensures r.Pass? ==> AnnotationsLeft(env, b, level, member, pos, count, i + 1, log, goal)
    ensures r.Fail? ==> log == goal.log && goal.status == Aborted(r.error)
  {
  }

  lemma Associative(a: seq<Report>, b: seq<Report>, c: seq<Report>)
    ensures a + (b + c) == (a + b) + c
  {
  }
}
