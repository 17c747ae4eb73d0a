/** Properties of the scan over many entries: the shared buffer takes in
    every entry below 2^30 bytes, and each entry's reports depend only on
    that entry, whatever happened to the entries before it. */
module EntryProperties {
  import opened Primitives
  import opened ClassFileBuffers
  import opened ClassFileFormat

  /** The buffer's capacity after taking in the entries one after another. */
  function CapacityAfter(cap: nat, entries: seq<seq<Byte>>): (r: nat)
    requires PowerOfTwo(cap) && cap <= MaxCapacity
    ensures PowerOfTwo(r) && cap <= r <= MaxCapacity
    decreases |entries|
  {
    if entries == [] then cap else CapacityAfter(Grow(cap, |entries[0]|).0, entries[1..])
  }

  /** Every entry shorter than 2^30 bytes fits once the buffer has doubled enough. */
  lemma {:induction false} GrowFits(cap: nat, n: nat)
    requires PowerOfTwo(cap) && cap <= MaxCapacity && n < MaxCapacity
    ensures Grow(cap, n).1
    decreases n + 1 - cap
  {
    if n >= cap {
      MaxCapacityIsPowerOfTwo();
      DoubleWithin(cap, MaxCapacity);
      GrowFits(2 * cap, n);
    }
  }

  /** An entry of 2^30 bytes or more reports nothing. */
  lemma TooLarge(cfg: Config, cap: nat, e: seq<Byte>)
    requires PowerOfTwo(cap) && cap <= MaxCapacity && |e| >= MaxCapacity
    ensures ScanEntries(cfg, cap, [e]) == []
  {
  }

  /** Scanning a sequence of entries in two parts gives the same reports: an
      entry that fails ends only itself. */
  lemma {:induction false} ScanAppend(cfg: Config, cap: nat, xs: seq<seq<Byte>>, ys: seq<seq<Byte>>)
    requires PowerOfTwo(cap) && cap <= MaxCapacity
    ensures ScanEntries(cfg, cap, xs + ys) == ScanEntries(cfg, cap, xs) + ScanEntries(cfg, CapacityAfter(cap, xs), ys)
    decreases |xs|
  {
    if xs == [] {
      assert xs + ys == ys;
    } else {
      var (cap', ok) := Grow(cap, |xs[0]|);
      assert (xs + ys)[0] == xs[0];
      assert (xs + ys)[1..] == xs[1..] + ys;
      ScanAppend(cfg, cap', xs[1..], ys);
      var made := if ok then EntryReports(cfg, xs[0]) else [];
      assert made + (ScanEntries(cfg, cap', xs[1..]) + ScanEntries(cfg, CapacityAfter(cap', xs[1..]), ys))
          == (made + ScanEntries(cfg, cap', xs[1..])) + ScanEntries(cfg, CapacityAfter(cap', xs[1..]), ys);
    }
  }

  /** For entries below 2^30 bytes each, the scan reports, in order, what each
      entry reports on its own. */
  lemma {:induction false} ScanIsConcatenation(cfg: Config, cap: nat, entries: seq<seq<Byte>>)
    requires PowerOfTwo(cap) && cap <= MaxCapacity
    requires forall i :: 0 <= i < |entries| ==> |entries[i]| < MaxCapacity
    ensures ScanEntries(cfg, cap, entries) == Concat(cfg, entries)
    decreases |entries|
  {
    if entries != [] {
      GrowFits(cap, |entries[0]|);
      ScanIsConcatenation(cfg, Grow(cap, |entries[0]|).0, entries[1..]);
    }
  }

  /** The reports of the entries, each read on its own. */
  function Concat(cfg: Config, entries: seq<seq<Byte>>): seq<Report>
    requires forall i :: 0 <= i < |entries| ==> |entries[i]| < MaxCapacity
    decreases |entries|
  {
    if entries == [] then [] else EntryReports(cfg, entries[0]) + Concat(cfg, entries[1..])
  }
}
