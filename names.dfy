/** Properties of the names the detector works with: the descriptors it files
    annotation classes under, the filters it makes of package names, and the
    magic number that marks a class file. */
module NameProperties {
  import opened Primitives
  import opened ClassFileBuffers
  import opened ClassFileFormat

  /** Some annotation class of `names` has the descriptor d. */
  predicate Named(names: seq<JString>, d: JString)
  {
    exists k :: 0 <= k < |names| && Descriptor(names[k]) == d
  }

  lemma NamedLast(names: seq<JString>, d: JString)
    requires names != []
    ensures Named(names, d) <==> Named(names[..|names| - 1], d) || Descriptor(names[|names| - 1]) == d
  {
    var n := |names| - 1;
    if Named(names, d) && Descriptor(names[n]) != d {
      NamedInFront(names, d);
    }
    if Named(names[..n], d) {
      NamedFromFront(names, d);
    }
    if Descriptor(names[n]) == d {
      assert 0 <= n < |names| && Descriptor(names[n]) == d;
    }
  }

  lemma NamedInFront(names: seq<JString>, d: JString)
    requires names != [] && Named(names, d) && Descriptor(names[|names| - 1]) != d
    ensures Named(names[..|names| - 1], d)
  {
    var front := names[..|names| - 1];
    var k :| 0 <= k < |names| && Descriptor(names[k]) == d;
    assert front[k] == names[k];
    assert 0 <= k < |front| && Descriptor(front[k]) == d;
  }

  lemma NamedFromFront(names: seq<JString>, d: JString)
    requires names != [] && Named(names[..|names| - 1], d)
    ensures Named(names, d)
  {
    var front := names[..|names| - 1];
    var k :| 0 <= k < |front| && Descriptor(front[k]) == d;
    assert names[k] == front[k];
    assert 0 <= k < |names| && Descriptor(names[k]) == d;
  }

  /** A descriptor is a key of the interest map exactly when one of the
      reporter's annotation classes has it. */
  lemma {:induction false} InterestKeys(names: seq<JString>, d: JString)
    ensures d in InterestMap(names) <==> Named(names, d)
  {
    if names != [] {
      var n := |names| - 1;
      InterestKeys(names[..n], d);
      NamedLast(names, d);
    }
  }

  /** The class filed under a descriptor is the last annotation class with
      that descriptor: later `put`s replace earlier ones. The lemma names
      that class's position k. */
  lemma {:induction false} InterestValue(names: seq<JString>, d: JString) returns (k: nat)
    requires d in InterestMap(names)
    ensures k < |names| && names[k] == InterestMap(names)[d] && Descriptor(names[k]) == d
    ensures !Named(names[k + 1..], d)
  {
    var n := |names| - 1;
    if Descriptor(names[n]) == d {
      k := n;
      assert names[k + 1..] == [];
    } else {
      var front := names[..n];
      assert InterestMap(names)[d] == InterestMap(front)[d];
      k := InterestValue(front, d);
      assert names[k] == front[k];
      LaterUnnamed(names, d, k);
    }
  }

  /** No class after position k of the front has descriptor d, and neither
      has the last one: none after k has. */
  lemma LaterUnnamed(names: seq<JString>, d: JString, k: nat)
    requires k < |names| - 1 && !Named(names[..|names| - 1][k + 1..], d) && Descriptor(names[|names| - 1]) != d
    ensures !Named(names[k + 1..], d)
  {
    var tail := names[k + 1..];
    assert tail[..|tail| - 1] == names[..|names| - 1][k + 1..];
    assert tail[|tail| - 1] == names[|names| - 1];
    NamedLast(tail, d);
  }

  /** A descriptor that has a dot came from no class name: dots become slashes. */
  lemma DescriptorHasNoDot(name: JString)
    ensures forall i :: 1 <= i < |Descriptor(name)| - 1 ==> Descriptor(name)[i] != Dot
  {
    var d := Descriptor(name);
    forall i | 1 <= i < |d| - 1
      ensures d[i] != Dot
    {
      assert d[i] == d[1..|d| - 1][i - 1];
    }
  }

  /** A package filter ends with '/' and has no '.' in it. */
  lemma PackageFilterShape(name: JString)
    ensures |PackageFilter(name)| > 0 && PackageFilter(name)[|PackageFilter(name)| - 1] == Slash
    ensures forall i :: 0 <= i < |PackageFilter(name)| ==> PackageFilter(name)[i] != Dot
    ensures |name| <= |PackageFilter(name)| <= |name| + 1
  {
    var r := Replace(name, Dot, Slash);
    if !(|r| > 0 && r[|r| - 1] == Slash) {
      assert PackageFilter(name) == r + [Slash];
      forall i | 0 <= i < |r| + 1
        ensures (r + [Slash])[i] != Dot
      {
        if i < |r| {
          assert (r + [Slash])[i] == r[i];
        }
      }
    }
  }

  /** A package filter is its own filter. */
  lemma PackageFilterIdempotent(name: JString)
    ensures PackageFilter(PackageFilter(name)) == PackageFilter(name)
  {
    var f := PackageFilter(name);
    PackageFilterShape(name);
    assert Replace(f, Dot, Slash) == f;
  }

  /** The filter keeps every character but '.', in place. */
  lemma PackageFilterPrefix(name: JString)
    ensures forall i :: 0 <= i < |name| && name[i] != Dot ==> PackageFilter(name)[i] == name[i]
    ensures forall i :: 0 <= i < |name| && name[i] == Dot ==> PackageFilter(name)[i] == Slash
  {
    var r := Replace(name, Dot, Slash);
    if !(|r| > 0 && r[|r| - 1] == Slash) {
      assert forall i :: 0 <= i < |r| ==> (r + [Slash])[i] == r[i];
    }
  }

  /** The four bytes CA FE BA BE. */
  const MagicBytes: seq<Byte> := [0xCA, 0xFE, 0xBA, 0xBE]

  /** `hasCafebabe` holds exactly for entries of more than four bytes that start
      with CA FE BA BE. */
  lemma HasMagicIff(e: seq<Byte>)
    ensures HasMagic(e) <==> |e| > 4 && e[..4] == MagicBytes
  {
    BigEndian4(MagicBytes);
    if |e| > 4 {
      var w := e[..4];
      BigEndianBound(w);
      assert Pow256(4) == 0x1_0000_0000;
      if WrapInt(BigEndian(w)) == Magic {
        assert BigEndian(w) == 0xCAFE_BABE;
        BigEndianInjective(w, MagicBytes);
      }
    }
  }

  /** An entry that is not a class file reports nothing. */
  lemma NotAClassFile(cfg: Config, e: ClassBytes)
    requires !(|e| > 4 && e[..4] == MagicBytes)
    ensures EntryReports(cfg, e) == []
  {
    HasMagicIff(e);
  }
}
