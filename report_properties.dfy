/** What the reports of one class file say: each comes from a level whose
    reporter is present, names an annotation class of interest and the class
    in dotted form, and the field reports come before the method reports,
    which come before the type reports. */
module ReportProperties {
  import opened Primitives
  import opened ClassFileBuffers
  import opened ClassFileFormat
  import opened NameProperties

  /** Whether the reporter takes reports of this level ('T', 'F' or 'M'). */
  predicate Enabled(cfg: Config, level: Level)
  {
    match level
    case TypeLevel => cfg.typeReporter
    case FieldLevel => cfg.fieldReporter
    case MethodLevel => cfg.methodReporter
  }

  /** A report that reading at `level` in `env` may emit. */
  predicate Proper(env: Env, level: Level, r: Report)
  {
    r.level == level && Enabled(env.cfg, level) && r.annotation in env.cfg.interest.Values &&
    env.typeName.Some? && r.className == Replace(env.typeName.value, Slash, Dot) &&
    (level == TypeLevel ==> r.member == None)
  }

  /** Scan s keeps the reports acc and adds only proper reports of `level`. */
  predicate Extends(env: Env, level: Level, s: Scan, acc: seq<Report>)
  {
    |acc| <= |s.log| && s.log[..|acc|] == acc &&
    forall i :: |acc| <= i < |s.log| ==> Proper(env, level, s.log[i])
  }

  /** Every report scan s adds to acc names the member `member`. */
  predicate Tagged(s: Scan, acc: seq<Report>, member: Option<JString>)
  {
    forall i :: |acc| <= i < |s.log| ==> s.log[i].member == member
  }

  lemma TaggedTrans(acc: seq<Report>, s1: Scan, s2: Scan, member: Option<JString>)
    requires |acc| <= |s1.log| <= |s2.log| && s2.log[..|s1.log|] == s1.log
    requires Tagged(s1, acc, member) && Tagged(s2, s1.log, member)
    ensures Tagged(s2, acc, member)
  {
    forall i | |acc| <= i < |s1.log|
      ensures s2.log[i].member == member
    {
      assert s2.log[i] == s2.log[..|s1.log|][i];
    }
  }

  lemma ExtendsTrans(env: Env, level: Level, acc: seq<Report>, s1: Scan, s2: Scan)
    requires Extends(env, level, s1, acc) && Extends(env, level, s2, s1.log)
    ensures Extends(env, level, s2, acc)
  {
    assert s2.log[..|acc|] == s2.log[..|s1.log|][..|acc|];
    forall i | |acc| <= i < |s2.log|
      ensures Proper(env, level, s2.log[i])
    {
      if i < |s1.log| {
        assert s2.log[i] == s2.log[..|s1.log|][i];
      }
    }
  }

  lemma ExtendsSame(env: Env, level: Level, acc: seq<Report>, st: Status)
    ensures Extends(env, level, Scan(acc, st), acc)
  {
    assert acc[..|acc|] == acc;
  }

  /** An annotation is reported exactly when its raw descriptor is a key of
      the interest map; a null class name then raises NullPointerException. */
  lemma AnnotationReported(env: Env, b: ClassBytes, level: Level, member: Option<JString>, p: nat, acc: seq<Report>)
    requires p <= |b| && Annotation(b, p, env.pool).Parsed?
    ensures var raw := Annotation(b, p, env.pool).value;
            var s := AnnotationEntry(env, b, level, member, p, acc);
            var wanted := raw.Some? && raw.value in env.cfg.interest;
            (s.status.Done? ==> s.status.pos == Annotation(b, p, env.pool).next) &&
            (s.log != acc <==> wanted && env.typeName.Some?) &&
            (s.status == Aborted(NullPointer) <==> wanted && env.typeName.None?) &&
            (s.log != acc ==> s.log == acc + [s.log[|acc|]] && s.log[|acc|].annotation == env.cfg.interest[raw.value])
  {
    var s := AnnotationEntry(env, b, level, member, p, acc);
    if s.log != acc {
      assert |s.log| == |acc| + 1;
    }
  }

  /** With the map the constructor builds, that is exactly when one of the
      reporter's annotation classes has that descriptor. */
  lemma ReportedIffNamed(names: seq<JString>, env: Env, b: ClassBytes, level: Level, member: Option<JString>,
                         p: nat, acc: seq<Report>)
    requires p <= |b| && Annotation(b, p, env.pool).Parsed? && env.typeName.Some?
    requires env.cfg.interest == InterestMap(names)
    ensures var raw := Annotation(b, p, env.pool).value;
            AnnotationEntry(env, b, level, member, p, acc).log != acc <==> raw.Some? && Named(names, raw.value)
  {
    AnnotationReported(env, b, level, member, p, acc);
    var raw := Annotation(b, p, env.pool).value;
    if raw.Some? {
      InterestKeys(names, raw.value);
    }
  }

  lemma EntryExtends(env: Env, b: ClassBytes, level: Level, member: Option<JString>, p: nat, acc: seq<Report>)
    requires p <= |b| && Enabled(env.cfg, level)
    ensures Extends(env, level, AnnotationEntry(env, b, level, member, p, acc), acc)
    ensures Tagged(AnnotationEntry(env, b, level, member, p, acc), acc, MemberOf(level, member))
  {
    var s := AnnotationEntry(env, b, level, member, p, acc);
    if s.log == acc {
      ExtendsSame(env, level, acc, s.status);
    } else {
      var raw := Annotation(b, p, env.pool).value;
      assert s.log == acc + [MakeReport(env, level, env.cfg.interest[raw.value], member)];
      assert s.log[..|acc|] == acc;
      assert env.cfg.interest[raw.value] in env.cfg.interest.Values;
    }
  }

  lemma {:induction false} AnnotationsLoopExtends(env: Env, b: ClassBytes, level: Level, member: Option<JString>,
                                                  p: nat, k: nat, acc: seq<Report>)
    requires p <= |b| && Enabled(env.cfg, level)
    ensures Extends(env, level, AnnotationsLoop(env, b, level, member, p, k, acc), acc)
    ensures Tagged(AnnotationsLoop(env, b, level, member, p, k, acc), acc, MemberOf(level, member))
    decreases k
  {
    if k == 0 {
      ExtendsSame(env, level, acc, Done(p));
    } else {
      var s := AnnotationEntry(env, b, level, member, p, acc);
      EntryExtends(env, b, level, member, p, acc);
      if s.status.Done? {
        var t := AnnotationsLoop(env, b, level, member, s.status.pos, k - 1, s.log);
        AnnotationsLoopExtends(env, b, level, member, s.status.pos, k - 1, s.log);
        ExtendsTrans(env, level, acc, s, t);
        TaggedTrans(acc, s, t, MemberOf(level, member));
      }
    }
  }

  lemma AnnotationsExtends(env: Env, b: ClassBytes, level: Level, member: Option<JString>, p: nat, acc: seq<Report>)
    requires p <= |b| && Enabled(env.cfg, level)
    ensures Extends(env, level, Annotations(env, b, level, member, p, acc), acc)
    ensures Tagged(Annotations(env, b, level, member, p, acc), acc, MemberOf(level, member))
  {
    if ReadU2(b, p).Parsed? {
      AnnotationsLoopExtends(env, b, level, member, p + 2, ReadU2(b, p).value, acc);
    } else {
      ExtendsSame(env, level, acc, Aborted(EOF));
    }
  }

  /** An attribute is parsed as annotations only when reporting is not
      skipped and its name is an annotations attribute; any other attribute
      is passed over by its signed length, even backwards, and reports nothing.
      A target past 2^31 - 1 wraps around to a negative `int`. */
  lemma AttributeSkipped(env: Env, b: ClassBytes, level: Level, skipReporting: bool, member: Option<JString>,
                         p: nat, acc: seq<Report>)
    requires p <= |b| && p + 6 <= |b| && Resolve(b, p, env.pool).Parsed?
    requires skipReporting || !IsAnnotationsAttribute(Resolve(b, p, env.pool).value)
    ensures var length := WrapInt(BigEndian(b[p + 2..p + 6]));
            var s := Attribute(env, b, level, skipReporting, member, p, acc);
            s.log == acc &&
            (s.status.Done? <==> 0 <= p + 6 + length <= |b|) &&
            (s.status.Done? ==> s.status.pos == p + 6 + length) &&
            (p + 6 + length < 0 ==> s.status == Aborted(IllegalArgument)) &&
            (|b| < p + 6 + length < 0x8000_0000 ==> s.status == Aborted(EOF)) &&
            (p + 6 + length >= 0x8000_0000 ==> s.status == Aborted(IllegalArgument))
  {
    var length := WrapInt(BigEndian(b[p + 2..p + 6]));
    ReadI32IsBigEndian(b, p + 2);
    assert AttributeHead(b, p, env.pool) == Parsed((Resolve(b, p, env.pool).value, length), p + 6);
    SkipSigned(b, p + 6, length);
  }

  /** An attribute too short for its 2 + 4 header bytes is an EOF. */
  lemma AttributeHeader(env: Env, b: ClassBytes, level: Level, skipReporting: bool, member: Option<JString>,
                        p: nat, acc: seq<Report>)
    requires p <= |b|
    ensures Attribute(env, b, level, skipReporting, member, p, acc).status.Done? ==> p + 6 <= |b|
    ensures p + 2 <= |b| < p + 6 && Resolve(b, p, env.pool).Parsed? ==>
              Attribute(env, b, level, skipReporting, member, p, acc) == Scan(acc, Aborted(EOF))
  {
  }

  lemma AttributeExtends(env: Env, b: ClassBytes, level: Level, skipReporting: bool, member: Option<JString>,
                         p: nat, acc: seq<Report>)
    requires p <= |b| && (!skipReporting ==> Enabled(env.cfg, level))
    ensures Extends(env, level, Attribute(env, b, level, skipReporting, member, p, acc), acc)
    ensures Tagged(Attribute(env, b, level, skipReporting, member, p, acc), acc, MemberOf(level, member))
  {
    var s := Attribute(env, b, level, skipReporting, member, p, acc);
    if Resolve(b, p, env.pool).Parsed? && ReadI32(b, p + 2).Parsed? &&
       !skipReporting && IsAnnotationsAttribute(Resolve(b, p, env.pool).value) {
      AnnotationsExtends(env, b, level, member, p + 6, acc);
    } else {
      assert s.log == acc;
      ExtendsSame(env, level, acc, s.status);
    }
  }

  lemma {:induction false} AttributesLoopExtends(env: Env, b: ClassBytes, level: Level, skipReporting: bool,
                                                 member: Option<JString>, p: nat, k: nat, acc: seq<Report>)
    requires p <= |b| && (!skipReporting ==> Enabled(env.cfg, level))
    ensures Extends(env, level, AttributesLoop(env, b, level, skipReporting, member, p, k, acc), acc)
    ensures Tagged(AttributesLoop(env, b, level, skipReporting, member, p, k, acc), acc, MemberOf(level, member))
    decreases k
  {
    if k == 0 {
      ExtendsSame(env, level, acc, Done(p));
    } else {
      var s := Attribute(env, b, level, skipReporting, member, p, acc);
      AttributeExtends(env, b, level, skipReporting, member, p, acc);
      if s.status.Done? {
        var t := AttributesLoop(env, b, level, skipReporting, member, s.status.pos, k - 1, s.log);
        AttributesLoopExtends(env, b, level, skipReporting, member, s.status.pos, k - 1, s.log);
        ExtendsTrans(env, level, acc, s, t);
        TaggedTrans(acc, s, t, MemberOf(level, member));
      }
    }
  }

  lemma AttributesExtends(env: Env, b: ClassBytes, level: Level, skipReporting: bool, member: Option<JString>,
                          p: nat, acc: seq<Report>)
    requires p <= |b| && (!skipReporting ==> Enabled(env.cfg, level))
    ensures Extends(env, level, Attributes(env, b, level, skipReporting, member, p, acc), acc)
    ensures Tagged(Attributes(env, b, level, skipReporting, member, p, acc), acc, MemberOf(level, member))
  {
    if ReadU2(b, p).Parsed? {
      AttributesLoopExtends(env, b, level, skipReporting, member, p + 2, ReadU2(b, p).value, acc);
    } else {
      ExtendsSame(env, level, acc, Aborted(EOF));
    }
  }

  /** A field or method keeps the earlier reports, and each report it adds
      names that field or method: the name its head resolves to. */
  lemma MemberExtends(env: Env, b: ClassBytes, level: Level, skipReporting: bool, p: nat, acc: seq<Report>)
    requires p <= |b| && (!skipReporting ==> Enabled(env.cfg, level))
    ensures Extends(env, level, Member(env, b, level, skipReporting, p, acc), acc)
    ensures MemberHead(b, p, env.pool).Parsed? ==>
              Tagged(Member(env, b, level, skipReporting, p, acc), acc, MemberOf(level, MemberHead(b, p, env.pool).value))
  {
    var s := Member(env, b, level, skipReporting, p, acc);
    if Skip(b, p, 2).Parsed? && Resolve(b, p + 2, env.pool).Parsed? && Resolve(b, p + 4, env.pool).Parsed? {
      AttributesExtends(env, b, level, skipReporting, Resolve(b, p + 2, env.pool).value, p + 6, acc);
    } else {
      ExtendsSame(env, level, acc, s.status);
    }
  }

  lemma {:induction false} MembersLoopExtends(env: Env, b: ClassBytes, level: Level, skipReporting: bool,
                                              p: nat, k: nat, acc: seq<Report>)
    requires p <= |b| && (!skipReporting ==> Enabled(env.cfg, level))
    ensures Extends(env, level, MembersLoop(env, b, level, skipReporting, p, k, acc), acc)
    decreases k
  {
    if k == 0 {
      ExtendsSame(env, level, acc, Done(p));
    } else {
      var s := Member(env, b, level, skipReporting, p, acc);
      MemberExtends(env, b, level, skipReporting, p, acc);
      if s.status.Done? {
        var t := MembersLoop(env, b, level, skipReporting, s.status.pos, k - 1, s.log);
        MembersLoopExtends(env, b, level, skipReporting, s.status.pos, k - 1, s.log);
        ExtendsTrans(env, level, acc, s, t);
      }
    }
  }

  lemma MembersExtends(env: Env, b: ClassBytes, level: Level, skipReporting: bool, p: nat, acc: seq<Report>)
    requires p <= |b| && (!skipReporting ==> Enabled(env.cfg, level))
    ensures Extends(env, level, Members(env, b, level, skipReporting, p, acc), acc)
  {
    if ReadU2(b, p).Parsed? {
      MembersLoopExtends(env, b, level, skipReporting, p + 2, ReadU2(b, p).value, acc);
    } else {
      ExtendsSame(env, level, acc, Aborted(EOF));
    }
  }

  /** The order of the sections: fields, methods, the class itself. */
  function Rank(level: Level): nat
  {
    match level
    case FieldLevel => 0
    case MethodLevel => 1
    case TypeLevel => 2
  }

  /** Every report of a class file is proper for its level in the class's
      constant pool and name; field reports come first, then method reports,
      then type reports. Nothing is reported before the header is read. */
  lemma ClassReports(cfg: Config, b: ClassBytes, p: nat)
    requires p <= |b|
    ensures var log := DetectClass(cfg, b, p, []).log;
            (Header(b, p).Failed? ==> log == []) &&
            (Header(b, p).Parsed? ==>
               var env := Env(cfg, Header(b, p).value.0, Header(b, p).value.1);
               forall i :: 0 <= i < |log| ==> Proper(env, log[i].level, log[i])) &&
            forall i, j :: 0 <= i < j < |log| ==> Rank(log[i].level) <= Rank(log[j].level)
  {
    match Header(b, p)
    case Failed(_) =>
    case Parsed((pool, typeName), p1) =>
      var env := Env(cfg, pool, typeName);
      var f := Members(env, b, FieldLevel, !cfg.fieldReporter, p1, []);
      MembersExtends(env, b, FieldLevel, !cfg.fieldReporter, p1, []);
      if f.status.Done? {
        var m := Members(env, b, MethodLevel, !cfg.methodReporter, f.status.pos, f.log);
        MembersExtends(env, b, MethodLevel, !cfg.methodReporter, f.status.pos, f.log);
        if m.status.Done? {
          var t := Attributes(env, b, TypeLevel, !cfg.typeReporter, None, m.status.pos, m.log);
          AttributesExtends(env, b, TypeLevel, !cfg.typeReporter, None, m.status.pos, m.log);
          ThreeSections(env, f, m, t);
        } else {
          TwoSections(env, f, m);
        }
      }
  }

  lemma TwoSections(env: Env, f: Scan, m: Scan)
    requires Extends(env, FieldLevel, f, []) && Extends(env, MethodLevel, m, f.log)
    ensures forall i :: 0 <= i < |m.log| ==> Proper(env, m.log[i].level, m.log[i])
    ensures forall i, j :: 0 <= i < j < |m.log| ==> Rank(m.log[i].level) <= Rank(m.log[j].level)
  {
    forall i | 0 <= i < |f.log|
      ensures m.log[i].level == FieldLevel && Proper(env, FieldLevel, m.log[i])
    {
      assert m.log[i] == m.log[..|f.log|][i];
    }
  }

  lemma ThreeSections(env: Env, f: Scan, m: Scan, t: Scan)
    requires Extends(env, FieldLevel, f, []) && Extends(env, MethodLevel, m, f.log)
    requires Extends(env, TypeLevel, t, m.log)
    ensures forall i :: 0 <= i < |t.log| ==> Proper(env, t.log[i].level, t.log[i])
    ensures forall i, j :: 0 <= i < j < |t.log| ==> Rank(t.log[i].level) <= Rank(t.log[j].level)
  {
    TwoSections(env, f, m);
    forall i | 0 <= i < |m.log|
      ensures t.log[i] == m.log[i]
    {
      assert t.log[i] == t.log[..|m.log|][i];
    }
  }

  /** Class names are reported with dots: no report has a '/' in it. */
  lemma DottedClassName(env: Env, level: Level, r: Report)
    requires Proper(env, level, r)
    ensures forall i :: 0 <= i < |r.className| ==> r.className[i] != Slash
  {
  }
}
