/** Properties of the reports one class file produces: reports already made
    are never taken back, so a scan's reports depend only on the bytes. */
module ReportLog {
  import opened Primitives
  import opened ClassFileBuffers
  import opened ClassFileFormat

  /** Scan `s` is scan `t` with the reports `pre` made before it. */
  predicate Prefixed(s: Scan, pre: seq<Report>, t: Scan)
  {
    s == Scan(pre + t.log, t.status)
  }

  lemma AnnotationEntryShift(env: Env, b: ClassBytes, level: Level, member: Option<JString>,
                             p: nat, pre: seq<Report>, acc: seq<Report>)
    requires p <= |b|
    ensures Prefixed(AnnotationEntry(env, b, level, member, p, pre + acc), pre, AnnotationEntry(env, b, level, member, p, acc))
  {
    match Annotation(b, p, env.pool)
    case Failed(_) =>
    case Parsed(raw, _) =>
      if raw.Some? && raw.value in env.cfg.interest && env.typeName.Some? {
        var rep := MakeReport(env, level, env.cfg.interest[raw.value], member);
        assert pre + acc + [rep] == pre + (acc + [rep]);
      }
  }

  lemma {:induction false} AnnotationsLoopShift(env: Env, b: ClassBytes, level: Level, member: Option<JString>,
                                                p: nat, k: nat, pre: seq<Report>, acc: seq<Report>)
    requires p <= |b|
    ensures Prefixed(AnnotationsLoop(env, b, level, member, p, k, pre + acc), pre,
                     AnnotationsLoop(env, b, level, member, p, k, acc))
    decreases k
  {
    if k > 0 {
      AnnotationEntryShift(env, b, level, member, p, pre, acc);
      var s := AnnotationEntry(env, b, level, member, p, acc);
      if s.status.Done? {
        AnnotationsLoopShift(env, b, level, member, s.status.pos, k - 1, pre, s.log);
      }
    }
  }

  lemma AnnotationsShift(env: Env, b: ClassBytes, level: Level, member: Option<JString>,
                         p: nat, pre: seq<Report>, acc: seq<Report>)
    requires p <= |b|
    ensures Prefixed(Annotations(env, b, level, member, p, pre + acc), pre, Annotations(env, b, level, member, p, acc))
  {
    if ReadU2(b, p).Parsed? {
      AnnotationsLoopShift(env, b, level, member, ReadU2(b, p).next, ReadU2(b, p).value, pre, acc);
    }
  }

  lemma AttributeShift(env: Env, b: ClassBytes, level: Level, skipReporting: bool, member: Option<JString>,
                       p: nat, pre: seq<Report>, acc: seq<Report>)
    requires p <= |b|
    ensures Prefixed(Attribute(env, b, level, skipReporting, member, p, pre + acc), pre,
                     Attribute(env, b, level, skipReporting, member, p, acc))
  {
    if Resolve(b, p, env.pool).Parsed? && ReadI32(b, p + 2).Parsed? {
      AnnotationsShift(env, b, level, member, p + 6, pre, acc);
    }
  }

  lemma {:induction false} AttributesLoopShift(env: Env, b: ClassBytes, level: Level, skipReporting: bool,
                                               member: Option<JString>, p: nat, k: nat, pre: seq<Report>, acc: seq<Report>)
    requires p <= |b|
    ensures Prefixed(AttributesLoop(env, b, level, skipReporting, member, p, k, pre + acc), pre,
                     AttributesLoop(env, b, level, skipReporting, member, p, k, acc))
    decreases k
  {
    if k > 0 {
      AttributeShift(env, b, level, skipReporting, member, p, pre, acc);
      var s := Attribute(env, b, level, skipReporting, member, p, acc);
      if s.status.Done? {
        AttributesLoopShift(env, b, level, skipReporting, member, s.status.pos, k - 1, pre, s.log);
      }
    }
  }

  lemma AttributesShift(env: Env, b: ClassBytes, level: Level, skipReporting: bool, member: Option<JString>,
                        p: nat, pre: seq<Report>, acc: seq<Report>)
    requires p <= |b|
    ensures Prefixed(Attributes(env, b, level, skipReporting, member, p, pre + acc), pre,
                     Attributes(env, b, level, skipReporting, member, p, acc))
  {
    if ReadU2(b, p).Parsed? {
      AttributesLoopShift(env, b, level, skipReporting, member, ReadU2(b, p).next, ReadU2(b, p).value, pre, acc);
    }
  }

  lemma MemberShift(env: Env, b: ClassBytes, level: Level, skipReporting: bool, p: nat, pre: seq<Report>, acc: seq<Report>)
    requires p <= |b|
    ensures Prefixed(Member(env, b, level, skipReporting, p, pre + acc), pre, Member(env, b, level, skipReporting, p, acc))
  {
    if Skip(b, p, 2).Parsed? && Resolve(b, p + 2, env.pool).Parsed? && Resolve(b, p + 4, env.pool).Parsed? {
      AttributesShift(env, b, level, skipReporting, Resolve(b, p + 2, env.pool).value, p + 6, pre, acc);
    }
  }

  lemma {:induction false} MembersLoopShift(env: Env, b: ClassBytes, level: Level, skipReporting: bool,
                                            p: nat, k: nat, pre: seq<Report>, acc: seq<Report>)
    requires p <= |b|
    ensures Prefixed(MembersLoop(env, b, level, skipReporting, p, k, pre + acc), pre,
                     MembersLoop(env, b, level, skipReporting, p, k, acc))
    decreases k
  {
    if k > 0 {
      MemberShift(env, b, level, skipReporting, p, pre, acc);
      var s := Member(env, b, level, skipReporting, p, acc);
      if s.status.Done? {
        MembersLoopShift(env, b, level, skipReporting, s.status.pos, k - 1, pre, s.log);
      }
    }
  }

  lemma MembersShift(env: Env, b: ClassBytes, level: Level, skipReporting: bool, p: nat, pre: seq<Report>, acc: seq<Report>)
    requires p <= |b|
    ensures Prefixed(Members(env, b, level, skipReporting, p, pre + acc), pre, Members(env, b, level, skipReporting, p, acc))
  {
    if ReadU2(b, p).Parsed? {
      MembersLoopShift(env, b, level, skipReporting, ReadU2(b, p).next, ReadU2(b, p).value, pre, acc);
    }
  }

  /** The attributes of the class itself report no member name, so the name of
      the last field or method read does not matter to them. */
  lemma {:induction false} TypeLevelAnnotationsLoop(env: Env, b: ClassBytes, m1: Option<JString>, m2: Option<JString>,
                                                    p: nat, k: nat, acc: seq<Report>)
    requires p <= |b|
    ensures AnnotationsLoop(env, b, TypeLevel, m1, p, k, acc) == AnnotationsLoop(env, b, TypeLevel, m2, p, k, acc)
    decreases k
  {
    if k > 0 {
      var s := AnnotationEntry(env, b, TypeLevel, m1, p, acc);
      assert s == AnnotationEntry(env, b, TypeLevel, m2, p, acc);
      if s.status.Done? {
        TypeLevelAnnotationsLoop(env, b, m1, m2, s.status.pos, k - 1, s.log);
      }
    }
  }

  lemma TypeLevelAttribute(env: Env, b: ClassBytes, skipReporting: bool, m1: Option<JString>, m2: Option<JString>,
                           p: nat, acc: seq<Report>)
    requires p <= |b|
    ensures Attribute(env, b, TypeLevel, skipReporting, m1, p, acc) == Attribute(env, b, TypeLevel, skipReporting, m2, p, acc)
  {
    match AttributeHead(b, p, env.pool)
    case Failed(_) =>
    case Parsed(_, q) =>
      if ReadU2(b, q).Parsed? {
        TypeLevelAnnotationsLoop(env, b, m1, m2, ReadU2(b, q).next, ReadU2(b, q).value, acc);
      }
  }

  lemma {:induction false} TypeLevelAttributesLoop(env: Env, b: ClassBytes, skipReporting: bool, m1: Option<JString>,
                                                   m2: Option<JString>, p: nat, k: nat, acc: seq<Report>)
    requires p <= |b|
    ensures AttributesLoop(env, b, TypeLevel, skipReporting, m1, p, k, acc)
         == AttributesLoop(env, b, TypeLevel, skipReporting, m2, p, k, acc)
    decreases k
  {
    if k > 0 {
      TypeLevelAttribute(env, b, skipReporting, m1, m2, p, acc);
      var s := Attribute(env, b, TypeLevel, skipReporting, m1, p, acc);
      if s.status.Done? {
        TypeLevelAttributesLoop(env, b, skipReporting, m1, m2, s.status.pos, k - 1, s.log);
      }
    }
  }

  lemma TypeLevelAttributes(env: Env, b: ClassBytes, skipReporting: bool, m1: Option<JString>, m2: Option<JString>,
                            p: nat, acc: seq<Report>)
    requires p <= |b|
    ensures Attributes(env, b, TypeLevel, skipReporting, m1, p, acc) == Attributes(env, b, TypeLevel, skipReporting, m2, p, acc)
  {
    if ReadU2(b, p).Parsed? {
      TypeLevelAttributesLoop(env, b, skipReporting, m1, m2, ReadU2(b, p).next, ReadU2(b, p).value, acc);
    }
  }

  /** The reports of a class file come after the reports made before it, and
      do not depend on them. */
  lemma LogShift(cfg: Config, b: ClassBytes, p: nat, pre: seq<Report>)
    requires p <= |b|
    ensures DetectClass(cfg, b, p, pre) == Scan(pre + DetectClass(cfg, b, p, []).log, DetectClass(cfg, b, p, []).status)
  {
    match Header(b, p)
    case Failed(_) =>
    case Parsed((pool, typeName), p1) =>
      var env := Env(cfg, pool, typeName);
      assert pre + [] == pre;
      MembersShift(env, b, FieldLevel, !cfg.fieldReporter, p1, pre, []);
      var f := Members(env, b, FieldLevel, !cfg.fieldReporter, p1, []);
      if f.status.Done? {
        MembersShift(env, b, MethodLevel, !cfg.methodReporter, f.status.pos, pre, f.log);
        var m := Members(env, b, MethodLevel, !cfg.methodReporter, f.status.pos, f.log);
        if m.status.Done? {
          AttributesShift(env, b, TypeLevel, !cfg.typeReporter, None, m.status.pos, pre, m.log);
        }
      }
  }
}
