/**
 * The Bundle-ClassPath of a web bundle, derived from the project's ordered
 * direct dependencies (`installWebInstructions`).
 */
module Classpath {
  import opened Options

  /** A dependency's scope; a dependency without one has `scope == None`. */
  datatype Scope = Compile | Provided | Runtime | Test | System | Import | Other

  /** A dependency's packaging type; only `Jar` is embedded. */
  datatype Packaging = Jar | War | Bundle | Ear | Pom | Basic | OtherPackaging

  datatype Dependency = Dependency(
    groupId: string,
    artifactId: string,
    version: Option<string>,
    scope: Option<Scope>,
    packaging: Packaging)

  const Separator := ", "
  /** The bundle's own classes, always the first Bundle-ClassPath entry. */
  const ClassesDir := "WEB-INF/classes"

  /** Scope unset, compile or runtime: the dependency ships inside the bundle. */
  predicate InScope(d: Dependency) {
    d.scope.None? || d.scope == Some(Compile) || d.scope == Some(Runtime)
  }

  /** A missing version is appended to a Java string builder as the text "null". */
  function VersionText(v: Option<string>): string {
    v.GetOr("null")
  }

  /** The classpath entry of an embedded library. */
  function Entry(d: Dependency): (e: string)
    ensures |e| > 0
  {
    "WEB-INF/lib/" + d.artifactId + "-" + VersionText(d.version) + ".jar"
  }

  /** One iteration of the loop over dependencies, as written (lines 261-268). */
  function Step(acc: string, d: Dependency): string {
    if !InScope(d) then acc
    else
      var separated := if |acc| > 0 then acc + Separator else acc;
      if d.packaging == Jar then separated + Entry(d) else separated
  }

  /** The derived text the loop builds over `deps`, in order. */
  function Derive(deps: seq<Dependency>): string {
    if |deps| == 0 then "" else Step(Derive(deps[..|deps| - 1]), deps[|deps| - 1])
  }

  /** The final Bundle-ClassPath text: the classes directory, then the derived part if any. */
  function ClasspathText(derived: string): (t: string)
    ensures derived == "" ==> t == ClassesDir
    ensures derived != "" ==>
      && |t| > |ClassesDir| + |Separator|
      && t[..|ClassesDir| + |Separator|] == ClassesDir + Separator
      && t[|ClassesDir| + |Separator|..] == derived
  {
    if |derived| > 0 then ClassesDir + Separator + derived else ClassesDir
  }

  // ----- an independent description of the derived text -----

  /** `parts` joined with `", "` between neighbours. */
  function Join(parts: seq<string>): string {
    if |parts| == 0 then ""
    else if |parts| == 1 then parts[0]
    else Join(parts[..|parts| - 1]) + Separator + parts[|parts| - 1]
  }

  /** The in-scope dependencies, in list order. */
  function Kept(deps: seq<Dependency>): (r: seq<Dependency>)
    ensures |r| <= |deps|
    ensures forall i :: 0 <= i < |r| ==> InScope(r[i])
  {
    if |deps| == 0 then []
    else
      var last := deps[|deps| - 1];
      Kept(deps[..|deps| - 1]) + (if InScope(last) then [last] else [])
  }

  /** `s` from its first JAR on; empty when it has none. */
  function FromFirstJar(s: seq<Dependency>): (r: seq<Dependency>)
    ensures |r| <= |s| && r == s[|s| - |r|..]
    ensures r == [] || r[0].packaging == Jar
    ensures forall i :: 0 <= i < |s| - |r| ==> s[i].packaging != Jar
  {
    if |s| == 0 then []
    else if s[0].packaging == Jar then s
    else FromFirstJar(s[1..])
  }

  /** What one in-scope dependency puts between its separators. */
  function Segment(d: Dependency): string {
    if d.packaging == Jar then Entry(d) else ""
  }

  function Segments(s: seq<Dependency>): (r: seq<string>)
    ensures |r| == |s|
  {
    seq(|s|, i requires 0 <= i < |s| => Segment(s[i]))
  }

  lemma {:induction false} JoinPrepend(x: string, parts: seq<string>)
    ensures Join([x] + parts) == if |parts| == 0 then x else x + Separator + Join(parts)
    decreases |parts|
  {
    if |parts| > 1 {
      var init := parts[..|parts| - 1];
      assert ([x] + parts)[..|parts|] == [x] + init;
      JoinPrepend(x, init);
    }
  }

  lemma {:induction false} KeptConcat(a: seq<Dependency>, b: seq<Dependency>)
    ensures Kept(a + b) == Kept(a) + Kept(b)
    decreases |b|
  {
    if |b| == 0 {
      assert a + b == a;
    } else {
      var init := b[..|b| - 1];
      assert (a + b)[..|a + b| - 1] == a + init;
      KeptConcat(a, init);
    }
  }

  lemma {:induction false} FromFirstJarAppend(s: seq<Dependency>, d: Dependency)
    ensures FromFirstJar(s + [d])
      == if FromFirstJar(s) != [] then FromFirstJar(s) + [d]
         else if d.packaging == Jar then [d] else []
    decreases |s|
  {
    if |s| > 0 && s[0].packaging != Jar {
      assert (s + [d])[1..] == s[1..] + [d];
      FromFirstJarAppend(s[1..], d);
    }
  }

  lemma JoinAppend(parts: seq<string>, x: string)
    requires |parts| > 0
    ensures Join(parts + [x]) == Join(parts) + Separator + x
  {
    assert (parts + [x])[..|parts|] == parts;
  }

  lemma SegmentsAppend(s: seq<Dependency>, d: Dependency)
    ensures Segments(s + [d]) == Segments(s) + [Segment(d)]
  {
  }

  /** Unfolding `Derive` and `Kept` at the last dependency. */
  lemma DeriveLast(deps: seq<Dependency>)
    requires |deps| > 0
    ensures var init, d := deps[..|deps| - 1], deps[|deps| - 1];
      && Derive(deps) == Step(Derive(init), d)
      && Kept(deps) == Kept(init) + (if InScope(d) then [d] else [])
  {
  }

  /** One in-scope step of the loop extends the joined segments by that dependency's segment, once started. */
  lemma StepExtendsJoin(acc: string, s: seq<Dependency>, d: Dependency)
    requires InScope(d)
    requires acc == Join(Segments(s)) && (acc == "" <==> s == [])
    ensures var started := if s != [] then s + [d] else if d.packaging == Jar then [d] else [];
      Step(acc, d) == Join(Segments(started)) && (Step(acc, d) == "" <==> started == [])
  {
    if s == [] {
      if d.packaging == Jar {
        assert Segments([d]) == [Entry(d)];
      }
    } else {
      assert Step(acc, d) == acc + Separator + Segment(d);
      SegmentsAppend(s, d);
      JoinAppend(Segments(s), Segment(d));
    }
  }

  /**
   * The loop's result: the segments of the in-scope dependencies, starting at the
   * first in-scope JAR, joined with `", "`. A JAR's segment is its entry; any other
   * in-scope dependency's segment is empty but still separated.
   */
  lemma {:induction false} DeriveIsJoinedSegments(deps: seq<Dependency>)
    ensures Derive(deps) == Join(Segments(FromFirstJar(Kept(deps))))
    ensures Derive(deps) == "" <==> FromFirstJar(Kept(deps)) == []
    decreases |deps|
  {
    if |deps| > 0 {
      var init, d := deps[..|deps| - 1], deps[|deps| - 1];
      DeriveIsJoinedSegments(init);
      DeriveLast(deps);
      var acc, s := Derive(init), FromFirstJar(Kept(init));
      if InScope(d) {
        var started := if s != [] then s + [d] else if d.packaging == Jar then [d] else [];
        assert FromFirstJar(Kept(deps)) == started by {
          FromFirstJarAppend(Kept(init), d);
        }
        StepExtendsJoin(acc, s, d);
      } else {
        assert Kept(deps) == Kept(init);
      }
    }
  }

  /** The Bundle-ClassPath text is the classes directory followed by the segments, `", "`-joined. */
  lemma ClasspathTextIsJoin(deps: seq<Dependency>, segments: seq<string>)
    requires segments == Segments(FromFirstJar(Kept(deps)))
    ensures ClasspathText(Derive(deps)) == Join([ClassesDir] + segments)
  {
    DeriveIsJoinedSegments(deps);
    JoinPrepend(ClassesDir, segments);
  }

  /** Provided, test and the other out-of-scope dependencies add neither an entry nor a separator, wherever they sit. */
  lemma OutOfScopeIgnored(before: seq<Dependency>, d: Dependency, after: seq<Dependency>)
    requires !InScope(d)
    ensures Derive(before + [d] + after) == Derive(before + after)
  {
    assert Kept(before + [d] + after) == Kept(before + after) by {
      KeptConcat(before + [d], after);
      KeptConcat(before, [d]);
      KeptConcat(before, after);
      assert Kept([d]) == [] by { assert [d][..0] == []; }
      assert Kept(before) + [] == Kept(before);
    }
    DeriveIsJoinedSegments(before + [d] + after);
    DeriveIsJoinedSegments(before + after);
  }

  /** In-scope dependencies before the first in-scope JAR leave no trace. */
  lemma LeadingNonJarIgnored(d: Dependency, rest: seq<Dependency>)
    requires InScope(d) && d.packaging != Jar
    ensures Derive([d] + rest) == Derive(rest)
  {
    KeptConcat([d], rest);
    assert Kept([d]) == [d] by { assert [d][..0] == []; }
    assert ([d] + Kept(rest))[1..] == Kept(rest);
    DeriveIsJoinedSegments([d] + rest);
    DeriveIsJoinedSegments(rest);
  }

  /** Whether every in-scope dependency is a JAR. */
  predicate AllJars(s: seq<Dependency>) {
    forall i :: 0 <= i < |s| ==> s[i].packaging == Jar
  }

  function Entries(s: seq<Dependency>): (r: seq<string>)
    ensures |r| == |s|
  {
    seq(|s|, i requires 0 <= i < |s| => Entry(s[i]))
  }

  /** When every in-scope dependency is a JAR, the entries appear in list order, comma-joined. */
  lemma AllJarsGiveEntries(deps: seq<Dependency>)
    requires AllJars(Kept(deps))
    ensures Derive(deps) == Join(Entries(Kept(deps)))
  {
    var k := Kept(deps);
    DeriveIsJoinedSegments(deps);
    assert FromFirstJar(k) == k;
    assert Segments(k) == Entries(k);
  }

  // ----- the corrected derivation: separators only between entries -----

  /** One iteration that separates only the entries themselves. */
  function StepCorrected(acc: string, d: Dependency): string {
    if InScope(d) && d.packaging == Jar then
      (if |acc| > 0 then acc + Separator else acc) + Entry(d)
    else acc
  }

  function DeriveCorrected(deps: seq<Dependency>): string {
    if |deps| == 0 then "" else StepCorrected(DeriveCorrected(deps[..|deps| - 1]), deps[|deps| - 1])
  }

  /** The in-scope JARs, in list order. */
  function EmbeddedJars(deps: seq<Dependency>): (r: seq<Dependency>)
    ensures forall i :: 0 <= i < |r| ==> InScope(r[i]) && r[i].packaging == Jar && r[i] in deps
  {
    if |deps| == 0 then []
    else
      var last := deps[|deps| - 1];
      EmbeddedJars(deps[..|deps| - 1]) + (if InScope(last) && last.packaging == Jar then [last] else [])
  }

  /** Unfolding `DeriveCorrected` and `EmbeddedJars` at the last dependency. */
  lemma DeriveCorrectedLast(deps: seq<Dependency>)
    requires |deps| > 0
    ensures var init, d := deps[..|deps| - 1], deps[|deps| - 1];
      && DeriveCorrected(deps) == StepCorrected(DeriveCorrected(init), d)
      && EmbeddedJars(deps) == EmbeddedJars(init) + (if InScope(d) && d.packaging == Jar then [d] else [])
  {
  }

  lemma EntriesAppend(s: seq<Dependency>, d: Dependency)
    ensures Entries(s + [d]) == Entries(s) + [Entry(d)]
  {
  }

  /** The corrected derivation is exactly the in-scope JAR entries, in order, comma-joined. */
  lemma {:induction false} DeriveCorrectedIsJoinedEntries(deps: seq<Dependency>)
    ensures DeriveCorrected(deps) == Join(Entries(EmbeddedJars(deps)))
    ensures DeriveCorrected(deps) == "" <==> EmbeddedJars(deps) == []
    decreases |deps|
  {
    if |deps| > 0 {
      var init, d := deps[..|deps| - 1], deps[|deps| - 1];
      DeriveCorrectedIsJoinedEntries(init);
      DeriveCorrectedLast(deps);
      var acc, jars := DeriveCorrected(init), EmbeddedJars(init);
      if InScope(d) && d.packaging == Jar {
        assert EmbeddedJars(deps) == jars + [d];
        EntriesAppend(jars, d);
        if jars == [] {
          assert acc == "";
          assert DeriveCorrected(deps) == Entry(d);
          assert Entries([d]) == [Entry(d)];
        } else {
          assert acc != "";
          assert DeriveCorrected(deps) == acc + Separator + Entry(d);
          JoinAppend(Entries(jars), Entry(d));
        }
      } else {
        assert DeriveCorrected(deps) == acc;
        assert EmbeddedJars(deps) == jars;
      }
    }
  }

  /** On inputs whose in-scope dependencies are all JARs the two derivations agree. */
  lemma CorrectedAgreesOnJars(deps: seq<Dependency>)
    requires AllJars(Kept(deps))
    ensures DeriveCorrected(deps) == Derive(deps)
  {
    AllJarsGiveEntries(deps);
    DeriveCorrectedIsJoinedEntries(deps);
    JarsAreKept(deps);
  }

  lemma {:induction false} JarsAreKept(deps: seq<Dependency>)
    requires AllJars(Kept(deps))
    ensures EmbeddedJars(deps) == Kept(deps)
    decreases |deps|
  {
    if |deps| > 0 {
      var init, d := deps[..|deps| - 1], deps[|deps| - 1];
      DeriveLast(deps);
      DeriveCorrectedLast(deps);
      assert Kept(init) == Kept(deps)[..|Kept(init)|];
      assert AllJars(Kept(init));
      JarsAreKept(init);
      if InScope(d) {
        assert Kept(deps)[|Kept(deps)| - 1] == d;
      }
    }
  }

  // ----- the mixed example: in-scope compile JAR, test JAR, in-scope WAR, provided JAR -----

  function MixedExample(): seq<Dependency> {
    [ Dependency("g", "A", Some("1.0"), Some(Compile), Jar),
      Dependency("g", "B", Some("1.0"), Some(Test), Jar),
      Dependency("g", "C", Some("1.0"), Some(Compile), War),
      Dependency("g", "D", Some("1.0"), Some(Provided), Jar) ]
  }

  /** As written, the in-scope WAR after A leaves a dangling `", "` behind A's entry. */
  lemma MixedExampleDerived()
    ensures Derive(MixedExample()) == "WEB-INF/lib/A-1.0.jar" + Separator
  {
    var deps := MixedExample();
    var a := "WEB-INF/lib/A-1.0.jar";
    assert deps[..1][..0] == [];
    assert Derive(deps[..1]) == Step("", deps[0]) == a;
    assert deps[..2][..1] == deps[..1];
    assert Derive(deps[..2]) == Step(a, deps[1]) == a;
    assert deps[..3][..2] == deps[..2];
    assert Derive(deps[..3]) == Step(a, deps[2]) == a + Separator;
    assert deps[..4] == deps;
    assert Derive(deps) == Step(a + Separator, deps[3]);
  }

  /** The whole Bundle-ClassPath value for the mixed example ends in the dangling separator. */
  lemma MixedExampleAsWritten()
    ensures ClasspathText(Derive(MixedExample())) == ClassesDir + Separator + "WEB-INF/lib/A-1.0.jar" + Separator
  {
    MixedExampleDerived();
  }

  /** The corrected derivation yields A's entry alone. */
  lemma MixedExampleCorrected()
    ensures DeriveCorrected(MixedExample()) == "WEB-INF/lib/A-1.0.jar"
  {
    var deps := MixedExample();
    assert deps[..1][..0] == [];
    assert deps[..2][..1] == deps[..1];
    assert deps[..3][..2] == deps[..2];
    assert deps[..4] == deps;
    assert DeriveCorrected(deps[..1]) == "WEB-INF/lib/A-1.0.jar";
  }
}
