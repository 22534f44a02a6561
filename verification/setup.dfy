/**
 * The `setup` command as a pure function: project facts and the operator's
 * answers in, the packaging plan out.
 */
module SetupPlan {
  import opened Options
  import opened ConfigTree
  import opened Classpath
  import opened InstructionMerge
  import opened DependencyInstall

  /** `AsWritten` follows the plugin's code; `Corrected` uses the fixed members. */
  datatype Edition = AsWritten | Corrected

  const BundlePlugin := Coord("org.apache.felix", "maven-bundle-plugin")
  const WebContextPath := "Web-ContextPath"
  const BundleClassPath := "Bundle-ClassPath"
  const MetaPersistence := "Meta-Persistence"
  const PersistenceDescriptor := "META-INF/persistence.xml"

  /** What `setup` reads from the project. */
  datatype Project = Project(
    hasWebResources: bool,
    hasPersistence: bool,
    basePackage: string,
    dependencies: seq<Dependency>,
    availableVersions: map<Coord, seq<string>>)

  /** The operator's answers to the prompts `setup` may ask. */
  datatype Answers = Answers(
    contextPath: string,
    addServletImports: bool,
    createActivator: bool,
    activatorPackage: string,
    activatorClass: string,
    useDependencyManager: bool,
    useLogService: bool,
    componentPackage: string,
    componentClass: string,
    installCoreLibraries: bool,
    versionPicks: map<Coord, nat>)

  /** The answers an operator gives by accepting every default. */
  function DefaultAnswers(basePackage: string): Answers {
    Answers("/", false, false, basePackage + ".osgi", "Activator", false, true,
            basePackage, "DmComponent", false, map[])
  }

  /** A generated source class and the parameters its template is given. */
  datatype Generated =
    | Activator(package: string, className: string)
    | DmActivator(package: string, className: string, componentPackage: string, componentClass: string, useLogService: bool)
    | DmComponent(package: string, className: string, useLogService: bool)

  datatype Execution = Execution(id: string, phase: string, goals: seq<string>)

  /** The one execution that makes the bundle plugin write the manifest. */
  const ManifestExecution := Execution("bundle-manifest", "process-classes", ["manifest"])

  datatype Plugin = Plugin(coord: Coord, configuration: Configuration, executions: seq<Execution>, extensions: bool)

  datatype InstallStep = InstallStep(coord: Coord, outcome: Outcome)

  datatype Plan = Plan(
    packaging: Packaging,
    plugin: Plugin,
    dependencies: seq<Dependency>,
    installs: seq<InstallStep>,
    generated: seq<Generated>)

  function VersionsOf(p: Project, c: Coord): seq<string> {
    if c in p.availableVersions then p.availableVersions[c] else []
  }

  function PickFor(a: Answers, c: Coord): Option<nat> {
    if c in a.versionPicks then Some(a.versionPicks[c]) else None
  }

  /** Every version answer picks one of the versions offered for its coordinate. */
  predicate ValidPicks(p: Project, a: Answers) {
    forall c :: c in a.versionPicks ==> a.versionPicks[c] < |VersionsOf(p, c)|
  }

  // ----- the instructions chosen by project type -----

  /**
   * `installWebInstructions`: an `instructions` container with Web-ContextPath and
   * Bundle-ClassPath, then `supportedProjectTypes` listing `war`.
   */
  function WebInstructions(contextPath: string, derived: string): (r: Configuration)
    ensures r == [ Element(Instructions, None,
                     [Leaf(WebContextPath, contextPath), Leaf(BundleClassPath, ClasspathText(derived))]),
                   Element("supportedProjectTypes", None, [Leaf("supportedProjectType", "war")]) ]
  {
    var container := AddChild(AddChild(Create(Instructions), Leaf(WebContextPath, contextPath)),
                              Leaf(BundleClassPath, ClassesDir));
    assert container.children == [Leaf(WebContextPath, contextPath), Leaf(BundleClassPath, ClassesDir)];
    // lines 272-275: the derived part is appended to the Bundle-ClassPath text in place
    var classpath := container.children[1].(text := Some(ClasspathText(derived)));
    var supported := AddChild(Create("supportedProjectTypes"), Leaf("supportedProjectType", "war"));
    assert supported.children == [Leaf("supportedProjectType", "war")];
    assert classpath == Leaf(BundleClassPath, ClasspathText(derived));
    assert container.children[1 := classpath] == [Leaf(WebContextPath, contextPath), classpath];
    [container.(children := container.children[1 := classpath]), supported]
  }

  /**
   * `installJpaInstructions`. As written, `addChild` hands back the new
   * Meta-Persistence child and that child, not its container, is attached.
   */
  function JpaInstructions(edition: Edition): (r: Configuration)
    ensures edition == AsWritten ==> r == [Leaf(MetaPersistence, PersistenceDescriptor)]
    ensures edition == Corrected ==>
      r == [Element(Instructions, None, [Leaf(MetaPersistence, PersistenceDescriptor)])]
  {
    var persistence := Leaf(MetaPersistence, PersistenceDescriptor);
    match edition
    case AsWritten => [persistence]
    case Corrected => [AddChild(Create(Instructions), persistence)]
  }

  function DerivedClasspath(deps: seq<Dependency>, edition: Edition): string {
    match edition
    case AsWritten => Derive(deps)
    case Corrected => DeriveCorrected(deps)
  }

  /** The project-type branch of `setup`: web first, persistence only otherwise. */
  function TypeInstructions(p: Project, a: Answers, edition: Edition): Configuration {
    if p.hasWebResources then WebInstructions(a.contextPath, DerivedClasspath(p.dependencies, edition))
    else if p.hasPersistence then JpaInstructions(edition)
    else []
  }

  // ----- the libraries -----

  datatype Progress = Progress(dependencies: seq<Dependency>, installs: seq<InstallStep>)

  function Install(s: Progress, p: Project, a: Answers, c: Coord, edition: Edition): (r: Progress)
    requires ValidPicks(p, a)
    ensures |r.installs| == |s.installs| + 1 && r.installs[..|s.installs|] == s.installs
    ensures r.installs[|s.installs|].coord == c
    ensures (r.installs[|s.installs|].outcome == AlreadyInstalled) <==> HasDirect(s.dependencies, c)
    ensures edition == AsWritten ==> r.dependencies == s.dependencies
    ensures edition == Corrected ==>
      && HasDirect(r.dependencies, c)
      && (HasDirect(s.dependencies, c) ==> r.dependencies == s.dependencies)
      && |s.dependencies| <= |r.dependencies| && r.dependencies[..|s.dependencies|] == s.dependencies
      && (NoDuplicateCoords(s.dependencies) ==> NoDuplicateCoords(r.dependencies))
  {
    var versions, pick := VersionsOf(p, c), PickFor(a, c);
    var r :=
      if edition == AsWritten then InstallDependency(s.dependencies, c, versions, pick)
      else InstallDependencyCorrected(s.dependencies, c, versions, pick);
    Progress(r.dependencies, s.installs + [InstallStep(c, r.outcome)])
  }

  /** `installCoreLibraries`: the OSGi core library, then the compendium. */
  function InstallCoreLibraries(s: Progress, p: Project, a: Answers, edition: Edition): Progress
    requires ValidPicks(p, a)
  {
    Install(Install(s, p, a, OsgiCore, edition), p, a, OsgiCompendium, edition)
  }

  // ----- setup -----

  /** The plugin configuration: the type instructions, then the Bundle-Activator when one is created. */
  function Configure(p: Project, a: Answers, edition: Edition): Configuration {
    var config := TypeInstructions(p, a, edition);
    if a.createActivator then AddBundleActivator(config, a.activatorPackage, a.activatorClass)
    else config
  }

  /** The classes `createActivator` generates: a dependency-manager activator needs its component first. */
  function GeneratedSources(a: Answers): seq<Generated> {
    if !a.createActivator then []
    else if a.useDependencyManager then
      [ DmComponent(a.componentPackage, a.componentClass, a.useLogService),
        DmActivator(a.activatorPackage, a.activatorClass, a.componentPackage, a.componentClass, a.useLogService) ]
    else [Activator(a.activatorPackage, a.activatorClass)]
  }

  /**
   * The libraries: with an activator, the Felix dependency manager (for a
   * dependency-manager activator) and then the core libraries; without one, the
   * core libraries only when the operator asks for them.
   */
  function Libraries(p: Project, a: Answers, edition: Edition): Progress
    requires ValidPicks(p, a)
  {
    var start := Progress(p.dependencies, []);
    if a.createActivator then
      var afterDm := if a.useDependencyManager then Install(start, p, a, FelixDependencyManager, edition) else start;
      InstallCoreLibraries(afterDm, p, a, edition)
    else if a.installCoreLibraries then InstallCoreLibraries(start, p, a, edition)
    else start
  }

  /** `setup`: packaging set to bundle and exactly one manifest execution, whatever branch is taken. */
  function Setup(p: Project, a: Answers, edition: Edition): (r: Plan)
    requires ValidPicks(p, a)
    ensures r.packaging == Bundle
    ensures r.plugin.coord == BundlePlugin
    ensures r.plugin.executions == [ManifestExecution] && r.plugin.extensions
    ensures edition == AsWritten ==> r.dependencies == p.dependencies
    ensures !a.createActivator && !a.installCoreLibraries ==>
      r.dependencies == p.dependencies && r.installs == [] && r.generated == []
  {
    var libraries := Libraries(p, a, edition);
    Plan(Bundle, Plugin(BundlePlugin, Configure(p, a, edition), [ManifestExecution], true),
         libraries.dependencies, libraries.installs, GeneratedSources(a))
  }

  // ----- properties of the plan -----

  /** A prefix of a dependency list keeps every coordinate it holds. */
  lemma HasDirectInPrefix(deps: seq<Dependency>, longer: seq<Dependency>, c: Coord)
    requires |deps| <= |longer| && longer[..|deps|] == deps && HasDirect(deps, c)
    ensures HasDirect(longer, c)
  {
    var i :| 0 <= i < |deps| && Matches(deps[i], c);
    assert longer[i] == deps[i];
  }

  /**
   * Web resources take priority over persistence: the instructions start with
   * Web-ContextPath and Bundle-ClassPath, and no Meta-Persistence is produced.
   */
  lemma WebTakesPriority(p: Project, a: Answers, edition: Edition)
    requires ValidPicks(p, a) && p.hasWebResources
    ensures var config := Setup(p, a, edition).plugin.configuration;
      && GetNamed(config, Instructions).Some?
      && var c := GetNamed(config, Instructions).value.children;
      && |c| >= 2
      && c[0] == Leaf(WebContextPath, a.contextPath)
      && c[1] == Leaf(BundleClassPath, ClasspathText(DerivedClasspath(p.dependencies, edition)))
      && !HasNamed(config, MetaPersistence)
      && !HasNamed(c, MetaPersistence)
  {
    var derived := DerivedClasspath(p.dependencies, edition);
    assert Setup(p, a, edition).plugin.configuration == Configure(p, a, edition);
    WebConfiguration(a.contextPath, derived, a.createActivator, a.activatorPackage, a.activatorClass);
  }

  /** The web instructions, with or without a Bundle-Activator merged into their container. */
  lemma WebConfiguration(ctx: string, derived: string, activator: bool, pkg: string, cls: string)
    ensures var web := WebInstructions(ctx, derived);
      var config := if activator then AddBundleActivator(web, pkg, cls) else web;
      && GetNamed(config, Instructions).Some?
      && var c := GetNamed(config, Instructions).value.children;
      && |c| >= 2
      && c[0] == Leaf(WebContextPath, ctx)
      && c[1] == Leaf(BundleClassPath, ClasspathText(derived))
      && !HasNamed(config, MetaPersistence)
      && !HasNamed(c, MetaPersistence)
  {
    var web := WebInstructions(ctx, derived);
    assert FirstIndex(web, Instructions) == Some(0);
    assert !HasNamed(web, MetaPersistence);
    assert !HasNamed(web[0].children, MetaPersistence);
    if activator {
      var config := AddBundleActivator(web, pkg, cls);
      MergeIntoContainer(web, Instructions, ActivatorInstruction(pkg, cls));
      assert config[0].children == web[0].children + [ActivatorInstruction(pkg, cls)];
      assert forall j :: 0 <= j < |config| ==> config[j].name == web[j].name;
    }
  }

  /**
   * As written, a persistence project without web resources gets Meta-Persistence as
   * a top-level configuration element, outside any `instructions` container; an
   * activator then finds no container and creates one beside it.
   */
  lemma PersistenceOnlyAsWritten(p: Project, a: Answers)
    requires ValidPicks(p, a) && !p.hasWebResources && p.hasPersistence
    ensures var config := Setup(p, a, AsWritten).plugin.configuration;
      && config[0] == Leaf(MetaPersistence, PersistenceDescriptor)
      && config[1..] == (if a.createActivator
                         then [Element(Instructions, None, [ActivatorInstruction(a.activatorPackage, a.activatorClass)])]
                         else [])
  {
    if a.createActivator {
      assert !HasNamed([Leaf(MetaPersistence, PersistenceDescriptor)], Instructions);
    }
  }

  /**
   * Corrected, the single Meta-Persistence instruction sits inside the one
   * `instructions` container, followed by the Bundle-Activator when one is created.
   */
  lemma PersistenceOnlyCorrected(p: Project, a: Answers)
    requires ValidPicks(p, a) && !p.hasWebResources && p.hasPersistence
    ensures var config := Setup(p, a, Corrected).plugin.configuration;
      && |config| == 1
      && config[0].name == Instructions
      && config[0].children[0] == Leaf(MetaPersistence, PersistenceDescriptor)
      && config[0].children[1..] == (if a.createActivator
                                     then [ActivatorInstruction(a.activatorPackage, a.activatorClass)]
                                     else [])
  {
    if a.createActivator {
      assert FirstIndex(JpaInstructions(Corrected), Instructions) == Some(0);
    }
  }

  /**
   * An accepted activator is wired into the instructions under the qualified name
   * of the class generated for it, and a dependency-manager activator is generated
   * after the component it refers to.
   */
  lemma ActivatorWiring(p: Project, a: Answers, edition: Edition)
    requires ValidPicks(p, a) && a.createActivator
    ensures var r := Setup(p, a, edition);
      && GetNamed(r.plugin.configuration, Instructions).Some?
      && var c := GetNamed(r.plugin.configuration, Instructions).value.children;
      && |c| > 0 && |r.generated| > 0
      && c[|c| - 1] == ActivatorInstruction(a.activatorPackage, a.activatorClass)
      && var last := r.generated[|r.generated| - 1];
      && c[|c| - 1] == Leaf(BundleActivator, last.package + "." + last.className)
      && r.generated == (if a.useDependencyManager then
                           [ DmComponent(a.componentPackage, a.componentClass, a.useLogService),
                             DmActivator(a.activatorPackage, a.activatorClass, a.componentPackage,
                                         a.componentClass, a.useLogService) ]
                         else [Activator(a.activatorPackage, a.activatorClass)])
  {
  }

  /** The Felix dependency manager is installed before the core libraries, the core library before the compendium. */
  lemma LibraryOrder(p: Project, a: Answers, edition: Edition)
    requires ValidPicks(p, a) && (a.createActivator || a.installCoreLibraries)
    ensures var r := Setup(p, a, edition);
      if a.createActivator && a.useDependencyManager then
        |r.installs| == 3 && r.installs[0].coord == FelixDependencyManager
        && r.installs[1].coord == OsgiCore && r.installs[2].coord == OsgiCompendium
      else
        |r.installs| == 2 && r.installs[0].coord == OsgiCore && r.installs[1].coord == OsgiCompendium
  {
    var start := Progress(p.dependencies, []);
    var s0 := if a.createActivator && a.useDependencyManager
              then Install(start, p, a, FelixDependencyManager, edition) else start;
    var s1 := Install(s0, p, a, OsgiCore, edition);
    var s2 := Install(s1, p, a, OsgiCompendium, edition);
    assert Libraries(p, a, edition).installs == s2.installs;
    assert s2.installs[..|s1.installs|] == s1.installs;
    if a.createActivator && a.useDependencyManager {
      assert s1.installs[..1] == s0.installs;
    }
  }

  /**
   * Corrected edition: every library the answers ask for is a direct dependency
   * afterwards, the project's own dependencies stay in front, and no coordinate
   * ends up listed twice.
   */
  lemma CorrectedInstallsLibraries(p: Project, a: Answers)
    requires ValidPicks(p, a) && (a.createActivator || a.installCoreLibraries)
    ensures var deps := Setup(p, a, Corrected).dependencies;
      && HasDirect(deps, OsgiCore) && HasDirect(deps, OsgiCompendium)
      && (a.createActivator && a.useDependencyManager ==> HasDirect(deps, FelixDependencyManager))
      && |p.dependencies| <= |deps| && deps[..|p.dependencies|] == p.dependencies
      && (NoDuplicateCoords(p.dependencies) ==> NoDuplicateCoords(deps))
  {
    var start := Progress(p.dependencies, []);
    var dm := a.createActivator && a.useDependencyManager;
    var s0 := if dm then Install(start, p, a, FelixDependencyManager, Corrected) else start;
    var s1 := Install(s0, p, a, OsgiCore, Corrected);
    var s2 := Install(s1, p, a, OsgiCompendium, Corrected);
    assert Setup(p, a, Corrected).dependencies == s2.dependencies by {
      assert Libraries(p, a, Corrected) == s2;
    }
    HasDirectInPrefix(s1.dependencies, s2.dependencies, OsgiCore);
    if dm {
      HasDirectInPrefix(s0.dependencies, s1.dependencies, FelixDependencyManager);
      HasDirectInPrefix(s1.dependencies, s2.dependencies, FelixDependencyManager);
    }
    PrefixOfPrefix(p.dependencies, s0.dependencies, s1.dependencies);
    PrefixOfPrefix(p.dependencies, s1.dependencies, s2.dependencies);
  }

  lemma PrefixOfPrefix<T>(a: seq<T>, b: seq<T>, c: seq<T>)
    requires |a| <= |b| <= |c| && b[..|a|] == a && c[..|b|] == b
    ensures c[..|a|] == a
  {
    assert c[..|a|] == c[..|b|][..|a|];
  }

  /**
   * A project with neither web resources nor persistence, where the operator
   * takes every default: no instructions, one execution, no libraries.
   */
  lemma PlainProjectDefaults(base: string, deps: seq<Dependency>, versions: map<Coord, seq<string>>, edition: Edition)
    ensures var p := Project(false, false, base, deps, versions);
      var r := Setup(p, DefaultAnswers(base), edition);
      && r.plugin.configuration == []
      && r.plugin.executions == [ManifestExecution]
      && r.dependencies == deps && r.installs == [] && r.generated == []
  {
  }

  /** Two compile-scope JARs, foo-1.0 and bar-2.0. */
  function TwoCompileJars(): seq<Dependency> {
    [ Dependency("org.acme", "foo", Some("1.0"), Some(Compile), Jar),
      Dependency("org.acme", "bar", Some("2.0"), Some(Compile), Jar) ]
  }

  lemma TwoCompileJarsDerived(edition: Edition)
    ensures DerivedClasspath(TwoCompileJars(), edition)
            == "WEB-INF/lib/foo-1.0.jar" + Separator + "WEB-INF/lib/bar-2.0.jar"
  {
    var deps := TwoCompileJars();
    assert deps[..1][..0] == [];
    assert deps[..2] == deps;
    assert Derive(deps[..1]) == "WEB-INF/lib/foo-1.0.jar";
    assert DeriveCorrected(deps[..1]) == "WEB-INF/lib/foo-1.0.jar";
  }

  /**
   * A web project with context path `/app` and two compile-scope JARs foo-1.0 and
   * bar-2.0, with no activator: both entries follow the classes directory in order.
   */
  lemma WebProjectScenario(base: string, edition: Edition)
    ensures var p := Project(true, false, base, TwoCompileJars(), map[]);
      var a := DefaultAnswers(base).(contextPath := "/app");
      Setup(p, a, edition).plugin.configuration ==
        [ Element(Instructions, None,
            [ Leaf(WebContextPath, "/app"),
              Leaf(BundleClassPath,
                   ClassesDir + Separator + "WEB-INF/lib/foo-1.0.jar" + Separator + "WEB-INF/lib/bar-2.0.jar") ]),
          Element("supportedProjectTypes", None, [Leaf("supportedProjectType", "war")]) ]
  {
    var p := Project(true, false, base, TwoCompileJars(), map[]);
    var a := DefaultAnswers(base).(contextPath := "/app");
    var derived := DerivedClasspath(TwoCompileJars(), edition);
    TwoCompileJarsDerived(edition);
    assert Setup(p, a, edition).plugin.configuration == WebInstructions("/app", derived);
    var foo, bar := "WEB-INF/lib/foo-1.0.jar", "WEB-INF/lib/bar-2.0.jar";
    assert derived == foo + Separator + bar;
    assert ClasspathText(derived) == ClassesDir + Separator + derived;
    assert ClassesDir + Separator + (foo + Separator + bar) == ClassesDir + Separator + foo + Separator + bar;
    assert WebInstructions("/app", derived)[0].children[1] == Leaf(BundleClassPath, ClassesDir + Separator + foo + Separator + bar);
  }
}
