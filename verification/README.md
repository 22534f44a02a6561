# OSGi bundle packaging for Forge projects — a Dafny model

This project models the deterministic core of the Forge `osgi` plugin (`OsgiPlugin`).
That plugin turns a Maven project into an OSGi bundle. Its core does three things:

- **Configuration tree and instruction merge.** The configuration of `maven-bundle-plugin` is a tree of named elements. Each element has optional text and ordered children. Lookup by name returns the first match. `Bundle-Activator` and `Service-Component` instructions are merged into an existing configuration: they are appended to the first `instructions` element when there is one. Otherwise a new wrapper element is attached. The Service-Component path names that wrapper `instruction`, exactly as the code does.
- **Bundle-ClassPath derivation.** A web bundle's class path is a left fold over the project's ordered direct dependencies. The fold filters by scope and by packaging type, and its result follows `WEB-INF/classes`.
- **The `setup` plan.** It sets packaging to `bundle` and chooses web instructions over JPA instructions. It optionally wires an activator and lists the libraries to install. It always attaches exactly one `bundle-manifest` execution.

Prompts, project facets and the dependency registry become plain inputs. `Project` holds the project facts and available versions. `Answers` holds the operator's answers, and `DefaultAnswers` gives the prompt defaults. `setup` becomes the pure function `SetupPlan.Setup`, which returns a `Plan`.

Modules, one per file:

| file | module | contents |
|---|---|---|
| options.dfy | `Options` | `Option`, standing in for Java `null` |
| config_tree.dfy | `ConfigTree` | `Element`, `Configuration`, first-match lookup, counting |
| instruction_merge.dfy | `InstructionMerge` | the merge tail of `createActivator` and `addServiceComponent` |
| classpath.dfy | `Classpath` | dependencies, the Bundle-ClassPath fold, an independent join-based description of it |
| dependency_install.dfy | `DependencyInstall` | `installDependency` |
| setup.dfy | `SetupPlan` | the project-type instructions, libraries, generated classes and `setup` |

`SetupPlan.Setup` takes an `Edition`:

- `AsWritten` follows the plugin's code.
- `Corrected` replaces three of the four defects listed under "## Findings" with their evident intent: the classpath separator, `installDependency` never adding, and `Meta-Persistence` outside `instructions`.

The fourth defect, the Service-Component wrapper named `instruction`, is not on the `setup` path. Only `InstructionMerge.AddServiceComponentCorrected` fixes it.

Every property about the code as written is stated for `AsWritten`.

Where the code's behaviour may surprise, this model follows the code:

- The classpath of an in-scope non-JAR dependency still gets a separator.
- `installDependency` never adds anything.
- Service-Component entries are not deduplicated.
- A project with neither web resources nor persistence gets no `instructions` element unless an activator is created.

## Model

| member | source | states |
|---|---|---|
| ConfigTree.AddChild | src/main/java/org/jboss/forge/osgi/OsgiPlugin.java:175 | adding a child keeps the parent's name, text and earlier children, and places the new child last |
| ConfigTree.FirstIndex | src/main/java/org/jboss/forge/osgi/OsgiPlugin.java:109-110 | lookup by name finds the first element with that name, and finds none exactly when no element has it |
| ConfigTree.GetNamed | src/main/java/org/jboss/forge/osgi/OsgiPlugin.java:273 | the element returned is a member of the list, carries the name, and no earlier element has that name |
| InstructionMerge.Merge | src/main/java/org/jboss/forge/osgi/OsgiPlugin.java:174-178 | the merge tail shared by `createActivator` and `addServiceComponent` (lines 109-113 with the wrapper `instruction`); its contract is stated by MergeIntoContainer, MergeExtendsFound, MergeCreatesWrapper and MergeFindable |
| InstructionMerge.MergeIntoContainer | src/main/java/org/jboss/forge/osgi/OsgiPlugin.java:174-175 | with an `instructions` element present, the first one gets the new instruction as its last child and keeps its name, text and earlier children; every other top-level element is unchanged and none is added; this covers `AddBundleActivator` and `AddServiceComponent`, which both merge through `Merge` |
| InstructionMerge.MergeExtendsFound | src/main/java/org/jboss/forge/osgi/OsgiPlugin.java:174-175 | after a merge into an existing container, lookup of `instructions` finds it with the new instruction appended to its earlier children |
| InstructionMerge.MergeCreatesWrapper | src/main/java/org/jboss/forge/osgi/OsgiPlugin.java:176-178 | without an `instructions` element, exactly one new wrapper holding only the new instruction is added at the end, and the earlier elements are kept |
| InstructionMerge.MergeFindable | src/main/java/org/jboss/forge/osgi/OsgiPlugin.java:174-179 | merging with the wrapper name `instructions` always leaves the new instruction as the last child of the first `instructions` element |
| InstructionMerge.AddBundleActivator | src/main/java/org/jboss/forge/osgi/OsgiPlugin.java:171-179 | afterwards an `instructions` element exists, and its last child is `Bundle-Activator` with text `package.className` |
| InstructionMerge.AddServiceComponent | src/main/java/org/jboss/forge/osgi/OsgiPlugin.java:106-114 | with `instructions` present, the Service-Component entry is its last child; without it, a new `instruction` wrapper is appended and still no `instructions` element exists |
| InstructionMerge.AddServiceComponentCorrected | src/main/java/org/jboss/forge/osgi/OsgiPlugin.java:112-113 | with the wrapper named `instructions`, the entry is always findable as the last child of the container |
| InstructionMerge.SecondMergeReusesContainer | src/main/java/org/jboss/forge/osgi/OsgiPlugin.java:174-178 | a second merge into a container created by a first merge appends to that same container |
| InstructionMerge.ActivatorContainerCreatedOnce | src/main/java/org/jboss/forge/osgi/OsgiPlugin.java:174-178 | two Bundle-Activator merges into a configuration without a container add exactly one `instructions` element at the end, holding both activators in order, and nothing else changes |
| InstructionMerge.ServiceComponentWrappersPileUp | src/main/java/org/jboss/forge/osgi/OsgiPlugin.java:109-113 | two Service-Component merges without a container create two separate `instruction` wrappers and never an `instructions` element |
| InstructionMerge.ServiceComponentCorrectedContainerOnce | src/main/java/org/jboss/forge/osgi/OsgiPlugin.java:109-113 | with the corrected wrapper name, two merges into a configuration without a container add exactly one `instructions` element at the end, holding both entries in order |
| InstructionMerge.ServiceComponentNotDeduplicated | src/main/java/org/jboss/forge/osgi/OsgiPlugin.java:109-110 | adding the same Service-Component twice lists it twice after the earlier children |
| Classpath.Step | src/main/java/org/jboss/forge/osgi/OsgiPlugin.java:261-268 | one iteration of the loop, as written; its behaviour is stated by DeriveIsJoinedSegments, OutOfScopeIgnored and LeadingNonJarIgnored |
| Classpath.Derive | src/main/java/org/jboss/forge/osgi/OsgiPlugin.java:258-270 | the loop over the direct dependencies, in list order; DeriveIsJoinedSegments proves it equal to the independent filter, drop-leading-non-JARs, segment and join description |
| Classpath.ClasspathText | src/main/java/org/jboss/forge/osgi/OsgiPlugin.java:272-275 | an empty derived text leaves exactly `WEB-INF/classes`; otherwise the text is `WEB-INF/classes, ` followed by the derived text |
| Classpath.DeriveIsJoinedSegments | src/main/java/org/jboss/forge/osgi/OsgiPlugin.java:258-270 | the loop's text equals the in-scope dependencies from the first in-scope JAR on, in list order, with each JAR as its entry and each other dependency as an empty segment, joined by `", "`; the text is empty exactly when no in-scope JAR exists |
| Classpath.ClasspathTextIsJoin | src/main/java/org/jboss/forge/osgi/OsgiPlugin.java:253-275 | the final Bundle-ClassPath is `WEB-INF/classes` followed by those same segments, all joined by `", "` |
| Classpath.OutOfScopeIgnored | src/main/java/org/jboss/forge/osgi/OsgiPlugin.java:261 | a provided, test or other out-of-scope dependency, wherever it sits, adds neither an entry nor a separator |
| Classpath.LeadingNonJarIgnored | src/main/java/org/jboss/forge/osgi/OsgiPlugin.java:262-266 | an in-scope non-JAR dependency at the front adds nothing |
| Classpath.AllJarsGiveEntries | src/main/java/org/jboss/forge/osgi/OsgiPlugin.java:260-267 | when every in-scope dependency is a JAR, the derived text is exactly their `WEB-INF/lib/<artifactId>-<version>.jar` entries, in list order, joined by `", "` |
| Classpath.MixedExampleAsWritten | src/main/java/org/jboss/forge/osgi/OsgiPlugin.java:262-275 | for a compile JAR, a test JAR, a compile WAR and a provided JAR, the Bundle-ClassPath is `WEB-INF/classes, WEB-INF/lib/A-1.0.jar, `, ending in a dangling separator |
| Classpath.DeriveCorrectedIsJoinedEntries | src/main/java/org/jboss/forge/osgi/OsgiPlugin.java:260-268 | the corrected loop gives exactly the entries of the in-scope JARs, in order, joined by `", "`, and is empty exactly when there are none |
| Classpath.MixedExampleCorrected | src/main/java/org/jboss/forge/osgi/OsgiPlugin.java:262-266 | on the mixed example the corrected loop gives the single JAR entry |
| Classpath.CorrectedAgreesOnJars | src/main/java/org/jboss/forge/osgi/OsgiPlugin.java:260-268 | the two loops agree whenever every in-scope dependency is a JAR |
| DependencyInstall.ChosenVersion | src/main/java/org/jboss/forge/osgi/OsgiPlugin.java:230-234 | no version is set when none is available; otherwise the operator's pick `i` gives exactly the `i`-th offered version, and with no pick the default is the last one offered |
| DependencyInstall.Candidate | src/main/java/org/jboss/forge/osgi/OsgiPlugin.java:224-236 | the built dependency has the requested coordinate and provided scope, so it is never embedded in the classpath |
| DependencyInstall.InstallDependency | src/main/java/org/jboss/forge/osgi/OsgiPlugin.java:222-239 | it returns early exactly when the coordinate is already a direct dependency; otherwise it prepares a provided dependency with the chosen version; in both cases the dependency list is unchanged |
| DependencyInstall.MissingStaysMissing | src/main/java/org/jboss/forge/osgi/OsgiPlugin.java:237 | a library that was missing is prepared but is still missing afterwards |
| DependencyInstall.InstallDependencyCorrected | src/main/java/org/jboss/forge/osgi/OsgiPlugin.java:236-237 | the coordinate is a direct dependency afterwards; a new one is appended with provided scope after the existing list; no duplicate coordinates are introduced |
| DependencyInstall.AppendFreshKeepsNoDuplicates | src/main/java/org/jboss/forge/osgi/OsgiPlugin.java:225-228 | appending a dependency whose coordinate is not yet listed keeps a duplicate-free list duplicate-free |
| DependencyInstall.CorrectedIdempotent | src/main/java/org/jboss/forge/osgi/OsgiPlugin.java:225-228 | running the corrected installer again for the same library reports it as already installed and changes nothing |
| SetupPlan.WebInstructions | src/main/java/org/jboss/forge/osgi/OsgiPlugin.java:247-278 | the web configuration is an `instructions` container holding `Web-ContextPath` then `Bundle-ClassPath`, followed by `supportedProjectTypes` listing `war` |
| SetupPlan.JpaInstructions | src/main/java/org/jboss/forge/osgi/OsgiPlugin.java:242-245 | as written, the Meta-Persistence child itself is the configuration element; corrected, it sits inside `instructions` |
| SetupPlan.TypeInstructions | src/main/java/org/jboss/forge/osgi/OsgiPlugin.java:62-67 | web instructions when the project has web resources, else JPA instructions when it has persistence, else none; stated by WebTakesPriority, PersistenceOnlyAsWritten, PersistenceOnlyCorrected and PlainProjectDefaults |
| SetupPlan.DefaultAnswers | src/main/java/org/jboss/forge/osgi/OsgiPlugin.java:141-142 | the answers of an operator who accepts every prompt default: activator package `<base>.osgi` and class `Activator` (141-142), context path `/` (249), no activator (91), no dependency manager (210), no core libraries (73), no servlet imports (281), log service on (151), component package `<base>` and class `DmComponent` (184-185), and no version pick, so the last offered version (232); PlainProjectDefaults uses it |
| SetupPlan.Configure | src/main/java/org/jboss/forge/osgi/OsgiPlugin.java:62-70 | the type instructions, then the Bundle-Activator merged in when an activator is created; stated by WebConfiguration, WebTakesPriority, PersistenceOnlyAsWritten, PersistenceOnlyCorrected and ActivatorWiring |
| SetupPlan.GeneratedSources | src/main/java/org/jboss/forge/osgi/OsgiPlugin.java:138-207 | the classes `createActivator` generates, with their template parameters; ActivatorWiring states the exact list for both activator kinds |
| SetupPlan.Install | src/main/java/org/jboss/forge/osgi/OsgiPlugin.java:222-239 | each library step logs exactly one outcome for its coordinate; "already installed" is logged exactly when the coordinate is present; as written the dependencies never change; corrected, the list only grows and stays duplicate-free |
| SetupPlan.InstallCoreLibraries | src/main/java/org/jboss/forge/osgi/OsgiPlugin.java:213-216 | the OSGi core library, then the compendium; stated by LibraryOrder and CorrectedInstallsLibraries |
| SetupPlan.Libraries | src/main/java/org/jboss/forge/osgi/OsgiPlugin.java:69-77 | the Felix dependency manager when a dependency-manager activator is created (line 158), then the core libraries; without an activator, the core libraries only on request; stated by LibraryOrder and CorrectedInstallsLibraries |
| SetupPlan.Setup | src/main/java/org/jboss/forge/osgi/OsgiPlugin.java:49-88 | whatever branch is taken, packaging is `bundle` and the plugin is `maven-bundle-plugin` with exactly one execution (`bundle-manifest`, `process-classes`, goal `manifest`) and extensions on; as written the dependency list is unchanged |
| SetupPlan.WebTakesPriority | src/main/java/org/jboss/forge/osgi/OsgiPlugin.java:62-67 | with web resources, the instructions start with `Web-ContextPath` and `Bundle-ClassPath`, and no `Meta-Persistence` appears, even when persistence is present too |
| SetupPlan.PersistenceOnlyAsWritten | src/main/java/org/jboss/forge/osgi/OsgiPlugin.java:242-244 | with persistence only, the configuration starts with the top-level `Meta-Persistence` = `META-INF/persistence.xml`; an activator then creates a separate `instructions` wrapper |
| SetupPlan.PersistenceOnlyCorrected | src/main/java/org/jboss/forge/osgi/OsgiPlugin.java:242-244 | corrected, the single `instructions` container holds `Meta-Persistence`, then the Bundle-Activator when one is created |
| SetupPlan.ActivatorWiring | src/main/java/org/jboss/forge/osgi/OsgiPlugin.java:138-179 | with an activator, the last instruction of the first `instructions` element is `Bundle-Activator` = `activatorPackage.activatorClass`, naming the last generated class; a dependency-manager activator generates exactly the component (its package, class and log-service answer), then the activator with the operator's package and class, that component and the same log-service answer; otherwise exactly one plain `Activator` with the operator's package and class |
| SetupPlan.LibraryOrder | src/main/java/org/jboss/forge/osgi/OsgiPlugin.java:69-76 | the Felix dependency manager is installed first when used, then the OSGi core library, then the compendium |
| SetupPlan.CorrectedInstallsLibraries | src/main/java/org/jboss/forge/osgi/OsgiPlugin.java:213-220 | corrected, every requested library is a direct dependency afterwards, the project's own dependencies stay in front, and coordinates stay unique |
| SetupPlan.PlainProjectDefaults | src/main/java/org/jboss/forge/osgi/OsgiPlugin.java:69-84 | with neither web nor persistence and every default accepted, there is no configuration element, one execution, no library and no generated class |
| SetupPlan.WebProjectScenario | src/main/java/org/jboss/forge/osgi/OsgiPlugin.java:247-278 | for context path `/app` and compile JARs foo-1.0 and bar-2.0, the configuration is exactly `Web-ContextPath=/app`, `Bundle-ClassPath=WEB-INF/classes, WEB-INF/lib/foo-1.0.jar, WEB-INF/lib/bar-2.0.jar`, and `supportedProjectTypes` = `war` |

## Left out

- Velocity initialisation and template rendering (lines 41-47, 144-161, 187-193) are out: the templating engine's output cannot be modelled. The classes to generate are recorded as `Generated` values that carry the template parameters.
- `JavaParser.parse`, `saveJavaSource` and the `FileNotFoundException` → `RuntimeException` wrapping (lines 118-120, 163-169, 195-201) are out. They are foreign parsing and file I/O.
- Shell prompts and messages (`promptBoolean`, `promptCommon`, `prompt`, `promptChoiceTyped`, `println`, `printlnVerbose`) are out. Answers are the `Answers` inputs, and `DefaultAnswers` gives their defaults. A version answer is an index into the offered versions; when there is none, the default is the last version.
- Maven facet persistence is out: `addPlugin`, `removePlugin`, `getPlugin` (lines 86, 105, 116-117, 123-125) and `resolveAvailableVersions` (line 230) are facet calls. The plugin and dependency list are plan outputs. Available versions are the `Project.availableVersions` input. `setPackagingType` (line 55) becomes `Plan.packaging`.
- The `Import-Package` instruction (lines 281-284) is out. Whether it reaches the stored configuration depends on builder aliasing that is not visible, so the `addServletImports` answer has no effect here.
- The `install-felix-dm` command (lines 127-136) is out as a whole. Whether its activator edit persists depends on `MavenPluginBuilder.create(plugin)` aliasing the stored plugin, and it never re-adds the plugin. Its parts, `installDependency` and the Bundle-Activator merge, are modelled.
- A null packaging type (the possible exception at line 266) is out: packaging is a total enumeration. A null version is modelled, as the text `null` that a Java string builder appends.
- The internals of `ConfigurationElementBuilder` and `MavenPluginBuilder` are not part of this model. Only name, text, ordered children and first-match lookup are modelled. Three assumptions follow:
  - `addConfigurationElement` appends.
  - `addChild(String)` returns the new child, while `addChild(element)` returns the parent.
  - When neither web nor JPA instructions created a configuration, `getConfig()` is taken as an empty configuration.
- The dependency `installDependency` builds is given packaging type `Jar`, Maven's default. Scope and packaging enumerations list the common values; only `Compile`, `Runtime`, unset and `Jar` matter to the code.

## Findings

| source | as written | input that shows it | evidently intended | confidence | as-written member | corrected member |
|---|---|---|---|---|---|---|
| src/main/java/org/jboss/forge/osgi/OsgiPlugin.java:262-266 | the `", "` separator is appended before the packaging check | in-scope dependencies A (JAR) then C (WAR) give `WEB-INF/lib/A-1.0.jar, `, a dangling empty class-path entry | separators only between embedded JAR entries | medium, not executed | Classpath.MixedExampleAsWritten | Classpath.DeriveCorrectedIsJoinedEntries |
| src/main/java/org/jboss/forge/osgi/OsgiPlugin.java:237 | `hasDirectDependency` is called where the dependency should be added | any library not yet in the project: it is reported as added but the list is unchanged | `addDependency` with the prepared provided-scope dependency | high, not executed | DependencyInstall.MissingStaysMissing | DependencyInstall.InstallDependencyCorrected |
| src/main/java/org/jboss/forge/osgi/OsgiPlugin.java:243-244 | `addChild("Meta-Persistence")` returns the child, and that child is attached as a top-level configuration element | a project with persistence and no web resources: `Meta-Persistence` lies outside `instructions` | `Meta-Persistence` inside the `instructions` container, as the web path does with `getParentElement()` | medium, not executed | SetupPlan.PersistenceOnlyAsWritten | SetupPlan.PersistenceOnlyCorrected |
| src/main/java/org/jboss/forge/osgi/OsgiPlugin.java:112 | the Service-Component path creates a wrapper named `instruction` but looks up `instructions` | two `add-service-component` runs on a configuration without `instructions` create two `instruction` wrappers | create `instructions`, so later runs append to it | medium, not executed | InstructionMerge.ServiceComponentWrappersPileUp | InstructionMerge.ServiceComponentCorrectedContainerOnce |

`SetupPlan.Setup(…, Corrected)` uses the corrected classpath loop, the corrected installer and the corrected JPA instructions. The corrected Service-Component merge stands alone, because `setup` never adds a Service-Component.
