/**
 * `installDependency`: the decision it takes for one library coordinate, and
 * what it does to the project's direct dependencies.
 */
module DependencyInstall {
  import opened Options
  import opened Classpath

  /** A Maven coordinate without version. */
  datatype Coord = Coord(groupId: string, artifactId: string)

  const OsgiCore := Coord("org.osgi", "org.osgi.core")
  const OsgiCompendium := Coord("org.osgi", "org.osgi.compendium")
  const FelixDependencyManager := Coord("org.apache.felix", "org.apache.felix.dependencymanager")

  /** What the installer decided for a coordinate. */
  datatype Outcome =
    | AlreadyInstalled
      /** The dependency it built; whether it reaches the project depends on the edition. */
    | Prepared(dependency: Dependency)

  datatype Installed = Installed(dependencies: seq<Dependency>, outcome: Outcome)

  predicate Matches(d: Dependency, c: Coord) {
    d.groupId == c.groupId && d.artifactId == c.artifactId
  }

  /** Whether `c` is already among the direct dependencies. */
  predicate HasDirect(deps: seq<Dependency>, c: Coord) {
    exists i :: 0 <= i < |deps| && Matches(deps[i], c)
  }

  /** No coordinate is listed twice. */
  predicate NoDuplicateCoords(deps: seq<Dependency>) {
    forall i, j :: 0 <= i < j < |deps| ==> deps[i].groupId != deps[j].groupId || deps[i].artifactId != deps[j].artifactId
  }

  /** The operator's version answer is an index into the offered versions, if they changed the default. */
  predicate ValidPick(versions: seq<string>, pick: Option<nat>) {
    pick.Some? ==> pick.value < |versions|
  }

  /**
   * The version set on the new dependency: none when no version is available,
   * otherwise the operator's pick, defaulting to the last one offered.
   */
  function ChosenVersion(versions: seq<string>, pick: Option<nat>): (v: Option<string>)
    requires ValidPick(versions, pick)
    ensures v.None? <==> |versions| == 0
    ensures v.Some? ==> v.value in versions
    ensures v.Some? && pick.None? ==> v.value == versions[|versions| - 1]
    ensures pick.Some? ==> v == Some(versions[pick.value])
  {
    if |versions| == 0 then None
    else match pick
      case None => Some(versions[|versions| - 1])
      case Some(i) => Some(versions[i])
  }

  /** The provided-scope dependency the installer builds for `c`. */
  function Candidate(c: Coord, versions: seq<string>, pick: Option<nat>): (d: Dependency)
    requires ValidPick(versions, pick)
    ensures Matches(d, c) && d.scope == Some(Provided) && !InScope(d)
  {
    Dependency(c.groupId, c.artifactId, ChosenVersion(versions, pick), Some(Provided), Jar)
  }

  /**
   * As written: returns early when `c` is present; otherwise builds the provided-scope
   * dependency, but then only asks again whether it is present (line 237), so the
   * list never changes.
   */
  function InstallDependency(deps: seq<Dependency>, c: Coord, versions: seq<string>, pick: Option<nat>): (r: Installed)
    requires ValidPick(versions, pick)
    ensures r.dependencies == deps
    ensures r.outcome.AlreadyInstalled? <==> HasDirect(deps, c)
    ensures r.outcome.Prepared? ==>
      && Matches(r.outcome.dependency, c)
      && r.outcome.dependency.scope == Some(Provided)
      && r.outcome.dependency.version == ChosenVersion(versions, pick)
  {
    if HasDirect(deps, c) then Installed(deps, AlreadyInstalled)
    else
      var d := Candidate(c, versions, pick);
      Installed(deps, Prepared(d))
  }

  /** The evident intent: the prepared dependency is added to the list. */
  function InstallDependencyCorrected(deps: seq<Dependency>, c: Coord, versions: seq<string>, pick: Option<nat>): (r: Installed)
    requires ValidPick(versions, pick)
    ensures HasDirect(r.dependencies, c)
    ensures r.outcome.AlreadyInstalled? <==> HasDirect(deps, c)
    ensures HasDirect(deps, c) ==> r.dependencies == deps
    ensures !HasDirect(deps, c) ==>
      && r.outcome.Prepared?
      && r.dependencies == deps + [r.outcome.dependency]
      && Matches(r.outcome.dependency, c)
      && r.outcome.dependency.scope == Some(Provided)
      && r.outcome.dependency.version == ChosenVersion(versions, pick)
    ensures NoDuplicateCoords(deps) ==> NoDuplicateCoords(r.dependencies)
  {
    if HasDirect(deps, c) then Installed(deps, AlreadyInstalled)
    else
      var d := Candidate(c, versions, pick);
      assert Matches((deps + [d])[|deps|], c);
      AppendFreshKeepsNoDuplicates(deps, d);
      Installed(deps + [d], Prepared(d))
  }

  /** As written, a missing library is still missing afterwards. */
  lemma MissingStaysMissing(deps: seq<Dependency>, c: Coord, versions: seq<string>, pick: Option<nat>)
    requires ValidPick(versions, pick) && !HasDirect(deps, c)
    ensures InstallDependency(deps, c, versions, pick).outcome.Prepared?
    ensures !HasDirect(InstallDependency(deps, c, versions, pick).dependencies, c)
  {
  }

  /** Appending a dependency whose coordinate is not yet listed keeps the list free of duplicates. */
  lemma AppendFreshKeepsNoDuplicates(deps: seq<Dependency>, d: Dependency)
    requires !HasDirect(deps, Coord(d.groupId, d.artifactId))
    ensures NoDuplicateCoords(deps) ==> NoDuplicateCoords(deps + [d])
  {
    if NoDuplicateCoords(deps) {
      var out := deps + [d];
      forall i, j | 0 <= i < j < |out|
        ensures out[i].groupId != out[j].groupId || out[i].artifactId != out[j].artifactId
      {
        if j == |deps| {
          assert out[i] == deps[i];
          assert !Matches(deps[i], Coord(d.groupId, d.artifactId));
        }
      }
    }
  }

  /** Running the corrected installer again for the same library changes nothing. */
  lemma CorrectedIdempotent(deps: seq<Dependency>, c: Coord, versions: seq<string>, pick: Option<nat>)
    requires ValidPick(versions, pick)
    ensures var once := InstallDependencyCorrected(deps, c, versions, pick).dependencies;
      InstallDependencyCorrected(once, c, versions, pick) == Installed(once, AlreadyInstalled)
  {
  }
}
