/**
 * Adding one named instruction to an already existing plugin configuration:
 * the tail of `createActivator` (Bundle-Activator) and of
 * `addServiceComponent` (Service-Component).
 */
module InstructionMerge {
  import opened Options
  import opened ConfigTree

  /** The container the bundle plugin reads its manifest instructions from. */
  const Instructions := "instructions"
  /** The wrapper name the Service-Component path creates when no container exists. */
  const ServiceWrapper := "instruction"
  const BundleActivator := "Bundle-Activator"
  const ServiceComponent := "Service-Component"

  /**
   * Appends `instr` to the first top-level `instructions` element when there is one;
   * otherwise attaches a new element called `wrapper` whose only child is `instr`.
   */
  function Merge(config: Configuration, wrapper: string, instr: Element): Configuration {
    match FirstIndex(config, Instructions)
    case Some(i) => config[i := AddChild(config[i], instr)]
    case None => config + [Element(wrapper, None, [instr])]
  }

  /**
   * With an existing container, `Merge` gives the first one `instr` as its last
   * child and leaves every other element, and the container's earlier children,
   * as they were.
   */
  lemma MergeIntoContainer(config: Configuration, wrapper: string, instr: Element)
    requires HasNamed(config, Instructions)
    ensures var r := Merge(config, wrapper, instr);
      && |r| == |config|
      && (var i := FirstIndex(config, Instructions).value;
          && r[i] == AddChild(config[i], instr)
          && forall j :: 0 <= j < |r| && j != i ==> r[j] == config[j])
      && GetNamed(r, Instructions).Some?
      && GetNamed(r, Instructions).value.text == GetNamed(config, Instructions).value.text
      && GetNamed(r, Instructions).value.children == GetNamed(config, Instructions).value.children + [instr]
  {
    var i := FirstIndex(config, Instructions).value;
    var r := Merge(config, wrapper, instr);
    assert r == config[i := AddChild(config[i], instr)];
    FirstIndexSameNames(r, config, Instructions);
  }

  /** The container lookup after a merge into an existing container finds it with `instr` appended. */
  lemma MergeExtendsFound(config: Configuration, wrapper: string, instr: Element)
    requires HasNamed(config, Instructions)
    ensures var r := Merge(config, wrapper, instr);
      && GetNamed(r, Instructions).Some?
      && GetNamed(r, Instructions).value.children == GetNamed(config, Instructions).value.children + [instr]
  {
    MergeIntoContainer(config, wrapper, instr);
  }

  /** Without a container, `Merge` adds exactly one new top-level element holding exactly `instr`. */
  lemma MergeCreatesWrapper(config: Configuration, wrapper: string, instr: Element)
    requires !HasNamed(config, Instructions)
    ensures var r := Merge(config, wrapper, instr);
      && |r| == |config| + 1
      && r[..|config|] == config
      && r[|config|] == Element(wrapper, None, [instr])
      && CountNamed(r, wrapper) == CountNamed(config, wrapper) + 1
  {
    var w := Element(wrapper, None, [instr]);
    assert Merge(config, wrapper, instr) == config + [w];
    assert (config + [w])[..|config|] == config;
    CountNamedConcat(config, [w], wrapper);
    assert [w][..0] == [];
  }

  /** Whichever branch is taken, merging with the wrapper `instructions` leaves `instr` findable as the last instruction. */
  lemma MergeFindable(config: Configuration, instr: Element)
    ensures var r := Merge(config, Instructions, instr);
      && GetNamed(r, Instructions).Some?
      && var c := GetNamed(r, Instructions).value.children;
         |c| > 0 && c[|c| - 1] == instr
  {
    if HasNamed(config, Instructions) {
      MergeIntoContainer(config, Instructions, instr);
    } else {
      assert Merge(config, Instructions, instr) == config + [Element(Instructions, None, [instr])];
      FirstContainerIsTheNewOne(config, Element(Instructions, None, [instr]));
    }
  }

  /** The Bundle-Activator instruction for the class `packageName.className`. */
  function ActivatorInstruction(packageName: string, className: string): Element {
    Leaf(BundleActivator, packageName + "." + className)
  }

  /** `createActivator`'s merge: the wrapper it creates is `instructions`. */
  function AddBundleActivator(config: Configuration, packageName: string, className: string): (r: Configuration)
    ensures GetNamed(r, Instructions).Some?
    ensures var c := GetNamed(r, Instructions).value.children;
      |c| > 0 && c[|c| - 1] == Leaf(BundleActivator, packageName + "." + className)
  {
    MergeFindable(config, ActivatorInstruction(packageName, className));
    Merge(config, Instructions, ActivatorInstruction(packageName, className))
  }

  /** `addServiceComponent`'s merge, as written: it looks up `instructions` but creates `instruction`. */
  function AddServiceComponent(config: Configuration, qualifiedName: string): (r: Configuration)
    ensures HasNamed(config, Instructions) ==>
      && GetNamed(r, Instructions).Some?
      && var c := GetNamed(r, Instructions).value.children;
         |c| > 0 && c[|c| - 1] == Leaf(ServiceComponent, qualifiedName)
    ensures !HasNamed(config, Instructions) ==>
      && !HasNamed(r, Instructions)
      && r == config + [Element(ServiceWrapper, None, [Leaf(ServiceComponent, qualifiedName)])]
  {
    var sc := Leaf(ServiceComponent, qualifiedName);
    if HasNamed(config, Instructions) then
      MergeIntoContainer(config, ServiceWrapper, sc);
      Merge(config, ServiceWrapper, sc)
    else
      var r := Merge(config, ServiceWrapper, sc);
      assert r == config + [Element(ServiceWrapper, None, [sc])];
      assert !HasNamed(r, Instructions) by {
        assert forall j :: 0 <= j < |config| ==> r[j] == config[j];
      }
      r
  }

  /** `addServiceComponent` with the wrapper named `instructions`, the name it looks up. */
  function AddServiceComponentCorrected(config: Configuration, qualifiedName: string): (r: Configuration)
    ensures GetNamed(r, Instructions).Some?
    ensures var c := GetNamed(r, Instructions).value.children;
      |c| > 0 && c[|c| - 1] == Leaf(ServiceComponent, qualifiedName)
  {
    MergeFindable(config, Leaf(ServiceComponent, qualifiedName));
    Merge(config, Instructions, Leaf(ServiceComponent, qualifiedName))
  }

  /** A configuration with no `instructions` element, extended by one, finds the new one. */
  lemma {:induction false} FirstContainerIsTheNewOne(config: Configuration, e: Element)
    requires !HasNamed(config, Instructions) && e.name == Instructions
    ensures CountNamed(config + [e], Instructions) == 1
    ensures GetNamed(config + [e], Instructions) == Some(e)
  {
    CountNamedConcat(config, [e], Instructions);
    assert CountNamed([e], Instructions) == 1 by {
      assert [e][..0] == [];
    }
    assert (config + [e])[|config|] == e;
  }

  /** `Merge` unfolded when a container is found at `i`. */
  lemma MergeFound(config: Configuration, wrapper: string, instr: Element, i: nat)
    requires FirstIndex(config, Instructions) == Some(i)
    ensures Merge(config, wrapper, instr) == config[i := AddChild(config[i], instr)]
  {
  }

  /** A second merge into the container the first one created appends to it. */
  lemma {:induction false} SecondMergeReusesContainer(config: Configuration, a: Element, wrapper: string, b: Element)
    requires !HasNamed(config, Instructions)
    ensures Merge(Merge(config, Instructions, a), wrapper, b)
            == config + [Element(Instructions, None, [a, b])]
  {
    var created := Element(Instructions, None, [a]);
    var both := Element(Instructions, None, [a, b]);
    var once := config + [created];
    assert Merge(config, Instructions, a) == once;
    assert FirstIndex(once, Instructions) == Some(|config|) by {
      FirstContainerIsTheNewOne(config, created);
    }
    MergeFound(once, wrapper, b, |config|);
    assert AddChild(created, b) == both by {
      assert [a] + [b] == [a, b];
    }
    ReplaceLast(config, created, both);
  }

  lemma ReplaceLast<T>(s: seq<T>, x: T, y: T)
    ensures (s + [x])[|s| := y] == s + [y]
  {
  }

  /**
   * Two Bundle-Activator merges into a configuration with no container: one
   * `instructions` container is created by the first and reused by the second.
   */
  lemma {:induction false} ActivatorContainerCreatedOnce(config: Configuration, p1: string, c1: string, p2: string, c2: string)
    requires !HasNamed(config, Instructions)
    ensures var r := AddBundleActivator(AddBundleActivator(config, p1, c1), p2, c2);
      && r == config + [Element(Instructions, None, [ActivatorInstruction(p1, c1), ActivatorInstruction(p2, c2)])]
      && CountNamed(r, Instructions) == 1
  {
    var a1, a2 := ActivatorInstruction(p1, c1), ActivatorInstruction(p2, c2);
    SecondMergeReusesContainer(config, a1, Instructions, a2);
    FirstContainerIsTheNewOne(config, Element(Instructions, None, [a1, a2]));
  }

  /**
   * As written, two Service-Component merges into a configuration with no
   * `instructions` element never find the `instruction` wrapper they create:
   * each one adds a wrapper of its own.
   */
  lemma ServiceComponentWrappersPileUp(config: Configuration, q1: string, q2: string)
    requires !HasNamed(config, Instructions)
    ensures var r := AddServiceComponent(AddServiceComponent(config, q1), q2);
      && !HasNamed(r, Instructions)
      && CountNamed(r, ServiceWrapper) == CountNamed(config, ServiceWrapper) + 2
      && r == config + [Element(ServiceWrapper, None, [Leaf(ServiceComponent, q1)]),
                        Element(ServiceWrapper, None, [Leaf(ServiceComponent, q2)])]
  {
  }

  /** The corrected Service-Component merge reuses the container it created. */
  lemma {:induction false} ServiceComponentCorrectedContainerOnce(config: Configuration, q1: string, q2: string)
    requires !HasNamed(config, Instructions)
    ensures var r := AddServiceComponentCorrected(AddServiceComponentCorrected(config, q1), q2);
      && r == config + [Element(Instructions, None, [Leaf(ServiceComponent, q1), Leaf(ServiceComponent, q2)])]
      && CountNamed(r, Instructions) == 1
  {
    var s1, s2 := Leaf(ServiceComponent, q1), Leaf(ServiceComponent, q2);
    SecondMergeReusesContainer(config, s1, Instructions, s2);
    FirstContainerIsTheNewOne(config, Element(Instructions, None, [s1, s2]));
  }

  /** No deduplication: the same Service-Component added twice is listed twice. */
  lemma ServiceComponentNotDeduplicated(config: Configuration, q: string)
    requires HasNamed(config, Instructions)
    ensures var before := GetNamed(config, Instructions).value.children;
      GetNamed(AddServiceComponent(AddServiceComponent(config, q), q), Instructions).value.children
        == before + [Leaf(ServiceComponent, q), Leaf(ServiceComponent, q)]
  {
    var sc := Leaf(ServiceComponent, q);
    var once := AddServiceComponent(config, q);
    MergeExtendsFound(config, ServiceWrapper, sc);
    MergeExtendsFound(once, ServiceWrapper, sc);
  }
}
