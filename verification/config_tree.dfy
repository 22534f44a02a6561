/**
 * The configuration tree of a build plugin: named elements with optional text
 * and an ordered list of children. Lookup by name returns the FIRST match;
 * nothing here deduplicates names.
 */
module ConfigTree {
  import opened Options

  datatype Element = Element(name: string, text: Option<string>, children: seq<Element>)

  /** A plugin configuration: its ordered top-level elements. */
  type Configuration = seq<Element>

  /** A fresh element with no text and no children. */
  function Create(name: string): Element {
    Element(name, None, [])
  }

  /** A childless element carrying `text`. */
  function Leaf(name: string, text: string): Element {
    Element(name, Some(text), [])
  }

  /** `child` appended as the last child of `parent`; text and earlier children are kept. */
  function AddChild(parent: Element, child: Element): (r: Element)
    ensures r.name == parent.name && r.text == parent.text
    ensures |r.children| == |parent.children| + 1
    ensures r.children[..|parent.children|] == parent.children
    ensures r.children[|parent.children|] == child
  {
    parent.(children := parent.children + [child])
  }

  /** Position of the first element called `name`, if any. */
  function FirstIndex(elems: seq<Element>, name: string): (r: Option<nat>)
    ensures r.Some? ==> r.value < |elems| && elems[r.value].name == name
    ensures r.Some? ==> forall j :: 0 <= j < r.value ==> elems[j].name != name
    ensures r.None? <==> forall j :: 0 <= j < |elems| ==> elems[j].name != name
  {
    if |elems| == 0 then None
    else if elems[0].name == name then Some(0)
    else match FirstIndex(elems[1..], name)
      case None => None
      case Some(i) => Some(i + 1)
  }

  /** Whether some element is called `name`. */
  predicate HasNamed(elems: seq<Element>, name: string) {
    FirstIndex(elems, name).Some?
  }

  /** The first element called `name`, or `None` when there is none. */
  function GetNamed(elems: seq<Element>, name: string): (r: Option<Element>)
    ensures r.Some? <==> exists j :: 0 <= j < |elems| && elems[j].name == name
    ensures r.Some? ==> r.value.name == name && r.value in elems
    ensures r.Some? ==> exists j :: 0 <= j < |elems| && elems[j] == r.value
                                    && forall k :: 0 <= k < j ==> elems[k].name != name
  {
    match FirstIndex(elems, name)
    case None => None
    case Some(i) => Some(elems[i])
  }

  /** How many elements are called `name`. */
  function CountNamed(elems: seq<Element>, name: string): (n: nat)
    ensures n <= |elems|
    ensures n == 0 <==> forall j :: 0 <= j < |elems| ==> elems[j].name != name
  {
    if |elems| == 0 then 0
    else CountNamed(elems[..|elems| - 1], name) + (if elems[|elems| - 1].name == name then 1 else 0)
  }

  /** Lookup by name sees only names: lists with the same names find the same position. */
  lemma {:induction false} FirstIndexSameNames(a: seq<Element>, b: seq<Element>, name: string)
    requires |a| == |b| && forall j :: 0 <= j < |a| ==> a[j].name == b[j].name
    ensures FirstIndex(a, name) == FirstIndex(b, name)
    decreases |a|
  {
    if |a| > 0 && a[0].name != name {
      FirstIndexSameNames(a[1..], b[1..], name);
    }
  }

  /** Counting over a concatenation adds up. */
  lemma {:induction false} CountNamedConcat(a: seq<Element>, b: seq<Element>, name: string)
    ensures CountNamed(a + b, name) == CountNamed(a, name) + CountNamed(b, name)
    decreases |b|
  {
    if |b| == 0 {
      assert a + b == a;
    } else {
      var b' := b[..|b| - 1];
      assert (a + b)[..|a + b| - 1] == a + b';
      CountNamedConcat(a, b', name);
    }
  }
}
