/**
 * Stand-ins for the parts of the jME scene graph the debug code changes:
 * a node's list of children and its list of controls, and materials.
 * A child list never holds the same spatial twice (jME's attachChild does
 * nothing for a spatial that is already a child), so removing a child is
 * modelled as removing every occurrence of it.
 */
module SceneGraph {

  datatype Color = Blue | Green | Magenta | Orange | Red | Yellow

  /** A material, described by what it shows. */
  datatype Material =
    | Invisible
    | Wireframe(color: Color, doubleSided: bool)
    | Custom(name: string)

  /** The controls the debug app states add to nodes. */
  datatype Control = SoftBodyDebugControl(body: object)

  /** The child list after Node.attachChild(child). */
  function Attach(children: seq<object>, child: object): (r: seq<object>)
    ensures child in r && children <= r && |r| <= |children| + 1
    ensures child in children ==> r == children
  {
    if child in children then children else children + [child]
  }

  /** The child list with every member of `xs` removed, in the original order. */
  function Without(s: seq<object>, xs: set<object>): (r: seq<object>)
    ensures forall x :: x in r ==> x in s && x !in xs
    ensures forall x :: x in s && x !in xs ==> x in r
    ensures |r| <= |s|
  {
    if s == [] then []
    else if s[0] in xs then Without(s[1..], xs)
    else [s[0]] + Without(s[1..], xs)
  }

  lemma {:induction false} WithoutNothing(s: seq<object>, xs: set<object>)
    requires forall x :: x in s ==> x !in xs
    ensures Without(s, xs) == s
  {
    if s != [] {
      WithoutNothing(s[1..], xs);
    }
  }

  lemma {:induction false} WithoutAppend(s: seq<object>, t: seq<object>, xs: set<object>)
    ensures Without(s + t, xs) == Without(s, xs) + Without(t, xs)
  {
    if s == [] {
      assert s + t == t;
    } else {
      assert (s + t)[1..] == s[1..] + t;
      WithoutAppend(s[1..], t, xs);
    }
  }

  lemma {:induction false} WithoutTwice(s: seq<object>, xs: set<object>, ys: set<object>)
    ensures Without(Without(s, xs), ys) == Without(s, xs + ys)
  {
    if s != [] {
      WithoutTwice(s[1..], xs, ys);
    }
  }

  class Node {
    var children: seq<object>
    var controls: seq<Control>

    constructor ()
      ensures children == [] && controls == []
    {
      children := [];
      controls := [];
    }

    method AttachChild(child: object)
      modifies this`children
      ensures children == Attach(old(children), child)
    {
      children := Attach(children, child);
    }

    method DetachChild(child: object)
      modifies this`children
      ensures children == Without(old(children), {child})
    {
      children := Without(children, {child});
    }

    method AddControl(control: Control)
      modifies this`controls
      ensures controls == old(controls) + [control]
    {
      controls := controls + [control];
    }
  }
}
