/**
 * The soft-body debug app state (SoftDebugAppState): once per frame it
 * reconciles its map from soft bodies to visualization nodes with the
 * physics space's live soft-body list.
 */
module SoftDebug {
  import opened Wrappers
  import opened SceneGraph
  import opened Physics

  /**
   * A debug filter (BulletDebugAppState.DebugAppStateFilter), None standing
   * for a null filter, which displays every object.
   */
  type Filter = Option<SoftBody -> bool>

  predicate Displays(filter: Filter, b: SoftBody)
  {
    filter.None? || filter.value(b)
  }

  /** The live bodies that the filter lets through. */
  function DisplayedBodies(live: seq<SoftBody>, filter: Filter): (r: set<SoftBody>)
  {
    set b | b in live && Displays(filter, b)
  }

  /** No body occurs twice in the list (the space keys its bodies by id). */
  predicate Distinct(live: seq<SoftBody>)
  {
    forall i, j :: 0 <= i < j < |live| ==> live[i] != live[j]
  }

  /** No two bodies share a node. */
  predicate Injective(m: map<SoftBody, Node>)
  {
    forall b1, b2 :: b1 in m && b2 in m && b1 != b2 ==> m[b1] != m[b2]
  }

  /** The displayed bodies of `live` that have no node yet, in list order. */
  function Newcomers(live: seq<SoftBody>, filter: Filter, known: set<SoftBody>): (r: seq<SoftBody>)
    ensures forall b :: b in r ==> b in live && Displays(filter, b) && b !in known
  {
    if live == [] then []
    else
      var b := live[|live| - 1];
      Newcomers(live[..|live| - 1], filter, known)
        + (if Displays(filter, b) && b !in known then [b] else [])
  }

  /** The nodes `m` gives to the bodies `bs`, in the order of `bs`. */
  function NodesOf(m: map<SoftBody, Node>, bs: seq<SoftBody>): seq<object>
    requires forall b :: b in bs ==> b in m
  {
    seq(|bs|, k requires 0 <= k < |bs| => m[bs[k]])
  }

  /** The nodes of the bodies of `oldMap` that are not kept. */
  function Leftovers(oldMap: map<SoftBody, Node>, kept: set<SoftBody>): (r: set<object>)
  {
    set b | b in oldMap && b !in kept :: oldMap[b]
  }

  lemma DisplayedStep(live: seq<SoftBody>, i: nat, filter: Filter)
    requires i < |live|
    ensures DisplayedBodies(live[..i + 1], filter) ==
              DisplayedBodies(live[..i], filter) + (if Displays(filter, live[i]) then {live[i]} else {})
  {
    assert live[..i + 1] == live[..i] + [live[i]];
  }

  lemma NewcomersStep(live: seq<SoftBody>, i: nat, filter: Filter, known: set<SoftBody>)
    requires i < |live|
    ensures Newcomers(live[..i + 1], filter, known) ==
              Newcomers(live[..i], filter, known)
              + (if Displays(filter, live[i]) && live[i] !in known then [live[i]] else [])
  {
    assert live[..i + 1][..i] == live[..i];
  }

  lemma NodesOfOther(m: map<SoftBody, Node>, bs: seq<SoftBody>, b: SoftBody, n: Node)
    requires forall x :: x in bs ==> x in m
    requires b !in bs
    ensures NodesOf(m[b := n], bs) == NodesOf(m, bs)
  {
  }

  lemma NodesOfAppend(m: map<SoftBody, Node>, bs: seq<SoftBody>, b: SoftBody, n: Node)
    requires forall x :: x in bs ==> x in m
    requires b !in bs
    ensures NodesOf(m[b := n], bs + [b]) == NodesOf(m, bs) + [n]
  {
  }

  lemma InjectiveUpdate(m: map<SoftBody, Node>, b: SoftBody, n: Node)
    requires Injective(m) && b !in m
    requires forall x :: x in m ==> m[x] != n
    ensures Injective(m[b := n])
  {
  }

  /**
   * What the first pass of the reconciliation has established after the
   * first `i` live bodies: `shown` maps exactly the displayed ones, reusing
   * the node of `before` where there was one, and `rest` is what remains of
   * `before`.
   */
  ghost predicate Synced(live: seq<SoftBody>, i: nat, filter: Filter, before: map<SoftBody, Node>,
                         shown: map<SoftBody, Node>, rest: map<SoftBody, Node>)
    requires i <= |live|
  {
    && shown.Keys == DisplayedBodies(live[..i], filter)
    && rest.Keys == before.Keys - shown.Keys
    && (forall b :: b in rest ==> rest[b] == before[b])
    && (forall b :: b in shown && b in before ==> shown[b] == before[b])
    && (forall b :: b in shown && b !in before ==> shown[b] !in before.Values)
    && Injective(shown)
  }

  /** One step of the first pass keeps Synced. */
  lemma SyncedStep(live: seq<SoftBody>, i: nat, filter: Filter, before: map<SoftBody, Node>,
                   shown: map<SoftBody, Node>, rest: map<SoftBody, Node>,
                   shown': map<SoftBody, Node>, rest': map<SoftBody, Node>)
    requires i < |live| && Distinct(live) && Injective(before)
    requires Synced(live, i, filter, before, shown, rest)
    requires !Displays(filter, live[i]) ==> shown' == shown && rest' == rest
    requires Displays(filter, live[i]) ==>
               && live[i] in shown'
               && shown' == shown[live[i] := shown'[live[i]]]
               && rest' == rest - {live[i]}
               && (live[i] in rest ==> shown'[live[i]] == rest[live[i]])
               && (live[i] !in rest ==> shown'[live[i]] !in before.Values && shown'[live[i]] !in shown.Values)
    ensures Synced(live, i + 1, filter, before, shown', rest')
  {
    var b := live[i];
    DisplayedStep(live, i, filter);
    assert b !in live[..i];
    if Displays(filter, b) {
      var n := shown'[b];
      forall x | x in shown
        ensures shown[x] != n
      {
        if b in rest {
          assert x != b;
          if x in before {
            assert shown[x] == before[x] && n == before[b];
          } else {
            assert n == before[b] && n in before.Values;
          }
        } else {
          assert shown[x] in shown.Values;
        }
      }
      InjectiveUpdate(shown, b, n);
    }
  }

  /** A list whose displayed bodies are all known brings no newcomers. */
  lemma {:induction false} NoNewcomers(live: seq<SoftBody>, filter: Filter, known: set<SoftBody>)
    requires DisplayedBodies(live, filter) <= known
    ensures Newcomers(live, filter, known) == []
  {
    if live != [] {
      var init := live[..|live| - 1];
      assert DisplayedBodies(init, filter) <= DisplayedBodies(live, filter);
      NoNewcomers(init, filter, known);
    }
  }

  /** Every displayed body of the list that is not known is a newcomer. */
  lemma {:induction false} NewcomersComplete(live: seq<SoftBody>, filter: Filter, known: set<SoftBody>, b: SoftBody)
    requires b in live && Displays(filter, b) && b !in known
    ensures b in Newcomers(live, filter, known)
  {
    var init := live[..|live| - 1];
    if b != live[|live| - 1] {
      assert live == init + [live[|live| - 1]];
      NewcomersComplete(init, filter, known, b);
    }
  }

  /** Nothing is left over when every old body is kept. */
  lemma NoLeftovers(oldMap: map<SoftBody, Node>, kept: set<SoftBody>)
    requires oldMap.Keys <= kept
    ensures Leftovers(oldMap, kept) == {}
  {
  }

  /** A mapped body that the filter no longer displays loses its node, even while it is live. */
  lemma FilteredOutDetached(oldMap: map<SoftBody, Node>, live: seq<SoftBody>, filter: Filter, b: SoftBody)
    requires b in oldMap && !Displays(filter, b)
    ensures b !in DisplayedBodies(live, filter)
    ensures oldMap[b] in Leftovers(oldMap, DisplayedBodies(live, filter))
  {
  }

  /** Every node of `m` is among `children`. */
  predicate Attached(m: map<SoftBody, Node>, children: seq<object>)
  {
    forall b :: b in m ==> m[b] in children
  }

  /**
   * The reconciliation keeps every mapped node attached to the root: a kept
   * node is no leftover, since no two bodies share a node, and every new
   * body is a newcomer, whose node is appended.
   */
  lemma ReconciledAttached(oldMap: map<SoftBody, Node>, newMap: map<SoftBody, Node>,
                           children: seq<object>, live: seq<SoftBody>, filter: Filter)
    requires Injective(oldMap) && Attached(oldMap, children)
    requires newMap.Keys == DisplayedBodies(live, filter)
    requires forall b :: b in newMap && b in oldMap ==> newMap[b] == oldMap[b]
    ensures Attached(newMap, Without(children, Leftovers(oldMap, newMap.Keys))
                             + NodesOf(newMap, Newcomers(live, filter, oldMap.Keys)))
  {
    var newcomers := Newcomers(live, filter, oldMap.Keys);
    var kept := Without(children, Leftovers(oldMap, newMap.Keys));
    forall b | b in newMap
      ensures newMap[b] in kept + NodesOf(newMap, newcomers)
    {
      if b in oldMap {
        assert oldMap[b] !in Leftovers(oldMap, newMap.Keys);
        assert newMap[b] in kept;
      } else {
        NewcomersComplete(live, filter, oldMap.Keys, b);
        var k :| 0 <= k < |newcomers| && newcomers[k] == b;
        assert NodesOf(newMap, newcomers)[k] == newMap[b];
      }
    }
  }

  /** Every body of `m` that `before` does not map has a node with its own debug control. */
  ghost predicate ControlsAdded(m: map<SoftBody, Node>, before: map<SoftBody, Node>)
    reads set b | b in m :: m[b]
  {
    forall b :: b in m && b !in before ==> m[b].controls == [SoftBodyDebugControl(b)]
  }

  /**
   * The face material for `numSides` sides once the materials are set up:
   * invisible for none, red wireframe otherwise, culling no faces for two.
   */
  function FaceMaterial(numSides: nat): (r: Material)
    requires numSides < 3
    ensures r.Invisible? <==> numSides == 0
    ensures numSides != 0 ==> r.Wireframe? && r.color == Red && (r.doubleSided <==> numSides == 2)
  {
    if numSides == 0 then Invisible else Wireframe(Red, numSides == 2)
  }

  /** What an update of the app state did, in order. */
  datatype Phase = SoftBodiesSynchronized | BaseStateUpdated(tpf: real)

  class SoftDebugAppState {
    /** the debug root node that visualization nodes are attached to */
    const root: Node
    /**
     * the filter that limits which objects are visualized, as it answers now:
     * the filter object is shared with the caller, so its answers may change
     * between frames
     */
    var filter: Filter
    /** the face materials, by number of sides; None until set up */
    const faceMaterials: array<Option<Material>>
    /** the visualization node of each displayed soft body */
    var softBodies: map<SoftBody, Node>
    /** the phases of every update so far */
    ghost var phases: seq<Phase>

    ghost predicate Valid()
      reads this
    {
      faceMaterials.Length == 3 && Injective(softBodies)
    }

    constructor (filter: Filter)
      ensures Valid() && fresh(root) && fresh(faceMaterials)
      ensures this.filter == filter
      ensures softBodies == map[] && phases == []
      ensures root.children == [] && root.controls == []
      ensures faceMaterials[..] == [None, None, None]
    {
      root := new Node();
      this.filter := filter;
      faceMaterials := new Option<Material>[3](_ => None);
      softBodies := map[];
      phases := [];
    }

    /** The filter object starts answering as `f` does. */
    method ChangeFilter(f: Filter)
      modifies this`filter
      ensures filter == f
    {
      filter := f;
    }

    /** The face materials have been set up. */
    ghost predicate FacesSetUp()
      reads this, faceMaterials
    {
      faceMaterials[..] == [Some(FaceMaterial(0)), Some(FaceMaterial(1)), Some(FaceMaterial(2))]
    }

    /** Create the three face materials. */
    method SetupFaceMaterials()
      requires Valid()
      modifies faceMaterials
      ensures Valid() && FacesSetUp()
    {
      faceMaterials[0] := Some(Invisible);
      faceMaterials[1] := Some(Wireframe(Red, false));
      faceMaterials[2] := Some(Wireframe(Red, true));
    }

    /** The face material for `numSides` sides, which must be set up already. */
    function GetFaceMaterial(numSides: int): (m: Material)
      requires Valid() && 0 <= numSides < 3 && faceMaterials[numSides].Some?
      reads this, faceMaterials
      ensures faceMaterials[numSides] == Some(m)
      ensures FacesSetUp() ==> m == FaceMaterial(numSides)
    {
      faceMaterials[numSides].value
    }

    /** Update before rendering: reconcile the soft bodies, then do the base update. */
    method Update(live: seq<SoftBody>, tpf: real)
      requires Valid() && Distinct(live)
      modifies this`softBodies, this`phases, root`children
      ensures Valid()
      ensures softBodies.Keys == DisplayedBodies(live, filter)
      ensures forall b :: b in softBodies && b in old(softBodies) ==> softBodies[b] == old(softBodies)[b]
      ensures forall b :: b in softBodies && b !in old(softBodies) ==>
                fresh(softBodies[b]) && softBodies[b].controls == [SoftBodyDebugControl(b)]
      ensures root.children ==
                Without(old(root.children), Leftovers(old(softBodies), softBodies.Keys))
                + NodesOf(softBodies, Newcomers(live, filter, old(softBodies).Keys))
      ensures phases == old(phases) + [SoftBodiesSynchronized, BaseStateUpdated(tpf)]
      ensures Attached(old(softBodies), old(root.children)) ==> Attached(softBodies, root.children)
    {
      UpdateSoftBodies(live);
      if Attached(old(softBodies), old(root.children)) {
        ReconciledAttached(old(softBodies), softBodies, old(root.children), live, filter);
      }
      BaseUpdate(tpf);
    }

    /** The update of the base debug app state, recorded as a phase. */
    method BaseUpdate(tpf: real)
      modifies this`phases
      ensures phases == old(phases) + [BaseStateUpdated(tpf)]
    {
      phases := phases + [BaseStateUpdated(tpf)];
    }

    /** Rebuild the map from soft bodies to nodes from the live list. */
    method UpdateSoftBodies(live: seq<SoftBody>)
      requires Valid() && Distinct(live)
      modifies this`softBodies, this`phases, root`children
      ensures Valid()
      ensures softBodies.Keys == DisplayedBodies(live, filter)
      ensures forall b :: b in softBodies && b in old(softBodies) ==> softBodies[b] == old(softBodies)[b]
      ensures forall b :: b in softBodies && b !in old(softBodies) ==>
                fresh(softBodies[b]) && softBodies[b].controls == [SoftBodyDebugControl(b)]
      ensures root.children ==
                Without(old(root.children), Leftovers(old(softBodies), softBodies.Keys))
                + NodesOf(softBodies, Newcomers(live, filter, old(softBodies).Keys))
      ensures phases == old(phases) + [SoftBodiesSynchronized]
      ensures old(softBodies).Keys == DisplayedBodies(live, filter) ==>
                softBodies == old(softBodies) && root.children == old(root.children)
    {
      var leftover := ShowDisplayed(live);
      ghost var synced := softBodies;
      ghost var shown := root.children;
      ghost var created := NodesOf(softBodies, Newcomers(live, filter, old(softBodies).Keys));
      assert leftover.Values == Leftovers(old(softBodies), softBodies.Keys);
      DetachLeftovers(leftover.Values);
      WithoutAppend(old(root.children), created, leftover.Values);
      WithoutNothing(created, leftover.Values);
      phases := phases + [SoftBodiesSynchronized];
      assert softBodies == synced;
      if old(softBodies).Keys == DisplayedBodies(live, filter) {
        NoNewcomers(live, filter, old(softBodies).Keys);
        NoLeftovers(old(softBodies), softBodies.Keys);
        WithoutNothing(old(root.children), {});
      }
    }

    /**
     * The first pass of UpdateSoftBodies: map each displayed live body to a
     * node, and return what is left of the old map.
     */
    method ShowDisplayed(live: seq<SoftBody>) returns (leftover: map<SoftBody, Node>)
      requires Valid() && Distinct(live)
      modifies this`softBodies, root`children
      ensures Valid()
      ensures softBodies.Keys == DisplayedBodies(live, filter)
      ensures leftover.Keys == old(softBodies).Keys - softBodies.Keys
      ensures forall b :: b in leftover ==> leftover[b] == old(softBodies)[b]
      ensures forall b :: b in softBodies && b in old(softBodies) ==> softBodies[b] == old(softBodies)[b]
      ensures forall b :: b in softBodies && b !in old(softBodies) ==>
                fresh(softBodies[b]) && softBodies[b].controls == [SoftBodyDebugControl(b)]
      ensures root.children == old(root.children) + NodesOf(softBodies, Newcomers(live, filter, old(softBodies).Keys))
    {
      leftover := softBodies;
      softBodies := map[];
      ghost var created: seq<SoftBody> := [];
      var i := 0;
      while i < |live|
        invariant 0 <= i <= |live|
        invariant Synced(live, i, filter, old(softBodies), softBodies, leftover)
        invariant forall b :: b in softBodies && b !in old(softBodies) ==> fresh(softBodies[b])
        invariant ControlsAdded(softBodies, old(softBodies))
        invariant created == Newcomers(live[..i], filter, old(softBodies).Keys)
        invariant forall b :: b in created ==> b in softBodies
        invariant root.children == old(root.children) + NodesOf(softBodies, created)
      {
        leftover, created := ShowLiveBody(live, i, old(softBodies), old(root.children), leftover, created);
        i := i + 1;
      }
      assert live[..i] == live;
    }

    /**
     * The body of the first pass for the live body `live[i]`: if the filter
     * displays it, give it its node.
     */
    method ShowLiveBody(live: seq<SoftBody>, i: nat, ghost before: map<SoftBody, Node>,
                        ghost children0: seq<object>, leftover: map<SoftBody, Node>,
                        ghost created: seq<SoftBody>)
      returns (rest: map<SoftBody, Node>, ghost created': seq<SoftBody>)
      requires i < |live| && Distinct(live) && Injective(before)
      requires Synced(live, i, filter, before, softBodies, leftover)
      requires created == Newcomers(live[..i], filter, before.Keys)
      requires forall b :: b in created ==> b in softBodies
      requires root.children == children0 + NodesOf(softBodies, created)
      requires ControlsAdded(softBodies, before)
      modifies this`softBodies, root`children
      ensures Synced(live, i + 1, filter, before, softBodies, rest)
      ensures created' == Newcomers(live[..i + 1], filter, before.Keys)
      ensures forall b :: b in created' ==> b in softBodies
      ensures root.children == children0 + NodesOf(softBodies, created')
      ensures forall b :: b in old(softBodies) ==> b in softBodies && softBodies[b] == old(softBodies)[b]
      ensures forall b :: b in softBodies && b !in old(softBodies) ==> b == live[i]
      ensures live[i] in softBodies && live[i] !in before ==> fresh(softBodies[live[i]])
      ensures ControlsAdded(softBodies, before)
    {
      var b := live[i];
      NewcomersStep(live, i, filter, before.Keys);
      assert b !in live[..i];
      assert b !in softBodies;
      ghost var shown0 := softBodies;
      ghost var nodes0 := NodesOf(softBodies, created);
      ghost var children1 := root.children;
      created' := created;
      if Displays(filter, b) {
        var isNew;
        rest, isNew := ShowBody(b, leftover, before);
        SyncedStep(live, i, filter, before, shown0, leftover, softBodies, rest);
        if isNew {
          NodesOfAppend(shown0, created, b, softBodies[b]);
          created' := created + [b];
          assert root.children == children1 + [softBodies[b]];
          assert root.children == children0 + NodesOf(softBodies, created') by {
            assert NodesOf(softBodies, created') == nodes0 + [softBodies[b]];
          }
        } else {
          NodesOfOther(shown0, created, b, softBodies[b]);
        }
      } else {
        rest := leftover;
        SyncedStep(live, i, filter, before, softBodies, leftover, softBodies, leftover);
      }
    }

    /**
     * Give a displayed body its node: the one it had in `oldMap`, which is
     * taken out of `oldMap`, or else a new node attached to the debug root
     * with a new soft-body debug control.
     */
    method ShowBody(b: SoftBody, oldMap: map<SoftBody, Node>, ghost before: map<SoftBody, Node>)
      returns (rest: map<SoftBody, Node>, isNew: bool)
      requires b !in softBodies && (b in oldMap <==> b in before)
      requires ControlsAdded(softBodies, before)
      modifies this`softBodies, root`children
      ensures isNew <==> b !in oldMap
      ensures b in softBodies && softBodies == old(softBodies)[b := softBodies[b]]
      ensures rest == oldMap - {b}
      ensures !isNew ==> softBodies[b] == oldMap[b] && root.children == old(root.children)
      ensures isNew ==> fresh(softBodies[b]) && softBodies[b].controls == [SoftBodyDebugControl(b)]
      ensures isNew ==> softBodies[b] !in old(softBodies).Values && softBodies[b] !in oldMap.Values
      ensures isNew ==> root.children == old(root.children) + [softBodies[b]]
      ensures ControlsAdded(softBodies, before)
    {
      isNew := b !in oldMap;
      var node: Node;
      if !isNew {
        node := oldMap[b];
      } else {
        node := new Node();
        assert node !in root.children;
        root.AttachChild(node);
        node.AddControl(SoftBodyDebugControl(b));
      }
      rest := oldMap - {b};
      softBodies := softBodies[b := node];
    }

    /** Detach every node of `leftovers` from the debug root. */
    method DetachLeftovers(leftovers: set<Node>)
      modifies root`children
      ensures root.children == Without(old(root.children), leftovers)
    {
      var rest := leftovers;
      WithoutNothing(root.children, leftovers - rest);
      while rest != {}
        invariant rest <= leftovers
        invariant root.children == Without(old(root.children), leftovers - rest)
        decreases rest
      {
        var node :| node in rest;
        root.DetachChild(node);
        WithoutTwice(old(root.children), leftovers - rest, {node});
        assert (leftovers - rest) + {node} == leftovers - (rest - {node});
        rest := rest - {node};
      }
      assert leftovers - rest == leftovers;
    }
  }
}
