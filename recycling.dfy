/** Host-node recycling in src/index.js (`updateNodes`) and src/index.hooks.js
    (the `useLayoutEffect` body), and the portal list both build in `render`.
    The discovered stubs are compared with the previous `key -> node` map: a
    previous node with the same tag is put back in the new stub's place, any
    other stub is accepted as new and marks the set as changed. The class
    version first skips a stub that already is the previous node. */
module Recycling {
  import opened Common
  import opened Dom
  import opened Substitution

  /** Where recycling stands after some of the discovered nodes: the new
      `nextHostNodes`, the `hostsChanged` flag, and the `replaceChild` calls
      made so far as (discovered node, previous node) pairs. */
  datatype Recycled = Recycled(next: map<string, Node>, changed: bool, swaps: seq<(Node, Node)>)

  const Start := Recycled(map[], false, [])

  /** A previous node exists for the node's key and has the node's tag. */
  predicate Reusable(prev: map<string, Node>, node: Node)
  {
    DatasetKey(node) in prev && prev[DatasetKey(node)].tag == node.tag
  }

  /** One discovered node in src/index.js. */
  function ClassStep(prev: map<string, Node>, r: Recycled, node: Node): Recycled
  {
    var key := DatasetKey(node);
    if key in prev && prev[key] == node then r
    else if Reusable(prev, node) then
      r.(next := r.next[key := prev[key]], swaps := r.swaps + [(node, prev[key])])
    else
      r.(next := r.next[key := node], changed := true)
  }

  /** One discovered node in src/index.hooks.js: there is no identity check. */
  function HooksStep(prev: map<string, Node>, r: Recycled, node: Node): Recycled
  {
    var key := DatasetKey(node);
    if Reusable(prev, node) then
      r.(next := r.next[key := prev[key]], swaps := r.swaps + [(node, prev[key])])
    else
      r.(next := r.next[key := node], changed := true)
  }

  function ClassRecycle(prev: map<string, Node>, found: seq<Node>): Recycled
    decreases |found|
  {
    if found == [] then Start
    else ClassStep(prev, ClassRecycle(prev, found[..|found| - 1]), found[|found| - 1])
  }

  function HooksRecycle(prev: map<string, Node>, found: seq<Node>): Recycled
    decreases |found|
  {
    if found == [] then Start
    else HooksStep(prev, HooksRecycle(prev, found[..|found| - 1]), found[|found| - 1])
  }

  /** One more discovered node is one more step. */
  lemma RecycleSnoc(prev: map<string, Node>, found: seq<Node>, i: nat)
    requires i < |found|
    ensures ClassRecycle(prev, found[..i + 1]) == ClassStep(prev, ClassRecycle(prev, found[..i]), found[i])
    ensures HooksRecycle(prev, found[..i + 1]) == HooksStep(prev, HooksRecycle(prev, found[..i]), found[i])
  {
    assert found[..i + 1][..i] == found[..i];
  }

  /** The final `hostsChanged`: the loop's flag, or a previous map whose size
      differs from the number of host elements of this pass. */
  function HostsChanged(prev: map<string, Node>, r: Recycled, hostCount: nat): bool
  {
    r.changed || |prev| != hostCount
  }

  /** The `hostNodes` state after the commit: replaced only when changed. */
  function Committed(prev: map<string, Node>, r: Recycled, hostCount: nat): (m: map<string, Node>)
    ensures HostsChanged(prev, r, hostCount) ==> m == r.next
    ensures !HostsChanged(prev, r, hostCount) ==> m == prev
  {
    if HostsChanged(prev, r, hostCount) then r.next else prev
  }

  predicate DistinctKeys(found: seq<Node>)
  {
    forall i, j :: 0 <= i < j < |found| ==> DatasetKey(found[i]) != DatasetKey(found[j])
  }

  /** The keys of the discovered nodes. */
  function KeysOf(found: seq<Node>): (k: set<string>)
    ensures forall i :: 0 <= i < |found| ==> DatasetKey(found[i]) in k
    decreases |found|
  {
    if found == [] then {} else KeysOf(found[..|found| - 1]) + {DatasetKey(found[|found| - 1])}
  }

  /** The keys of the discovered nodes that are not already the previous node. */
  function ChangedKeysOf(prev: map<string, Node>, found: seq<Node>): (k: set<string>)
    ensures forall i :: 0 <= i < |found| && !Identical(prev, found[i]) ==> DatasetKey(found[i]) in k
    decreases |found|
  {
    if found == [] then {}
    else
      var last := found[|found| - 1];
      ChangedKeysOf(prev, found[..|found| - 1]) + (if Identical(prev, last) then {} else {DatasetKey(last)})
  }

  /** The node both versions record for a discovered node they do not skip. */
  function Chosen(prev: map<string, Node>, node: Node): (n: Node)
    ensures n.tag == node.tag
  {
    if Reusable(prev, node) then prev[DatasetKey(node)] else node
  }

  /** A discovered node that already is the previous node for its key. */
  predicate Identical(prev: map<string, Node>, node: Node)
  {
    DatasetKey(node) in prev && prev[DatasetKey(node)] == node
  }

  /** Some discovered node cannot reuse a previous node. */
  predicate AnyNotReusable(prev: map<string, Node>, found: seq<Node>)
  {
    exists i :: 0 <= i < |found| && !Reusable(prev, found[i])
  }

  lemma AnyNotReusableSnoc(prev: map<string, Node>, found: seq<Node>)
    requires found != []
    ensures AnyNotReusable(prev, found) <==>
            AnyNotReusable(prev, found[..|found| - 1]) || !Reusable(prev, found[|found| - 1])
  {
    var init := found[..|found| - 1];
    if AnyNotReusable(prev, found) {
      var i :| 0 <= i < |found| && !Reusable(prev, found[i]);
      if i < |init| { assert init[i] == found[i]; }
    }
    if AnyNotReusable(prev, init) {
      var i :| 0 <= i < |init| && !Reusable(prev, init[i]);
      assert found[i] == init[i];
    }
  }

  lemma DistinctKeysInit(found: seq<Node>)
    requires DistinctKeys(found) && found != []
    ensures DistinctKeys(found[..|found| - 1])
    ensures forall i :: 0 <= i < |found| - 1 ==> DatasetKey(found[i]) != DatasetKey(found[|found| - 1])
  {
  }

  /** The hooks version records every discovered key, with the previous node
      when it has the same tag and the discovered node otherwise; the flag is
      raised exactly when some discovered node cannot reuse a previous one. */
  lemma {:induction false} HooksRecycleSpec(prev: map<string, Node>, found: seq<Node>)
    requires DistinctKeys(found)
    ensures HooksRecycle(prev, found).next.Keys == KeysOf(found)
    ensures forall i :: 0 <= i < |found| ==>
              HooksRecycle(prev, found).next[DatasetKey(found[i])] == Chosen(prev, found[i])
    ensures HooksRecycle(prev, found).changed <==> AnyNotReusable(prev, found)
    decreases |found|
  {
    if found != [] {
      var init, last := found[..|found| - 1], found[|found| - 1];
      DistinctKeysInit(found);
      HooksRecycleSpec(prev, init);
      AnyNotReusableSnoc(prev, found);
      var r0, r := HooksRecycle(prev, init), HooksRecycle(prev, found);
      assert r.next == r0.next[DatasetKey(last) := Chosen(prev, last)];
      assert r.changed == (r0.changed || !Reusable(prev, last));
      forall i | 0 <= i < |found| ensures r.next[DatasetKey(found[i])] == Chosen(prev, found[i]) {
        if i < |init| {
          assert found[i] == init[i];
        }
      }
    }
  }

  /** The class version records only the keys whose node is not already the
      previous one, with the same choice as the hooks version; identical nodes
      never raise the flag. */
  lemma {:induction false} ClassRecycleSpec(prev: map<string, Node>, found: seq<Node>)
    requires DistinctKeys(found)
    ensures ClassRecycle(prev, found).next.Keys == ChangedKeysOf(prev, found)
    ensures forall i :: 0 <= i < |found| && !Identical(prev, found[i]) ==>
              ClassRecycle(prev, found).next[DatasetKey(found[i])] == Chosen(prev, found[i])
    ensures ClassRecycle(prev, found).changed <==> AnyNotReusable(prev, found)
    decreases |found|
  {
    if found != [] {
      var init, last := found[..|found| - 1], found[|found| - 1];
      DistinctKeysInit(found);
      ClassRecycleSpec(prev, init);
      AnyNotReusableSnoc(prev, found);
      var r0, r := ClassRecycle(prev, init), ClassRecycle(prev, found);
      if Identical(prev, last) {
        assert r == r0;
      } else {
        assert r.next == r0.next[DatasetKey(last) := Chosen(prev, last)];
        assert r.changed == (r0.changed || !Reusable(prev, last));
      }
      forall i | 0 <= i < |found| && !Identical(prev, found[i])
        ensures r.next[DatasetKey(found[i])] == Chosen(prev, found[i])
      {
        if i < |init| {
          assert found[i] == init[i];
        }
      }
    }
  }

  /** Every node put back is the previous node for the discovered key, and has
      the discovered node's tag. */
  lemma {:induction false} SwapsRestorePrevious(prev: map<string, Node>, found: seq<Node>)
    ensures forall s :: s in ClassRecycle(prev, found).swaps ==>
              DatasetKey(s.0) in prev && s.1 == prev[DatasetKey(s.0)] && s.1.tag == s.0.tag && s.0 != s.1
    ensures forall s :: s in HooksRecycle(prev, found).swaps ==>
              DatasetKey(s.0) in prev && s.1 == prev[DatasetKey(s.0)] && s.1.tag == s.0.tag
    decreases |found|
  {
    if found != [] {
      SwapsRestorePrevious(prev, found[..|found| - 1]);
    }
  }

  /** When no discovered node is already a previous node (the markup was
      written afresh), both versions decide the same. */
  lemma {:induction false} FreshNodesSameDecision(prev: map<string, Node>, found: seq<Node>)
    requires forall i :: 0 <= i < |found| ==> !Identical(prev, found[i])
    ensures ClassRecycle(prev, found) == HooksRecycle(prev, found)
    decreases |found|
  {
    if found != [] {
      FreshNodesSameDecision(prev, found[..|found| - 1]);
    }
  }

  /** The hooks version's guarantee: after the commit a discovered key is
      mounted on the previous node exactly when that node has the same tag, and
      on the discovered node otherwise. */
  lemma HooksMountPoints(prev: map<string, Node>, found: seq<Node>, hostCount: nat)
    requires DistinctKeys(found)
    ensures var r := HooksRecycle(prev, found);
            forall i :: 0 <= i < |found| ==>
              DatasetKey(found[i]) in Committed(prev, r, hostCount) &&
              Committed(prev, r, hostCount)[DatasetKey(found[i])] == Chosen(prev, found[i])
  {
    HooksRecycleSpec(prev, found);
    var r := HooksRecycle(prev, found);
    if !HostsChanged(prev, r, hostCount) {
      assert !AnyNotReusable(prev, found);
    }
  }

  /** The stubs found in the wrapper carry, in document order, the keys of the
      pass's host elements: what the browser builds from markup whose stubs
      the pass wrote. */
  predicate StubsMatch(found: seq<Node>, hosts: seq<HostElement>)
  {
    |found| == |hosts| && forall i :: 0 <= i < |found| ==> DatasetKey(found[i]) == hosts[i].key
  }

  lemma StubsDistinct(found: seq<Node>, hosts: seq<HostElement>)
    requires StubsMatch(found, hosts) && UniqueKeys(hosts)
    ensures DistinctKeys(found)
  {
  }

  /** After the hooks version's layout effect, the next render has a portal
      for every host element, mounted on the node recycling chose for it. */
  lemma HooksPortalsCoverHosts(prev: map<string, Node>, found: seq<Node>, hosts: seq<HostElement>)
    requires StubsMatch(found, hosts) && UniqueKeys(hosts)
    ensures var m := Committed(prev, HooksRecycle(prev, found), |hosts|);
            var ps := Portals(false, hosts, m);
            forall i :: 0 <= i < |hosts| ==> ps[i] == Some(Portal(hosts[i].key, Chosen(prev, found[i]), hosts[i].value))
  {
    StubsDistinct(found, hosts);
    HooksMountPoints(prev, found, |hosts|);
  }

  /** The class version gives the same guarantee when the stubs are all new
      (the markup was written afresh) or all already recorded (the markup was
      left alone and the number of host elements is unchanged). */
  lemma ClassPortalsCoverHosts(prev: map<string, Node>, found: seq<Node>, hosts: seq<HostElement>)
    requires StubsMatch(found, hosts) && UniqueKeys(hosts)
    requires (forall i :: 0 <= i < |found| ==> !Identical(prev, found[i])) ||
             ((forall i :: 0 <= i < |found| ==> Identical(prev, found[i])) && |prev| == |hosts|)
    ensures var m := Committed(prev, ClassRecycle(prev, found), |hosts|);
            var ps := Portals(false, hosts, m);
            forall i :: 0 <= i < |hosts| ==> ps[i] == Some(Portal(hosts[i].key, Chosen(prev, found[i]), hosts[i].value))
  {
    StubsDistinct(found, hosts);
    if forall i :: 0 <= i < |found| ==> !Identical(prev, found[i]) {
      FreshNodesSameDecision(prev, found);
      HooksMountPoints(prev, found, |hosts|);
    } else {
      ClassRecycleSpec(prev, found);
      assert !AnyNotReusable(prev, found);
    }
  }

  /** In the class version the identity check leaves a key out of
      `nextHostNodes`; if another key changes in the same pass, the committed
      map loses the unchanged key. */
  lemma ClassDropsIdenticalKey()
    ensures var a := Node(1, "SPAN", "data-template-id=\"1\"", Some("a:1"));
            var b := Node(2, "SPAN", "data-template-id=\"1\"", Some("b:1"));
            var b' := Node(3, "DIV", "data-template-id=\"1\"", Some("b:1"));
            var prev := map["a:1" := a, "b:1" := b];
            var r := ClassRecycle(prev, [a, b']);
            && Committed(prev, r, 2) == map["b:1" := b']
            && Committed(prev, HooksRecycle(prev, [a, b']), 2) == map["a:1" := a, "b:1" := b']
  {
    var a := Node(1, "SPAN", "data-template-id=\"1\"", Some("a:1"));
    var b := Node(2, "SPAN", "data-template-id=\"1\"", Some("b:1"));
    var b' := Node(3, "DIV", "data-template-id=\"1\"", Some("b:1"));
    var prev := map["a:1" := a, "b:1" := b];
    assert [a, b'][..1] == [a];
    assert [a][..0] == [];
    assert ClassRecycle(prev, [a]) == Start;
    assert ClassRecycle(prev, [a, b']) == Recycled(map["b:1" := b'], true, []);
    assert HooksRecycle(prev, [a]) == Recycled(map["a:1" := a], false, [(a, a)]);
    assert HooksRecycle(prev, [a, b']) == Recycled(map["a:1" := a, "b:1" := b'], true, [(a, a)]);
  }

  // ---------------------------------------------------------------------------
  // The DOM after recycling.

  /** The `replaceChild(prevNode, node)` calls, in order. */
  function ApplySwaps(nodes: seq<Node>, swaps: seq<(Node, Node)>): seq<Node>
    decreases |swaps|
  {
    if swaps == [] then nodes
    else
      var s := swaps[|swaps| - 1];
      ReplaceChild(ApplySwaps(nodes, swaps[..|swaps| - 1]), s.1, s.0)
  }

  /** If the discovered nodes are in the DOM and the previous nodes are all
      different from each other and from every discovered node, every previous
      node ends up in the DOM and every replaced node is gone. */
  lemma {:induction false} SwapsPlacePrevious(nodes: seq<Node>, swaps: seq<(Node, Node)>)
    requires forall i :: 0 <= i < |swaps| ==> swaps[i].0 in nodes
    requires forall i, j :: 0 <= i < j < |swaps| ==> swaps[i].0 != swaps[j].0 && swaps[i].1 != swaps[j].1
    requires forall i, j :: 0 <= i < |swaps| && 0 <= j < |swaps| ==> swaps[i].1 != swaps[j].0
    ensures forall i :: 0 <= i < |swaps| ==>
              swaps[i].1 in ApplySwaps(nodes, swaps) && swaps[i].0 !in ApplySwaps(nodes, swaps)
    decreases |swaps|
  {
    if swaps != [] {
      var init, s := swaps[..|swaps| - 1], swaps[|swaps| - 1];
      assert forall i :: 0 <= i < |init| ==> init[i] == swaps[i];
      SwapsPlacePrevious(nodes, init);
      SwapsKeepOthers(nodes, init, s.0);
      SwapKeepsPlaced(ApplySwaps(nodes, init), init, s);
    }
  }

  /** Swaps leave every node they do not name where it was. */
  lemma {:induction false} SwapsKeepOthers(nodes: seq<Node>, swaps: seq<(Node, Node)>, n: Node)
    requires n in nodes
    requires forall i :: 0 <= i < |swaps| ==> n != swaps[i].0 && n != swaps[i].1
    ensures n in ApplySwaps(nodes, swaps)
    decreases |swaps|
  {
    if swaps != [] {
      var init := swaps[..|swaps| - 1];
      assert forall i :: 0 <= i < |init| ==> init[i] == swaps[i];
      SwapsKeepOthers(nodes, init, n);
    }
  }

  /** One more swap keeps the earlier ones in place. */
  lemma SwapKeepsPlaced(before: seq<Node>, init: seq<(Node, Node)>, s: (Node, Node))
    requires s.0 in before && s.0 != s.1
    requires forall i :: 0 <= i < |init| ==>
               init[i].1 in before && init[i].0 !in before && init[i].1 != s.0 && init[i].1 != s.1 && init[i].0 != s.1
    ensures var after := ReplaceChild(before, s.1, s.0);
            && s.1 in after && s.0 !in after
            && forall i :: 0 <= i < |init| ==> init[i].1 in after && init[i].0 !in after
  {
  }

  // ---------------------------------------------------------------------------
  // Portals.

  /** `createPortal(value, node)` in a fragment keyed by `key`. */
  datatype Portal = Portal(key: string, node: Node, value: Value)

  function PortalList(hostElements: seq<HostElement>, hostNodes: map<string, Node>): (r: seq<Option<Portal>>)
    ensures |r| == |hostElements|
    ensures forall i :: 0 <= i < |r| ==> (r[i].Some? <==> hostElements[i].key in hostNodes)
    ensures forall i :: 0 <= i < |r| && r[i].Some? ==>
              r[i].value == Portal(hostElements[i].key, hostNodes[hostElements[i].key], hostElements[i].value)
  {
    if hostElements == [] then []
    else
      var h := hostElements[0];
      [if h.key in hostNodes then Some(Portal(h.key, hostNodes[h.key], h.value)) else None]
      + PortalList(hostElements[1..], hostNodes)
  }

  /** The portal `useMemo` / the `portals` of `render`: nothing on the initial
      render; afterwards one entry per host element, in order, present exactly
      when a node is known for its key. */
  function Portals(initialRender: bool, hostElements: seq<HostElement>, hostNodes: map<string, Node>)
    : (r: seq<Option<Portal>>)
    ensures initialRender ==> r == []
    ensures !initialRender ==> r == PortalList(hostElements, hostNodes)
  {
    if initialRender then [] else PortalList(hostElements, hostNodes)
  }

  // ---------------------------------------------------------------------------
  // What `render` returns, and the stubs recycling visits.

  /** The wrapper element: markup for `dangerouslySetInnerHTML`, or (server,
      with renderable values) the element tree parsed from markup. */
  datatype Wrapper = InnerHtml(html: string) | Children(parsedFrom: string)

  function WrapperOf(content: Content): (w: Wrapper)
    ensures content.Html? <==> w.InnerHtml?
  {
    match content
    case Html(h) => InnerHtml(h)
    case Tree(h) => Children(h)
  }

  /** `portals.length ? [wrapper, ...portals] : wrapper` */
  datatype Output = Single(wrapper: Wrapper) | WithPortals(wrapper: Wrapper, portals: seq<Option<Portal>>)

  function Assemble(wrapper: Wrapper, portals: seq<Option<Portal>>): (o: Output)
    ensures o.wrapper == wrapper
    ensures o.Single? <==> portals == []
    ensures o.WithPortals? ==> o.portals == portals
  {
    if |portals| > 0 then WithPortals(wrapper, portals) else Single(wrapper)
  }

  /** The stubs `updateNodes` visits: none when the last render had no host
      element, otherwise the wrapper's elements carrying the instance's
      attribute. */
  function Discovered(nodes: seq<Node>, hostAttribute: string, hosts: seq<HostElement>): (found: seq<Node>)
    ensures hosts == [] ==> found == []
    ensures forall n :: n in found ==> n in nodes && n.scope == hostAttribute
  {
    if |hosts| > 0 then QueryScope(nodes, hostAttribute) else []
  }

  /** Two instances whose attributes came from different ids never visit the
      same stub, whatever the wrapper holds. */
  lemma InstancesDisjoint(nodes: seq<Node>, a: nat, b: nat, hostsA: seq<HostElement>, hostsB: seq<HostElement>)
    requires a != b
    ensures forall n :: n in Discovered(nodes, IdAttribute(a), hostsA) ==> n !in Discovered(nodes, IdAttribute(b), hostsB)
  {
    IdAttributeInjective(a, b);
  }
}
