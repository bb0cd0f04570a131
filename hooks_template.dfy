/** The function component of src/index.hooks.js. Its hook slots become the
    fields of one instance: the `wrapperRef` (whether the wrapper is attached),
    the `hostAttribute` ref, the `hostNodes` state, the memoised substitution
    result with the inputs it was computed from, the `initialRender` flag the
    layout effect's closure captured, and the markup the layout effect last ran
    for. React's scheduling is the caller's: it calls `Render`, then
    `LayoutEffect` at commit, and renders again when the effect reports a state
    change. */
module HooksTemplate {
  import opened Common
  import opened Dom
  import opened Pattern
  import opened Substitution
  import opened Recycling

  /** A `useMemo` entry: the inputs and the `[html, hostElements]` they gave. */
  datatype Memo = Memo(template: string, props: Props, content: Content, hosts: seq<HostElement>)

  function Markup(content: Content): string
  {
    match content
    case Html(h) => h
    case Tree(h) => h
  }

  class Template {
    var attached: bool
    var hostAttribute: string
    var hostNodes: map<string, Node>
    var memo: Option<Memo>
    var renderInitial: bool
    var effectContent: Option<Content>
    const wrapper: Container
    const ids: IdCounter

    /** The memoised host elements come from a pass that wrote their stubs
        with the instance's attribute, so the layout effect always queries a
        non-empty `[data-template-id="N"]` scope. */
    predicate Valid()
      reads this
    {
      memo.Some? && memo.value.hosts != [] ==> hostAttribute != ""
    }

    constructor (ids: IdCounter)
      ensures Valid()
      ensures !attached && hostAttribute == "" && hostNodes == map[]
      ensures memo == None && effectContent == None
      ensures this.ids == ids && fresh(wrapper)
    {
      attached := false;
      hostAttribute := "";
      hostNodes := map[];
      memo := None;
      renderInitial := true;
      effectContent := None;
      wrapper := new Container();
      this.ids := ids;
    }

    /** The component body: the memoised substitution (recomputed only when
        the template or the props differ from the memoised ones), the portal
        list and the wrapper. */
    method Render(template: string, props: Props, browser: bool) returns (out: Output)
      requires Valid()
      modifies this, ids
      ensures Valid()
      ensures var cached := old(memo).Some? && old(memo).value.template == template && old(memo).value.props == props;
              && (cached ==> memo == old(memo) && hostAttribute == old(hostAttribute) && ids.next == old(ids.next))
              && (!cached ==>
                    var p := Run(props, browser, ScopeAfter(old(hostAttribute), old(ids.next)), Tokenize(template));
                    var serverTree := !browser && p.serverStubs > 0;
                    && memo == Some(Memo(template, props,
                                         if serverTree then Tree(p.html) else Html(p.html),
                                         if serverTree then [] else p.hostElements))
                    && (if browser && p.hostElements != [] && old(hostAttribute) == ""
                        then hostAttribute == IdAttribute(old(ids.next)) && ids.next == old(ids.next) + 1
                        else hostAttribute == old(hostAttribute) && ids.next == old(ids.next)))
      ensures memo.Some? && memo.value.template == template && memo.value.props == props
      ensures renderInitial == !attached
      ensures out == Assemble(WrapperOf(memo.value.content), Portals(!attached, memo.value.hosts, hostNodes))
      ensures attached == old(attached) && hostNodes == old(hostNodes) && effectContent == old(effectContent)
    {
      var initialRender := !attached;
      renderInitial := initialRender;
      if !(memo.Some? && memo.value.template == template && memo.value.props == props) {
        var content, hosts, attribute := Substitute(template, props, browser, hostAttribute, ids);
        hostAttribute := attribute;
        memo := Some(Memo(template, props, content, hosts));
      }
      var portals := Portals(initialRender, memo.value.hosts, hostNodes);
      out := Assemble(WrapperOf(memo.value.content), portals);
    }

    /** The `useLayoutEffect` callback at commit, with `[html]` as its
        dependency: it runs when the markup differs from the one it last ran
        for, and does nothing on the server. On the initial render it writes the
        markup into the wrapper first (`parsed` is what the browser builds from
        it); it then recycles this instance's stubs without an identity check
        and calls `setHostNodes` when the set changed. */
    method LayoutEffect(browser: bool, parsed: seq<Node>) returns (ran: bool, rerender: bool)
      requires memo.Some? && Valid()
      modifies this, wrapper
      ensures Valid()
      ensures memo == old(memo) && hostAttribute == old(hostAttribute) && renderInitial == old(renderInitial)
      ensures attached
      ensures ran == (old(effectContent) != Some(memo.value.content))
      ensures effectContent == Some(memo.value.content)
      ensures !(ran && browser) ==> !rerender && hostNodes == old(hostNodes) &&
                                    wrapper.nodes == old(wrapper.nodes) && wrapper.innerHTML == old(wrapper.innerHTML)
      ensures ran && browser ==>
                var nodes := if renderInitial then parsed else old(wrapper.nodes);
                var r := HooksRecycle(old(hostNodes), Discovered(nodes, hostAttribute, memo.value.hosts));
                && wrapper.innerHTML == (if renderInitial then Markup(memo.value.content) else old(wrapper.innerHTML))
                && rerender == HostsChanged(old(hostNodes), r, |memo.value.hosts|)
                && hostNodes == Committed(old(hostNodes), r, |memo.value.hosts|)
                && wrapper.nodes == ApplySwaps(nodes, r.swaps)
    {
      attached := true;
      ran := effectContent != Some(memo.value.content);
      effectContent := Some(memo.value.content);
      if !(ran && browser) {
        return ran, false;
      }
      if renderInitial {
        wrapper.SetInnerHtml(Markup(memo.value.content), parsed);
      }
      rerender := RecycleHosts(memo.value.hosts);
    }

    /** The recycling loop of the layout effect over this instance's stubs,
        and the `setHostNodes` call when the set changed. */
    method RecycleHosts(hosts: seq<HostElement>) returns (rerender: bool)
      requires hosts != [] ==> hostAttribute != ""
      modifies this`hostNodes, wrapper
      ensures var r := HooksRecycle(old(hostNodes), Discovered(old(wrapper.nodes), hostAttribute, hosts));
              && rerender == HostsChanged(old(hostNodes), r, |hosts|)
              && hostNodes == Committed(old(hostNodes), r, |hosts|)
              && wrapper.nodes == ApplySwaps(old(wrapper.nodes), r.swaps)
      ensures wrapper.innerHTML == old(wrapper.innerHTML)
    {
      var prev := hostNodes;
      var found := Discovered(wrapper.nodes, hostAttribute, hosts);
      var next, changed := RecycleNodes(prev, found);
      rerender := changed || |prev| != |hosts|;
      if rerender {
        hostNodes := next;
      }
    }

    /** The `forEach` loop of the layout effect: every discovered stub whose
        previous node has the same tag is swapped back for that node. */
    method RecycleNodes(prev: map<string, Node>, found: seq<Node>) returns (next: map<string, Node>, changed: bool)
      modifies wrapper
      ensures var r := HooksRecycle(prev, found);
              && next == r.next && changed == r.changed
              && wrapper.nodes == ApplySwaps(old(wrapper.nodes), r.swaps)
      ensures wrapper.innerHTML == old(wrapper.innerHTML)
    {
      ghost var nodes0 := wrapper.nodes;
      next, changed := map[], false;
      ghost var swaps: seq<(Node, Node)> := [];
      var i := 0;
      while i < |found|
        invariant 0 <= i <= |found|
        invariant Recycled(next, changed, swaps) == HooksRecycle(prev, found[..i])
        invariant wrapper.nodes == ApplySwaps(nodes0, swaps)
        invariant wrapper.innerHTML == old(wrapper.innerHTML)
      {
        RecycleSnoc(prev, found, i);
        var node := found[i];
        var key := DatasetKey(node);
        ghost var before := Recycled(next, changed, swaps);
        if key in prev && prev[key].tag == node.tag {
          wrapper.ReplaceChildNode(prev[key], node);
          assert (swaps + [(node, prev[key])])[..|swaps|] == swaps;
          swaps := swaps + [(node, prev[key])];
          next := next[key := prev[key]];
        } else {
          changed := true;
          next := next[key := node];
        }
        assert Recycled(next, changed, swaps) == HooksStep(prev, before, node);
        i := i + 1;
      }
      assert found[..i] == found;
    }
  }
}
