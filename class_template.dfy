/** The class component of src/index.js. One instance keeps the attribute that
    scopes its stubs, the recycled `key -> node` map (its state), the markup and
    host elements of the last render (`renderRef`), whether its wrapper element
    is attached (`wrapperRef`), the wrapper itself and the process-wide id
    counter. React's scheduling is the caller's: it calls `Render`, then
    `ComponentDidMount` once, then `ComponentDidUpdate` after each later render,
    and renders again whenever one of them reports a state change. */
module ClassTemplate {
  import opened Common
  import opened Dom
  import opened Pattern
  import opened Substitution
  import opened Recycling

  class Template {
    var hostAttribute: string
    var hostNodes: map<string, Node>
    var renderedHtml: string
    var renderedHosts: seq<HostElement>
    var mounted: bool
    const wrapper: Container
    const ids: IdCounter

    /** Host elements are recorded only by a render that wrote their stubs
        with the instance's attribute, so `updateNodes` always queries a
        non-empty `[data-template-id="N"]` scope. */
    predicate Valid()
      reads this
    {
      renderedHosts != [] ==> hostAttribute != ""
    }

    constructor (ids: IdCounter)
      ensures Valid()
      ensures hostAttribute == "" && hostNodes == map[]
      ensures renderedHtml == "" && renderedHosts == [] && !mounted
      ensures this.ids == ids && fresh(wrapper)
    {
      hostAttribute := "";
      hostNodes := map[];
      renderedHtml := "";
      renderedHosts := [];
      mounted := false;
      wrapper := new Container();
      this.ids := ids;
    }

    /** `render`: the substitution pass, the portals for the recorded nodes
        (none before the wrapper is attached), and the wrapper. */
    method Render(template: string, props: Props, browser: bool) returns (out: Output)
      requires Valid()
      modifies this, ids
      ensures Valid()
      ensures var p := Run(props, browser, ScopeAfter(old(hostAttribute), old(ids.next)), Tokenize(template));
              var serverTree := !browser && p.serverStubs > 0;
              var hosts := if serverTree then [] else p.hostElements;
              && (if browser && p.hostElements != [] && old(hostAttribute) == ""
                  then hostAttribute == IdAttribute(old(ids.next)) && ids.next == old(ids.next) + 1
                  else hostAttribute == old(hostAttribute) && ids.next == old(ids.next))
              && (serverTree ==> renderedHtml == old(renderedHtml) && renderedHosts == old(renderedHosts))
              && (!serverTree ==> renderedHtml == p.html && renderedHosts == hosts)
              && out == Assemble(if serverTree then Children(p.html) else InnerHtml(p.html),
                                 Portals(!mounted, hosts, hostNodes))
      ensures hostNodes == old(hostNodes) && mounted == old(mounted)
    {
      var initialRender := !mounted;
      var content, hosts, attribute := Substitute(template, props, browser, hostAttribute, ids);
      hostAttribute := attribute;
      var portals := Portals(initialRender, hosts, hostNodes);
      if content.Html? {
        renderedHtml, renderedHosts := content.html, hosts;
      }
      out := Assemble(WrapperOf(content), portals);
    }

    /** `updateNodes`: recycle the stubs of this instance and commit the new
        map when it changed; `rerender` is whether `setState` was called. */
    method UpdateNodes() returns (rerender: bool)
      requires Valid()
      modifies this`hostNodes, wrapper
      ensures Valid()
      ensures var found := Discovered(old(wrapper.nodes), hostAttribute, renderedHosts);
              var r := ClassRecycle(old(hostNodes), found);
              && rerender == HostsChanged(old(hostNodes), r, |renderedHosts|)
              && hostNodes == Committed(old(hostNodes), r, |renderedHosts|)
              && wrapper.nodes == ApplySwaps(old(wrapper.nodes), r.swaps)
      ensures wrapper.innerHTML == old(wrapper.innerHTML)
      ensures hostAttribute == old(hostAttribute) && mounted == old(mounted)
      ensures renderedHtml == old(renderedHtml) && renderedHosts == old(renderedHosts)
    {
      var prev := hostNodes;
      var found := Discovered(wrapper.nodes, hostAttribute, renderedHosts);
      var next, changed := RecycleNodes(prev, found);
      rerender := changed || |prev| != |renderedHosts|;
      if rerender {
        hostNodes := next;
      }
    }

    /** The loop of `updateNodes` over the discovered stubs: an identical node
        is skipped, a reusable one is swapped back for the recorded node. */
    method RecycleNodes(prev: map<string, Node>, found: seq<Node>) returns (next: map<string, Node>, changed: bool)
      modifies wrapper
      ensures var r := ClassRecycle(prev, found);
              && next == r.next && changed == r.changed
              && wrapper.nodes == ApplySwaps(old(wrapper.nodes), r.swaps)
      ensures wrapper.innerHTML == old(wrapper.innerHTML)
    {
      ghost var nodes0 := wrapper.nodes;
      next, changed := map[], false;
      ghost var swaps: seq<(Node, Node)> := [];
      var i := 0;
      while i < |found|
        invariant 0 <= i <= |found|
        invariant Recycled(next, changed, swaps) == ClassRecycle(prev, found[..i])
        invariant wrapper.nodes == ApplySwaps(nodes0, swaps)
        invariant wrapper.innerHTML == old(wrapper.innerHTML)
      {
        RecycleSnoc(prev, found, i);
        var node := found[i];
        var key := DatasetKey(node);
        ghost var before := Recycled(next, changed, swaps);
        if key in prev && prev[key] == node {
        } else if key in prev && prev[key].tag == node.tag {
          wrapper.ReplaceChildNode(prev[key], node);
          assert (swaps + [(node, prev[key])])[..|swaps|] == swaps;
          swaps := swaps + [(node, prev[key])];
          next := next[key := prev[key]];
        } else {
          changed := true;
          next := next[key := node];
        }
        assert Recycled(next, changed, swaps) == ClassStep(prev, before, node);
        i := i + 1;
      }
      assert found[..i] == found;
    }

    /** `componentDidMount`: React has attached the wrapper; in the browser
        write the last markup into it (`parsed` is what the browser builds
        from that markup) and recycle. */
    method ComponentDidMount(browser: bool, parsed: seq<Node>) returns (rerender: bool)
      requires Valid()
      modifies this, wrapper
      ensures Valid()
      ensures mounted
      ensures !browser ==> !rerender && hostNodes == old(hostNodes) &&
                           wrapper.nodes == old(wrapper.nodes) && wrapper.innerHTML == old(wrapper.innerHTML)
      ensures browser ==> wrapper.innerHTML == renderedHtml
      ensures browser ==> var r := ClassRecycle(old(hostNodes), Discovered(parsed, hostAttribute, renderedHosts));
                          && rerender == HostsChanged(old(hostNodes), r, |renderedHosts|)
                          && hostNodes == Committed(old(hostNodes), r, |renderedHosts|)
                          && wrapper.nodes == ApplySwaps(parsed, r.swaps)
      ensures hostAttribute == old(hostAttribute)
      ensures renderedHtml == old(renderedHtml) && renderedHosts == old(renderedHosts)
    {
      mounted := true;
      if !browser {
        return false;
      }
      wrapper.SetInnerHtml(renderedHtml, parsed);
      rerender := UpdateNodes();
    }

    /** `componentDidUpdate` */
    method ComponentDidUpdate() returns (rerender: bool)
      requires Valid()
      modifies this, wrapper
      ensures Valid()
      ensures var r := ClassRecycle(old(hostNodes), Discovered(old(wrapper.nodes), hostAttribute, renderedHosts));
              && rerender == HostsChanged(old(hostNodes), r, |renderedHosts|)
              && hostNodes == Committed(old(hostNodes), r, |renderedHosts|)
              && wrapper.nodes == ApplySwaps(old(wrapper.nodes), r.swaps)
      ensures wrapper.innerHTML == old(wrapper.innerHTML)
      ensures hostAttribute == old(hostAttribute) && mounted == old(mounted)
      ensures renderedHtml == old(renderedHtml) && renderedHosts == old(renderedHosts)
    {
      rerender := UpdateNodes();
    }
  }
}
