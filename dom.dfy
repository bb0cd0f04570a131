/** The slice of the DOM the component touches. Elements are values with an
    identity, a tag name and the two attributes the component writes into its
    stubs; a container holds the elements below the wrapper in document order. */
module Dom {
  import opened Common

  /** `scope` is the element's `data-template-id="N"` attribute text ("" when it
      has none); `key` is its `data-template-key` attribute. */
  datatype Node = Node(id: nat, tag: string, scope: string, key: Option<string>)

  /** `node.dataset.templateKey` used as an object key: a missing attribute
      reads as undefined, which becomes the property name "undefined". */
  function DatasetKey(n: Node): (k: string)
    ensures n.key.Some? ==> k == n.key.value
  {
    match n.key
    case Some(k) => k
    case None => "undefined"
  }

  /** A stub matches a key the pass writes exactly when its attribute is that
      key: an element without the attribute reads as "undefined", which holds
      no `:` and so is never such a key. */
  lemma DatasetKeyOfKey(n: Node, name: string, count: nat)
    ensures DatasetKey(n) == KeyString(name, count) <==> n.key == Some(KeyString(name, count))
  {
    if n.key.None? {
      assert forall i :: 0 <= i < |"undefined"| ==> "undefined"[i] != ':';
    }
  }

  /** `querySelectorAll('[data-template-id="N"]')`: the elements of one
      template instance, in document order. */
  function QueryScope(nodes: seq<Node>, attr: string): (r: seq<Node>)
    ensures forall n :: n in r <==> n in nodes && n.scope == attr
    ensures |r| <= |nodes|
  {
    if nodes == [] then []
    else (if nodes[0].scope == attr then [nodes[0]] else []) + QueryScope(nodes[1..], attr)
  }

  /** The query keeps document order: querying two consecutive stretches of
      the wrapper is querying each in turn. */
  lemma {:induction false} QueryScopeAppend(a: seq<Node>, b: seq<Node>, attr: string)
    ensures QueryScope(a + b, attr) == QueryScope(a, attr) + QueryScope(b, attr)
  {
    if a == [] {
      assert a + b == b;
    } else {
      assert (a + b)[1..] == a[1..] + b;
      QueryScopeAppend(a[1..], b, attr);
    }
  }

  /** `querySelectorAll("[data-template-key]")`: every keyed element, whichever
      template wrote it. */
  function QueryKeyed(nodes: seq<Node>): (r: seq<Node>)
    ensures forall n :: n in r <==> n in nodes && n.key.Some?
    ensures |r| <= |nodes|
  {
    if nodes == [] then []
    else (if nodes[0].key.Some? then [nodes[0]] else []) + QueryKeyed(nodes[1..])
  }

  /** The keyed query keeps document order as well. */
  lemma {:induction false} QueryKeyedAppend(a: seq<Node>, b: seq<Node>)
    ensures QueryKeyed(a + b) == QueryKeyed(a) + QueryKeyed(b)
  {
    if a == [] {
      assert a + b == b;
    } else {
      assert (a + b)[1..] == a[1..] + b;
      QueryKeyedAppend(a[1..], b);
    }
  }

  function Without(nodes: seq<Node>, x: Node): (r: seq<Node>)
    ensures forall n :: n in r <==> n in nodes && n != x
    ensures x !in nodes ==> r == nodes
  {
    if nodes == [] then []
    else (if nodes[0] == x then [] else [nodes[0]]) + Without(nodes[1..], x)
  }

  function Substituted(nodes: seq<Node>, x: Node, y: Node): (r: seq<Node>)
    ensures |r| == |nodes|
    ensures forall i :: 0 <= i < |nodes| ==> r[i] == if nodes[i] == x then y else nodes[i]
  {
    if nodes == [] then []
    else [if nodes[0] == x then y else nodes[0]] + Substituted(nodes[1..], x, y)
  }

  /** `parent.replaceChild(newChild, oldChild)`: `newChild` leaves its former
      place, if any, and takes the place of `oldChild`. Replacing an element by
      itself changes nothing. */
  function ReplaceChild(nodes: seq<Node>, newChild: Node, oldChild: Node): (r: seq<Node>)
    ensures newChild == oldChild ==> r == nodes
    ensures newChild != oldChild && oldChild in nodes ==> newChild in r && oldChild !in r
    ensures forall n :: n in r ==> n in nodes || n == newChild
    ensures forall n :: n in nodes && n != oldChild && n != newChild ==> n in r
    ensures newChild !in nodes ==>
              |r| == |nodes| && forall i :: 0 <= i < |nodes| ==> r[i] == if nodes[i] == oldChild then newChild else nodes[i]
  {
    if newChild == oldChild then nodes
    else
      var rest := Without(nodes, newChild);
      var r := Substituted(rest, oldChild, newChild);
      assert forall n :: n in rest && n != oldChild ==> n in r by {
        forall n | n in rest && n != oldChild ensures n in r {
          var i :| 0 <= i < |rest| && rest[i] == n;
          assert r[i] == n;
        }
      }
      assert oldChild in nodes ==> newChild in r by {
        if oldChild in nodes {
          var i :| 0 <= i < |rest| && rest[i] == oldChild;
          assert r[i] == newChild;
        }
      }
      r
  }

  /** The wrapper element: its elements in document order and the markup last
      written to its `innerHTML`. */
  class Container {
    var nodes: seq<Node>
    var innerHTML: string

    constructor ()
      ensures nodes == [] && innerHTML == ""
    {
      nodes := [];
      innerHTML := "";
    }

    /** `container.innerHTML = html`. Parsing is the browser's: `parsed` stands
        for the elements the browser builds from `html`. */
    method SetInnerHtml(html: string, parsed: seq<Node>)
      modifies this
      ensures innerHTML == html && nodes == parsed
    {
      innerHTML := html;
      nodes := parsed;
    }

    method ReplaceChildNode(newChild: Node, oldChild: Node)
      modifies this
      ensures nodes == ReplaceChild(old(nodes), newChild, oldChild)
      ensures innerHTML == old(innerHTML)
    {
      nodes := ReplaceChild(nodes, newChild, oldChild);
    }
  }
}
