/** The component in index.js, the version the package bundles. Its pass
    inserts strings verbatim, counts every occurrence of a name, writes a
    `<span data-template-key="name:n">` stub for each React element and, in the
    browser, pushes one portal slot per element during the pass. After commit
    it collects every keyed element under its host, recycles previous hosts
    with the same tag and stores `{keys, hosts}` in its state. */
module RootTemplate {
  import opened Common
  import opened Dom
  import opened Pattern
  import opened Substitution
  import opened Recycling

  /** `ReactDOM.createPortal(value, host)` */
  datatype Mount = Mount(value: Value, host: Node)

  /** The pass after a prefix of the template: markup, the `portals` array and
      the per-name `keyMap`. */
  datatype RootPass = RootPass(html: string, portals: seq<Option<Mount>>, keyMap: map<string, nat>)

  /** The stub a React element becomes; `inner` is its static markup on the
      server and empty in the browser. */
  function Span(key: string, inner: string): string
  {
    "<span data-template-key=\"" + key + "\">" + inner + "</span>"
  }

  /** `defaultRenderer`: the replacement text and what it pushes onto
      `portals`. `serialize` stands for `renderToStaticMarkup`. Strings are
      not escaped; arrays are not renderable here and read as their
      `toString`. */
  function DefaultRenderer(isServer: bool, serialize: nat -> string, value: Value, key: string, hosts: map<string, Node>)
    : (out: (string, seq<Option<Mount>>))
    ensures |out.1| == (if value.Element? && !isServer then 1 else 0)
    ensures |out.1| == 1 ==> (out.1[0].Some? <==> key in hosts)
    ensures value.Str? ==> out.0 == value.s
    ensures value.Absent? ==> out.0 == ""
    ensures value.Element? ==> out.0 == Span(key, if isServer then serialize(value.handle) else "")
    ensures value.List? ==> out.0 == value.text
    ensures value.Other? ==> out.0 == value.text
  {
    match value
    case Str(s) => (s, [])
    case Absent => ("", [])
    case Element(h) =>
      if isServer then (Span(key, serialize(h)), [])
      else (Span(key, ""), [if key in hosts then Some(Mount(value, hosts[key])) else None])
    case List(_, t) => (t, [])
    case Other(t) => (t, [])
  }

  const EmptyRootPass := RootPass("", [], map[])

  /** One token of `renderTemplate`: every placeholder advances its name's
      counter before the value is looked at. */
  function RootStep(isServer: bool, serialize: nat -> string, values: map<string, Value>, hosts: map<string, Node>,
                    p: RootPass, t: Token): RootPass
  {
    match t
    case Lit(c) => p.(html := p.html + [c])
    case Placeholder(name) =>
      var number := (if name in p.keyMap then p.keyMap[name] else 0) + 1;
      var out := DefaultRenderer(isServer, serialize, Lookup(values, name), KeyString(name, number), hosts);
      RootPass(p.html + out.0, p.portals + out.1, p.keyMap[name := number])
  }

  function RootRun(isServer: bool, serialize: nat -> string, values: map<string, Value>, hosts: map<string, Node>,
                   toks: seq<Token>): RootPass
    decreases |toks|
  {
    if toks == [] then EmptyRootPass
    else RootStep(isServer, serialize, values, hosts, RootRun(isServer, serialize, values, hosts, toks[..|toks| - 1]),
                  toks[|toks| - 1])
  }

  /** A placeholder whose value is not a React element only extends the
      markup, by exactly its text and unescaped: nothing when absent, the string
      itself, or the `toString` text of an array or another value. It pushes no
      portal slot, and its name's counter still advances. */
  lemma RootValueText(isServer: bool, serialize: nat -> string, values: map<string, Value>, hosts: map<string, Node>,
                      p: RootPass, name: string)
    requires !Lookup(values, name).Element?
    ensures var q := RootStep(isServer, serialize, values, hosts, p, Placeholder(name));
            var v := Lookup(values, name);
            && q.portals == p.portals
            && q.keyMap == p.keyMap[name := (if name in p.keyMap then p.keyMap[name] else 0) + 1]
            && q.html == p.html + (match v
                                   case Absent => ""
                                   case Str(s) => s
                                   case List(_, t) => t
                                   case Other(t) => t
                                   case Element(_) => "")
  {
    assert p.portals + [] == p.portals;
  }

  /** A React element becomes a `span` stub keyed by its name and number:
      static markup inside on the server, empty in the browser, where it
      pushes exactly one slot, a portal into the recorded host when one is
      known for the key and `null` otherwise. */
  lemma RootElementStep(isServer: bool, serialize: nat -> string, values: map<string, Value>, hosts: map<string, Node>,
                        p: RootPass, name: string)
    requires Lookup(values, name).Element?
    ensures var q := RootStep(isServer, serialize, values, hosts, p, Placeholder(name));
            var v := Lookup(values, name);
            var key := KeyString(name, (if name in p.keyMap then p.keyMap[name] else 0) + 1);
            && q.html == p.html + Span(key, if isServer then serialize(v.handle) else "")
            && (isServer ==> q.portals == p.portals)
            && (!isServer ==> q.portals == p.portals + [if key in hosts then Some(Mount(v, hosts[key])) else None])
  {
    assert p.portals + [] == p.portals;
  }

  /** One more token is one more step of the pass. */
  lemma RootRunSnoc(isServer: bool, serialize: nat -> string, values: map<string, Value>, hosts: map<string, Node>,
                    toks: seq<Token>, i: nat)
    requires i < |toks|
    ensures RootRun(isServer, serialize, values, hosts, toks[..i + 1]) ==
            RootStep(isServer, serialize, values, hosts, RootRun(isServer, serialize, values, hosts, toks[..i]), toks[i])
  {
    assert toks[..i + 1][..i] == toks[..i];
  }

  lemma RootPlaceholderStep(isServer: bool, serialize: nat -> string, values: map<string, Value>, hosts: map<string, Node>,
                            p: RootPass, name: string)
    ensures var number := (if name in p.keyMap then p.keyMap[name] else 0) + 1;
            var out := DefaultRenderer(isServer, serialize, Lookup(values, name), KeyString(name, number), hosts);
            RootStep(isServer, serialize, values, hosts, p, Placeholder(name)) ==
            RootPass(p.html + out.0, p.portals + out.1, p.keyMap[name := number])
  {
  }

  // ---------------------------------------------------------------------------
  // Reference definitions.

  /** Every placeholder, in template order, with its value. */
  function Placeholders(values: map<string, Value>, toks: seq<Token>): (occ: seq<(string, Value)>)
    ensures |occ| <= |toks|
    decreases |toks|
  {
    if toks == [] then []
    else
      var rest := Placeholders(values, toks[..|toks| - 1]);
      var t := toks[|toks| - 1];
      if t.Placeholder? then rest + [(t.name, Lookup(values, t.name))] else rest
  }

  /** The React-element placeholders with their names and numbers: the number
      is how many placeholders of that name, of any value, occur up to and
      including this one. Numbers of one name strictly increase. */
  function Slots(occ: seq<(string, Value)>): (s: seq<(string, nat, Value)>)
    ensures forall j :: 0 <= j < |s| ==> 1 <= s[j].1 <= Count(occ, s[j].0) && s[j].2.Element?
    ensures forall i, j :: 0 <= i < j < |s| && s[i].0 == s[j].0 ==> s[i].1 < s[j].1
    decreases |occ|
  {
    if occ == [] then []
    else
      var x := occ[|occ| - 1];
      Slots(occ[..|occ| - 1]) + (if x.1.Element? then [(x.0, Count(occ, x.0), x.1)] else [])
  }

  function SlotKey(slot: (string, nat, Value)): string
  {
    KeyString(slot.0, slot.1)
  }

  /** The portal slot of each element placeholder: a portal into the host
      recorded for its key, or `null`. */
  function Mounts(slots: seq<(string, nat, Value)>, hosts: map<string, Node>): (ms: seq<Option<Mount>>)
    ensures |ms| == |slots|
  {
    seq(|slots|, j requires 0 <= j < |slots| =>
      if SlotKey(slots[j]) in hosts then Some(Mount(slots[j].2, hosts[SlotKey(slots[j])])) else None)
  }

  lemma MountsSnoc(slots: seq<(string, nat, Value)>, x: (string, nat, Value), hosts: map<string, Node>)
    ensures Mounts(slots + [x], hosts) ==
            Mounts(slots, hosts) + [if SlotKey(x) in hosts then Some(Mount(x.2, hosts[SlotKey(x)])) else None]
  {
  }

  /** In the browser the pass pushes one slot per element placeholder, in
      order, keyed by the all-occurrence count of its name; the counters hold
      each name's number of placeholders. */
  lemma {:induction false} RootClientPass(serialize: nat -> string, values: map<string, Value>,
                                          hosts: map<string, Node>, toks: seq<Token>)
    ensures RootRun(false, serialize, values, hosts, toks).portals == Mounts(Slots(Placeholders(values, toks)), hosts)
    ensures CountsAgree(RootRun(false, serialize, values, hosts, toks).keyMap, Placeholders(values, toks))
    decreases |toks|
  {
    if toks != [] {
      var init, t := toks[..|toks| - 1], toks[|toks| - 1];
      RootClientPass(serialize, values, hosts, init);
      if t.Placeholder? {
        RootClientStep(serialize, values, hosts, RootRun(false, serialize, values, hosts, init),
                       Placeholders(values, init), t.name);
      }
    }
  }

  /** One more placeholder in the browser: its slot, if any, is the next one. */
  lemma RootClientStep(serialize: nat -> string, values: map<string, Value>, hosts: map<string, Node>,
                       p0: RootPass, occ0: seq<(string, Value)>, name: string)
    requires p0.portals == Mounts(Slots(occ0), hosts) && CountsAgree(p0.keyMap, occ0)
    ensures var p := RootStep(false, serialize, values, hosts, p0, Placeholder(name));
            var occ := occ0 + [(name, Lookup(values, name))];
            p.portals == Mounts(Slots(occ), hosts) && CountsAgree(p.keyMap, occ)
  {
    var x := (name, Lookup(values, name));
    var occ := occ0 + [x];
    var number := (if name in p0.keyMap then p0.keyMap[name] else 0) + 1;
    CountSnoc(occ0, x, name);
    CountsAgreeSnoc(p0.keyMap, occ0, x);
    assert occ[..|occ| - 1] == occ0;
    if x.1.Element? {
      assert Slots(occ) == Slots(occ0) + [(name, number, x.1)];
      MountsSnoc(Slots(occ0), (name, number, x.1), hosts);
    } else {
      assert Slots(occ) == Slots(occ0);
    }
  }

  lemma CountsAgreeSnoc(keyMap: map<string, nat>, occ: seq<(string, Value)>, x: (string, Value))
    requires CountsAgree(keyMap, occ)
    ensures CountsAgree(keyMap[x.0 := (if x.0 in keyMap then keyMap[x.0] else 0) + 1], occ + [x])
  {
    forall n ensures Count(occ + [x], n) == Count(occ, n) + (if n == x.0 then 1 else 0) {
      CountSnoc(occ, x, n);
    }
  }

  /** On the server nothing is pushed onto `portals`. */
  lemma {:induction false} RootServerPass(serialize: nat -> string, values: map<string, Value>,
                                          hosts: map<string, Node>, toks: seq<Token>)
    ensures RootRun(true, serialize, values, hosts, toks).portals == []
    decreases |toks|
  {
    if toks != [] {
      RootServerPass(serialize, values, hosts, toks[..|toks| - 1]);
    }
  }

  /** Every placeholder name is a name, so no key of a pass repeats. */
  lemma {:induction false} PlaceholderNames(values: map<string, Value>, toks: seq<Token>)
    requires WellFormed(toks)
    ensures forall j :: 0 <= j < |Placeholders(values, toks)| ==> IsName(Placeholders(values, toks)[j].0)
    decreases |toks|
  {
    if toks != [] {
      var init := toks[..|toks| - 1];
      assert WellFormed(init) by {
        forall i | 0 <= i < |init| ensures init[i].Placeholder? ==> IsName(init[i].name) {
          assert init[i] == toks[i];
        }
      }
      PlaceholderNames(values, init);
    }
  }

  lemma SlotKeysUnique(values: map<string, Value>, toks: seq<Token>)
    requires WellFormed(toks)
    ensures var s := Slots(Placeholders(values, toks));
            forall i, j :: 0 <= i < j < |s| ==> SlotKey(s[i]) != SlotKey(s[j])
  {
    var occ := Placeholders(values, toks);
    var s := Slots(occ);
    PlaceholderNames(values, toks);
    forall j | 0 <= j < |s| ensures ':' !in s[j].0 {
      assert Count(occ, s[j].0) > 0;
      NameOfCounted(occ, s[j].0);
      NameHasNoColon(s[j].0);
    }
    forall i, j | 0 <= i < j < |s| ensures SlotKey(s[i]) != SlotKey(s[j]) {
      KeyStringInjective(s[i].0, s[i].1, s[j].0, s[j].1);
    }
  }

  /** A name with a non-zero count is the name of some placeholder. */
  lemma {:induction false} NameOfCounted(occ: seq<(string, Value)>, name: string)
    requires Count(occ, name) > 0
    requires forall j :: 0 <= j < |occ| ==> IsName(occ[j].0)
    ensures IsName(name)
    decreases |occ|
  {
    var init := occ[..|occ| - 1];
    if occ[|occ| - 1].0 != name {
      assert forall j :: 0 <= j < |init| ==> init[j] == occ[j];
      NameOfCounted(init, name);
    }
  }

  /** A template without placeholders is its own markup, and pushes nothing. */
  lemma {:induction false} RootLiteralPass(isServer: bool, serialize: nat -> string, values: map<string, Value>,
                                           hosts: map<string, Node>, toks: seq<Token>)
    requires AllLiteral(toks)
    ensures RootRun(isServer, serialize, values, hosts, toks) == RootPass(Source(toks), [], map[])
    decreases |toks|
  {
    if toks != [] {
      var init, t := toks[..|toks| - 1], toks[|toks| - 1];
      RootLiteralPass(isServer, serialize, values, hosts, init);
      assert toks == init + [t];
      SourceSnoc(init, t);
    }
  }

  lemma RootTemplateWithoutPlaceholders(isServer: bool, serialize: nat -> string, values: map<string, Value>,
                                        hosts: map<string, Node>, template: string)
    requires !HasPlaceholder(template)
    ensures RootRun(isServer, serialize, values, hosts, Tokenize(template)) == RootPass(template, [], map[])
  {
    AllLiteralIff(template);
    TokenizeSource(template);
    RootLiteralPass(isServer, serialize, values, hosts, Tokenize(template));
  }

  /** Strings go in verbatim: the root version does not escape. */
  lemma StringsVerbatim(hosts: map<string, Node>, serialize: nat -> string)
    ensures var values := map["x" := Str("<b>'&'</b>")];
            RootRun(false, serialize, values, hosts, Tokenize("{x}")).html == "<b>'&'</b>"
  {
    assert IsName("x") && "{x}"[..3] == "{" + "x" + "}";
    MatchPrefixIff("{x}", "x");
    assert "{x}"[3..] == [];
    assert Tokenize("{x}") == [Placeholder("x")];
    assert Tokenize("{x}")[..0] == [];
  }

  // ---------------------------------------------------------------------------
  // Host collection and recycling.

  /** `collectHosts`: the keys in document order, and each key's node; a key
      seen twice keeps its last node. */
  function Collect(found: seq<Node>): (c: (seq<string>, map<string, Node>))
    ensures |c.0| == |found|
    ensures forall i :: 0 <= i < |found| ==> c.0[i] == DatasetKey(found[i]) && c.0[i] in c.1
    decreases |found|
  {
    if found == [] then ([], map[])
    else
      var c := Collect(found[..|found| - 1]);
      var n := found[|found| - 1];
      (c.0 + [DatasetKey(n)], c.1[DatasetKey(n) := n])
  }

  /** The node recorded for a key is the last one carrying it. */
  lemma {:induction false} CollectLastWins(found: seq<Node>, i: nat)
    requires i < |found|
    requires forall j :: i < j < |found| ==> DatasetKey(found[j]) != DatasetKey(found[i])
    ensures Collect(found).1[DatasetKey(found[i])] == found[i]
    decreases |found|
  {
    var init, last := found[..|found| - 1], found[|found| - 1];
    assert Collect(found).1 == Collect(init).1[DatasetKey(last) := last];
    if i < |found| - 1 {
      assert DatasetKey(last) != DatasetKey(found[i]);
      assert forall j :: i < j < |init| ==> init[j] == found[j];
      assert init[i] == found[i];
      CollectLastWins(init, i);
    }
  }

  /** `recycleHosts` so far: the flag, the (mutated) `hosts` and the
      `replaceChild` calls as (collected node, previous node). */
  datatype RootRecycled = RootRecycled(changed: bool, hosts: map<string, Node>, swaps: seq<(Node, Node)>)

  function RootRecycleStep(prev: map<string, Node>, r: RootRecycled, key: string): RootRecycled
    requires key in r.hosts
  {
    var host := r.hosts[key];
    if key in prev && prev[key] == host then r
    else if key in prev && host.tag == prev[key].tag then
      r.(hosts := r.hosts[key := prev[key]], swaps := r.swaps + [(host, prev[key])])
    else r.(changed := true)
  }

  /** The loop over `keys` from a given start. */
  function RecycleKeys(prev: map<string, Node>, start: RootRecycled, keys: seq<string>): (r: RootRecycled)
    requires forall i :: 0 <= i < |keys| ==> keys[i] in start.hosts
    ensures r.hosts.Keys == start.hosts.Keys
    decreases |keys|
  {
    if keys == [] then start
    else RootRecycleStep(prev, RecycleKeys(prev, start, keys[..|keys| - 1]), keys[|keys| - 1])
  }

  /** `recycleHosts`: the flag starts as "the number of keys differs". */
  function RootRecycle(prevKeys: seq<string>, prev: map<string, Node>, keys: seq<string>, hosts: map<string, Node>)
    : RootRecycled
    requires forall i :: 0 <= i < |keys| ==> keys[i] in hosts
  {
    RecycleKeys(prev, RootRecycled(|keys| != |prevKeys|, hosts, []), keys)
  }

  predicate Unique(keys: seq<string>)
  {
    forall i, j :: 0 <= i < j < |keys| ==> keys[i] != keys[j]
  }

  /** A collected host is kept unless a previous host with its key and tag
      exists; then the previous one replaces it. */
  function RootChosen(prev: map<string, Node>, key: string, host: Node): (n: Node)
    ensures n.tag == host.tag
  {
    if key in prev && prev[key].tag == host.tag then prev[key] else host
  }

  predicate AnyReplacedByNew(prev: map<string, Node>, keys: seq<string>, hosts: map<string, Node>)
    requires forall i :: 0 <= i < |keys| ==> keys[i] in hosts
  {
    exists i :: 0 <= i < |keys| && !(keys[i] in prev && prev[keys[i]].tag == hosts[keys[i]].tag)
  }

  /** With distinct keys: every key's host is the chosen one, other entries
      are untouched, and the flag is raised exactly when it was raised at the
      start or some key has no previous host with its tag. */
  lemma {:induction false} RecycleKeysSpec(prev: map<string, Node>, start: RootRecycled, keys: seq<string>)
    requires forall i :: 0 <= i < |keys| ==> keys[i] in start.hosts
    requires Unique(keys)
    ensures var r := RecycleKeys(prev, start, keys);
            && (forall i :: 0 <= i < |keys| ==> r.hosts[keys[i]] == RootChosen(prev, keys[i], start.hosts[keys[i]]))
            && (forall k :: k in start.hosts && k !in keys ==> r.hosts[k] == start.hosts[k])
            && (r.changed <==> start.changed || AnyReplacedByNew(prev, keys, start.hosts))
    decreases |keys|
  {
    if keys != [] {
      var init, key := keys[..|keys| - 1], keys[|keys| - 1];
      assert forall i :: 0 <= i < |init| ==> init[i] == keys[i];
      RecycleKeysSpec(prev, start, init);
      var r0 := RecycleKeys(prev, start, init);
      assert key !in init;
      assert r0.hosts[key] == start.hosts[key];
      assert RecycleKeys(prev, start, keys) == RootRecycleStep(prev, r0, key);
      RootRecycleStepEffect(prev, r0, key);
      AnyReplacedByNewSnoc(prev, keys, start.hosts);
    }
  }

  /** One key: its host becomes the chosen one, and the flag is raised when
      no previous host with its tag exists. */
  lemma RootRecycleStepEffect(prev: map<string, Node>, r: RootRecycled, key: string)
    requires key in r.hosts
    ensures var q := RootRecycleStep(prev, r, key);
            && q.hosts == r.hosts[key := RootChosen(prev, key, r.hosts[key])]
            && (q.changed <==> r.changed || !(key in prev && prev[key].tag == r.hosts[key].tag))
  {
    if key in prev && prev[key] == r.hosts[key] {
      assert r.hosts[key := prev[key]] == r.hosts;
    }
  }

  lemma AnyReplacedByNewSnoc(prev: map<string, Node>, keys: seq<string>, hosts: map<string, Node>)
    requires keys != [] && forall i :: 0 <= i < |keys| ==> keys[i] in hosts
    ensures var init, key := keys[..|keys| - 1], keys[|keys| - 1];
            AnyReplacedByNew(prev, keys, hosts) <==>
            AnyReplacedByNew(prev, init, hosts) || !(key in prev && prev[key].tag == hosts[key].tag)
  {
    var init := keys[..|keys| - 1];
    if AnyReplacedByNew(prev, keys, hosts) {
      var i :| 0 <= i < |keys| && !(keys[i] in prev && prev[keys[i]].tag == hosts[keys[i]].tag);
      if i < |init| { assert init[i] == keys[i]; }
    }
    if AnyReplacedByNew(prev, init, hosts) {
      var i :| 0 <= i < |init| && !(init[i] in prev && prev[init[i]].tag == hosts[init[i]].tag);
      assert keys[i] == init[i];
    }
  }

  /** `recycleHosts` with distinct keys: each collected key ends with the
      previous host when that has the same tag and keeps its own otherwise;
      the flag is raised exactly when the number of keys differs from the
      previous number or some key has no previous host with its tag. */
  lemma RootRecycleSpec(prevKeys: seq<string>, prev: map<string, Node>, keys: seq<string>, hosts: map<string, Node>)
    requires forall i :: 0 <= i < |keys| ==> keys[i] in hosts
    requires Unique(keys)
    ensures var r := RootRecycle(prevKeys, prev, keys, hosts);
            && r.hosts.Keys == hosts.Keys
            && (forall i :: 0 <= i < |keys| ==> r.hosts[keys[i]] == RootChosen(prev, keys[i], hosts[keys[i]]))
            && (forall k :: k in hosts && k !in keys ==> r.hosts[k] == hosts[k])
            && (r.changed <==> |keys| != |prevKeys| || AnyReplacedByNew(prev, keys, hosts))
  {
    RecycleKeysSpec(prev, RootRecycled(|keys| != |prevKeys|, hosts, []), keys);
  }

  // ---------------------------------------------------------------------------
  // The component.

  /** The host element's props: markup through `dangerouslySetInnerHTML`, or
      (first browser render with placeholders) only `suppressHydrationWarning`. */
  datatype HostProps = HostHtml(html: string) | Suppressed

  /** `hasPlaceholders ? Fragment(host, ...portals) : host` */
  datatype RootOutput = HostOnly(host: HostProps) | Fragment(host: HostProps, portals: seq<Option<Mount>>)

  class Template {
    var mounted: bool
    var cachedHTML: string
    var hasPlaceholders: bool
    var keys: seq<string>
    var hosts: map<string, Node>
    const host: Container

    constructor ()
      ensures !mounted && cachedHTML == "" && !hasPlaceholders && keys == [] && hosts == map[]
      ensures fresh(host)
    {
      mounted := false;
      cachedHTML := "";
      hasPlaceholders := false;
      keys := [];
      hosts := map[];
      host := new Container();
    }

    /** `renderTemplate`, against the hosts in the current state. */
    method RenderTemplate(template: string, values: map<string, Value>, isServer: bool, serialize: nat -> string)
      returns (html: string, portals: seq<Option<Mount>>)
      ensures var p := RootRun(isServer, serialize, values, hosts, Tokenize(template));
              html == p.html && portals == p.portals
    {
      var toks := Tokenize(template);
      var keyMap: map<string, nat> := map[];
      html, portals := "", [];
      var i := 0;
      while i < |toks|
        invariant 0 <= i <= |toks|
        invariant RootPass(html, portals, keyMap) == RootRun(isServer, serialize, values, hosts, toks[..i])
      {
        RootRunSnoc(isServer, serialize, values, hosts, toks, i);
        ghost var before := RootPass(html, portals, keyMap);
        match toks[i] {
          case Lit(c) =>
            html := html + [c];
          case Placeholder(name) =>
            var number := (if name in keyMap then keyMap[name] else 0) + 1;
            keyMap := keyMap[name := number];
            var out := DefaultRenderer(isServer, serialize, Lookup(values, name), KeyString(name, number), hosts);
            html, portals := html + out.0, portals + out.1;
            RootPlaceholderStep(isServer, serialize, values, hosts, before, name);
        }
        i := i + 1;
      }
      assert toks[..i] == toks;
    }

    /** `render` */
    method Render(template: string, values: map<string, Value>, isServer: bool, serialize: nat -> string)
      returns (out: RootOutput)
      modifies this`cachedHTML, this`hasPlaceholders
      ensures var p := RootRun(isServer, serialize, values, hosts, Tokenize(template));
              && cachedHTML == (if isServer then old(cachedHTML) else p.html)
              && hasPlaceholders == (p.portals != [])
              && var hostProps := if !isServer && !mounted && hasPlaceholders then Suppressed else HostHtml(p.html);
                 out == if hasPlaceholders then Fragment(hostProps, p.portals) else HostOnly(hostProps)
    {
      var html, portals := RenderTemplate(template, values, isServer, serialize);
      if !isServer {
        cachedHTML := html;
      }
      hasPlaceholders := |portals| > 0;
      var shouldAvoidMismatch := !isServer && !mounted && hasPlaceholders;
      var hostProps := if shouldAvoidMismatch then Suppressed else HostHtml(html);
      out := if hasPlaceholders then Fragment(hostProps, portals) else HostOnly(hostProps);
    }

    /** `collectHosts` over every keyed element under the host. */
    method CollectHosts() returns (found: seq<Node>, collectedKeys: seq<string>, collected: map<string, Node>)
      ensures found == QueryKeyed(host.nodes)
      ensures (collectedKeys, collected) == Collect(found)
    {
      found := QueryKeyed(host.nodes);
      collectedKeys, collected := [], map[];
      var i := 0;
      while i < |found|
        invariant 0 <= i <= |found|
        invariant (collectedKeys, collected) == Collect(found[..i])
      {
        assert found[..i + 1][..i] == found[..i];
        var key := DatasetKey(found[i]);
        collectedKeys := collectedKeys + [key];
        collected := collected[key := found[i]];
        i := i + 1;
      }
      assert found[..i] == found;
    }

    /** `recycleHosts`: compares with the keys and hosts in the state,
        replacing collected hosts in the DOM and in `collected`. */
    method RecycleHosts(collectedKeys: seq<string>, collected: map<string, Node>)
      returns (changed: bool, recycled: map<string, Node>)
      requires forall i :: 0 <= i < |collectedKeys| ==> collectedKeys[i] in collected
      modifies host
      ensures var r := RootRecycle(keys, hosts, collectedKeys, collected);
              && changed == r.changed && recycled == r.hosts
              && host.nodes == ApplySwaps(old(host.nodes), r.swaps)
      ensures host.innerHTML == old(host.innerHTML)
    {
      var prevKeys, prev := keys, hosts;
      changed, recycled := |collectedKeys| != |prevKeys|, collected;
      ghost var start := RootRecycled(changed, recycled, []);
      ghost var swaps: seq<(Node, Node)> := [];
      var i := 0;
      while i < |collectedKeys|
        invariant 0 <= i <= |collectedKeys|
        invariant RootRecycled(changed, recycled, swaps) == RecycleKeys(prev, start, collectedKeys[..i])
        invariant host.nodes == ApplySwaps(old(host.nodes), swaps)
        invariant host.innerHTML == old(host.innerHTML)
      {
        assert collectedKeys[..i + 1][..i] == collectedKeys[..i];
        var key := collectedKeys[i];
        var node := recycled[key];
        if key in prev && prev[key] == node {
        } else if key in prev && node.tag == prev[key].tag {
          host.ReplaceChildNode(prev[key], node);
          assert (swaps + [(node, prev[key])])[..|swaps|] == swaps;
          swaps := swaps + [(node, prev[key])];
          recycled := recycled[key := prev[key]];
        } else {
          changed := true;
        }
        i := i + 1;
      }
      assert collectedKeys[..i] == collectedKeys;
    }

    /** `updateHosts`: without a previous state the collected hosts always
        count as changed; the state is written only when changed. */
    method UpdateHosts(hasPrevState: bool) returns (rerender: bool)
      modifies this`keys, this`hosts, host
      ensures var c := Collect(QueryKeyed(old(host.nodes)));
              && (!hasPrevState ==> rerender && keys == c.0 && hosts == c.1 && host.nodes == old(host.nodes))
              && (hasPrevState ==>
                    var r := RootRecycle(old(keys), old(hosts), c.0, c.1);
                    && rerender == r.changed
                    && (rerender ==> keys == c.0 && hosts == r.hosts)
                    && (!rerender ==> keys == old(keys) && hosts == old(hosts))
                    && host.nodes == ApplySwaps(old(host.nodes), r.swaps))
      ensures host.innerHTML == old(host.innerHTML)
    {
      var found, collectedKeys, collected := CollectHosts();
      var next := collected;
      if hasPrevState {
        rerender, next := RecycleHosts(collectedKeys, collected);
      } else {
        rerender := true;
      }
      if rerender {
        keys, hosts := collectedKeys, next;
      }
    }

    /** `componentDidMount`: only with placeholders, write the cached markup
        (`parsed` is what the browser builds from it) and collect the hosts. */
    method ComponentDidMount(parsed: seq<Node>) returns (rerender: bool)
      modifies this`mounted, this`keys, this`hosts, host
      ensures mounted
      ensures !hasPlaceholders ==> !rerender && keys == old(keys) && hosts == old(hosts) &&
                                   host.nodes == old(host.nodes) && host.innerHTML == old(host.innerHTML)
      ensures hasPlaceholders ==>
                var c := Collect(QueryKeyed(parsed));
                && host.innerHTML == cachedHTML && host.nodes == parsed
                && rerender && keys == c.0 && hosts == c.1
    {
      mounted := true;
      if hasPlaceholders {
        host.SetInnerHtml(cachedHTML, parsed);
        rerender := UpdateHosts(false);
      } else {
        rerender := false;
      }
    }

    /** `componentDidUpdate`: only when there are placeholders now or the
        previous state had keys. */
    method ComponentDidUpdate(prevKeys: seq<string>) returns (rerender: bool)
      modifies this`keys, this`hosts, host
      ensures !(hasPlaceholders || prevKeys != []) ==>
                !rerender && keys == old(keys) && hosts == old(hosts) && host.nodes == old(host.nodes)
      ensures hasPlaceholders || prevKeys != [] ==>
                var c := Collect(QueryKeyed(old(host.nodes)));
                var r := RootRecycle(old(keys), old(hosts), c.0, c.1);
                && rerender == r.changed
                && (rerender ==> keys == c.0 && hosts == r.hosts)
                && (!rerender ==> keys == old(keys) && hosts == old(hosts))
                && host.nodes == ApplySwaps(old(host.nodes), r.swaps)
      ensures host.innerHTML == old(host.innerHTML)
    {
      if hasPlaceholders || |prevKeys| > 0 {
        rerender := UpdateHosts(true);
      } else {
        rerender := false;
      }
    }
  }

  /** After the mount, the next browser render has a portal for every element
      placeholder when the host holds exactly the stubs of the pass. */
  lemma MountedPortalsPresent(serialize: nat -> string, values: map<string, Value>, template: string, parsed: seq<Node>)
    requires var s := Slots(Placeholders(values, Tokenize(template)));
             var found := QueryKeyed(parsed);
             |found| == |s| && forall j :: 0 <= j < |s| ==> DatasetKey(found[j]) == SlotKey(s[j])
    ensures var hosts := Collect(QueryKeyed(parsed)).1;
            var s := Slots(Placeholders(values, Tokenize(template)));
            var portals := RootRun(false, serialize, values, hosts, Tokenize(template)).portals;
            |portals| == |s| &&
            forall j :: 0 <= j < |s| ==> portals[j] == Some(Mount(s[j].2, QueryKeyed(parsed)[j]))
  {
    var toks := Tokenize(template);
    TokenizeSource(template);
    SlotKeysUnique(values, toks);
    var found := QueryKeyed(parsed);
    var hosts := Collect(found).1;
    RootClientPass(serialize, values, hosts, toks);
    var s := Slots(Placeholders(values, toks));
    forall j | 0 <= j < |s| ensures hosts[SlotKey(s[j])] == found[j] {
      CollectLastWins(found, j);
    }
  }
}
