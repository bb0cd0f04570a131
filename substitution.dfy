/** The render pass shared by the class component (src/index.js, `renderTemplate`)
    and the hooks component (src/index.hooks.js, the first `useMemo`): every
    placeholder of the template is resolved against `values`; renderable values
    become stub elements and pending host elements, keyed `name:n`; the
    instance's `data-template-id` attribute is taken from the process-wide
    counter the first time a stub is needed. */
module Substitution {
  import opened Common
  import opened Escaping
  import opened Pattern

  /** A value from the `values` prop, by the branch it takes in the replace
      callback. `List` and `Other` carry the text their `toString` gives. */
  datatype Value =
    | Absent                          // null, undefined or no such property
    | Str(s: string)                  // typeof value === "string"
    | Element(handle: nat)            // React.isValidElement(value)
    | List(handle: nat, text: string) // Array.isArray(value)
    | Other(text: string)             // anything else

  /** `Array.isArray(value) || React.isValidElement(value)` */
  predicate IsRenderable(v: Value) { v.Element? || v.List? }

  function Lookup(values: map<string, Value>, name: string): (v: Value)
    ensures name !in values ==> v == Absent
  {
    if name in values then values[name] else Absent
  }

  datatype Props = Props(
    values: map<string, Value>,
    valueTags: map<string, string>,
    defaultValueTag: string,
    escapeValues: bool)

  /** `valueTags[name] || defaultValueTag`: a missing or empty override falls
      back to the default tag. */
  function TagFor(props: Props, name: string): (tag: string)
    ensures name in props.valueTags && props.valueTags[name] != "" ==> tag == props.valueTags[name]
    ensures name !in props.valueTags || props.valueTags[name] == "" ==> tag == props.defaultValueTag
  {
    if name in props.valueTags && props.valueTags[name] != "" then props.valueTags[name]
    else props.defaultValueTag
  }

  /** The text that replaces a placeholder whose value is not renderable. */
  function InlineText(escapeValues: bool, v: Value): string
    requires !IsRenderable(v)
  {
    match v
    case Absent => ""
    case Str(s) => if escapeValues then Escape(s) else s
    case Other(t) => if escapeValues then Escape(t) else t
  }

  datatype HostElement = HostElement(key: string, value: Value)

  /** Where a pass stands after a prefix of the template: the markup so far,
      the host elements pushed (browser), the `null`s pushed (server) and the
      per-name occurrence counters. */
  datatype Pass = Pass(html: string, hostElements: seq<HostElement>, serverStubs: nat, keyMap: map<string, nat>)

  const EmptyPass := Pass("", [], 0, map[])

  function ClientStub(tag: string, hostAttribute: string, key: string): string
  {
    "<" + tag + " " + hostAttribute + " data-template-key=\"" + key + "\"></" + tag + ">"
  }

  function ServerStub(tag: string, name: string): string
  {
    "<" + tag + " data-template-name=\"" + name + "\"></" + tag + ">"
  }

  /** One character copied, or one call of the replace callback. */
  function Step(props: Props, browser: bool, hostAttribute: string, p: Pass, t: Token): Pass
  {
    match t
    case Lit(c) => p.(html := p.html + [c])
    case Placeholder(name) =>
      var v := Lookup(props.values, name);
      if !IsRenderable(v) then p.(html := p.html + InlineText(props.escapeValues, v))
      else
        var tag := TagFor(props, name);
        if !browser then
          p.(html := p.html + ServerStub(tag, name), serverStubs := p.serverStubs + 1)
        else
          var count := (if name in p.keyMap then p.keyMap[name] else 0) + 1;
          var key := KeyString(name, count);
          p.(html := p.html + ClientStub(tag, hostAttribute, key),
             hostElements := p.hostElements + [HostElement(key, v)],
             keyMap := p.keyMap[name := count])
  }

  /** The pass over a whole token sequence, with `hostAttribute` the attribute
      every stub of the pass carries. */
  function Run(props: Props, browser: bool, hostAttribute: string, toks: seq<Token>): Pass
    decreases |toks|
  {
    if toks == [] then EmptyPass
    else Step(props, browser, hostAttribute, Run(props, browser, hostAttribute, toks[..|toks| - 1]), toks[|toks| - 1])
  }

  // ---------------------------------------------------------------------------
  // Reference definitions: which placeholders are renderable, and how often a
  // name has occurred.

  /** The renderable placeholders, in template order, with their values. */
  function Renderables(props: Props, toks: seq<Token>): (occ: seq<(string, Value)>)
    ensures |occ| <= |toks|
    decreases |toks|
  {
    if toks == [] then []
    else
      var rest := Renderables(props, toks[..|toks| - 1]);
      var t := toks[|toks| - 1];
      if t.Placeholder? && IsRenderable(Lookup(props.values, t.name))
      then rest + [(t.name, Lookup(props.values, t.name))]
      else rest
  }

  function Count(occ: seq<(string, Value)>, name: string): (n: nat)
    ensures n <= |occ|
    decreases |occ|
  {
    if occ == [] then 0
    else Count(occ[..|occ| - 1], name) + (if occ[|occ| - 1].0 == name then 1 else 0)
  }

  /** The host elements a browser pass should push: each renderable
      placeholder, the k-th one with its name, gets key `name:k`. */
  function ExpectedHosts(occ: seq<(string, Value)>): (hs: seq<HostElement>)
    ensures |hs| == |occ|
    decreases |occ|
  {
    if occ == [] then []
    else
      var x := occ[|occ| - 1];
      ExpectedHosts(occ[..|occ| - 1]) + [HostElement(KeyString(x.0, Count(occ, x.0)), x.1)]
  }

  lemma {:induction false} CountPrefixMonotone(occ: seq<(string, Value)>, a: nat, b: nat, name: string)
    requires a <= b <= |occ|
    ensures Count(occ[..a], name) <= Count(occ[..b], name)
    decreases b - a
  {
    if a < b {
      CountPrefixMonotone(occ, a, b - 1, name);
      assert occ[..b][..b - 1] == occ[..b - 1];
    }
  }

  // ---------------------------------------------------------------------------
  // Properties of a pass.

  lemma CountSnoc(occ: seq<(string, Value)>, x: (string, Value), name: string)
    ensures Count(occ + [x], name) == Count(occ, name) + (if x.0 == name then 1 else 0)
  {
    assert (occ + [x])[..|occ|] == occ;
  }

  lemma ExpectedHostsSnoc(occ: seq<(string, Value)>, x: (string, Value))
    ensures ExpectedHosts(occ + [x]) ==
            ExpectedHosts(occ) + [HostElement(KeyString(x.0, Count(occ, x.0) + 1), x.1)]
  {
    assert (occ + [x])[..|occ|] == occ;
    CountSnoc(occ, x, x.0);
  }

  /** The j-th expected host element carries the j-th name, numbered by its
      occurrences up to and including position j. */
  lemma {:induction false} ExpectedHostAt(occ: seq<(string, Value)>, j: nat)
    requires j < |occ|
    ensures ExpectedHosts(occ)[j] == HostElement(KeyString(occ[j].0, Count(occ[..j + 1], occ[j].0)), occ[j].1)
    decreases |occ|
  {
    if j < |occ| - 1 {
      var init := occ[..|occ| - 1];
      ExpectedHostAt(init, j);
      assert init[..j + 1] == occ[..j + 1];
    } else {
      assert occ[..j + 1] == occ;
    }
  }

  /** The per-name counters hold each name's number of occurrences. */
  ghost predicate CountsAgree(keyMap: map<string, nat>, occ: seq<(string, Value)>)
  {
    && (forall n :: n in keyMap ==> keyMap[n] == Count(occ, n))
    && (forall n :: n !in keyMap ==> Count(occ, n) == 0)
  }

  predicate UniqueKeys(hs: seq<HostElement>)
  {
    forall i, j :: 0 <= i < j < |hs| ==> hs[i].key != hs[j].key
  }

  predicate NamedRenderables(occ: seq<(string, Value)>)
  {
    forall j :: 0 <= j < |occ| ==> IsName(occ[j].0) && IsRenderable(occ[j].1)
  }

  /** In the browser, the pass pushes exactly the expected host elements, keeps
      one counter per name equal to its number of renderable occurrences, and
      pushes no server stub. */
  lemma {:induction false} BrowserHosts(props: Props, attr: string, toks: seq<Token>)
    ensures Run(props, true, attr, toks).hostElements == ExpectedHosts(Renderables(props, toks))
    ensures Run(props, true, attr, toks).serverStubs == 0
    ensures CountsAgree(Run(props, true, attr, toks).keyMap, Renderables(props, toks))
    decreases |toks|
  {
    if toks != [] {
      var init := toks[..|toks| - 1];
      BrowserHosts(props, attr, init);
      BrowserStep(props, attr, Run(props, true, attr, init), Renderables(props, init), toks[|toks| - 1]);
    }
  }

  /** One step of a browser pass keeps the three facts of `BrowserHosts`. */
  lemma BrowserStep(props: Props, attr: string, p: Pass, occ0: seq<(string, Value)>, t: Token)
    requires p.hostElements == ExpectedHosts(occ0) && p.serverStubs == 0 && CountsAgree(p.keyMap, occ0)
    ensures var q := Step(props, true, attr, p, t);
            var occ := if t.Placeholder? && IsRenderable(Lookup(props.values, t.name))
                       then occ0 + [(t.name, Lookup(props.values, t.name))] else occ0;
            && q.hostElements == ExpectedHosts(occ) && q.serverStubs == 0 && CountsAgree(q.keyMap, occ)
  {
    if t.Placeholder? && IsRenderable(Lookup(props.values, t.name)) {
      var x := (t.name, Lookup(props.values, t.name));
      ExpectedHostsSnoc(occ0, x);
      forall n ensures Count(occ0 + [x], n) == Count(occ0, n) + (if n == t.name then 1 else 0) {
        CountSnoc(occ0, x, n);
      }
    }
  }

  /** On the server no key is allocated: the pass pushes one `null` per
      renderable placeholder and no host element. */
  lemma {:induction false} ServerStubs(props: Props, attr: string, toks: seq<Token>)
    ensures Run(props, false, attr, toks).hostElements == []
    ensures Run(props, false, attr, toks).keyMap == map[]
    ensures Run(props, false, attr, toks).serverStubs == |Renderables(props, toks)|
    decreases |toks|
  {
    if toks != [] {
      ServerStubs(props, attr, toks[..|toks| - 1]);
    }
  }

  /** Keys are unique within a pass. */
  lemma KeysUnique(props: Props, attr: string, toks: seq<Token>)
    requires WellFormed(toks)
    ensures UniqueKeys(Run(props, true, attr, toks).hostElements)
  {
    BrowserHosts(props, attr, toks);
    RenderableNames(props, toks);
    ExpectedKeysUnique(Renderables(props, toks));
  }

  lemma ExpectedKeysUnique(occ: seq<(string, Value)>)
    requires NamedRenderables(occ)
    ensures UniqueKeys(ExpectedHosts(occ))
  {
    var hs := ExpectedHosts(occ);
    forall i, j | 0 <= i < j < |hs| ensures hs[i].key != hs[j].key {
      var ni, nj := occ[i].0, occ[j].0;
      var ci, cj := Count(occ[..i + 1], ni), Count(occ[..j + 1], nj);
      ExpectedHostAt(occ, i);
      ExpectedHostAt(occ, j);
      NameHasNoColon(ni);
      NameHasNoColon(nj);
      KeyStringInjective(ni, ci, nj, cj);
      if ni == nj {
        CountPrefixMonotone(occ, i + 1, j, ni);
        assert occ[..j + 1][..j] == occ[..j];
        assert ci < cj;
      }
    }
  }

  lemma NameHasNoColon(n: string)
    requires IsName(n)
    ensures ':' !in n
  {
    forall i | 0 <= i < |n| ensures n[i] != ':' {
      assert IsNameChar(n[i]);
    }
  }

  lemma {:induction false} RenderableNames(props: Props, toks: seq<Token>)
    requires WellFormed(toks)
    ensures NamedRenderables(Renderables(props, toks))
    decreases |toks|
  {
    if toks != [] {
      var init := toks[..|toks| - 1];
      assert forall i :: 0 <= i < |init| ==> init[i] == toks[i];
      RenderableNames(props, init);
      var t := toks[|toks| - 1];
      var occ0, occ := Renderables(props, init), Renderables(props, toks);
      if t.Placeholder? && IsRenderable(Lookup(props.values, t.name)) {
        assert IsName(t.name);
        assert occ == occ0 + [(t.name, Lookup(props.values, t.name))];
        forall j | 0 <= j < |occ| ensures IsName(occ[j].0) && IsRenderable(occ[j].1) {
          if j < |occ0| {
            assert occ[j] == occ0[j];
          } else {
            assert occ[j] == (t.name, Lookup(props.values, t.name));
          }
        }
      } else {
        assert occ == occ0;
      }
    }
  }

  /** A pass that needs no stub does not depend on the scope attribute. */
  lemma {:induction false} AttributeUnused(props: Props, browser: bool, a1: string, a2: string, toks: seq<Token>)
    requires !browser || Renderables(props, toks) == []
    ensures Run(props, browser, a1, toks) == Run(props, browser, a2, toks)
    decreases |toks|
  {
    if toks != [] {
      var init := toks[..|toks| - 1];
      var rest := Renderables(props, init);
      assert |Renderables(props, toks)| >= |rest|;
      AttributeUnused(props, browser, a1, a2, init);
    }
  }

  /** A template made only of literal characters comes out unchanged, with no
      host element and no stub. */
  lemma {:induction false} LiteralPass(props: Props, browser: bool, attr: string, toks: seq<Token>)
    requires AllLiteral(toks)
    ensures Run(props, browser, attr, toks) == Pass(Source(toks), [], 0, map[])
    decreases |toks|
  {
    if toks != [] {
      var init := toks[..|toks| - 1];
      LiteralPass(props, browser, attr, init);
      SourceSnoc(init, toks[|toks| - 1]);
      assert init + [toks[|toks| - 1]] == toks;
    }
  }

  /** A template string without any `{name}` token renders as itself. */
  lemma TemplateWithoutPlaceholders(props: Props, browser: bool, attr: string, template: string)
    requires !HasPlaceholder(template)
    ensures var p := Run(props, browser, attr, Tokenize(template));
            p.html == template && p.hostElements == [] && p.serverStubs == 0
  {
    AllLiteralIff(template);
    TokenizeSource(template);
    LiteralPass(props, browser, attr, Tokenize(template));
  }

  /** A placeholder whose value is not renderable only extends the markup:
      absent values add nothing, strings and `toString` texts are escaped
      exactly when `escapeValues` is set; no host element, stub or counter. */
  lemma ValueText(props: Props, browser: bool, attr: string, p: Pass, name: string)
    requires !IsRenderable(Lookup(props.values, name))
    ensures var q := Step(props, browser, attr, p, Placeholder(name));
            var v := Lookup(props.values, name);
            && q.hostElements == p.hostElements && q.serverStubs == p.serverStubs && q.keyMap == p.keyMap
            && (v.Absent? ==> q.html == p.html)
            && (v.Str? ==> q.html == p.html + if props.escapeValues then Escape(v.s) else v.s)
            && (v.Other? ==> q.html == p.html + if props.escapeValues then Escape(v.text) else v.text)
  {
    assert p.html + "" == p.html;
  }

  /** A renderable value writes a stub element with the value's tag: on the
      server one naming the placeholder, in the browser one carrying the
      pass's attribute and the next key of its name, for which it pushes a
      host element. */
  lemma StubText(props: Props, browser: bool, attr: string, p: Pass, name: string)
    requires IsRenderable(Lookup(props.values, name))
    ensures var q := Step(props, browser, attr, p, Placeholder(name));
            var tag := TagFor(props, name);
            && (name in props.valueTags && props.valueTags[name] != "" ==> tag == props.valueTags[name])
            && (name !in props.valueTags || props.valueTags[name] == "" ==> tag == props.defaultValueTag)
            && (!browser ==>
                  && q.html == p.html + ServerStub(tag, name)
                  && q.hostElements == p.hostElements && q.serverStubs == p.serverStubs + 1 && q.keyMap == p.keyMap)
            && (browser ==>
                  var c := (if name in p.keyMap then p.keyMap[name] else 0) + 1;
                  && q.html == p.html + ClientStub(tag, attr, KeyString(name, c))
                  && q.hostElements == p.hostElements + [HostElement(KeyString(name, c), Lookup(props.values, name))]
                  && q.serverStubs == p.serverStubs && q.keyMap == p.keyMap[name := c])
  {
  }

  /** The markup of `{title}` for a string value, escaped or not. */
  lemma TitleEscaping(browser: bool, attr: string, escapeValues: bool)
    ensures var props := Props(map["title" := Str("<b>")], map[], "span", escapeValues);
            Run(props, browser, attr, Tokenize("{title}")).html == if escapeValues then "&lt;b&gt;" else "<b>"
  {
    var props := Props(map["title" := Str("<b>")], map[], "span", escapeValues);
    var toks := Tokenize("{title}");
    TokenizeTitle();
    assert toks[..0] == [];
    assert Run(props, browser, attr, toks) == Step(props, browser, attr, EmptyPass, Placeholder("title"));
    ValueText(props, browser, attr, EmptyPass, "title");
    EscapeTag();
  }

  /** A name used twice gets the keys `a:1` and `a:2`, left to right. */
  lemma RepeatedNameKeys(props: Props, attr: string)
    requires IsRenderable(Lookup(props.values, "a"))
    ensures var v := Lookup(props.values, "a");
            Run(props, true, attr, Tokenize("{a} {a}")).hostElements == [HostElement("a:1", v), HostElement("a:2", v)]
  {
    TokenizeRepeated("{a} {a}");
    RepeatedHosts(props, attr, Tokenize("{a} {a}"));
  }

  lemma RepeatedHosts(props: Props, attr: string, toks: seq<Token>)
    requires IsRenderable(Lookup(props.values, "a"))
    requires toks == [Placeholder("a"), Lit(' '), Placeholder("a")]
    ensures var v := Lookup(props.values, "a");
            Run(props, true, attr, toks).hostElements == [HostElement("a:1", v), HostElement("a:2", v)]
  {
    BrowserHosts(props, attr, toks);
    RenderablesRepeated(props, toks);
    ExpectedTwice(("a", Lookup(props.values, "a")));
  }

  lemma ExpectedTwice(x: (string, Value))
    requires x.0 == "a"
    ensures ExpectedHosts([x, x]) == [HostElement("a:1", x.1), HostElement("a:2", x.1)]
  {
    ExpectedHostsSnoc([], x);
    CountSnoc([], x, "a");
    ExpectedHostsSnoc([x], x);
    assert [] + [x] == [x] && [x] + [x] == [x, x];
    KeysOfA();
  }

  lemma RenderablesRepeated(props: Props, toks: seq<Token>)
    requires IsRenderable(Lookup(props.values, "a"))
    requires toks == [Placeholder("a"), Lit(' '), Placeholder("a")]
    ensures Renderables(props, toks) == [("a", Lookup(props.values, "a")), ("a", Lookup(props.values, "a"))]
  {
    var x := ("a", Lookup(props.values, "a"));
    assert toks[..2] == [Placeholder("a"), Lit(' ')] && toks[..2][..1] == [Placeholder("a")];
    assert toks[..2][..1][..0] == [];
    assert Renderables(props, toks[..2][..1]) == [] + [x];
    assert Renderables(props, toks[..2]) == [x];
    assert Renderables(props, toks) == [x] + [x];
  }

  lemma KeysOfA()
    ensures KeyString("a", 1) == "a:1" && KeyString("a", 2) == "a:2"
  {
    assert NatToString(1) == "1" && NatToString(2) == "2";
  }

  lemma TokenizeRepeated(t: string)
    requires t == "{a} {a}"
    ensures Tokenize(t) == [Placeholder("a"), Lit(' '), Placeholder("a")]
  {
    assert IsName("a") && t[..3] == "{" + "a" + "}";
    TokenizePlaceholderFirst(t, "a");
    TokenizeSpaceA(t[3..]);
  }

  lemma TokenizeSpaceA(u: string)
    requires u == " {a}"
    ensures Tokenize(u) == [Lit(' '), Placeholder("a")]
  {
    assert MatchPrefix(u).None?;
    TokenizeLiteralFirst(u);
    var w := u[1..];
    assert IsName("a") && w[..3] == "{" + "a" + "}" && w[3..] == [];
    TokenizePlaceholderFirst(w, "a");
  }

  lemma TokenizeTitle()
    ensures Tokenize("{title}") == [Placeholder("title")]
  {
    var t := "{title}";
    assert IsName("title") && t[..7] == "{" + "title" + "}";
    MatchPrefixIff(t, "title");
    assert t[7..] == [];
  }

  function Occurrences(s: string, c: char): (n: nat)
    ensures n <= |s|
  {
    if s == [] then 0 else (if s[0] == c then 1 else 0) + Occurrences(s[1..], c)
  }

  lemma {:induction false} OccurrencesConcat(a: string, b: string, c: char)
    ensures Occurrences(a + b, c) == Occurrences(a, c) + Occurrences(b, c)
  {
    if a != [] {
      assert (a + b)[1..] == a[1..] + b;
      OccurrencesConcat(a[1..], b, c);
    } else {
      assert a + b == b;
    }
  }

  lemma {:induction false} EscapedHasNoTagOpen(s: string)
    ensures Occurrences(Escape(s), '<') == 0
  {
    var e := Escape(s);
    NoOccurrence(e, '<');
  }

  lemma {:induction false} NoOccurrence(s: string, c: char)
    requires forall i :: 0 <= i < |s| ==> s[i] != c
    ensures Occurrences(s, c) == 0
  {
    if s != [] {
      NoOccurrence(s[1..], c);
    }
  }

  /** The literal characters of a template, placeholders dropped. */
  function LiteralText(toks: seq<Token>): string
    decreases |toks|
  {
    if toks == [] then []
    else LiteralText(toks[..|toks| - 1]) + (match toks[|toks| - 1] case Lit(c) => [c] case Placeholder(_) => [])
  }

  /** With escaping on, inserted values never open a tag: every `<` of the
      markup comes from the template text itself (as long as no value is
      renderable, since stubs are tags). */
  lemma {:induction false} EscapedValuesOpenNoTag(props: Props, browser: bool, attr: string, toks: seq<Token>)
    requires props.escapeValues
    requires Renderables(props, toks) == []
    ensures Occurrences(Run(props, browser, attr, toks).html, '<') == Occurrences(LiteralText(toks), '<')
    decreases |toks|
  {
    if toks != [] {
      var init := toks[..|toks| - 1];
      var t := toks[|toks| - 1];
      assert Renderables(props, init) == [] by {
        assert |Renderables(props, toks)| >= |Renderables(props, init)|;
      }
      EscapedValuesOpenNoTag(props, browser, attr, init);
      var q := Run(props, browser, attr, init);
      match t
      case Lit(c) =>
        OccurrencesConcat(q.html, [c], '<');
        OccurrencesConcat(LiteralText(init), [c], '<');
      case Placeholder(name) =>
        var v := Lookup(props.values, name);
        assert !IsRenderable(v);
        var text := InlineText(true, v);
        assert Run(props, browser, attr, toks).html == q.html + text;
        OccurrencesConcat(q.html, text, '<');
        assert LiteralText(toks) == LiteralText(init) + [] == LiteralText(init);
        assert Occurrences(text, '<') == 0 by {
          match v
          case Absent =>
          case Str(s) => EscapedHasNoTagOpen(s);
          case Other(s) => EscapedHasNoTagOpen(s);
        }
    }
  }

  // ---------------------------------------------------------------------------
  // The process-wide id counter and the pass as the component runs it.

  /** The module-level `nextTemplateId`. */
  class IdCounter {
    var next: nat

    constructor ()
      ensures next == 1
    {
      next := 1;
    }

    /** `Template.reset`: only for tests that care about generated ids. */
    method Reset()
      modifies this
      ensures next == 1
    {
      next := 1;
    }

    /** `nextTemplateId++` */
    method Take() returns (id: nat)
      modifies this
      ensures id == old(next) && next == old(next) + 1
    {
      id := next;
      next := next + 1;
    }
  }

  function IdAttribute(id: nat): (a: string)
    ensures a != ""
  {
    "data-template-id=\"" + NatToString(id) + "\""
  }

  /** Distinct ids give distinct attributes, so instances that took their ids
      from two different `Take`s never share a scope. */
  lemma IdAttributeInjective(a: nat, b: nat)
    ensures IdAttribute(a) == IdAttribute(b) <==> a == b
  {
    var prefix := "data-template-id=\"";
    if IdAttribute(a) == IdAttribute(b) {
      var x, y := IdAttribute(a), IdAttribute(b);
      assert x[|prefix|..|x| - 1] == NatToString(a);
      assert y[|prefix|..|y| - 1] == NatToString(b);
      NatToStringInjective(a, b);
    }
  }

  /** The attribute a pass's stubs carry: the instance's own, or else the one
      built from the counter's next id. */
  function ScopeAfter(hostAttribute: string, next: nat): (a: string)
    ensures a != ""
    ensures hostAttribute != "" ==> a == hostAttribute
  {
    if hostAttribute == "" then IdAttribute(next) else hostAttribute
  }

  /** What the pass hands to the wrapper: markup, or (server, with renderable
      values) the element tree `parseHTML` builds from that markup. */
  datatype Content = Html(html: string) | Tree(parsedFrom: string)

  /** The replace callback for one placeholder. `scope` is the attribute the
      pass's stubs carry: the instance's own once it has one, otherwise the one
      the counter's next id gives. */
  method Replace(props: Props, browser: bool, name: string, ghost scope: string, p: Pass, attribute: string,
                 ids: IdCounter)
    returns (q: Pass, newAttribute: string)
    requires scope == ScopeAfter(attribute, ids.next)
    modifies ids
    ensures q == Step(props, browser, scope, p, Placeholder(name))
    ensures var stub := browser && IsRenderable(Lookup(props.values, name));
            && newAttribute == (if stub then scope else attribute)
            && ids.next == old(ids.next) + (if stub && attribute == "" then 1 else 0)
  {
    var html, hostElements, serverStubs, keyMap := p.html, p.hostElements, p.serverStubs, p.keyMap;
    newAttribute := attribute;
    var v := Lookup(props.values, name);
    if !IsRenderable(v) {
      html := html + InlineText(props.escapeValues, v);
    } else {
      var tag := TagFor(props, name);
      if !browser {
        serverStubs := serverStubs + 1;
        html := html + ServerStub(tag, name);
      } else {
        var count := (if name in keyMap then keyMap[name] else 0) + 1;
        keyMap := keyMap[name := count];
        var key := KeyString(name, count);
        hostElements := hostElements + [HostElement(key, v)];
        if newAttribute == "" {
          var id := ids.Take();
          newAttribute := IdAttribute(id);
        }
        html := html + ClientStub(tag, newAttribute, key);
      }
    }
    q := Pass(html, hostElements, serverStubs, keyMap);
  }

  /** `string.replace(regex, callback)` followed by the server-side parse. The
      instance's `hostAttribute` is passed in and the updated one returned. */
  method Substitute(template: string, props: Props, browser: bool, hostAttribute: string, ids: IdCounter)
    returns (content: Content, hostElements: seq<HostElement>, newAttribute: string)
    modifies ids
    ensures var p := Run(props, browser, ScopeAfter(hostAttribute, old(ids.next)), Tokenize(template));
            && (if !browser && p.serverStubs > 0 then content == Tree(p.html) && hostElements == []
                else content == Html(p.html) && hostElements == p.hostElements)
            && (if browser && p.hostElements != [] && hostAttribute == ""
                then newAttribute == IdAttribute(old(ids.next)) && ids.next == old(ids.next) + 1
                else newAttribute == hostAttribute && ids.next == old(ids.next))
    ensures hostElements != [] ==> browser && newAttribute != ""
  {
    var toks := Tokenize(template);
    ghost var scope := ScopeAfter(hostAttribute, ids.next);
    var p;
    p, newAttribute := ReplaceAll(toks, props, browser, hostAttribute, ids);
    if !browser {
      ServerStubs(props, scope, toks);
    }
    if !browser && p.serverStubs > 0 {
      content, hostElements := Tree(p.html), [];
    } else {
      content, hostElements := Html(p.html), p.hostElements;
    }
  }

  /** The replace callback over every match, left to right. */
  method ReplaceAll(toks: seq<Token>, props: Props, browser: bool, hostAttribute: string, ids: IdCounter)
    returns (p: Pass, newAttribute: string)
    modifies ids
    ensures p == Run(props, browser, ScopeAfter(hostAttribute, old(ids.next)), toks)
    ensures p.hostElements == [] ==> newAttribute == hostAttribute && ids.next == old(ids.next)
    ensures p.hostElements != [] ==> newAttribute == ScopeAfter(hostAttribute, old(ids.next)) &&
                                     ids.next == old(ids.next) + (if hostAttribute == "" then 1 else 0)
  {
    ghost var scope := ScopeAfter(hostAttribute, ids.next);
    ghost var first := ids.next;
    p := EmptyPass;
    newAttribute := hostAttribute;
    var i := 0;
    while i < |toks|
      invariant 0 <= i <= |toks|
      invariant p == Run(props, browser, scope, toks[..i])
      invariant scope == ScopeAfter(newAttribute, ids.next)
      invariant p.hostElements == [] ==> newAttribute == hostAttribute && ids.next == first
      invariant p.hostElements != [] ==> newAttribute == scope &&
                                         ids.next == first + (if hostAttribute == "" then 1 else 0)
    {
      assert toks[..i + 1][..i] == toks[..i];
      match toks[i] {
        case Lit(c) =>
          p := p.(html := p.html + [c]);
        case Placeholder(name) =>
          p, newAttribute := Replace(props, browser, name, scope, p, newAttribute, ids);
      }
      i := i + 1;
    }
    assert toks[..i] == toks;
  }

  /** Rendering again with the attribute the first pass left gives the same
      pass, although the counter may have moved in between. */
  lemma SecondPassSame(props: Props, browser: bool, hostAttribute: string, next1: nat, next2: nat, toks: seq<Token>)
    ensures var a1 := ScopeAfter(hostAttribute, next1);
            var p1 := Run(props, browser, a1, toks);
            var kept := if browser && p1.hostElements != [] then a1 else hostAttribute;
            Run(props, browser, ScopeAfter(kept, next2), toks) == p1
  {
    var a1 := ScopeAfter(hostAttribute, next1);
    var p1 := Run(props, browser, a1, toks);
    if !(browser && p1.hostElements != []) {
      if browser {
        BrowserHosts(props, a1, toks);
      }
      AttributeUnused(props, browser, a1, ScopeAfter(hostAttribute, next2), toks);
    }
  }
}
