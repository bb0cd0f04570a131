# react-dynamic-html `Template`, modelled in Dafny

`Template` renders an HTML template string into a wrapper element. `{name}`
placeholders in the string are replaced by values. A string value is inserted
as text. A React element (or, in two of the versions, an array) gets a stub
element in the markup instead. The stub is empty, except in `index.js` on the
server, where it holds the element's static markup. After commit, the component finds those
stubs in the DOM and mounts each value into its stub through a React portal.
Across re-renders, the component puts back a stub element it mounted into
before, as long as the key and tag are the same. This keeps the mounted
content and its state alive.

The repository contains the component three times, and each is modelled as
written:

- `src/index.js` is a class component (`ClassTemplate`).
- `src/index.hooks.js` is a function component with hooks (`HooksTemplate`).
- `index.js` at the root is an older class component, and it is the version
  the package build bundles (`RootTemplate`).

The modules follow the program's structure:

- `Common`: an optional value, the decimal text of a counter, and the
  `name:count` keys built from them. The module proves that a key names one
  (name, count) pair.
- `Escaping`: `escape`, the single pass that turns `' " & < >` into entities.
  The apostrophe becomes `&#39`, with no closing semicolon. The module has a
  reference decoder and proves the round trip, the single-pass behaviour, and
  which strings escaping leaves unchanged.
- `Pattern`: the default pattern `/(\{([$\w]+)\})/g` as a tokenizer. Matches
  do not overlap and are scanned left to right. The module proves that
  tokenizing loses nothing and that it finds a placeholder exactly when the
  string contains one.
- `Dom`: elements as values with an identity, a tag, the instance's
  `data-template-id` attribute and the `data-template-key` attribute. Also:
  scoped and keyed `querySelectorAll`, `replaceChild`, and the wrapper element
  as a class.
- `Substitution`: the render pass shared by the two `src` versions. `Step`
  and `Run` specify it. The `ReplaceAll` method is the replace loop itself
  and `Substitute` adds the server-side parse. Together they keep the key counters, the host-element list, and the lazy per-instance id
  taken from the process-wide counter (the `IdCounter` class). Lemmas state:
  - the k-th renderable occurrence of a name gets key `name:k`;
  - keys within one pass are unique;
  - the server pass allocates no key and no id;
  - a template with no placeholder is its own markup;
  - with escaping on, inserted values never open a tag.
- `Recycling`: the recycling loops of the class and the hooks versions as
  folds over the discovered stubs, with independent characterisations. Also
  the DOM swaps they perform, the portal list, and the output of `render`.
- `ClassTemplate`, `HooksTemplate`, `RootTemplate`: the components as classes
  whose fields are the instance's state, refs and wrapper. Each lifecycle
  method is proved against the specification functions above.

The process-wide id counter is one shared `IdCounter` object that the
instances receive. React's own scheduling stays with the caller. The caller
calls `Render`, then the commit-phase method. It renders again when that
method reports a state change.

The model follows the code in these places:

- The recycle flag of the `src` versions compares the size of the previous
  map with the number of host elements of the pass (`src/index.js:130-131`).
  It does not compare against the number of current keys.
- The hooks version has no "identical node" no-op (`src/index.hooks.js:150`).
- Recycling runs whenever the pass has host elements, even without a previous
  map.
- Stubs are written as `<tag …></tag>` pairs, not as self-closing elements.
- In `index.js`, arrays are not renderable: they become their `toString`
  text. Strings are not escaped.

## Model

| member | source | states |
|---|---|---|
| Common.NatToString | src/index.js:165-166 | the text of a counter is a non-empty run of decimal digits, of two or more digits from 10 on |
| Common.NatToStringInjective | src/index.js:165-166 | distinct counters have distinct texts |
| Common.KeyString | src/index.js:166 | a key starts with the name followed by `:` |
| Common.KeyStringInjective | src/index.hooks.js:69-70 | for names without `:`, two keys are equal if and only if their names and counts are equal |
| Escaping.EntityOf | src/index.js:18-24 | each of the five characters has an entity beginning with `&`; the apostrophe's is `&#39`, the only one that does not end with `;` |
| Escaping.Escape | src/index.js:26-28 | the escaped text is never shorter and contains no `<`, `>`, `"` or `'` |
| Escaping.UnescapeEscape | src/index.js:26-28 | decoding the five entities gives back the original text, so escaping loses nothing |
| Escaping.EscapeConcat | src/index.hooks.js:26-28 | single pass: escaping a concatenation escapes each part on its own |
| Escaping.EscapeFixpoint | src/index.hooks.js:18-28 | escaping leaves a text unchanged if and only if it contains none of the five characters |
| Escaping.EscapeTwiceDiffers | src/index.js:18-28 | escaping is not idempotent: a second call escapes the `&` of `&lt;` again |
| Escaping.EscapeTag | src/index.test.js:188-198 | `<b>` escapes to `&lt;b&gt;` |
| Pattern.NameRun | src/index.js:80 | the run of `[$\w]` characters at the start of a text is maximal |
| Pattern.MatchPrefix | src/index.js:80 | an anchored match captures a valid name and covers exactly `{name}` |
| Pattern.MatchPrefixIff | index.js:4 | the anchored pattern captures `name` if and only if the text starts with `{name}` and `name` is a valid name |
| Pattern.TokenizeSource | src/index.js:154 | the tokens of a template (`Pattern.Tokenize`, the global scan) spell the template again, and every captured name is valid |
| Pattern.TokenizePlaceholderFirst | src/index.js:154 | a template that starts with `{name}` yields that placeholder first, and the scan resumes right after the closing brace |
| Pattern.HasPlaceholderTail | src/index.js:154 | when the first position starts no match, the template contains a placeholder exactly when its tail does |
| Pattern.AllLiteralIff | src/index.hooks.js:58 | the scan finds no placeholder if and only if no position of the template starts one |
| Pattern.NoPlaceholderTokens | src/index.js:154 | a template without placeholders reads as its own characters, one token each |
| Dom.DatasetKeyOfKey | src/index.js:116 | an element's `dataset.templateKey` equals a key the pass writes if and only if the element carries that key; an element without the attribute reads as `"undefined"` (`Dom.DatasetKey`), which is never such a key |
| Dom.QueryScope | src/index.js:113-114 | exactly the wrapper's elements that carry the instance's id attribute, and no more of them than the wrapper holds |
| Dom.QueryScopeAppend | src/index.js:113-114 | the scoped query keeps document order: the query of two consecutive stretches is the query of the first followed by that of the second |
| Dom.QueryKeyed | index.js:64-66 | exactly the elements that carry some `data-template-key` |
| Dom.QueryKeyedAppend | index.js:64-66 | the keyed query keeps document order, in the same sense |
| Dom.ReplaceChild | src/index.js:121 | when the new child is not already in the wrapper, it takes the old child's position and every other element keeps its position; in general the new child is in and the old child out, every other element stays, and replacing an element by itself changes nothing |
| Dom.Container.SetInnerHtml | src/index.js:98 | the wrapper's markup becomes the given HTML and its elements are the ones the browser built from it |
| Dom.Container.ReplaceChildNode | src/index.hooks.js:151 | the wrapper's elements after one `replaceChild` |
| Substitution.ExpectedHosts | src/index.js:165-167 | one host element per renderable placeholder, in order |
| Substitution.ExpectedHostAt | src/index.hooks.js:69-71 | the j-th host element has the j-th renderable name, numbered by that name's occurrences up to and including position j |
| Substitution.BrowserHosts | src/index.js:154-180 | in the browser, the pass (`Substitution.Run`, one `Substitution.Step` per token) pushes exactly the expected host elements, pushes no server stub, and keeps each name's counter equal to its occurrences |
| Substitution.ServerStubs | src/index.js:161-163 | on the server, the pass allocates no key, pushes no host element, and pushes one `null` per renderable placeholder |
| Substitution.KeysUnique | src/index.js:165-167 | no two host elements of one browser pass share a key |
| Substitution.ExpectedKeysUnique | src/index.hooks.js:69-71 | the expected keys of valid names are pairwise distinct |
| Substitution.RepeatedNameKeys | src/index.test.js:241 | a template that uses a renderable name twice gets the keys `a:1` and `a:2`, left to right |
| Substitution.StubText | src/index.js:159-173 | a renderable value writes a stub whose tag is `valueTags[name]`, falling back to `defaultValueTag` when that is missing or empty: on the server `<tag data-template-name="name"></tag>`, counted as one more `null` with no key taken; in the browser `<tag attr data-template-key="name:c"></tag>` with `c` one more than the name's counter, pushing the host element `[name:c, value]` and setting the counter to `c` |
| Substitution.ValueText | src/index.js:155-179 | a non-renderable value (`Substitution.Lookup` gives `Absent` for a missing name) only extends the markup, by its `Substitution.InlineText`: by nothing when absent, and by the escaped or raw text of a string or `toString` result, depending on `escapeValues`; no host element, stub or counter changes |
| Substitution.TitleEscaping | src/index.test.js:188-209 | `{title}` with a string value renders it escaped when escaping is on and raw when it is off |
| Substitution.AttributeUnused | src/index.js:168-173 | a pass that writes no browser stub does not depend on the id attribute |
| Substitution.LiteralPass | src/index.hooks.js:58-84 | a template of literal characters only comes out unchanged, with no host element and no stub |
| Substitution.TemplateWithoutPlaceholders | src/index.js:182-203 | a template string without `{name}` renders as itself, with no host element |
| Substitution.EscapedValuesOpenNoTag | src/index.js:179 | with escaping on and no renderable value, every `<` of the markup comes from the template text |
| Substitution.IdCounter.constructor | src/index.js:13 | the counter starts at 1 |
| Substitution.IdCounter.Reset | src/index.js:72-74 | `reset` sets the counter back to 1 |
| Substitution.IdCounter.Take | src/index.hooks.js:73 | `nextTemplateId++` returns the current id and advances the counter by one |
| Substitution.IdAttribute | src/index.js:169 | the id attribute is never empty |
| Substitution.IdAttributeInjective | src/index.js:8-13 | two ids give the same attribute if and only if they are equal |
| Substitution.ScopeAfter | src/index.js:168-170 | an instance that has an attribute keeps it; otherwise it gets the one the counter's next id gives |
| Substitution.Replace | src/index.js:154-180 | one replace callback is one `Step` (whose stub tag is `Substitution.TagFor`, `valueTags[name] || defaultValueTag`); it takes an id from the counter only for the first browser stub of an instance without an attribute |
| Substitution.ReplaceAll | src/index.js:154-180 | the loop over all matches computes `Run` over the tokens; the attribute and the counter stay unchanged when the pass pushes no host element, and otherwise the attribute is the instance's scope and the counter moved by one exactly when the instance had no attribute |
| Substitution.Substitute | src/index.js:138-204 | the replace loop computes `Run`; the server result with renderable values is the parsed tree with no host elements, otherwise the markup and the host elements; the id is taken, and the counter advances by one, exactly when a browser pass writes a stub for an instance without an attribute (the memoised body at src/index.hooks.js:50-110 is the same pass) |
| Substitution.SecondPassSame | src/index.hooks.js:72-74 | once set, the attribute never changes: rendering again with the attribute the first pass left gives the same pass, wherever the counter has moved |
| Recycling.Chosen | src/index.hooks.js:150-156 | the recorded node has the discovered node's tag |
| Recycling.HooksRecycleSpec | src/index.hooks.js:144-158 | with distinct keys, the hooks loop (`Recycling.HooksRecycle`, one `Recycling.HooksStep` per stub) records every discovered key; each key gets the previous node if that node has the same tag, and the discovered node otherwise; the flag is set if and only if some discovered node has no previous node with its tag |
| Recycling.ClassRecycleSpec | src/index.js:112-128 | with distinct keys, the class loop (`Recycling.ClassRecycle`, one `Recycling.ClassStep` per stub) records exactly the keys whose node is not already the previous one, with the same choice as the hooks loop; the flag is set if and only if some node has no previous node with its tag |
| Recycling.SwapsRestorePrevious | src/index.js:120-122 | every `replaceChild` puts back the previous node for the discovered key, with the same tag; the class loop never swaps a node with itself |
| Recycling.FreshNodesSameDecision | src/index.js:118 | when no discovered node is already the previous node, the class and hooks loops decide the same |
| Recycling.HooksMountPoints | src/index.hooks.js:141-166 | after the commit (`Recycling.Committed`: the new map when the flag or a size mismatch says so, the old one otherwise), every discovered key of the hooks version maps to the node recycling chose for it |
| Recycling.HooksPortalsCoverHosts | src/index.hooks.js:112-131 | if the stubs match the host elements, the render after the effect (`Recycling.Portals`: none on the initial render, the portal list afterwards) has a portal for every host element, on the chosen node |
| Recycling.ClassPortalsCoverHosts | src/index.js:226-241 | the same for the class version, when the stubs are all fresh, or all already recorded with an unchanged count |
| Recycling.ClassDropsIdenticalKey | src/index.js:118-119 | the identity skip can lose a key: if another key changes in the same pass, the committed map lacks the unchanged key that the hooks version keeps |
| Recycling.SwapsPlacePrevious | src/index.hooks.js:151 | with distinct nodes, after the swaps (`Recycling.ApplySwaps`, one `replaceChild` each) every previous node is in the DOM and every replaced node is gone |
| Recycling.PortalList | src/index.js:228-241 | one entry per host element, in order; an entry is present if and only if a node is known for its key, and then it is the portal for that key, node and value |
| Recycling.Discovered | src/index.js:112-114 | no stub is visited when the last render had no host element; every visited stub is in the wrapper and carries the instance's attribute |
| Recycling.InstancesDisjoint | src/index.js:8-13 | two instances whose attributes came from different ids never visit the same stub, whatever the wrapper holds |
| ClassTemplate.Template.constructor | src/index.js:85-91 | an instance starts with no attribute, an empty map and no recorded render |
| ClassTemplate.Template.Render | src/index.js:206-256 | `render` runs the pass with the instance's attribute or the counter's next id; it records markup and host elements unless the server produced a tree; it returns the wrapper (`Recycling.WrapperOf`) and, after mount, the portal list for the recorded nodes, assembled as `portals.length ? [wrapper, ...portals] : wrapper` (`Recycling.Assemble`); the state is unchanged; it keeps `Valid`: whenever host elements are recorded, the instance has an attribute |
| ClassTemplate.Template.UpdateNodes | src/index.js:106-136 | `updateNodes` recycles the instance's stubs with the class loop, commits the new map exactly when the flag is set, and leaves the DOM as the swaps made it; under `Valid` the scope it queries is never empty |
| ClassTemplate.Template.RecycleNodes | src/index.js:112-128 | the `forEach` loop computes the class fold's map and flag and makes its `replaceChild` calls |
| ClassTemplate.Template.ComponentDidMount | src/index.js:93-100 | in the browser it writes the recorded markup into the wrapper, then recycles; on the server it does nothing |
| ClassTemplate.Template.ComponentDidUpdate | src/index.js:102-104 | it recycles against the wrapper as it is |
| HooksTemplate.Template.constructor | src/index.hooks.js:44-48 | unattached, no attribute, an empty map, and no memoised pass |
| HooksTemplate.Template.Render | src/index.hooks.js:44-131 | the pass is recomputed only when the template or props differ from the memoised ones (otherwise the attribute and counter are untouched); the result is the wrapper and, once attached, the portals for the memoised host elements; it keeps `Valid`: whenever the memoised pass has host elements, the instance has an attribute |
| HooksTemplate.Template.LayoutEffect | src/index.hooks.js:133-169 | the effect runs exactly when the markup differs from the last run; it writes the markup only on the initial render; in the browser it then recycles without an identity check and commits exactly when the flag is set; under `Valid` the scope it queries is never empty |
| HooksTemplate.Template.RecycleHosts | src/index.hooks.js:141-166 | the `forEach` loop computes the hooks fold; `setHostNodes` is called with its map exactly when the flag is set |
| RootTemplate.RootValueText | index.js:9-33 | a value that is not a React element extends the markup by exactly its text, unescaped: nothing when absent, the string itself, or the `toString` text of an array or other value; it pushes no slot, and its name's counter still advances (`RootStep` at index.js:49-61 with `DefaultRenderer`) |
| RootTemplate.RootElementStep | index.js:22-30 | a React element becomes a `span` stub with its `name:n` key, holding its static markup on the server and nothing in the browser; in the browser it pushes exactly one slot, a portal into the recorded host when one is known for the key and `null` otherwise |
| RootTemplate.Slots | index.js:53-58 | slot numbers are between 1 and the name's count, and strictly increase per name |
| RootTemplate.Mounts | index.js:22-28 | one slot per element placeholder |
| RootTemplate.RootClientPass | index.js:49-61 | in the browser the pass (`RootTemplate.RootRun`, one `RootTemplate.RootStep` per token) pushes one slot per element placeholder, in order, keyed by the count of all placeholders of its name so far; the counters hold each name's placeholder count |
| RootTemplate.RootServerPass | index.js:16-20 | on the server nothing is pushed onto `portals` |
| RootTemplate.SlotKeysUnique | index.js:54-56 | the keys of a pass's slots are pairwise distinct |
| RootTemplate.RootTemplateWithoutPlaceholders | index.js:49-61 | a template without placeholders is its own markup and pushes nothing |
| RootTemplate.StringsVerbatim | index.js:10-11 | a string value with markup characters is inserted unescaped |
| RootTemplate.Collect | index.js:63-75 | the keys of the keyed elements in document order, each present in the map |
| RootTemplate.CollectLastWins | index.js:69-73 | a key's recorded node is the last element carrying it |
| RootTemplate.RecycleKeys | index.js:80-91 | the loop never adds or removes a key of `hosts` |
| RootTemplate.RootChosen | index.js:85-87 | the host kept for a key has the collected host's tag |
| RootTemplate.RootRecycleStepEffect | index.js:81-90 | one key of the loop: its host becomes the previous host when that has the same tag (an identical host stays), and the flag is raised exactly when no previous host with its tag exists |
| RootTemplate.RecycleKeysSpec | index.js:80-91 | with distinct keys, every key's host is the chosen one, other entries stay, and the flag is set if and only if it started set or some key has no previous host with its tag |
| RootTemplate.RootRecycleSpec | index.js:77-93 | for `RootTemplate.RootRecycle` (one `RootTemplate.RootRecycleStep` per key), the flag starts as "the key count differs from the previous key count"; each key ends with the previous host when that has the same tag |
| RootTemplate.Template.constructor | index.js:41-47 | no cached markup, no keys, no hosts |
| RootTemplate.Template.RenderTemplate | index.js:49-61 | the replace loop computes the specified pass, against the hosts in the state |
| RootTemplate.Template.Render | index.js:116-151 | `cachedHTML` is updated in the browser only; `hasPlaceholders` holds if and only if some slot was pushed; the first browser render with placeholders omits the markup; the output is a fragment with the slots exactly when there are placeholders |
| RootTemplate.Template.CollectHosts | index.js:63-75 | the loop builds exactly `Collect` of the keyed elements |
| RootTemplate.Template.RecycleHosts | index.js:77-93 | the loop computes the specified flag and hosts, and replaces hosts in the DOM by the previous ones |
| RootTemplate.Template.UpdateHosts | index.js:95-101 | without a previous state the collected hosts always count as changed; the state is written only when changed |
| RootTemplate.Template.ComponentDidMount | index.js:103-108 | only with placeholders: writes the cached markup and stores the collected keys and hosts |
| RootTemplate.Template.ComponentDidUpdate | index.js:110-114 | updates hosts only when there are placeholders now or the previous state had keys |
| RootTemplate.MountedPortalsPresent | index.js:22-24 | after the mount, if the host holds exactly the stubs of the pass, the next browser render has a portal for every element placeholder, on its stub |

## Left out

- React itself: scheduling, `setState` batching, the reconciliation of the
  returned tree, `createPortal` and `Fragment` keying. A portal is a
  `(key, node, value)` record, and the caller sequences the lifecycle calls.
- React's own write of `dangerouslySetInnerHTML` into the wrapper on a
  re-render is not modelled. The caller updates the `Container` before the
  commit-phase method runs. `suppressHydrationWarning` appears only as the
  `Suppressed` host props of `index.js`.
- HTML parsing by the browser is a parameter: `parsed` stands for the elements
  the browser builds from the written markup. The server-side
  `html-react-parser` call becomes the `Tree` content, which records the
  markup it parses. `renderToStaticMarkup` is the parameter `serialize`.
- Custom `valuePattern` strings and objects are not modelled; only the
  default pattern is.
- JavaScript property lookup on `values` and `valueTags` is a finite map.
  Prototype keys such as `constructor` are not modelled.
- PropTypes, `defaultProps` and the pass-through wrapper props (`as`, class
  names) are not modelled.
- The DOM is flat: the wrapper's elements in document order. `parentNode` is
  always the wrapper, and text nodes are not modelled.
- `useMemo` compares its dependencies by reference; the model compares the
  template and the props by value.
- Keys that repeat because nested templates in `index.js` write the same key
  are handled as written by `Collect` (the last node wins). The recycling
  lemmas assume distinct keys.
- Dom.ReplaceChild: the position of the new child is stated only when it is
  not already in the wrapper. Otherwise the contract gives membership only:
  the new child is in, the old child is out and every other element stays.
- Recycling.ClassPortalsCoverHosts: proved only when the stubs are all fresh
  or all already recorded. In a mixed pass the identity skip can drop a key
  from the committed map (see `Recycling.ClassDropsIdenticalKey`).
- Substitution.TitleEscaping: uses the value `<b>` rather than the longer
  `<script>` text of the test. The general statement is
  `Substitution.ValueText` together with `Escaping.Escape`.
- HooksTemplate.Template.Render: the memoised `portals` value is recomputed on
  every call, while `useMemo` recomputes it only when `hostElements` or
  `hostNodes` change (src/index.hooks.js:130); `initialRender` is read inside
  but is not a dependency. The values agree on every reachable render: with no
  host elements the list is empty either way, and with host elements the first
  layout effect always calls `setHostNodes`, because the empty initial map's
  size differs from their number (src/index.hooks.js:160-166), so the render
  after mount recomputes the list.
- `nextTemplateId` and the per-name counters are JavaScript numbers, exact only
  up to 2^53; the model's counters are unbounded naturals, so the loss of
  precision past that point is not modelled.
