# Page bootstrap and sidekick bookmarklet generator

This project models two parts of a website built on the Franklin page
pipeline and proves properties of them.

1. **The page bootstrap** (`scripts/scripts.js`). It covers:
   - the stylesheet and script loaders;
   - the metadata reader;
   - the block decorator, which turns the first class of a classed element
     into its block name;
   - the at-most-once block loader;
   - the eager and lazy loading phases;
   - the real-user-monitoring (RUM) sampler, with its 32-bit string hash.
2. **The sidekick generator block**
   (`blocks/sidekick-generator/sidekick-generator.js`). It covers:
   - collecting the form into the `formData` object;
   - writing that object to the page's query string;
   - deriving the bookmarklet configuration and title;
   - pre-filling the form from the query string and auto-running;
   - turning the JSON field schema into labels and inputs;
   - reading the form path out of the block's first paragraph.

Modules:

| file | module | contents |
|---|---|---|
| `strings.dfy` | `Strings` | `Option`, plus the JavaScript `join`, `split` on one character, and `trim` |
| `params.dfy` | `SearchParams` | `URLSearchParams` as an ordered list of pairs: `get`, the value list of a name, `set`, and the last value a `forEach` visits |
| `dom.dfy` | `Dom` | The children of `<head>`, as values. Class lists and attribute maps. What `classList.add`, `decorateBlock`, `loadStyle` and `getMetadata` compute. |
| `rum.dfy` | `Rum` | ECMAScript ToInt32; `hashCode` and its polynomial reference; the session record; class `Hlx`, which holds `window.hlx.rum` |
| `page.dfy` | `Page` | Class `Document`. Body elements are named by their position in document order. The class lists, attribute maps, head and load log are fields that the operations reassign. |
| `sidekick_generator.dfy` | `SidekickGenerator` | The form values, the `formData` object, the configuration and title, pre-filling, schema rendering, and class `GeneratorPage` |

How the asynchronous `loadBlock` is modelled:

- `Document.LoadBlock` is the part that runs before the first `await`. It
  checks the marker, sets it, adds the block stylesheet, and records a
  pending load.
- `Document.Resume` is the continuation after `import()`. It takes the
  outcome of the import and of the module's default export as a value
  passed in: `ImportFailed`, `NoDefaultExport` or `DefaultExport(threw)`.
- The at-most-once guarantee is part of the invariant `Document.Valid`:
  every started element carries the marker, and no element was started
  twice. So however the continuations interleave, the default export of a
  block's module is called at most once for that block.

## Model

| member | source | states |
|---|---|---|
| Strings.Split | blocks/sidekick-generator/sidekick-generator.js:136 | `split` on one character (here and at line 43) gives at least one piece, and no piece contains the separator |
| Strings.JoinSplit | blocks/sidekick-generator/sidekick-generator.js:43 | Joining the pieces of a split with the separator gives back the original string |
| Strings.SplitJoin | blocks/sidekick-generator/sidekick-generator.js:43 | Splitting a join of separator-free parts gives back exactly those parts |
| Strings.SplitSingle | blocks/sidekick-generator/sidekick-generator.js:136 | A string splits into a single piece if and only if it has no separator |
| Strings.SplitAfter | blocks/sidekick-generator/sidekick-generator.js:136 | A separator-free piece followed by the separator comes first, followed by the pieces of the rest |
| Strings.SplitNone | blocks/sidekick-generator/sidekick-generator.js:136 | A string without the separator splits into just itself |
| Strings.JoinSnoc | scripts/scripts.js:107 | Adding a part to a non-empty list puts the separator between the old join and the new part |
| Strings.TrimStart | blocks/sidekick-generator/sidekick-generator.js:136 | The result is a suffix; everything cut off is white space; the result starts with a non-space |
| Strings.TrimEnd | blocks/sidekick-generator/sidekick-generator.js:136 | The result is a prefix; everything cut off is white space; the result ends with a non-space |
| Strings.Trim | blocks/sidekick-generator/sidekick-generator.js:136 | `trim` returns a middle piece of the string. Both cut-off ends are white space, and the piece neither starts nor ends with white space. |
| Strings.TrimIdempotent | blocks/sidekick-generator/sidekick-generator.js:136 | Trimming twice is trimming once |
| SearchParams.Get | scripts/scripts.js:22-23 | `get` is `null` if and only if no pair has the name; otherwise it is the value of the first pair with that name |
| SearchParams.GetIsFirst | scripts/scripts.js:22-23 | The first pair with the name is the one `get` reads |
| SearchParams.Set | blocks/sidekick-generator/sidekick-generator.js:38 | After `set(k, v)`, exactly one pair is named `k` and it holds `v`. The values of every other name are unchanged, in order. |
| SearchParams.LastValueOfValues | blocks/sidekick-generator/sidekick-generator.js:93-102 | The value a `forEach` leaves for a name is the last of that name's values, and is absent exactly when the name has none |
| SearchParams.ValuesAppend | blocks/sidekick-generator/sidekick-generator.js:38 | The values of a name in a concatenation are the values in each part, in order |
| Dom.AddClass | scripts/scripts.js:119 | `classList.add` ends with the class present. It only adds that class, keeps the old list as a prefix, never duplicates, and keeps the token list valid. |
| Dom.DecorateMeaning | scripts/scripts.js:115-121 | An element whose first class is missing or empty (`!blockName`) is left alone. Otherwise it gains class `block`, keeps its first class first, gets that class as its block name, and no other attribute changes. |
| Dom.DecorateIdempotent | scripts/scripts.js:115-121 | Decorating twice is decorating once |
| Dom.LinkCountPositive | scripts/scripts.js:71 | Some link to `href` exists if and only if the head's link count for `href` is positive |
| Dom.WithStyleCount | scripts/scripts.js:70-79 | `loadStyle` never duplicates: afterwards there is exactly one link if there was none, and the same count otherwise. The links to other hrefs are unchanged. The old head is kept as a prefix. |
| Dom.WithStyleIdempotent | scripts/scripts.js:70-79 | Two `loadStyle` calls with the same href leave the head as one call does |
| Dom.WithStylesExtends | scripts/scripts.js:70-79 | Loading several stylesheets keeps the old head as a prefix and leaves a link for each of them |
| Dom.WithStylesCountOther | scripts/scripts.js:70-79 | Loading stylesheets whose hrefs differ from `other` leaves the link count of `other` unchanged |
| Dom.StyleLink | scripts/scripts.js:72-74 | The new node is a `link` with exactly the attributes `rel=stylesheet` and `href` |
| Dom.MetaContents | scripts/scripts.js:107 | The list of matching contents is empty exactly when no meta in the head matches |
| Dom.GetMetadata | scripts/scripts.js:105-109 | With no matching meta, `getMetadata` is the empty string |
| Dom.MetadataSingle | scripts/scripts.js:105-109 | With a single matching meta, `getMetadata` is its content, with no separator |
| Dom.MetadataSnoc | scripts/scripts.js:105-109 | A matching meta added last contributes its content after the earlier ones, separated by `, `. Any other node changes nothing. |
| Rum.ToInt32 | scripts/scripts.js:25 | `| 0` gives the signed 32-bit value congruent to its operand modulo 2^32 |
| Rum.HashStep | scripts/scripts.js:25 | `((a << 5) - a) + c`, reduced to 32 bits, is `31 * a + c` reduced to 32 bits |
| Rum.HashCode | scripts/scripts.js:25 | `hashCode` is the polynomial hash with base 31, reduced modulo 2^32, whatever order the wrap-arounds happen in |
| Rum.HashAppend | scripts/scripts.js:25 | Adding a code unit to a string with hash `h` gives ToInt32(31 * h + c) |
| Rum.Weight | scripts/scripts.js:22-23 | The weight is 1 exactly when the first `rum` parameter of the query has the value `on`, and 100 otherwise |
| Rum.NewSession | scripts/scripts.js:21-31 | The new session has the weight from the query, the id from the polynomial hash of the URL, the time and the random suffix, and the draw. At weight 1 every draw below 1 is selected; at weight 100 exactly the draws below 1/100. |
| Rum.SampledAtWeightOne | scripts/scripts.js:28 | At weight 1, `random * weight < 1` holds exactly for draws below 1 |
| Rum.SampledAtWeightHundred | scripts/scripts.js:28 | At weight 100, `random * weight < 1` holds exactly for draws below 1/100 |
| Rum.OptInIsSelected | scripts/scripts.js:23-28 | With `rum=on`, every draw below 1 is selected, and it sends whenever the draw is non-zero |
| Rum.SendsIffSelected | scripts/scripts.js:28-33 | A beacon goes out if and only if the session is selected and the draw is not 0 |
| Rum.Hlx.SampleRum | scripts/scripts.js:18-41 | The session is created on the first call and never replaced. One beacon, with the stored weight and id, the referer, the generation and the checkpoint, is added exactly when the stored session passes the guard. |
| Page.CssPathNotLazy | scripts/scripts.js:145 | No block stylesheet path is the lazy stylesheet |
| Page.DecorateBlocksMeaning | scripts/scripts.js:127-130 | The `header, footer, [class]` selector only skips elements that decorating would leave alone. So decorating the selection is decorating every element, and the loaded marker is never touched. |
| Page.NewLoadsSound | scripts/scripts.js:160-162 | Each load that `loadBlocks` starts is for a fresh `.block` below main. It carries that element's block name and is not eager. |
| Page.NewLoadsOrdered | scripts/scripts.js:161 | The loads follow document order strictly, so no element is started twice |
| Page.NewLoadsComplete | scripts/scripts.js:161 | Every fresh `.block` below main is started |
| Page.MarkPrefixAt | scripts/scripts.js:141-142 | Marking the first `n` elements sets the marker on exactly the fresh ones and leaves every other element as it was |
| Page.MarkAllMeaning | scripts/scripts.js:160-162 | After marking, every `.block` below main carries the marker. Already-marked elements are untouched, and no other attribute changes. |
| Page.CssPathsAvoidLazy | scripts/scripts.js:145 | The block stylesheets never include the lazy stylesheet |
| Page.AtMostOneInvocation | scripts/scripts.js:141-149 | When loads are for distinct elements, each element's module default export is called on it at most once |
| Page.FirstBlock | scripts/scripts.js:180 | `querySelector('.block')` gives the first element in document order with class `block`, or none when there is no such element |
| Page.LcpBlock | scripts/scripts.js:180-182 | When there is an eager block, it is the first `.block` in document order and has a block name on the LCP list. When there is none, the first `.block` (if any) has no block name or one not on the list. |
| Page.Document.LoadStyle | scripts/scripts.js:70-79 | The new head is the old head with a link to `href` added, unless one is already there |
| Page.Document.LoadScript | scripts/scripts.js:88-98 | A new script node is added to the head and returned. Its attributes are exactly `src`, plus `type` when that is truthy. |
| Page.Document.DecorateBlock | scripts/scripts.js:115-121 | Only element `i` changes, as DecoratedClasses and DecoratedAttrs say; the document stays valid |
| Page.Document.DecorateBlocks | scripts/scripts.js:127-130 | Every element matched by the selector is decorated, in document order, and no other element changes |
| Page.Document.LoadBlock | scripts/scripts.js:140-146 | On a marked element nothing happens. Otherwise the marker is set first, the block stylesheet is added, and one pending load is recorded. The at-most-once invariant is kept. |
| Page.Document.Resume | scripts/scripts.js:146-152 | The continuation settles only that one load, with the given outcome; failures are swallowed |
| Page.Document.InvokedAtMostOnce | scripts/scripts.js:140-154 | In any valid document, no element's module has been called on it twice |
| Page.Document.LoadBlocks | scripts/scripts.js:160-162 | The marker, the load log and the head each follow their reference definition. All `.block` elements below main end up marked, and already-marked elements are untouched. No attribute other than the marker changes, and the lazy stylesheet's link count is untouched. |
| Page.Document.LoadEager | scripts/scripts.js:176-196 | The class lists are decorated exactly when there is a main element. The head, attributes and loads are LoadedEager of the old ones: nothing without main; otherwise decoration, then the LCP part. No attribute other than the block name and the marker changes. |
| Page.Document.LoadLcp | scripts/scripts.js:180-182 | The new state is LoadedLcp of the old one: when the LCP block is unmarked, its marker, its stylesheet and one eager load, settled with the outcome of the awaited module |
| Page.LoadedEagerFrame | scripts/scripts.js:176-182 | The eager phase changes no attribute besides the block name and the marker |
| Page.Document.LoadAs | scripts/scripts.js:208-215 | The new state is LoadedAs of the old one: the element gets the forced name, and, unless it was already marked, the marker, its stylesheet and a pending load. Its other attributes and every other element are unchanged, and the lazy stylesheet's link count is untouched. |
| Page.Document.LoadLazy | scripts/scripts.js:201-219 | The `lcp` checkpoint creates the session if needed and adds its beacon as `sampleRUM` does. The head, attributes and loads are LoadedLazy of the old ones. No attribute other than the block name and the marker changes. With a header the header is `gnav` and marked; with a footer too, it is `footer` and marked, every main block is marked, and the lazy stylesheet has exactly one link if it had none. |
| Page.Document.LoadRest | scripts/scripts.js:217-218 | The new state is LoadedRest of the old one: LoadBlocks' marking, loads and stylesheets, then the lazy stylesheet. All main blocks are marked, already-marked elements are untouched, no attribute other than the marker changes, and the lazy stylesheet is linked without duplication. |
| Page.Document.DecoratePage | scripts/scripts.js:224-227 | The class lists are decorated when there is a main element. The head, attributes and loads are the lazy phase applied to the eager phase's result, and the beacons are those of the `lcp` checkpoint. No attribute other than the block name and the marker changes. With header and footer, both are loaded under their forced names, every main block is loaded, and the lazy stylesheet is linked. |
| SidekickGenerator.Lookup | blocks/sidekick-generator/sidekick-generator.js:25-27 | A property read is `undefined` exactly when no property has the name, and is otherwise that property's value |
| SidekickGenerator.AssignMeaning | blocks/sidekick-generator/sidekick-generator.js:19-21 | `d[k] = v` makes `d[k]` equal to `v` and leaves every other property alone. Names stay distinct and keep their order; a new name goes last. |
| SidekickGenerator.CollectMeaning | blocks/sidekick-generator/sidekick-generator.js:16-23 | The collected object has distinct names. Each property holds the value of the last input with that id: the reference LastField. |
| SidekickGenerator.LastFieldMeaning | blocks/sidekick-generator/sidekick-generator.js:17-23 | LastField is absent exactly when no input has the id. Otherwise it is the value of an input with that id after which no input has it. |
| SidekickGenerator.WriteAllValues | blocks/sidekick-generator/sidekick-generator.js:38 | After writing the object, each of its properties has exactly one pair in the query, holding its value as a string; every other name keeps its pairs |
| SidekickGenerator.DeriveConfig | blocks/sidekick-generator/sidekick-generator.js:43-57 | The owner is the first path segment and the repo is the second (or `undefined`). The ref is the fourth segment when it exists and is non-empty, and `main` otherwise. The token appears exactly when it is truthy. |
| SidekickGenerator.RepositoryConfig | blocks/sidekick-generator/sidekick-generator.js:43-57 | A `/owner/repo/kind/ref` path, with any number of further segments, gives back its owner, repo and ref, and `main` for an empty ref |
| SidekickGenerator.BareRepositoryConfig | blocks/sidekick-generator/sidekick-generator.js:43-46 | A bare `/owner/repo` path falls back to ref `main` |
| SidekickGenerator.SegmentsOfPath | blocks/sidekick-generator/sidekick-generator.js:43 | The segments of the path `/` + the join of separator-free parts are exactly those parts |
| SidekickGenerator.Title | blocks/sidekick-generator/sidekick-generator.js:78-81 | The title is plain `Sidekick` exactly when the project is falsy; otherwise it is the project, a space, then `Sidekick`. It always ends in `Sidekick`. |
| SidekickGenerator.BookmarkFor | blocks/sidekick-generator/sidekick-generator.js:43-84 | Text and `title` attribute are the same. They are `Sidekick` when the project is falsy, and otherwise a project property's value, a space, then `Sidekick`. The configuration's owner is the first path segment and its repo the second (undefined without one). Its ref is the fourth segment when that is present and non-empty, and `main` otherwise. It has a token exactly when the token property is truthy, and then it is the token property's value. |
| SidekickGenerator.FirstWithId | blocks/sidekick-generator/sidekick-generator.js:94-95 | `input#k` gives none exactly when no input has id `k`; otherwise it gives the first input with that id |
| SidekickGenerator.PrefilledShape | blocks/sidekick-generator/sidekick-generator.js:93-102 | Pre-filling changes no input's id or type, only `checked` and `value` |
| SidekickGenerator.PrefilledField | blocks/sidekick-generator/sidekick-generator.js:93-102 | With distinct ids, each input is filled from the last parameter that names it: checked unless the value is `false`, or given the value. An input no parameter names is untouched. |
| SidekickGenerator.RoundTrip | blocks/sidekick-generator/sidekick-generator.js:16-38 | Pre-filling a form of the same shape from the query `run` wrote restores every field's recorded value |
| SidekickGenerator.FieldRoundTrip | blocks/sidekick-generator/sidekick-generator.js:18-22 | A recorded field value, written as a string and read back into an input of the same type by `init`, is recorded again unchanged |
| SidekickGenerator.LabelOf | blocks/sidekick-generator/sidekick-generator.js:147-149 | The label names the row's field and starts with the row's label text. One `*` is added exactly when the field is required. |
| SidekickGenerator.RenderedFields | blocks/sidekick-generator/sidekick-generator.js:144-155 | The form's inputs are exactly one per row, in row order |
| SidekickGenerator.RenderedSize | blocks/sidekick-generator/sidekick-generator.js:144-155 | The form has one element per row, plus one per labelled row |
| SidekickGenerator.RenderedPrefix | blocks/sidekick-generator/sidekick-generator.js:144-155 | Each row only appends: the elements of the first n rows begin the form |
| SidekickGenerator.RenderedRow | blocks/sidekick-generator/sidekick-generator.js:144-155 | Row i's elements start at position i plus the number of labelled rows before it. A label is there exactly when the row's label text is truthy, and it is that row's label. The row's input follows right after it, or sits there when there is no label. |
| SidekickGenerator.RenderSchema | blocks/sidekick-generator/sidekick-generator.js:144-155 | The loop appends exactly the rendered rows |
| SidekickGenerator.ExtractFormPath | blocks/sidekick-generator/sidekick-generator.js:131-138 | With at most one paragraph, the path is `./generator` and the paragraphs are kept. Otherwise the first paragraph is removed, and the path is `undefined` exactly when that paragraph has no `:`. |
| SidekickGenerator.FormPathOf | blocks/sidekick-generator/sidekick-generator.js:131-138 | A first paragraph `caption:path`, where the path runs to the next `:` or to the end, gives that path trimmed (so `Form: https://h/x` gives `https`) and removes the paragraph |
| SidekickGenerator.GeneratorPage.CollectFormData | blocks/sidekick-generator/sidekick-generator.js:16-23 | The `forEach` builds exactly the collected object |
| SidekickGenerator.GeneratorPage.Run | blocks/sidekick-generator/sidekick-generator.js:11-87 | Without a truthy `giturl` nothing changes. Otherwise the query becomes the write-out of the object, the bookmark gets the derived configuration and title, and one ready event is dispatched. |
| SidekickGenerator.GeneratorPage.Publish | blocks/sidekick-generator/sidekick-generator.js:35-86 | The query becomes the write-out of the object, the bookmark the one derived from the object and the path, and one ready event is dispatched |
| SidekickGenerator.GeneratorPage.WriteQuery | blocks/sidekick-generator/sidekick-generator.js:38 | The query after the `usp.set` loop is WriteAll of the old query |
| SidekickGenerator.GeneratorPage.Prefill | blocks/sidekick-generator/sidekick-generator.js:90-102 | The inputs become the pre-filled ones, and `autorun` is set exactly when some parameter names an input |
| SidekickGenerator.GeneratorPage.Init | blocks/sidekick-generator/sidekick-generator.js:89-117 | The form is pre-filled. It is hidden and run exactly when a parameter matched, and the effects of the run are those of `run` on the pre-filled form. Otherwise the query, the bookmark and the events are unchanged. |

## Left out

- I/O and timing are not modelled:
  - the network (`fetch` of the form schema and `sendBeacon`);
  - dynamic `import()` of block modules and of the web-vitals module, and the CWV re-sends;
  - `Math.random`, `Date`, and the hex rendering of the id suffix.
  All of these are parameters (`Rum.Env`, `ModuleOutcome`, the schema rows) or left out.
- Rum.NewSession: the draw is an exact real in [0, 1). Floating-point rounding of `random * weight` is not modelled.
- Rum.Hlx.SampleRum: the extra `data` fields of the beacon body, the `try`/`catch`, and the serialisation to JSON are not modelled.
- `window.addEventListener` and the `load`/`click` checkpoints are not modelled. Of `history.pushState` only the history entry is dropped: its effect on the query string is the `query` field. The `alert` dialogs are not modelled. Neither are the `help` click handler, the performance logger (`stamp`, `registerPerformanceLogger`) or the commented-out code.
- Page.Document.LoadEager:
  - `removeEmptyDivs` is not modelled.
  - The wait for the hero image (`main img`) is not modelled.
  - The function calls `decorateMain`, which the file never defines. The model uses `decorateBlocks`, as the first `decoratePage` (lines 168-171) does.
  - Likewise `lcpBlocks` is never defined, so it is a parameter.
- The file declares `decoratePage` twice at top level (lines 168 and 224). In an ES module, which the file is (it uses `export`), that is an early SyntaxError, so as written none of the file runs. Page.Document.DecoratePage models the second declaration as the intended one; the first is covered by DecorateBlocks.
- Page.Document.Resume, Page.Document.LoadEager and Page.Document.DecoratePage model the evidently intended swallowing of a module failure. The `catch` block of `loadBlock` calls `debug` (line 151), which the file never defines, so as written it throws a ReferenceError and `loadBlock`'s promise rejects. For the LCP block, `await loadBlock(block, true)` then rejects `loadEager`, and `decoratePage` never reaches `loadLazy`.
- Dom.HasLink and Dom.IsMeta compare the href and the name exactly. The source builds the selectors `link[href="..."]` and `meta[attr="..."]` by pasting the value in, so a value containing `"` or `\` makes the query throw or select something else; that is not modelled.
- Page.Document: body elements are positions in a fixed document. Element creation and removal, and the `main` subtree, are inputs (`inMain`) rather than a tree.
- Page.Document.LoadScript: `script.onload = callback` is not modelled. The callback is an effect of the browser loading the script, and scripts are never loaded here.
- Page.Document.LoadBlock: the module's effect on the document is opaque. `Resume` records only the outcome, and nothing else in the document changes.
- Page.Document.LoadLazy: exactly one link to the lazy stylesheet is proved only when it had none before, since `loadStyle` never removes links.
- Page.Document.LoadBlocks: without a main element the source fails inside an async function. The model treats that as loading nothing (`inMain` empty).
- The decorator selector `[class]` is modelled by a non-empty class list. An element with an empty `class` attribute is left alone either way, as is one whose first class is the empty string (Dom.HasBlockName).
- Strings.IsJsSpace: characters are Dafny `char`s, so code units outside the basic plane and surrogate pairs are not modelled. The `trim` white-space set is the ECMAScript one.
- SidekickGenerator.GeneratorPage.Run:
  - `new URL(giturl).pathname` is the parameter `pathOf`; URL parsing, and its exception on a malformed URL, are not modelled.
  - The bookmarklet's `href` text (`JSON.stringify`, `window.location.origin`) is represented by the configuration it embeds.
  - `url.search = usp.toString()` is represented by the parameter list itself.
- SidekickGenerator.FormData: the object's keys keep insertion order. JavaScript lists integer-like keys first, and that is not modelled.
- SidekickGenerator.Row: JSON schema values are strings or missing. Other JSON types, and their truthiness, are not modelled.
- SidekickGenerator.GeneratorPage: every input is inside the form container, and the inputs are the form's content. The `input#k` selector is modelled as the first input with id `k`; CSS escaping of `k` and ids that are not valid selectors are not modelled.
- `decorate` beyond the form path and the schema is not modelled. This covers:
  - the submit button label;
  - the bookmarklet container;
  - the web-store and extension containers;
  - the `from` back link in `init`;
  - the `sidekickGeneratorReady` listener, whose dispatches are counted in `readyEvents`;
  - `encodeURI` of the form path;
  - the `hidden` class on elements other than the form.
- `utils/tag.js` (`createTag`) is not part of this model. Created elements are the `FormElem` values.
