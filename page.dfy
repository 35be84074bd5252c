/**
 * The page bootstrap of scripts/scripts.js: the resource loader, the block
 * decorator, the at-most-once block loader and the eager and lazy phases of
 * page loading.
 *
 * The document is one object. Its body elements never change identity, so
 * each is named by its position in document order; their tags are fixed and
 * their class lists and attribute maps are fields of the document that the
 * bootstrap reassigns.
 *
 * `loadBlock` is an async function. Everything up to its first `await`
 * (the marker, the stylesheet) runs synchronously in the caller; what comes
 * after the dynamic `import()` runs later, interleaved with anything else.
 * The model splits it the same way: LoadBlock is the synchronous part and
 * records a pending load, and Resume is the continuation, which takes the
 * outcome of the import and of the module's default export as an opaque
 * oracle value.
 */
module Page {
  import opened Strings
  import opened Dom
  import Rum

  /** What the dynamic `import()` of a block module and its default export came to. */
  datatype ModuleOutcome = ImportFailed | NoDefaultExport | DefaultExport(threw: bool)

  /** Where the continuation of a load stands: still awaiting `import()`, or come back with an outcome. */
  datatype Status = Pending | Settled(outcome: ModuleOutcome)

  /** A load that has passed the marker check of `loadBlock` for element `block`, named `name`. */
  datatype Load = Load(block: nat, name: string, eager: bool, status: Status)

  const LazyStyles: string := "/styles/lazy-styles.css"

  /** `/blocks/${name}/${name}.css`. */
  function CssPath(name: string): string
  {
    "/blocks/" + name + "/" + name + ".css"
  }

  /** No block stylesheet is the lazy stylesheet: one lives under /blocks/, the other under /styles/. */
  lemma CssPathNotLazy(name: string)
    ensures CssPath(name) != LazyStyles
  {
    assert CssPath(name)[1] == 'b';
    assert LazyStyles[1] == 's';
  }

  /** `getAttribute('data-block-loaded')` is truthy: present and not the empty string. */
  predicate IsLoaded(attrs: map<string, string>)
  {
    BlockLoaded in attrs && attrs[BlockLoaded] != ""
  }

  /** `${block.getAttribute('data-block-name')}`: a missing name prints as "null". */
  function NameIn(attrs: map<string, string>): string
  {
    if BlockName in attrs then attrs[BlockName] else "null"
  }

  lemma AttributeNamesDiffer()
    ensures BlockName != BlockLoaded
  {
    assert |BlockName| != |BlockLoaded|;
  }

  /**
   * `header, footer, [class]` selects the element. An element whose class
   * attribute is present but empty has no classes, and `decorateBlock`
   * leaves it alone, so the class list stands in for the attribute.
   */
  predicate Decoratable(tag: string, cl: seq<string>)
  {
    tag == "header" || tag == "footer" || cl != []
  }

  /** What `decorateBlocks` leaves of one element's class list: the selector skips a classless element other than header and footer. */
  function DecoratedClassAt(tag: string, cl: seq<string>): seq<string>
  {
    if Decoratable(tag, cl) then DecoratedClasses(cl) else cl
  }

  /** What `decorateBlocks` leaves of one element's attributes. */
  function DecoratedAttrAt(tag: string, cl: seq<string>, at: map<string, string>): map<string, string>
  {
    if Decoratable(tag, cl) then DecoratedAttrs(cl, at) else at
  }

  /** The class lists after `decorateBlocks`. */
  function DecoratedClassLists(tags: seq<string>, cls: seq<seq<string>>): seq<seq<string>>
  {
    seq(|cls|, k requires 0 <= k < |cls| => if k < |tags| then DecoratedClassAt(tags[k], cls[k]) else cls[k])
  }

  /** The attribute maps after `decorateBlocks`. */
  function DecoratedAttrLists(tags: seq<string>, cls: seq<seq<string>>, ats: seq<map<string, string>>): seq<map<string, string>>
  {
    seq(|ats|, k requires 0 <= k < |ats| =>
      if k < |tags| && k < |cls| then DecoratedAttrAt(tags[k], cls[k], ats[k]) else ats[k])
  }

  /**
   * The selector only skips elements that decorating would leave alone:
   * decorating the whole body is decorating each element, and it never
   * touches the loaded marker.
   */
  lemma DecorateBlocksMeaning(tags: seq<string>, cls: seq<seq<string>>, ats: seq<map<string, string>>)
    requires |tags| == |cls| == |ats|
    ensures forall k :: 0 <= k < |cls| ==> DecoratedClassLists(tags, cls)[k] == DecoratedClasses(cls[k])
    ensures forall k :: 0 <= k < |ats| ==> DecoratedAttrLists(tags, cls, ats)[k] == DecoratedAttrs(cls[k], ats[k])
    ensures forall k :: 0 <= k < |ats| ==> (IsLoaded(DecoratedAttrLists(tags, cls, ats)[k]) <==> IsLoaded(ats[k]))
  {
    AttributeNamesDiffer();
  }

  /** Element `i` is a `.block` below main and does not carry the marker. */
  predicate Fresh(cls: seq<seq<string>>, ats: seq<map<string, string>>, inMain: set<nat>, i: nat)
  {
    i in inMain && i < |cls| && i < |ats| && BlockClass in cls[i] && !IsLoaded(ats[i])
  }

  /** The load `loadBlocks` starts for element `i`: one when it is fresh, none otherwise. */
  function StepLoads(cls: seq<seq<string>>, ats: seq<map<string, string>>, inMain: set<nat>, i: nat): seq<Load>
  {
    if Fresh(cls, ats, inMain, i) then [Load(i, NameIn(ats[i]), false, Pending)] else []
  }

  /** The loads `loadBlocks` starts among the first `n` elements, in document order. */
  function NewLoads(cls: seq<seq<string>>, ats: seq<map<string, string>>, inMain: set<nat>, n: nat): seq<Load>
  {
    if n == 0 then [] else NewLoads(cls, ats, inMain, n - 1) + StepLoads(cls, ats, inMain, n - 1)
  }

  /** Every load `loadBlocks` starts is for a fresh element, under that element's block name, not eager. */
  lemma {:induction false} NewLoadsSound(cls: seq<seq<string>>, ats: seq<map<string, string>>, inMain: set<nat>, n: nat)
    ensures forall k :: 0 <= k < |NewLoads(cls, ats, inMain, n)| ==>
      var l := NewLoads(cls, ats, inMain, n)[k];
      l.block < n && Fresh(cls, ats, inMain, l.block) && l == Load(l.block, NameIn(ats[l.block]), false, Pending)
  {
    if n > 0 {
      NewLoadsSound(cls, ats, inMain, n - 1);
      var p := NewLoads(cls, ats, inMain, n - 1);
      var step := StepLoads(cls, ats, inMain, n - 1);
      var r := NewLoads(cls, ats, inMain, n);
      assert r == p + step;
      forall k | 0 <= k < |r|
        ensures r[k].block < n && Fresh(cls, ats, inMain, r[k].block)
        ensures r[k] == Load(r[k].block, NameIn(ats[r[k].block]), false, Pending)
      {
        if k < |p| {
          assert r[k] == p[k];
        } else {
          assert r[k] == step[0] == Load(n - 1, NameIn(ats[n - 1]), false, Pending);
        }
      }
    }
  }

  /** The loads follow document order, so no element is started twice. */
  lemma {:induction false} NewLoadsOrdered(cls: seq<seq<string>>, ats: seq<map<string, string>>, inMain: set<nat>, n: nat)
    ensures forall k, k' :: 0 <= k < k' < |NewLoads(cls, ats, inMain, n)| ==>
      NewLoads(cls, ats, inMain, n)[k].block < NewLoads(cls, ats, inMain, n)[k'].block
  {
    if n > 0 {
      NewLoadsOrdered(cls, ats, inMain, n - 1);
      NewLoadsSound(cls, ats, inMain, n - 1);
      var p := NewLoads(cls, ats, inMain, n - 1);
      var step := StepLoads(cls, ats, inMain, n - 1);
      var r := NewLoads(cls, ats, inMain, n);
      assert r == p + step;
      forall k, k' | 0 <= k < k' < |r|
        ensures r[k].block < r[k'].block
      {
        assert r[k] == p[k] && p[k].block < n - 1;
        if k' < |p| {
          assert r[k'] == p[k'];
        } else {
          assert r[k'] == step[0] && step[0].block == n - 1;
        }
      }
    }
  }

  /** Some load in `ls` is for element `e`. */
  predicate Started(ls: seq<Load>, e: nat)
  {
    exists k :: 0 <= k < |ls| && ls[k].block == e
  }

  /** Every fresh element among the first `n` is started. */
  lemma {:induction false} NewLoadsComplete(cls: seq<seq<string>>, ats: seq<map<string, string>>, inMain: set<nat>, n: nat)
    ensures forall j :: 0 <= j < n && Fresh(cls, ats, inMain, j) ==> Started(NewLoads(cls, ats, inMain, n), j)
  {
    if n > 0 {
      NewLoadsComplete(cls, ats, inMain, n - 1);
      var p := NewLoads(cls, ats, inMain, n - 1);
      var r := NewLoads(cls, ats, inMain, n);
      assert r == p + StepLoads(cls, ats, inMain, n - 1);
      forall j | 0 <= j < n && Fresh(cls, ats, inMain, j)
        ensures Started(r, j)
      {
        if j < n - 1 {
          assert Started(p, j);
          var k :| 0 <= k < |p| && p[k].block == j;
          assert r[k] == p[k];
        } else {
          assert r[|p|].block == j;
        }
      }
    }
  }

  /** The attribute maps after marking the fresh elements among the first `n`, one at a time. */
  function MarkPrefix(cls: seq<seq<string>>, ats: seq<map<string, string>>, inMain: set<nat>, n: nat): (r: seq<map<string, string>>)
    ensures |r| == |ats|
  {
    if n == 0 then ats
    else
      var p := MarkPrefix(cls, ats, inMain, n - 1);
      if Fresh(cls, ats, inMain, n - 1) then p[n - 1 := ats[n - 1][BlockLoaded := "true"]] else p
  }

  /**
   * What marking does to each element: a fresh element among the first `n`
   * gets the marker, every other element is as it was.
   */
  lemma {:induction false} MarkPrefixAt(cls: seq<seq<string>>, ats: seq<map<string, string>>, inMain: set<nat>, n: nat, k: nat)
    requires k < |ats|
    ensures MarkPrefix(cls, ats, inMain, n)[k] ==
      if k < n && Fresh(cls, ats, inMain, k) then ats[k][BlockLoaded := "true"] else ats[k]
  {
    if n > 0 {
      MarkPrefixAt(cls, ats, inMain, n - 1, k);
    }
  }

  /**
   * After marking all elements: every `.block` below main carries the
   * marker, an element that already carried it is untouched, and no other
   * attribute of any element changed.
   */
  lemma MarkAllMeaning(cls: seq<seq<string>>, ats: seq<map<string, string>>, inMain: set<nat>)
    ensures var r := MarkPrefix(cls, ats, inMain, |ats|);
      && (forall e :: e in inMain && e < |cls| && e < |ats| && BlockClass in cls[e] ==> IsLoaded(r[e]))
      && (forall e :: 0 <= e < |ats| && IsLoaded(ats[e]) ==> r[e] == ats[e])
      && (forall e, key :: 0 <= e < |ats| && key != BlockLoaded ==> GetAttribute(r[e], key) == GetAttribute(ats[e], key))
  {
    forall e | 0 <= e < |ats|
      ensures MarkPrefix(cls, ats, inMain, |ats|)[e] ==
        if Fresh(cls, ats, inMain, e) then ats[e][BlockLoaded := "true"] else ats[e]
    {
      MarkPrefixAt(cls, ats, inMain, |ats|, e);
    }
  }

  /** The stylesheets the loads `ls` put in the head, in order. */
  function CssPaths(ls: seq<Load>): seq<string>
  {
    if ls == [] then [] else CssPaths(ls[..|ls| - 1]) + [CssPath(ls[|ls| - 1].name)]
  }

  lemma {:induction false} CssPathsAppend(a: seq<Load>, b: seq<Load>)
    ensures CssPaths(a + b) == CssPaths(a) + CssPaths(b)
    decreases |b|
  {
    if b == [] {
      assert a + b == a;
    } else {
      assert (a + b)[..|a + b| - 1] == a + b[..|b| - 1];
      CssPathsAppend(a, b[..|b| - 1]);
    }
  }

  /** Block stylesheets never include the lazy stylesheet. */
  lemma {:induction false} CssPathsAvoidLazy(ls: seq<Load>)
    ensures forall i :: 0 <= i < |CssPaths(ls)| ==> CssPaths(ls)[i] != LazyStyles
  {
    if ls != [] {
      CssPathsAvoidLazy(ls[..|ls| - 1]);
      CssPathNotLazy(ls[|ls| - 1].name);
    }
  }

  lemma {:induction false} WithStylesAppend(head: seq<Node>, a: seq<string>, b: seq<string>)
    ensures WithStyles(head, a + b) == WithStyles(WithStyles(head, a), b)
    decreases |b|
  {
    if b != [] {
      assert (a + b)[..|a + b| - 1] == a + b[..|b| - 1];
      WithStylesAppend(head, a, b[..|b| - 1]);
    } else {
      assert a + b == a;
    }
  }

  /** How one more element extends the marking, the load list and the head. */
  lemma VisitStep(cls: seq<seq<string>>, ats: seq<map<string, string>>, inMain: set<nat>, i: nat,
                  loads0: seq<Load>, head0: seq<Node>)
    requires i < |ats|
    ensures var p := MarkPrefix(cls, ats, inMain, i);
      var before := NewLoads(cls, ats, inMain, i);
      && p[i] == ats[i]
      && (Fresh(cls, ats, inMain, i) ==>
            && MarkPrefix(cls, ats, inMain, i + 1) == p[i := p[i][BlockLoaded := "true"]]
            && loads0 + NewLoads(cls, ats, inMain, i + 1) == loads0 + before + [Load(i, NameIn(p[i]), false, Pending)]
            && WithStyles(head0, CssPaths(NewLoads(cls, ats, inMain, i + 1)))
               == WithStyle(WithStyles(head0, CssPaths(before)), CssPath(NameIn(p[i]))))
      && (!Fresh(cls, ats, inMain, i) ==>
            && MarkPrefix(cls, ats, inMain, i + 1) == p
            && NewLoads(cls, ats, inMain, i + 1) == before)
  {
    MarkPrefixAt(cls, ats, inMain, i, i);
    var before := NewLoads(cls, ats, inMain, i);
    var step := StepLoads(cls, ats, inMain, i);
    assert before + [] == before;
    if Fresh(cls, ats, inMain, i) {
      CssPathsAppend(before, step);
      WithStylesAppend(head0, CssPaths(before), CssPaths(step));
      assert loads0 + before + step == loads0 + (before + step);
      assert CssPaths(step) == [CssPath(NameIn(ats[i]))];
      assert CssPaths(step)[..0] == [];
    }
  }

  /** The load has come back with a default export, which was then called. */
  predicate Invoked(l: Load)
  {
    l.status.Settled? && l.status.outcome.DefaultExport?
  }

  /** How many of the loads called the default export of element `e`'s module on `e`. */
  function InvocationCount(ls: seq<Load>, e: nat): nat
  {
    if ls == [] then 0
    else InvocationCount(ls[..|ls| - 1], e) + (if ls[|ls| - 1].block == e && Invoked(ls[|ls| - 1]) then 1 else 0)
  }

  /** No element was started twice. */
  predicate DistinctBlocks(ls: seq<Load>)
  {
    forall i, j :: 0 <= i < j < |ls| ==> ls[i].block != ls[j].block
  }

  lemma {:induction false} NoInvocationOfAbsent(ls: seq<Load>, e: nat)
    requires forall i :: 0 <= i < |ls| ==> ls[i].block != e
    ensures InvocationCount(ls, e) == 0
  {
    if ls != [] {
      NoInvocationOfAbsent(ls[..|ls| - 1], e);
    }
  }

  /** Loads of distinct elements call each element's module at most once. */
  lemma {:induction false} AtMostOneInvocation(ls: seq<Load>, e: nat)
    requires DistinctBlocks(ls)
    ensures InvocationCount(ls, e) <= 1
  {
    if ls != [] {
      var init := ls[..|ls| - 1];
      if ls[|ls| - 1].block == e {
        NoInvocationOfAbsent(init, e);
      } else {
        AtMostOneInvocation(init, e);
      }
    }
  }

  /** `document.querySelector('.block')`: the first element in document order with the `block` class. */
  function FirstBlock(cls: seq<seq<string>>): (r: Option<nat>)
    ensures r.Some? ==> r.value < |cls| && BlockClass in cls[r.value]
    ensures r.Some? ==> forall j :: 0 <= j < r.value ==> BlockClass !in cls[j]
    ensures r.None? ==> forall j :: 0 <= j < |cls| ==> BlockClass !in cls[j]
  {
    if cls == [] then None
    else if BlockClass in cls[0] then Some(0)
    else match FirstBlock(cls[1..])
      case None => None
      case Some(i) => Some(i + 1)
  }

  /** Element `b` is the one `document.querySelector('.block')` returns. */
  predicate IsFirstBlock(cls: seq<seq<string>>, b: nat)
  {
    b < |cls| && BlockClass in cls[b] && forall j :: 0 <= j < b ==> BlockClass !in cls[j]
  }

  /**
   * The block `loadEager` loads eagerly: the first block, when it has a
   * block name and that name is on the LCP list; none otherwise.
   */
  function LcpBlock(cls: seq<seq<string>>, ats: seq<map<string, string>>, lcpBlocks: seq<string>): (r: Option<nat>)
    ensures r.Some? ==> IsFirstBlock(cls, r.value) && r.value < |ats|
                        && GetAttribute(ats[r.value], BlockName).Some? && ats[r.value][BlockName] in lcpBlocks
    ensures r.None? ==> forall b: nat :: IsFirstBlock(cls, b) && b < |ats| ==>
                          GetAttribute(ats[b], BlockName).None? || ats[b][BlockName] !in lcpBlocks
  {
    match FirstBlock(cls)
    case None => None
    case Some(b) =>
      assert forall b': nat :: IsFirstBlock(cls, b') ==> b' == b by {
        forall b': nat | IsFirstBlock(cls, b') ensures b' == b {
          assert !(b' < b) && !(b < b');
        }
      }
      if b < |ats| && BlockName in ats[b] && ats[b][BlockName] in lcpBlocks then Some(b) else None
  }

  /** What the page phases read and write besides the class lists: the head, the attribute maps and the loads. */
  datatype Snapshot = Snapshot(head: seq<Node>, attrs: seq<map<string, string>>, loads: seq<Load>)

  /**
   * The state after the LCP part of `loadEager()`, whose eager load came back
   * with `outcome`: when the LCP block is not yet marked, its marker, its
   * stylesheet and its settled load; nothing otherwise.
   */
  function LoadedLcp(cls: seq<seq<string>>, s: Snapshot, lcpBlocks: seq<string>, outcome: ModuleOutcome): (r: Snapshot)
    ensures |r.attrs| == |s.attrs|
  {
    var lcp := LcpBlock(cls, s.attrs, lcpBlocks);
    if lcp.Some? && !IsLoaded(s.attrs[lcp.value]) then
      var b := lcp.value;
      Snapshot(WithStyle(s.head, CssPath(NameIn(s.attrs[b]))), s.attrs[b := s.attrs[b][BlockLoaded := "true"]],
               s.loads + [Load(b, NameIn(s.attrs[b]), true, Settled(outcome))])
    else s
  }

  /** The state after `loadEager()`: nothing without a main element; otherwise decoration, then the LCP block. */
  function LoadedEager(tags: seq<string>, cls: seq<seq<string>>, s: Snapshot, main: Option<nat>,
                       lcpBlocks: seq<string>, outcome: ModuleOutcome): (r: Snapshot)
    ensures |r.attrs| == |s.attrs|
  {
    if main.None? then s
    else LoadedLcp(DecoratedClassLists(tags, cls), s.(attrs := DecoratedAttrLists(tags, cls, s.attrs)), lcpBlocks, outcome)
  }

  /** The eager phase changes no attribute of any element besides the block name and the marker. */
  lemma LoadedEagerFrame(tags: seq<string>, cls: seq<seq<string>>, s: Snapshot, main: Option<nat>,
                         lcpBlocks: seq<string>, outcome: ModuleOutcome)
    requires |tags| == |cls| == |s.attrs|
    ensures var r := LoadedEager(tags, cls, s, main, lcpBlocks, outcome);
      forall e, key :: 0 <= e < |s.attrs| && key != BlockName && key != BlockLoaded ==>
        GetAttribute(r.attrs[e], key) == GetAttribute(s.attrs[e], key)
  {
    if main.Some? {
      DecorateBlocksMeaning(tags, cls, s.attrs);
      forall e | 0 <= e < |s.attrs|
        ensures forall key :: key != BlockName ==>
          GetAttribute(DecoratedAttrLists(tags, cls, s.attrs)[e], key) == GetAttribute(s.attrs[e], key)
      {
        DecorateMeaning(cls[e], s.attrs[e]);
      }
    }
  }

  /**
   * The state after `el.setAttribute('data-block-name', name); loadBlock(el)`
   * on element `e`: the name is set either way; an unmarked element also
   * gets the marker, its stylesheet and a pending load.
   */
  function LoadedAs(s: Snapshot, e: nat, name: string): Snapshot
    requires e < |s.attrs|
  {
    var named := s.attrs[e][BlockName := name];
    if IsLoaded(s.attrs[e]) then s.(attrs := s.attrs[e := named])
    else Snapshot(WithStyle(s.head, CssPath(name)), s.attrs[e := named[BlockLoaded := "true"]],
                  s.loads + [Load(e, name, false, Pending)])
  }

  /** The state after `loadBlocks(main)` over the first `n` elements and then `loadStyle` of the lazy stylesheet. */
  function LoadedRest(cls: seq<seq<string>>, s: Snapshot, inMain: set<nat>, n: nat): Snapshot
  {
    var started := NewLoads(cls, s.attrs, inMain, n);
    Snapshot(WithStyle(WithStyles(s.head, CssPaths(started)), LazyStyles),
             MarkPrefix(cls, s.attrs, inMain, n), s.loads + started)
  }

  /**
   * The state after the synchronous part of `loadLazy()`: nothing without a
   * header, only the header without a footer (the `setAttribute` on `null`
   * throws), and otherwise header, footer, the main blocks and the lazy stylesheet.
   */
  function LoadedLazy(cls: seq<seq<string>>, s: Snapshot, header: Option<nat>, footer: Option<nat>,
                      inMain: set<nat>, n: nat): Snapshot
    requires header.Some? ==> header.value < |s.attrs|
    requires footer.Some? ==> footer.value < |s.attrs|
  {
    if header.None? then s
    else
      var s1 := LoadedAs(s, header.value, "gnav");
      if footer.None? then s1 else LoadedRest(cls, LoadedAs(s1, footer.value, "footer"), inMain, n)
  }

  /**
   * `document.querySelector(tag)` over the body elements: `o` is the first
   * element whose tag is `tag`, or None when there is no such element.
   */
  predicate FirstTagged(tags: seq<string>, tag: string, o: Option<nat>)
  {
    && (o.Some? ==> o.value < |tags| && tags[o.value] == tag && forall j :: 0 <= j < o.value ==> tags[j] != tag)
    && (o.None? ==> forall j :: 0 <= j < |tags| ==> tags[j] != tag)
  }

  /** The first header, footer and main elements; only elements exist below `<main>`, and none without it. */
  predicate LandmarksOf(tags: seq<string>, header: Option<nat>, footer: Option<nat>, main: Option<nat>, inMain: set<nat>)
  {
    && FirstTagged(tags, "header", header)
    && FirstTagged(tags, "footer", footer)
    && FirstTagged(tags, "main", main)
    && (main.None? ==> inMain == {})
    && (forall e :: e in inMain ==> e < |tags|)
  }

  class Document {
    /** The children of `<head>`, in order. */
    var head: seq<Node>
    /** The tag of every body element, in document order. */
    const tags: seq<string>
    /** The class list of every body element. */
    var classLists: seq<seq<string>>
    /** The attributes of every body element, the class attribute aside. */
    var attrs: seq<map<string, string>>
    /** The first `header`, `footer` and `main` elements, if any. */
    const header: Option<nat>
    const footer: Option<nat>
    const main: Option<nat>
    /** The elements below `<main>`. */
    const inMain: set<nat>
    /** Every load that has passed the marker check, in the order the checks happened. */
    var loads: seq<Load>

    /** Where the first header, footer and main elements sit among the body elements. */
    predicate Landmarks()
    {
      LandmarksOf(tags, header, footer, main, inMain)
    }

    /**
     * The document is well formed, and the at-most-once discipline holds:
     * every started element carries the marker, and none was started twice.
     */
    ghost predicate Valid()
      reads this`classLists, this`attrs, this`loads
    {
      && Landmarks()
      && |classLists| == |tags| && |attrs| == |tags|
      && (forall i :: 0 <= i < |loads| ==> loads[i].block < |tags| && IsLoaded(attrs[loads[i].block]))
      && DistinctBlocks(loads)
    }

    constructor (head: seq<Node>, tags: seq<string>, classLists: seq<seq<string>>, attrs: seq<map<string, string>>,
                 header: Option<nat>, footer: Option<nat>, main: Option<nat>, inMain: set<nat>)
      requires |classLists| == |tags| && |attrs| == |tags|
      requires LandmarksOf(tags, header, footer, main, inMain)
      ensures Valid()
      ensures this.head == head && this.tags == tags && this.classLists == classLists && this.attrs == attrs
      ensures this.header == header && this.footer == footer && this.main == main && this.inMain == inMain
      ensures loads == []
    {
      this.head := head;
      this.tags := tags;
      this.classLists := classLists;
      this.attrs := attrs;
      this.header := header;
      this.footer := footer;
      this.main := main;
      this.inMain := inMain;
      loads := [];
    }

    /** `loadStyle(href)`: append a stylesheet link unless the head already links `href`. */
    method LoadStyle(href: string)
      modifies this`head
      ensures head == WithStyle(old(head), href)
    {
      if !HasLink(head, href) {
        head := head + [StyleLink(href)];
      }
    }

    /** `loadScript(url, callback, type)`: always appends a new script and returns it; the `onload` callback is not modelled. */
    method LoadScript(url: string, kind: string) returns (script: Node)
      modifies this`head
      ensures script.tag == "script" && GetAttribute(script.attrs, "src") == Some(url)
      ensures GetAttribute(script.attrs, "type") == if kind != "" then Some(kind) else None
      ensures script.attrs.Keys == if kind != "" then {"src", "type"} else {"src"}
      ensures head == old(head) + [script]
    {
      script := ScriptNode(url, kind);
      head := head + [script];
    }

    /** `decorateBlock(block)` on element `i`. */
    method DecorateBlock(i: nat)
      requires Valid() && i < |tags|
      modifies this`classLists, this`attrs
      ensures Valid()
      ensures classLists == old(classLists)[i := DecoratedClasses(old(classLists[i]))]
      ensures attrs == old(attrs)[i := DecoratedAttrs(old(classLists[i]), old(attrs[i]))]
    {
      var classes := classLists[i];
      var blockName := if classes == [] then "" else classes[0];
      if blockName == "" {
        return;
      }
      AttributeNamesDiffer();
      classLists := classLists[i := AddClass(classes, BlockClass)];
      attrs := attrs[i := attrs[i][BlockName := blockName]];
    }

    /** `decorateBlocks()`: decorate `header, footer, [class]` in document order. */
    method DecorateBlocks()
      requires Valid()
      modifies this`classLists, this`attrs
      ensures Valid()
      ensures classLists == DecoratedClassLists(tags, old(classLists))
      ensures attrs == DecoratedAttrLists(tags, old(classLists), old(attrs))
    {
      ghost var cls0 := classLists;
      ghost var ats0 := attrs;
      for i := 0 to |tags|
        invariant Valid()
        invariant DecoratedUpTo(cls0, ats0, i)
      {
        DecorateSelected(cls0, ats0, i);
      }
      assert classLists == DecoratedClassLists(tags, cls0);
      assert attrs == DecoratedAttrLists(tags, cls0, ats0);
    }

    /** The first `n` elements are decorated and the others are as in `cls0`, `ats0`. */
    ghost predicate DecoratedUpTo(cls0: seq<seq<string>>, ats0: seq<map<string, string>>, n: nat)
      reads this`classLists, this`attrs
    {
      && |cls0| == |tags| && |ats0| == |tags| && |classLists| == |tags| && |attrs| == |tags|
      && (forall k :: 0 <= k < |tags| ==>
            classLists[k] == (if k < n then DecoratedClassAt(tags[k], cls0[k]) else cls0[k]))
      && (forall k :: 0 <= k < |tags| ==>
            attrs[k] == (if k < n then DecoratedAttrAt(tags[k], cls0[k], ats0[k]) else ats0[k]))
    }

    /** One turn of the `forEach` in `decorateBlocks`: element `i` is decorated when the selector matches it. */
    method DecorateSelected(ghost cls0: seq<seq<string>>, ghost ats0: seq<map<string, string>>, i: nat)
      requires Valid() && i < |tags| && DecoratedUpTo(cls0, ats0, i)
      modifies this`classLists, this`attrs
      ensures Valid() && DecoratedUpTo(cls0, ats0, i + 1)
    {
      ghost var c0 := classLists;
      ghost var a0 := attrs;
      assert c0[i] == cls0[i] && a0[i] == ats0[i];
      if tags[i] == "header" || tags[i] == "footer" || classLists[i] != [] {
        DecorateBlock(i);
      }
      assert classLists == c0[i := DecoratedClassAt(tags[i], cls0[i])];
      assert attrs == a0[i := DecoratedAttrAt(tags[i], cls0[i], ats0[i])];
    }

    /**
     * The synchronous part of `loadBlock(block, eager)` on element `b`: on an
     * element whose marker is set nothing happens; otherwise the marker is set
     * first, the block's stylesheet is put in the head and the load is
     * recorded as pending.
     */
    method LoadBlock(b: nat, eager: bool)
      requires Valid() && b < |tags|
      modifies this`head, this`loads, this`attrs
      ensures Valid()
      ensures old(IsLoaded(attrs[b])) ==>
        head == old(head) && loads == old(loads) && attrs == old(attrs)
      ensures !old(IsLoaded(attrs[b])) ==>
        && attrs == old(attrs)[b := old(attrs[b])[BlockLoaded := "true"]]
        && head == WithStyle(old(head), CssPath(old(NameIn(attrs[b]))))
        && loads == old(loads) + [Load(b, old(NameIn(attrs[b])), eager, Pending)]
    {
      if !IsLoaded(attrs[b]) {
        assert forall k :: 0 <= k < |loads| ==> loads[k].block != b;
        AttributeNamesDiffer();
        attrs := attrs[b := attrs[b][BlockLoaded := "true"]];
        var blockName := NameIn(attrs[b]);
        LoadStyle(CssPath(blockName));
        loads := loads + [Load(b, blockName, eager, Pending)];
      }
    }

    /**
     * The continuation of load `i` once its `import()` has come back: the
     * module's default export is called when there is one, and any failure
     * is swallowed. Only the status of that load changes.
     */
    method Resume(i: nat, outcome: ModuleOutcome)
      requires Valid() && i < |loads| && loads[i].status == Pending
      modifies this`loads
      ensures Valid()
      ensures loads == old(loads)[i := old(loads[i]).(status := Settled(outcome))]
    {
      loads := loads[i := loads[i].(status := Settled(outcome))];
    }

    /** However the loads have settled, no element's module was called on it twice. */
    lemma InvokedAtMostOnce(e: nat)
      requires Valid()
      ensures InvocationCount(loads, e) <= 1
    {
      AtMostOneInvocation(loads, e);
    }

    /**
     * `loadBlocks(main)`: the synchronous part of `loadBlock` for every
     * `.block` below main, in document order. Without a main element
     * `inMain` is empty: the call then fails inside the async function and
     * nothing is loaded, as here.
     */
    method LoadBlocks()
      requires Valid()
      modifies this`head, this`loads, this`attrs
      ensures Valid()
      ensures attrs == MarkPrefix(classLists, old(attrs), inMain, |tags|)
      ensures loads == old(loads) + NewLoads(classLists, old(attrs), inMain, |tags|)
      ensures head == WithStyles(old(head), CssPaths(NewLoads(classLists, old(attrs), inMain, |tags|)))
      ensures forall e :: e in inMain && BlockClass in classLists[e] ==> IsLoaded(attrs[e])
      ensures forall e :: 0 <= e < |tags| && old(IsLoaded(attrs[e])) ==> attrs[e] == old(attrs[e])
      ensures forall e, key :: 0 <= e < |tags| && key != BlockLoaded ==> GetAttribute(attrs[e], key) == GetAttribute(old(attrs[e]), key)
      ensures LinkCount(head, LazyStyles) == old(LinkCount(head, LazyStyles))
    {
      ghost var ats0 := attrs;
      for i := 0 to |tags|
        invariant Valid()
        invariant attrs == MarkPrefix(classLists, ats0, inMain, i)
        invariant loads == old(loads) + NewLoads(classLists, ats0, inMain, i)
        invariant head == WithStyles(old(head), CssPaths(NewLoads(classLists, ats0, inMain, i)))
      {
        VisitBlock(ats0, old(loads), old(head), i);
      }
      MarkAllMeaning(classLists, ats0, inMain);
      CssPathsAvoidLazy(NewLoads(classLists, ats0, inMain, |tags|));
      WithStylesCountOther(old(head), CssPaths(NewLoads(classLists, ats0, inMain, |tags|)), LazyStyles);
    }

    /** One turn of the `forEach` in `loadBlocks`: element `i` is loaded when it is a `.block` below main. */
    method VisitBlock(ghost ats0: seq<map<string, string>>, ghost loads0: seq<Load>, ghost head0: seq<Node>, i: nat)
      requires Valid() && i < |tags| && |ats0| == |tags|
      requires attrs == MarkPrefix(classLists, ats0, inMain, i)
      requires loads == loads0 + NewLoads(classLists, ats0, inMain, i)
      requires head == WithStyles(head0, CssPaths(NewLoads(classLists, ats0, inMain, i)))
      modifies this`head, this`loads, this`attrs
      ensures Valid()
      ensures attrs == MarkPrefix(classLists, ats0, inMain, i + 1)
      ensures loads == loads0 + NewLoads(classLists, ats0, inMain, i + 1)
      ensures head == WithStyles(head0, CssPaths(NewLoads(classLists, ats0, inMain, i + 1)))
    {
      VisitStep(classLists, ats0, inMain, i, loads0, head0);
      if i in inMain && BlockClass in classLists[i] {
        LoadBlock(i, false);
      }
    }

    /**
     * `loadEager()`: with a main element, decorate the blocks and, when the
     * first block's name is on the LCP list, load it and wait for its
     * module. The wait for the hero image is not modelled.
     */
    method LoadEager(lcpBlocks: seq<string>, outcome: ModuleOutcome)
      requires Valid()
      modifies this`head, this`loads, this`attrs, this`classLists
      ensures Valid()
      ensures classLists == if main.Some? then DecoratedClassLists(tags, old(classLists)) else old(classLists)
      ensures Snapshot(head, attrs, loads)
        == LoadedEager(tags, old(classLists), old(Snapshot(head, attrs, loads)), main, lcpBlocks, outcome)
      ensures forall e, key :: 0 <= e < |tags| && key != BlockName && key != BlockLoaded ==>
        GetAttribute(attrs[e], key) == old(GetAttribute(attrs[e], key))
    {
      if main.None? {
        return;
      }
      ghost var s0 := Snapshot(head, attrs, loads);
      DecorateBlocks();
      LoadLcp(lcpBlocks, outcome);
      LoadedEagerFrame(tags, old(classLists), s0, main, lcpBlocks, outcome);
    }

    /** The LCP part of `loadEager()`: load the first block eagerly when its name is on the list, and await it. */
    method LoadLcp(lcpBlocks: seq<string>, outcome: ModuleOutcome)
      requires Valid()
      modifies this`head, this`loads, this`attrs
      ensures Valid()
      ensures Snapshot(head, attrs, loads) == LoadedLcp(classLists, old(Snapshot(head, attrs, loads)), lcpBlocks, outcome)
    {
      var lcp := LcpBlock(classLists, attrs, lcpBlocks);
      if lcp.Some? {
        var n := |loads|;
        LoadBlock(lcp.value, true);
        if |loads| > n {
          Resume(n, outcome);
        }
      }
    }

    /**
     * `el.setAttribute('data-block-name', name); loadBlock(el)`: afterwards the
     * element carries the name and the marker, its other attributes and
     * every other element are unchanged, and the lazy stylesheet's link
     * count is untouched.
     */
    method LoadAs(e: nat, name: string)
      requires Valid() && e < |tags|
      modifies this`head, this`loads, this`attrs
      ensures Valid()
      ensures Snapshot(head, attrs, loads) == LoadedAs(old(Snapshot(head, attrs, loads)), e, name)
      ensures GetAttribute(attrs[e], BlockName) == Some(name) && IsLoaded(attrs[e])
      ensures forall key :: key != BlockName && key != BlockLoaded ==> GetAttribute(attrs[e], key) == old(GetAttribute(attrs[e], key))
      ensures forall k :: 0 <= k < |tags| && k != e ==> attrs[k] == old(attrs[k])
      ensures LinkCount(head, LazyStyles) == old(LinkCount(head, LazyStyles))
    {
      AttributeNamesDiffer();
      attrs := attrs[e := attrs[e][BlockName := name]];
      ghost var head0 := head;
      LoadBlock(e, false);
      WithStyleCount(head0, CssPath(name), LazyStyles);
      CssPathNotLazy(name);
    }

    /**
     * The synchronous part of `loadLazy()`: the RUM checkpoint, the header
     * loaded as `gnav` and the footer as `footer`, every block below main,
     * and the lazy stylesheet. A missing header or footer throws, which
     * ends the function there.
     */
    method LoadLazy(hlx: Rum.Hlx, env: Rum.Env)
      requires Valid()
      modifies this`head, this`loads, this`attrs, hlx
      ensures Valid()
      ensures hlx.rum == if old(hlx.rum).None? then Some(Rum.NewSession(env)) else old(hlx.rum)
      ensures hlx.beacons == old(hlx.beacons) +
        (if Rum.Sends(hlx.rum.value)
         then [Rum.Beacon(hlx.rum.value.weight, hlx.rum.value.id, env.href, Rum.Generation, "lcp")]
         else [])
      ensures Snapshot(head, attrs, loads)
        == LoadedLazy(classLists, old(Snapshot(head, attrs, loads)), header, footer, inMain, |tags|)
      ensures forall e, key :: 0 <= e < |tags| && key != BlockName && key != BlockLoaded ==>
        GetAttribute(attrs[e], key) == old(GetAttribute(attrs[e], key))
      ensures header.None? ==> head == old(head) && loads == old(loads) && attrs == old(attrs)
      ensures header.Some? ==>
        GetAttribute(attrs[header.value], BlockName) == Some("gnav") && IsLoaded(attrs[header.value])
      ensures header.Some? && footer.Some? ==>
        && GetAttribute(attrs[footer.value], BlockName) == Some("footer")
        && IsLoaded(attrs[footer.value])
        && (forall e :: e in inMain && BlockClass in classLists[e] ==> IsLoaded(attrs[e]))
        && LinkCount(head, LazyStyles) == if old(LinkCount(head, LazyStyles)) == 0 then 1 else old(LinkCount(head, LazyStyles))
    {
      hlx.SampleRum("lcp", env);
      if header.None? {
        return;
      }
      var h := header.value;
      LoadAs(h, "gnav");
      if footer.None? {
        return;
      }
      var f := footer.value;
      LoadAs(f, "footer");
      LoadRest();
    }

    /**
     * The end of `loadLazy()`: `loadBlocks(main)` and then the lazy
     * stylesheet. Elements that already carried the marker are untouched.
     */
    method LoadRest()
      requires Valid()
      modifies this`head, this`loads, this`attrs
      ensures Valid()
      ensures Snapshot(head, attrs, loads) == LoadedRest(classLists, old(Snapshot(head, attrs, loads)), inMain, |tags|)
      ensures forall e :: 0 <= e < |tags| && old(IsLoaded(attrs[e])) ==> attrs[e] == old(attrs[e])
      ensures forall e, key :: 0 <= e < |tags| && key != BlockLoaded ==> GetAttribute(attrs[e], key) == old(GetAttribute(attrs[e], key))
      ensures forall e :: e in inMain && BlockClass in classLists[e] ==> IsLoaded(attrs[e])
      ensures LinkCount(head, LazyStyles) == if old(LinkCount(head, LazyStyles)) == 0 then 1 else old(LinkCount(head, LazyStyles))
    {
      LoadBlocks();
      ghost var head3 := head;
      LoadStyle(LazyStyles);
      WithStyleCount(head3, LazyStyles, LazyStyles);
    }

    /** `decoratePage()`: the eager phase, then the lazy one. */
    method DecoratePage(lcpBlocks: seq<string>, outcome: ModuleOutcome, hlx: Rum.Hlx, env: Rum.Env)
      requires Valid()
      modifies this`head, this`loads, this`attrs, this`classLists, hlx
      ensures Valid()
      ensures classLists == if main.Some? then DecoratedClassLists(tags, old(classLists)) else old(classLists)
      ensures Snapshot(head, attrs, loads) ==
        LoadedLazy(classLists,
                   LoadedEager(tags, old(classLists), old(Snapshot(head, attrs, loads)), main, lcpBlocks, outcome),
                   header, footer, inMain, |tags|)
      ensures hlx.rum == if old(hlx.rum).None? then Some(Rum.NewSession(env)) else old(hlx.rum)
      ensures hlx.beacons == old(hlx.beacons) +
        (if Rum.Sends(hlx.rum.value)
         then [Rum.Beacon(hlx.rum.value.weight, hlx.rum.value.id, env.href, Rum.Generation, "lcp")]
         else [])
      ensures forall e, key :: 0 <= e < |tags| && key != BlockName && key != BlockLoaded ==>
        GetAttribute(attrs[e], key) == old(GetAttribute(attrs[e], key))
      ensures header.Some? && footer.Some? ==>
        && GetAttribute(attrs[header.value], BlockName) == Some("gnav") && IsLoaded(attrs[header.value])
        && GetAttribute(attrs[footer.value], BlockName) == Some("footer") && IsLoaded(attrs[footer.value])
        && (forall e :: e in inMain && BlockClass in classLists[e] ==> IsLoaded(attrs[e]))
        && HasLink(head, LazyStyles)
    {
      LoadEager(lcpBlocks, outcome);
      LoadLazy(hlx, env);
      if header.Some? && footer.Some? {
        LinkCountPositive(head, LazyStyles);
      }
    }
  }
}
