/**
 * The parts of the document that the page bootstrap reads and writes:
 * the children of `<head>` (links, scripts, metas), which the bootstrap
 * only ever appends to, and the class list and attribute map of a body
 * element, which it updates in place. This module holds value-level
 * definitions of what each bootstrap operation does to them.
 */
module Dom {
  import opened Strings

  /** A child of `<head>`: its tag and its attributes. */
  datatype Node = Node(tag: string, attrs: map<string, string>)

  /** `el.getAttribute(k)`: None stands for `null`. */
  function GetAttribute(attrs: map<string, string>, k: string): (r: Option<string>)
    ensures r.Some? <==> k in attrs
    ensures r.Some? ==> r.value == attrs[k]
  {
    if k in attrs then Some(attrs[k]) else None
  }

  /** A DOMTokenList: non-empty tokens, none twice. */
  ghost predicate ValidClassList(cl: seq<string>)
  {
    && (forall i :: 0 <= i < |cl| ==> cl[i] != "")
    && (forall i, j :: 0 <= i < j < |cl| ==> cl[i] != cl[j])
  }

  /** `classList.add(c)`: appends `c` unless it is already there, never reordering. */
  function AddClass(cl: seq<string>, c: string): (r: seq<string>)
    ensures c in r
    ensures forall x :: x in r <==> x in cl || x == c
    ensures |cl| <= |r| <= |cl| + 1 && r[..|cl|] == cl
    ensures c in cl ==> r == cl
    ensures ValidClassList(cl) && c != "" ==> ValidClassList(r)
  {
    if c in cl then cl else cl + [c]
  }

  const BlockName: string := "data-block-name"
  const BlockLoaded: string := "data-block-loaded"
  const BlockClass: string := "block"

  /** `classes[0]` is truthy: there is a first class and it is not the empty string. */
  predicate HasBlockName(cl: seq<string>)
  {
    cl != [] && cl[0] != ""
  }

  /** The class list `decorateBlock` leaves: an element without a block name is left alone. */
  function DecoratedClasses(cl: seq<string>): seq<string>
  {
    if HasBlockName(cl) then AddClass(cl, BlockClass) else cl
  }

  /** The attributes `decorateBlock` leaves: the first class becomes the block name. */
  function DecoratedAttrs(cl: seq<string>, attrs: map<string, string>): map<string, string>
  {
    if HasBlockName(cl) then attrs[BlockName := cl[0]] else attrs
  }

  /**
   * What decorating means: an element whose first class is missing or
   * empty is left alone; otherwise the
   * `block` class is present, the first class is still first and has become
   * the block name, and no other attribute changed.
   */
  lemma DecorateMeaning(cl: seq<string>, attrs: map<string, string>)
    ensures !HasBlockName(cl) ==> DecoratedClasses(cl) == cl && DecoratedAttrs(cl, attrs) == attrs
    ensures HasBlockName(cl) ==>
      && BlockClass in DecoratedClasses(cl)
      && DecoratedClasses(cl)[0] == cl[0]
      && DecoratedAttrs(cl, attrs)[BlockName] == cl[0]
      && (forall k :: k != BlockName ==> GetAttribute(DecoratedAttrs(cl, attrs), k) == GetAttribute(attrs, k))
  {
  }

  /** Decorating twice is decorating once. */
  lemma DecorateIdempotent(cl: seq<string>, attrs: map<string, string>)
    ensures DecoratedClasses(DecoratedClasses(cl)) == DecoratedClasses(cl)
    ensures DecoratedAttrs(DecoratedClasses(cl), DecoratedAttrs(cl, attrs)) == DecoratedAttrs(cl, attrs)
  {
    if HasBlockName(cl) {
      var d := DecoratedClasses(cl);
      assert d[0] == cl[0];
    }
  }

  /** The `<link rel="stylesheet">` that `loadStyle` builds. */
  function StyleLink(href: string): (n: Node)
    ensures n.tag == "link" && n.attrs.Keys == {"rel", "href"}
    ensures GetAttribute(n.attrs, "rel") == Some("stylesheet") && GetAttribute(n.attrs, "href") == Some(href)
  {
    Node("link", map["rel" := "stylesheet", "href" := href])
  }

  /** A `<script>` with its `src`, and a `type` only when the type is truthy. */
  function ScriptNode(url: string, kind: string): (n: Node)
    ensures n.tag == "script" && GetAttribute(n.attrs, "src") == Some(url)
    ensures GetAttribute(n.attrs, "type") == if kind != "" then Some(kind) else None
    ensures n.attrs.Keys == if kind != "" then {"src", "type"} else {"src"}
  {
    Node("script", if kind != "" then map["src" := url, "type" := kind] else map["src" := url])
  }

  /** The node matches `link[href="..."]`. */
  predicate IsLinkTo(n: Node, href: string)
  {
    n.tag == "link" && GetAttribute(n.attrs, "href") == Some(href)
  }

  /** `head.querySelector('link[href="..."]')` finds something. */
  predicate HasLink(head: seq<Node>, href: string)
  {
    exists i :: 0 <= i < |head| && IsLinkTo(head[i], href)
  }

  /** The head after `loadStyle(href)`. */
  function WithStyle(head: seq<Node>, href: string): seq<Node>
  {
    if HasLink(head, href) then head else head + [StyleLink(href)]
  }

  /** The head after loading each of several stylesheets in turn. */
  function WithStyles(head: seq<Node>, hrefs: seq<string>): seq<Node>
  {
    if hrefs == [] then head else WithStyle(WithStyles(head, hrefs[..|hrefs| - 1]), hrefs[|hrefs| - 1])
  }

  /** How many links to `href` the head holds. */
  function LinkCount(head: seq<Node>, href: string): nat
  {
    if head == [] then 0
    else LinkCount(head[..|head| - 1], href) + (if IsLinkTo(head[|head| - 1], href) then 1 else 0)
  }

  lemma {:induction false} LinkCountPositive(head: seq<Node>, href: string)
    ensures LinkCount(head, href) > 0 <==> HasLink(head, href)
  {
    if head != [] {
      var init := head[..|head| - 1];
      LinkCountPositive(init, href);
      if HasLink(init, href) {
        var i :| 0 <= i < |init| && IsLinkTo(init[i], href);
        assert head[i] == init[i];
      }
      if HasLink(head, href) && !IsLinkTo(head[|head| - 1], href) {
        var i :| 0 <= i < |head| && IsLinkTo(head[i], href);
        assert init[i] == head[i];
      }
    }
  }

  lemma LinkCountSnoc(head: seq<Node>, n: Node, href: string)
    ensures LinkCount(head + [n], href) == LinkCount(head, href) + (if IsLinkTo(n, href) then 1 else 0)
  {
    assert (head + [n])[..|head|] == head;
  }

  /**
   * `loadStyle` never duplicates: afterwards the head holds a link to `href`,
   * exactly one if it held none before, and the same number otherwise; any
   * other href's count is unchanged; the old head is kept as a prefix.
   */
  lemma WithStyleCount(head: seq<Node>, href: string, other: string)
    ensures LinkCount(WithStyle(head, href), href) == if LinkCount(head, href) == 0 then 1 else LinkCount(head, href)
    ensures other != href ==> LinkCount(WithStyle(head, href), other) == LinkCount(head, other)
    ensures |head| <= |WithStyle(head, href)| && WithStyle(head, href)[..|head|] == head
  {
    LinkCountPositive(head, href);
    LinkCountSnoc(head, StyleLink(href), href);
    LinkCountSnoc(head, StyleLink(href), other);
  }

  /** Two `loadStyle` calls with the same href leave the same head as one. */
  lemma WithStyleIdempotent(head: seq<Node>, href: string)
    ensures WithStyle(WithStyle(head, href), href) == WithStyle(head, href)
  {
    if !HasLink(head, href) {
      var h := head + [StyleLink(href)];
      assert IsLinkTo(h[|head|], href);
    }
  }

  /** Loading several stylesheets keeps the old head as a prefix and leaves a link for each. */
  lemma {:induction false} WithStylesExtends(head: seq<Node>, hrefs: seq<string>)
    ensures |head| <= |WithStyles(head, hrefs)| && WithStyles(head, hrefs)[..|head|] == head
    ensures forall i :: 0 <= i < |hrefs| ==> HasLink(WithStyles(head, hrefs), hrefs[i])
  {
    if hrefs != [] {
      var init := hrefs[..|hrefs| - 1];
      WithStylesExtends(head, init);
      var h := WithStyles(head, init);
      var h' := WithStyle(h, hrefs[|hrefs| - 1]);
      assert h'[..|h|] == h;
      assert h'[..|head|] == h[..|head|];
      forall i | 0 <= i < |hrefs|
        ensures HasLink(h', hrefs[i])
      {
        if i < |hrefs| - 1 {
          assert hrefs[i] == init[i];
          var j :| 0 <= j < |h| && IsLinkTo(h[j], hrefs[i]);
          assert h'[j] == h[j];
        } else if !HasLink(h, hrefs[i]) {
          assert IsLinkTo(h'[|h|], hrefs[i]);
        }
      }
    }
  }

  /** Loading stylesheets whose hrefs all differ from `other` leaves the count of `other` alone. */
  lemma {:induction false} WithStylesCountOther(head: seq<Node>, hrefs: seq<string>, other: string)
    requires forall i :: 0 <= i < |hrefs| ==> hrefs[i] != other
    ensures LinkCount(WithStyles(head, hrefs), other) == LinkCount(head, other)
  {
    if hrefs != [] {
      WithStylesCountOther(head, hrefs[..|hrefs| - 1], other);
      WithStyleCount(WithStyles(head, hrefs[..|hrefs| - 1]), hrefs[|hrefs| - 1], other);
    }
  }

  /** `getMetadata` reads `property` for a name with a colon and `name` otherwise. */
  function MetaAttr(name: string): (a: string)
    ensures a == "property" <==> ':' in name
    ensures a == "name" <==> ':' !in name
  {
    if name != "" && ':' in name then "property" else "name"
  }

  /** `meta.content`: the content attribute, or the empty string. */
  function Content(n: Node): string
  {
    if "content" in n.attrs then n.attrs["content"] else ""
  }

  predicate IsMeta(n: Node, attr: string, name: string)
  {
    n.tag == "meta" && GetAttribute(n.attrs, attr) == Some(name)
  }

  /** The contents of the metas matching `meta[attr="name"]`, in document order: none exactly when no meta matches. */
  function MetaContents(head: seq<Node>, attr: string, name: string): (r: seq<string>)
    ensures r == [] <==> forall i :: 0 <= i < |head| ==> !IsMeta(head[i], attr, name)
  {
    if head == [] then []
    else
      var init := head[..|head| - 1];
      var r := MetaContents(init, attr, name)
        + (if IsMeta(head[|head| - 1], attr, name) then [Content(head[|head| - 1])] else []);
      assert forall i :: 0 <= i < |init| ==> init[i] == head[i];
      r
  }

  /** `getMetadata(name)`: the matching contents joined by ", "; the empty string when no meta matches. */
  function GetMetadata(head: seq<Node>, name: string): (r: string)
    ensures (forall i :: 0 <= i < |head| ==> !IsMeta(head[i], MetaAttr(name), name)) ==> r == ""
  {
    Join(MetaContents(head, MetaAttr(name), name), ", ")
  }

  /** With only one matching meta, its content is the result as it stands. */
  lemma {:induction false} MetaContentsSingle(head: seq<Node>, attr: string, name: string, j: nat)
    requires j < |head| && IsMeta(head[j], attr, name)
    requires forall i :: 0 <= i < |head| && i != j ==> !IsMeta(head[i], attr, name)
    ensures MetaContents(head, attr, name) == [Content(head[j])]
  {
    var init := head[..|head| - 1];
    if j == |head| - 1 {
      assert forall i :: 0 <= i < |init| ==> init[i] == head[i];
    } else {
      assert forall i :: 0 <= i < |init| ==> init[i] == head[i];
      MetaContentsSingle(init, attr, name, j);
    }
  }

  /** A single meta of that name (or property) gives its content, with no separator. */
  lemma MetadataSingle(head: seq<Node>, name: string, j: nat)
    requires j < |head| && IsMeta(head[j], MetaAttr(name), name)
    requires forall i :: 0 <= i < |head| && i != j ==> !IsMeta(head[i], MetaAttr(name), name)
    ensures GetMetadata(head, name) == Content(head[j])
  {
    MetaContentsSingle(head, MetaAttr(name), name, j);
  }

  /**
   * Appending a node to the head: a matching meta contributes its content
   * after the earlier results, separated by ", "; any other node changes nothing.
   */
  lemma MetadataSnoc(head: seq<Node>, n: Node, name: string)
    ensures var before := GetMetadata(head, name);
      GetMetadata(head + [n], name) ==
        if !IsMeta(n, MetaAttr(name), name) then before
        else if MetaContents(head, MetaAttr(name), name) == [] then Content(n)
        else before + ", " + Content(n)
  {
    var attr := MetaAttr(name);
    assert (head + [n])[..|head|] == head;
    var ms := MetaContents(head, attr, name);
    assert MetaContents(head + [n], attr, name) == ms + (if IsMeta(n, attr, name) then [Content(n)] else []);
    if !IsMeta(n, attr, name) {
      assert ms + [] == ms;
    } else if ms == [] {
      assert ms + [Content(n)] == [Content(n)];
    } else {
      JoinSnoc(ms, ", ", Content(n));
    }
  }
}
