/**
 * The bookmarklet generator block of blocks/sidekick-generator/sidekick-generator.js:
 * collecting the form into the `formData` object, writing it to the page's
 * query string and deriving the bookmarklet's configuration and title
 * (`run`), filling the form from the query string (`init`), and, from
 * `decorate`, turning the JSON field schema into labels and inputs and
 * reading the form path out of the block's first paragraph.
 */
module SidekickGenerator {
  import opened Strings
  import opened SearchParams

  /** What `run` stores for a field: `checked` for a checkbox or radio input, `value` otherwise. */
  datatype FormValue = Flag(on: bool) | Text(text: string)

  /** An `<input>` of the form: its id, its type, and the two pieces of state the block reads and writes. */
  datatype Input = Input(id: string, kind: string, checked: bool, value: string)

  predicate IsToggle(kind: string)
  {
    kind == "checkbox" || kind == "radio"
  }

  /** The value `run` records for an input. */
  function FieldValue(f: Input): (v: FormValue)
    ensures v.Flag? <==> IsToggle(f.kind)
  {
    if IsToggle(f.kind) then Flag(f.checked) else Text(f.value)
  }

  /**
   * A recorded value survives the query string: `init` fills an input of
   * the same type from its string form and `run` records the same value again.
   */
  lemma FieldRoundTrip(f: Input, g: Input)
    requires g.kind == f.kind
    ensures FieldValue(Fill(g, Stringify(FieldValue(f)))) == FieldValue(f)
  {
  }

  /** JavaScript truthiness of a recorded value. */
  predicate Truthy(v: FormValue)
  {
    match v
    case Flag(b) => b
    case Text(s) => s != ""
  }

  /** What a value becomes as a string: in `usp.set` and in a template literal. */
  function Stringify(v: FormValue): string
  {
    match v
    case Flag(b) => if b then "true" else "false"
    case Text(s) => s
  }

  /** A missing property is falsy. */
  predicate IsSet(v: Option<FormValue>)
  {
    v.Some? && Truthy(v.value)
  }

  // ---------------------------------------------------------------------
  // The `formData` object
  // ---------------------------------------------------------------------

  /** The `formData` object: its own properties, in insertion order. */
  type FormData = seq<(string, FormValue)>

  predicate DistinctKeys(d: FormData)
  {
    forall i, j :: 0 <= i < j < |d| ==> d[i].0 != d[j].0
  }

  /** `d[k]`: None stands for `undefined`. */
  function Lookup(d: FormData, k: string): (r: Option<FormValue>)
    ensures r.None? <==> forall i :: 0 <= i < |d| ==> d[i].0 != k
    ensures r.Some? ==> exists i :: 0 <= i < |d| && d[i] == (k, r.value)
  {
    if d == [] then None
    else if d[0].0 == k then Some(d[0].1)
    else Lookup(d[1..], k)
  }

  /** `d[k] = v`: an existing property keeps its place and takes the new value; a new one goes last. */
  function Assign(d: FormData, k: string, v: FormValue): FormData
  {
    if d == [] then [(k, v)]
    else if d[0].0 == k then [(k, v)] + d[1..]
    else [d[0]] + Assign(d[1..], k, v)
  }

  lemma {:induction false} LookupSnoc(d: FormData, x: (string, FormValue), k: string)
    ensures Lookup(d + [x], k) == if Lookup(d, k).Some? then Lookup(d, k) else if x.0 == k then Some(x.1) else None
  {
    if d != [] {
      assert (d + [x])[1..] == d[1..] + [x];
      LookupSnoc(d[1..], x, k);
    }
  }

  /** Assigning `d[k]` changes `d[k]` only. */
  lemma {:induction false} AssignLookup(d: FormData, k: string, v: FormValue)
    ensures Lookup(Assign(d, k, v), k) == Some(v)
    ensures forall j :: j != k ==> Lookup(Assign(d, k, v), j) == Lookup(d, j)
  {
    if d != [] && d[0].0 != k {
      AssignLookup(d[1..], k, v);
      var r := Assign(d, k, v);
      assert r[1..] == Assign(d[1..], k, v);
    } else if d != [] {
      var r := Assign(d, k, v);
      assert r[1..] == d[1..];
    }
  }

  /** The names keep their order, and a new name goes last. */
  lemma {:induction false} AssignKeys(d: FormData, k: string, v: FormValue)
    ensures |Assign(d, k, v)| == if Lookup(d, k).Some? then |d| else |d| + 1
    ensures forall i :: 0 <= i < |d| ==> Assign(d, k, v)[i].0 == d[i].0
    ensures Lookup(d, k).None? ==> Assign(d, k, v)[|d|] == (k, v)
  {
    if d != [] && d[0].0 != k {
      AssignKeys(d[1..], k, v);
      var r := Assign(d, k, v);
      var t := Assign(d[1..], k, v);
      assert r == [d[0]] + t;
      assert forall i :: 0 < i < |r| ==> r[i] == t[i - 1];
      assert forall i :: 0 < i < |d| ==> d[i] == d[1..][i - 1];
    }
  }

  /**
   * What property assignment does: afterwards `d[k]` is `v`, every other
   * property is unchanged, no name appears twice, and the names keep their
   * order, a new one going last.
   */
  lemma AssignMeaning(d: FormData, k: string, v: FormValue)
    requires DistinctKeys(d)
    ensures DistinctKeys(Assign(d, k, v))
    ensures Lookup(Assign(d, k, v), k) == Some(v)
    ensures forall j :: j != k ==> Lookup(Assign(d, k, v), j) == Lookup(d, j)
    ensures |Assign(d, k, v)| == if Lookup(d, k).Some? then |d| else |d| + 1
    ensures forall i :: 0 <= i < |d| ==> Assign(d, k, v)[i].0 == d[i].0
  {
    AssignLookup(d, k, v);
    AssignKeys(d, k, v);
    var r := Assign(d, k, v);
    forall i, j | 0 <= i < j < |r|
      ensures r[i].0 != r[j].0
    {
      if j == |d| {
        assert r[i].0 == d[i].0;
      } else {
        assert r[i].0 == d[i].0 && r[j].0 == d[j].0;
      }
    }
  }

  /** The object the `forEach` in `run` leaves after visiting `inputs` in document order. */
  function Collect(inputs: seq<Input>): FormData
  {
    if inputs == [] then []
    else Assign(Collect(inputs[..|inputs| - 1]), inputs[|inputs| - 1].id, FieldValue(inputs[|inputs| - 1]))
  }

  /** Reference definition: the value of the last input whose id is `k`. */
  function LastField(inputs: seq<Input>, k: string): Option<FormValue>
  {
    if inputs == [] then None
    else if inputs[|inputs| - 1].id == k then Some(FieldValue(inputs[|inputs| - 1]))
    else LastField(inputs[..|inputs| - 1], k)
  }

  /** The collected object has one property per distinct id, holding the value of the last input with that id. */
  lemma {:induction false} CollectMeaning(inputs: seq<Input>)
    ensures DistinctKeys(Collect(inputs))
    ensures forall k :: Lookup(Collect(inputs), k) == LastField(inputs, k)
  {
    if inputs != [] {
      var init := inputs[..|inputs| - 1];
      var last := inputs[|inputs| - 1];
      CollectMeaning(init);
      AssignMeaning(Collect(init), last.id, FieldValue(last));
    }
  }

  /** Later fields win: LastField is the value of an input with that id after which no input has it. */
  lemma {:induction false} LastFieldMeaning(inputs: seq<Input>, k: string)
    ensures LastField(inputs, k).None? <==> forall i :: 0 <= i < |inputs| ==> inputs[i].id != k
    ensures LastField(inputs, k).Some? ==>
      exists i :: 0 <= i < |inputs| && inputs[i].id == k && FieldValue(inputs[i]) == LastField(inputs, k).value
        && forall j :: i < j < |inputs| ==> inputs[j].id != k
  {
    if inputs != [] {
      var init := inputs[..|inputs| - 1];
      LastFieldMeaning(init, k);
      if inputs[|inputs| - 1].id != k && LastField(init, k).Some? {
        var i :| 0 <= i < |init| && init[i].id == k && FieldValue(init[i]) == LastField(init, k).value
          && forall j :: i < j < |init| ==> init[j].id != k;
        assert inputs[i] == init[i];
        assert forall j :: i < j < |inputs| - 1 ==> inputs[j] == init[j];
      }
      if inputs[|inputs| - 1].id != k {
        assert forall i :: 0 <= i < |init| ==> inputs[i] == init[i];
      }
    }
  }

  /** With distinct ids, the last input with the id of input `i` is input `i` itself. */
  lemma {:induction false} LastFieldDistinct(inputs: seq<Input>, i: nat)
    requires DistinctIds(inputs) && i < |inputs|
    ensures LastField(inputs, inputs[i].id) == Some(FieldValue(inputs[i]))
  {
    var init := inputs[..|inputs| - 1];
    if i < |inputs| - 1 {
      assert inputs[|inputs| - 1].id != inputs[i].id;
      assert init[i] == inputs[i];
      assert DistinctIds(init) by {
        forall a, b | 0 <= a < b < |init|
          ensures init[a].id != init[b].id
        {
          assert init[a] == inputs[a] && init[b] == inputs[b];
        }
      }
      LastFieldDistinct(init, i);
    }
  }

  // ---------------------------------------------------------------------
  // Writing the object to the query string
  // ---------------------------------------------------------------------

  /** The query after `usp.set(name, formData[name])` for each property in order. */
  function WriteAll(q: Params, d: FormData): Params
  {
    if d == [] then q
    else Set(WriteAll(q, d[..|d| - 1]), d[|d| - 1].0, Stringify(d[|d| - 1].1))
  }

  /**
   * After the writes every property of the object has exactly one pair in
   * the query, holding its value as a string; every other name keeps its
   * pairs.
   */
  lemma {:induction false} WriteAllValues(q: Params, d: FormData, k: string)
    requires DistinctKeys(d)
    ensures Values(WriteAll(q, d), k) ==
      if Lookup(d, k).Some? then [Stringify(Lookup(d, k).value)] else Values(q, k)
  {
    if d != [] {
      var init := d[..|d| - 1];
      var last := d[|d| - 1];
      assert d == init + [last];
      assert DistinctKeys(init) by {
        forall i, j | 0 <= i < j < |init|
          ensures init[i].0 != init[j].0
        {
          assert init[i] == d[i] && init[j] == d[j];
        }
      }
      WriteAllValues(q, init, k);
      LookupSnoc(init, last, k);
      assert WriteAll(q, d) == Set(WriteAll(q, init), last.0, Stringify(last.1));
      if last.0 == k {
        assert Lookup(init, k).None? by {
          forall i | 0 <= i < |init|
            ensures init[i].0 != k
          {
            assert init[i] == d[i];
          }
        }
      }
    }
  }

  // ---------------------------------------------------------------------
  // The bookmarklet configuration and title
  // ---------------------------------------------------------------------

  /** `{owner, repo, ref, token?}`: `repo` is None when the path has no second segment (`undefined`). */
  datatype Config = Config(owner: string, repo: Option<string>, ref: string, token: Option<FormValue>)

  /** `pathname.substring(1).split('/')`. */
  function PathSegments(pathname: string): (segs: seq<string>)
    ensures |segs| >= 1
  {
    Split(if pathname == "" then "" else pathname[1..], '/')
  }

  /** The configuration `run` derives from the repository URL's path and the token field. */
  function DeriveConfig(pathname: string, token: Option<FormValue>): (c: Config)
    ensures c.owner == PathSegments(pathname)[0]
    ensures c.repo == Piece(PathSegments(pathname), 1)
    ensures Piece(PathSegments(pathname), 3).Some? && Piece(PathSegments(pathname), 3).value != ""
      ==> c.ref == Piece(PathSegments(pathname), 3).value
    ensures Piece(PathSegments(pathname), 3).None? || Piece(PathSegments(pathname), 3).value == ""
      ==> c.ref == "main"
    ensures c.token.Some? <==> IsSet(token)
    ensures c.token.Some? ==> c.token == token
  {
    var segs := PathSegments(pathname);
    var ref := if |segs| > 3 && segs[3] != "" then segs[3] else "main";
    Config(segs[0], Piece(segs, 1), ref, if IsSet(token) then token else None)
  }

  /** Separator-free segments are recovered from the path `/` + their join. */
  lemma SegmentsOfPath(parts: seq<string>)
    requires |parts| >= 1 && forall i :: 0 <= i < |parts| ==> '/' !in parts[i]
    ensures PathSegments("/" + Join(parts, "/")) == parts
  {
    var path := "/" + Join(parts, "/");
    assert path[1..] == Join(parts, "/");
    SplitJoin(parts, '/');
  }

  /**
   * A repository URL `/owner/repo/tree/ref`, possibly followed by more
   * segments (`/owner/repo/tree/ref/dir/file`), gives back its owner, repo
   * and ref, and `main` when the ref is empty.
   */
  lemma RepositoryConfig(owner: string, repo: string, kind: string, ref: string, rest: seq<string>,
                         token: Option<FormValue>)
    requires '/' !in owner && '/' !in repo && '/' !in kind && '/' !in ref
    requires forall i :: 0 <= i < |rest| ==> '/' !in rest[i]
    ensures DeriveConfig("/" + Join([owner, repo, kind, ref] + rest, "/"), token)
      == Config(owner, Some(repo), if ref != "" then ref else "main", if IsSet(token) then token else None)
  {
    var segs := PathSegments("/" + Join([owner, repo, kind, ref] + rest, "/"));
    RepositorySegments(owner, repo, kind, ref, rest);
    assert segs[0] == owner && Piece(segs, 1) == Some(repo) && Piece(segs, 3) == Some(ref);
  }

  lemma RepositorySegments(owner: string, repo: string, kind: string, ref: string, rest: seq<string>)
    requires '/' !in owner && '/' !in repo && '/' !in kind && '/' !in ref
    requires forall i :: 0 <= i < |rest| ==> '/' !in rest[i]
    ensures var segs := PathSegments("/" + Join([owner, repo, kind, ref] + rest, "/"));
      |segs| >= 4 && segs[0] == owner && segs[1] == repo && segs[3] == ref
  {
    var front := [owner, repo, kind, ref];
    var parts := front + rest;
    forall i | 0 <= i < |parts|
      ensures '/' !in parts[i]
    {
      if i < 4 {
        assert parts[i] == front[i];
      } else {
        assert parts[i] == rest[i - 4];
      }
    }
    assert parts[0] == front[0] && parts[1] == front[1] && parts[3] == front[3];
    SegmentsOfPath(parts);
  }

  /** A bare `/owner/repo` URL falls back to the `main` ref. */
  lemma BareRepositoryConfig(owner: string, repo: string, token: Option<FormValue>)
    requires '/' !in owner && '/' !in repo
    ensures DeriveConfig("/" + Join([owner, repo], "/"), token)
      == Config(owner, Some(repo), "main", if IsSet(token) then token else None)
  {
    SegmentsOfPath([owner, repo]);
  }

  const SidekickTitle: string := "Sidekick"

  /** The bookmark's title: the project's name before `Sidekick` when there is one. */
  function Title(project: Option<FormValue>): (t: string)
    ensures t == SidekickTitle <==> !IsSet(project)
    ensures IsSet(project) ==> t == Stringify(project.value) + " " + SidekickTitle
    ensures |t| >= |SidekickTitle| && t[|t| - |SidekickTitle|..] == SidekickTitle
  {
    if IsSet(project) then Stringify(project.value) + " " + SidekickTitle else SidekickTitle
  }

  /** The `#bookmark` link: the configuration its `href` embeds, its text and its `title` attribute. */
  datatype Bookmark = Bookmark(config: Option<Config>, text: string, title: Option<string>)

  /**
   * The bookmark `run` leaves for form data `d` and repository path
   * `pathname`: the derived configuration, and the title as both its text
   * and its `title` attribute.
   */
  function BookmarkFor(d: FormData, pathname: string): (b: Bookmark)
    ensures b.title == Some(b.text)
    ensures !IsSet(Lookup(d, "project")) ==> b.text == SidekickTitle
    ensures IsSet(Lookup(d, "project")) ==>
      exists i :: 0 <= i < |d| && d[i].0 == "project" && b.text == Stringify(d[i].1) + " " + SidekickTitle
    ensures b.config.Some? && b.config.value.owner == PathSegments(pathname)[0]
    ensures b.config.Some? && b.config.value.repo == Piece(PathSegments(pathname), 1)
    ensures b.config.Some? && (|PathSegments(pathname)| > 3 && PathSegments(pathname)[3] != ""
      ==> b.config.value.ref == PathSegments(pathname)[3])
    ensures b.config.Some? && (|PathSegments(pathname)| <= 3 || PathSegments(pathname)[3] == ""
      ==> b.config.value.ref == "main")
    ensures b.config.Some? && (b.config.value.token.Some? <==> IsSet(Lookup(d, "token")))
    ensures b.config.Some? && b.config.value.token.Some? ==>
      exists i :: 0 <= i < |d| && d[i] == ("token", b.config.value.token.value)
  {
    var title := Title(Lookup(d, "project"));
    Bookmark(Some(DeriveConfig(pathname, Lookup(d, "token"))), title, Some(title))
  }

  // ---------------------------------------------------------------------
  // Pre-filling the form from the query string
  // ---------------------------------------------------------------------

  predicate DistinctIds(inputs: seq<Input>)
  {
    forall i, j :: 0 <= i < j < |inputs| ==> inputs[i].id != inputs[j].id
  }

  /** The inputs have the ids and types of `other`: only `checked` and `value` may differ. */
  predicate SameShape(inputs: seq<Input>, other: seq<Input>)
  {
    |inputs| == |other|
    && forall i :: 0 <= i < |inputs| ==> inputs[i].id == other[i].id && inputs[i].kind == other[i].kind
  }

  /** `document.querySelector('input#k')`: the first input with id `k`. */
  function FirstWithId(inputs: seq<Input>, k: string): (r: Option<nat>)
    ensures r.None? <==> forall i :: 0 <= i < |inputs| ==> inputs[i].id != k
    ensures r.Some? ==>
      (r.value < |inputs| && inputs[r.value].id == k && forall i :: 0 <= i < r.value ==> inputs[i].id != k)
  {
    if inputs == [] then None
    else if inputs[0].id == k then Some(0)
    else match FirstWithId(inputs[1..], k)
      case None => None
      case Some(i) => assert inputs[1..][i] == inputs[i + 1]; Some(i + 1)
  }

  /** What one parameter value does to a matching input. */
  function Fill(f: Input, v: string): Input
  {
    if IsToggle(f.kind) then f.(checked := v != "false") else f.(value := v)
  }

  /** The inputs after handling one query parameter: a parameter no input matches is ignored. */
  function ApplyParam(inputs: seq<Input>, p: (string, string)): (r: seq<Input>)
    ensures |r| == |inputs|
  {
    match FirstWithId(inputs, p.0)
    case None => inputs
    case Some(j) => inputs[j := Fill(inputs[j], p.1)]
  }

  /** The inputs after the `forEach` over the query parameters. */
  function Prefilled(inputs: seq<Input>, q: Params): (r: seq<Input>)
    ensures |r| == |inputs|
  {
    if q == [] then inputs else ApplyParam(Prefilled(inputs, q[..|q| - 1]), q[|q| - 1])
  }

  /** Some query parameter names an input. */
  predicate AnyMatch(inputs: seq<Input>, q: Params)
  {
    exists i :: 0 <= i < |q| && FirstWithId(inputs, q[i].0).Some?
  }

  lemma {:induction false} FirstWithIdShape(a: seq<Input>, b: seq<Input>, k: string)
    requires SameShape(a, b)
    ensures FirstWithId(a, k) == FirstWithId(b, k)
  {
    if a != [] && a[0].id != k {
      assert SameShape(a[1..], b[1..]) by {
        forall i | 0 <= i < |a| - 1
          ensures a[1..][i].id == b[1..][i].id && a[1..][i].kind == b[1..][i].kind
        {
          assert a[1..][i] == a[i + 1] && b[1..][i] == b[i + 1];
        }
      }
      FirstWithIdShape(a[1..], b[1..], k);
    }
  }

  /** One more parameter matches some input exactly when it names one. */
  lemma AnyMatchSnoc(inputs: seq<Input>, q: Params, i: nat)
    requires i < |q|
    ensures AnyMatch(inputs, q[..i + 1]) <==> AnyMatch(inputs, q[..i]) || FirstWithId(inputs, q[i].0).Some?
  {
    var longer := q[..i + 1];
    assert longer[i] == q[i];
    if AnyMatch(inputs, longer) && !AnyMatch(inputs, q[..i]) {
      var m :| 0 <= m < i + 1 && FirstWithId(inputs, longer[m].0).Some?;
      assert m == i;
    }
    if AnyMatch(inputs, q[..i]) {
      var m :| 0 <= m < i && FirstWithId(inputs, q[..i][m].0).Some?;
      assert longer[m] == q[..i][m];
    }
  }

  /** Pre-filling only touches `checked` and `value`. */
  lemma {:induction false} PrefilledShape(inputs: seq<Input>, q: Params)
    ensures SameShape(Prefilled(inputs, q), inputs)
  {
    if q != [] {
      PrefilledShape(inputs, q[..|q| - 1]);
    }
  }

  /**
   * With distinct ids, each input ends up as the last parameter naming it
   * left it: filled from that parameter's value, or untouched when no
   * parameter names it.
   */
  lemma {:induction false} PrefilledField(inputs: seq<Input>, q: Params, i: nat)
    requires DistinctIds(inputs) && i < |inputs|
    ensures Prefilled(inputs, q)[i] ==
      match LastValue(q, inputs[i].id)
      case None => inputs[i]
      case Some(v) => Fill(inputs[i], v)
  {
    if q != [] {
      var init := q[..|q| - 1];
      var p := q[|q| - 1];
      var before := Prefilled(inputs, init);
      PrefilledField(inputs, init, i);
      PrefilledShape(inputs, init);
      FirstWithIdShape(before, inputs, p.0);
      if p.0 == inputs[i].id {
        var j := FirstWithId(inputs, p.0).value;
        assert j == i;
      } else {
        match FirstWithId(inputs, p.0)
        case None =>
        case Some(j) =>
          assert j != i;
      }
    }
  }

  /**
   * The round trip between `run` and `init`: writing the collected form to
   * the query and pre-filling a form with the same ids and types from that
   * query restores every field's checked state or value.
   */
  lemma RoundTrip(inputs: seq<Input>, target: seq<Input>, q0: Params)
    requires DistinctIds(inputs) && SameShape(target, inputs)
    ensures var q := WriteAll(q0, Collect(inputs));
      forall i :: 0 <= i < |inputs| ==> FieldValue(Prefilled(target, q)[i]) == FieldValue(inputs[i])
  {
    var d := Collect(inputs);
    var q := WriteAll(q0, d);
    CollectMeaning(inputs);
    assert DistinctIds(target) by {
      forall a, b | 0 <= a < b < |target|
        ensures target[a].id != target[b].id
      {
        assert target[a].id == inputs[a].id && target[b].id == inputs[b].id;
      }
    }
    forall i | 0 <= i < |inputs|
      ensures FieldValue(Prefilled(target, q)[i]) == FieldValue(inputs[i])
    {
      var k := inputs[i].id;
      LastFieldDistinct(inputs, i);
      WriteAllValues(q0, d, k);
      LastValueOfValues(q, k);
      PrefilledField(target, q, i);
    }
  }

  // ---------------------------------------------------------------------
  // The field schema and the form path (`decorate`)
  // ---------------------------------------------------------------------

  /** A row of the form's JSON schema; None is a missing property. */
  datatype Row = Row(labelText: Option<string>, kind: Option<string>, required: Option<string>,
                     name: Option<string>, placeholder: Option<string>, checked: Option<string>)

  /** A JSON string property is truthy when present and non-empty. */
  predicate Present(o: Option<string>)
  {
    o.Some? && o.value != ""
  }

  /** What `decorate` appends to the form: a label, or an input. */
  datatype FormElem =
    | Label(forName: Option<string>, text: string)
    | Field(kind: Option<string>, id: Option<string>, placeholder: string, checked: bool)

  /** The input a row becomes. */
  function FieldOf(r: Row): (e: FormElem)
    ensures e.Field? && e.kind == r.kind && e.id == r.name
    ensures e.placeholder == if Present(r.placeholder) then r.placeholder.value else ""
    ensures e.checked <==> r.kind == Some("checkbox") && Present(r.checked)
  {
    Field(r.kind, r.name, if Present(r.placeholder) then r.placeholder.value else "",
          r.kind == Some("checkbox") && Present(r.checked))
  }

  /** The label a row with a label becomes: marked `*` when the field is required. */
  function LabelOf(r: Row): (e: FormElem)
    requires Present(r.labelText)
    ensures e.Label? && e.forName == r.name
    ensures |e.text| == |r.labelText.value| + (if Present(r.required) then 1 else 0)
    ensures e.text[..|r.labelText.value|] == r.labelText.value
    ensures Present(r.required) ==> e.text[|e.text| - 1] == '*'
  {
    Label(r.name, r.labelText.value + if Present(r.required) then "*" else "")
  }

  /** The elements one row adds: its label when it has one, then its input. */
  function RowElems(r: Row): seq<FormElem>
  {
    (if Present(r.labelText) then [LabelOf(r)] else []) + [FieldOf(r)]
  }

  /** The elements the `forEach` over the schema appends, in row order. */
  function Rendered(rows: seq<Row>): seq<FormElem>
  {
    if rows == [] then [] else Rendered(rows[..|rows| - 1]) + RowElems(rows[|rows| - 1])
  }

  /** The inputs among the form's elements, in order. */
  function Fields(es: seq<FormElem>): seq<FormElem>
  {
    if es == [] then []
    else Fields(es[..|es| - 1]) + (if es[|es| - 1].Field? then [es[|es| - 1]] else [])
  }

  /** How many rows have a label. */
  function LabelCount(rows: seq<Row>): nat
  {
    if rows == [] then 0 else LabelCount(rows[..|rows| - 1]) + (if Present(rows[|rows| - 1].labelText) then 1 else 0)
  }

  lemma {:induction false} FieldsAppend(a: seq<FormElem>, b: seq<FormElem>)
    ensures Fields(a + b) == Fields(a) + Fields(b)
    decreases |b|
  {
    if b == [] {
      assert a + b == a;
    } else {
      assert (a + b)[..|a + b| - 1] == a + b[..|b| - 1];
      FieldsAppend(a, b[..|b| - 1]);
    }
  }

  /** One row contributes its input, after its label when it has one. */
  lemma RowFields(r: Row)
    ensures Fields(RowElems(r)) == [FieldOf(r)]
    ensures |RowElems(r)| == 1 + if Present(r.labelText) then 1 else 0
  {
    var f := [FieldOf(r)];
    assert f[..0] == [];
    if Present(r.labelText) {
      var l := [LabelOf(r)];
      assert l[..0] == [];
      FieldsAppend(l, f);
    }
  }

  /** The form holds one element per row and one more for each labelled row. */
  lemma {:induction false} RenderedSize(rows: seq<Row>)
    ensures |Rendered(rows)| == |rows| + LabelCount(rows)
  {
    if rows != [] {
      RenderedSize(rows[..|rows| - 1]);
      RowFields(rows[|rows| - 1]);
    }
  }

  /**
   * Rendering keeps the rows' order: the inputs of the form are exactly
   * one per row, in row order.
   */
  lemma {:induction false} RenderedFields(rows: seq<Row>)
    ensures |Fields(Rendered(rows))| == |rows|
    ensures forall i :: 0 <= i < |rows| ==> Fields(Rendered(rows))[i] == FieldOf(rows[i])
  {
    if rows != [] {
      var init := rows[..|rows| - 1];
      var r := rows[|rows| - 1];
      RenderedFields(init);
      FieldsAppend(Rendered(init), RowElems(r));
      RowFields(r);
      var fi := Fields(Rendered(init));
      var fs := Fields(Rendered(rows));
      assert fs == fi + [FieldOf(r)];
      forall i | 0 <= i < |rows|
        ensures fs[i] == FieldOf(rows[i])
      {
        if i < |init| {
          assert fs[i] == fi[i];
          assert rows[i] == init[i];
        } else {
          assert i == |fi|;
          assert fs[i] == FieldOf(r);
        }
      }
    }
  }

  /** Rendering more rows only appends to the form: the first `n` rows' elements start it. */
  lemma {:induction false} RenderedPrefix(rows: seq<Row>, n: nat)
    requires n <= |rows|
    ensures Rendered(rows[..n]) <= Rendered(rows)
    decreases |rows| - n
  {
    if n < |rows| {
      var m := n + 1;
      assert rows[..m][..n] == rows[..n];
      RenderedPrefix(rows, m);
      assert Rendered(rows[..m]) == Rendered(rows[..n]) + RowElems(rows[n]);
    } else {
      assert rows[..n] == rows;
    }
  }

  /**
   * Row `i` owns the elements from position `i + LabelCount(rows[..i])` on:
   * its label there exactly when its label text is truthy, and its input
   * right after the label, or there when it has none.
   */
  lemma RenderedRow(rows: seq<Row>, i: nat)
    requires i < |rows|
    ensures var p := i + LabelCount(rows[..i]);
      && p + |RowElems(rows[i])| <= |Rendered(rows)|
      && Rendered(rows)[p..p + |RowElems(rows[i])|] == RowElems(rows[i])
      && (Rendered(rows)[p].Label? <==> Present(rows[i].labelText))
      && (Present(rows[i].labelText) ==> Rendered(rows)[p] == LabelOf(rows[i]) && Rendered(rows)[p + 1] == FieldOf(rows[i]))
      && (!Present(rows[i].labelText) ==> Rendered(rows)[p] == FieldOf(rows[i]))
  {
    RenderedSize(rows[..i]);
    RenderedSplit(rows, i);
    RowAt(Rendered(rows[..i]), rows[i], Rendered(rows));
  }

  /** The form starts with the first `i` rows' elements followed by row `i`'s. */
  lemma RenderedSplit(rows: seq<Row>, i: nat)
    requires i < |rows|
    ensures Rendered(rows[..i]) + RowElems(rows[i]) <= Rendered(rows)
  {
    RenderedPrefix(rows, i + 1);
    assert rows[..i + 1][..i] == rows[..i];
    assert rows[..i + 1][i] == rows[i];
  }

  /** A row's elements that follow `a` at the start of `whole` sit at `|a|`, label first. */
  lemma RowAt(a: seq<FormElem>, r: Row, whole: seq<FormElem>)
    requires a + RowElems(r) <= whole
    ensures var p := |a|;
      && p + |RowElems(r)| <= |whole|
      && whole[p..p + |RowElems(r)|] == RowElems(r)
      && (whole[p].Label? <==> Present(r.labelText))
      && (Present(r.labelText) ==> whole[p] == LabelOf(r) && whole[p + 1] == FieldOf(r))
      && (!Present(r.labelText) ==> whole[p] == FieldOf(r))
  {
    var e := RowElems(r);
    assert whole[..|a| + |e|] == a + e;
    assert (a + e)[|a|..] == e;
    RowHead(r);
  }

  /** A row's elements start with its label exactly when it has one, and its input follows. */
  lemma RowHead(r: Row)
    ensures RowElems(r)[0].Label? <==> Present(r.labelText)
    ensures Present(r.labelText) ==> RowElems(r) == [LabelOf(r), FieldOf(r)]
    ensures !Present(r.labelText) ==> RowElems(r) == [FieldOf(r)]
  {
  }

  /** The `forEach` of `decorate` over the fetched schema: each row appends its label, when it has one, then its input, to the form. */
  method RenderSchema(rows: seq<Row>) returns (form: seq<FormElem>)
    ensures form == Rendered(rows)
  {
    form := [];
    for i := 0 to |rows|
      invariant form == Rendered(rows[..i])
    {
      if Present(rows[i].labelText) {
        form := form + [LabelOf(rows[i])];
      }
      form := form + [FieldOf(rows[i])];
      assert rows[..i + 1][..i] == rows[..i];
      assert form == Rendered(rows[..i]) + RowElems(rows[i]);
    }
    assert rows[..|rows|] == rows;
  }

  const DefaultFormPath: string := "./generator"

  /**
   * The form path and the paragraphs left in the form container: with more
   * than one paragraph, the first names the path after its first `:`
   * (trimmed; None, JavaScript's `undefined`, when it has no `:`) and is
   * removed.
   */
  function ExtractFormPath(pars: seq<string>): (r: (Option<string>, seq<string>))
    ensures |pars| <= 1 ==> r == (Some(DefaultFormPath), pars)
    ensures |pars| > 1 ==> r.1 == pars[1..]
    ensures |pars| > 1 ==> (r.0.None? <==> ':' !in pars[0])
  {
    if |pars| > 1 then
      var pieces := Split(pars[0], ':');
      SplitSingle(pars[0], ':');
      (match Piece(pieces, 1) case None => None case Some(p) => Some(Trim(p)), pars[1..])
    else (Some(DefaultFormPath), pars)
  }

  /**
   * A first paragraph `label:path`, where the path runs up to the next `:`
   * or to the end (`Form: https://host/x` names `https`), names that path,
   * trimmed.
   */
  lemma FormPathOf(caption: string, path: string, tail: string, rest: seq<string>)
    requires ':' !in caption && ':' !in path && (tail == "" || tail[0] == ':') && |rest| >= 1
    ensures ExtractFormPath([caption + ":" + path + tail] + rest) == (Some(Trim(path)), rest)
  {
    var pars := [caption + ":" + path + tail] + rest;
    assert pars[1..] == rest;
    assert pars[0] == caption + [':'] + (path + tail);
    SplitAfter(caption, path + tail, ':');
    if tail == "" {
      assert path + tail == path;
      SplitNone(path, ':');
    } else {
      assert path + tail == path + [':'] + tail[1..];
      SplitAfter(path, tail[1..], ':');
    }
  }

  // ---------------------------------------------------------------------
  // The page
  // ---------------------------------------------------------------------

  /**
   * The generator page: the form's inputs in document order, the page's
   * query string, the bookmark link, whether the form is hidden, and how
   * many `sidekickGeneratorReady` events were dispatched.
   */
  class GeneratorPage {
    var inputs: seq<Input>
    var query: Params
    var bookmark: Bookmark
    var formHidden: bool
    var readyEvents: nat

    /** The page as `decorate` leaves it before `init`: the bookmark says `Sidekick` and has no title. */
    constructor (inputs: seq<Input>, query: Params)
      ensures this.inputs == inputs && this.query == query
      ensures bookmark == Bookmark(None, SidekickTitle, None) && !formHidden && readyEvents == 0
    {
      this.inputs := inputs;
      this.query := query;
      bookmark := Bookmark(None, SidekickTitle, None);
      formHidden := false;
      readyEvents := 0;
    }

    /** The `forEach` over `#form-container input` filling `formData`. */
    method CollectFormData() returns (d: FormData)
      ensures d == Collect(inputs)
    {
      d := [];
      for i := 0 to |inputs|
        invariant d == Collect(inputs[..i])
      {
        d := Assign(d, inputs[i].id, FieldValue(inputs[i]));
        assert inputs[..i + 1][..i] == inputs[..i];
      }
      assert inputs[..|inputs|] == inputs;
    }

    /**
     * `run()`: without a truthy `giturl` nothing changes; otherwise every
     * form value is written to the query, and the bookmark gets the derived
     * configuration and the title as its text and `title`. `pathOf` stands
     * for `new URL(giturl).pathname`.
     */
    method Run(pathOf: string -> string)
      modifies this`query, this`bookmark, this`readyEvents
      ensures var giturl := Lookup(Collect(inputs), "giturl");
        !IsSet(giturl) ==> query == old(query) && bookmark == old(bookmark) && readyEvents == old(readyEvents)
      ensures var d := Collect(inputs);
        var giturl := Lookup(d, "giturl");
        IsSet(giturl) ==>
          && query == WriteAll(old(query), d)
          && bookmark == BookmarkFor(d, pathOf(Stringify(giturl.value)))
          && readyEvents == old(readyEvents) + 1
    {
      var d := CollectFormData();
      var giturl := Lookup(d, "giturl");
      if !IsSet(giturl) {
        return;
      }
      Publish(d, pathOf(Stringify(giturl.value)));
    }

    /** The part of `run()` after the `giturl` check: write the query, set the bookmark, signal readiness. */
    method Publish(d: FormData, pathname: string)
      modifies this`query, this`bookmark, this`readyEvents
      ensures query == WriteAll(old(query), d)
      ensures bookmark == BookmarkFor(d, pathname)
      ensures readyEvents == old(readyEvents) + 1
    {
      WriteQuery(d);
      bookmark := BookmarkFor(d, pathname);
      readyEvents := readyEvents + 1;
    }

    /** `Object.keys(formData).forEach((name) => usp.set(name, formData[name]))`. */
    method WriteQuery(d: FormData)
      modifies this`query
      ensures query == WriteAll(old(query), d)
    {
      ghost var q0 := query;
      for i := 0 to |d|
        invariant query == WriteAll(q0, d[..i])
      {
        query := Set(query, d[i].0, Stringify(d[i].1));
        assert d[..i + 1][..i] == d[..i];
      }
      assert d[..|d|] == d;
    }

    /** The `forEach` over the query parameters in `init`; `autorun` is set when some parameter names an input. */
    method Prefill() returns (autorun: bool)
      modifies this`inputs
      ensures inputs == Prefilled(old(inputs), query)
      ensures autorun <==> AnyMatch(old(inputs), query)
    {
      ghost var orig := inputs;
      autorun := false;
      for i := 0 to |query|
        invariant inputs == Prefilled(orig, query[..i])
        invariant autorun <==> AnyMatch(orig, query[..i])
      {
        var (k, v) := query[i];
        PrefilledShape(orig, query[..i]);
        FirstWithIdShape(inputs, orig, k);
        assert query[..i + 1][..i] == query[..i];
        assert query[..i + 1][i] == query[i];
        var j := FirstWithId(inputs, k);
        assert k == query[i].0;
        if j.Some? {
          inputs := inputs[j.value := Fill(inputs[j.value], v)];
          autorun := true;
        }
        AnyMatchSnoc(orig, query, i);
      }
      assert query[..|query|] == query;
    }

    /** `init()`: pre-fill the form, and when a parameter matched, hide the form and run. */
    method Init(pathOf: string -> string)
      modifies this`inputs, this`query, this`bookmark, this`readyEvents, this`formHidden
      ensures inputs == Prefilled(old(inputs), old(query))
      ensures formHidden == (old(formHidden) || AnyMatch(old(inputs), old(query)))
      ensures !AnyMatch(old(inputs), old(query)) ==>
        query == old(query) && bookmark == old(bookmark) && readyEvents == old(readyEvents)
      ensures AnyMatch(old(inputs), old(query)) && !IsSet(Lookup(Collect(inputs), "giturl")) ==>
        query == old(query) && bookmark == old(bookmark) && readyEvents == old(readyEvents)
      ensures var giturl := Lookup(Collect(inputs), "giturl");
        AnyMatch(old(inputs), old(query)) && IsSet(giturl) ==>
          && query == WriteAll(old(query), Collect(inputs))
          && bookmark == BookmarkFor(Collect(inputs), pathOf(Stringify(giturl.value)))
          && readyEvents == old(readyEvents) + 1
    {
      var autorun := Prefill();
      if autorun {
        formHidden := true;
        Run(pathOf);
      }
    }
  }
}
