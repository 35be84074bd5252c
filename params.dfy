/**
 * The query-string list behind `URLSearchParams`: an ordered list of
 * name/value pairs in which a name may repeat. Parsing and serialising the
 * query string are not part of this module; it works on the parsed list.
 */
module SearchParams {
  import opened Strings

  type Params = seq<(string, string)>

  /** `usp.get(k)`: the value of the first pair named `k`, or None (`null`). */
  function Get(q: Params, k: string): (r: Option<string>)
    ensures r.None? <==> (forall i :: 0 <= i < |q| ==> q[i].0 != k)
    ensures r.Some? ==> exists i: nat :: FirstNamed(q, k, i) && q[i].1 == r.value
  {
    if q == [] then None
    else if q[0].0 == k then assert FirstNamed(q, k, 0); Some(q[0].1)
    else
      var r := Get(q[1..], k);
      if r.Some? then
        var i: nat :| FirstNamed(q[1..], k, i) && q[1..][i].1 == r.value;
        assert FirstNamed(q, k, i + 1);
        r
      else r
  }

  /** Pair `i` is the first one named `k`. */
  predicate FirstNamed(q: Params, k: string, i: nat)
  {
    i < |q| && q[i].0 == k && forall j :: 0 <= j < i ==> q[j].0 != k
  }

  /** The first pair named `k` is the one `get` reads. */
  lemma GetIsFirst(q: Params, k: string, i: nat)
    requires FirstNamed(q, k, i)
    ensures Get(q, k) == Some(q[i].1)
  {
    var r := Get(q, k);
    var i': nat :| FirstNamed(q, k, i') && q[i'].1 == r.value;
    assert i' == i;
  }

  /** The values of all pairs named `k`, in order (`usp.getAll(k)`). */
  function Values(q: Params, k: string): seq<string>
  {
    if q == [] then []
    else (if q[0].0 == k then [q[0].1] else []) + Values(q[1..], k)
  }

  /** The pairs whose name is not `k`, in order. */
  function Without(q: Params, k: string): Params
  {
    if q == [] then []
    else (if q[0].0 == k then [] else [q[0]]) + Without(q[1..], k)
  }

  /**
   * `usp.set(k, v)`: when a pair named `k` exists, the first one takes value
   * `v` and every later one is dropped; otherwise `(k, v)` is appended.
   * Afterwards exactly one pair is named `k` and it holds `v`; the pairs of
   * every other name are untouched, in order.
   */
  function Set(q: Params, k: string, v: string): (r: Params)
    ensures Values(r, k) == [v]
    ensures forall j :: j != k ==> Values(r, j) == Values(q, j)
  {
    if Get(q, k).None? then
      ValuesNone(q, k);
      ValuesAppend(q, [(k, v)], k);
      assert [(k, v)][1..] == [];
      assert forall j :: j != k ==> Values(q + [(k, v)], j) == Values(q, j) by {
        forall j | j != k
          ensures Values(q + [(k, v)], j) == Values(q, j)
        {
          ValuesAppend(q, [(k, v)], j);
        }
      }
      q + [(k, v)]
    else
      ValuesSetFirst(q, k, v, k);
      assert forall j :: j != k ==> Values(SetFirst(q, k, v), j) == Values(q, j) by {
        forall j | j != k
          ensures Values(SetFirst(q, k, v), j) == Values(q, j)
        {
          ValuesSetFirst(q, k, v, j);
        }
      }
      SetFirst(q, k, v)
  }

  function SetFirst(q: Params, k: string, v: string): Params
  {
    if q == [] then []
    else if q[0].0 == k then [(k, v)] + Without(q[1..], k)
    else [q[0]] + SetFirst(q[1..], k, v)
  }

  /** The value a `forEach` over the pairs leaves behind for `k`: that of the last pair named `k`. */
  function LastValue(q: Params, k: string): Option<string>
  {
    if q == [] then None
    else if q[|q| - 1].0 == k then Some(q[|q| - 1].1)
    else LastValue(q[..|q| - 1], k)
  }

  lemma {:induction false} ValuesAppend(q: Params, r: Params, k: string)
    ensures Values(q + r, k) == Values(q, k) + Values(r, k)
  {
    if q == [] {
      assert q + r == r;
    } else {
      assert (q + r)[1..] == q[1..] + r;
      ValuesAppend(q[1..], r, k);
    }
  }

  lemma {:induction false} ValuesWithout(q: Params, k: string, j: string)
    ensures Values(Without(q, k), k) == []
    ensures j != k ==> Values(Without(q, k), j) == Values(q, j)
  {
    if q != [] {
      ValuesWithout(q[1..], k, j);
      ValuesAppend(if q[0].0 == k then [] else [q[0]], Without(q[1..], k), k);
      ValuesAppend(if q[0].0 == k then [] else [q[0]], Without(q[1..], k), j);
      assert [q[0]][1..] == [];
    }
  }

  lemma {:induction false} ValuesSetFirst(q: Params, k: string, v: string, j: string)
    requires Get(q, k).Some?
    ensures Values(SetFirst(q, k, v), k) == [v]
    ensures j != k ==> Values(SetFirst(q, k, v), j) == Values(q, j)
  {
    var rest := if q[0].0 == k then Without(q[1..], k) else SetFirst(q[1..], k, v);
    if q[0].0 == k {
      ValuesWithout(q[1..], k, j);
    } else {
      ValuesSetFirst(q[1..], k, v, j);
    }
    ValuesAppend([if q[0].0 == k then (k, v) else q[0]], rest, k);
    ValuesAppend([if q[0].0 == k then (k, v) else q[0]], rest, j);
    assert [(k, v)][1..] == [];
    assert [q[0]][1..] == [];
  }

  lemma {:induction false} ValuesNone(q: Params, k: string)
    requires Get(q, k).None?
    ensures Values(q, k) == []
  {
    if q != [] {
      ValuesNone(q[1..], k);
    }
  }

  /** The last pair's value is the last of the values: a name with exactly one value has that value last. */
  lemma {:induction false} LastValueOfValues(q: Params, k: string)
    ensures LastValue(q, k).None? <==> Values(q, k) == []
    ensures Values(q, k) != [] ==> LastValue(q, k) == Some(Values(q, k)[|Values(q, k)| - 1])
  {
    if q != [] {
      var init := q[..|q| - 1];
      var last := q[|q| - 1];
      assert q == init + [last];
      ValuesAppend(init, [last], k);
      assert [last][1..] == [];
      LastValueOfValues(init, k);
    }
  }
}
