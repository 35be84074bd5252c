/**
 * The real-user-monitoring sampler of scripts/scripts.js: the 32-bit string
 * hash that seeds the session id, and the per-page session state that
 * `sampleRUM` creates once and then reuses for every checkpoint beacon.
 */
module Rum {
  import opened Strings
  import SearchParams

  const TWO31: int := 0x8000_0000
  const TWO32: int := 0x1_0000_0000

  type Int32 = x: int | -0x8000_0000 <= x < 0x8000_0000

  /** A UTF-16 code unit, what `charCodeAt` returns. */
  type CodeUnit = c: int | 0 <= c < 0x1_0000

  /** ECMAScript ToInt32: the signed 32-bit integer congruent to `x` modulo 2^32. */
  function ToInt32(x: int): (r: Int32)
    ensures (r - x) % TWO32 == 0
  {
    (x + TWO31) % TWO32 - TWO31
  }

  /** ToInt32 only depends on its argument modulo 2^32. */
  lemma ToInt32Congruent(x: int, y: int)
    requires (x - y) % TWO32 == 0
    ensures ToInt32(x) == ToInt32(y)
  {
    var d := (x - y) / TWO32;
    assert x == y + d * TWO32;
    assert (x + TWO31) % TWO32 == (y + TWO31 + d * TWO32) % TWO32;
  }

  /**
   * One step of the `reduce` in `hashCode`: `((a << 5) - a) + c` and then `| 0`.
   * `a << 5` is computed on 32 bits, so it is ToInt32(a * 32). The
   * shift-and-subtract is the familiar `31 * a + c` reduced to 32 bits.
   */
  function HashStep(a: Int32, c: CodeUnit): (r: Int32)
    ensures r == ToInt32(31 * a + c)
  {
    var m := ToInt32(a * 32);
    assert ((m - a + c) - (31 * a + c)) % TWO32 == 0 by {
      assert (m - a + c) - (31 * a + c) == m - a * 32;
    }
    ToInt32Congruent(m - a + c, 31 * a + c);
    ToInt32(m - a + c)
  }

  function Pow31(n: nat): (r: int)
    ensures r > 0
  {
    if n == 0 then 1 else 31 * Pow31(n - 1)
  }

  /** Reference definition: the polynomial sum of s[i] * 31^(n-1-i), unreduced. */
  function Poly(s: seq<CodeUnit>): int
  {
    if s == [] then 0 else s[0] * Pow31(|s| - 1) + Poly(s[1..])
  }

  lemma {:induction false} PolyAppend(s: seq<CodeUnit>, c: CodeUnit)
    ensures Poly(s + [c]) == 31 * Poly(s) + c
    decreases |s|
  {
    if s == [] {
      assert [] + [c] == [c];
    } else {
      assert (s + [c])[1..] == s[1..] + [c];
      PolyAppend(s[1..], c);
      assert Pow31(|s|) == 31 * Pow31(|s| - 1);
      calc {
        Poly(s + [c]);
        s[0] * Pow31(|s|) + Poly(s[1..] + [c]);
        s[0] * (31 * Pow31(|s| - 1)) + 31 * Poly(s[1..]) + c;
        { assert s[0] * (31 * Pow31(|s| - 1)) == 31 * (s[0] * Pow31(|s| - 1)); }
        31 * (s[0] * Pow31(|s| - 1) + Poly(s[1..])) + c;
      }
    }
  }

  /** Congruence modulo 2^32 is kept by multiplication. */
  lemma ScaleCongruent(h: int, p: int, k: int)
    requires (h - p) % TWO32 == 0
    ensures (k * h - k * p) % TWO32 == 0
  {
    var d := (h - p) / TWO32;
    assert h - p == d * TWO32;
    assert k * h - k * p == k * (h - p);
    assert k * (d * TWO32) == (k * d) * TWO32;
  }

  /**
   * `hashCode(s)`: the left fold of HashStep over the code units, starting
   * at 0. It computes the polynomial string hash modulo 2^32, whichever
   * order the wrap-arounds happen in.
   */
  function HashCode(s: seq<CodeUnit>): (r: Int32)
    ensures r == ToInt32(Poly(s))
  {
    if s == [] then 0
    else
      var init := s[..|s| - 1];
      var c := s[|s| - 1];
      assert s == init + [c];
      var h := HashCode(init);
      PolyAppend(init, c);
      var p := Poly(init);
      ScaleCongruent(h, p, 31);
      assert (31 * h + c) - (31 * p + c) == 31 * h - 31 * p;
      ToInt32Congruent(31 * h + c, 31 * p + c);
      HashStep(h, c)
  }

  /** Appending code unit `c` to a string with hash `h` gives ToInt32(31 * h + c). */
  lemma HashAppend(s: seq<CodeUnit>, c: CodeUnit)
    ensures HashCode(s + [c]) == ToInt32(31 * HashCode(s) + c)
  {
    assert (s + [c])[..|s + [c]| - 1] == s;
  }

  /** The session id: `${hashCode(href)}-${time}-${suffix}`, kept as its three parts. */
  datatype RumId = RumId(urlHash: Int32, time: int, suffix: string)

  /** `window.hlx.rum`. */
  datatype Session = Session(weight: int, id: RumId, random: real, isSelected: bool)

  /** The JSON body of one beacon (without the optional extra data). */
  datatype Beacon = Beacon(weight: int, id: RumId, referer: seq<CodeUnit>, generation: string, checkpoint: string)

  /**
   * What `sampleRUM` reads from the browser: the parsed query string, the
   * page URL as code units, the clock, one draw of Math.random and the hex
   * digits of another.
   */
  datatype Env = Env(query: SearchParams.Params, href: seq<CodeUnit>, now: int, random: real, suffix: string)

  const Generation: string := "biz-gen1"

  /** The weight chosen from the `rum` query parameter: 1 when the first `rum` parameter is `on`, 100 otherwise. */
  function Weight(query: SearchParams.Params): (w: int)
    ensures w == 1 <==> exists i: nat :: SearchParams.FirstNamed(query, "rum", i) && query[i].1 == "on"
    ensures w == 1 || w == 100
  {
    if SearchParams.Get(query, "rum") == Some("on") then 1
    else
      assert forall i: nat :: SearchParams.FirstNamed(query, "rum", i) ==> query[i].1 != "on" by {
        forall i: nat | SearchParams.FirstNamed(query, "rum", i)
          ensures query[i].1 != "on"
        {
          SearchParams.GetIsFirst(query, "rum", i);
        }
      }
      100
  }

  /** `random * weight < 1`: the draw falls in the sampled share of sessions. */
  predicate Sampled(random: real, weight: int)
  {
    random * (weight as real) < 1.0
  }

  /** At weight 1 every draw below 1 is sampled. */
  lemma SampledAtWeightOne(random: real)
    ensures Sampled(random, 1) <==> random < 1.0
  {
    assert random * (1 as real) == random;
  }

  /** At weight 100 a draw is sampled when it is below 1/100. */
  lemma SampledAtWeightHundred(random: real)
    ensures Sampled(random, 100) <==> random < 0.01
  {
    assert random * (100 as real) == 100.0 * random;
  }

  /**
   * The session state built on the first call: the weight from the query,
   * the id from the polynomial hash of the URL, the clock and the suffix,
   * and selection of every draw below 1 at weight 1, of one in a hundred at
   * weight 100.
   */
  function NewSession(env: Env): (s: Session)
    ensures s.weight == Weight(env.query)
    ensures s.id == RumId(ToInt32(Poly(env.href)), env.now, env.suffix)
    ensures s.random == env.random
    ensures s.isSelected <==> if s.weight == 1 then env.random < 1.0 else env.random < 0.01
  {
    var weight := Weight(env.query);
    SampledAtWeightOne(env.random);
    SampledAtWeightHundred(env.random);
    Session(weight, RumId(HashCode(env.href), env.now, env.suffix), env.random, Sampled(env.random, weight))
  }

  /** The guard on sending: `random && (random * weight < 1)`. */
  predicate Sends(s: Session)
  {
    s.random != 0.0 && Sampled(s.random, s.weight)
  }

  /** With `rum=on` every session is selected. */
  lemma OptInIsSelected(env: Env)
    requires 0.0 <= env.random < 1.0
    requires SearchParams.Get(env.query, "rum") == Some("on")
    ensures NewSession(env).isSelected
    ensures env.random != 0.0 ==> Sends(NewSession(env))
  {
    var s := NewSession(env);
    assert s.weight == 1;
  }

  /**
   * A beacon only goes out for a selected session; the converse fails exactly
   * for a draw of 0, where the stored flag says selected but the guard on
   * line 33 reads `random` as false.
   */
  lemma SendsIffSelected(env: Env)
    ensures Sends(NewSession(env)) <==> NewSession(env).isSelected && env.random != 0.0
  {
    var s := NewSession(env);
    SampledAtWeightOne(env.random);
    SampledAtWeightHundred(env.random);
  }

  /** `window.hlx`: the write-once session and the beacons handed to `sendBeacon`. */
  class Hlx {
    var rum: Option<Session>
    var beacons: seq<Beacon>

    constructor ()
      ensures rum == None && beacons == []
    {
      rum := None;
      beacons := [];
    }

    /**
     * `sampleRUM(checkpoint)`: creates the session state when there is none,
     * never replaces it afterwards, and sends one beacon when the stored
     * state passes the sampling guard.
     */
    method SampleRum(checkpoint: string, env: Env)
      modifies this
      ensures rum == if old(rum).None? then Some(NewSession(env)) else old(rum)
      ensures old(rum).Some? ==> rum == old(rum)
      ensures beacons == old(beacons) +
        (if Sends(rum.value)
         then [Beacon(rum.value.weight, rum.value.id, env.href, Generation, checkpoint)]
         else [])
    {
      if rum.None? {
        rum := Some(NewSession(env));
      }
      var s := rum.value;
      if Sends(s) {
        beacons := beacons + [Beacon(s.weight, s.id, env.href, Generation, checkpoint)];
      }
    }
  }
}
