/** The link graph that the crawler hands to the PageRank computations, the page-to-probability
    maps they return, and sums over those maps.
 */
module Graph {

  /** A page is its file name. */
  type Page = string

  /** A page-to-probability map (a Python dict of floats, here exact reals). */
  type Dist = map<Page, real>

  /** The one exception the core can raise on its own: a dict lookup of a missing key. */
  datatype Error = KeyError(key: Page)

  datatype Result<T> = Ok(value: T) | Err(error: Error)

  /** A corpus is a Python dict from a page to the set of pages it links to. Python dicts
      iterate in insertion order, and the in-place pass of the iterative method depends on
      that order, so the order is kept explicitly in `pages`. */
  datatype Corpus = Corpus(pages: seq<Page>, links: map<Page, set<Page>>)
  {
    /** `pages` lists every key of `links` exactly once. */
    ghost predicate Valid() {
      && Distinct(pages)
      && forall p :: p in pages <==> p in links
    }

    /** What the crawler guarantees of its output: every link target is itself a page of
        the corpus, and no page links to itself. */
    ghost predicate WellFormed() {
      forall p, q | p in links && q in links[p] :: q in links && q != p
    }

    /** len(corpus) */
    function N(): nat {
      |pages|
    }
  }

  ghost predicate Distinct(ps: seq<Page>) {
    forall i, j | 0 <= i < j < |ps| :: ps[i] != ps[j]
  }

  function Elems(ps: seq<Page>): set<Page> {
    set p | p in ps
  }

  /** The sum of the values of `m` at the pages of `ps`, in order. */
  function Total(ps: seq<Page>, m: Dist): real
    requires forall p | p in ps :: p in m
  {
    if ps == [] then 0.0 else m[ps[0]] + Total(ps[1..], m)
  }

  /** How many entries of `ps` lie in `s`. */
  function Count(ps: seq<Page>, s: set<Page>): nat {
    if ps == [] then 0 else (if ps[0] in s then 1 else 0) + Count(ps[1..], s)
  }

  /** Over a sequence without repetitions, counting the entries in `s` measures the part of
      `s` that the sequence covers. */
  lemma {:induction false} CountDistinct(ps: seq<Page>, s: set<Page>)
    requires Distinct(ps)
    ensures Count(ps, s) == |s * Elems(ps)|
  {
    if ps != [] {
      var x, rest := ps[0], ps[1..];
      DistinctTail(ps);
      CountDistinct(rest, s);
      CoveredPart(x, rest, s);
      assert ps == [x] + rest;
    }
  }

  /** The tail of a sequence without repetitions has none either, and lacks the head. */
  lemma DistinctTail(ps: seq<Page>)
    requires ps != [] && Distinct(ps)
    ensures Distinct(ps[1..]) && ps[0] !in Elems(ps[1..])
  {
    var rest := ps[1..];
    forall i, j | 0 <= i < j < |rest| ensures rest[i] != rest[j] {
      assert rest[i] == ps[i + 1] && rest[j] == ps[j + 1];
    }
  }

  /** Putting a new head in front adds it to the covered part of `s` when it lies in `s`. */
  lemma CoveredPart(x: Page, rest: seq<Page>, s: set<Page>)
    requires x !in Elems(rest)
    ensures |s * Elems([x] + rest)| == (if x in s then 1 else 0) + |s * Elems(rest)|
  {
    var tail := s * Elems(rest);
    assert Elems([x] + rest) == {x} + Elems(rest);
    if x in s {
      assert s * Elems([x] + rest) == tail + {x};
    } else {
      assert s * Elems([x] + rest) == tail;
    }
  }

  /** k copies of x added up: keeps multiplication out of the sums over a corpus. */
  function Times(k: nat, x: real): real {
    if k == 0 then 0.0 else x + Times(k - 1, x)
  }

  lemma {:induction false} TimesIsProduct(k: nat, x: real)
    ensures Times(k, x) == (k as real) * x
  {
    if k > 0 {
      TimesIsProduct(k - 1, x);
    }
  }

  /** k equal shares of x add back up to x. */
  lemma TimesShare(k: nat, x: real)
    requires k > 0
    ensures Times(k, x / (k as real)) == x
  {
    TimesIsProduct(k, x / (k as real));
  }

  /** A map whose value at each page is `a`, plus `b` at the pages of `s`, sums over `ps`
      to |ps| copies of `a` and one `b` per entry of `ps` in `s`. */
  lemma {:induction false} TotalTwoLevels(ps: seq<Page>, m: Dist, s: set<Page>, a: real, b: real)
    requires forall p | p in ps :: p in m && m[p] == a + (if p in s then b else 0.0)
    ensures Total(ps, m) == Times(|ps|, a) + Times(Count(ps, s), b)
  {
    if ps != [] {
      TotalTwoLevels(ps[1..], m, s, a, b);
    }
  }
}
