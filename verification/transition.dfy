/** transition_model: the distribution of the next page of the random surfer, given the page
    it is on. With probability d it follows one of the page's links, chosen uniformly; with
    probability 1 - d it jumps to any page of the corpus. A page without links (a dangling
    page) jumps to any page with equal probability.
 */
module Transition {
  import opened Graph

  /** The distribution in closed form: with L links out of `page`, every page gets (1-d)/N
      and each linked page gets d/L on top; a dangling page gives every page 1/N. */
  function Distribution(c: Corpus, page: Page, d: real): Dist
    requires c.Valid() && page in c.links
  {
    var n := c.N() as real;
    var out := c.links[page];
    if |out| > 0 then
      map p | p in c.links :: (1.0 - d) / n + (if p in out then d / (|out| as real) else 0.0)
    else
      map p | p in c.links :: 1.0 / n
  }

  /** transition_model as pagerank.py writes it: a first loop over the corpus lays down the
      base probability, a second loop over the page's links (a Python set, so in no particular
      order) adds d/L to each. A link target that is not a page fails the `+=` lookup. */
  method TransitionModel(c: Corpus, page: Page, d: real) returns (r: Result<Dist>)
    requires c.Valid()
    ensures r.Err? <==> page !in c.links || (|c.links[page]| > 0 && !(c.links[page] <= c.links.Keys))
    ensures r.Err? && page !in c.links ==> r.error == KeyError(page)
    ensures r.Err? && page in c.links ==> r.error.key in c.links[page] - c.links.Keys
    ensures r.Ok? ==> r.value.Keys == c.links.Keys
    ensures r.Ok? && |c.links[page]| > 0 ==>
      forall p | p in c.links[page] :: r.value[p] == (1.0 - d) / (c.N() as real) + d / (|c.links[page]| as real)
    ensures r.Ok? && |c.links[page]| > 0 ==>
      forall p | p in r.value && p !in c.links[page] :: r.value[p] == (1.0 - d) / (c.N() as real)
    ensures r.Ok? && |c.links[page]| == 0 ==>
      forall p | p in r.value :: r.value[p] == 1.0 / (c.N() as real)
    ensures r.Ok? ==> r.value == Distribution(c, page, d)
  {
    if page !in c.links {
      return Err(KeyError(page));
    }
    var out := c.links[page];
    var length := |out|;
    var n := c.N() as real;
    var prob: Dist := map[];
    if length > 0 {
      var base := (1.0 - d) / n;
      prob := Fill(c, base);
      var todo := out;
      while todo != {}
        invariant todo <= out
        invariant out - todo <= c.links.Keys
        invariant prob.Keys == c.links.Keys
        invariant forall p | p in prob :: prob[p] == base + (if p in out - todo then d / (length as real) else 0.0)
        decreases |todo|
      {
        var link :| link in todo;
        if link !in prob {
          return Err(KeyError(link));
        }
        prob := prob[link := prob[link] + d / (length as real)];
        todo := todo - {link};
      }
    } else {
      prob := Fill(c, 1.0 / n);
    }
    return Ok(prob);
  }

  /** A loop over the corpus in order that gives every page the value `v`. */
  method Fill(c: Corpus, v: real) returns (prob: Dist)
    requires c.Valid()
    ensures prob.Keys == c.links.Keys
    ensures forall p | p in prob :: prob[p] == v
  {
    prob := map[];
    var i := 0;
    while i < |c.pages|
      invariant 0 <= i <= |c.pages|
      invariant prob.Keys == Elems(c.pages[..i])
      invariant forall p | p in prob :: prob[p] == v
    {
      prob := prob[c.pages[i] := v];
      i := i + 1;
    }
    assert c.pages[..i] == c.pages;
  }

  /** When every link target is a page of the corpus (the crawler guarantees it), the
      distribution sums to exactly 1 over the corpus, whatever the damping factor. */
  lemma DistributionSum(c: Corpus, page: Page, d: real)
    requires c.Valid() && page in c.links
    requires c.links[page] <= c.links.Keys
    ensures Total(c.pages, Distribution(c, page, d)) == 1.0
  {
    var m := Distribution(c, page, d);
    var n := |c.pages| as real;
    var out := c.links[page];
    if |out| > 0 {
      var base, e := (1.0 - d) / n, d / (|out| as real);
      assert forall p | p in c.pages :: p in m && m[p] == base + (if p in out then e else 0.0);
      TotalTwoLevels(c.pages, m, out, base, e);
      CountDistinct(c.pages, out);
      assert Elems(c.pages) == c.links.Keys;
      assert out * Elems(c.pages) == out;
      TimesShare(|c.pages|, 1.0 - d);
      TimesShare(|out|, d);
    } else {
      assert forall p | p in c.pages :: p in m && m[p] == 1.0 / n + (if p in {} then 0.0 else 0.0);
      TotalTwoLevels(c.pages, m, {}, 1.0 / n, 0.0);
      TimesShare(|c.pages|, 1.0);
      TimesIsProduct(Count(c.pages, {}), 0.0);
    }
  }

  /** With a damping factor in [0, 1], every probability lies in [0, 1]. */
  lemma DistributionBounds(c: Corpus, page: Page, d: real)
    requires c.Valid() && page in c.links
    requires 0.0 <= d <= 1.0
    ensures forall p | p in Distribution(c, page, d) :: 0.0 <= Distribution(c, page, d)[p] <= 1.0
  {
    var m := Distribution(c, page, d);
    var n := c.N() as real;
    var out := c.links[page];
    assert n >= 1.0;
    ShrinkBy(1.0 - d, n);
    ShrinkBy(1.0, n);
    if |out| > 0 {
      ShrinkBy(d, |out| as real);
    }
  }

  /** Dividing a non-negative number by at least 1 keeps it between 0 and itself. */
  lemma ShrinkBy(x: real, n: real)
    requires x >= 0.0 && n >= 1.0
    ensures 0.0 <= x / n <= x
  {
    assert x / n * n == x;
  }
}
