/** The reference recommender of shop/recommender_py.py: Jaccard similarity between tag
    lists, and the ranking that keeps the other products scoring above one tenth, puts
    them in descending score order (ties in input order) and returns the first three.
    Scores are exact fractions compared by cross-multiplication. */
module Recommender {
  import opened Models
  import opened Text

  /** A non-negative fraction `num / den`. */
  datatype Fraction = Fraction(num: nat, den: nat)

  /** A similarity score: a fraction whose denominator is not zero. */
  type Score = f: Fraction | f.den > 0 witness Fraction(0, 1)

  /** `a <= b` as rationals. */
  predicate AtMost(a: Score, b: Score) {
    a.num * b.den <= b.num * a.den
  }

  /** `a < b` as rationals. */
  predicate Below(a: Score, b: Score) {
    a.num * b.den < b.num * a.den
  }

  /** `a == b` as rationals (`1/2` and `2/4` are the same score). */
  predicate SameValue(a: Score, b: Score) {
    a.num * b.den == b.num * a.den
  }

  /** `score > 0.1`, without rounding. */
  predicate AboveThreshold(s: Score) {
    10 * s.num > s.den
  }

  /** The number of recommendations returned. */
  const TOP_N: nat := 3

  lemma MulMono(x: int, y: int, k: nat)
    requires x <= y
    ensures x * k <= y * k
  {
  }

  lemma MulStrictMono(x: int, y: int, k: nat)
    requires x < y && k > 0
    ensures x * k < y * k
  {
  }

  lemma MulCancel(x: int, y: int, k: nat)
    requires x * k <= y * k && k > 0
    ensures x <= y
  {
    if x > y { MulStrictMono(y, x, k); }
  }

  lemma AtMostTransitive(a: Score, b: Score, c: Score)
    requires AtMost(a, b) && AtMost(b, c)
    ensures AtMost(a, c)
  {
    MulMono(a.num * b.den, b.num * a.den, c.den);
    MulMono(b.num * c.den, c.num * b.den, a.den);
    assert (a.num * c.den) * b.den == (a.num * b.den) * c.den;
    assert (b.num * a.den) * c.den == (b.num * c.den) * a.den;
    assert (c.num * b.den) * a.den == (c.num * a.den) * b.den;
    MulCancel(a.num * c.den, c.num * a.den, b.den);
  }

  lemma SameValueTransitive(a: Score, b: Score, c: Score)
    requires SameValue(a, b) && SameValue(b, c)
    ensures SameValue(a, c)
  {
    assert AtMost(a, b) && AtMost(b, c) && AtMost(c, b) && AtMost(b, a);
    AtMostTransitive(a, b, c);
    AtMostTransitive(c, b, a);
  }

  /** The threshold is the strict comparison with the exact fraction 1/10, so a score
      worth exactly one tenth (one shared tag out of ten) does not pass. */
  lemma ThresholdIsOneTenth(s: Score)
    ensures AboveThreshold(s) <==> Below(Fraction(1, 10), s)
    ensures SameValue(s, Fraction(1, 10)) ==> !AboveThreshold(s)
  {
  }

  /** The set of a tag list, as `set(tags)` builds it. */
  function TagSet(tags: seq<string>): set<string> {
    set t | t in tags
  }

  /** `calculate_similarity`: the Jaccard index `|A ∩ B| / |A ∪ B|` of the two tag sets,
      and 0 when both are empty. */
  function CalculateSimilarity(tags1: seq<string>, tags2: seq<string>): (r: Score)
    ensures r.num <= r.den
  {
    var set1 := TagSet(tags1);
    var set2 := TagSet(tags2);
    var intersection := |set1 * set2|;
    var union := |set1 + set2|;
    MeetWithinUnion(set1, set2);
    if union == 0 then Fraction(0, 1) else Fraction(intersection, union)
  }

  /** The score is the Jaccard index of the tag sets: it is 0 exactly for disjoint sets,
      1 exactly for equal non-empty sets, and 0 for two empty sets. */
  lemma JaccardIndex(tags1: seq<string>, tags2: seq<string>)
    ensures var r := CalculateSimilarity(tags1, tags2);
      && (TagSet(tags1) + TagSet(tags2) != {} ==>
            r == Fraction(|TagSet(tags1) * TagSet(tags2)|, |TagSet(tags1) + TagSet(tags2)|))
      && (r.num == 0 <==> TagSet(tags1) !! TagSet(tags2))
      && (r.num == r.den <==> TagSet(tags1) == TagSet(tags2) != {})
  {
    JaccardBounds(TagSet(tags1), TagSet(tags2));
  }

  /** The intersection of two sets is never larger than their union. */
  lemma MeetWithinUnion(a: set<string>, b: set<string>)
    ensures |a * b| <= |a + b|
  {
    assert |a + b| == |a - b| + |b - a| + |a * b| by {
      assert a + b == (a - b) + (b - a) + (a * b);
      assert (a - b) !! (b - a) && (a - b) !! (a * b) && (b - a) !! (a * b);
    }
  }

  /** The intersection is never larger than the union, is empty exactly for disjoint
      sets, and is as large as the union exactly for equal sets. */
  lemma JaccardBounds(a: set<string>, b: set<string>)
    ensures |a * b| <= |a + b|
    ensures |a * b| == 0 <==> a !! b
    ensures |a * b| == |a + b| <==> a == b
    ensures |a + b| == 0 <==> a == b == {}
  {
    assert |a + b| == |a - b| + |b - a| + |a * b| by {
      MeetWithinUnion(a, b);
      assert a + b == (a - b) + (b - a) + (a * b);
      assert (a - b) !! (b - a) && (a - b) !! (a * b) && (b - a) !! (a * b);
    }
    if |a * b| == |a + b| {
      assert a - b == {};
      assert b - a == {};
      assert a <= b && b <= a;
    }
    if |a * b| == 0 {
      assert a * b == {};
      assert forall x :: x in a && x in b ==> x in a * b;
    }
  }

  /** The score is symmetric in its arguments. */
  lemma SimilaritySymmetric(tags1: seq<string>, tags2: seq<string>)
    ensures CalculateSimilarity(tags1, tags2) == CalculateSimilarity(tags2, tags1)
  {
    assert TagSet(tags1) * TagSet(tags2) == TagSet(tags2) * TagSet(tags1);
    assert TagSet(tags1) + TagSet(tags2) == TagSet(tags2) + TagSet(tags1);
  }

  /** The score depends only on the sets of tags: order and duplicates do not matter. */
  lemma SimilarityOfSets(a1: seq<string>, a2: seq<string>, b1: seq<string>, b2: seq<string>)
    requires TagSet(a1) == TagSet(a2) && TagSet(b1) == TagSet(b2)
    ensures CalculateSimilarity(a1, b1) == CalculateSimilarity(a2, b2)
  {
  }

  /** A product with the score it got against the current product. */
  datatype Scored = Scored(score: Score, product: Product)

  /** The score of `p` against `current`, both as tag lists parsed from their text. */
  function ScoreOf(current: Product, p: Product): Score {
    CalculateSimilarity(TagsList(current.tags), TagsList(p.tags))
  }

  /** The element the loop of `get_recommendations_py` appends for product `p`. */
  predicate Qualifies(current: Product, x: Scored) {
    && x.product.id != current.id
    && x.score == ScoreOf(current, x.product)
    && AboveThreshold(x.score)
  }

  /** Every product of `products` paired with its score, in input order. */
  function Scores(current: Product, products: seq<Product>): seq<Scored> {
    seq(|products|, i requires 0 <= i < |products| => Scored(ScoreOf(current, products[i]), products[i]))
  }

  /** The test of the loop body, over already scored pairs: keep the pairs, in order,
      whose product does not have id `id` and whose score is above the threshold. */
  function Keep(id: ProductId, s: seq<Scored>): (r: seq<Scored>)
    ensures |r| <= |s|
  {
    if |s| == 0 then []
    else
      var prev := Keep(id, s[..|s| - 1]);
      var x := s[|s| - 1];
      if x.product.id != id && AboveThreshold(x.score) then prev + [x] else prev
  }

  /** The `recommendations` list after the loop has seen `products`: every product other
      than the current one whose score is above the threshold, in input order. */
  function Candidates(current: Product, products: seq<Product>): (r: seq<Scored>)
    ensures |r| <= |products|
  {
    Keep(current.id, Scores(current, products))
  }

  /** Everything kept comes from the input and passes the test. */
  lemma {:induction false} KeepSound(id: ProductId, s: seq<Scored>)
    ensures forall i :: 0 <= i < |Keep(id, s)| ==>
              Keep(id, s)[i] in s && Keep(id, s)[i].product.id != id && AboveThreshold(Keep(id, s)[i].score)
  {
    if |s| != 0 {
      var init := s[..|s| - 1];
      KeepSound(id, init);
      var r, r0 := Keep(id, s), Keep(id, init);
      forall i | 0 <= i < |r| ensures r[i] in s && r[i].product.id != id && AboveThreshold(r[i].score) {
        if i < |r0| {
          assert r[i] == r0[i];
          var k :| 0 <= k < |init| && init[k] == r0[i];
          assert s[k] == init[k];
        }
      }
    }
  }

  /** Every pair that passes the test is kept. */
  lemma {:induction false} KeepComplete(id: ProductId, s: seq<Scored>, k: nat)
    requires k < |s| && s[k].product.id != id && AboveThreshold(s[k].score)
    ensures s[k] in Keep(id, s)
  {
    var n := |s| - 1;
    if k < n {
      assert s[..n][k] == s[k];
      KeepComplete(id, s[..n], k);
    }
  }

  lemma KeepSnoc(id: ProductId, s: seq<Scored>, x: Scored)
    ensures Keep(id, s + [x]) == if x.product.id != id && AboveThreshold(x.score) then Keep(id, s) + [x] else Keep(id, s)
  {
    assert (s + [x])[..|s|] == s;
  }

  lemma ScoresSnoc(current: Product, products: seq<Product>, p: Product)
    ensures Scores(current, products + [p]) == Scores(current, products) + [Scored(ScoreOf(current, p), p)]
  {
    var l, r := Scores(current, products + [p]), Scores(current, products) + [Scored(ScoreOf(current, p), p)];
    forall i | 0 <= i < |products| ensures l[i] == r[i] {
      assert (products + [p])[i] == products[i];
    }
    assert l[|products|] == r[|products|];
  }

  /** Everything the loop keeps qualifies and comes from the input. */
  lemma CandidatesSound(current: Product, products: seq<Product>)
    ensures forall i :: 0 <= i < |Candidates(current, products)| ==>
              Qualifies(current, Candidates(current, products)[i]) && Candidates(current, products)[i].product in products
  {
    var s := Scores(current, products);
    KeepSound(current.id, s);
    var c := Candidates(current, products);
    forall i | 0 <= i < |c| ensures Qualifies(current, c[i]) && c[i].product in products {
      var k :| 0 <= k < |s| && s[k] == c[i];
      assert c[i].product == products[k];
    }
  }

  /** Every product that qualifies is kept, with its score. */
  lemma CandidatesComplete(current: Product, products: seq<Product>, p: Product)
    requires p in products && p.id != current.id && AboveThreshold(ScoreOf(current, p))
    ensures Scored(ScoreOf(current, p), p) in Candidates(current, products)
  {
    var k :| 0 <= k < |products| && products[k] == p;
    KeepComplete(current.id, Scores(current, products), k);
  }

  /** Non-increasing by score. */
  ghost predicate SortedDesc(s: seq<Scored>) {
    forall i, j :: 0 <= i < j < |s| ==> AtMost(s[j].score, s[i].score)
  }

  /** The elements of `s` whose score equals `q`, in order. */
  function WithScore(s: seq<Scored>, q: Score): seq<Scored> {
    if |s| == 0 then []
    else WithScore(s[..|s| - 1], q) + (if SameValue(s[|s| - 1].score, q) then [s[|s| - 1]] else [])
  }

  /** Place `x` after every element of `s` that scores at least as much as it. */
  function Insert(s: seq<Scored>, x: Scored): seq<Scored> {
    if |s| == 0 then [x]
    else if Below(s[|s| - 1].score, x.score) then Insert(s[..|s| - 1], x) + [s[|s| - 1]]
    else s + [x]
  }

  /** `recommendations.sort(key=score, reverse=True)`: a stable sort by descending score. */
  function SortByScore(s: seq<Scored>): seq<Scored> {
    if |s| == 0 then [] else Insert(SortByScore(s[..|s| - 1]), s[|s| - 1])
  }

  lemma {:induction false} InsertPerm(s: seq<Scored>, x: Scored)
    ensures multiset(Insert(s, x)) == multiset(s) + multiset{x}
  {
    if |s| != 0 && Below(s[|s| - 1].score, x.score) {
      var init := s[..|s| - 1];
      InsertPerm(init, x);
      assert s == init + [s[|s| - 1]];
    }
  }

  lemma {:induction false} InsertSorted(s: seq<Scored>, x: Scored)
    requires SortedDesc(s)
    ensures SortedDesc(Insert(s, x))
  {
    if |s| != 0 {
      var last := s[|s| - 1];
      var init := s[..|s| - 1];
      if Below(last.score, x.score) {
        assert SortedDesc(init);
        InsertSorted(init, x);
        InsertPerm(init, x);
        var ins := Insert(init, x);
        forall i | 0 <= i < |ins| ensures AtMost(last.score, ins[i].score) {
          assert ins[i] in multiset(ins);
          if ins[i] != x {
            assert ins[i] in init;
            var k :| 0 <= k < |init| && init[k] == ins[i];
            assert s[k] == ins[i];
          }
        }
        var r := ins + [last];
        forall i, j | 0 <= i < j < |r| ensures AtMost(r[j].score, r[i].score) {
          if j < |ins| {
            assert r[i] == ins[i] && r[j] == ins[j];
          } else {
            assert r[i] == ins[i];
          }
        }
      } else {
        var r := s + [x];
        forall i, j | 0 <= i < j < |r| ensures AtMost(r[j].score, r[i].score) {
          if j == |s| {
            assert r[i] == s[i];
            if i < |s| - 1 {
              AtMostTransitive(x.score, last.score, s[i].score);
            }
          } else {
            assert r[i] == s[i] && r[j] == s[j];
          }
        }
      }
    }
  }

  lemma {:induction false} WithScoreAppend(s: seq<Scored>, t: seq<Scored>, q: Score)
    ensures WithScore(s + t, q) == WithScore(s, q) + WithScore(t, q)
  {
    if |t| == 0 {
      assert s + t == s;
    } else {
      var init := t[..|t| - 1];
      assert (s + t)[..|s + t| - 1] == s + init;
      assert (s + t)[|s + t| - 1] == t[|t| - 1];
      WithScoreAppend(s, init, q);
    }
  }

  /** Insertion keeps the order among equal scores: `x` lands after the elements of
      `s` with the same score. */
  lemma {:induction false} InsertStable(s: seq<Scored>, x: Scored, q: Score)
    ensures WithScore(Insert(s, x), q) == WithScore(s, q) + WithScore([x], q)
  {
    assert [x][..0] == [];
    if |s| == 0 {
      assert Insert(s, x) == [x];
    } else {
      var last := s[|s| - 1];
      var init := s[..|s| - 1];
      if Below(last.score, x.score) {
        InsertStable(init, x, q);
        WithScoreAppend(Insert(init, x), [last], q);
        assert [last][..0] == [];
        if SameValue(x.score, q) {
          if SameValue(last.score, q) {
            SameValueTransitive(last.score, q, x.score);
            assert false;
          }
        }
      } else {
        WithScoreAppend(s, [x], q);
      }
    }
  }

  /** The sort is a permutation. */
  lemma {:induction false} SortByScorePerm(s: seq<Scored>)
    ensures multiset(SortByScore(s)) == multiset(s)
  {
    if |s| != 0 {
      var init := s[..|s| - 1];
      SortByScorePerm(init);
      InsertPerm(SortByScore(init), s[|s| - 1]);
      assert s == init + [s[|s| - 1]];
    }
  }

  /** The sort orders by non-increasing score. */
  lemma {:induction false} SortByScoreSorted(s: seq<Scored>)
    ensures SortedDesc(SortByScore(s))
  {
    if |s| != 0 {
      SortByScoreSorted(s[..|s| - 1]);
      InsertSorted(SortByScore(s[..|s| - 1]), s[|s| - 1]);
    }
  }

  /** The sort is stable: elements of equal score keep their relative order. */
  lemma {:induction false} SortByScoreStable(s: seq<Scored>, q: Score)
    ensures WithScore(SortByScore(s), q) == WithScore(s, q)
  {
    if |s| != 0 {
      var init := s[..|s| - 1];
      SortByScoreStable(init, q);
      InsertStable(SortByScore(init), s[|s| - 1], q);
      WithScoreAppend(init, [s[|s| - 1]], q);
      assert s == init + [s[|s| - 1]];
      assert [s[|s| - 1]][..0] == [];
    }
  }

  /** The sorted candidates. */
  function Ranked(current: Product, products: seq<Product>): seq<Scored> {
    SortByScore(Candidates(current, products))
  }

  /** `recommendations[:3]`. */
  function Top(current: Product, products: seq<Product>): seq<Scored> {
    var ranked := Ranked(current, products);
    ranked[..if |ranked| < TOP_N then |ranked| else TOP_N]
  }

  /** The products of a scored list, in its order. */
  function ProductsOf(s: seq<Scored>): (r: seq<Product>)
    ensures |r| == |s|
    ensures forall i :: 0 <= i < |s| ==> r[i] == s[i].product
  {
    if |s| == 0 then [] else [s[0].product] + ProductsOf(s[1..])
  }

  /** `get_recommendations_py(current, products)`. */
  function Recommend(current: Product, products: seq<Product>): seq<Product> {
    ProductsOf(Top(current, products))
  }

  /** The top of the ranking: at most three qualifying candidates, in non-increasing
      score order. */
  lemma TopSound(current: Product, products: seq<Product>)
    ensures |Top(current, products)| <= TOP_N
    ensures SortedDesc(Top(current, products))
    ensures forall i :: 0 <= i < |Top(current, products)| ==>
              Qualifies(current, Top(current, products)[i]) && Top(current, products)[i].product in products
  {
    var cands := Candidates(current, products);
    var ranked := SortByScore(cands);
    var top := Top(current, products);
    CandidatesSound(current, products);
    RankedFromCandidates(current, products);
    SortByScoreSorted(cands);
    SortedPrefix(ranked, |top|);
    assert top == ranked[..|top|];
    forall i | 0 <= i < |top| ensures Qualifies(current, top[i]) && top[i].product in products {
      assert top[i] == ranked[i];
      var k :| 0 <= k < |cands| && cands[k] == ranked[i];
    }
  }

  /** Every ranked pair is one the loop kept. */
  lemma RankedFromCandidates(current: Product, products: seq<Product>)
    ensures forall i :: 0 <= i < |Ranked(current, products)| ==> Ranked(current, products)[i] in Candidates(current, products)
  {
    var cands := Candidates(current, products);
    var ranked := SortByScore(cands);
    SortByScorePerm(cands);
    forall i | 0 <= i < |ranked| ensures ranked[i] in cands {
      assert ranked[i] in multiset(ranked);
    }
  }

  /** A prefix of a sorted list is sorted. */
  lemma SortedPrefix(s: seq<Scored>, n: nat)
    requires SortedDesc(s) && n <= |s|
    ensures SortedDesc(s[..n])
  {
    assert forall i :: 0 <= i < n ==> s[..n][i] == s[i];
  }

  /** What is returned: at most three products of the input, none of them the current
      product, each scoring above one tenth, in non-increasing score order. */
  lemma RecommendSound(current: Product, products: seq<Product>)
    ensures var r := Recommend(current, products);
      && |r| <= TOP_N
      && (forall i :: 0 <= i < |r| ==> r[i] in products && r[i].id != current.id && AboveThreshold(ScoreOf(current, r[i])))
      && (forall i, j :: 0 <= i < j < |r| ==> AtMost(ScoreOf(current, r[j]), ScoreOf(current, r[i])))
  {
    TopSound(current, products);
    var top := Top(current, products);
    var r := Recommend(current, products);
    assert forall i :: 0 <= i < |r| ==> r[i] == top[i].product && top[i].score == ScoreOf(current, r[i]);
  }

  /** A candidate that misses the top scores no more than the third-placed one. */
  lemma TopComplete(current: Product, products: seq<Product>, x: Scored)
    requires x in Candidates(current, products)
    requires x !in Top(current, products)
    ensures |Top(current, products)| == TOP_N
    ensures AtMost(x.score, Top(current, products)[TOP_N - 1].score)
  {
    FirstThreeComplete(Candidates(current, products), x);
  }

  /** The sorted list cut after three pairs leaves out only pairs scored no higher than
      the third. */
  lemma FirstThreeComplete(cands: seq<Scored>, x: Scored)
    requires x in cands
    requires var ranked := SortByScore(cands);
      x !in ranked[..if |ranked| < TOP_N then |ranked| else TOP_N]
    ensures |SortByScore(cands)| > TOP_N
    ensures AtMost(x.score, SortByScore(cands)[TOP_N - 1].score)
  {
    var ranked := SortByScore(cands);
    var n := if |ranked| < TOP_N then |ranked| else TOP_N;
    SortByScorePerm(cands);
    SortByScoreSorted(cands);
    assert x in multiset(ranked);
    var k :| 0 <= k < |ranked| && ranked[k] == x;
  }

  /** What is left out: a qualifying product that is not returned scores no more than
      the last (third) product returned. */
  lemma RecommendComplete(current: Product, products: seq<Product>, p: Product)
    requires p in products && p.id != current.id && AboveThreshold(ScoreOf(current, p))
    requires p !in Recommend(current, products)
    ensures |Recommend(current, products)| == TOP_N
    ensures AtMost(ScoreOf(current, p), ScoreOf(current, Recommend(current, products)[TOP_N - 1]))
  {
    var top := Top(current, products);
    var r := Recommend(current, products);
    var x := Scored(ScoreOf(current, p), p);
    CandidatesComplete(current, products, p);
    TopComplete(current, products, x);
    TopSound(current, products);
    assert r[TOP_N - 1] == top[TOP_N - 1].product;
  }

  /** Ties keep input order: the returned products of any one score are the first ones of
      that score among the candidates, in the order the loop met them. */
  lemma RecommendStable(current: Product, products: seq<Product>, q: Score)
    ensures WithScore(Top(current, products), q) <= WithScore(Candidates(current, products), q)
  {
    var ranked := Ranked(current, products);
    var top := Top(current, products);
    SortByScoreStable(Candidates(current, products), q);
    assert ranked == top + ranked[|top|..];
    WithScoreAppend(top, ranked[|top|..], q);
  }

  /** A current product without tags gets no recommendations. */
  lemma NoTagsNoRecommendations(current: Product, products: seq<Product>)
    requires TagsList(current.tags) == []
    ensures Recommend(current, products) == []
  {
    RecommendSound(current, products);
    forall p: Product ensures ScoreOf(current, p).num == 0 {
      JaccardIndex(TagsList(current.tags), TagsList(p.tags));
    }
  }

  /** Scores ignore the letter case of the tags: "Laptop" and "laptop" are one tag. */
  lemma ScoreCaseInsensitive(current: Product, p: Product, q: Product)
    requires Lower(p.tags) == Lower(q.tags)
    ensures ScoreOf(current, p) == ScoreOf(current, q)
  {
    TagsListCaseInsensitive(p.tags, q.tags);
  }

  /** The recommendation loop on an input that ends in `p`: the candidates of `products`
      followed by `p`. */
  lemma CandidatesSnoc(current: Product, products: seq<Product>, p: Product)
    ensures Candidates(current, products + [p]) ==
              if p.id != current.id && AboveThreshold(ScoreOf(current, p))
              then Candidates(current, products) + [Scored(ScoreOf(current, p), p)]
              else Candidates(current, products)
  {
    ScoresSnoc(current, products, p);
    KeepSnoc(current.id, Scores(current, products), Scored(ScoreOf(current, p), p));
  }

  /** One step of the scoring loop, stated on prefixes of the input. */
  lemma CandidatesPrefix(current: Product, products: seq<Product>, i: nat)
    requires i < |products|
    ensures Candidates(current, products[..i + 1]) ==
              if products[i].id != current.id && AboveThreshold(ScoreOf(current, products[i]))
              then Candidates(current, products[..i]) + [Scored(ScoreOf(current, products[i]), products[i])]
              else Candidates(current, products[..i])
  {
    assert products[..i + 1] == products[..i] + [products[i]];
    CandidatesSnoc(current, products[..i], products[i]);
  }

  /** Moving the insertion point one place left past a lower score. */
  lemma InsertShift(sorted: seq<Scored>, j: nat, x: Scored)
    requires 0 < j <= |sorted| && Below(sorted[j - 1].score, x.score)
    ensures Insert(sorted[..j], x) + sorted[j..] == Insert(sorted[..j - 1], x) + sorted[j - 1..]
  {
    assert sorted[..j][..j - 1] == sorted[..j - 1];
    assert sorted[j - 1..] == [sorted[j - 1]] + sorted[j..];
  }

  /** The insertion point is found: the pair goes right after the prefix. */
  lemma InsertStop(sorted: seq<Scored>, j: nat, x: Scored)
    requires j <= |sorted| && (j == 0 || !Below(sorted[j - 1].score, x.score))
    ensures Insert(sorted[..j], x) == sorted[..j] + [x]
  {
  }

  /** `recommendations.sort(key=lambda x: x[0], reverse=True)` on the list held in `a`:
      sorts in place by descending score, keeping equal scores in their order. */
  method SortInPlace(a: array<Scored>)
    modifies a
    ensures a[..] == SortByScore(old(a[..]))
  {
    ghost var input := a[..];
    var i := 0;
    while i < a.Length
      invariant 0 <= i <= a.Length
      invariant a[..i] == SortByScore(input[..i])
      invariant forall k :: i <= k < a.Length ==> a[k] == input[k]
    {
      InsertLast(a, i);
      assert input[..i + 1][..i] == input[..i];
      i := i + 1;
    }
    assert input[..a.Length] == input;
  }

  /** One step of the sort: moves `a[i]` left past the elements of `a[..i]` that score
      less than it. */
  method InsertLast(a: array<Scored>, i: nat)
    requires i < a.Length
    modifies a
    ensures a[..i + 1] == Insert(old(a[..i]), old(a[i]))
    ensures forall k :: i < k < a.Length ==> a[k] == old(a[k])
  {
    var x := a[i];
    ghost var sorted := a[..i];
    var j := ShiftPast(a, i, x, sorted);
    a[j] := x;
    InsertStop(sorted, j, x);
    ghost var r := sorted[..j] + [x] + sorted[j..];
    forall k | 0 <= k <= i ensures a[k] == r[k] {
      if k < j {
        assert r[k] == sorted[k];
      } else if k > j {
        assert r[k] == sorted[k - 1];
      }
    }
    assert a[..i + 1] == r;
  }

  /** The inner loop of the insertion: shifts the elements of `a[..i]` that score less
      than `x` one place right and returns the hole left for `x`. */
  method ShiftPast(a: array<Scored>, i: nat, x: Scored, ghost sorted: seq<Scored>) returns (j: nat)
    requires i < a.Length && sorted == a[..i]
    modifies a
    ensures j <= i
    ensures j == 0 || !Below(a[j - 1].score, x.score)
    ensures forall k :: 0 <= k < j ==> a[k] == sorted[k]
    ensures forall k :: j < k <= i ==> a[k] == sorted[k - 1]
    ensures forall k :: i < k < a.Length ==> a[k] == old(a[k])
    ensures Insert(sorted, x) == Insert(sorted[..j], x) + sorted[j..]
  {
    j := i;
    assert sorted[..j] == sorted && sorted[j..] == [];
    while j > 0 && Below(a[j - 1].score, x.score)
      invariant 0 <= j <= i
      invariant forall k :: 0 <= k < j ==> a[k] == sorted[k]
      invariant forall k :: j < k <= i ==> a[k] == sorted[k - 1]
      invariant forall k :: i < k < a.Length ==> a[k] == old(a[k])
      invariant Insert(sorted, x) == Insert(sorted[..j], x) + sorted[j..]
    {
      assert a[j - 1] == sorted[j - 1];
      InsertShift(sorted, j, x);
      a[j] := a[j - 1];
      j := j - 1;
    }
  }

  /** The loop of `get_recommendations_py`: score every other product and keep those
      above the threshold, in input order. */
  method ScoreProducts(current: Product, allProducts: seq<Product>) returns (recommendations: seq<Scored>)
    ensures recommendations == Candidates(current, allProducts)
  {
    var currentTags := TagsList(current.tags);
    recommendations := [];
    var i := 0;
    while i < |allProducts|
      invariant 0 <= i <= |allProducts|
      invariant recommendations == Candidates(current, allProducts[..i])
    {
      var product := allProducts[i];
      CandidatesPrefix(current, allProducts, i);
      if product.id != current.id {
        var otherTags := TagsList(product.tags);
        var score := CalculateSimilarity(currentTags, otherTags);
        assert score == ScoreOf(current, product);
        if AboveThreshold(score) {
          recommendations := recommendations + [Scored(score, product)];
        }
      }
      i := i + 1;
    }
    assert allProducts[..i] == allProducts;
  }

  /** `[product for score, product in recommendations[:3]]` over the sorted array. */
  method FirstProducts(a: array<Scored>) returns (result: seq<Product>)
    ensures result == ProductsOf(a[..][..if a.Length < TOP_N then a.Length else TOP_N])
  {
    var n := if a.Length < TOP_N then a.Length else TOP_N;
    result := [];
    var k := 0;
    while k < n
      invariant 0 <= k <= n
      invariant |result| == k
      invariant forall m :: 0 <= m < k ==> result[m] == a[m].product
    {
      result := result + [a[k].product];
      k := k + 1;
    }
    assert forall m :: 0 <= m < n ==> result[m] == ProductsOf(a[..][..n])[m];
  }

  /** `get_recommendations_py(current_product, all_products)`: the scoring loop, the
      sort, and the first three. */
  method GetRecommendations(current: Product, allProducts: seq<Product>) returns (result: seq<Product>)
    ensures result == Recommend(current, allProducts)
  {
    var recommendations := ScoreProducts(current, allProducts);
    var a := new Scored[|recommendations|](k requires 0 <= k < |recommendations| => recommendations[k]);
    assert a[..] == recommendations;
    SortInPlace(a);
    result := FirstProducts(a);
  }
}
