/** The similarity graph built by `buildGraph(docs, threshold = 0.1)` in docs/script.js:
    one node per document, numbered by its position, and a link (i, j) for each pair
    i < j whose cosine similarity strictly exceeds the threshold, weighted by it.

    The link structure is defined for any table of pairwise similarities; Cosines gives
    the table that buildGraph computes. */
module SimilarityGraph {
  import opened Documents
  import opened Similarity

  datatype Node = Node(id: nat, name: string)

  datatype Link = Link(source: nat, target: nat, value: real)

  datatype Graph = Graph(nodes: seq<Node>, links: seq<Link>)

  /** The similarity of documents i and j. */
  type Table = (nat, nat) -> real

  const DefaultThreshold: real := 0.1

  /** `docs.map((d, i) => ({id: i, name: d.name}))`. */
  function NodesOf(docs: seq<Document>): (nodes: seq<Node>)
    ensures |nodes| == |docs|
    ensures forall i :: 0 <= i < |docs| ==> nodes[i] == Node(i, docs[i].name)
  {
    seq(|docs|, i requires 0 <= i < |docs| => Node(i, docs[i].name))
  }

  /** The vectors of the documents, in order. */
  function Vectors(docs: seq<Document>): (vs: seq<Vector>)
    reads docs
    ensures |vs| == |docs|
    ensures forall k :: 0 <= k < |docs| ==> vs[k] == docs[k].vector
  {
    if docs == [] then [] else Vectors(docs[..|docs| - 1]) + [docs[|docs| - 1].vector]
  }

  /** `cosineSimilarity(docs[i].vector, docs[j].vector)` for every pair of documents. */
  ghost function Cosines(vs: seq<Vector>, sqrt: real -> real): Table {
    (i: nat, j: nat) => if i < |vs| && j < |vs| then CosineValue(vs[i], vs[j], sqrt) else 0.0
  }

  /** The link for the pair (i, j) if their similarity exceeds the threshold. */
  function PairLinks(sim: Table, i: nat, j: nat, threshold: real): seq<Link> {
    if sim(i, j) > threshold then [Link(i, j, sim(i, j))] else []
  }

  /** The links of row i for the partners j with i < j < m. */
  function RowLinks(sim: Table, i: nat, m: nat, threshold: real): seq<Link> {
    if m <= i + 1 then [] else RowLinks(sim, i, m - 1, threshold) + PairLinks(sim, i, m - 1, threshold)
  }

  /** The links of rows 0 .. r - 1 among n documents. */
  function LinksUpTo(sim: Table, n: nat, r: nat, threshold: real): seq<Link> {
    if r == 0 then [] else LinksUpTo(sim, n, r - 1, threshold) + RowLinks(sim, r - 1, n, threshold)
  }

  /** The links of buildGraph among n documents with similarities sim. */
  function SimilarityLinks(sim: Table, n: nat, threshold: real): seq<Link> {
    LinksUpTo(sim, n, n, threshold)
  }

  /** buildGraph: the nested loops over the pairs i < j. */
  method BuildGraph(docs: seq<Document>, threshold: real, sqrt: real -> real) returns (g: Graph)
    ensures g.nodes == NodesOf(docs)
    ensures g.links == SimilarityLinks(Cosines(Vectors(docs), sqrt), |docs|, threshold)
  {
    ghost var vs := Vectors(docs);
    ghost var sim := CosineTable(vs, sqrt);
    var nodes := NodesOf(docs);
    var links: seq<Link> := [];
    var i := 0;
    while i < |docs|
      invariant 0 <= i <= |docs|
      invariant links == LinksUpTo(sim, |docs|, i, threshold)
    {
      ghost var before := links;
      links := AppendRow(docs, i, threshold, sqrt, vs, sim, links);
      UpToStep(sim, |docs|, i, threshold, before, links);
      i := i + 1;
    }
    CosineTableLinks(sim, vs, sqrt, threshold);
    g := Graph(nodes, links);
  }

  lemma UpToStep(sim: Table, n: nat, i: nat, threshold: real, before: seq<Link>, after: seq<Link>)
    requires before == LinksUpTo(sim, n, i, threshold)
    requires after == before + RowLinks(sim, i, n, threshold)
    ensures after == LinksUpTo(sim, n, i + 1, threshold)
  {
  }

  /** sim holds the cosine similarity of every pair of the vectors vs. */
  ghost predicate CosinesOn(sim: Table, vs: seq<Vector>, sqrt: real -> real) {
    forall i: nat, j: nat {:trigger CosineValue(vs[i], vs[j], sqrt)} :: i < |vs| && j < |vs| ==> sim(i, j) == CosineValue(vs[i], vs[j], sqrt)
  }

  /** A table of the cosine similarities, known only by its values on the pairs. */
  lemma CosineTable(vs: seq<Vector>, sqrt: real -> real) returns (sim: Table)
    ensures CosinesOn(sim, vs, sqrt)
  {
    sim := Cosines(vs, sqrt);
  }

  /** Any such table gives the links of Cosines. */
  lemma CosineTableLinks(sim: Table, vs: seq<Vector>, sqrt: real -> real, threshold: real)
    requires CosinesOn(sim, vs, sqrt)
    ensures SimilarityLinks(sim, |vs|, threshold) == SimilarityLinks(Cosines(vs, sqrt), |vs|, threshold)
  {
    forall i: nat, j: nat | i < j < |vs| ensures sim(i, j) == Cosines(vs, sqrt)(i, j) {
      assert sim(i, j) == CosineValue(vs[i], vs[j], sqrt);
    }
    LinksUpToAgree(sim, Cosines(vs, sqrt), |vs|, |vs|, threshold);
  }

  /** The links depend only on the similarities of the pairs i < j < n. */
  lemma {:induction false} LinksUpToAgree(s1: Table, s2: Table, n: nat, r: nat, threshold: real)
    requires forall i: nat, j: nat :: i < j < n ==> s1(i, j) == s2(i, j)
    ensures LinksUpTo(s1, n, r, threshold) == LinksUpTo(s2, n, r, threshold)
  {
    if r > 0 {
      LinksUpToAgree(s1, s2, n, r - 1, threshold);
      RowLinksAgree(s1, s2, r - 1, n, threshold);
    }
  }

  lemma {:induction false} RowLinksAgree(s1: Table, s2: Table, i: nat, m: nat, threshold: real)
    requires forall j: nat :: i < j < m ==> s1(i, j) == s2(i, j)
    ensures RowLinks(s1, i, m, threshold) == RowLinks(s2, i, m, threshold)
  {
    if m > i + 1 {
      RowLinksAgree(s1, s2, i, m - 1, threshold);
    }
  }

  /** The inner loop of buildGraph: row i, the partners j from i + 1 on, appended to links. */
  method AppendRow(docs: seq<Document>, i: nat, threshold: real, sqrt: real -> real,
                   ghost vs: seq<Vector>, ghost sim: Table, links0: seq<Link>)
      returns (links: seq<Link>)
    requires i < |docs| && vs == Vectors(docs) && CosinesOn(sim, vs, sqrt)
    ensures links == links0 + RowLinks(sim, i, |docs|, threshold)
  {
    links := links0;
    var j := i + 1;
    while j < |docs|
      invariant i + 1 <= j <= |docs|
      invariant links == links0 + RowLinks(sim, i, j, threshold)
    {
      var s := CosineSimilarity(docs[i].vector, docs[j].vector, sqrt);
      assert s == sim(i, j) by {
        assert vs[i] == docs[i].vector && vs[j] == docs[j].vector;
      }
      ghost var before := links;
      if s > threshold {
        links := links + [Link(i, j, s)];
      }
      RowStep(sim, i, j, threshold, links0, before, s, links);
      j := j + 1;
    }
  }

  lemma RowStep(sim: Table, i: nat, j: nat, threshold: real,
                links0: seq<Link>, before: seq<Link>, s: real, after: seq<Link>)
    requires i < j
    requires before == links0 + RowLinks(sim, i, j, threshold)
    requires s == sim(i, j)
    requires after == if s > threshold then before + [Link(i, j, s)] else before
    ensures after == links0 + RowLinks(sim, i, j + 1, threshold)
  {
  }

  /** buildGraph with its default threshold 0.1. */
  method BuildGraphDefault(docs: seq<Document>, sqrt: real -> real) returns (g: Graph)
    ensures g.nodes == NodesOf(docs)
    ensures g.links == SimilarityLinks(Cosines(Vectors(docs), sqrt), |docs|, DefaultThreshold)
  {
    g := BuildGraph(docs, DefaultThreshold, sqrt);
  }

  // ---------------------------------------------------------------------------
  // Properties of the links

  /** A link of row i: (i, j) with i < j < m, weighted by the similarity, above the threshold. */
  predicate RowLink(sim: Table, i: nat, m: nat, threshold: real, l: Link) {
    l.source == i && i < l.target < m && l.value == sim(i, l.target) && l.value > threshold
  }
  /** (source, target) in strict lexicographic order. */
  predicate Before(a: Link, b: Link) {
    a.source < b.source || (a.source == b.source && a.target < b.target)
  }
  predicate Ordered(links: seq<Link>) {
    forall a, b :: 0 <= a < b < |links| ==> Before(links[a], links[b])
  }

  // Each row: its links are sound, complete, ordered and at most m - i - 1; the
  // concatenation steps are separate lemmas over plain sequences.

  lemma {:induction false} RowLinksSound(sim: Table, i: nat, m: nat, threshold: real)
    ensures forall l :: l in RowLinks(sim, i, m, threshold) ==> RowLink(sim, i, m, threshold, l)
  {
    if m > i + 1 {
      RowLinksSound(sim, i, m - 1, threshold);
      RowSoundStep(sim, i, m, threshold, RowLinks(sim, i, m - 1, threshold));
    }
  }

  lemma RowSoundStep(sim: Table, i: nat, m: nat, threshold: real, p: seq<Link>)
    requires i + 1 < m
    requires forall l :: l in p ==> RowLink(sim, i, m - 1, threshold, l)
    ensures forall l :: l in p + PairLinks(sim, i, m - 1, threshold) ==> RowLink(sim, i, m, threshold, l)
  {
  }

  lemma {:induction false} RowLinksComplete(sim: Table, i: nat, m: nat, threshold: real)
    ensures forall j :: i < j < m && sim(i, j) > threshold ==> Link(i, j, sim(i, j)) in RowLinks(sim, i, m, threshold)
  {
    if m > i + 1 {
      RowLinksComplete(sim, i, m - 1, threshold);
      RowCompleteStep(sim, i, m, threshold, RowLinks(sim, i, m - 1, threshold));
    }
  }

  lemma RowCompleteStep(sim: Table, i: nat, m: nat, threshold: real, p: seq<Link>)
    requires i + 1 < m
    requires forall j :: i < j < m - 1 && sim(i, j) > threshold ==> Link(i, j, sim(i, j)) in p
    ensures forall j :: i < j < m && sim(i, j) > threshold ==> Link(i, j, sim(i, j)) in p + PairLinks(sim, i, m - 1, threshold)
  {
  }

  lemma {:induction false} RowLinksSources(sim: Table, i: nat, m: nat, threshold: real)
    ensures forall l :: l in RowLinks(sim, i, m, threshold) ==> l.source == i
  {
    RowLinksSound(sim, i, m, threshold);
  }

  lemma {:induction false} RowLinksOrdered(sim: Table, i: nat, m: nat, threshold: real)
    ensures Ordered(RowLinks(sim, i, m, threshold))
  {
    if m > i + 1 {
      RowLinksOrdered(sim, i, m - 1, threshold);
      RowLinksSound(sim, i, m - 1, threshold);
      RowOrderedStep(sim, i, m, threshold, RowLinks(sim, i, m - 1, threshold));
    }
  }

  lemma RowOrderedStep(sim: Table, i: nat, m: nat, threshold: real, p: seq<Link>)
    requires i + 1 < m
    requires Ordered(p)
    requires forall l :: l in p ==> RowLink(sim, i, m - 1, threshold, l)
    ensures Ordered(p + PairLinks(sim, i, m - 1, threshold))
  {
    var q := PairLinks(sim, i, m - 1, threshold);
    forall x, y | x in p && y in q ensures Before(x, y) {
      assert RowLink(sim, i, m - 1, threshold, x);
    }
    OrderedConcat(p, q);
  }

  lemma {:induction false} RowLinksCount(sim: Table, i: nat, m: nat, threshold: real)
    ensures |RowLinks(sim, i, m, threshold)| <= if m <= i then 0 else m - i - 1
  {
    if m > i + 1 {
      RowLinksCount(sim, i, m - 1, threshold);
    }
  }

  /** Two ordered runs, every link of the first before every link of the second, make one. */
  lemma OrderedConcat(p: seq<Link>, q: seq<Link>)
    requires Ordered(p) && Ordered(q)
    requires forall x, y :: x in p && y in q ==> Before(x, y)
    ensures Ordered(p + q)
  {
    var all := p + q;
    forall a, b | 0 <= a < b < |all| ensures Before(all[a], all[b]) {
      if b < |p| {
        assert all[a] == p[a] && all[b] == p[b];
      } else if a >= |p| {
        assert all[a] == q[a - |p|] && all[b] == q[b - |p|];
      } else {
        assert all[a] == p[a] && all[b] == q[b - |p|];
      }
    }
  }

  // The rows 0 .. r - 1 together.

  lemma {:induction false} LinksUpToSound(sim: Table, n: nat, r: nat, threshold: real)
    ensures forall l :: l in LinksUpTo(sim, n, r, threshold) ==> l.source < r && RowLink(sim, l.source, n, threshold, l)
  {
    if r > 0 {
      LinksUpToSound(sim, n, r - 1, threshold);
      RowLinksSound(sim, r - 1, n, threshold);
      UpToSoundStep(sim, n, r - 1, threshold, LinksUpTo(sim, n, r - 1, threshold), RowLinks(sim, r - 1, n, threshold));
    }
  }

  lemma UpToSoundStep(sim: Table, n: nat, k: nat, threshold: real, p: seq<Link>, q: seq<Link>)
    requires forall l :: l in p ==> l.source < k && RowLink(sim, l.source, n, threshold, l)
    requires forall l :: l in q ==> RowLink(sim, k, n, threshold, l)
    ensures forall l :: l in p + q ==> l.source <= k && RowLink(sim, l.source, n, threshold, l)
  {
  }

  lemma {:induction false} LinksUpToComplete(sim: Table, n: nat, r: nat, threshold: real)
    ensures forall i, j :: 0 <= i < r && i < j < n && sim(i, j) > threshold ==>
      Link(i, j, sim(i, j)) in LinksUpTo(sim, n, r, threshold)
  {
    if r > 0 {
      LinksUpToComplete(sim, n, r - 1, threshold);
      RowLinksComplete(sim, r - 1, n, threshold);
      UpToCompleteStep(sim, n, r - 1, threshold, LinksUpTo(sim, n, r - 1, threshold), RowLinks(sim, r - 1, n, threshold));
    }
  }

  lemma UpToCompleteStep(sim: Table, n: nat, k: nat, threshold: real, p: seq<Link>, q: seq<Link>)
    requires forall i, j :: 0 <= i < k && i < j < n && sim(i, j) > threshold ==> Link(i, j, sim(i, j)) in p
    requires forall j :: k < j < n && sim(k, j) > threshold ==> Link(k, j, sim(k, j)) in q
    ensures forall i, j :: 0 <= i <= k && i < j < n && sim(i, j) > threshold ==> Link(i, j, sim(i, j)) in p + q
  {
  }

  lemma {:induction false} LinksUpToSources(sim: Table, n: nat, r: nat, threshold: real)
    ensures forall l :: l in LinksUpTo(sim, n, r, threshold) ==> l.source < r
  {
    LinksUpToSound(sim, n, r, threshold);
  }

  lemma {:induction false} LinksUpToOrdered(sim: Table, n: nat, r: nat, threshold: real)
    ensures Ordered(LinksUpTo(sim, n, r, threshold))
  {
    if r > 0 {
      var prev := LinksUpTo(sim, n, r - 1, threshold);
      var row := RowLinks(sim, r - 1, n, threshold);
      LinksUpToOrdered(sim, n, r - 1, threshold);
      LinksUpToSources(sim, n, r - 1, threshold);
      RowLinksOrdered(sim, r - 1, n, threshold);
      RowLinksSources(sim, r - 1, n, threshold);
      OrderedRows(prev, row, r - 1);
    }
  }

  /** Links from sources below i, then links from source i, each run ordered: ordered. */
  lemma OrderedRows(prev: seq<Link>, row: seq<Link>, i: nat)
    requires Ordered(prev) && Ordered(row)
    requires forall x :: x in prev ==> x.source < i
    requires forall y :: y in row ==> y.source == i
    ensures Ordered(prev + row)
  {
    forall x, y | x in prev && y in row ensures Before(x, y) {
    }
    OrderedConcat(prev, row);
  }

  /** The number of pairs i < j < n with i < r. */
  function PairsUpTo(n: nat, r: nat): nat {
    if r == 0 then 0 else PairsUpTo(n, r - 1) + (if r <= n then n - r else 0)
  }

  lemma {:induction false} LinksUpToCount(sim: Table, n: nat, r: nat, threshold: real)
    ensures |LinksUpTo(sim, n, r, threshold)| <= PairsUpTo(n, r)
  {
    if r > 0 {
      LinksUpToCount(sim, n, r - 1, threshold);
      RowLinksCount(sim, r - 1, n, threshold);
    }
  }

  lemma {:induction false} PairsUpToValue(n: nat, r: nat)
    requires r <= n
    ensures 2 * PairsUpTo(n, r) + r * (r + 1) == 2 * r * n
  {
    if r > 0 {
      PairsUpToValue(n, r - 1);
      TriangleStep(n, r);
    }
  }

  lemma TriangleStep(n: nat, r: nat)
    requires 0 < r <= n
    ensures r * (r + 1) == (r - 1) * r + 2 * r
    ensures r * n == (r - 1) * n + n
  {
    assert r * (r + 1) == r * r + r;
    assert (r - 1) * r == r * r - r;
  }

  /** The links are exactly the pairs i < j whose similarity strictly exceeds the
      threshold, each weighted by that similarity; so there are no self-links. */
  lemma LinksArePairsAboveThreshold(sim: Table, n: nat, threshold: real)
    ensures forall l :: l in SimilarityLinks(sim, n, threshold) ==>
      l.source < l.target < n && l.value == sim(l.source, l.target) && l.value > threshold
    ensures forall i, j :: 0 <= i < j < n && sim(i, j) > threshold ==>
      Link(i, j, sim(i, j)) in SimilarityLinks(sim, n, threshold)
  {
    LinksUpToSound(sim, n, n, threshold);
    LinksUpToComplete(sim, n, n, threshold);
  }

  /** The links come in strict lexicographic order of (source, target), the order of the
      nested loops, so no pair appears twice. */
  lemma LinksInPairOrder(sim: Table, n: nat, threshold: real)
    ensures Ordered(SimilarityLinks(sim, n, threshold))
  {
    LinksUpToOrdered(sim, n, n, threshold);
  }

  /** At most n(n-1)/2 links among n documents. */
  lemma LinkCount(sim: Table, n: nat, threshold: real)
    ensures 2 * |SimilarityLinks(sim, n, threshold)| <= n * (n - 1)
  {
    LinksUpToCount(sim, n, n, threshold);
    PairsUpToValue(n, n);
    assert n * (n + 1) == n * (n - 1) + 2 * n;
  }

  /** The links of buildGraph on vectors: exactly the pairs i < j with
      cosineSimilarity(vs[i], vs[j]) > threshold, weighted by that similarity. */
  lemma CosineLinks(vs: seq<Vector>, sqrt: real -> real, threshold: real)
    ensures forall l :: l in SimilarityLinks(Cosines(vs, sqrt), |vs|, threshold) ==>
      && l.source < l.target < |vs|
      && l.value == CosineValue(vs[l.source], vs[l.target], sqrt)
      && l.value > threshold
    ensures forall i, j :: 0 <= i < j < |vs| && CosineValue(vs[i], vs[j], sqrt) > threshold ==>
      Link(i, j, CosineValue(vs[i], vs[j], sqrt)) in SimilarityLinks(Cosines(vs, sqrt), |vs|, threshold)
  {
    var sim := Cosines(vs, sqrt);
    LinksArePairsAboveThreshold(sim, |vs|, threshold);
    forall i, j | 0 <= i < j < |vs| ensures sim(i, j) == CosineValue(vs[i], vs[j], sqrt) { }
  }

  /** With a non-negative threshold (such as the default 0.1), a document whose vector
      has only zero weights, for instance one without tokens, is linked to nothing. */
  lemma ZeroVectorIsolated(vs: seq<Vector>, k: nat, sqrt: real -> real, threshold: real)
    requires k < |vs|
    requires forall t :: t in vs[k] ==> vs[k][t] == 0.0
    requires threshold >= 0.0
    ensures forall l :: l in SimilarityLinks(Cosines(vs, sqrt), |vs|, threshold) ==> l.source != k && l.target != k
  {
    CosineLinks(vs, sqrt, threshold);
    forall l | l in SimilarityLinks(Cosines(vs, sqrt), |vs|, threshold) ensures l.source != k && l.target != k {
      if l.source == k || l.target == k {
        CosineWithZeroVector(vs[l.source], vs[l.target], sqrt);
      }
    }
  }
}
