/** The graph of documents and categories built by `buildGraph` in script.js: one node
    `doc-{idx}` per document, one node `cat-{k}` per distinct category in order of first
    appearance, and a link of weight 1 from a document to each category it lists. */
module CategoryGraph {
  import opened Decimal
  import opened Documents

  datatype Node =
    | DocNode(id: string, name: string, summary: string)
    | CategoryNode(id: string, name: string)

  datatype Link = Link(source: string, target: string, value: nat)

  datatype Graph = Graph(nodes: seq<Node>, links: seq<Link>)

  /** What buildGraph reads of one document. */
  datatype Entry = Entry(name: string, summary: string, categories: seq<string>)

  /** The arrays nodes and links and the Map catIndex while buildGraph runs. */
  datatype Builder = Builder(nodes: seq<Node>, links: seq<Link>, catIndex: map<string, string>)

  function DocId(idx: nat): string {
    "doc-" + NatToString(idx)
  }

  function CategoryId(k: nat): string {
    "cat-" + NatToString(k)
  }

  /** The entries of an array of documents, in order. */
  function Snapshot(docs: seq<Document>): (entries: seq<Entry>)
    reads docs
    ensures |entries| == |docs|
    ensures forall k :: 0 <= k < |docs| ==>
      entries[k] == Entry(docs[k].name, docs[k].summary, docs[k].categories)
  {
    if docs == [] then []
    else
      var last := docs[|docs| - 1];
      Snapshot(docs[..|docs| - 1]) + [Entry(last.name, last.summary, last.categories)]
  }

  /** One category of document idx: a new node the first time the category is seen, named
      by the number of categories seen so far, then a link to its node. */
  function AddCategory(idx: nat, cat: string, b: Builder): Builder {
    var b' :=
      if cat in b.catIndex then b
      else
        var id := CategoryId(|b.catIndex|);
        Builder(b.nodes + [CategoryNode(id, cat)], b.links, b.catIndex[cat := id]);
    b'.(links := b'.links + [Link(DocId(idx), b'.catIndex[cat], 1)])
  }

  function AddCategories(idx: nat, cats: seq<string>, b: Builder): Builder {
    if cats == [] then b else AddCategory(idx, cats[|cats| - 1], AddCategories(idx, cats[..|cats| - 1], b))
  }

  /** One document: its node, then its categories in order. */
  function AddDocument(idx: nat, e: Entry, b: Builder): Builder {
    AddCategories(idx, e.categories, b.(nodes := b.nodes + [DocNode(DocId(idx), e.name, e.summary)]))
  }

  function BuildUpTo(entries: seq<Entry>, n: nat): Builder
    requires n <= |entries|
  {
    if n == 0 then Builder([], [], map[]) else AddDocument(n - 1, entries[n - 1], BuildUpTo(entries, n - 1))
  }

  /** The result of buildGraph on documents with these entries. */
  function CategoryGraphOf(entries: seq<Entry>): Graph {
    var b := BuildUpTo(entries, |entries|);
    Graph(b.nodes, b.links)
  }

  /** buildGraph: the forEach over the documents and, inside it, over their categories. */
  method BuildGraph(docs: seq<Document>) returns (g: Graph)
    ensures g == CategoryGraphOf(Snapshot(docs))
  {
    ghost var entries := Snapshot(docs);
    var b := Builder([], [], map[]);
    var idx := 0;
    while idx < |docs|
      invariant 0 <= idx <= |docs|
      invariant b == BuildUpTo(entries, idx)
    {
      var doc := docs[idx];
      b := b.(nodes := b.nodes + [DocNode(DocId(idx), doc.name, doc.summary)]);
      b := AddCategoriesLoop(idx, doc.categories, b);
      BuildUpToStep(entries, idx + 1);
      idx := idx + 1;
    }
    g := Graph(b.nodes, b.links);
  }

  /** The inner forEach: each category of document idx in turn. */
  method AddCategoriesLoop(idx: nat, cats: seq<string>, b0: Builder) returns (b: Builder)
    ensures b == AddCategories(idx, cats, b0)
  {
    var nodes, links, catIndex := b0.nodes, b0.links, b0.catIndex;
    var j := 0;
    while j < |cats|
      invariant 0 <= j <= |cats|
      invariant Builder(nodes, links, catIndex) == AddCategories(idx, cats[..j], b0)
    {
      var cat := cats[j];
      if cat !in catIndex {
        var id := CategoryId(|catIndex|);
        catIndex := catIndex[cat := id];
        nodes := nodes + [CategoryNode(id, cat)];
      }
      links := links + [Link(DocId(idx), catIndex[cat], 1)];
      assert cats[..j + 1][..j] == cats[..j];
      AddCategoriesLast(idx, cats[..j + 1], b0);
      j := j + 1;
    }
    assert cats[..j] == cats;
    b := Builder(nodes, links, catIndex);
  }

  // ---------------------------------------------------------------------------
  // Reference descriptions of the graph

  /** One (document, category-list entry) pair: the source of exactly one link. */
  datatype Membership = Membership(doc: nat, category: string)

  function MembershipsOf(idx: nat, cats: seq<string>): (ms: seq<Membership>)
    ensures |ms| == |cats|
    ensures forall j :: 0 <= j < |cats| ==> ms[j] == Membership(idx, cats[j])
  {
    if cats == [] then [] else MembershipsOf(idx, cats[..|cats| - 1]) + [Membership(idx, cats[|cats| - 1])]
  }

  /** Every category-list entry of the first n documents, document by document. */
  function Memberships(entries: seq<Entry>, n: nat): seq<Membership>
    requires n <= |entries|
  {
    if n == 0 then [] else Memberships(entries, n - 1) + MembershipsOf(n - 1, entries[n - 1].categories)
  }

  function AllMemberships(entries: seq<Entry>): seq<Membership> {
    Memberships(entries, |entries|)
  }

  /** The categories of the first n documents' lists, one per (document, entry) pair. */
  function CategoriesUpTo(entries: seq<Entry>, n: nat): seq<string>
    requires n <= |entries|
  {
    if n == 0 then [] else CategoriesUpTo(entries, n - 1) + entries[n - 1].categories
  }

  function AllCategories(entries: seq<Entry>): seq<string> {
    CategoriesUpTo(entries, |entries|)
  }

  /** The distinct elements of s in order of first appearance. */
  function FirstSeen(s: seq<string>): seq<string> {
    if s == [] then []
    else
      var f := FirstSeen(s[..|s| - 1]);
      if s[|s| - 1] in f then f else f + [s[|s| - 1]]
  }

  predicate NoDuplicates(s: seq<string>) {
    forall i, j :: 0 <= i < j < |s| ==> s[i] != s[j]
  }

  /** The first position of x in s. */
  function IndexOf(s: seq<string>, x: string): (i: nat)
    requires x in s
    ensures i < |s| && s[i] == x
    ensures forall j :: 0 <= j < i ==> s[j] != x
  {
    if s[0] == x then 0 else 1 + IndexOf(s[1..], x)
  }

  /** The node list without its category nodes. */
  function DocNodes(nodes: seq<Node>): seq<Node> {
    if nodes == [] then []
    else DocNodes(nodes[..|nodes| - 1]) + (if nodes[|nodes| - 1].DocNode? then [nodes[|nodes| - 1]] else [])
  }

  /** The node list without its document nodes. */
  function CategoryNodes(nodes: seq<Node>): seq<Node> {
    if nodes == [] then []
    else CategoryNodes(nodes[..|nodes| - 1]) + (if nodes[|nodes| - 1].CategoryNode? then [nodes[|nodes| - 1]] else [])
  }

  /** The document nodes for the first d entries, in order. */
  function ExpectedDocNodes(entries: seq<Entry>, d: nat): (ns: seq<Node>)
    requires d <= |entries|
    ensures |ns| == d
    ensures forall i :: 0 <= i < d ==> ns[i] == DocNode(DocId(i), entries[i].name, entries[i].summary)
  {
    if d == 0 then [] else ExpectedDocNodes(entries, d - 1) + [DocNode(DocId(d - 1), entries[d - 1].name, entries[d - 1].summary)]
  }

  /** The category nodes for the distinct categories f, in order. */
  function ExpectedCategoryNodes(f: seq<string>): (ns: seq<Node>)
    ensures |ns| == |f|
    ensures forall k :: 0 <= k < |f| ==> ns[k] == CategoryNode(CategoryId(k), f[k])
  {
    if f == [] then [] else ExpectedCategoryNodes(f[..|f| - 1]) + [CategoryNode(CategoryId(|f| - 1), f[|f| - 1])]
  }

  // ---------------------------------------------------------------------------
  // What holds of the builder while buildGraph runs, part by part

  /** catIndex maps the k-th first-seen category to cat-{k}, and nothing else. */
  ghost predicate IndexOk(catIndex: map<string, string>, f: seq<string>) {
    && (forall c :: c in catIndex <==> c in f)
    && (forall k :: 0 <= k < |f| ==> catIndex[f[k]] == CategoryId(k))
    && |catIndex| == |f|
  }

  /** One link per processed category entry, to that category's node. */
  ghost predicate LinksOk(links: seq<Link>, catIndex: map<string, string>, ms: seq<Membership>) {
    && |links| == |ms|
    && (forall k :: 0 <= k < |ms| ==>
          ms[k].category in catIndex && links[k] == Link(DocId(ms[k].doc), catIndex[ms[k].category], 1))
  }

  /** The nodes after d document nodes and the first-seen categories f: both filters
      as expected, and no id used twice. */
  ghost predicate NodesOk(nodes: seq<Node>, entries: seq<Entry>, d: nat, f: seq<string>) {
    && d <= |entries|
    && DocNodes(nodes) == ExpectedDocNodes(entries, d)
    && CategoryNodes(nodes) == ExpectedCategoryNodes(f)
    && DistinctIds(nodes)
  }

  /** No two nodes share an id. */
  predicate DistinctIds(nodes: seq<Node>) {
    forall i, j :: 0 <= i < j < |nodes| ==> nodes[i].id != nodes[j].id
  }

  lemma AppendLast<T>(s: seq<T>, t: seq<T>)
    requires t != []
    ensures s + t == (s + t[..|t| - 1]) + [t[|t| - 1]]
  {
    assert t == t[..|t| - 1] + [t[|t| - 1]];
  }

  lemma FirstSeenAppend(s: seq<string>, c: string)
    ensures FirstSeen(s + [c]) == if c in FirstSeen(s) then FirstSeen(s) else FirstSeen(s) + [c]
  {
    assert (s + [c])[..|s|] == s;
  }

  /** FirstSeen keeps every element once. */
  lemma {:induction false} FirstSeenMembers(s: seq<string>)
    ensures forall c :: c in FirstSeen(s) <==> c in s
    ensures NoDuplicates(FirstSeen(s))
  {
    if s != [] {
      var p := s[..|s| - 1];
      FirstSeenMembers(p);
      assert s == p + [s[|s| - 1]];
    }
  }

  /** AddCategories, like buildGraph's inner loop, folds AddCategory over its list. */
  lemma AddCategoriesLast(idx: nat, cats: seq<string>, b: Builder)
    requires cats != []
    ensures AddCategories(idx, cats, b) == AddCategory(idx, cats[|cats| - 1], AddCategories(idx, cats[..|cats| - 1], b))
  {
  }

  /** The document node of BuildUpTo's step changes neither the links nor the index. */
  lemma BuildUpToStep(entries: seq<Entry>, n: nat)
    requires 0 < n <= |entries|
    ensures var b := BuildUpTo(entries, n - 1);
      BuildUpTo(entries, n) ==
        AddCategories(n - 1, entries[n - 1].categories,
          b.(nodes := b.nodes + [DocNode(DocId(n - 1), entries[n - 1].name, entries[n - 1].summary)]))
  {
  }

  // The index

  lemma IndexCategory(idx: nat, c: string, b: Builder, cs: seq<string>)
    requires IndexOk(b.catIndex, FirstSeen(cs))
    ensures IndexOk(AddCategory(idx, c, b).catIndex, FirstSeen(cs + [c]))
  {
    FirstSeenAppend(cs, c);
    if c !in b.catIndex {
      IndexGrow(b.catIndex, FirstSeen(cs), c);
    }
  }

  /** A category seen for the first time gets the next id. */
  lemma IndexGrow(catIndex: map<string, string>, f: seq<string>, c: string)
    requires IndexOk(catIndex, f) && c !in catIndex
    ensures IndexOk(catIndex[c := CategoryId(|f|)], f + [c])
  {
  }

  lemma {:induction false} IndexCategories(idx: nat, cats: seq<string>, b: Builder, cs: seq<string>)
    requires IndexOk(b.catIndex, FirstSeen(cs))
    ensures IndexOk(AddCategories(idx, cats, b).catIndex, FirstSeen(cs + cats))
  {
    if cats == [] {
      assert cs + cats == cs;
    } else {
      var p := cats[..|cats| - 1];
      IndexCategories(idx, p, b, cs);
      IndexCategory(idx, cats[|cats| - 1], AddCategories(idx, p, b), cs + p);
      AppendLast(cs, cats);
    }
  }

  lemma IndexDocument(idx: nat, b: Builder, entries: seq<Entry>, cs: seq<string>)
    requires idx < |entries| && IndexOk(b.catIndex, FirstSeen(cs))
    ensures IndexOk(AddDocument(idx, entries[idx], b).catIndex, FirstSeen(cs + entries[idx].categories))
  {
    var e := entries[idx];
    var nodes := b.nodes + [DocNode(DocId(idx), e.name, e.summary)];
    IndexCategories(idx, e.categories, Builder(nodes, b.links, b.catIndex), cs);
    assert b.(nodes := nodes) == Builder(nodes, b.links, b.catIndex);
  }

  lemma {:induction false} IndexBuild(entries: seq<Entry>, n: nat)
    requires n <= |entries|
    ensures IndexOk(BuildUpTo(entries, n).catIndex, FirstSeen(CategoriesUpTo(entries, n)))
  {
    if n > 0 {
      IndexBuild(entries, n - 1);
      IndexDocument(n - 1, BuildUpTo(entries, n - 1), entries, CategoriesUpTo(entries, n - 1));
    }
  }

  // The links

  lemma LinksCategory(idx: nat, c: string, b: Builder, ms: seq<Membership>)
    requires LinksOk(b.links, b.catIndex, ms)
    ensures LinksOk(AddCategory(idx, c, b).links, AddCategory(idx, c, b).catIndex, ms + [Membership(idx, c)])
  {
  }

  lemma {:induction false} LinksCategories(idx: nat, cats: seq<string>, b: Builder, ms: seq<Membership>)
    requires LinksOk(b.links, b.catIndex, ms)
    ensures LinksOk(AddCategories(idx, cats, b).links, AddCategories(idx, cats, b).catIndex, ms + MembershipsOf(idx, cats))
  {
    if cats == [] {
      assert ms + MembershipsOf(idx, cats) == ms;
    } else {
      var p := cats[..|cats| - 1];
      LinksCategories(idx, p, b, ms);
      LinksCategory(idx, cats[|cats| - 1], AddCategories(idx, p, b), ms + MembershipsOf(idx, p));
      AppendLast(ms, MembershipsOf(idx, cats));
      assert MembershipsOf(idx, cats)[..|cats| - 1] == MembershipsOf(idx, p);
    }
  }

  lemma LinksDocument(idx: nat, b: Builder, entries: seq<Entry>, ms: seq<Membership>)
    requires idx < |entries| && LinksOk(b.links, b.catIndex, ms)
    ensures var b' := AddDocument(idx, entries[idx], b);
      LinksOk(b'.links, b'.catIndex, ms + MembershipsOf(idx, entries[idx].categories))
  {
    var e := entries[idx];
    var nodes := b.nodes + [DocNode(DocId(idx), e.name, e.summary)];
    LinksCategories(idx, e.categories, Builder(nodes, b.links, b.catIndex), ms);
    assert b.(nodes := nodes) == Builder(nodes, b.links, b.catIndex);
  }

  lemma {:induction false} LinksBuild(entries: seq<Entry>, n: nat)
    requires n <= |entries|
    ensures LinksOk(BuildUpTo(entries, n).links, BuildUpTo(entries, n).catIndex, Memberships(entries, n))
  {
    if n > 0 {
      LinksBuild(entries, n - 1);
      LinksDocument(n - 1, BuildUpTo(entries, n - 1), entries, Memberships(entries, n - 1));
    }
  }

  // The nodes

  lemma NodesAppend(nodes: seq<Node>, x: Node)
    ensures DocNodes(nodes + [x]) == DocNodes(nodes) + (if x.DocNode? then [x] else [])
    ensures CategoryNodes(nodes + [x]) == CategoryNodes(nodes) + (if x.CategoryNode? then [x] else [])
  {
    assert (nodes + [x])[..|nodes|] == nodes;
  }

  /** Every node is a document node or a category node, and each is kept by its filter. */
  lemma {:induction false} FilterMembers(nodes: seq<Node>)
    ensures |nodes| == |DocNodes(nodes)| + |CategoryNodes(nodes)|
    ensures forall i :: 0 <= i < |nodes| && nodes[i].DocNode? ==> nodes[i] in DocNodes(nodes)
    ensures forall i :: 0 <= i < |nodes| && nodes[i].CategoryNode? ==> nodes[i] in CategoryNodes(nodes)
  {
    if nodes != [] {
      var p := nodes[..|nodes| - 1];
      FilterMembers(p);
      assert nodes == p + [nodes[|nodes| - 1]];
      NodesAppend(p, nodes[|nodes| - 1]);
    }
  }

  lemma IdsDiffer(i: nat, k: nat)
    ensures DocId(i) != CategoryId(k)
  {
    assert DocId(i)[0] == 'd' && CategoryId(k)[0] == 'c';
  }

  /** A node with an id not yet used keeps the ids distinct. */
  lemma FreshId(nodes: seq<Node>, x: Node)
    requires DistinctIds(nodes)
    requires forall i :: 0 <= i < |nodes| ==> nodes[i].id != x.id
    ensures DistinctIds(nodes + [x])
  {
  }

  lemma NodesDoc(nodes: seq<Node>, entries: seq<Entry>, d: nat, f: seq<string>)
    requires NodesOk(nodes, entries, d, f) && d < |entries|
    ensures NodesOk(nodes + [DocNode(DocId(d), entries[d].name, entries[d].summary)], entries, d + 1, f)
  {
    var x := DocNode(DocId(d), entries[d].name, entries[d].summary);
    NodesAppend(nodes, x);
    assert ExpectedDocNodes(entries, d) + [x] == ExpectedDocNodes(entries, d + 1);
    FilterMembers(nodes);
    forall i | 0 <= i < |nodes| ensures nodes[i].id != x.id {
      var n := nodes[i];
      if n.DocNode? {
        var k :| 0 <= k < d && ExpectedDocNodes(entries, d)[k] == n;
        if DocId(k) == DocId(d) {
          PrefixedInjective("doc-", k, d);
        }
      } else {
        var k :| 0 <= k < |f| && ExpectedCategoryNodes(f)[k] == n;
        IdsDiffer(d, k);
      }
    }
    FreshId(nodes, x);
  }

  lemma NodesNewCategory(nodes: seq<Node>, entries: seq<Entry>, d: nat, f: seq<string>, c: string)
    requires NodesOk(nodes, entries, d, f)
    ensures NodesOk(nodes + [CategoryNode(CategoryId(|f|), c)], entries, d, f + [c])
  {
    var x := CategoryNode(CategoryId(|f|), c);
    NodesAppend(nodes, x);
    assert ExpectedCategoryNodes(f) + [x] == ExpectedCategoryNodes(f + [c]);
    FilterMembers(nodes);
    forall i | 0 <= i < |nodes| ensures nodes[i].id != x.id {
      var n := nodes[i];
      if n.DocNode? {
        var k :| 0 <= k < d && ExpectedDocNodes(entries, d)[k] == n;
        IdsDiffer(k, |f|);
      } else {
        var k :| 0 <= k < |f| && ExpectedCategoryNodes(f)[k] == n;
        if CategoryId(k) == CategoryId(|f|) {
          PrefixedInjective("cat-", k, |f|);
        }
      }
    }
    FreshId(nodes, x);
  }

  lemma NodesCategory(idx: nat, c: string, b: Builder, entries: seq<Entry>, d: nat, cs: seq<string>)
    requires NodesOk(b.nodes, entries, d, FirstSeen(cs)) && IndexOk(b.catIndex, FirstSeen(cs))
    ensures NodesOk(AddCategory(idx, c, b).nodes, entries, d, FirstSeen(cs + [c]))
  {
    FirstSeenAppend(cs, c);
    if c !in b.catIndex {
      NodesNewCategory(b.nodes, entries, d, FirstSeen(cs), c);
    }
  }

  lemma {:induction false} NodesCategories(idx: nat, cats: seq<string>, b: Builder, entries: seq<Entry>, d: nat, cs: seq<string>)
    requires NodesOk(b.nodes, entries, d, FirstSeen(cs)) && IndexOk(b.catIndex, FirstSeen(cs))
    ensures NodesOk(AddCategories(idx, cats, b).nodes, entries, d, FirstSeen(cs + cats))
  {
    if cats == [] {
      assert cs + cats == cs;
    } else {
      var p := cats[..|cats| - 1];
      NodesCategories(idx, p, b, entries, d, cs);
      IndexCategories(idx, p, b, cs);
      NodesCategory(idx, cats[|cats| - 1], AddCategories(idx, p, b), entries, d, cs + p);
      AppendLast(cs, cats);
    }
  }

  /** One document: its node, then its categories. */
  lemma NodesDocument(idx: nat, b: Builder, entries: seq<Entry>, cs: seq<string>)
    requires idx < |entries|
    requires NodesOk(b.nodes, entries, idx, FirstSeen(cs)) && IndexOk(b.catIndex, FirstSeen(cs))
    ensures NodesOk(AddDocument(idx, entries[idx], b).nodes, entries, idx + 1, FirstSeen(cs + entries[idx].categories))
  {
    var e := entries[idx];
    var nodes := b.nodes + [DocNode(DocId(idx), e.name, e.summary)];
    NodesDoc(b.nodes, entries, idx, FirstSeen(cs));
    NodesCategories(idx, e.categories, Builder(nodes, b.links, b.catIndex), entries, idx + 1, cs);
    assert b.(nodes := nodes) == Builder(nodes, b.links, b.catIndex);
  }

  lemma NodesStart(entries: seq<Entry>)
    ensures NodesOk(BuildUpTo(entries, 0).nodes, entries, 0, FirstSeen(CategoriesUpTo(entries, 0)))
  {
    assert FirstSeen([]) == [];
  }

  lemma {:induction false} NodesBuild(entries: seq<Entry>, n: nat)
    requires n <= |entries|
    ensures NodesOk(BuildUpTo(entries, n).nodes, entries, n, FirstSeen(CategoriesUpTo(entries, n)))
  {
    if n == 0 {
      NodesStart(entries);
    } else {
      NodesBuild(entries, n - 1);
      IndexBuild(entries, n - 1);
      NodesBuildStep(entries, n);
    }
  }

  lemma NodesBuildStep(entries: seq<Entry>, n: nat)
    requires 0 < n <= |entries|
    requires var f := FirstSeen(CategoriesUpTo(entries, n - 1));
      NodesOk(BuildUpTo(entries, n - 1).nodes, entries, n - 1, f) && IndexOk(BuildUpTo(entries, n - 1).catIndex, f)
    ensures NodesOk(BuildUpTo(entries, n).nodes, entries, n, FirstSeen(CategoriesUpTo(entries, n)))
  {
    NodesDocument(n - 1, BuildUpTo(entries, n - 1), entries, CategoriesUpTo(entries, n - 1));
  }

  /** Entry k of the memberships is entry k of the categories. */
  lemma {:induction false} MembershipCategories(entries: seq<Entry>, n: nat)
    requires n <= |entries|
    ensures |Memberships(entries, n)| == |CategoriesUpTo(entries, n)|
    ensures forall k :: 0 <= k < |Memberships(entries, n)| ==> Memberships(entries, n)[k].category == CategoriesUpTo(entries, n)[k]
  {
    if n > 0 {
      MembershipCategories(entries, n - 1);
      var ms: seq<Membership>, cs: seq<string> := Memberships(entries, n - 1), CategoriesUpTo(entries, n - 1);
      var cats := entries[n - 1].categories;
      var last: seq<Membership> := MembershipsOf(n - 1, cats);
      forall k | 0 <= k < |ms| + |cats| ensures (ms + last)[k].category == (cs + cats)[k] {
        if k >= |ms| {
          assert (ms + last)[k] == last[k - |ms|];
        }
      }
    }
  }

  // ---------------------------------------------------------------------------
  // Properties of the graph

  /** One node per document, in order, named doc-{idx}, with the document's name and summary. */
  lemma DocumentNodes(entries: seq<Entry>)
    ensures DocNodes(CategoryGraphOf(entries).nodes) == ExpectedDocNodes(entries, |entries|)
  {
    NodesBuild(entries, |entries|);
  }

  /** One node per distinct category, in order of first appearance, the k-th named cat-{k}. */
  lemma CategoryNodesFirstSeen(entries: seq<Entry>)
    ensures CategoryNodes(CategoryGraphOf(entries).nodes) == ExpectedCategoryNodes(FirstSeen(AllCategories(entries)))
    ensures NoDuplicates(FirstSeen(AllCategories(entries)))
    ensures forall c :: c in FirstSeen(AllCategories(entries)) <==> c in AllCategories(entries)
  {
    NodesBuild(entries, |entries|);
    FirstSeenMembers(AllCategories(entries));
  }

  /** The graph has one node per document plus one per distinct category. */
  lemma NodeCount(entries: seq<Entry>)
    ensures |CategoryGraphOf(entries).nodes| == |entries| + |FirstSeen(AllCategories(entries))|
  {
    NodesBuild(entries, |entries|);
    FilterMembers(CategoryGraphOf(entries).nodes);
  }

  /** Exactly one link per category-list entry, in order: from the document to the node of
      that category, with value 1. A category listed twice gives two links and one node. */
  lemma OneLinkPerEntry(entries: seq<Entry>)
    ensures var ms, f := AllMemberships(entries), FirstSeen(AllCategories(entries));
      && |CategoryGraphOf(entries).links| == |ms|
      && forall k :: 0 <= k < |ms| ==>
           ms[k].category in f &&
           CategoryGraphOf(entries).links[k] == Link(DocId(ms[k].doc), CategoryId(IndexOf(f, ms[k].category)), 1)
  {
    var ms, cs := AllMemberships(entries), AllCategories(entries);
    var f := FirstSeen(cs);
    var b := BuildUpTo(entries, |entries|);
    LinksBuild(entries, |entries|);
    IndexBuild(entries, |entries|);
    MembershipCategories(entries, |entries|);
    FirstSeenMembers(cs);
    forall k | 0 <= k < |ms|
      ensures ms[k].category in f
      ensures b.links[k] == Link(DocId(ms[k].doc), CategoryId(IndexOf(f, ms[k].category)), 1)
    {
      assert cs[k] == ms[k].category;
      var i := IndexOf(f, ms[k].category);
      assert b.catIndex[f[i]] == CategoryId(i);
    }
  }

  /** Every category node is the target of at least one link. */
  lemma EveryCategoryLinked(entries: seq<Entry>)
    ensures var g, f := CategoryGraphOf(entries), FirstSeen(AllCategories(entries));
      forall j :: 0 <= j < |f| ==> exists k :: 0 <= k < |g.links| && g.links[k].target == CategoryId(j)
  {
    var g, cs := CategoryGraphOf(entries), AllCategories(entries);
    var f := FirstSeen(cs);
    var ms := AllMemberships(entries);
    OneLinkPerEntry(entries);
    MembershipCategories(entries, |entries|);
    FirstSeenMembers(cs);
    forall j | 0 <= j < |f| ensures exists k :: 0 <= k < |g.links| && g.links[k].target == CategoryId(j) {
      assert f[j] in cs;
      var k :| 0 <= k < |cs| && cs[k] == f[j];
      assert ms[k].category == f[j];
      assert IndexOf(f, f[j]) == j;
      assert g.links[k].target == CategoryId(j);
    }
  }

  /** No two nodes share an id. */
  lemma DistinctNodeIds(entries: seq<Entry>)
    ensures var ns := CategoryGraphOf(entries).nodes;
      forall i, j :: 0 <= i < j < |ns| ==> ns[i].id != ns[j].id
  {
    NodesBuild(entries, |entries|);
  }

  /** Two documents with categories [x] and [x, y]: four nodes and three links, the
      shared category x having one node and two links. */
  lemma TwoDocumentExample()
    ensures CategoryGraphOf([Entry("doc1", "s1", ["x"]), Entry("doc2", "s2", ["x", "y"])]) == Graph(
      [DocNode("doc-0", "doc1", "s1"), CategoryNode("cat-0", "x"), DocNode("doc-1", "doc2", "s2"), CategoryNode("cat-1", "y")],
      [Link("doc-0", "cat-0", 1), Link("doc-1", "cat-0", 1), Link("doc-1", "cat-1", 1)])
  {
    assert NatToString(0) == "0" && NatToString(1) == "1";
    assert DocId(0) == "doc-0" && DocId(1) == "doc-1";
    assert CategoryId(0) == "cat-0" && CategoryId(1) == "cat-1";
    var e := [Entry("doc1", "s1", ["x"]), Entry("doc2", "s2", ["x", "y"])];
    var start1 := Builder([DocNode("doc-0", "doc1", "s1")], [], map[]);
    assert ["x"][..0] == [];
    assert AddCategories(0, [], start1) == start1;
    var b1 := Builder([DocNode("doc-0", "doc1", "s1"), CategoryNode("cat-0", "x")],
      [Link("doc-0", "cat-0", 1)], map["x" := "cat-0"]);
    assert AddCategory(0, "x", start1) == b1;
    assert AddCategories(0, ["x"], start1) == b1;
    assert BuildUpTo(e, 0) == Builder([], [], map[]);
    assert e[0] == Entry("doc1", "s1", ["x"]);
    assert Builder([], [], map[]).(nodes := [] + [DocNode(DocId(0), "doc1", "s1")]) == start1;
    assert AddDocument(0, e[0], Builder([], [], map[])) == b1;
    assert BuildUpTo(e, 1) == b1;
    var start2 := b1.(nodes := b1.nodes + [DocNode("doc-1", "doc2", "s2")]);
    assert ["x", "y"][..1] == ["x"];
    assert AddCategories(1, [], start2) == start2;
    var b2 := start2.(links := start2.links + [Link("doc-1", "cat-0", 1)]);
    assert AddCategory(1, "x", start2) == b2;
    assert AddCategories(1, ["x"], start2) == b2;
    assert |b2.catIndex| == 1;
  }
}
