/** computeTfIdf: term counts per document, document frequencies over the corpus,
    `idf = log(N / (1 + df))` and one sparse TF-IDF vector per document.

    `Math.log` is the parameter `ln`; nothing is assumed about it except where a
    lemma says so in its requires. */
module TfIdf {
  import opened Sums
  import opened Tokenizer
  import opened Documents
  import opened Similarity

  /** The distinct tokens of a token list. */
  function Distinct(tokens: seq<string>): set<string> {
    set t | t in tokens
  }

  /** The counts object: each distinct token with its number of occurrences. */
  function TermCounts(tokens: seq<string>): map<string, nat> {
    map t | t in tokens :: multiset(tokens)[t]
  }

  /** Term frequency: occurrences of t over the length of the token list. */
  function Tf(tokens: seq<string>, t: string): real
    requires t in tokens
  {
    multiset(tokens)[t] as real / |tokens| as real
  }

  /** The number of token lists (documents) that contain t, each counted once. */
  function DocFreq(lists: seq<seq<string>>, t: string): nat {
    if lists == [] then 0
    else DocFreq(lists[..|lists| - 1], t) + (if t in lists[|lists| - 1] then 1 else 0)
  }

  /** Every token of every document: the keys of the `vocab` map. */
  function Vocabulary(lists: seq<seq<string>>): set<string> {
    if lists == [] then {} else Vocabulary(lists[..|lists| - 1]) + Distinct(lists[|lists| - 1])
  }

  /** `Math.log(totalDocs / (1 + df))`. */
  function Idf(totalDocs: nat, df: nat, ln: real -> real): real {
    ln(totalDocs as real / (1 + df) as real)
  }

  /** The idf object of a corpus: every vocabulary term with its idf. */
  function IdfTable(lists: seq<seq<string>>, ln: real -> real): map<string, real> {
    map t | t in Vocabulary(lists) :: Idf(|lists|, DocFreq(lists, t), ln)
  }

  /** The vector of a document with the given tokens: each distinct token weighted by
      tf * idf. */
  function Weights(tokens: seq<string>, idf: map<string, real>): Vector
    requires Distinct(tokens) <= idf.Keys
  {
    map t | t in tokens :: Tf(tokens, t) * idf[t]
  }

  /** The token lists of a corpus, in document order. */
  function Corpus(docs: seq<Document>): seq<seq<string>> {
    seq(|docs|, k requires 0 <= k < |docs| => Tokenize(docs[k].text))
  }

  /** `counts[t] = (counts[t] || 0) + 1` for each token in turn. */
  method CountTerms(tokens: seq<string>) returns (counts: map<string, nat>)
    ensures counts.Keys == Distinct(tokens)
    ensures forall t :: t in counts ==> counts[t] == multiset(tokens)[t]
  {
    counts := map[];
    var i := 0;
    while i < |tokens|
      invariant 0 <= i <= |tokens|
      invariant counts.Keys == Distinct(tokens[..i])
      invariant forall t :: t in counts ==> counts[t] == multiset(tokens[..i])[t]
    {
      var t := tokens[i];
      var previous := if t in counts then counts[t] else 0;
      counts := counts[t := previous + 1];
      assert tokens[..i + 1] == tokens[..i] + [t];
      i := i + 1;
    }
    assert tokens[..i] == tokens;
  }

  /** The document-frequency pass: each document adds 1 for every token it has not yet
      seen, so a document counts at most once per term. */
  method DocumentFrequencies(lists: seq<seq<string>>) returns (vocab: map<string, nat>)
    ensures vocab.Keys == Vocabulary(lists)
    ensures forall t :: t in vocab ==> vocab[t] == DocFreq(lists, t)
  {
    vocab := map[];
    var i := 0;
    while i < |lists|
      invariant 0 <= i <= |lists|
      invariant vocab.Keys == Vocabulary(lists[..i])
      invariant forall t :: t in vocab ==> vocab[t] == DocFreq(lists[..i], t)
    {
      var tokens := lists[i];
      var seen: set<string> := {};
      var j := 0;
      while j < |tokens|
        invariant 0 <= j <= |tokens|
        invariant seen == Distinct(tokens[..j])
        invariant vocab.Keys == Vocabulary(lists[..i]) + seen
        invariant forall t :: t in vocab ==> vocab[t] == DocFreq(lists[..i], t) + (if t in seen then 1 else 0)
      {
        var t := tokens[j];
        if t !in seen {
          seen := seen + {t};
          if t !in vocab {
            DocFreqOutsideVocabulary(lists[..i], t);
          }
          var previous := if t in vocab then vocab[t] else 0;
          vocab := vocab[t := previous + 1];
        }
        assert tokens[..j + 1] == tokens[..j] + [t];
        j := j + 1;
      }
      assert tokens[..j] == tokens;
      assert lists[..i + 1][..i] == lists[..i];
      i := i + 1;
    }
    assert lists[..i] == lists;
  }

  /** The idf pass over the vocabulary map. */
  method InverseFrequencies(vocab: map<string, nat>, totalDocs: nat, ln: real -> real) returns (idf: map<string, real>)
    ensures idf.Keys == vocab.Keys
    ensures forall t :: t in idf ==> idf[t] == Idf(totalDocs, vocab[t], ln)
  {
    idf := map[];
    var remaining := vocab.Keys;
    while remaining != {}
      invariant remaining <= vocab.Keys
      invariant idf.Keys == vocab.Keys - remaining
      invariant forall t :: t in idf ==> idf[t] == Idf(totalDocs, vocab[t], ln)
      decreases remaining
    {
      var t :| t in remaining;
      idf := idf[t := ln(totalDocs as real / (1 + vocab[t]) as real)];
      remaining := remaining - {t};
    }
  }

  /** tf * idf for a term that occurs count times among length tokens. */
  ghost function TfIdfWeight(count: nat, length: nat, idf: real): real
    requires length > 0
  {
    (count as real / length as real) * idf
  }

  /** The vector pass for one document: `tf = counts[term] / tokens.length` and
      `vec[term] = tf * idf[term]` for every key of its counts. */
  method WeightVector(tokens: seq<string>, counts: map<string, nat>, idf: map<string, real>) returns (vec: Vector)
    requires counts == TermCounts(tokens)
    requires Distinct(tokens) <= idf.Keys
    ensures vec == Weights(tokens, idf)
  {
    vec := map[];
    var length := |tokens|;
    var remaining := counts.Keys;
    while remaining != {}
      invariant remaining <= counts.Keys
      invariant vec.Keys == counts.Keys - remaining
      invariant forall t :: t in vec ==> vec[t] == TfIdfWeight(counts[t], length, idf[t])
      decreases remaining
    {
      var t :| t in remaining;
      var tf := counts[t] as real / length as real;
      vec := vec[t := tf * idf[t]];
      remaining := remaining - {t};
    }
    WeightsFromCounts(tokens, counts, idf, vec);
  }

  /** computeTfIdf over an array of documents, in its four passes. Every document ends
      with its own tokens, exact counts and the TF-IDF vector of its tokens within the
      whole corpus; its categories and summary are untouched. A document that appears
      twice in the array is processed twice with the same result and counts twice
      towards the document frequencies, as in the source. */
  method ComputeTfIdf(docs: seq<Document>, ln: real -> real)
    modifies docs
    ensures forall k :: 0 <= k < |docs| ==> docs[k].tokens == Tokenize(docs[k].text)
    ensures forall k :: 0 <= k < |docs| ==> docs[k].counts == TermCounts(docs[k].tokens)
    ensures forall k :: 0 <= k < |docs| ==> Distinct(docs[k].tokens) <= Vocabulary(Corpus(docs))
    ensures forall k :: 0 <= k < |docs| ==> docs[k].vector == Weights(docs[k].tokens, IdfTable(Corpus(docs), ln))
    ensures forall k :: 0 <= k < |docs| ==> docs[k].categories == old(docs[k].categories)
    ensures forall k :: 0 <= k < |docs| ==> docs[k].summary == old(docs[k].summary)
  {
    var lists := CountAll(docs);
    var vocab := DocumentFrequencies(lists);
    var idf := InverseFrequencies(vocab, |docs|, ln);
    assert idf == IdfTable(lists, ln);
    AssignVectors(docs, lists, idf);
  }

  /** The first pass: tokens and counts of each document. It returns the token lists
      that the document-frequency pass then reads back from the documents. */
  method CountAll(docs: seq<Document>) returns (lists: seq<seq<string>>)
    modifies docs
    ensures lists == Corpus(docs)
    ensures forall k :: 0 <= k < |docs| ==> docs[k].tokens == Tokenize(docs[k].text) && docs[k].counts == TermCounts(docs[k].tokens)
    ensures forall d :: d in docs ==> d.categories == old(d.categories) && d.summary == old(d.summary) && d.vector == old(d.vector)
  {
    lists := [];
    var i := 0;
    while i < |docs|
      invariant 0 <= i <= |docs|
      invariant lists == Corpus(docs)[..i]
      invariant forall k :: 0 <= k < i ==> docs[k].tokens == Tokenize(docs[k].text) && docs[k].counts == TermCounts(docs[k].tokens)
      invariant forall d :: d in docs ==> d.categories == old(d.categories) && d.summary == old(d.summary) && d.vector == old(d.vector)
    {
      var tokens := SetCounts(docs[i]);
      lists := lists + [tokens];
      i := i + 1;
    }
  }

  /** `doc.tokens = tokenize(doc.text)` and `doc.counts = counts` for one document. */
  method SetCounts(doc: Document) returns (tokens: seq<string>)
    modifies doc
    ensures tokens == Tokenize(doc.text)
    ensures doc.tokens == tokens && doc.counts == TermCounts(tokens)
    ensures doc.categories == old(doc.categories) && doc.summary == old(doc.summary) && doc.vector == old(doc.vector)
  {
    tokens := Tokenize(doc.text);
    var counts := CountTerms(tokens);
    doc.tokens := tokens;
    doc.counts := counts;
  }

  /** The last pass: the vector of each document from its counts and the idf map. */
  method AssignVectors(docs: seq<Document>, lists: seq<seq<string>>, idf: map<string, real>)
    requires |lists| == |docs|
    requires forall k :: 0 <= k < |docs| ==> docs[k].tokens == lists[k] && docs[k].counts == TermCounts(lists[k])
    requires idf.Keys == Vocabulary(lists)
    modifies docs
    ensures forall k :: 0 <= k < |docs| ==> docs[k].tokens == lists[k] && docs[k].counts == TermCounts(lists[k])
    ensures forall k :: 0 <= k < |docs| ==> Distinct(lists[k]) <= idf.Keys
    ensures forall k :: 0 <= k < |docs| ==> docs[k].vector == Weights(lists[k], idf)
    ensures forall d :: d in docs ==> d.categories == old(d.categories) && d.summary == old(d.summary)
  {
    forall k | 0 <= k < |docs| ensures Distinct(lists[k]) <= idf.Keys {
      TokensInVocabulary(lists, k);
    }
    var i := 0;
    while i < |docs|
      invariant 0 <= i <= |docs|
      invariant forall k :: 0 <= k < |docs| ==> docs[k].tokens == lists[k] && docs[k].counts == TermCounts(lists[k])
      invariant forall k :: 0 <= k < i ==> docs[k].vector == Weights(lists[k], idf)
      invariant forall d :: d in docs ==> d.categories == old(d.categories) && d.summary == old(d.summary)
    {
      SetVector(docs[i], lists[i], idf);
      i := i + 1;
    }
  }

  /** `doc.vector = vec` for one document, after the vector pass over its counts. */
  method SetVector(doc: Document, ghost tokens: seq<string>, idf: map<string, real>)
    requires doc.tokens == tokens && doc.counts == TermCounts(tokens)
    requires Distinct(tokens) <= idf.Keys
    modifies doc
    ensures doc.tokens == tokens && doc.counts == TermCounts(tokens)
    ensures doc.vector == Weights(tokens, idf)
    ensures doc.categories == old(doc.categories) && doc.summary == old(doc.summary)
  {
    var vec := WeightVector(doc.tokens, doc.counts, idf);
    doc.vector := vec;
  }

  /** The vector pass yields Weights: a vector with the keys of the counts and weight
      tf * idf, given the idf map of the corpus. */
  lemma WeightsFromCounts(tokens: seq<string>, counts: map<string, nat>, idf: map<string, real>, vec: Vector)
    requires counts == TermCounts(tokens)
    requires Distinct(tokens) <= idf.Keys
    requires vec.Keys == counts.Keys
    requires forall t :: t in vec ==> vec[t] == TfIdfWeight(counts[t], |tokens|, idf[t])
    ensures vec == Weights(tokens, idf)
  {
    var w := Weights(tokens, idf);
    forall t | t in vec ensures vec[t] == w[t] {
      assert t in tokens;
      assert counts[t] as real / |tokens| as real == Tf(tokens, t);
    }
  }

  /** A term outside the vocabulary has document frequency 0 (the `|| 0` default). */
  lemma {:induction false} DocFreqOutsideVocabulary(lists: seq<seq<string>>, t: string)
    requires t !in Vocabulary(lists)
    ensures DocFreq(lists, t) == 0
  {
    if lists != [] {
      DocFreqOutsideVocabulary(lists[..|lists| - 1], t);
    }
  }

  /** Every token of document k is in the vocabulary. */
  lemma {:induction false} TokensInVocabulary(lists: seq<seq<string>>, k: nat)
    requires k < |lists|
    ensures Distinct(lists[k]) <= Vocabulary(lists)
  {
    if k < |lists| - 1 {
      TokensInVocabulary(lists[..|lists| - 1], k);
    }
  }

  /** A token occurs at most as often as the list is long. */
  lemma {:induction false} MultiplicityBound(tokens: seq<string>, t: string)
    ensures multiset(tokens)[t] <= |tokens|
  {
    if tokens != [] {
      var p := tokens[..|tokens| - 1];
      assert tokens == p + [tokens[|tokens| - 1]];
      MultiplicityBound(p, t);
    }
  }

  /** The vector of a document has exactly its distinct tokens as keys (those of its
      counts), and each tf lies in (0, 1]. */
  lemma VectorOfTokens(tokens: seq<string>, idf: map<string, real>)
    requires Distinct(tokens) <= idf.Keys
    ensures Weights(tokens, idf).Keys == TermCounts(tokens).Keys == Distinct(tokens)
    ensures forall t :: t in tokens ==> 0.0 < Tf(tokens, t) <= 1.0
  {
    forall t | t in tokens ensures 0.0 < Tf(tokens, t) <= 1.0 {
      MultiplicityBound(tokens, t);
      FractionBounds(multiset(tokens)[t] as real, |tokens| as real);
    }
  }

  /** The weight of a token of the document is its tf times its idf. */
  lemma WeightAt(tokens: seq<string>, idf: map<string, real>, t: string)
    requires Distinct(tokens) <= idf.Keys
    requires t in tokens
    ensures t in Weights(tokens, idf) && Weights(tokens, idf)[t] == Tf(tokens, t) * idf[t]
  {
  }

  lemma FractionBounds(c: real, n: real)
    requires 1.0 <= c <= n
    ensures 0.0 < c / n <= 1.0
  {
    assert c / n <= n / n;
  }

  /** The counts of a document add up to its number of tokens. */
  lemma {:induction false} CountsSumToLength(tokens: seq<string>)
    ensures Sum(Distinct(tokens), t => multiset(tokens)[t] as real) == |tokens| as real
  {
    if tokens == [] {
      assert Distinct(tokens) == {};
    } else {
      var p, w := tokens[..|tokens| - 1], tokens[|tokens| - 1];
      assert tokens == p + [w];
      CountsSumToLength(p);
      var f := t => multiset(tokens)[t] as real;
      var fp := t => multiset(p)[t] as real;
      if w in p {
        assert Distinct(tokens) == Distinct(p);
        var one := t => if t == w then 1.0 else 0.0;
        SumAdd(Distinct(p), fp, one, f);
        SumIndicator(Distinct(p), one, w);
      } else {
        assert Distinct(tokens) == Distinct(p) + {w};
        SumInsert(Distinct(p), f, w);
        SumCongruent(Distinct(p), f, fp);
      }
    }
  }

  /** The term frequencies of a document with tokens add up to 1. */
  lemma TfSumsToOne(tokens: seq<string>)
    requires tokens != []
    ensures Sum(Distinct(tokens), t => if t in tokens then Tf(tokens, t) else 0.0) == 1.0
  {
    CountsSumToLength(tokens);
    SumShares(Distinct(tokens), t => multiset(tokens)[t] as real, t => if t in tokens then Tf(tokens, t) else 0.0, |tokens| as real);
  }

  /** The document frequency of t is the number of documents whose tokens contain t. */
  lemma {:induction false} DocFreqCountsDocuments(lists: seq<seq<string>>, t: string)
    ensures DocFreq(lists, t) == |set i | 0 <= i < |lists| && t in lists[i]|
  {
    if lists != [] {
      var n := |lists| - 1;
      var p := lists[..n];
      DocFreqCountsDocuments(p, t);
      var s := set i | 0 <= i < |lists| && t in lists[i];
      var sp := set i | 0 <= i < |p| && t in p[i];
      if t in lists[n] {
        assert s == sp + {n};
      } else {
        assert s == sp;
      }
    }
  }

  /** The vocabulary is the set of terms that occur in some document. */
  lemma {:induction false} VocabularyMembers(lists: seq<seq<string>>, t: string)
    ensures t in Vocabulary(lists) <==> exists i :: 0 <= i < |lists| && t in lists[i]
  {
    if lists != [] {
      var n := |lists| - 1;
      VocabularyMembers(lists[..n], t);
      if t in Vocabulary(lists[..n]) {
        var i :| 0 <= i < n && t in lists[..n][i];
        assert t in lists[i];
      }
      if exists i :: 0 <= i < |lists| && t in lists[i] {
        var i :| 0 <= i < |lists| && t in lists[i];
        if i < n {
          assert t in lists[..n][i];
        }
      }
    }
  }

  /** Each document adds at most 1, so 1 <= df <= N exactly for the vocabulary terms
      and df = 0 for every other term. */
  lemma {:induction false} DocFreqBounds(lists: seq<seq<string>>, t: string)
    ensures DocFreq(lists, t) <= |lists|
    ensures t in Vocabulary(lists) <==> DocFreq(lists, t) >= 1
  {
    if lists != [] {
      DocFreqBounds(lists[..|lists| - 1], t);
    }
  }

  /** A term in every document has document frequency N. */
  lemma {:induction false} DocFreqEverywhere(lists: seq<seq<string>>, t: string)
    requires forall i :: 0 <= i < |lists| ==> t in lists[i]
    ensures DocFreq(lists, t) == |lists|
  {
    if lists != [] {
      var n := |lists| - 1;
      forall i | 0 <= i < n ensures t in lists[..n][i] {
        assert lists[..n][i] == lists[i];
      }
      DocFreqEverywhere(lists[..n], t);
    }
  }

  /** A logarithm that is negative below 1, as Math.log is. */
  ghost predicate NegativeBelowOne(ln: real -> real) {
    forall x: real :: 0.0 < x < 1.0 ==> ln(x) < 0.0
  }

  /** A term that occurs in every document gets idf log(N / (N + 1)) < 0, and so a
      negative weight in each vector: the weights are never clamped at 0. */
  lemma UbiquitousTermNegative(lists: seq<seq<string>>, t: string, k: nat, ln: real -> real)
    requires k < |lists|
    requires forall i :: 0 <= i < |lists| ==> t in lists[i]
    requires NegativeBelowOne(ln)
    ensures Distinct(lists[k]) <= IdfTable(lists, ln).Keys
    ensures t in IdfTable(lists, ln) && IdfTable(lists, ln)[t] < 0.0
    ensures t in Weights(lists[k], IdfTable(lists, ln)) && Weights(lists[k], IdfTable(lists, ln))[t] < 0.0
  {
    TokensInVocabulary(lists, k);
    UbiquitousIdf(lists, t, ln);
    var idf := IdfTable(lists, ln);
    VectorOfTokens(lists[k], idf);
    WeightAt(lists[k], idf, t);
    NegativeProduct(Tf(lists[k], t), idf[t]);
  }

  /** The idf of a term in every document of a non-empty corpus is log(N / (N + 1)). */
  lemma UbiquitousIdf(lists: seq<seq<string>>, t: string, ln: real -> real)
    requires lists != []
    requires forall i :: 0 <= i < |lists| ==> t in lists[i]
    requires NegativeBelowOne(ln)
    ensures t in IdfTable(lists, ln) && IdfTable(lists, ln)[t] < 0.0
  {
    VocabularyMembers(lists, t);
    assert t in lists[0];
    DocFreqEverywhere(lists, t);
    RatioBelowOne(|lists| as real);
  }

  lemma RatioBelowOne(n: real)
    requires n > 0.0
    ensures 0.0 < n / (1.0 + n) < 1.0
  {
  }

  lemma NegativeProduct(a: real, b: real)
    requires a > 0.0 && b < 0.0
    ensures a * b < 0.0
  {
  }

  /** In a corpus of one document every term has idf log(1 / 2). */
  lemma SingleDocumentIdf(tokens: seq<string>, ln: real -> real)
    ensures IdfTable([tokens], ln) == map t | t in tokens :: ln(0.5)
  {
    assert [tokens][..0] == [];
    assert Vocabulary([tokens]) == Distinct(tokens);
    forall t | t in tokens ensures DocFreq([tokens], t) == 1 { }
  }

  /** A text without word characters gets no tokens and the empty vector. */
  lemma EmptyTextEmptyVector(text: string, idf: map<string, real>)
    requires NoWordChars(text)
    ensures Tokenize(text) == []
    ensures Weights(Tokenize(text), idf) == map[]
  {
    TokenizeEmpty(text);
  }

  /** `tokenize("hello world")` splits at the space. */
  lemma HelloWorldTokens()
    ensures Tokenize("hello world") == ["hello", "world"]
  {
    var a := "hello world";
    LowerCaseOfLower(a);
    HelloWorldCut();
    MaximalRunsAreUnique(a, ["", " ", ""], ["hello", "world"]);
  }

  lemma HelloWorldCut()
    ensures MaximalRuns(["", " ", ""], ["hello", "world"])
    ensures Join(["", " ", ""], ["hello", "world"]) == "hello world"
  {
    var gs, ts := ["", " ", ""], ["hello", "world"];
    assert gs[1..][1..] == [""] && ts[1..][1..] == [];
    assert Join(gs[1..], ts[1..]) == " world";
    assert NoWordChars(" ");
  }

  /** The corpus of two documents "hello world" and "hello there world": "hello" is a
      key of the first vector. */
  lemma HelloWorldExample(ln: real -> real)
    ensures var lists := [Tokenize("hello world"), Tokenize("hello there world")];
      Distinct(lists[0]) <= IdfTable(lists, ln).Keys && "hello" in Weights(lists[0], IdfTable(lists, ln))
  {
    var lists := [Tokenize("hello world"), Tokenize("hello there world")];
    HelloWorldTokens();
    TokensInVocabulary(lists, 0);
    WeightAt(lists[0], IdfTable(lists, ln), "hello");
  }
}
