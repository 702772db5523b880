/** The counts object of computeTfIdf as the JavaScript code builds it: a plain object
    `{}`, whose missing keys fall through to Object.prototype. Two lower-case word tokens
    name properties found there: "constructor" (the function Object) and "__proto__" (the
    prototype itself, whose setter ignores a value that is not an object).

    TfIdf.TermCounts and TfIdf.CountTerms count with a map, as the code evidently
    intends; this module shows where the plain object departs from that. */
module PrototypeKeys {
  import opened Sums
  import opened Similarity
  import opened TfIdf

  /** What `counts[t]` holds or yields: nothing (undefined), a count, the inherited
      property of Object.prototype, or a string that is not a numeral (an inherited
      function or object turned into text, with "1"s appended). */
  datatype Count = Missing | Number(n: nat) | Inherited | Garbled

  /** A JavaScript number as these computations can produce it: finite, or NaN. */
  datatype JsNumber = Finite(value: real) | NotANumber

  /** The lower-case word tokens that Object.prototype answers for. */
  predicate IsPrototypeKey(t: string) {
    t == "constructor" || t == "__proto__"
  }

  /** Reading `counts[t]`: a key the object holds gives its value; a missing key gives
      undefined, except the two names that Object.prototype answers for. */
  function Read(counts: map<string, Count>, t: string): (c: Count)
    ensures t in counts ==> c == counts[t]
    ensures t !in counts ==> (c == Missing <==> !IsPrototypeKey(t)) && (c == Inherited <==> IsPrototypeKey(t))
  {
    if t in counts then counts[t] else if IsPrototypeKey(t) then Inherited else Missing
  }

  /** `(counts[t] || 0) + 1`: undefined gives 0 + 1; an inherited function or object and
      a non-numeric string are truthy, so `+ 1` concatenates text. */
  function Bump(c: Count): (r: Count)
    ensures r.Number? <==> c.Missing? || c.Number?
    ensures r.Number? ==> r.n == (if c.Number? then c.n else 0) + 1
  {
    match c
    case Missing => Number(1)
    case Number(n) => Number(n + 1)
    case Inherited => Garbled
    case Garbled => Garbled
  }

  /** `counts[t] = v`: the "__proto__" setter ignores a value that is not an object. */
  function Write(counts: map<string, Count>, t: string, v: Count): (w: map<string, Count>)
    ensures w.Keys == if t == "__proto__" then counts.Keys else counts.Keys + {t}
    ensures t != "__proto__" ==> w[t] == v
    ensures forall u :: u in counts && u != t ==> w[u] == counts[u]
  {
    if t == "__proto__" then counts else counts[t := v]
  }

  /** The counts object after `counts[t] = (counts[t] || 0) + 1` for each token in turn. */
  function CountsAsWritten(tokens: seq<string>): (counts: map<string, Count>)
    ensures counts.Keys <= Distinct(tokens)
  {
    if tokens == [] then map[]
    else
      var counts := CountsAsWritten(tokens[..|tokens| - 1]);
      var t := tokens[|tokens| - 1];
      Write(counts, t, Bump(Read(counts, t)))
  }

  /** `counts[term] / doc.tokens.length` for a non-empty document: a count divides, any
      other value is NaN. */
  function TfAsWritten(c: Count, length: nat): (r: JsNumber)
    requires length > 0
    ensures r.Finite? <==> c.Number?
  {
    match c
    case Number(n) => Finite(n as real / length as real)
    case _ => NotANumber
  }

  /** Away from the two prototype names the object counts each token by its
      occurrences, whatever other tokens the document holds. */
  lemma {:induction false} CountsAway(tokens: seq<string>, t: string)
    requires !IsPrototypeKey(t)
    ensures t in CountsAsWritten(tokens) <==> t in tokens
    ensures t in tokens ==> CountsAsWritten(tokens)[t] == Number(multiset(tokens)[t])
  {
    if tokens != [] {
      var p := tokens[..|tokens| - 1];
      var x := tokens[|tokens| - 1];
      assert tokens == p + [x];
      assert multiset(tokens) == multiset(p) + multiset{x};
      CountsAway(p, t);
    }
  }

  /** Without the two prototype names among the tokens, the object holds exactly the
      intended counts. */
  lemma AgreesAwayFromPrototypeKeys(tokens: seq<string>)
    requires forall i :: 0 <= i < |tokens| ==> !IsPrototypeKey(tokens[i])
    ensures CountsAsWritten(tokens).Keys == TermCounts(tokens).Keys
    ensures forall t :: t in CountsAsWritten(tokens) ==> CountsAsWritten(tokens)[t] == Number(TermCounts(tokens)[t])
  {
    var counts := CountsAsWritten(tokens);
    forall t | t in tokens ensures t in counts && counts[t] == Number(multiset(tokens)[t]) {
      var i :| 0 <= i < |tokens| && tokens[i] == t;
      CountsAway(tokens, t);
    }
    CountsOfEveryToken(tokens, counts);
  }

  lemma CountsOfEveryToken(tokens: seq<string>, counts: map<string, Count>)
    requires counts.Keys <= Distinct(tokens)
    requires forall t :: t in tokens ==> t in counts && counts[t] == Number(multiset(tokens)[t])
    ensures counts.Keys == TermCounts(tokens).Keys
    ensures forall t :: t in counts ==> counts[t] == Number(TermCounts(tokens)[t])
  {
  }

  /** A document with the token "__proto__" loses it: the key is never created, so
      `Object.keys(doc.counts)` skips it and the vector has no weight for it. */
  lemma {:induction false} ProtoNeverCounted(tokens: seq<string>)
    ensures "__proto__" !in CountsAsWritten(tokens)
  {
    if tokens != [] {
      ProtoNeverCounted(tokens[..|tokens| - 1]);
    }
  }

  /** A document with the token "constructor" gets a non-numeric count for it, so its tf,
      and with it its weight, is NaN. */
  lemma {:induction false} ConstructorGarbled(tokens: seq<string>)
    requires "constructor" in tokens
    ensures "constructor" in CountsAsWritten(tokens)
    ensures CountsAsWritten(tokens)["constructor"] == Garbled
    ensures TfAsWritten(CountsAsWritten(tokens)["constructor"], |tokens|) == NotANumber
  {
    var p := tokens[..|tokens| - 1];
    var x := tokens[|tokens| - 1];
    assert tokens == p + [x];
    if "constructor" in p {
      ConstructorGarbled(p);
    }
  }

  /** The one-token document "constructor": its intended count is 1 and tf 1, the code
      yields a non-numeric count and NaN. */
  lemma ConstructorExample()
    ensures TermCounts(["constructor"]) == map["constructor" := 1]
    ensures Tf(["constructor"], "constructor") == 1.0
    ensures CountsAsWritten(["constructor"]) == map["constructor" := Garbled]
    ensures TfAsWritten(CountsAsWritten(["constructor"])["constructor"], 1) == NotANumber
  {
    var tokens := ["constructor"];
    assert tokens[..0] == [];
    assert multiset(tokens)["constructor"] == 1;
  }

  /** The one-token document "__proto__": its intended counts hold the token, the
      code's hold nothing. */
  lemma ProtoExample()
    ensures TermCounts(["__proto__"]) == map["__proto__" := 1]
    ensures CountsAsWritten(["__proto__"]) == map[]
  {
    var tokens := ["__proto__"];
    assert tokens[..0] == [];
    assert multiset(tokens)["__proto__"] == 1;
  }

  // ---------------------------------------------------------------------------
  // vector objects

  /** A vector object as the vector pass builds it: each own key holds a number, which
      is NaN where the count was not a number. */
  type JsVector = map<string, JsNumber>

  /** `tf * idf[term]`: NaN times a number is NaN. */
  function Times(x: JsNumber, w: real): JsNumber {
    if x.Finite? then Finite(x.value * w) else NotANumber
  }

  /** The vector pass on a counts object: `vec[term] = tf * idf[term]` with
      `tf = counts[term] / length`, for every own key of the counts. */
  function VectorOfCounts(counts: map<string, Count>, length: nat, idf: map<string, real>): (v: JsVector)
    requires counts.Keys <= idf.Keys && (length == 0 ==> counts == map[])
    ensures v.Keys == counts.Keys
    ensures forall t :: t in v ==> (v[t].Finite? <==> counts[t].Number?)
  {
    map t | t in counts :: Times(TfAsWritten(counts[t], length), idf[t])
  }

  /** The vector of a document as the code builds it, from its counts object. */
  function VectorAsWritten(tokens: seq<string>, idf: map<string, real>): (v: JsVector)
    requires Distinct(tokens) <= idf.Keys
    ensures v.Keys == CountsAsWritten(tokens).Keys <= Distinct(tokens)
  {
    VectorOfCounts(CountsAsWritten(tokens), |tokens|, idf)
  }

  /** The own keys whose weight is a number, as a vector over the reals. */
  function Numbers(v: JsVector): Vector {
    map t | t in v && v[t].Finite? :: v[t].value
  }

  /** The weights of a vector over the reals, without the two prototype names. */
  function WithoutPrototypeKeys(v: Vector): Vector {
    map t | t in v && !IsPrototypeKey(t) :: v[t]
  }

  /** The numbers in the code's vector are the intended weights, except that
      "constructor" has NaN and "__proto__" no key at all. */
  lemma NumbersOfVector(tokens: seq<string>, idf: map<string, real>)
    requires Distinct(tokens) <= idf.Keys
    ensures Numbers(VectorAsWritten(tokens, idf)) == WithoutPrototypeKeys(Weights(tokens, idf))
  {
    var n, w := Numbers(VectorAsWritten(tokens, idf)), WithoutPrototypeKeys(Weights(tokens, idf));
    forall t ensures (t in n <==> t in w) && (t in n ==> n[t] == w[t]) {
      NumberOfVectorAt(tokens, idf, t);
    }
    assert n.Keys == w.Keys;
  }

  lemma NumberOfVectorAt(tokens: seq<string>, idf: map<string, real>, t: string)
    requires Distinct(tokens) <= idf.Keys
    ensures var n, w := Numbers(VectorAsWritten(tokens, idf)), WithoutPrototypeKeys(Weights(tokens, idf));
      (t in n <==> t in w) && (t in n ==> n[t] == w[t])
  {
    var v, w := VectorAsWritten(tokens, idf), WithoutPrototypeKeys(Weights(tokens, idf));
    if IsPrototypeKey(t) {
      assert t !in w;
      if t in v {
        ProtoNeverCounted(tokens);
        ConstructorGarbled(tokens);
        assert v[t] == NotANumber;
      }
    } else {
      CountsAway(tokens, t);
      assert t in w <==> t in tokens;
      if t in tokens {
        CountedWeightAt(tokens, CountsAsWritten(tokens), idf, t);
      }
    }
  }

  /** A token counted by its occurrences has its intended weight in the vector of its
      counts. */
  lemma CountedWeightAt(tokens: seq<string>, counts: map<string, Count>, idf: map<string, real>, t: string)
    requires Distinct(tokens) <= idf.Keys && counts.Keys <= idf.Keys && t in tokens
    requires t in counts && counts[t] == Number(multiset(tokens)[t])
    ensures t in Numbers(VectorOfCounts(counts, |tokens|, idf)) && t in Weights(tokens, idf)
    ensures Numbers(VectorOfCounts(counts, |tokens|, idf))[t] == Weights(tokens, idf)[t]
  {
    VectorValueAt(counts, |tokens|, idf, t);
    WeightAt(tokens, idf, t);
  }

  /** A key with a numeric count has the weight `count / length * idf[t]`. */
  lemma VectorValueAt(counts: map<string, Count>, length: nat, idf: map<string, real>, t: string)
    requires counts.Keys <= idf.Keys && (length == 0 ==> counts == map[])
    requires t in counts && counts[t].Number?
    ensures t in Numbers(VectorOfCounts(counts, length, idf))
    ensures Numbers(VectorOfCounts(counts, length, idf))[t] == (counts[t].n as real / length as real) * idf[t]
  {
  }

  lemma WeightAt(tokens: seq<string>, idf: map<string, real>, t: string)
    requires Distinct(tokens) <= idf.Keys && t in tokens
    ensures t in Weights(tokens, idf) && Weights(tokens, idf)[t] == (multiset(tokens)[t] as real / |tokens| as real) * idf[t]
  {
  }

  /** The document "constructor x": its vector holds NaN for "constructor" and half the
      idf of "x" for "x". */
  lemma ConstructorVectorExample(idf: map<string, real>)
    requires "constructor" in idf && "x" in idf
    ensures VectorAsWritten(["constructor", "x"], idf) == map["constructor" := NotANumber, "x" := Finite(0.5 * idf["x"])]
  {
    var tokens := ["constructor", "x"];
    assert tokens[..1] == ["constructor"] && tokens[..1][..0] == [];
    assert CountsAsWritten(tokens) == map["constructor" := Garbled, "x" := Number(1)];
  }

  // ---------------------------------------------------------------------------
  // dot over vector objects

  /** What `b[t]` yields when the vector b is a plain object `{}`: its own weight, the
      property that Object.prototype answers for a prototype name (a function or an
      object: truthy, and not a number), or undefined. */
  datatype Property = Own(w: JsNumber) | FromPrototype | Undefined

  /** Reading `b[t]` on a vector object. */
  function ReadWeight(b: JsVector, t: string): (p: Property)
    ensures t in b ==> p == Own(b[t])
    ensures t !in b ==> (p == FromPrototype <==> IsPrototypeKey(t)) && (p == Undefined <==> !IsPrototypeKey(t))
  {
    if t in b then Own(b[t]) else if IsPrototypeKey(t) then FromPrototype else Undefined
  }

  /** `if (p)`: undefined, 0 and NaN are falsy; an inherited function or object is truthy. */
  predicate Truthy(p: Property) {
    p.FromPrototype? || (p.Own? && p.w.Finite? && p.w.value != 0.0)
  }

  /** One step of `if (b[term]) sum += a[term] * b[term]`, with a[term] = x and b[term] = p:
      a falsy p is skipped; a product with an inherited property or with NaN is NaN, and
      NaN plus anything stays NaN. */
  function AddTerm(sum: JsNumber, x: JsNumber, p: Property): (r: JsNumber)
    ensures !Truthy(p) ==> r == sum
    ensures sum.NotANumber? || p.FromPrototype? || (Truthy(p) && x.NotANumber?) ==> r == NotANumber
    ensures r.Finite? && Truthy(p) ==> r.value == sum.value + x.value * p.w.value
  {
    match p
    case Own(w) =>
      if w.Finite? && w.value != 0.0 then
        (if sum.Finite? && x.Finite? then Finite(sum.value + x.value * w.value) else NotANumber)
      else sum
    case FromPrototype => NotANumber
    case Undefined => sum
  }

  /** The term t of a turns the sum into NaN: b[t] is truthy and either inherited or
      multiplied by a NaN weight of a. */
  predicate Poisons(a: JsVector, b: JsVector, t: string)
    requires t in a
  {
    Truthy(ReadWeight(b, t)) && (ReadWeight(b, t).FromPrototype? || a[t].NotANumber?)
  }

  /** Some key in s turns the sum dot(a, b) into NaN. */
  predicate PoisonsSome(s: set<string>, a: JsVector, b: JsVector) {
    exists t :: t in s && t in a && Poisons(a, b, t)
  }

  /** dot(a, b) as the code computes it on vector objects: NaN as soon as a term of a
      poisons the sum, and otherwise the intended dot of the numbers in a and b. */
  ghost function DotAsWrittenValue(a: JsVector, b: JsVector): JsNumber {
    if PoisonsSome(a.Keys, a, b) then NotANumber else Finite(DotValue(Numbers(a), Numbers(b)))
  }

  /** `dot`: the `for...in` loop over the keys of a, with `b[term]` read on a plain object. */
  method DotAsWritten(a: JsVector, b: JsVector) returns (sum: JsNumber)
    ensures sum == DotAsWrittenValue(a, b)
  {
    ghost var f := t => Product(Numbers(a), Numbers(b), t);
    sum := Finite(0.0);
    var remaining := a.Keys;
    ghost var visited: set<string> := {};
    while remaining != {}
      invariant remaining + visited == a.Keys && remaining !! visited
      invariant sum == if PoisonsSome(visited, a, b) then NotANumber else Finite(Sum(visited, f))
      decreases remaining
    {
      var t :| t in remaining;
      sum := AddTerm(sum, a[t], ReadWeight(b, t));
      if !Poisons(a, b, t) && sum.Finite? {
        AddTermStep(a, b, t, sum.value);
      }
      SumInsert(visited, f, t);
      PoisonsInsert(visited, a, b, t);
      remaining := remaining - {t};
      visited := visited + {t};
    }
    SumRestrict(a.Keys, Numbers(a).Keys * Numbers(b).Keys, f);
    assert a.Keys * (Numbers(a).Keys * Numbers(b).Keys) == Numbers(a).Keys * Numbers(b).Keys;
  }

  /** A term that does not poison the sum adds its product of numbers. */
  lemma AddTermStep(a: JsVector, b: JsVector, t: string, s: real)
    requires t in a && !Poisons(a, b, t)
    ensures AddTerm(Finite(s), a[t], ReadWeight(b, t)) == Finite(s + Product(Numbers(a), Numbers(b), t))
  {
    var na, nb := Numbers(a), Numbers(b);
    if t in b && b[t].Finite? {
      assert t in nb && nb[t] == b[t].value;
      if a[t].Finite? {
        assert t in na && na[t] == a[t].value;
        assert Product(na, nb, t) == a[t].value * b[t].value;
        if b[t].value == 0.0 {
          assert a[t].value * b[t].value == 0.0;
        }
      } else {
        assert t !in na;
      }
    } else {
      assert t !in nb;
    }
  }

  lemma PoisonsInsert(s: set<string>, a: JsVector, b: JsVector, t: string)
    requires t in a
    ensures PoisonsSome(s + {t}, a, b) <==> PoisonsSome(s, a, b) || Poisons(a, b, t)
  {
    if Poisons(a, b, t) {
      assert t in s + {t};
    }
  }

  /** A vector with the term "constructor" and one without either prototype name and with
      numbers only: the code's dot is NaN in one order and the intended dot of their
      numbers in the other, so it is not symmetric. */
  lemma DotAsWrittenAsymmetric(a: JsVector, b: JsVector)
    requires "constructor" in a && "constructor" !in b && "__proto__" !in b
    requires forall t :: t in b ==> b[t].Finite?
    ensures DotAsWrittenValue(a, b) == NotANumber
    ensures DotAsWrittenValue(b, a) == Finite(DotValue(Numbers(a), Numbers(b)))
  {
    assert Poisons(a, b, "constructor");
    forall t | t in b ensures !Poisons(b, a, t) {
      assert !IsPrototypeKey(t);
    }
    DotSymmetric(Numbers(a), Numbers(b));
  }

  /** Without prototype names or NaN among the keys of a, the code's dot is the intended
      one. */
  lemma DotAsWrittenAgrees(a: JsVector, b: JsVector)
    requires forall t :: t in a ==> !IsPrototypeKey(t) && a[t].Finite?
    ensures DotAsWrittenValue(a, b) == Finite(DotValue(Numbers(a), Numbers(b)))
  {
    forall t | t in a ensures !Poisons(a, b, t) {
    }
  }

  /** a = {constructor: 0.5, x: 1} and b = {x: 1}: the code's dot(a, b) is NaN while
      dot(b, a) is 1. */
  lemma DotAsymmetryExample()
    ensures DotAsWrittenValue(map["constructor" := Finite(0.5), "x" := Finite(1.0)], map["x" := Finite(1.0)]) == NotANumber
    ensures DotAsWrittenValue(map["x" := Finite(1.0)], map["constructor" := Finite(0.5), "x" := Finite(1.0)]) == Finite(1.0)
  {
    var a, b := map["constructor" := Finite(0.5), "x" := Finite(1.0)], map["x" := Finite(1.0)];
    var na, nb := Numbers(a), Numbers(b);
    DotAsWrittenAsymmetric(a, b);
    assert na == map["constructor" := 0.5, "x" := 1.0] && nb == map["x" := 1.0];
    assert na.Keys * nb.Keys == {"x"};
    SumRemove({"x"}, t => Product(na, nb, t), "x");
    assert ({"x"} - {"x"}) == {};
  }

  /** dot(v, v) reads only keys that v holds, and multiplies only numbers that are
      truthy, so it is never NaN. */
  lemma DotAsWrittenSelf(v: JsVector)
    ensures DotAsWrittenValue(v, v) == Finite(DotValue(Numbers(v), Numbers(v)))
  {
    forall t | t in v ensures !Poisons(v, v, t) {
    }
  }

  /** Two documents, one with the token "constructor" and one without it or
      "__proto__": the code's dot of their vectors is NaN in one order, and in the other
      the intended dot with "constructor" left out of the first document. */
  lemma ConstructorDocumentDot(ti: seq<string>, tj: seq<string>, idf: map<string, real>)
    requires Distinct(ti) <= idf.Keys && Distinct(tj) <= idf.Keys
    requires "constructor" in ti && "constructor" !in tj && "__proto__" !in tj
    ensures DotAsWrittenValue(VectorAsWritten(ti, idf), VectorAsWritten(tj, idf)) == NotANumber
    ensures DotAsWrittenValue(VectorAsWritten(tj, idf), VectorAsWritten(ti, idf))
         == Finite(DotValue(Weights(tj, idf), WithoutPrototypeKeys(Weights(ti, idf))))
  {
    var vi, vj := VectorAsWritten(ti, idf), VectorAsWritten(tj, idf);
    ConstructorGarbled(ti);
    forall t | t in vj ensures vj[t].Finite? {
      CountsAway(tj, t);
    }
    DotAsWrittenAsymmetric(vi, vj);
    NumbersOfVector(ti, idf);
    NumbersOfVector(tj, idf);
    DotSymmetric(Numbers(vi), Numbers(vj));
    WithoutNoPrototypeKeys(tj, idf);
  }

  /** A document without either prototype name keeps all its weights. */
  lemma WithoutNoPrototypeKeys(tokens: seq<string>, idf: map<string, real>)
    requires Distinct(tokens) <= idf.Keys
    requires "constructor" !in tokens && "__proto__" !in tokens
    ensures WithoutPrototypeKeys(Weights(tokens, idf)) == Weights(tokens, idf)
  {
    assert forall t :: t in Weights(tokens, idf) ==> !IsPrototypeKey(t);
  }

  /** `cosineSimilarity` on vector objects: dot(a, b) over `norm(a) * norm(b) || 1`, where
      each norm is `Math.sqrt(dot(v, v))`. The two norms are never NaN (DotAsWrittenSelf),
      and NaN divided by anything is NaN. */
  ghost function CosineAsWrittenValue(a: JsVector, b: JsVector, sqrt: real -> real): (r: JsNumber)
    ensures r.NotANumber? <==> DotAsWrittenValue(a, b).NotANumber?
  {
    DotAsWrittenSelf(a);
    DotAsWrittenSelf(b);
    var d, da, db := DotAsWrittenValue(a, b), DotAsWrittenValue(a, a).value, DotAsWrittenValue(b, b).value;
    if d.NotANumber? then NotANumber else Finite(OverNorms(d.value, sqrt(da), sqrt(db)))
  }

  /** `sim > threshold`: false when sim is NaN. */
  function AboveAsWritten(sim: JsNumber, threshold: real): (above: bool)
    ensures sim.NotANumber? ==> !above
    ensures sim.Finite? ==> (above <==> sim.value > threshold)
  {
    sim.Finite? && sim.value > threshold
  }

  /** The code's cosine is NaN exactly when a term of a poisons dot(a, b), and otherwise
      the intended cosine similarity of the numbers in a and b. */
  lemma CosineAsWritten(a: JsVector, b: JsVector, sqrt: real -> real)
    ensures CosineAsWrittenValue(a, b, sqrt) == NotANumber <==> PoisonsSome(a.Keys, a, b)
    ensures !PoisonsSome(a.Keys, a, b) ==> CosineAsWrittenValue(a, b, sqrt) == Finite(CosineValue(Numbers(a), Numbers(b), sqrt))
  {
    DotAsWrittenSelf(a);
    DotAsWrittenSelf(b);
    if !PoisonsSome(a.Keys, a, b) {
      CosineOfDots(Numbers(a), Numbers(b), sqrt);
    }
  }

  /** `d / (na * nb || 1)`. */
  function OverNorms(d: real, na: real, nb: real): real {
    var p := na * nb;
    d / (if p == 0.0 then 1.0 else p)
  }

  /** The division in `cosineSimilarity` on the three dots it computes. */
  lemma CosineOfDots(a: Vector, b: Vector, sqrt: real -> real)
    ensures OverNorms(DotValue(a, b), sqrt(DotValue(a, a)), sqrt(DotValue(b, b))) == CosineValue(a, b, sqrt)
  {
  }

  /** buildGraph of docs/script.js compares `cosineSimilarity(docs[i].vector,
      docs[j].vector)` for i < j only. If document i has the token "constructor" and
      document j has neither prototype name, the pair is never linked, whatever the
      threshold. With the two documents the other way round, the pair is compared by
      the intended cosine similarity with the term "constructor" left out of the
      similarity's dot and of the norm of the constructor document. */
  lemma ConstructorPairNeverLinked(ti: seq<string>, tj: seq<string>, idf: map<string, real>,
                                   sqrt: real -> real, threshold: real)
    requires Distinct(ti) <= idf.Keys && Distinct(tj) <= idf.Keys
    requires "constructor" in ti && "constructor" !in tj && "__proto__" !in tj
    ensures !AboveAsWritten(CosineAsWrittenValue(VectorAsWritten(ti, idf), VectorAsWritten(tj, idf), sqrt), threshold)
    ensures CosineAsWrittenValue(VectorAsWritten(tj, idf), VectorAsWritten(ti, idf), sqrt)
         == Finite(CosineValue(Weights(tj, idf), WithoutPrototypeKeys(Weights(ti, idf)), sqrt))
  {
    var vi, vj := VectorAsWritten(ti, idf), VectorAsWritten(tj, idf);
    ConstructorDocumentDot(ti, tj, idf);
    CosineAsWritten(vj, vi, sqrt);
    NumbersOfVector(ti, idf);
    NumbersOfVector(tj, idf);
    WithoutNoPrototypeKeys(tj, idf);
  }
}
