# Text-similarity graph engine, in Dafny

This project models the document-analysis core of a small browser application. The
application reads text documents and turns them into graphs. It has two pages:

- `script.js` reads the files, has a remote language model assign categories and
  summaries, and builds a graph that links documents to their categories (`generate`,
  lines 247-259, and `buildGraph`, lines 92-110). The same file defines `tokenize`,
  `computeTfIdf`, `dot`, `norm` and `cosineSimilarity` (lines 36-90), but its page never
  calls them and its `buildGraph` reads no vector; only tests/test.js names them.
- `docs/script.js`, the static page, runs `computeTfIdf` on the documents and then its own
  `buildGraph` (lines 149-157). That `buildGraph` links two documents when the cosine
  similarity of their vectors exceeds a threshold, 0.1 by default. Its tokenizer, TF-IDF
  and cosine similarity (lines 7-61) are identical to `script.js` lines 36-90, so the
  model cites `script.js` for them.

The modules follow the source:

| module | file | models |
|---|---|---|
| `Tokenizer` | tokenizer.dfy | `tokenize`: lower-casing, then the maximal runs of `\w` characters |
| `Documents` | documents.dfy | the document object, whose fields `computeTfIdf` sets in place (a `class`) |
| `TfIdf` | tfidf.dfy | `computeTfIdf`: counts, document frequencies, idf and one vector per document, as loops over the documents |
| `Sums` | sums.dfy | finite sums over sets of terms. These give the meaning of the `for...in` loop in `dot` |
| `Similarity` | similarity.dfy | `dot`, `norm` and `cosineSimilarity` |
| `Decimal` | decimal.dfy | the decimal text of an index in the ids `doc-${idx}` and `cat-${k}` |
| `CategoryGraph` | categorygraph.dfy | `buildGraph` of `script.js`: document nodes, category nodes and membership links |
| `SimilarityGraph` | similaritygraph.dfy | `buildGraph(docs, threshold = 0.1)` of `docs/script.js` |
| `PrototypeKeys` | prototypekeys.dfy | the counts object and the vector as the code builds them on plain JavaScript objects, and `dot`, `norm` and `cosineSimilarity` on those vectors (see Findings) |

The arithmetic is exact:

- Numbers are Dafny `real`s; `Math.log` and `Math.sqrt` are parameters `ln` and `sqrt`.
- Lemmas that need `sqrt` to be a square root say so with `IsSquareRoot(sqrt)`.
- The one lemma that needs a property of `ln` says so with `NegativeBelowOne(ln)`: the
  logarithm of a number in (0, 1) is negative.

Each loop of the source becomes a Dafny method with loop invariants. Each method is proved
equal to a function that serves as its specification. The properties are lemmas about
those functions:

- `ComputeTfIdf` updates the `Document` objects in place and states every field it sets.
- Both `BuildGraph` methods return exactly the graph that their specification function
  computes.

The similarity threshold is the default 0.1 of docs/script.js:63. The category links and
the similarity links belong to two separate graphs, built by two separate scripts, and
are modelled as two modules.

## Model

| member | source | states |
|---|---|---|
| Tokenizer.LowerChar | script.js:37 | the model's ASCII lower-casing of one character maps word characters to word characters and others to others, and a lower-cased word character is one of `[a-z0-9_]` |
| Tokenizer.LowerCase | script.js:37 | the model's ASCII lower-casing of a text keeps the length, keeps each character a word character exactly when it was one, and leaves every word character in `[a-z0-9_]` |
| Tokenizer.RunLength | script.js:37 | `\w+` reaches exactly to the first non-word character: the prefix is all word characters and the next character is not one |
| Tokenizer.Runs | script.js:37 | every match of `/\b\w+\b/g` is a non-empty run of word characters |
| Tokenizer.RunsOfLower | script.js:37 | a text whose word characters are all lower-case yields only tokens over `[a-z0-9_]` |
| Tokenizer.Tokenize | script.js:36-38 | every token of `tokenize` is a non-empty word over `[a-z0-9_]` |
| Tokenizer.TokensAreMaximalRuns | script.js:36-38 | the tokens, with the separators between them, rebuild the lower-cased text; the separators hold no word character, and consecutive tokens are separated by at least one character |
| Tokenizer.MaximalRunsAreUnique | script.js:37 | any cut of a text into maximal word runs and separators has exactly the tokens `Runs` returns, so the tokenization is determined by that description |
| Tokenizer.RunsEmpty | script.js:37 | the match list is empty exactly when the text has no word character |
| Tokenizer.TokenizeEmpty | script.js:37 | `tokenize` returns `[]` (the `|| []` fallback) exactly when the text has no word character |
| Tokenizer.LowerCaseOfLower | script.js:37 | `toLowerCase` leaves a text without upper-case letters unchanged |
| Documents.Document.constructor | script.js:29 | a document starts as the `{name, text}` that `readFile` yields, with the categories (set at lines 135-137) and the summary (line 163) that the caller provides, and with empty tokens, counts and vector |
| TfIdf.CountTerms | script.js:44-47 | the counts have exactly the distinct tokens as keys, each mapped to its number of occurrences |
| TfIdf.SetCounts | script.js:42-50 | one document of the first pass: its tokens become `Tokenize(text)` and its counts the term counts of those tokens; categories, summary and vector are unchanged |
| TfIdf.DocumentFrequencies | script.js:52-60 | the vocabulary map has exactly the corpus's terms as keys, each mapped to the number of documents containing it, each document counted once |
| TfIdf.InverseFrequencies | script.js:61-65 | every vocabulary term gets `log(N / (1 + df))`, and no other key is set |
| TfIdf.WeightVector | script.js:66-71 | the vector of one document is `tf * idf` on exactly its distinct tokens |
| TfIdf.SetVector | script.js:66-73 | one document of the vector pass: its vector becomes `Weights(tokens, idf)`; tokens, counts, categories and summary are unchanged |
| TfIdf.ComputeTfIdf | script.js:40-74 | for every document: tokens are `Tokenize(text)`, counts are the term counts, every token is in the vocabulary, the vector is `Weights(tokens, idf of the corpus)`, and categories and summary are unchanged |
| TfIdf.CountAll | script.js:42-50 | the first pass sets tokens and counts of every document and returns the corpus's token lists, leaving the other fields unchanged |
| TfIdf.AssignVectors | script.js:66-73 | the last pass sets each document's vector from its counts and the idf table, and nothing else |
| TfIdf.WeightsFromCounts | script.js:68-70 | `counts[term] / tokens.length * idf[term]` over the keys of the counts is the specification's `tf * idf` vector |
| TfIdf.DocFreqOutsideVocabulary | script.js:52-60 | a term in no document has document frequency 0 |
| TfIdf.TokensInVocabulary | script.js:52-60 | every token of every document is a vocabulary term, so `idf[term]` is defined for each term of a vector |
| TfIdf.MultiplicityBound | script.js:45-47 | a count never exceeds the number of tokens |
| TfIdf.VectorOfTokens | script.js:66-73 | a vector's keys are exactly the document's distinct tokens (the keys of its counts), and each tf lies in (0, 1] |
| TfIdf.CountsSumToLength | script.js:44-47 | the counts of a document add up to its number of tokens |
| TfIdf.TfSumsToOne | script.js:69 | the term frequencies of a document with tokens add up to 1 |
| TfIdf.DocFreqCountsDocuments | script.js:52-60 | the document frequency of a term is the number of document indices whose tokens contain it |
| TfIdf.VocabularyMembers | script.js:52-60 | a term is in the vocabulary exactly when some document contains it |
| TfIdf.DocFreqBounds | script.js:52-60 | a document frequency never exceeds N, and it is at least 1 exactly for the vocabulary terms |
| TfIdf.DocFreqEverywhere | script.js:52-60 | a term in every document has document frequency N |
| TfIdf.UbiquitousTermNegative | script.js:61-65 | a term in every document gets idf `log(N / (N + 1)) < 0`, and so a negative weight in every vector |
| TfIdf.SingleDocumentIdf | script.js:61-65 | with one document every term gets idf `log(1/2)` |
| TfIdf.EmptyTextEmptyVector | script.js:43-73 | a text without word characters gives no tokens and an empty vector |
| TfIdf.HelloWorldTokens | tests/test.js:5-9 | the first test text, `hello world`, tokenizes to `["hello", "world"]` |
| TfIdf.HelloWorldExample | tests/test.js:5-10 | after `computeTfIdf` on the two test texts the first vector has the key `hello` |
| Similarity.Dot | script.js:76-82 | the loop over the keys of `a` returns the sum of `a[t] * b[t]` over the terms both vectors hold; skipping a zero `b[t]` changes nothing |
| Similarity.Norm | script.js:84-86 | `norm(v)` is `sqrt(dot(v, v))` |
| Similarity.NormZero | script.js:84-86 | with a square root, `norm(v) >= 0`, and it is 0 exactly when every weight of v is 0 |
| Similarity.CosineSimilarity | script.js:88-90 | the result is `dot(a, b)` over the product of the norms, divided by 1 when that product is 0 |
| Similarity.DotSymmetric | script.js:76-82 | `dot(a, b) == dot(b, a)` |
| Similarity.DotSelf | script.js:76-82 | `dot(v, v) >= 0`, and it is 0 exactly when every weight is 0 |
| Similarity.DotWithZeroVector | script.js:76-82 | a vector whose weights are all zero has dot 0 with every vector |
| Similarity.CosineSymmetric | script.js:88-90 | cosine similarity is symmetric, whatever `sqrt` is |
| Similarity.CosineZeroNormFallback | script.js:88-90 | when a norm is 0, the `|| 1` fallback gives `dot(a, b)`, which is 0, with no division by zero |
| Similarity.CosineWithZeroVector | script.js:88-90 | a zero-weight vector (such as the vector of an empty text) has similarity 0 with every vector, whatever `sqrt` is |
| Similarity.CosineSelf | script.js:88-90 | a vector with a non-zero weight has similarity exactly 1 with itself, also when its weights are negative |
| Decimal.NatToString | script.js:98 | the decimal text of an index is non-empty and all digits |
| Decimal.NatToStringInjective | script.js:98 | different indices have different decimal texts |
| Decimal.PrefixedInjective | script.js:98-101 | `doc-${m}` equals `doc-${n}` only if m equals n; the same holds for `cat-` |
| CategoryGraph.BuildGraph | script.js:92-110 | the nested loops over documents and categories return exactly `CategoryGraphOf` of the documents' names, summaries and categories |
| CategoryGraph.AddCategoriesLoop | script.js:99-106 | the inner `forEach` over one document's categories returns exactly the builder state `AddCategories` specifies |
| CategoryGraph.DocumentNodes | script.js:97-98 | the document nodes are one per document, in order, with id `doc-{idx}`, its name and its summary |
| CategoryGraph.CategoryNodesFirstSeen | script.js:99-104 | the category nodes are the distinct categories in order of first appearance, the k-th with id `cat-{k}`; they hold no duplicate and every listed category appears |
| CategoryGraph.NodeCount | script.js:92-110 | the graph has one node per document plus one per distinct category |
| CategoryGraph.OneLinkPerEntry | script.js:99-105 | there is exactly one link per category-list entry, in order, from `doc-{idx}` to the node of that category, with value 1; a repeated category gives another link but no new node |
| CategoryGraph.EveryCategoryLinked | script.js:99-105 | every category node is the target of some link |
| CategoryGraph.DistinctNodeIds | script.js:98-103 | no two nodes share an id |
| CategoryGraph.TwoDocumentExample | tests/test.js:15-23 | the test's two documents give exactly the nodes doc-0, cat-0 (x), doc-1 and cat-1 (y), and the links doc-0 to cat-0, doc-1 to cat-0 and doc-1 to cat-1, so at least 4 nodes and 2 links |
| SimilarityGraph.NodesOf | docs/script.js:64 | node i has id i and the name of document i, one node per document |
| SimilarityGraph.BuildGraph | docs/script.js:63-75 | the nodes are `NodesOf(docs)` and the links are `SimilarityLinks` of the documents' pairwise cosine similarities |
| SimilarityGraph.AppendRow | docs/script.js:67-72 | the inner loop appends to the links exactly the links of row i, for any table holding the documents' cosine similarities |
| SimilarityGraph.CosineTableLinks | docs/script.js:66-73 | any table holding the cosine similarity of every pair of vectors gives the same links as the similarities themselves |
| SimilarityGraph.BuildGraphDefault | docs/script.js:63 | with no threshold given, the threshold is 0.1 |
| SimilarityGraph.RowLinksSound | docs/script.js:67-72 | every link of row i is a pair (i, j) with i < j below the partner bound, carrying the pair's similarity, which exceeds the threshold |
| SimilarityGraph.RowLinksComplete | docs/script.js:67-72 | every partner j > i whose similarity with i exceeds the threshold is linked in row i |
| SimilarityGraph.RowLinksOrdered | docs/script.js:67-72 | the links of row i come in increasing j |
| SimilarityGraph.RowLinksCount | docs/script.js:67-72 | row i has at most one link per partner j > i |
| SimilarityGraph.LinksUpToAgree | docs/script.js:66-73 | the links depend only on the similarities of the pairs i < j that the loops visit |
| SimilarityGraph.LinksUpToSound | docs/script.js:66-73 | every link of the first r rows comes from one of those rows and satisfies the row's condition |
| SimilarityGraph.LinksUpToComplete | docs/script.js:66-73 | every pair (i, j) with i < r and i < j whose similarity exceeds the threshold is linked |
| SimilarityGraph.LinksUpToOrdered | docs/script.js:66-73 | the links appear in strict (source, target) order |
| SimilarityGraph.LinksUpToCount | docs/script.js:66-73 | there are no more links than pairs visited |
| SimilarityGraph.PairsUpToValue | docs/script.js:66-67 | the loops visit rn - r(r+1)/2 pairs in their first r rows |
| SimilarityGraph.LinksArePairsAboveThreshold | docs/script.js:66-73 | a link exists for (i, j) exactly when i < j and the similarity strictly exceeds the threshold, and it carries that similarity; there are no self-links |
| SimilarityGraph.LinksInPairOrder | docs/script.js:66-73 | links come in strict (source, target) order, so no pair is linked twice |
| SimilarityGraph.LinkCount | docs/script.js:66-73 | there are at most n(n-1)/2 links |
| SimilarityGraph.CosineLinks | docs/script.js:66-73 | on document vectors, the links are exactly the pairs i < j with `cosineSimilarity(v[i], v[j]) > threshold`, each carrying that value |
| SimilarityGraph.ZeroVectorIsolated | docs/script.js:63-75 | with a non-negative threshold such as 0.1, a document whose vector has only zero weights (for example one without tokens) has no link |
| PrototypeKeys.CountsAsWritten | script.js:44-47 | the keys of the counts as the code builds them are among the tokens |
| PrototypeKeys.Read | script.js:46 | `counts[t]` gives the value of a key the object holds; for a missing key it gives undefined, or the inherited property for "constructor" and "__proto__" |
| PrototypeKeys.Bump | script.js:46 | the bumped count, `counts[t]` defaulted to 0 and plus one, is a number exactly when `counts[t]` was undefined or a number, and then it is that number plus one |
| PrototypeKeys.Write | script.js:46 | `counts[t] = v` sets key t to v and keeps every other key, except that for "__proto__" nothing is stored |
| PrototypeKeys.TfAsWritten | script.js:69 | `counts[term] / tokens.length` is a number exactly when the count is a number |
| PrototypeKeys.AgreesAwayFromPrototypeKeys | script.js:44-47 | without the tokens "constructor" and "__proto__", the plain-object counts equal the intended counts |
| PrototypeKeys.ProtoNeverCounted | script.js:44-47 | the token "__proto__" never becomes a key of the counts |
| PrototypeKeys.ConstructorGarbled | script.js:44-47 | the token "constructor" gets a non-numeric count, so its tf is NaN |
| PrototypeKeys.ConstructorExample | script.js:44-47 | for the document "constructor", the intended count and tf are 1; the code gives a non-numeric count and NaN |
| PrototypeKeys.ProtoExample | script.js:44-47 | for the document "__proto__", the intended counts hold the token; the code's counts are empty |
| PrototypeKeys.CountsAway | script.js:44-47 | a token other than "constructor" and "__proto__" is a key of the code's counts exactly when it occurs, and its count is its number of occurrences, whatever other tokens the document holds |
| PrototypeKeys.VectorOfCounts | script.js:66-72 | the vector pass gives a weight for exactly the own keys of the counts, and a weight is a number exactly when the count is one |
| PrototypeKeys.VectorAsWritten | script.js:66-72 | the code's vector of a document has keys among its tokens, namely the keys of its counts object |
| PrototypeKeys.NumbersOfVector | script.js:66-72 | the numeric weights of the code's vector are the intended weights without "constructor" and "__proto__": the first has a NaN weight, the second no key |
| PrototypeKeys.ConstructorVectorExample | script.js:66-72 | the document "constructor x" gets the vector {constructor: NaN, x: idf(x) / 2} |
| PrototypeKeys.ReadWeight | script.js:79 | `b[term]` gives b's own weight, number or NaN, for a key b holds; for a missing key, the inherited property exactly for "constructor" and "__proto__", and undefined otherwise |
| PrototypeKeys.AddTerm | script.js:79-80 | a falsy `b[term]` (undefined, 0 or NaN) leaves the sum unchanged; an inherited property, a NaN `a[term]` times a truthy weight, or a NaN sum gives NaN; otherwise the sum grows by `a[term] * b[term]` |
| PrototypeKeys.AddTermStep | script.js:79-80 | a term that does not turn the sum into NaN adds the product of the numeric weights of a and b, 0 when either lacks one |
| PrototypeKeys.DotAsWritten | script.js:76-82 | the `for...in` loop with `b[term]` read on a plain object is NaN exactly when some term of a meets a truthy `b[term]` that is inherited or is multiplied by a NaN `a[term]`, and otherwise the intended dot of the numeric weights of a and b |
| PrototypeKeys.DotAsWrittenAgrees | script.js:76-82 | without prototype names and NaN weights among the keys of a, the code's dot is the intended dot |
| PrototypeKeys.DotAsWrittenSelf | script.js:84-86 | `dot(v, v)`, and so `norm(v)`, is never NaN: it is the intended dot of v's numeric weights, so a NaN weight is left out of the norm |
| PrototypeKeys.DotAsWrittenAsymmetric | script.js:76-82 | when a holds "constructor" and b holds neither prototype name and only numbers, the code's `dot(a, b)` is NaN while `dot(b, a)` is the intended dot |
| PrototypeKeys.DotAsymmetryExample | script.js:76-82 | for a = {constructor: 0.5, x: 1} and b = {x: 1}, the code's `dot(a, b)` is NaN and `dot(b, a)` is 1 |
| PrototypeKeys.ConstructorDocumentDot | script.js:66-82 | for the code's vectors of a document with the token "constructor" and one without either prototype name, the dot is NaN in one order, and in the other the intended dot with "constructor" left out |
| PrototypeKeys.CosineAsWrittenValue | script.js:88-90 | the code's `cosineSimilarity` is NaN exactly when its `dot(a, b)` is, since the norms are never NaN |
| PrototypeKeys.CosineOfDots | script.js:88-90 | `dot(a, b) / (norm(a) * norm(b) || 1)` on the intended dots is the intended cosine similarity |
| PrototypeKeys.CosineAsWritten | script.js:88-90 | the code's `cosineSimilarity` is NaN exactly when a term of a turns `dot(a, b)` into NaN, and otherwise the intended cosine similarity of the numeric weights |
| PrototypeKeys.AboveAsWritten | docs/script.js:69 | `sim > threshold` is false for a NaN similarity, and otherwise the comparison of the number |
| PrototypeKeys.ConstructorPairNeverLinked | docs/script.js:66-73 | documents i < j where i has the token "constructor" and j neither prototype name are never linked, whatever the threshold; the other way round they are compared by the intended cosine similarity with "constructor" left out of the constructor document, in its dot with the other document and in its norm |

## Left out

- File reading (`readFile`, `readFiles`, text extraction from PDF) is I/O and is not modelled. The documents arrive as values.
- `categorizeDocuments` and the summary calls go to a remote language-model API and are not modelled. Categories and summaries are fields set by the caller.
- Rendering with D3, the DOM event handlers and `generate` are user-interface code and are not modelled.
- `app.jsx` and `src/main.py` are outside the engine and are not part of this model.
- IEEE-754 floating point is not modelled. Arithmetic is exact over the reals, so rounding, overflow and Infinity do not arise, and NaN appears only where `PrototypeKeys` models it explicitly. This includes `Number.isFinite` in tests/test.js:12.
- `Math.log` and `Math.sqrt` are parameters. The lemmas assume only what their requires state about them.
- `Tokenizer.LowerCase`: lower-cases ASCII letters only. JavaScript's `toLowerCase` applies the full Unicode mappings, which can change the tokens: "\u0130" (I with a dot above) becomes "i" followed by a combining dot, so a character that is not a word character yields the token "i", and "\u212A" (the Kelvin sign) becomes the word character "k". The model's tokens of such texts differ from the code's.
- The order in which `for...in` and `Object.keys` visit keys is abstracted away. Vectors are maps, and `dot` is a sum over a set of terms.
- `Similarity.Dot`: models the intended dot, the sum over the terms both vectors hold. The source's `b[term]` also reads properties that a plain object inherits: for a term "constructor" that b does not hold it yields the truthy function `Object`, and the product is NaN (see Findings, and `PrototypeKeys.DotAsWritten`). The test also skips NaN weights, and the code's vectors hold one for "constructor"; `PrototypeKeys` models both, on the vectors as the code builds them. `Similarity.DotSymmetric`, `Similarity.CosineSymmetric` and `SimilarityGraph.CosineLinks` are about the intended dot on the intended vectors.
- A document's `tokens`, `counts` and `vector` are modelled as empty before `computeTfIdf` runs. In JavaScript they are undefined.
- `doc.categories` is assumed to be an array of strings. A missing array makes `forEach` throw, and that path is not modelled.
- The Cauchy–Schwarz bound, under which cosine similarity lies in [-1, 1], is not proved.
- The node field `type` ('doc' or 'category') is the constructor of `CategoryGraph.Node`. The field is not stored separately.

## Findings

| source | as written | input that shows it | evidently intended | confidence | as-written member | corrected member |
|---|---|---|---|---|---|---|
| script.js:44-47 (also docs/script.js:15-18) | `counts` is a plain object `{}`, so `counts[t]` on a missing key falls through to Object.prototype. For the token "constructor" the inherited function is truthy and `+ 1` turns the count into a string, so its tf and weight are NaN. For "__proto__" the assignment is ignored and the token never gets a weight. | the text "constructor", or the text "__proto__" | every token is counted by its occurrences, for example with a `Map` or `Object.create(null)` | medium, not executed | PrototypeKeys.ConstructorExample, PrototypeKeys.ProtoExample | TfIdf.CountTerms |
| script.js:76-82 (also docs/script.js:47-53) | `dot` reads `b[term]` on a plain object. For a term "constructor" that b does not hold, this yields the inherited function `Object`, which is truthy, so `a[term] * b[term]` is NaN and so is the whole sum. `dot` and `cosineSimilarity` are then not symmetric, and `buildGraph` of docs/script.js drops the pair (i, j) when document i has the token "constructor" and document j does not, but not the other way round. There the NaN weight of "constructor" is falsy, so it is skipped in the dot and in the norm of document i. | a = {constructor: 0.5, x: 1}, b = {x: 1}: `dot(a, b)` is NaN, `dot(b, a)` is 1 | b's own weights only, for example `if (Object.hasOwn(b, term) && b[term])`, giving the sum over the shared terms | medium, not executed | PrototypeKeys.DotAsymmetryExample, PrototypeKeys.ConstructorPairNeverLinked | Similarity.Dot |
