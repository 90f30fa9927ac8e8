/** The corpus scans of `AdvancedSimilarityDetector`: every pair of stored documents, the
    plagiarism scan over bids, comparison against a template, nearest neighbours of one
    document and one company's internal similarity. The document store is an input. */
module Scanner {
  import opened Wrappers
  import Seqs
  import Pairs
  import Sorting
  import opened Ensemble

  /** A stored record. None is a key the record lacks; "" is a missing, None or empty text. */
  datatype Document = Document(
    fileName: Option<string>,  // 文件名
    fileType: Option<string>,  // 文件类型
    text: string,
    content: string,
    bidder: Option<string>,    // 投标单位
    purchaser: Option<string>) // 采购人名称

  /** The message a scan returns when the store holds fewer than two documents. */
  datatype Shortage = TooFewDocuments

  /** The values of the `Some` entries, in order. */
  function Somes<T(==,!new)>(s: seq<Option<T>>): (r: seq<T>)
    ensures |r| <= |s|
    ensures forall x :: x in r <==> Some(x) in s
  {
    if |s| == 0 then []
    else (match s[0] case Some(x) => [x] case None => []) + Somes(s[1..])
  }

  /** Each value wrapped back into `Some`. */
  function Wrap<T>(s: seq<T>): (r: seq<Option<T>>)
    ensures |r| == |s| && forall k :: 0 <= k < |s| ==> r[k] == Some(s[k])
  {
    seq(|s|, k requires 0 <= k < |s| => Some(s[k]))
  }

  /** `Somes` keeps every value as often as it occurs. */
  lemma {:induction false} SomesCount<T(!new)>(s: seq<Option<T>>)
    ensures forall x :: multiset(Somes(s))[x] == multiset(s)[Some(x)]
    decreases |s|
  {
    if |s| > 0 {
      SomesCount(s[1..]);
      assert s == [s[0]] + s[1..];
      if s[0].Some? {
        assert Somes(s) == [s[0].value] + Somes(s[1..]);
      } else {
        assert Somes(s) == Somes(s[1..]);
      }
    }
  }

  /** `Somes` keeps the values in their original order. */
  lemma {:induction false} SomesInOrder<T(!new)>(s: seq<Option<T>>)
    ensures Seqs.IsSubsequence(Wrap(Somes(s)), s)
    decreases |s|
  {
    if |s| > 0 {
      SomesInOrder(s[1..]);
      var w := Wrap(Somes(s));
      if s[0].Some? {
        assert Somes(s) == [s[0].value] + Somes(s[1..]);
        assert w[0] == s[0];
        assert w[1..] == Wrap(Somes(s[1..]));
      } else {
        assert Somes(s) == Somes(s[1..]);
        assert |w| > 0 ==> w[0] != s[0];
      }
    }
  }

  /** A list is empty exactly when nothing is in it. */
  lemma EmptyIffNoMembers<T>(s: seq<T>)
    ensures s == [] <==> forall x :: x !in s
  {
    if s != [] {
      assert s[0] in s;
    }
  }

  // ---- detect_similar_documents ----

  datatype DocInfo = DocInfo(fileName: string, fileType: string)

  datatype SimilarPair = SimilarPair(
    doc1: DocInfo, doc2: DocInfo, score: real, detailed: map<Metric, real>, highlySimilar: bool)

  function SimilarScore(p: SimilarPair): real { p.score }

  function Info(d: Document): DocInfo {
    DocInfo(d.fileName.GetOr("unknown"), d.fileType.GetOr("unknown"))
  }

  /** The result entry for one compared pair; "highly similar" is a strict 0.8. */
  function SimilarRecord(d1: Document, d2: Document, methods: seq<string>, o: Oracles): (p: SimilarPair)
    ensures p.highlySimilar <==> p.score > 0.8
    ensures p.detailed.Keys == Selected(methods)
    ensures 0.0 <= p.score <= WeightOf(Selected(methods))
  {
    var c := Compare(d1.text, d2.text, methods, o);
    SimilarPair(Info(d1), Info(d2), c.overall, c.detailed, c.overall > 0.8)
  }

  function SimilarRecordOf(methods: seq<string>, o: Oracles): (Document, Document) -> SimilarPair {
    (d1, d2) => SimilarRecord(d1, d2, methods, o)
  }

  /** The documents with a non-empty text, in store order. */
  function WithText(records: seq<Document>): seq<Document> {
    Seqs.Filter(records, (d: Document) => |d.text| > 0)
  }

  function SimilarAbove(threshold: real): SimilarPair -> bool {
    (p: SimilarPair) => p.score > threshold
  }

  /** The kept pairs in the order the nested loop finds them, before sorting. */
  function SimilarCandidates(records: seq<Document>, threshold: real, methods: seq<string>, o: Oracles): seq<SimilarPair> {
    Seqs.Filter(Pairs.PairMap(WithText(records), SimilarRecordOf(methods, o)), SimilarAbove(threshold))
  }

  /** `detect_similar_documents`. The count check looks at all records, before the documents
      without text are dropped. */
  function DetectSimilarDocuments(records: seq<Document>, threshold: real, methods: seq<string>, o: Oracles)
    : (r: Result<seq<SimilarPair>, Shortage>)
    ensures r.Failure? <==> |records| < 2
    ensures r.Success? ==> Sorting.SortedDesc(r.value, SimilarScore)
    ensures r.Success? ==> |r.value| <= |WithText(records)| * (|WithText(records)| - 1) / 2
    ensures r.Success? ==> forall p :: p in r.value <==>
      (&& p.score > threshold
       && exists i, j :: 0 <= i < j < |WithText(records)|
            && p == SimilarRecord(WithText(records)[i], WithText(records)[j], methods, o))
    ensures r.Success? ==> forall p :: p in r.value ==> (p.highlySimilar <==> p.score > 0.8)
  {
    if |records| < 2 then Failure(TooFewDocuments)
    else
      Pairs.PairMapMembers(WithText(records), SimilarRecordOf(methods, o));
      Pairs.IndexPairsCount(|WithText(records)|);
      Success(Sorting.SortDesc(SimilarCandidates(records, threshold, methods, o), SimilarScore))
  }

  /** Pairs with equal scores are reported in the order the nested loop found them. */
  lemma SimilarTiesInScanOrder(records: seq<Document>, threshold: real, methods: seq<string>, o: Oracles, v: real)
    requires |records| >= 2
    ensures Sorting.WithKey(DetectSimilarDocuments(records, threshold, methods, o).value, SimilarScore, v)
         == Sorting.WithKey(SimilarCandidates(records, threshold, methods, o), SimilarScore, v)
  {
    Sorting.SortIsStable(SimilarCandidates(records, threshold, methods, o), SimilarScore, v);
  }

  /** Each pair is reported exactly as often as the nested loop keeps it. */
  lemma SimilarCounts(records: seq<Document>, threshold: real, methods: seq<string>, o: Oracles)
    requires |records| >= 2
    ensures multiset(DetectSimilarDocuments(records, threshold, methods, o).value)
         == multiset(SimilarCandidates(records, threshold, methods, o))
  {
    Sorting.SortCounts(SimilarCandidates(records, threshold, methods, o), SimilarScore);
  }

  /** With the default methods no threshold of 0.7 or more keeps any pair. */
  lemma SimilarDefaultsFindNothing(records: seq<Document>, threshold: real, o: Oracles)
    requires |records| >= 2 && threshold >= 0.7
    ensures DetectSimilarDocuments(records, threshold, DefaultMethods, o) == Success([])
  {
    var r := DetectSimilarDocuments(records, threshold, DefaultMethods, o).value;
    forall p | p in r ensures false {
      var e := WithText(records);
      var i, j :| 0 <= i < j < |e| && p == SimilarRecord(e[i], e[j], DefaultMethods, o);
      DefaultRecordBelow(e[i], e[j], o);
    }
    EmptyIffNoMembers(r);
  }

  lemma DefaultRecordBelow(d1: Document, d2: Document, o: Oracles)
    ensures SimilarRecord(d1, d2, DefaultMethods, o).score <= 0.7
  {
    DefaultMethodsNeverSimilar(d1.text, d2.text, o);
  }

  /** Two records, but fewer than two of them with text: an empty list, not the message. */
  lemma TextlessRecordsGiveEmptyList(records: seq<Document>, threshold: real, methods: seq<string>, o: Oracles)
    requires |records| >= 2 && |WithText(records)| < 2
    ensures DetectSimilarDocuments(records, threshold, methods, o) == Success([])
  {
    var r := DetectSimilarDocuments(records, threshold, methods, o).value;
    EmptyIffNoMembers(r);
  }

  // ---- detect_bidding_plagiarism ----

  datatype PlagiarismCase = PlagiarismCase(
    company1: string, company2: string, file1: Option<string>, file2: Option<string>,
    score: real, risk: Risk)

  function CaseScore(c: PlagiarismCase): real { c.score }

  /** One pair of bids: skipped unless both have content, kept when it beats the threshold.
      Scored with the default methods, a kept case never exceeds 0.7. */
  function PlagiarismCheck(d1: Document, d2: Document, threshold: real, o: Oracles): (r: Option<PlagiarismCase>)
    ensures r.Some? <==> |d1.content| > 0 && |d2.content| > 0
                         && Compare(d1.content, d2.content, DefaultMethods, o).overall > threshold
    ensures r.Some? ==> threshold < r.value.score <= 0.7
    ensures r.Some? ==> (r.value.risk == HighRisk <==> r.value.score > 0.8)
  {
    DefaultMethodsNeverSimilar(d1.content, d2.content, o);
    if |d1.content| > 0 && |d2.content| > 0 then
      var s := Compare(d1.content, d2.content, DefaultMethods, o).overall;
      if s > threshold then
        Some(PlagiarismCase(d1.bidder.GetOr("unknown"), d2.bidder.GetOr("unknown"),
                            d1.fileName, d2.fileName, s, PlagiarismRisk(s)))
      else None
    else None
  }

  function PlagiarismCheckOf(threshold: real, o: Oracles): (Document, Document) -> Option<PlagiarismCase> {
    (d1, d2) => PlagiarismCheck(d1, d2, threshold, o)
  }

  /** `detect_bidding_plagiarism` over the stored bids, always with the default methods. */
  function DetectBiddingPlagiarism(bids: seq<Document>, threshold: real, o: Oracles)
    : (r: Result<seq<PlagiarismCase>, Shortage>)
    ensures r.Failure? <==> |bids| < 2
    ensures r.Success? ==> Sorting.SortedDesc(r.value, CaseScore)
    ensures r.Success? ==> forall c :: c in r.value ==> threshold < c.score <= 0.7
    ensures r.Success? ==> forall c :: c in r.value ==> (c.risk == HighRisk <==> c.score > 0.8)
    ensures r.Success? ==> forall c :: c in r.value <==>
      exists i, j :: 0 <= i < j < |bids| && Some(c) == PlagiarismCheck(bids[i], bids[j], threshold, o)
  {
    if |bids| < 2 then Failure(TooFewDocuments)
    else
      var found := Somes(Pairs.PairMap(bids, PlagiarismCheckOf(threshold, o)));
      PlagiarismFound(bids, threshold, o);
      Success(Sorting.SortDesc(found, CaseScore))
  }

  /** Cases with equal scores are reported in the order the nested loop found them. */
  lemma PlagiarismTiesInScanOrder(bids: seq<Document>, threshold: real, o: Oracles, v: real)
    requires |bids| >= 2
    ensures Sorting.WithKey(DetectBiddingPlagiarism(bids, threshold, o).value, CaseScore, v)
         == Sorting.WithKey(Somes(Pairs.PairMap(bids, PlagiarismCheckOf(threshold, o))), CaseScore, v)
  {
    Sorting.SortIsStable(Somes(Pairs.PairMap(bids, PlagiarismCheckOf(threshold, o))), CaseScore, v);
  }

  /** Each case is reported exactly as often as the pair checks produce it. */
  lemma PlagiarismCounts(bids: seq<Document>, threshold: real, o: Oracles)
    requires |bids| >= 2
    ensures forall c :: multiset(DetectBiddingPlagiarism(bids, threshold, o).value)[c]
                        == multiset(Pairs.PairMap(bids, PlagiarismCheckOf(threshold, o)))[Some(c)]
  {
    var checks := Pairs.PairMap(bids, PlagiarismCheckOf(threshold, o));
    Sorting.SortCounts(Somes(checks), CaseScore);
    SomesCount(checks);
  }

  /** The cases the scan finds, before sorting: exactly the pairs that qualify, each above the
      threshold and rated high risk exactly when it scores above 0.8. */
  lemma PlagiarismFound(bids: seq<Document>, threshold: real, o: Oracles)
    ensures forall c: PlagiarismCase :: c in Somes(Pairs.PairMap(bids, PlagiarismCheckOf(threshold, o))) <==>
      exists i, j :: 0 <= i < j < |bids| && Some(c) == PlagiarismCheck(bids[i], bids[j], threshold, o)
    ensures forall c: PlagiarismCase :: c in Somes(Pairs.PairMap(bids, PlagiarismCheckOf(threshold, o))) ==>
      threshold < c.score <= 0.7 && (c.risk == HighRisk <==> c.score > 0.8)
  {
    var found := Pairs.PairMap(bids, PlagiarismCheckOf(threshold, o));
    Pairs.PairMapMembers(bids, PlagiarismCheckOf(threshold, o));
    forall c: PlagiarismCase | c in Somes(found) ensures threshold < c.score <= 0.7 && (c.risk == HighRisk <==> c.score > 0.8) {
      assert Some(c) in found;
      var i, j :| 0 <= i < j < |bids| && Some(c) == PlagiarismCheck(bids[i], bids[j], threshold, o);
      PlagiarismCheckKept(bids[i], bids[j], threshold, o, c);
    }
  }

  lemma PlagiarismCheckKept(d1: Document, d2: Document, threshold: real, o: Oracles, c: PlagiarismCase)
    requires Some(c) == PlagiarismCheck(d1, d2, threshold, o)
    ensures threshold < c.score <= 0.7 && (c.risk == HighRisk <==> c.score > 0.8)
  {
  }

  /** At its default threshold of 0.7 the plagiarism scan never reports anything. */
  lemma PlagiarismDefaultFindsNothing(bids: seq<Document>, o: Oracles)
    requires |bids| >= 2
    ensures DetectBiddingPlagiarism(bids, 0.7, o) == Success([])
  {
    var r := DetectBiddingPlagiarism(bids, 0.7, o).value;
    EmptyIffNoMembers(r);
  }

  // ---- compare_with_template ----

  datatype TemplateError = DocumentNotFound | EmptyContent

  datatype TemplateReport = TemplateReport(
    targetFile: string, templateFile: string, comparison: Comparison, recommendation: string)

  /** `compare_with_template`, given the results of looking both names up. */
  function CompareWithTemplate(targetName: string, templateName: string,
                               target: Option<Document>, template: Option<Document>,
                               methods: seq<string>, o: Oracles)
    : (r: Result<TemplateReport, TemplateError>)
    ensures r == Failure(DocumentNotFound) <==> target.None? || template.None?
    ensures r == Failure(EmptyContent) <==>
      target.Some? && template.Some? && (|target.value.content| == 0 || |template.value.content| == 0)
    ensures r.Success? ==>
      && r.value.targetFile == targetName && r.value.templateFile == templateName
      && r.value.comparison == Compare(target.value.content, template.value.content, methods, o)
      && r.value.recommendation == Message(Recommend(r.value.comparison.overall))
  {
    if target.None? || template.None? then Failure(DocumentNotFound)
    else if |target.value.content| == 0 || |template.value.content| == 0 then Failure(EmptyContent)
    else
      var c := Compare(target.value.content, template.value.content, methods, o);
      Success(TemplateReport(targetName, templateName, c, Message(Recommend(c.overall))))
  }

  /** With its default methods the template comparison always recommends the lowest band. */
  lemma TemplateDefaultsRecommendLowest(targetName: string, templateName: string,
                                        target: Option<Document>, template: Option<Document>, o: Oracles)
    requires CompareWithTemplate(targetName, templateName, target, template, TemplateMethods, o).Success?
    ensures CompareWithTemplate(targetName, templateName, target, template, TemplateMethods, o).value.recommendation
         == Message(Minimal)
  {
    TemplateDefaultsLowestBand(target.value.content, template.value.content, o);
  }

  // ---- find_similar_to_document ----

  datatype Neighbour = Neighbour(
    fileName: Option<string>, fileType: Option<string>, company: Option<string>, score: real)

  function NeighbourScore(x: Neighbour): real { x.score }

  /** `doc.get('采购人名称', doc.get('投标单位'))`. */
  function Company(d: Document): Option<string> {
    if d.purchaser.Some? then d.purchaser else d.bidder
  }

  function NeighbourOf(target: Document, d: Document, o: Oracles): Neighbour {
    Neighbour(d.fileName, d.fileType, Company(d), Compare(target.content, d.content, DefaultMethods, o).overall)
  }

  /** A stored document other than the target (by name) that has content. */
  predicate Eligible(name: string, d: Document) {
    d.fileName != Some(name) && |d.content| > 0
  }

  /** Every eligible document above the threshold, in store order. */
  function Neighbours(name: string, target: Document, corpus: seq<Document>, threshold: real, o: Oracles)
    : (r: seq<Neighbour>)
    ensures forall x :: x in r <==>
      exists d :: d in corpus && Eligible(name, d) && x == NeighbourOf(target, d, o) && x.score > threshold
  {
    if |corpus| == 0 then []
    else
      var d := corpus[0];
      var x := NeighbourOf(target, d, o);
      (if Eligible(name, d) && x.score > threshold then [x] else [])
        + Neighbours(name, target, corpus[1..], threshold, o)
  }

  datatype LookupError = TargetMissingOrEmpty

  /** `find_similar_to_document`: the `top_n` best-scoring other documents (Python slice
      semantics, so a negative `top_n` drops from the end): a leading part of the qualifying
      neighbours sorted by descending score, `min(top_n, n)` of them, or `n + top_n` when
      `top_n` is negative. */
  function FindSimilarToDocument(name: string, target: Option<Document>, corpus: seq<Document>,
                                 threshold: real, topN: int, o: Oracles)
    : (r: Result<seq<Neighbour>, LookupError>)
    ensures r.Failure? <==> target.None? || |target.value.content| == 0
    ensures r.Success? ==> Sorting.SortedDesc(r.value, NeighbourScore)
    ensures r.Success? && topN >= 0 ==> |r.value| <= topN
    ensures r.Success? ==>
      var n := |Neighbours(name, target.value, corpus, threshold, o)|;
      |r.value| == if topN >= 0 then (if topN < n then topN else n) else (if n + topN > 0 then n + topN else 0)
    ensures r.Success? ==>
      r.value == Sorting.SortDesc(Neighbours(name, target.value, corpus, threshold, o), NeighbourScore)[..|r.value|]
    ensures r.Success? ==> forall x :: x in r.value ==>
      && x.score > threshold && x.fileName != Some(name)
      && exists d :: d in corpus && Eligible(name, d) && x == NeighbourOf(target.value, d, o)
  {
    if target.None? || |target.value.content| == 0 then Failure(TargetMissingOrEmpty)
    else
      var ns := Neighbours(name, target.value, corpus, threshold, o);
      var sorted := Sorting.SortDesc(ns, NeighbourScore);
      assert |sorted| == |ns|;
      Success(Seqs.PrefixSlice(sorted, topN))
  }

  /** A prefix of a list sorted by descending score: whatever is cut off scores no higher
      than whatever is kept. */
  lemma PrefixKeepsTheBest(sorted: seq<Neighbour>, r: seq<Neighbour>, y: Neighbour)
    requires Sorting.SortedDesc(sorted, NeighbourScore)
    requires |r| <= |sorted| && r == sorted[..|r|]
    requires y in sorted && y !in r
    ensures forall x :: x in r ==> y.score <= x.score
  {
    var l :| 0 <= l < |sorted| && sorted[l] == y;
    assert l >= |r|;
    forall x | x in r ensures y.score <= x.score {
      var k :| 0 <= k < |r| && r[k] == x;
      assert sorted[k] == x && NeighbourScore(sorted[k]) >= NeighbourScore(sorted[l]);
    }
  }

  /** The top-N cut keeps the best: a qualifying neighbour left out scores no higher than any
      kept one. */
  lemma FindSimilarKeepsTheBest(name: string, target: Document, corpus: seq<Document>,
                                threshold: real, topN: int, o: Oracles, y: Neighbour)
    requires |target.content| > 0
    requires y in Neighbours(name, target, corpus, threshold, o)
    requires y !in FindSimilarToDocument(name, Some(target), corpus, threshold, topN, o).value
    ensures forall x :: x in FindSimilarToDocument(name, Some(target), corpus, threshold, topN, o).value ==>
      y.score <= x.score
  {
    var sorted := Sorting.SortDesc(Neighbours(name, target, corpus, threshold, o), NeighbourScore);
    PrefixKeepsTheBest(sorted, Seqs.PrefixSlice(sorted, topN), y);
  }

  /** With `top_n` at least the size of the store nothing that qualifies is cut. */
  lemma FindSimilarLargeTopNKeepsAll(name: string, target: Document, corpus: seq<Document>,
                                     threshold: real, topN: int, o: Oracles, y: Neighbour)
    requires |target.content| > 0 && topN >= |corpus|
    requires y in Neighbours(name, target, corpus, threshold, o)
    ensures y in FindSimilarToDocument(name, Some(target), corpus, threshold, topN, o).value
  {
    NeighboursLength(name, target, corpus, threshold, o);
  }

  lemma {:induction false} NeighboursLength(name: string, target: Document, corpus: seq<Document>, threshold: real, o: Oracles)
    ensures |Neighbours(name, target, corpus, threshold, o)| <= |corpus|
  {
    if |corpus| > 0 {
      NeighboursLength(name, target, corpus[1..], threshold, o);
    }
  }

  // ---- company_similarity_analysis ----

  datatype CompanyPair = CompanyPair(file1: Option<string>, file2: Option<string>, score: real, analysis: seq<Pattern>)

  datatype CompanyReport = CompanyReport(company: string, totalDocuments: nat, similarPairs: nat, details: seq<CompanyPair>)

  /** One pair of the company's documents: skipped unless both have content, kept when it beats
      the threshold; with the default methods it is never tagged structural or semantic. */
  function CompanyCheck(d1: Document, d2: Document, threshold: real, o: Oracles): (r: Option<CompanyPair>)
    ensures r.Some? <==> |d1.content| > 0 && |d2.content| > 0
                         && Compare(d1.content, d2.content, DefaultMethods, o).overall > threshold
    ensures r.Some? ==> threshold < r.value.score <= 0.7
    ensures r.Some? ==> StructuralMatch !in r.value.analysis && SemanticMatch !in r.value.analysis
  {
    DefaultMethodsNeverSimilar(d1.content, d2.content, o);
    DefaultPatterns(d1.content, d2.content, o);
    if |d1.content| > 0 && |d2.content| > 0 then
      var c := Compare(d1.content, d2.content, DefaultMethods, o);
      if c.overall > threshold then
        Some(CompanyPair(d1.fileName, d2.fileName, c.overall, AnalyzePattern(c.detailed)))
      else None
    else None
  }

  function CompanyCheckOf(threshold: real, o: Oracles): (Document, Document) -> Option<CompanyPair> {
    (d1, d2) => CompanyCheck(d1, d2, threshold, o)
  }

  /** The pairs a company scan keeps beat the threshold and, compared with the default
      methods, are never tagged as structural or semantic matches. */
  lemma CompanyDetailsDefaultPatterns(docs: seq<Document>, threshold: real, o: Oracles)
    ensures forall p: CompanyPair :: p in Somes(Pairs.PairMap(docs, CompanyCheckOf(threshold, o))) ==>
      p.score > threshold && StructuralMatch !in p.analysis && SemanticMatch !in p.analysis
  {
    var found := Pairs.PairMap(docs, CompanyCheckOf(threshold, o));
    Pairs.PairMapMembers(docs, CompanyCheckOf(threshold, o));
    forall p: CompanyPair | p in Somes(found)
      ensures p.score > threshold && StructuralMatch !in p.analysis && SemanticMatch !in p.analysis
    {
      assert Some(p) in found;
      var i, j :| 0 <= i < j < |docs| && Some(p) == CompanyCheck(docs[i], docs[j], threshold, o);
      CompanyCheckPatterns(docs[i], docs[j], threshold, o, p);
    }
  }

  lemma CompanyCheckPatterns(d1: Document, d2: Document, threshold: real, o: Oracles, p: CompanyPair)
    requires Some(p) == CompanyCheck(d1, d2, threshold, o)
    ensures p.score > threshold && StructuralMatch !in p.analysis && SemanticMatch !in p.analysis
  {
    DefaultPatterns(d1.content, d2.content, o);
  }

  /** `company_similarity_analysis` over the company's documents; the details stay in scan
      order (this scan does not sort): each pair the scan keeps appears once per time it is
      found, in the order the nested loop finds it. */
  function CompanySimilarityAnalysis(company: string, docs: seq<Document>, threshold: real, o: Oracles)
    : (r: Result<CompanyReport, Shortage>)
    ensures r.Failure? <==> |docs| < 2
    ensures r.Success? ==>
      && r.value.company == company
      && r.value.totalDocuments == |docs|
      && r.value.similarPairs == |r.value.details|
      && r.value.similarPairs <= |docs| * (|docs| - 1) / 2
    ensures r.Success? ==> forall p :: p in r.value.details <==>
      exists i, j :: 0 <= i < j < |docs| && Some(p) == CompanyCheck(docs[i], docs[j], threshold, o)
    ensures r.Success? ==> forall p :: p in r.value.details ==>
      p.score > threshold && StructuralMatch !in p.analysis && SemanticMatch !in p.analysis
    ensures r.Success? ==> forall p ::
      multiset(r.value.details)[p] == multiset(Pairs.PairMap(docs, CompanyCheckOf(threshold, o)))[Some(p)]
    ensures r.Success? ==> Seqs.IsSubsequence(Wrap(r.value.details), Pairs.PairMap(docs, CompanyCheckOf(threshold, o)))
  {
    if |docs| < 2 then Failure(TooFewDocuments)
    else
      var found := Pairs.PairMap(docs, CompanyCheckOf(threshold, o));
      Pairs.PairMapMembers(docs, CompanyCheckOf(threshold, o));
      Pairs.IndexPairsCount(|docs|);
      var details := Somes(found);
      CompanyDetailsDefaultPatterns(docs, threshold, o);
      SomesCount(found);
      SomesInOrder(found);
      Success(CompanyReport(company, |docs|, |details|, details))
  }
}
