/** `AdvancedSimilarityDetector`'s scoring half: the name-keyed metric registry, the fixed
    weight table, `comprehensive_similarity`, the five-band recommendation, the HIGH/MEDIUM
    plagiarism label and the pattern tags. */
module Ensemble {
  import opened Wrappers
  import Metrics

  /** A similarity in [0, 1]. */
  type Score = r: real | 0.0 <= r <= 1.0 witness 0.0

  /** A library-backed metric (`tfidf_similarity`, `bert_similarity`) seen from outside:
      its score, or None when the call raises. */
  type Oracle = (string, string) -> Option<Score>

  datatype Oracles = Oracles(tfidf: Oracle, bert: Oracle)

  /** The five registered metrics, `self.methods` in registration order. */
  datatype Metric = Tfidf | Levenshtein | Ngram | Structure | Bert

  /** The registry key of each metric. */
  function Name(m: Metric): string {
    match m
    case Tfidf => "tfidf"
    case Levenshtein => "levenshtein"
    case Ngram => "ngram"
    case Structure => "structure"
    case Bert => "bert"
  }

  const Registry: seq<Metric> := [Tfidf, Levenshtein, Ngram, Structure, Bert]

  /** `self.weights`; every registered name has an entry, so the `.get(..., 0.2)` default is never taken. */
  function Weight(m: Metric): real {
    match m
    case Tfidf => 0.3
    case Levenshtein => 0.2
    case Ngram => 0.2
    case Structure => 0.1
    case Bert => 0.2
  }

  /** The `methods` default of `comprehensive_similarity` and `detect_similar_documents`. */
  const DefaultMethods: seq<string> := ["tfidf", "levenshtein", "ngram"]

  /** The `methods` default of `compare_with_template`. */
  const TemplateMethods: seq<string> := ["tfidf", "bert"]

  /** The metrics `comprehensive_similarity` scores: requested names that are registered. */
  function Selected(methods: seq<string>): set<Metric> {
    set m | m in Registry && Name(m) in methods
  }

  /** The `try/except` around one metric: a raising metric is scored 0. */
  function Settle(outcome: Option<Score>): (r: real)
    ensures 0.0 <= r <= 1.0
    ensures outcome.None? ==> r == 0.0
  {
    match outcome
    case Some(s) => s
    case None => 0.0
  }

  /** `self.methods[m](text1, text2)` with the ngram default `n = 3`. */
  function MetricScore(m: Metric, a: string, b: string, o: Oracles): (r: real)
    ensures 0.0 <= r <= 1.0
  {
    match m
    case Tfidf => Settle(o.tfidf(a, b))
    case Levenshtein => Metrics.LevenshteinSimilarity(a, b)
    case Ngram => Metrics.NgramSimilarity(a, b, 3)
    case Structure => Metrics.StructureSimilarity(a, b)
    case Bert => Settle(o.bert(a, b))
  }

  /** The sum of the weights of the chosen metrics. */
  function WeightOf(chosen: set<Metric>): real {
    (if Tfidf in chosen then Weight(Tfidf) else 0.0)
    + (if Levenshtein in chosen then Weight(Levenshtein) else 0.0)
    + (if Ngram in chosen then Weight(Ngram) else 0.0)
    + (if Structure in chosen then Weight(Structure) else 0.0)
    + (if Bert in chosen then Weight(Bert) else 0.0)
  }

  lemma ScaleBound(s: real, w: real)
    requires 0.0 <= s <= 1.0 && 0.0 <= w
    ensures 0.0 <= s * w <= w
  {
  }

  /** One metric's term `scores[m] * weights[m]`, 0 when it was not scored. */
  function Contribution(m: Metric, chosen: set<Metric>, a: string, b: string, o: Oracles): (r: real)
    ensures 0.0 <= r <= (if m in chosen then Weight(m) else 0.0)
  {
    if m in chosen then
      ScaleBound(MetricScore(m, a, b, o), Weight(m));
      MetricScore(m, a, b, o) * Weight(m)
    else 0.0
  }

  /** The result of `comprehensive_similarity`. */
  datatype Comparison = Comparison(overall: real, detailed: map<Metric, real>, isSimilar: bool)

  /** The hard-coded `is_similar` threshold. */
  const SimilarThreshold: real := 0.7

  /** `sum(scores[m] * weights[m] for m in scores)`, taken over the metrics `ms` lists. */
  function WeightedSum(scores: map<Metric, real>, ms: seq<Metric>): real {
    if |ms| == 0 then 0.0
    else (if ms[0] in scores then scores[ms[0]] * Weight(ms[0]) else 0.0) + WeightedSum(scores, ms[1..])
  }

  /** `comprehensive_similarity`: unregistered names are skipped, each scored metric reports its
      own score, the overall score is the weighted sum over the scored metrics without
      renormalisation, and `is_similar` is a strict comparison with 0.7. */
  function Compare(a: string, b: string, methods: seq<string>, o: Oracles): (c: Comparison)
    ensures c.detailed.Keys == Selected(methods)
    ensures forall m :: m in c.detailed ==> c.detailed[m] == MetricScore(m, a, b, o)
    ensures forall m :: m in c.detailed ==> 0.0 <= c.detailed[m] <= 1.0
    ensures c.overall == WeightedSum(c.detailed, Registry)
    ensures 0.0 <= c.overall <= WeightOf(Selected(methods))
    ensures c.isSimilar <==> c.overall > SimilarThreshold
  {
    var chosen := Selected(methods);
    var overall := Contribution(Tfidf, chosen, a, b, o) + Contribution(Levenshtein, chosen, a, b, o)
      + Contribution(Ngram, chosen, a, b, o) + Contribution(Structure, chosen, a, b, o)
      + Contribution(Bert, chosen, a, b, o);
    var detailed := map m | m in chosen :: MetricScore(m, a, b, o);
    ContributionsAreWeightedSum(chosen, a, b, o);
    Comparison(overall, detailed, overall > SimilarThreshold)
  }

  /** The per-metric contributions add up to the weighted sum of the scores map. */
  lemma ContributionsAreWeightedSum(chosen: set<Metric>, a: string, b: string, o: Oracles)
    ensures WeightedSum(map m | m in chosen :: MetricScore(m, a, b, o), Registry)
         == Contribution(Tfidf, chosen, a, b, o) + Contribution(Levenshtein, chosen, a, b, o)
          + Contribution(Ngram, chosen, a, b, o) + Contribution(Structure, chosen, a, b, o)
          + Contribution(Bert, chosen, a, b, o)
  {
    var scores := map m | m in chosen :: MetricScore(m, a, b, o);
    var r := Registry;
    assert r[1..] == [Levenshtein, Ngram, Structure, Bert];
    assert r[1..][1..] == [Ngram, Structure, Bert];
    assert r[1..][1..][1..] == [Structure, Bert];
    assert r[1..][1..][1..][1..] == [Bert];
    assert [Bert][1..] == [];
    WeightedTerm(scores, r, chosen, a, b, o);
    WeightedTerm(scores, r[1..], chosen, a, b, o);
    WeightedTerm(scores, r[1..][1..], chosen, a, b, o);
    WeightedTerm(scores, r[1..][1..][1..], chosen, a, b, o);
    WeightedTerm(scores, r[1..][1..][1..][1..], chosen, a, b, o);
  }

  /** One step of the weighted sum: the first metric's contribution, then the rest. */
  lemma WeightedTerm(scores: map<Metric, real>, ms: seq<Metric>, chosen: set<Metric>, a: string, b: string, o: Oracles)
    requires |ms| > 0 && scores == map m | m in chosen :: MetricScore(m, a, b, o)
    ensures WeightedSum(scores, ms) == Contribution(ms[0], chosen, a, b, o) + WeightedSum(scores, ms[1..])
  {
  }

  lemma SelectedDefault()
    ensures Selected(DefaultMethods) == {Tfidf, Levenshtein, Ngram}
  {
    assert Name(Structure) !in DefaultMethods;
    assert Name(Bert) !in DefaultMethods;
    assert Name(Tfidf) == DefaultMethods[0];
    assert Name(Levenshtein) == DefaultMethods[1];
    assert Name(Ngram) == DefaultMethods[2];
  }

  lemma SelectedTemplate()
    ensures Selected(TemplateMethods) == {Tfidf, Bert}
  {
    assert Name(Levenshtein) !in TemplateMethods;
    assert Name(Ngram) !in TemplateMethods;
    assert Name(Structure) !in TemplateMethods;
    assert Name(Tfidf) == TemplateMethods[0];
    assert Name(Bert) == TemplateMethods[1];
  }

  /** With the default methods the weights in play sum to 0.3 + 0.2 + 0.2 = 0.7, so the overall
      score never exceeds 0.7 and `is_similar` (strictly above 0.7) is never true. */
  lemma DefaultMethodsNeverSimilar(a: string, b: string, o: Oracles)
    ensures Compare(a, b, DefaultMethods, o).overall <= 0.7
    ensures !Compare(a, b, DefaultMethods, o).isSimilar
  {
    SelectedDefault();
  }

  /** Requesting names outside the registry changes nothing. */
  lemma UnregisteredNamesIgnored(a: string, b: string, methods: seq<string>, extra: seq<string>, o: Oracles)
    requires forall k :: 0 <= k < |extra| ==> forall m :: m in Registry ==> Name(m) != extra[k]
    ensures Compare(a, b, methods + extra, o) == Compare(a, b, methods, o)
  {
    assert Selected(methods + extra) == Selected(methods);
  }

  /** Requesting a name twice scores it once. */
  lemma RepeatedNamesScoredOnce(a: string, b: string, methods: seq<string>, o: Oracles)
    requires |methods| > 0
    ensures Compare(a, b, methods + [methods[0]], o) == Compare(a, b, methods, o)
  {
    assert Selected(methods + [methods[0]]) == Selected(methods);
  }

  /** A metric that raises is recorded with score 0 and the comparison still completes. */
  lemma FailingMetricScoresZero(a: string, b: string, methods: seq<string>, o: Oracles)
    requires "tfidf" in methods && o.tfidf(a, b).None?
    ensures Tfidf in Compare(a, b, methods, o).detailed
    ensures Compare(a, b, methods, o).detailed[Tfidf] == 0.0
  {
  }

  /** Every metric scores the pair the same either way round, provided the library metrics do. */
  lemma MetricScoreSymmetric(m: Metric, a: string, b: string, o: Oracles)
    requires o.tfidf(a, b) == o.tfidf(b, a) && o.bert(a, b) == o.bert(b, a)
    ensures MetricScore(m, a, b, o) == MetricScore(m, b, a, o)
  {
    match m
    case Levenshtein => Metrics.LevenshteinSymmetric(a, b);
    case Ngram => Metrics.NgramSymmetric(a, b, 3);
    case Structure => Metrics.StructureSymmetric(a, b);
    case _ =>
  }

  /** With library metrics that are symmetric on the pair, the whole comparison is symmetric. */
  lemma CompareSymmetric(a: string, b: string, methods: seq<string>, o: Oracles)
    requires o.tfidf(a, b) == o.tfidf(b, a) && o.bert(a, b) == o.bert(b, a)
    ensures Compare(a, b, methods, o) == Compare(b, a, methods, o)
  {
    var chosen := Selected(methods);
    forall m ensures Contribution(m, chosen, a, b, o) == Contribution(m, chosen, b, a, o) {
      MetricScoreSymmetric(m, a, b, o);
    }
    var ab := map m | m in chosen :: MetricScore(m, a, b, o);
    var ba := map m | m in chosen :: MetricScore(m, b, a, o);
    forall m | m in chosen ensures ab[m] == ba[m] {
      MetricScoreSymmetric(m, a, b, o);
    }
    assert ab == ba;
  }

  /** Identical texts (at least one trigram long, and scored 1 by the library metrics) reach
      exactly the weight of the selected metrics, not 1. */
  lemma CompareIdentical(t: string, methods: seq<string>, o: Oracles)
    requires |t| >= 3
    requires o.tfidf(t, t) == Some(1.0) && o.bert(t, t) == Some(1.0)
    ensures Compare(t, t, methods, o).overall == WeightOf(Selected(methods))
  {
    IdenticalScoresOne(t, o);
    var chosen := Selected(methods);
    assert forall m :: Contribution(m, chosen, t, t, o) == if m in chosen then Weight(m) else 0.0;
  }

  /** Every metric scores a text against itself as 1. */
  lemma IdenticalScoresOne(t: string, o: Oracles)
    requires |t| >= 3
    requires o.tfidf(t, t) == Some(1.0) && o.bert(t, t) == Some(1.0)
    ensures forall m :: MetricScore(m, t, t, o) == 1.0
  {
    Metrics.NgramIdentical(t, 3);
    Metrics.StructureIdentical(t);
    assert Metrics.LevenshteinSimilarity(t, t) == 1.0;
  }

  /** So with the default methods two byte-identical documents score exactly 0.7 and are not
      `is_similar`. */
  lemma IdenticalDefaultNotSimilar(t: string, o: Oracles)
    requires |t| >= 3
    requires o.tfidf(t, t) == Some(1.0) && o.bert(t, t) == Some(1.0)
    ensures Compare(t, t, DefaultMethods, o).overall == 0.7
    ensures !Compare(t, t, DefaultMethods, o).isSimilar
  {
    CompareIdentical(t, DefaultMethods, o);
    SelectedDefault();
  }

  // ---- _get_similarity_recommendation ----

  /** The five recommendation bands, from "very high, probably copied" down to "very low". */
  datatype Band = VeryHigh | High | Medium | Low | Minimal

  function Rank(b: Band): nat {
    match b
    case Minimal => 0
    case Low => 1
    case Medium => 2
    case High => 3
    case VeryHigh => 4
  }

  /** The recommendation text of each band. */
  function Message(b: Band): string {
    match b
    case VeryHigh => "极高相似度，可能存在直接复制"
    case High => "高相似度，需要进一步审查"
    case Medium => "中等相似度，可能存在参考借鉴"
    case Low => "低相似度，属于正常范围"
    case Minimal => "相似度很低，内容差异较大"
  }

  /** How many of the band edges 0.5, 0.7, 0.8, 0.9 the score lies strictly above. */
  function EdgesBelow(score: real): nat {
    (if score > 0.5 then 1 else 0) + (if score > 0.7 then 1 else 0)
    + (if score > 0.8 then 1 else 0) + (if score > 0.9 then 1 else 0)
  }

  /** `_get_similarity_recommendation`: the bands are checked from the top, each strictly,
      so the band is the number of edges the score exceeds. */
  function Recommend(score: real): (b: Band)
    ensures Rank(b) == EdgesBelow(score)
  {
    if score > 0.9 then VeryHigh
    else if score > 0.8 then High
    else if score > 0.7 then Medium
    else if score > 0.5 then Low
    else Minimal
  }

  /** A higher score never gets a lower band. */
  lemma RecommendMonotone(s1: real, s2: real)
    requires s1 <= s2
    ensures Rank(Recommend(s1)) <= Rank(Recommend(s2))
  {
  }

  /** `compare_with_template`'s default methods weigh 0.3 + 0.2, so its recommendation is
      always the lowest band. */
  lemma TemplateDefaultsLowestBand(a: string, b: string, o: Oracles)
    ensures Compare(a, b, TemplateMethods, o).overall <= 0.5
    ensures Recommend(Compare(a, b, TemplateMethods, o).overall) == Minimal
  {
    SelectedTemplate();
  }

  /** The `plagiarism_risk` label of `detect_bidding_plagiarism`. */
  datatype Risk = HighRisk | MediumRisk

  /** HIGH exactly when the score is in one of the two top recommendation bands. */
  function PlagiarismRisk(score: real): (r: Risk)
    ensures r == HighRisk <==> Rank(Recommend(score)) >= Rank(High)
  {
    if score > 0.8 then HighRisk else MediumRisk
  }

  // ---- _analyze_similarity_pattern ----

  /** "Heavy lexical repetition", "structurally alike", "semantically alike", "ordinary similarity". */
  datatype Pattern = LexicalRepetition | StructuralMatch | SemanticMatch | Ordinary

  /** `scores.get(name, 0)`. */
  function ScoreOf(detailed: map<Metric, real>, m: Metric): real {
    if m in detailed then detailed[m] else 0.0
  }

  /** `_analyze_similarity_pattern`: one tag per library/structure metric above 0.8, in that
      order, or the single "ordinary" tag when there is none. */
  function AnalyzePattern(detailed: map<Metric, real>): (r: seq<Pattern>)
    ensures |r| >= 1
    ensures Ordinary in r <==> r == [Ordinary]
    ensures Ordinary in r <==> (ScoreOf(detailed, Tfidf) <= 0.8 && ScoreOf(detailed, Structure) <= 0.8
                                && ScoreOf(detailed, Bert) <= 0.8)
    ensures LexicalRepetition in r <==> ScoreOf(detailed, Tfidf) > 0.8
    ensures StructuralMatch in r <==> ScoreOf(detailed, Structure) > 0.8
    ensures SemanticMatch in r <==> ScoreOf(detailed, Bert) > 0.8
    ensures forall i, j :: 0 <= i < j < |r| ==> Rank'(r[i]) < Rank'(r[j])
  {
    var tags := (if ScoreOf(detailed, Tfidf) > 0.8 then [LexicalRepetition] else [])
      + (if ScoreOf(detailed, Structure) > 0.8 then [StructuralMatch] else [])
      + (if ScoreOf(detailed, Bert) > 0.8 then [SemanticMatch] else []);
    if |tags| > 0 then tags else [Ordinary]
  }

  /** The order in which the tags are appended. */
  function Rank'(p: Pattern): nat {
    match p
    case LexicalRepetition => 0
    case StructuralMatch => 1
    case SemanticMatch => 2
    case Ordinary => 3
  }

  /** The scans compare with the default methods, which never score structure or bert, so
      the only tags they can report are lexical repetition and ordinary. */
  lemma DefaultPatterns(a: string, b: string, o: Oracles)
    ensures StructuralMatch !in AnalyzePattern(Compare(a, b, DefaultMethods, o).detailed)
    ensures SemanticMatch !in AnalyzePattern(Compare(a, b, DefaultMethods, o).detailed)
  {
    SelectedDefault();
  }
}
