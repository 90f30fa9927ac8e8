/** `info_extractor.py`: the regex extractor with its fixed key layouts, the formatting of the NLP
    model's output, the merge that prefers NLP spans and fills the rest from the regexes, and the
    amount standardisation with its plain-number fallback. The NLP model, `find_first` and the
    Chinese-numeral conversion are not modelled; their results are inputs. */
module InfoExtract {
  import opened Wrappers
  import opened Strings
  import opened Seqs
  import opened Records
  import opened Fields
  import Amounts
  import Dates
  import PdfExtract

  const BiddingSchema: seq<string> := [
    "项目名称", "招标单位名称", "招标单位地址", "代理机构",
    "评分办法", "最高限价", "开标时间", "投标截止时间",
    "项目编号", "招标单位联系人姓名", "招标单位联系电话", "公告发布时间"
  ]

  const TenderSchema: seq<string> := TenderFields + ComplexFields

  /** `list(set(BIDDING_SCHEMA + TENDER_SCHEMA))`; only membership and distinctness are claimed
      about its order. */
  const AllSchema: seq<string> := Dedup(BiddingSchema + TenderSchema)

  /** `get_schema_by_file_type`. */
  function SchemaFor(fileType: string): (r: seq<string>)
    ensures fileType == BiddingFile ==> r == BiddingSchema
    ensures fileType == TenderFile ==> r == TenderSchema
    ensures fileType != BiddingFile && fileType != TenderFile ==>
      NoDup(r) && forall f :: f in r <==> f in BiddingSchema || f in TenderSchema
    ensures "项目名称" in r
  {
    assert BiddingSchema[0] == "项目名称" && TenderSchema[0] == "项目名称";
    if fileType == BiddingFile then BiddingSchema
    else if fileType == TenderFile then TenderSchema
    else AllSchema
  }

  // ---- the NLP output ----

  /** What the model call produced: it raised, or returned one result, a list of results, or
      something else. */
  datatype Inference = Raised | Single(result: Spans) | Batch(results: seq<Spans>) | Unrecognised

  /** The result the records are read from: the first of a list (an empty one standing for no
      result), and nothing from anything that is neither. */
  function Normalise(inference: Inference): (r: Spans)
    requires !inference.Raised?
    ensures r != [] ==> || (inference.Single? && r == inference.result)
                        || (inference.Batch? && |inference.results| > 0 && r == inference.results[0])
    ensures inference.Batch? && |inference.results| > 0 ==> r == inference.results[0]
  {
    match inference
    case Single(d) => d
    case Batch(ds) => if |ds| > 0 then ds[0] else []
    case Unrecognised => []
  }

  datatype NlpOutput = NlpOutput(records: Spans, fileType: string)

  /** The NLP pass runs when the library is available and the call does not raise. */
  predicate NlpRuns(available: bool, inference: Inference) {
    available && !inference.Raised?
  }

  /** `extract_entities_with_nlp`: None when the library is missing or the call raised, otherwise
      one entry per schema field, in schema order, holding the field's span texts in order, or
      the empty list when the result has none for it. */
  function ExtractEntitiesWithNlp(available: bool, inference: Inference, fileType: string): (r: Option<NlpOutput>)
    ensures r.None? <==> !NlpRuns(available, inference)
    ensures r.Some? ==> r.value.fileType == fileType
    ensures r.Some? ==> Keys(r.value.records) == Dedup(SchemaFor(fileType)) && Distinct(r.value.records)
    ensures r.Some? ==> forall k :: k in SchemaFor(fileType) ==>
      Find(r.value.records, k) == Some(Find(Normalise(inference), k).GetOr([]))
    ensures r.Some? ==> forall k :: k !in SchemaFor(fileType) ==> Find(r.value.records, k) == None
  {
    if !NlpRuns(available, inference) then None
    else
      var result := Normalise(inference);
      Some(NlpOutput(FromKeys(SchemaFor(fileType), (k: string) => Find(result, k).GetOr([])), fileType))
  }

  /** Whenever the NLP pass runs its records are non-empty, because every schema holds 项目名称:
      `extract_info_enhanced` then always takes the NLP branch, even when no span was found. */
  lemma NlpRecordsNeverEmpty(available: bool, inference: Inference, fileType: string)
    requires NlpRuns(available, inference)
    ensures ExtractEntitiesWithNlp(available, inference, fileType).Some?
    ensures |ExtractEntitiesWithNlp(available, inference, fileType).value.records| > 0
  {
    var records := ExtractEntitiesWithNlp(available, inference, fileType).value.records;
    assert "项目名称" in Keys(records);
  }

  // ---- the regex extractor ----

  /** `find_first(text, pattern, group)` with the pattern and group `extract_info` uses for the
      given result key, already applied to the text: the first match's group, or None. */
  type Finder = string -> Option<string>

  const TenderRegexKeys: seq<string> := [
    "项目名称", "投标单位", "法定代表人", "投标单位联系人", "投标单位联系电话",
    "投标单位联系邮箱", "投标报价", "投标截止时间", "投标时间", "报价时间"
  ]

  const BiddingRegexKeys: seq<string> := [
    "项目名称", "采购人名称", "采购人地址", "代理机构", "评分办法", "最高限价",
    "开标时间", "投标截止时间", "招标单位名称", "招标单位地址", "招标单位联系人", "招标单位联系电话"
  ]

  /** The keys `extract_info` assigns, in assignment order: none for a general document. */
  function RegexKeys(fileType: string): (ks: seq<string>)
    ensures NoDup(ks) && Dedup(ks) == ks
  {
    TenderRegexDistinct();
    BiddingRegexDistinct();
    DedupOfDistinct(TenderRegexKeys);
    DedupOfDistinct(BiddingRegexKeys);
    if fileType == TenderFile then TenderRegexKeys
    else if fileType == BiddingFile then BiddingRegexKeys
    else []
  }

  lemma TenderRegexDistinct()
    ensures NoDup(TenderRegexKeys)
  {
  }

  lemma BiddingRegexDistinct()
    ensures NoDup(BiddingRegexKeys)
  {
  }

  function Found(find: Finder, key: string): Option<Value> {
    match find(key)
    case None => None
    case Some(s) => Some(Str(s))
  }

  /** `amount_list[0] if amount_list else None` with `amount_list = extract_amount(text)`. */
  function FirstAmount(text: string, cn: Amounts.Numerals): Option<Value> {
    match Amounts.ExtractAmount(text, cn)
    case None => None
    case Some(amounts) => Some(Num(amounts[0]))
  }

  /** `extract_date(text)`. */
  function DateField(text: string): Option<Value> {
    match Dates.ExtractDate(text)
    case None => None
    case Some(d) => Some(Stamp(d))
  }

  /** What `extract_info` assigns to one key: the first amount for the document's amount field,
      the first date for a tender's deadline, and the key's `find_first` otherwise. */
  function RegexField(fileType: string, text: string, find: Finder, cn: Amounts.Numerals, key: string): (r: Option<Value>)
    ensures r.Some? && r.value.Num? ==>
      (fileType == TenderFile && key == "投标报价") || (fileType == BiddingFile && key == "最高限价")
    ensures r.Some? && r.value.Stamp? ==> fileType == TenderFile && key == "投标截止时间"
    ensures r.Some? && r.value.Str? ==> find(key) == Some(r.value.s)
  {
    if fileType == TenderFile && key == "投标报价" then FirstAmount(text, cn)
    else if fileType == TenderFile && key == "投标截止时间" then DateField(text)
    else if fileType == BiddingFile && key == "最高限价" then FirstAmount(text, cn)
    else Found(find, key)
  }

  /** `extract_info`: exactly the keys of the document type's layout, in assignment order. */
  function ExtractInfo(text: string, fileType: string, find: Finder, cn: Amounts.Numerals): (r: Dict<Option<Value>>)
    ensures Keys(r) == RegexKeys(fileType) && Distinct(r)
    ensures forall k :: k in RegexKeys(fileType) ==> Find(r, k) == Some(RegexField(fileType, text, find, cn, k))
    ensures forall k :: k !in RegexKeys(fileType) ==> Find(r, k) == None
  {
    FromKeys(RegexKeys(fileType), (k: string) => RegexField(fileType, text, find, cn, k))
  }

  /** A general document gets no regex fields at all. */
  lemma GeneralHasNoRegexFields(text: string, find: Finder, cn: Amounts.Numerals)
    ensures ExtractInfo(text, GeneralFile, find, cn) == []
  {
  }

  /** The regex amount field holds the first amount written in the text, when only text free of
      digits and commas precedes it. */
  lemma RegexAmountIsFirstWritten(fileType: string, pre: string, m: Amounts.AmountMatch, rest: string,
                                  find: Finder, cn: Amounts.Numerals)
    requires fileType == TenderFile || fileType == BiddingFile
    requires Amounts.WellFormed(m)
    requires forall i :: 0 <= i < |pre| ==> !IsDigit(pre[i]) && pre[i] != ','
    ensures var key := if fileType == TenderFile then "投标报价" else "最高限价";
      Get(ExtractInfo(pre + Amounts.Text(m) + rest, fileType, find, cn), key) == Some(Num(Amounts.Value(m)))
  {
    Amounts.FirstAmountAfter(pre, m, rest, cn);
  }

  /** The regex amount field is None exactly when `extract_amount` finds nothing. */
  lemma RegexAmountNone(fileType: string, text: string, find: Finder, cn: Amounts.Numerals)
    requires fileType == TenderFile || fileType == BiddingFile
    ensures var key := if fileType == TenderFile then "投标报价" else "最高限价";
      Get(ExtractInfo(text, fileType, find, cn), key) == None <==> Amounts.ExtractAmount(text, cn).None?
  {
  }

  // ---- amounts, with the plain-number fallback ----

  /** One amount field's value after `standardize_amounts_in_result`: a truthy non-number becomes
      the first amount `extract_amount` finds in its text; failing that, the fallback number;
      failing that, it is kept. */
  function StandardValue(v: Option<Value>, cn: Amounts.Numerals): (r: Option<Value>)
    ensures !Truthy(v) || v.value.Num? ==> r == v
    ensures r != v ==> r.Some? && r.value.Num? && Truthy(v) && !v.value.Num?
    ensures Truthy(v) && !v.value.Num? ==>
      (r == v <==> Amounts.ExtractAmount(Show(v.value), cn).None? && Amounts.Fallback(Show(v.value)).None?)
  {
    if !Truthy(v) || v.value.Num? then v
    else
      var text := Show(v.value);
      match Amounts.ExtractAmount(text, cn)
      case Some(amounts) => Some(Num(amounts[0]))
      case None =>
        match Amounts.Fallback(text)
        case Some(x) => Some(Num(x))
        case None => v
  }

  /** The two files' standardisations agree whenever the fallback is not reached. */
  lemma StandardValueAgrees(v: Option<Value>, cn: Amounts.Numerals)
    requires v.Some? && Truthy(v) && !v.value.Num? ==> Amounts.ExtractAmount(Show(v.value), cn).Some?
    ensures StandardValue(v, cn) == PdfExtract.StandardValue(v, cn)
  {
  }

  /** A value whose text holds no amount is rewritten to its fallback number. */
  lemma FallbackUsed(t: string, cn: Amounts.Numerals, x: real)
    requires Amounts.ExtractAmount(t, cn).None? && Amounts.Fallback(t) == Some(x)
    ensures StandardValue(Some(Str(t)), cn) == Some(Num(x))
  {
    assert |t| > 0;
    assert Show(Str(t)) == t;
  }

  /** The fallback does not remove commas: `1,200万`, whose grouped number carries no 元, reads
      as 1 times 10000. */
  lemma FallbackStopsAtComma(cn: Amounts.Numerals)
    requires cn("1200万") == []
    ensures StandardValue(Some(Str("1,200万")), cn) == Some(Num(10000.0))
  {
    var t := "1,200万";
    Amounts.CommaFreeWan();
    Amounts.ScanDigitsWan("1200");
    assert "1200" + "万" == "1200万";
    assert Amounts.ExtractAmount(t, cn).None?;
    Amounts.WanGrouped();
    FallbackUsed(t, cn, 10000.0);
  }

  // ---- extract_info_enhanced ----

  /** The NLP pass of `extract_info_enhanced`: the schema fields with a non-empty span list, in
      schema order, each holding its first span. */
  function NlpFirstSpans(records: Spans, schema: seq<string>): (r: Dict<Option<Value>>)
    ensures Distinct(r)
    ensures forall k :: Find(r, k) == if k in schema && FirstSpan(records, k).Some? then Some(FirstSpan(records, k)) else None
  {
    var has := Filter(schema, (f: string) => FirstSpan(records, f).Some?);
    FromKeys(has, (f: string) => FirstSpan(records, f))
  }

  /** One step of the fill: copy the entry over unless the key already holds a truthy value. */
  function FillStep(d: Dict<Option<Value>>, e: Entry<Option<Value>>): Dict<Option<Value>> {
    if Truthy(Get(d, e.key)) then d else Put(d, e.key, e.value)
  }

  /** The regex fill of `extract_info_enhanced`: each entry of `src`, in order, is copied into `d`
      when `d` has its key absent or falsy. */
  function Fill(d: Dict<Option<Value>>, src: Dict<Option<Value>>): (r: Dict<Option<Value>>)
    requires Distinct(src)
    ensures forall k :: k in Keys(r) <==> k in Keys(d) || k in Keys(src)
    ensures |d| <= |r| && Keys(r)[..|d|] == Keys(d)
    ensures Distinct(d) ==> Distinct(r)
    ensures forall k :: Find(r, k) == if k in Keys(src) && !Truthy(Get(d, k)) then Find(src, k) else Find(d, k)
    decreases |src|
  {
    if |src| == 0 then d
    else
      var s1 := FillStep(d, src[0]);
      DistinctTail(src);
      var r := Fill(s1, src[1..]);
      FillStepFacts(d, src[0]);
      FillKeys(d, src, s1, r);
      FillValues(d, src, s1, r);
      r
  }

  lemma DistinctTail(src: Dict<Option<Value>>)
    requires |src| > 0 && Distinct(src)
    ensures Distinct(src[1..]) && src[0].key !in Keys(src[1..])
  {
    assert Keys(src[1..]) == Keys(src)[1..];
  }

  lemma FillStepFacts(d: Dict<Option<Value>>, e: Entry<Option<Value>>)
    ensures var s := FillStep(d, e);
      && (forall k :: k in Keys(s) <==> k in Keys(d) || (k == e.key && !Truthy(Get(d, k))))
      && |d| <= |s| && Keys(s)[..|d|] == Keys(d)
      && (Distinct(d) ==> Distinct(s))
      && Find(s, e.key) == (if Truthy(Get(d, e.key)) then Find(d, e.key) else Some(e.value))
      && (forall k :: k != e.key ==> Find(s, k) == Find(d, k))
  {
    if !Truthy(Get(d, e.key)) && Distinct(d) {
      PutDistinct(d, e.key, e.value);
    }
  }

  lemma FillKeys(d: Dict<Option<Value>>, src: Dict<Option<Value>>, s1: Dict<Option<Value>>, r: Dict<Option<Value>>)
    requires |src| > 0 && Distinct(src[1..])
    requires s1 == FillStep(d, src[0])
    requires forall k :: k in Keys(s1) <==> k in Keys(d) || (k == src[0].key && !Truthy(Get(d, k)))
    requires |d| <= |s1| && Keys(s1)[..|d|] == Keys(d)
    requires forall k :: k in Keys(r) <==> k in Keys(s1) || k in Keys(src[1..])
    requires |s1| <= |r| && Keys(r)[..|s1|] == Keys(s1)
    ensures forall k :: k in Keys(r) <==> k in Keys(d) || k in Keys(src)
    ensures |d| <= |r| && Keys(r)[..|d|] == Keys(d)
  {
    KeysCons(src[0], src[1..]);
    assert src == [src[0]] + src[1..];
    FirstKeyKept(d, src[0], s1);
    PrefixOfPrefix(Keys(r), Keys(s1), Keys(d));
  }

  lemma FirstKeyKept(d: Dict<Option<Value>>, e: Entry<Option<Value>>, s1: Dict<Option<Value>>)
    requires forall k :: k in Keys(s1) <==> k in Keys(d) || (k == e.key && !Truthy(Get(d, k)))
    ensures e.key in Keys(s1)
  {
    if Truthy(Get(d, e.key)) {
      assert Find(d, e.key).Some?;
    }
  }

  lemma PrefixOfPrefix(a: seq<string>, b: seq<string>, c: seq<string>)
    requires |c| <= |b| <= |a| && a[..|b|] == b && b[..|c|] == c
    ensures a[..|c|] == c
  {
    assert a[..|c|] == a[..|b|][..|c|];
  }

  lemma FillValues(d: Dict<Option<Value>>, src: Dict<Option<Value>>, s1: Dict<Option<Value>>, r: Dict<Option<Value>>)
    requires |src| > 0 && src[0].key !in Keys(src[1..])
    requires Find(s1, src[0].key) == (if Truthy(Get(d, src[0].key)) then Find(d, src[0].key) else Some(src[0].value))
    requires forall k :: k != src[0].key ==> Find(s1, k) == Find(d, k)
    requires forall k :: Find(r, k) == if k in Keys(src[1..]) && !Truthy(Get(s1, k)) then Find(src[1..], k) else Find(s1, k)
    ensures forall k :: Find(r, k) == if k in Keys(src) && !Truthy(Get(d, k)) then Find(src, k) else Find(d, k)
  {
    forall k ensures Find(r, k) == if k in Keys(src) && !Truthy(Get(d, k)) then Find(src, k) else Find(d, k) {
      FindCons(src[0], src[1..], k);
      assert src == [src[0]] + src[1..];
      KeysCons(src[0], src[1..]);
    }
  }

  /** `extract_info_enhanced`. With NLP records, the fields with a span take their first span,
      the regex result fills every key still absent or falsy, and the amount fields are
      standardised; without, the regex result is standardised alone. */
  function ExtractInfoEnhanced(text: string, fileType: string, available: bool, inference: Inference,
                               find: Finder, cn: Amounts.Numerals): (r: Dict<Option<Value>>)
    ensures Distinct(r)
    ensures forall k :: k in RegexKeys(fileType) ==> k in Keys(r)
    ensures forall k :: k in Keys(r) ==> k in RegexKeys(fileType) || k in SchemaFor(fileType)
  {
    var nlp := ExtractEntitiesWithNlp(available, inference, fileType);
    var regex := ExtractInfo(text, fileType, find, cn);
    var std := (v: Option<Value>) => StandardValue(v, cn);
    if nlp.Some? && |nlp.value.records| > 0 then
      var spans := NlpFirstSpans(nlp.value.records, SchemaFor(fileType));
      var filled := Fill(spans, regex);
      assert forall k :: k in Keys(spans) ==> k in SchemaFor(fileType) by {
        forall k | k in Keys(spans) ensures k in SchemaFor(fileType) {
          assert Find(spans, k).Some?;
        }
      }
      Fields.StandardizeAmounts(filled, std)
    else
      Fields.StandardizeAmounts(regex, std)
  }

  /** The value the NLP pass gives a field: its first span when the pass runs and found one. */
  function NlpField(available: bool, inference: Inference, fileType: string, key: string): Option<Value> {
    match ExtractEntitiesWithNlp(available, inference, fileType)
    case None => None
    case Some(out) => FirstSpan(out.records, key)
  }

  /** What the merge gives a field before standardisation, when the NLP pass runs: the regex
      value when the layout has the key and the NLP value is absent or falsy, the NLP value
      otherwise. */
  function Merged(text: string, fileType: string, available: bool, inference: Inference,
                  find: Finder, cn: Amounts.Numerals, key: string): (r: Option<Option<Value>>)
    ensures Truthy(NlpField(available, inference, fileType, key)) ==> r == Some(NlpField(available, inference, fileType, key))
    ensures key in RegexKeys(fileType) && !Truthy(NlpField(available, inference, fileType, key)) ==>
      r == Some(RegexField(fileType, text, find, cn, key))
    ensures r.None? <==> key !in RegexKeys(fileType) && NlpField(available, inference, fileType, key).None?
  {
    var nlpv := NlpField(available, inference, fileType, key);
    if key in RegexKeys(fileType) && !Truthy(nlpv) then Some(RegexField(fileType, text, find, cn, key))
    else if nlpv.Some? then Some(nlpv) else None
  }

  /** A field other than the amounts, when the NLP pass runs, is the merged value as it stands. */
  lemma EnhancedWithNlp(text: string, fileType: string, available: bool, inference: Inference,
                        find: Finder, cn: Amounts.Numerals, key: string)
    requires NlpRuns(available, inference)
    requires key !in AmountFields
    ensures var nlpv := NlpField(available, inference, fileType, key);
      Find(ExtractInfoEnhanced(text, fileType, available, inference, find, cn), key)
        == if key in RegexKeys(fileType) && !Truthy(nlpv) then Some(RegexField(fileType, text, find, cn, key))
           else if nlpv.Some? then Some(nlpv) else None
  {
    NlpMerge(text, fileType, available, inference, find, cn, key);
  }

  /** An amount field, when the NLP pass runs: the merged value, standardised. */
  lemma EnhancedAmountWithNlp(text: string, fileType: string, available: bool, inference: Inference,
                              find: Finder, cn: Amounts.Numerals, key: string)
    requires NlpRuns(available, inference)
    requires key in AmountFields
    ensures var m := Merged(text, fileType, available, inference, find, cn, key);
      Find(ExtractInfoEnhanced(text, fileType, available, inference, find, cn), key)
        == if m.Some? then Some(StandardValue(m.value, cn)) else None
  {
    NlpMerge(text, fileType, available, inference, find, cn, key);
  }

  /** The NLP path of the merge, before standardisation. */
  lemma {:induction false} NlpMerge(text: string, fileType: string, available: bool, inference: Inference,
                                    find: Finder, cn: Amounts.Numerals, key: string)
    requires NlpRuns(available, inference)
    ensures var nlp := ExtractEntitiesWithNlp(available, inference, fileType);
      && nlp.Some? && |nlp.value.records| > 0
      && Find(Fill(NlpFirstSpans(nlp.value.records, SchemaFor(fileType)), ExtractInfo(text, fileType, find, cn)), key)
           == Merged(text, fileType, available, inference, find, cn, key)
  {
    NlpRecordsNeverEmpty(available, inference, fileType);
    var nlp := ExtractEntitiesWithNlp(available, inference, fileType);
    var nlpv := NlpField(available, inference, fileType, key);
    var spans := NlpFirstSpans(nlp.value.records, SchemaFor(fileType));
    var regex := ExtractInfo(text, fileType, find, cn);
    var filled := Fill(spans, regex);
    assert nlpv == FirstSpan(nlp.value.records, key);
    assert Find(spans, key) == if nlpv.Some? then Some(nlpv) else None by {
      if key !in SchemaFor(fileType) {
        assert Find(nlp.value.records, key) == None;
      }
    }
    assert Get(spans, key) == nlpv;
    assert Find(filled, key) == if key in Keys(regex) && !Truthy(nlpv) then Find(regex, key) else Find(spans, key);
    if key in RegexKeys(fileType) {
      assert Find(regex, key) == Some(RegexField(fileType, text, find, cn, key));
    }
  }

  /** A non-empty first span wins over the regex result. */
  lemma NlpSpanWins(text: string, fileType: string, available: bool, inference: Inference,
                    find: Finder, cn: Amounts.Numerals, key: string)
    requires key !in AmountFields
    requires Truthy(NlpField(available, inference, fileType, key))
    ensures Get(ExtractInfoEnhanced(text, fileType, available, inference, find, cn), key)
      == NlpField(available, inference, fileType, key)
  {
    EnhancedWithNlp(text, fileType, available, inference, find, cn, key);
  }

  /** A key the NLP pass leaves absent or falsy takes the regex value, whenever the regex layout
      has the key. */
  lemma RegexFillsGaps(text: string, fileType: string, available: bool, inference: Inference,
                       find: Finder, cn: Amounts.Numerals, key: string)
    requires key !in AmountFields
    requires key in RegexKeys(fileType)
    requires !Truthy(NlpField(available, inference, fileType, key))
    ensures Get(ExtractInfoEnhanced(text, fileType, available, inference, find, cn), key)
      == RegexField(fileType, text, find, cn, key)
  {
    if NlpRuns(available, inference) {
      EnhancedWithNlp(text, fileType, available, inference, find, cn, key);
    }
  }

  /** Without the NLP pass the result is the standardised regex result. */
  lemma NoNlpIsRegex(text: string, fileType: string, available: bool, inference: Inference,
                     find: Finder, cn: Amounts.Numerals)
    requires !NlpRuns(available, inference)
    ensures var r := ExtractInfoEnhanced(text, fileType, available, inference, find, cn);
      && Keys(r) == RegexKeys(fileType)
      && (forall k :: k in RegexKeys(fileType) && k !in AmountFields ==>
            Find(r, k) == Some(RegexField(fileType, text, find, cn, k)))
      && (forall k :: k in RegexKeys(fileType) && k in AmountFields ==>
            Find(r, k) == Some(StandardValue(RegexField(fileType, text, find, cn, k), cn)))
  {
  }

  /** The tender regex key 投标单位 is not a schema field, yet it survives the merge: the tender
      result carries it next to the schema's 投标单位名称. */
  lemma TenderCompanyKeyKept(text: string, available: bool, inference: Inference,
                             find: Finder, cn: Amounts.Numerals)
    ensures "投标单位" !in SchemaFor(TenderFile)
    ensures Get(ExtractInfoEnhanced(text, TenderFile, available, inference, find, cn), "投标单位")
      == Found(find, "投标单位")
  {
    TenderCompanyOnlyRegex();
    NlpLeavesOut(available, inference, TenderFile, "投标单位");
    RegexFillsGaps(text, TenderFile, available, inference, find, cn, "投标单位");
    RegexFieldPlain(TenderFile, text, find, cn, "投标单位");
  }

  /** A field that is neither an amount nor a date is the pattern's capture as it stands. */
  lemma RegexFieldPlain(fileType: string, text: string, find: Finder, cn: Amounts.Numerals, key: string)
    requires key != "投标报价" && key != "投标截止时间" && key != "最高限价"
    ensures RegexField(fileType, text, find, cn, key) == Found(find, key)
  {
  }

  lemma TenderCompanyOnlyRegex()
    ensures "投标单位" !in SchemaFor(TenderFile) && "投标单位" !in AmountFields
    ensures "投标单位" in RegexKeys(TenderFile)
    ensures "投标单位" != "投标报价" && "投标单位" != "投标截止时间" && "投标单位" != "最高限价"
  {
    assert "投标单位" !in TenderFields + ComplexFields;
    assert TenderRegexKeys[1] == "投标单位";
  }

  /** The NLP pass reports nothing for a field outside the document type's schema. */
  lemma NlpLeavesOut(available: bool, inference: Inference, fileType: string, key: string)
    requires key !in SchemaFor(fileType)
    ensures NlpField(available, inference, fileType, key) == None
  {
  }
}
