/** The field-extraction bookkeeping of `pdf_info_extract.py`: which schema a file type uses,
    how a file is classified, how NLP spans become a schema-ordered result, amount
    standardisation, the keyword paragraph fallback and the completeness check. The NLP model
    itself is not modelled: its per-field span lists are an input. */
module PdfExtract {
  import opened Wrappers
  import opened Strings
  import opened Seqs
  import opened Records
  import opened Fields
  import Amounts
  import Paragraphs

  const BiddingSchema: seq<string> := [
    "项目名称", "招标编号", "招标单位名称", "招标单位地址", "代理机构",
    "评分办法", "最高限价", "开标时间", "投标截止时间",
    "项目编号", "招标单位联系人姓名", "招标单位联系电话", "公告发布时间"
  ]

  /** `list(set(...))` of the three lists. The order of a Python set is not specified; the model
      keeps first occurrences, and only membership and distinctness are claimed about it. */
  const AllSchema: seq<string> := Dedup(BiddingSchema + TenderFields + ComplexFields)

  /** `get_schema_by_file_type`. */
  function SchemaFor(fileType: string): (r: seq<string>)
    ensures fileType == BiddingFile ==> r == BiddingSchema
    ensures fileType == TenderFile ==> r == TenderFields + ComplexFields
    ensures fileType != BiddingFile && fileType != TenderFile ==>
      NoDup(r) && forall f :: f in r <==> f in BiddingSchema || f in TenderFields || f in ComplexFields
    ensures forall f :: f in r ==> f in AllSchema
  {
    if fileType == BiddingFile then BiddingSchema
    else if fileType == TenderFile then TenderFields + ComplexFields
    else AllSchema
  }

  // ---- file type ----

  const NameBiddingKeys: seq<string> := ["招标", "采购", "公告"]
  const NameTenderKeys: seq<string> := ["投标", "响应", "报价"]
  const ContentBiddingKeys: seq<string> := ["招标文件", "招标公告", "采购公告", "最高限价"]
  const ContentTenderKeys: seq<string> := ["投标单位", "投标文件", "投标书", "投标人", "投标报价", "响应文件"]

  /** How much of the text preview the content test reads. */
  const PreviewLimit := 10000

  /** `text_preview[:10000]`. */
  function Window(preview: string): (w: string)
    ensures |w| <= PreviewLimit && |w| <= |preview| && w == preview[..|w|]
    ensures |preview| <= PreviewLimit ==> w == preview
  {
    if |preview| <= PreviewLimit then preview else preview[..PreviewLimit]
  }

  /** `determine_file_type`. The name is examined first, the preview only when the name is
      inconclusive and the preview is not empty; at each stage the bidding keywords are tried
      before the tender ones. Lower-casing the name is left out: every keyword is made of CJK
      characters, which lower-casing neither produces nor changes. */
  function DetermineFileType(name: string, preview: string): (r: string)
    ensures r == BiddingFile || r == TenderFile || r == GeneralFile
    ensures r == BiddingFile <==>
      || ContainsAny(name, NameBiddingKeys)
      || (!ContainsAny(name, NameTenderKeys) && ContainsAny(Window(preview), ContentBiddingKeys))
    ensures r == TenderFile <==>
      && !ContainsAny(name, NameBiddingKeys)
      && (|| ContainsAny(name, NameTenderKeys)
          || (!ContainsAny(Window(preview), ContentBiddingKeys) && ContainsAny(Window(preview), ContentTenderKeys)))
  {
    if ContainsAny(name, NameBiddingKeys) then BiddingFile
    else if ContainsAny(name, NameTenderKeys) then TenderFile
    else if |preview| > 0 && ContainsAny(Window(preview), ContentBiddingKeys) then BiddingFile
    else if |preview| > 0 && ContainsAny(Window(preview), ContentTenderKeys) then TenderFile
    else GeneralFile
  }

  /** Nothing past the first 10000 characters of the preview affects the classification. */
  lemma PreviewTailIgnored(name: string, preview: string, extra: string)
    requires |preview| >= PreviewLimit
    ensures DetermineFileType(name, preview + extra) == DetermineFileType(name, preview)
  {
    assert Window(preview + extra) == Window(preview) by {
      assert (preview + extra)[..PreviewLimit] == preview[..PreviewLimit];
    }
  }

  /** A name with a keyword decides the type whatever the preview says. */
  lemma NameDecides(name: string, p1: string, p2: string)
    requires ContainsAny(name, NameBiddingKeys) || ContainsAny(name, NameTenderKeys)
    ensures DetermineFileType(name, p1) == DetermineFileType(name, p2)
  {
  }

  /** "政府采购项目投标文件": the name holds both 采购 and 投标, and the bidding keyword wins. */
  lemma ProcurementBidNamedBidding(preview: string)
    ensures DetermineFileType("政府采购项目投标文件", preview) == BiddingFile
  {
    var name := "政府采购项目投标文件";
    assert OccursAt(name, "采购", 2);
    assert Contains(name, NameBiddingKeys[1]);
  }

  /** A name without keywords and no preview: the general type. */
  lemma NoEvidenceGeneral(name: string)
    requires !ContainsAny(name, NameBiddingKeys) && !ContainsAny(name, NameTenderKeys)
    ensures DetermineFileType(name, "") == GeneralFile
  {
    assert Window("") == "";
    assert !ContainsAny("", ContentBiddingKeys) by {
      forall k | 0 <= k < |ContentBiddingKeys| ensures !Contains("", ContentBiddingKeys[k]) { }
    }
    assert !ContainsAny("", ContentTenderKeys) by {
      forall k | 0 <= k < |ContentTenderKeys| ensures !Contains("", ContentTenderKeys[k]) { }
    }
  }

  // ---- completeness ----

  /** `required_fields.get(file_type, ["项目名称"])`. */
  function RequiredFields(fileType: string): seq<string> {
    if fileType == BiddingFile then ["项目名称", "招标单位名称"]
    else if fileType == TenderFile then ["项目名称", "投标单位名称"]
    else ["项目名称"]
  }

  datatype Validation = Validation(complete: bool, missing: seq<string>)

  /** `validate_extracted_info`: the required fields whose value is absent or falsy, in the order
      they are required, and whether there are none. */
  function ValidateExtractedInfo(info: Dict<Option<Value>>, fileType: string): (r: Validation)
    ensures r.complete <==> r.missing == []
    ensures r.complete <==> forall f :: f in RequiredFields(fileType) ==> Truthy(Get(info, f))
    ensures forall f :: f in r.missing <==> f in RequiredFields(fileType) && !Truthy(Get(info, f))
    ensures IsSubsequence(r.missing, RequiredFields(fileType))
  {
    var required := RequiredFields(fileType);
    var missing := Filter(required, (f: string) => !Truthy(Get(info, f)));
    FilterIsSubsequence(required, (f: string) => !Truthy(Get(info, f)));
    assert missing == [] <==> forall f :: f !in missing by {
      if missing != [] { assert missing[0] in missing; }
    }
    Validation(|missing| == 0, missing)
  }

  // ---- results in schema order ----

  /** `create_ordered_result`: one entry per schema field, in schema order, holding the input's
      value for it or None; fields outside the schema are dropped. */
  function CreateOrderedResult(data: Dict<Option<Value>>, schema: seq<string>): (r: Dict<Option<Value>>)
    ensures Keys(r) == Dedup(schema) && Distinct(r)
    ensures forall f :: f in schema ==> Find(r, f) == Some(Get(data, f))
    ensures forall k :: k !in schema ==> Find(r, k) == None
  {
    FromKeys(schema, (f: string) => Get(data, f))
  }

  /** Reordering a result that already has exactly the schema's keys changes no value. */
  lemma OrderedResultKeepsValues(data: Dict<Option<Value>>, schema: seq<string>)
    ensures forall f :: Get(CreateOrderedResult(data, schema), f) == if f in schema then Get(data, f) else None
  {
  }

  /** The NLP pass: a field holds its first span when the records are present and non-empty. */
  function NlpValue(nlp: Option<Spans>, field: string): Option<Value> {
    if nlp.Some? && |nlp.value| > 0 then FirstSpan(nlp.value, field) else None
  }

  // ---- amounts ----

  /** One amount field's value after `standardize_amounts_in_result`: a truthy non-number is
      replaced by the first amount found in its text, when there is one. */
  function StandardValue(v: Option<Value>, cn: Amounts.Numerals): (r: Option<Value>)
    ensures !Truthy(v) || v.value.Num? ==> r == v
    ensures r != v ==> r.Some? && r.value.Num? && Truthy(v) && !v.value.Num?
    ensures Truthy(v) && !v.value.Num? ==> (r == v <==> Amounts.ExtractAmount(Show(v.value), cn).None?)
  {
    if !Truthy(v) || v.value.Num? then v
    else
      match Amounts.ExtractAmount(Show(v.value), cn)
      case Some(amounts) => Some(Num(amounts[0]))
      case None => v
  }

  /** Standardising a value twice is standardising it once. */
  lemma StandardValueIdempotent(v: Option<Value>, cn: Amounts.Numerals)
    ensures StandardValue(StandardValue(v, cn), cn) == StandardValue(v, cn)
  {
  }

  /** A span that states an amount after digit- and comma-free text becomes that amount in yuan. */
  lemma StandardValueReadsAmount(pre: string, m: Amounts.AmountMatch, rest: string, cn: Amounts.Numerals)
    requires Amounts.WellFormed(m)
    requires forall i :: 0 <= i < |pre| ==> !IsDigit(pre[i]) && pre[i] != ','
    ensures StandardValue(Some(Str(pre + Amounts.Text(m) + rest)), cn) == Some(Num(Amounts.Value(m)))
  {
    Amounts.FirstAmountAfter(pre, m, rest, cn);
  }

  /** A truthy non-number whose comma-free text holds an Arabic amount becomes the first of them. */
  lemma StandardValueFirstArabic(v: Option<Value>, cn: Amounts.Numerals)
    requires Truthy(v) && !v.value.Num?
    requires |Amounts.Scan(Amounts.RemoveCommas(Show(v.value)))| > 0
    ensures StandardValue(v, cn) == Some(Num(Amounts.Scan(Amounts.RemoveCommas(Show(v.value)))[0]))
  {
    var arabic := Amounts.Scan(Amounts.RemoveCommas(Show(v.value)));
    var amounts := Amounts.ExtractAmount(Show(v.value), cn).value;
    assert amounts[..|arabic|] == arabic;
    assert amounts[0] == amounts[..|arabic|][0];
  }

  /** `standardize_amounts_in_result`. */
  function StandardizeAmounts(info: Dict<Option<Value>>, cn: Amounts.Numerals): (r: Dict<Option<Value>>)
    ensures Keys(r) == Keys(info)
    ensures forall k :: k !in AmountFields ==> Find(r, k) == Find(info, k)
    ensures forall k :: k in AmountFields ==>
      Find(r, k) == if Find(info, k).Some? then Some(StandardValue(Get(info, k), cn)) else None
  {
    Fields.StandardizeAmounts(info, (v: Option<Value>) => StandardValue(v, cn))
  }

  // ---- extract_info ----

  /** `extract_info`: every schema field of the file type, in schema order, holding the NLP
      pass's first span (or None), with the amount fields standardised. */
  function ExtractInfo(fileType: string, nlp: Option<Spans>, cn: Amounts.Numerals): (r: Dict<Option<Value>>)
    ensures Keys(r) == Dedup(SchemaFor(fileType)) && Distinct(r)
    ensures forall f :: f in SchemaFor(fileType) && f !in AmountFields ==> Find(r, f) == Some(NlpValue(nlp, f))
    ensures forall f :: f in SchemaFor(fileType) && f in AmountFields ==>
      Find(r, f) == Some(StandardValue(NlpValue(nlp, f), cn))
    ensures forall k :: k !in SchemaFor(fileType) ==> Find(r, k) == None
  {
    var schema := SchemaFor(fileType);
    var info := FromKeys(schema, (f: string) => NlpValue(nlp, f));
    var standard := StandardizeAmounts(info, cn);
    CreateOrderedResult(standard, schema)
  }

  /** Without NLP records every non-amount field is None and every amount field too. */
  lemma NoRecordsAllNone(fileType: string, cn: Amounts.Numerals)
    ensures forall f :: f in SchemaFor(fileType) ==> Find(ExtractInfo(fileType, None, cn), f) == Some(None)
  {
    forall f | f in SchemaFor(fileType) ensures Find(ExtractInfo(fileType, None, cn), f) == Some(None) {
      assert NlpValue(None, f) == None;
      assert StandardValue(None, cn) == None;
    }
  }

  /** The bidding and tender schemas list each field once, so the result has exactly the
      schema's fields in the schema's order. */
  lemma TypedSchemasDistinct()
    ensures Dedup(BiddingSchema) == BiddingSchema
    ensures Dedup(TenderFields + ComplexFields) == TenderFields + ComplexFields
  {
    DedupOfDistinct(BiddingSchema);
    TenderAndComplexDistinct();
  }

  /** For a bidding or tender document the result has exactly the schema's fields, in order. */
  lemma TypedResultKeys(fileType: string, nlp: Option<Spans>, cn: Amounts.Numerals)
    requires fileType == BiddingFile || fileType == TenderFile
    ensures Keys(ExtractInfo(fileType, nlp, cn)) == SchemaFor(fileType)
  {
    TypedSchemasDistinct();
  }

  // ---- keyword paragraphs ----

  /** The keywords each complex field is searched by. */
  const KeywordMapping: Dict<seq<string>> := [
    Entry("质量保证方案", ["质量保证", "质量管理", "质量控制", "质量方案", "质量措施"]),
    Entry("安全保障", ["安全保障", "安全措施", "安全管理", "安全防护", "安全方案"]),
    Entry("进度管理方案", ["进度管理", "进度控制", "进度安排", "时间安排", "工期管理"]),
    Entry("应急预案", ["应急预案", "应急处理", "应急措施", "突发事件", "应急响应"]),
    Entry("服务承诺", ["服务承诺", "服务保证", "服务质量", "服务标准"]),
    Entry("施工标准", ["施工标准", "施工规范", "施工要求", "技术标准", "作业标准"]),
    Entry("巡查考核方案", ["巡查", "考核", "检查", "监督", "评估"]),
    Entry("沟通配合措施", ["沟通配合", "协调", "配合", "沟通机制"]),
    Entry("安全文明建设", ["安全文明", "文明施工", "现场管理"]),
    Entry("制度建设", ["制度建设", "管理制度", "规章制度", "制度完善"]),
    Entry("资料整编方案", ["资料整编", "资料管理", "档案管理", "文档整理"])
  ]

  /** `keyword_mapping.get(field_name, [field_name])`. */
  function KeywordsFor(field: string): (ks: seq<string>)
    ensures field !in Keys(KeywordMapping) ==> ks == [field]
  {
    Find(KeywordMapping, field).GetOr([field])
  }

  /** A paragraph worth returning: at least 20 characters and holding one of the keywords. */
  predicate Relevant(p: string, keywords: seq<string>) {
    |p| >= 20 && ContainsAny(p, keywords)
  }

  /** The relevant paragraphs of the text, in text order, a paragraph that occurs twice
      being kept twice. */
  function RelevantParagraphs(text: string, field: string): (ps: seq<string>)
    ensures forall p :: p in ps <==> p in Paragraphs.Paragraphs(text) && Relevant(p, KeywordsFor(field))
    ensures IsSubsequence(ps, Paragraphs.Paragraphs(text))
    ensures forall p ::
      multiset(ps)[p] == (if Relevant(p, KeywordsFor(field)) then multiset(Paragraphs.Paragraphs(text))[p] else 0)
  {
    var kws := KeywordsFor(field);
    FilterIsSubsequence(Paragraphs.Paragraphs(text), (p: string) => Relevant(p, kws));
    FilterCounts(Paragraphs.Paragraphs(text), (p: string) => Relevant(p, kws));
    Filter(Paragraphs.Paragraphs(text), (p: string) => Relevant(p, kws))
  }

  /** `extract_content_by_keyword`: the first three relevant paragraphs joined by a blank line, or
      None when there is none. The result splits back at its blank lines into exactly those
      paragraphs. */
  function ExtractContentByKeyword(text: string, field: string): (r: Option<string>)
    ensures r.None? <==> forall p :: p in Paragraphs.Paragraphs(text) ==> !Relevant(p, KeywordsFor(field))
    ensures r.Some? ==>
      var ps := Split(r.value, Paragraphs.BlankLine);
      var all := RelevantParagraphs(text, field);
      && 1 <= |ps| <= 3 && |ps| <= |all| && ps == all[..|ps|]
      && (|ps| < 3 ==> ps == all)
      && forall k :: 0 <= k < |ps| ==> Relevant(ps[k], KeywordsFor(field))
  {
    var all := RelevantParagraphs(text, field);
    if |all| == 0 then
      assert forall p :: p !in all;
      None
    else
      var ps := if |all| <= 3 then all else all[..3];
      ChosenParagraphs(text, field, all, ps);
      Some(Join(ps, Paragraphs.BlankLine))
  }

  /** The first three relevant paragraphs, joined with a blank line, split back into themselves. */
  lemma ChosenParagraphs(text: string, field: string, all: seq<string>, ps: seq<string>)
    requires all == RelevantParagraphs(text, field) && |all| > 0
    requires ps == if |all| <= 3 then all else all[..3]
    ensures Split(Join(ps, Paragraphs.BlankLine), Paragraphs.BlankLine) == ps
    ensures 1 <= |ps| <= 3 && |ps| <= |all| && ps == all[..|ps|] && (|ps| < 3 ==> ps == all)
    ensures forall k :: 0 <= k < |ps| ==> Relevant(ps[k], KeywordsFor(field))
  {
    FirstThree(all, ps);
    forall k | 0 <= k < |ps| ensures ps[k] in all && Relevant(ps[k], KeywordsFor(field)) {
      assert ps[k] == all[k];
    }
    ChosenUnbroken(text, field, ps);
    Paragraphs.SplitJoin(ps);
  }

  /** `paragraphs[:3]` of a non-empty list. */
  lemma FirstThree<T>(all: seq<T>, ps: seq<T>)
    requires |all| > 0
    requires ps == if |all| <= 3 then all else all[..3]
    ensures 1 <= |ps| <= 3 && |ps| <= |all| && ps == all[..|ps|] && (|ps| < 3 ==> ps == all)
    ensures forall k :: 0 <= k < |ps| ==> ps[k] == all[k]
  {
  }

  lemma ChosenUnbroken(text: string, field: string, ps: seq<string>)
    requires forall k :: 0 <= k < |ps| ==> ps[k] in RelevantParagraphs(text, field)
    ensures forall k :: 0 <= k < |ps| ==> Paragraphs.Unbroken(ps[k])
  {
    Paragraphs.ParagraphsUnbroken(text);
    forall k | 0 <= k < |ps| ensures Paragraphs.Unbroken(ps[k]) {
      var all := Paragraphs.Paragraphs(text);
      assert ps[k] in all;
      var j :| 0 <= j < |all| && all[j] == ps[k];
    }
  }
}
