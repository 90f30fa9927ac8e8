/** What `pdf_info_extract.py` and `info_extractor.py` share: the file types, the tender and
    complex-content field lists (identical in both files), the NLP span lists, and the in-place
    standardisation of the two amount fields. */
module Fields {
  import opened Wrappers
  import opened Seqs
  import opened Records

  const BiddingFile := "招标文件"
  const TenderFile := "投标文件"
  const GeneralFile := "通用"

  /** The short-entity fields of a tender document. */
  const TenderFields: seq<string> := [
    "项目名称", "投标单位名称", "采购代理机构", "法定代表人", "投标单位联系人姓名",
    "投标单位联系电话", "投标单位联系邮箱", "投标报价", "投标截止时间",
    "投标时间", "报价时间", "项目编号", "企业资质", "项目开始时间",
    "项目工期", "项目人数", "负责人职务", "负责人资质", "高级职称人员数量", "中级职称人员数量",
    "低级职称人员数量", "投入设备", "投入资金"
  ]

  /** The fields whose value is a passage of text rather than a short entity. */
  const ComplexFields: seq<string> := [
    "进度管理方案", "巡查考核方案", "质量保证方案", "施工标准",
    "安全保障", "应急预案", "服务承诺", "沟通配合措施",
    "安全文明建设", "制度建设", "资料整编方案"
  ]

  /** The tender fields followed by the complex ones list each field once. */
  lemma TenderAndComplexDistinct()
    ensures NoDup(TenderFields + ComplexFields)
    ensures Dedup(TenderFields + ComplexFields) == TenderFields + ComplexFields
  {
    TenderPairs(0, 12, 0, 12);
    TenderPairs(0, 12, 12, 23);
    TenderPairs(12, 23, 12, 23);
    ComplexDistinct();
    TenderComplexDisjoint();
    NoDupAppend(TenderFields, ComplexFields);
    DedupOfDistinct(TenderFields + ComplexFields);
  }

  /** No tender field between `a` and `b` repeats one between `c` and `d`. */
  lemma TenderPairs(a: nat, b: nat, c: nat, d: nat)
    requires (a, b, c, d) in {(0, 12, 0, 12), (0, 12, 12, 23), (12, 23, 12, 23)}
    ensures forall i, j :: a <= i < b && c <= j < d && i < j ==> TenderFields[i] != TenderFields[j]
  {
  }

  lemma ComplexDistinct()
    ensures NoDup(ComplexFields)
  {
  }

  lemma TenderComplexDisjoint()
    ensures forall i, j :: 0 <= i < |TenderFields| && 0 <= j < |ComplexFields| ==> TenderFields[i] != ComplexFields[j]
  {
  }

  /** The NLP output for one document: each schema field's extracted span texts, in order. */
  type Spans = Dict<seq<string>>

  /** `records[field][0]["span"]` when the field has a non-empty span list, else None. */
  function FirstSpan(records: Spans, field: string): (v: Option<Value>)
    ensures v.Some? <==> Find(records, field).Some? && |Find(records, field).value| > 0
    ensures v.Some? ==> v.value == Str(Find(records, field).value[0])
  {
    match Find(records, field)
    case Some(spans) => if |spans| > 0 then Some(Str(spans[0])) else None
    case None => None
  }

  /** The fields `standardize_amounts_in_result` rewrites. */
  const AmountFields: seq<string> := ["投标报价", "最高限价"]

  /** `standardize_amounts_in_result` on a dictionary, `std` being what it does to one value: the
      amount fields present are rewritten in place, everything else is left as it is. */
  function StandardizeAmounts(info: Dict<Option<Value>>, std: Option<Value> -> Option<Value>): (r: Dict<Option<Value>>)
    ensures Keys(r) == Keys(info)
    ensures forall k :: k !in AmountFields ==> Find(r, k) == Find(info, k)
    ensures forall k :: k in AmountFields ==>
      Find(r, k) == if Find(info, k).Some? then Some(std(Get(info, k))) else None
  {
    StandardizeField(StandardizeField(info, AmountFields[0], std), AmountFields[1], std)
  }

  function StandardizeField(info: Dict<Option<Value>>, field: string, std: Option<Value> -> Option<Value>): (r: Dict<Option<Value>>)
    ensures Keys(r) == Keys(info)
    ensures forall k :: k != field ==> Find(r, k) == Find(info, k)
    ensures Find(r, field) == if Find(info, field).Some? then Some(std(Get(info, field))) else None
  {
    match Find(info, field)
    case None => info
    case Some(v) => Put(info, field, std(v))
  }
}
