/**
 The query layer: a method set stored once and never reassigned, and queries
 that narrow or map it, each answering with a new instance. The helpers the
 source imports from elsewhere (`get_xref_from`, `get_xref_to`,
 `hasMutualParentFunction`, `hasHandleRegister`) are passed in as functions
 returning sets. For the two pair predicates, whose results are tested for
 truth, the empty set stands for a falsy result (`None` or an empty set).
 */
module Analysis {
  import opened Methods

  class DangeeAanlysis {
    const buffMethodSet: set<MethodAnalysis>

    /** Wraps a method set; `Value()` returns exactly that set. */
    constructor (methodSet: set<MethodAnalysis>)
      ensures Value() == methodSet
    {
      buffMethodSet := methodSet;
    }

    /** The `value` property: the current method set. */
    function Value(): set<MethodAnalysis> {
      buffMethodSet
    }

    /** The members that are Android APIs. */
    method IsNative() returns (r: DangeeAanlysis)
      ensures fresh(r)
      ensures r.Value() == NativeOf(Value()) && r.Value() <= Value()
    {
      var resultSet := Select(buffMethodSet, (m: MethodAnalysis) => m.isAndroidApi);
      r := new DangeeAanlysis(resultSet);
    }

    /** The members that are not external, i.e. defined by the application. */
    method IsSelfDefine() returns (r: DangeeAanlysis)
      ensures fresh(r)
      ensures r.Value() == SelfDefinedOf(Value()) && r.Value() <= Value()
    {
      var resultSet := Select(buffMethodSet, (m: MethodAnalysis) => !m.isExternal);
      r := new DangeeAanlysis(resultSet);
    }

    /** Every method some member is called from, by the helper `get_xref_from`. */
    method GetXrefFrom(xrefFrom: MethodAnalysis -> set<MethodAnalysis>) returns (r: DangeeAanlysis)
      ensures fresh(r)
      ensures r.Value() == UnionOf(Value(), xrefFrom)
    {
      var resultSet := UnionOver(buffMethodSet, xrefFrom);
      r := new DangeeAanlysis(resultSet);
    }

    /** Every method some member calls, by the helper `get_xref_to`. */
    method GetXrefTo(xrefTo: MethodAnalysis -> set<MethodAnalysis>) returns (r: DangeeAanlysis)
      ensures fresh(r)
      ensures r.Value() == UnionOf(Value(), xrefTo)
    {
      var resultSet := UnionOver(buffMethodSet, xrefTo);
      r := new DangeeAanlysis(resultSet);
    }

    /** The members whose full name contains `words`, ignoring ASCII case on both sides. */
    method Match(words: string) returns (r: DangeeAanlysis)
      ensures fresh(r)
      ensures r.Value() == MatchOf(words, Value()) && r.Value() <= Value()
    {
      var resultSet := Select(buffMethodSet, m => MatchesWords(words, m));
      r := new DangeeAanlysis(resultSet);
    }

    /** One entry per pair (`item1` here, `item2` in `other`) that has a mutual parent function. */
    method HasMutualParentFunctionWith(other: DangeeAanlysis,
                                       hasMutualParentFunction: (MethodAnalysis, MethodAnalysis) -> set<MethodAnalysis>)
      returns (resultList: seq<PairEntry>)
      ensures forall e :: e in resultList <==> e in PairsOf(Value(), other.Value(), hasMutualParentFunction)
      ensures forall i, j :: 0 <= i < j < |resultList| ==>
                (resultList[i].item1, resultList[i].item2) != (resultList[j].item1, resultList[j].item2)
      ensures Value() == {} || other.Value() == {} ==> resultList == []
    {
      resultList := CollectPairs(buffMethodSet, other.buffMethodSet, hasMutualParentFunction);
    }

    /** One entry per pair (`item1` here, `item2` in `other`) whose calls handle the same register. */
    method DataFlowTo(other: DangeeAanlysis,
                      hasHandleRegister: (MethodAnalysis, MethodAnalysis) -> set<MethodAnalysis>)
      returns (resultList: seq<PairEntry>)
      ensures forall e :: e in resultList <==> e in PairsOf(Value(), other.Value(), hasHandleRegister)
      ensures forall i, j :: 0 <= i < j < |resultList| ==>
                (resultList[i].item1, resultList[i].item2) != (resultList[j].item1, resultList[j].item2)
      ensures Value() == {} || other.Value() == {} ==> resultList == []
    {
      resultList := CollectPairs(buffMethodSet, other.buffMethodSet, hasHandleRegister);
    }
  }
}
