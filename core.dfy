/**
 The part of `Dangee` that works on an analysis already loaded: splitting its
 methods into all, native-API and self-defined sets, and the name search.
 Loading the package is not part of this model; the constructor receives the
 methods the analysis reports.
 */
module Core {
  import opened Methods
  import opened Sequences
  import opened Text

  class Dangee {
    /** What `self.analysis.get_methods()` yields, in order. */
    const analysisMethods: seq<MethodAnalysis>
    var allMethod: set<MethodAnalysis>
    var nativeApi: set<MethodAnalysis>
    var selfDefine: set<MethodAnalysis>

    /** The three sets start empty and are filled by `InitData`. */
    constructor (methods: seq<MethodAnalysis>)
      ensures analysisMethods == methods
      ensures allMethod == Elements(methods)
      ensures nativeApi == NativeOf(allMethod) && selfDefine == SelfDefinedOf(allMethod)
      ensures nativeApi <= allMethod && selfDefine <= allMethod
    {
      analysisMethods := methods;
      allMethod, nativeApi, selfDefine := {}, {}, {};
      new;
      InitData();
    }

    /** One pass over the analysis' methods, adding each to the sets it belongs in. */
    method InitData()
      modifies this
      ensures allMethod == old(allMethod) + Elements(analysisMethods)
      ensures nativeApi == old(nativeApi) + NativeOf(Elements(analysisMethods))
      ensures selfDefine == old(selfDefine) + SelfDefinedOf(Elements(analysisMethods))
    {
      for i := 0 to |analysisMethods|
        invariant allMethod == old(allMethod) + Elements(analysisMethods[..i])
        invariant nativeApi == old(nativeApi) + NativeOf(Elements(analysisMethods[..i]))
        invariant selfDefine == old(selfDefine) + SelfDefinedOf(Elements(analysisMethods[..i]))
      {
        var methodAnalysis := analysisMethods[i];
        assert Elements(analysisMethods[..i + 1]) == Elements(analysisMethods[..i]) + {methodAnalysis} by {
          assert analysisMethods[..i + 1] == analysisMethods[..i] + [methodAnalysis];
        }
        allMethod := allMethod + {methodAnalysis};
        if methodAnalysis.isAndroidApi {
          nativeApi := nativeApi + {methodAnalysis};
        }
        if !methodAnalysis.isExternal {
          selfDefine := selfDefine + {methodAnalysis};
        }
      }
      assert analysisMethods[..|analysisMethods|] == analysisMethods;
    }

    /** The members of `targetMethodSet` whose lowercased full name contains `words` as given. */
    static method FindMethod(words: string, targetMethodSet: set<MethodAnalysis>)
      returns (searchResult: set<MethodAnalysis>)
      ensures searchResult == FindOf(words, targetMethodSet)
      ensures searchResult <= targetMethodSet
    {
      searchResult := Select(targetMethodSet, m => FindsWords(words, m));
    }

    /**
     The search its documentation describes: case-insensitive on both sides,
     which is `find_method` with the words lowercased first, i.e. `match`.
     */
    static method FindMethodIntended(words: string, targetMethodSet: set<MethodAnalysis>)
      returns (searchResult: set<MethodAnalysis>)
      ensures searchResult == MatchOf(words, targetMethodSet)
      ensures forall m :: m in searchResult <==> m in targetMethodSet && IsInfix(Lower(words), Lower(m.fullName))
    {
      searchResult := FindMethod(Lower(words), targetMethodSet);
      MatchIsFindOfLower(words, targetMethodSet);
    }
  }
}
