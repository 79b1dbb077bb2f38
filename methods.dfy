/**
 The view of androguard's method analysis objects the query layer relies on,
 the set filters and collectors built from it, and the loops that collect
 them (each query of the source is one of these loops over a method set).
 */
module Methods {
  import opened Sequences
  import opened Text

  /** The identity of a method: owning class, method name, descriptor. */
  datatype MethodRef = MethodRef(className: string, name: string, descriptor: string)

  /**
   A method analysis object, reduced to its identity and the three attributes
   the queries read: `full_name`, `is_android_api()` and `is_external()`.
   */
  datatype MethodAnalysis = MethodAnalysis(ref: MethodRef, fullName: string, isAndroidApi: bool, isExternal: bool)

  /** One entry `{(item1, item2): result}` of a pairwise collector's result list. */
  datatype PairEntry = PairEntry(item1: MethodAnalysis, item2: MethodAnalysis, result: set<MethodAnalysis>)

  ghost function Elements(s: seq<MethodAnalysis>): set<MethodAnalysis> {
    set m | m in s
  }

  ghost function NativeOf(s: set<MethodAnalysis>): set<MethodAnalysis> {
    set m | m in s && m.isAndroidApi
  }

  ghost function SelfDefinedOf(s: set<MethodAnalysis>): set<MethodAnalysis> {
    set m | m in s && !m.isExternal
  }

  /** `words.lower() in str(full_name).lower()`, the test of `match`. */
  predicate MatchesWords(words: string, m: MethodAnalysis) {
    IsInfix(Lower(words), Lower(m.fullName))
  }

  ghost function MatchOf(words: string, s: set<MethodAnalysis>): set<MethodAnalysis> {
    set m | m in s && MatchesWords(words, m)
  }

  /** `words in str(full_name).lower()`, the test of `find_method`: only the name is lowercased. */
  predicate FindsWords(words: string, m: MethodAnalysis) {
    IsInfix(words, Lower(m.fullName))
  }

  ghost function FindOf(words: string, s: set<MethodAnalysis>): set<MethodAnalysis> {
    set m | m in s && FindsWords(words, m)
  }

  /** Everything `neighbours` reports for some member of `s`. */
  ghost function UnionOf(s: set<MethodAnalysis>, neighbours: MethodAnalysis -> set<MethodAnalysis>): set<MethodAnalysis> {
    set m, x | m in s && x in neighbours(m) :: x
  }

  /** The entries of a pairwise collector: one per pair whose helper result is truthy (non-empty). */
  ghost function PairsOf(s: set<MethodAnalysis>, t: set<MethodAnalysis>,
                         related: (MethodAnalysis, MethodAnalysis) -> set<MethodAnalysis>): set<PairEntry> {
    set a, b | a in s && b in t && related(a, b) != {} :: PairEntry(a, b, related(a, b))
  }

  // ---------------------------------------------------------------------------
  // The loops
  // ---------------------------------------------------------------------------

  /** The loop shared by `isNative`, `isSelfDefine`, `match` and `find_method`: add each member that passes the test. */
  method Select(s: set<MethodAnalysis>, keep: MethodAnalysis -> bool) returns (resultSet: set<MethodAnalysis>)
    ensures resultSet <= s
    ensures forall m :: m in resultSet <==> m in s && keep(m)
  {
    resultSet := {};
    var rest := s;
    while rest != {}
      invariant rest <= s
      invariant forall m :: m in resultSet <==> m in s && m !in rest && keep(m)
      decreases rest
    {
      var m :| m in rest;
      if keep(m) {
        resultSet := resultSet + {m};
      }
      rest := rest - {m};
    }
  }

  /** The nested loop of `get_xref_from` / `get_xref_to`: add everything the helper reports for each member. */
  method UnionOver(s: set<MethodAnalysis>, neighbours: MethodAnalysis -> set<MethodAnalysis>)
    returns (resultSet: set<MethodAnalysis>)
    ensures forall x :: x in resultSet <==> exists m :: m in s && x in neighbours(m)
  {
    resultSet := {};
    var rest := s;
    while rest != {}
      invariant rest <= s
      invariant forall x :: x in resultSet <==> exists m :: m in s && m !in rest && x in neighbours(m)
      decreases rest
    {
      var m :| m in rest;
      var others := neighbours(m);
      ghost var before := resultSet;
      while others != {}
        invariant others <= neighbours(m)
        invariant resultSet == before + (neighbours(m) - others)
        decreases others
      {
        var x :| x in others;
        resultSet := resultSet + {x};
        others := others - {x};
      }
      rest := rest - {m};
    }
  }

  /**
   The nested loop of `hasMutualParentFunctionWith` / `dataFlowto`: for each
   `a` in `s` and `b` in `t` whose helper result is truthy, append the entry
   mapping `(a, b)` to that result. The order of the list follows set
   iteration and is not determined; each pair appears at most once.
   */
  method CollectPairs(s: set<MethodAnalysis>, t: set<MethodAnalysis>,
                      related: (MethodAnalysis, MethodAnalysis) -> set<MethodAnalysis>)
    returns (resultList: seq<PairEntry>)
    ensures forall e :: e in resultList <==> e in PairsOf(s, t, related)
    ensures forall i, j :: 0 <= i < j < |resultList| ==>
              (resultList[i].item1, resultList[i].item2) != (resultList[j].item1, resultList[j].item2)
    ensures s == {} || t == {} ==> resultList == []
  {
    resultList := [];
    var rest1 := s;
    while rest1 != {}
      invariant rest1 <= s
      invariant s == {} || t == {} ==> resultList == []
      invariant forall e :: e in resultList <==>
                  e.item1 in s && e.item1 !in rest1 && e.item2 in t &&
                  related(e.item1, e.item2) != {} && e.result == related(e.item1, e.item2)
      invariant forall i, j :: 0 <= i < j < |resultList| ==>
                  (resultList[i].item1, resultList[i].item2) != (resultList[j].item1, resultList[j].item2)
      decreases rest1
    {
      var item1 :| item1 in rest1;
      var rest2 := t;
      while rest2 != {}
        invariant rest2 <= t
        invariant t == {} ==> resultList == []
        invariant forall e :: e in resultList <==>
                    e.item2 in t && related(e.item1, e.item2) != {} && e.result == related(e.item1, e.item2) &&
                    ((e.item1 in s && e.item1 !in rest1) || (e.item1 == item1 && e.item2 !in rest2))
        invariant forall i, j :: 0 <= i < j < |resultList| ==>
                    (resultList[i].item1, resultList[i].item2) != (resultList[j].item1, resultList[j].item2)
        decreases rest2
      {
        var item2 :| item2 in rest2;
        if related(item1, item2) != {} {
          resultList := resultList + [PairEntry(item1, item2, related(item1, item2))];
        }
        rest2 := rest2 - {item2};
      }
      rest1 := rest1 - {item1};
    }
  }

  // ---------------------------------------------------------------------------
  // Properties of the filters
  // ---------------------------------------------------------------------------

  /** `isNative` narrows: the result is a subset, and narrowing again changes nothing. */
  lemma NativeOfNarrows(s: set<MethodAnalysis>)
    ensures NativeOf(s) <= s
    ensures NativeOf(NativeOf(s)) == NativeOf(s)
  {
  }

  lemma SelfDefinedOfNarrows(s: set<MethodAnalysis>)
    ensures SelfDefinedOf(s) <= s
    ensures SelfDefinedOf(SelfDefinedOf(s)) == SelfDefinedOf(s)
  {
  }

  /** `match` ignores case in the search words: words that lowercase alike select alike. */
  lemma MatchIgnoresCaseOfWords(w1: string, w2: string, s: set<MethodAnalysis>)
    requires Lower(w1) == Lower(w2)
    ensures MatchOf(w1, s) == MatchOf(w2, s)
  {
  }

  /** `match` ignores case in the method names: two methods whose names lowercase alike are kept or dropped together. */
  lemma MatchIgnoresCaseOfNames(words: string, m1: MethodAnalysis, m2: MethodAnalysis)
    requires Lower(m1.fullName) == Lower(m2.fullName)
    ensures MatchesWords(words, m1) <==> MatchesWords(words, m2)
  {
  }

  lemma MatchNarrows(words: string, s: set<MethodAnalysis>)
    ensures MatchOf(words, s) <= s
    ensures MatchOf(words, MatchOf(words, s)) == MatchOf(words, s)
  {
  }

  /** Matching the empty string keeps every member. */
  lemma MatchEmptyKeepsAll(s: set<MethodAnalysis>)
    ensures MatchOf("", s) == s
  {
    forall m | m in s ensures MatchesWords("", m) {
      EmptyIsInfix(Lower(m.fullName));
    }
  }

  /** `match(words)` is `find_method` with the words lowercased first. */
  lemma MatchIsFindOfLower(words: string, s: set<MethodAnalysis>)
    ensures MatchOf(words, s) == FindOf(Lower(words), s)
  {
  }

  lemma FindEmptyKeepsAll(s: set<MethodAnalysis>)
    ensures FindOf("", s) == s
  {
    forall m | m in s ensures FindsWords("", m) {
      EmptyIsInfix(Lower(m.fullName));
    }
  }

  /** A window of a lowercased string contains no ASCII capital. */
  lemma InfixOfLowerHasNoUpper(w: string, name: string, k: nat)
    requires IsInfix(w, Lower(name)) && k < |w|
    ensures !IsUpperAscii(w[k])
  {
    var i :| 0 <= i <= |Lower(name)| && IsPrefix(w, Lower(name)[i..]);
    assert w[k] == Lower(name)[i + k];
    LowerHasNoUpper(name, i + k);
  }

  /** Since `find_method` does not lowercase the words, words with an ASCII capital find nothing. */
  lemma FindWithUpperFindsNothing(words: string, k: nat, s: set<MethodAnalysis>)
    requires k < |words| && IsUpperAscii(words[k])
    ensures FindOf(words, s) == {}
  {
    forall m | m in s ensures !FindsWords(words, m) {
      if FindsWords(words, m) {
        InfixOfLowerHasNoUpper(words, m.fullName, k);
      }
    }
  }

  /** A pairwise collector over an empty side yields no entries. */
  lemma PairsOfEmptySide(s: set<MethodAnalysis>, t: set<MethodAnalysis>,
                         related: (MethodAnalysis, MethodAnalysis) -> set<MethodAnalysis>)
    requires s == {} || t == {}
    ensures PairsOf(s, t, related) == {}
  {
  }
}
