/**
 The two helpers of `dangee/util`: `contains`, the order-pattern matcher, and
 `get_method_bytecode`, which turns each instruction of a method into a
 record of mnemonic, registers and parameter.
 */
module Util {
  import opened Wrappers
  import opened Sequences
  import opened Text

  // ---------------------------------------------------------------------------
  // contains(subset_to_check, target_list)
  // ---------------------------------------------------------------------------

  /** Python's `list.remove(x)`: drop the FIRST element equal to `x`. */
  function RemoveFirst<T(==)>(s: seq<T>, x: T): (r: seq<T>)
    requires x in s
    ensures |r| == |s| - 1
    decreases |s|
  {
    if s[0] == x then s[1..] else [s[0]] + RemoveFirst(s[1..], x)
  }

  /** `RemoveFirst` cuts out position `k`, the first occurrence of `x`. */
  lemma {:induction false} RemoveFirstCutsFirstOccurrence<T>(s: seq<T>, x: T) returns (k: nat)
    requires x in s
    ensures k < |s| && s[k] == x && x !in s[..k]
    ensures RemoveFirst(s, x) == s[..k] + s[k + 1..]
    decreases |s|
  {
    if s[0] == x {
      k := 0;
    } else {
      var k' := RemoveFirstCutsFirstOccurrence(s[1..], x);
      k := k' + 1;
      assert s[..k] == [s[0]] + s[1..][..k'];
      assert s[k + 1..] == s[1..][k' + 1..];
    }
  }

  lemma {:induction false} RemoveFirstIsSubsequence<T>(s: seq<T>, x: T)
    requires x in s
    ensures IsSubsequence(RemoveFirst(s, x), s)
    decreases |s|
  {
    if s[0] == x {
      SubsequenceReflexive(s[1..]);
    } else {
      RemoveFirstIsSubsequence(s[1..], x);
      assert RemoveFirst(s, x)[1..] == RemoveFirst(s[1..], x);
    }
  }

  /**
   The elements of `s` that occur in `pattern`, in order: what the filter
   loop of `contains` is meant to leave behind.
   */
  function Project<T(==)>(s: seq<T>, pattern: seq<T>): seq<T>
    decreases |s|
  {
    if s == [] then []
    else (if s[0] in pattern then [s[0]] else []) + Project(s[1..], pattern)
  }

  lemma {:induction false} ProjectRemoveFirst<T>(s: seq<T>, x: T, pattern: seq<T>)
    requires x in s && x !in pattern
    ensures Project(RemoveFirst(s, x), pattern) == Project(s, pattern)
    decreases |s|
  {
    if s[0] != x {
      ProjectRemoveFirst(s[1..], x, pattern);
      assert RemoveFirst(s, x)[1..] == RemoveFirst(s[1..], x);
    }
  }

  /**
   The state reached by Python's `for item in target_copy` loop once the
   iterator's hidden index is `i`: the element at `i` is examined and, when it
   is not in the pattern, its first occurrence is removed from the list being
   iterated, so the next index skips the element that slid into its place.
   */
  function FilterFrom<T(==)>(pattern: seq<T>, s: seq<T>, i: nat): seq<T>
    decreases |s| - i
  {
    if i >= |s| then s
    else if s[i] in pattern then FilterFrom(pattern, s, i + 1)
    else FilterFrom(pattern, RemoveFirst(s, s[i]), i + 1)
  }

  /** The copy of `target` left by the filter loop of `contains`. */
  function Filtered<T(==)>(pattern: seq<T>, target: seq<T>): seq<T> {
    FilterFrom(pattern, target, 0)
  }

  lemma {:induction false} FilterFromIsSubsequence<T>(pattern: seq<T>, s: seq<T>, i: nat)
    ensures IsSubsequence(FilterFrom(pattern, s, i), s)
    decreases |s| - i
  {
    if i >= |s| {
      SubsequenceReflexive(s);
    } else if s[i] in pattern {
      FilterFromIsSubsequence(pattern, s, i + 1);
    } else {
      var s' := RemoveFirst(s, s[i]);
      FilterFromIsSubsequence(pattern, s', i + 1);
      RemoveFirstIsSubsequence(s, s[i]);
      SubsequenceTransitive(FilterFrom(pattern, s', i + 1), s', s);
    }
  }

  lemma {:induction false} FilterFromKeepsPattern<T>(pattern: seq<T>, s: seq<T>, i: nat)
    ensures Project(FilterFrom(pattern, s, i), pattern) == Project(s, pattern)
    decreases |s| - i
  {
    if i < |s| {
      if s[i] in pattern {
        FilterFromKeepsPattern(pattern, s, i + 1);
      } else {
        FilterFromKeepsPattern(pattern, RemoveFirst(s, s[i]), i + 1);
        ProjectRemoveFirst(s, s[i], pattern);
      }
    }
  }

  /**
   The filter loop of `contains` on a copy of the target: the copy is an
   order-preserving subsequence of the target that keeps every element of the
   pattern, and the loop body runs at most once per element of the target.
   */
  method FilterCopy<T(==)>(pattern: seq<T>, target: seq<T>) returns (copy: seq<T>, examined: nat)
    ensures copy == Filtered(pattern, target)
    ensures IsSubsequence(copy, target)
    ensures Project(copy, pattern) == Project(target, pattern)
    ensures examined <= |target|
    ensures |copy| <= examined <= |copy| + 1
  {
    copy := target;
    var i := 0;
    while i < |copy|
      invariant i <= |copy| + 1 && |copy| <= |target| && i <= |target|
      invariant FilterFrom(pattern, copy, i) == Filtered(pattern, target)
      decreases |copy| - i
    {
      var item := copy[i];
      i := i + 1;
      if item !in pattern {
        copy := RemoveFirst(copy, item);
      }
    }
    examined := i;
    FilterFromIsSubsequence(pattern, target, 0);
    FilterFromKeepsPattern(pattern, target, 0);
  }

  /**
   `contains(subset_to_check, target_list)`: filter a copy of the target,
   then look for a window of the filtered copy equal to the pattern.
   */
  method Contains<T(==)>(pattern: seq<T>, target: seq<T>) returns (found: bool)
    ensures found <==> IsInfix(pattern, Filtered(pattern, target))
  {
    var copy, _ := FilterCopy(pattern, target);
    var i := 0;
    while i < |copy| - |pattern| + 1
      invariant i == 0 || i <= |copy| - |pattern| + 1
      invariant forall k :: 0 <= k < i ==> !IsPrefix(pattern, copy[k..])
    {
      var j := 0;
      while j < |pattern|
        invariant 0 <= j <= |pattern|
        invariant forall k :: 0 <= k < j ==> copy[i + k] == pattern[k]
      {
        if copy[i + j] != pattern[j] {
          break;
        }
        j := j + 1;
      }
      if j == |pattern| {
        assert copy[i..][..|pattern|] == pattern;
        return true;
      }
      assert copy[i..][j] != pattern[j];
      i := i + 1;
    }
    return false;
  }

  /** Whenever `contains` answers true, the pattern occurs in order in the target. */
  lemma ContainsIsSound<T>(pattern: seq<T>, target: seq<T>)
    requires IsInfix(pattern, Filtered(pattern, target))
    ensures IsSubsequence(pattern, target)
  {
    InfixIsSubsequence(pattern, Filtered(pattern, target));
    FilterFromIsSubsequence(pattern, target, 0);
    SubsequenceTransitive(pattern, Filtered(pattern, target), target);
  }

  /** An empty pattern is always contained. */
  lemma EmptyPatternIsContained<T>(target: seq<T>)
    ensures IsInfix([], Filtered([], target))
  {
    EmptyIsInfix(Filtered([], target));
  }

  /** A pattern longer than the filtered copy is never contained; in particular nothing non-empty is in an empty target. */
  lemma LongPatternIsNotContained<T>(pattern: seq<T>, target: seq<T>)
    requires |pattern| > |Filtered(pattern, target)| || (pattern != [] && target == [])
    ensures !IsInfix(pattern, Filtered(pattern, target))
  {
    assert Filtered(pattern, []) == [];
  }

  /** The shape of the first docstring example: `[a, b]` against `[x, a, y, b]` with unrelated `x` and `y`. */
  lemma {:induction false} InOrderWithGaps<T>(a: T, b: T, x: T, y: T)
    requires x != a && x != b && y != a && y != b
    ensures Filtered([a, b], [x, a, y, b]) == [a, b]
    ensures IsInfix([a, b], Filtered([a, b], [x, a, y, b]))
  {
    var p := [a, b];
    assert x !in p && y !in p;
    assert RemoveFirst([x, a, y, b], x) == [a, y, b];
    assert RemoveFirst([a, y, b], y) == p;
    assert FilterFrom(p, p, 2) == p;
    assert FilterFrom(p, [a, y, b], 1) == p;
    assert FilterFrom(p, [x, a, y, b], 0) == p;
    assert IsPrefix(p, p[0..]);
  }

  /** The shape of the second docstring example: `[a, b]` against `[b, x, a, y]`. */
  lemma {:induction false} OutOfOrder<T>(a: T, b: T, x: T, y: T)
    requires a != b && x != a && x != b && y != a && y != b
    ensures Filtered([a, b], [b, x, a, y]) == [b, a]
    ensures !IsInfix([a, b], Filtered([a, b], [b, x, a, y]))
  {
    var p := [a, b];
    assert x !in p && y !in p;
    assert RemoveFirst([b, x, a, y], x) == [b, a, y];
    assert RemoveFirst([b, a, y], y) == [b, a];
    assert FilterFrom(p, [b, a], 3) == [b, a];
    assert FilterFrom(p, [b, a, y], 2) == [b, a];
    assert FilterFrom(p, [b, x, a, y], 1) == [b, a];
    assert FilterFrom(p, [b, x, a, y], 0) == [b, a];
    var f := [b, a];
    assert !IsPrefix(p, f[0..]) && !IsPrefix(p, f[1..]) && !IsPrefix(p, f[2..]);
  }

  /** First docstring example: the two calls occur in order. */
  lemma DocstringInOrder()
    ensures IsInfix(["getCellLocation", "sendTextMessage"],
                    Filtered(["getCellLocation", "sendTextMessage"],
                             ["put", "getCellLocation", "query", "sendTextMessage"]))
  {
    InOrderWithGaps("getCellLocation", "sendTextMessage", "put", "query");
  }

  /** Second docstring example: the two calls occur in the wrong order. */
  lemma DocstringOutOfOrder()
    ensures !IsInfix(["getCellLocation", "sendTextMessage"],
                     Filtered(["getCellLocation", "sendTextMessage"],
                              ["sendTextMessage", "put", "getCellLocation", "query"]))
  {
    OutOfOrder("getCellLocation", "sendTextMessage", "put", "query");
  }

  /**
   The element that slides into the place of a removed one is never examined:
   with two unrelated calls between `a` and `b`, the second survives the
   filter and hides the order `a` before `b`, although it holds in the target.
   */
  lemma {:induction false} SkipsAfterRemoval<T>(a: T, b: T, x: T, y: T)
    requires x != a && x != b && y != a && y != b
    ensures Filtered([a, b], [a, x, y, b]) == [a, y, b]
    ensures !IsInfix([a, b], Filtered([a, b], [a, x, y, b]))
    ensures IsSubsequence([a, b], [a, x, y, b])
  {
    var p := [a, b];
    var t := [a, x, y, b];
    var f := [a, y, b];
    assert a in p && x !in p && b in p;
    assert RemoveFirst(t, x) == f;
    assert FilterFrom(p, f, 3) == f;
    assert FilterFrom(p, f, 2) == f;
    assert FilterFrom(p, t, 1) == f;
    assert FilterFrom(p, t, 0) == f;
    assert f[0..][..2][1] != p[1] && f[1..][..2][0] != p[0];
    assert !IsPrefix(p, f[0..]) && !IsPrefix(p, f[1..]) && !IsPrefix(p, f[2..]) && !IsPrefix(p, f[3..]);
    assert IsSubsequence([b], [b]);
    assert IsSubsequence([b], [y, b]);
    assert IsSubsequence([b], [x, y, b]);
  }

  // ---------------------------------------------------------------------------
  // The matcher as intended: keep exactly the pattern's elements, then look
  // for the pattern as a window.
  // ---------------------------------------------------------------------------

  /** `contains` with the filter step doing what its comment says: drop every element not in the pattern. */
  function ContainsIntended<T(==)>(pattern: seq<T>, target: seq<T>): bool {
    IsInfix(pattern, Project(target, pattern))
  }

  lemma {:induction false} ProjectIsSubsequence<T>(s: seq<T>, pattern: seq<T>)
    ensures IsSubsequence(Project(s, pattern), s)
    decreases |s|
  {
    if s != [] {
      ProjectIsSubsequence(s[1..], pattern);
      if s[0] !in pattern {
        assert Project(s, pattern) == Project(s[1..], pattern);
        if Project(s, pattern) != [] {
          assert IsSubsequence(Project(s, pattern), s[1..]);
        }
      } else {
        assert Project(s, pattern)[1..] == Project(s[1..], pattern);
      }
    }
  }

  lemma {:induction false} ProjectHasOnlyPattern<T>(s: seq<T>, pattern: seq<T>, k: nat)
    requires k < |Project(s, pattern)|
    ensures Project(s, pattern)[k] in pattern
    decreases |s|
  {
    if s[0] in pattern {
      if k > 0 {
        ProjectHasOnlyPattern(s[1..], pattern, k - 1);
      }
    } else {
      ProjectHasOnlyPattern(s[1..], pattern, k);
    }
  }

  lemma {:induction false} ProjectKeepsMember<T>(s: seq<T>, pattern: seq<T>, x: T)
    requires x in s && x in pattern
    ensures x in Project(s, pattern)
    decreases |s|
  {
    if s[0] != x {
      ProjectKeepsMember(s[1..], pattern, x);
    }
  }

  /** A window of the projection of the tail is a window of the projection of the whole. */
  lemma ProjectInfixOfTail<T>(w: seq<T>, s: seq<T>, pattern: seq<T>)
    requires s != [] && IsInfix(w, Project(s[1..], pattern))
    ensures IsInfix(w, Project(s, pattern))
  {
    if s[0] in pattern {
      assert Project(s, pattern)[1..] == Project(s[1..], pattern);
      InfixOfTail(w, Project(s, pattern));
    } else {
      assert Project(s, pattern) == Project(s[1..], pattern);
    }
  }

  lemma {:induction false} PrefixSurvivesProject<T>(w: seq<T>, s: seq<T>, pattern: seq<T>)
    requires IsPrefix(w, s)
    requires forall k :: 0 <= k < |w| ==> w[k] in pattern
    ensures IsPrefix(w, Project(s, pattern))
    decreases |w|
  {
    if w != [] {
      assert s[1..][..|w| - 1] == w[1..];
      PrefixSurvivesProject(w[1..], s[1..], pattern);
      assert Project(s, pattern) == [s[0]] + Project(s[1..], pattern);
    }
  }

  /** A window made only of pattern elements is still a window once everything else is dropped. */
  lemma {:induction false} InfixSurvivesProject<T>(w: seq<T>, s: seq<T>, pattern: seq<T>)
    requires IsInfix(w, s)
    requires forall k :: 0 <= k < |w| ==> w[k] in pattern
    ensures IsInfix(w, Project(s, pattern))
    decreases |s|
  {
    var i :| 0 <= i <= |s| && IsPrefix(w, s[i..]);
    if i == 0 {
      assert s[0..] == s;
      PrefixSurvivesProject(w, s, pattern);
      assert Project(s, pattern)[0..] == Project(s, pattern);
    } else {
      assert s[1..][i - 1..] == s[i..];
      InfixSurvivesProject(w, s[1..], pattern);
      ProjectInfixOfTail(w, s, pattern);
    }
  }

  /** The matcher as written answers true only where the intended matcher does. */
  lemma ContainsImpliesIntended<T>(pattern: seq<T>, target: seq<T>)
    requires IsInfix(pattern, Filtered(pattern, target))
    ensures ContainsIntended(pattern, target)
  {
    InfixSurvivesProject(pattern, Filtered(pattern, target), pattern);
    FilterFromKeepsPattern(pattern, target, 0);
  }

  /** The intended matcher is sound: a match means the pattern occurs in order in the target. */
  lemma ContainsIntendedIsSound<T>(pattern: seq<T>, target: seq<T>)
    requires ContainsIntended(pattern, target)
    ensures IsSubsequence(pattern, target)
  {
    InfixIsSubsequence(pattern, Project(target, pattern));
    ProjectIsSubsequence(target, pattern);
    SubsequenceTransitive(pattern, Project(target, pattern), target);
  }

  /** In a sequence of `a`s and `b`s that starts with `a` and contains `b`, some `a` is directly followed by `b`. */
  lemma {:induction false} AdjacentPair<T>(u: seq<T>, a: T, b: T)
    requires a != b && u != [] && u[0] == a && b in u
    requires forall k :: 0 <= k < |u| ==> u[k] == a || u[k] == b
    ensures IsInfix([a, b], u)
    decreases |u|
  {
    if u[1] == b {
      assert u[0..][..2] == [a, b];
    } else {
      AdjacentPair(u[1..], a, b);
      InfixOfTail([a, b], u);
    }
  }

  lemma {:induction false} SingletonSubsequence<T>(x: T, s: seq<T>)
    requires IsSubsequence([x], s)
    ensures x in s
    decreases |s|
  {
    if s[0] != x {
      SingletonSubsequence(x, s[1..]);
    }
  }

  /**
   For the two-element patterns the order validator builds, the intended
   matcher decides exactly "the first call occurs, and the second occurs
   later".
   */
  lemma {:induction false} ContainsIntendedPairIsOrder<T>(a: T, b: T, target: seq<T>)
    requires a != b
    ensures ContainsIntended([a, b], target) <==> IsSubsequence([a, b], target)
    decreases |target|
  {
    var p := [a, b];
    if ContainsIntended(p, target) {
      ContainsIntendedIsSound(p, target);
    }
    if IsSubsequence(p, target) {
      assert target != [];
      if target[0] == a && IsSubsequence(p[1..], target[1..]) {
        assert p[1..] == [b];
        SingletonSubsequence(b, target[1..]);
        ProjectKeepsMember(target[1..], p, b);
        var u := Project(target, p);
        assert u == [a] + Project(target[1..], p);
        forall k | 0 <= k < |u| ensures u[k] == a || u[k] == b {
          ProjectHasOnlyPattern(target, p, k);
        }
        AdjacentPair(u, a, b);
      } else {
        ContainsIntendedPairIsOrder(a, b, target[1..]);
        ProjectInfixOfTail(p, target, p);
      }
    }
  }

  // ---------------------------------------------------------------------------
  // get_method_bytecode(method_analysis)
  // ---------------------------------------------------------------------------

  /**
   An operand tuple of a disassembled instruction: `(kind, value)` or
   `(kind, value, text)`. `text` is present exactly when the tuple has three
   fields; the kind is never inspected and is not modelled.
   */
  datatype Operand = Operand(value: int, text: Option<string>)

  /** A disassembled instruction: its mnemonic and its operand tuples. */
  datatype Instruction = Instruction(name: string, operands: seq<Operand>)

  /**
   The parameter of a record: the third field of a three-field operand
   (`Named`), else its second field (`Plain`). `Plain` holds whatever that
   second field is (an offset, a literal or a register number): for
   `move v0, v1` the parameter is `Plain(1)`.
   */
  datatype Parameter = Plain(value: int) | Named(text: string)

  /** `BytecodeObject(mnemonic, registers, parameter)`; `None` stands for Python's `None`. */
  datatype BytecodeObject = BytecodeObject(mnemonic: string, registers: Option<seq<string>>, parameter: Option<Parameter>)

  /** The register name the source builds from an operand value: `"v" + str(value)`. */
  function RegisterName(value: int): string {
    "v" + IntToString(value)
  }

  /** Reads the operand value back out of a register name; `None` when the name does not start with `v`. */
  function RegisterIndex(name: string): Option<int> {
    if |name| >= 1 && name[0] == 'v' then Some(ParseInt(name[1..])) else None
  }

  lemma RegisterIndexOfName(value: int)
    ensures RegisterIndex(RegisterName(value)) == Some(value)
  {
    assert RegisterName(value)[1..] == IntToString(value);
    ParseIntToString(value);
  }

  /**
   The record the source builds for one instruction, by operand count:
   none gives no registers and no parameter; one gives the single register
   named by that operand; two or more give a register for every operand but
   the last, in order, and the last operand as the parameter.
   */
  ghost predicate Decodes(ins: Instruction, b: BytecodeObject) {
    var ops := ins.operands;
    b.mnemonic == ins.name &&
    (|ops| == 0 ==> b.registers == None && b.parameter == None) &&
    (|ops| == 1 ==> b.registers == Some([RegisterName(ops[0].value)]) && b.parameter == None) &&
    (|ops| >= 2 ==>
      b.registers.Some? && |b.registers.value| == |ops| - 1 &&
      (forall k :: 0 <= k < |ops| - 1 ==> b.registers.value[k] == RegisterName(ops[k].value)) &&
      b.parameter == Some(if ops[|ops| - 1].text.Some? then Named(ops[|ops| - 1].text.value)
                          else Plain(ops[|ops| - 1].value)))
  }

  /** Decoding is a function of the instruction: one record per instruction. */
  lemma DecodesIsDeterministic(ins: Instruction, b1: BytecodeObject, b2: BytecodeObject)
    requires Decodes(ins, b1) && Decodes(ins, b2)
    ensures b1 == b2
  {
    if |ins.operands| >= 2 {
      assert b1.registers.value == b2.registers.value;
    }
  }

  /**
   Every register of a record names the operand it came from: reading the
   index back out of the `k`-th register gives the `k`-th operand's value.
   */
  lemma DecodedRegisterNamesOperand(ins: Instruction, b: BytecodeObject, k: nat)
    requires Decodes(ins, b) && b.registers.Some? && k < |b.registers.value|
    ensures k < |ins.operands|
    ensures RegisterIndex(b.registers.value[k]) == Some(ins.operands[k].value)
  {
    RegisterIndexOfName(ins.operands[k].value);
  }

  /** The body of the source's loop for one instruction. */
  method DecodeInstruction(ins: Instruction) returns (b: BytecodeObject)
    ensures Decodes(ins, b)
    ensures b.registers.None? <==> |ins.operands| == 0
    ensures b.parameter.Some? <==> |ins.operands| >= 2
  {
    var lengthOperands := |ins.operands|;
    if lengthOperands == 0 {
      b := BytecodeObject(ins.name, None, None);
    } else if lengthOperands == 1 {
      var regList := [RegisterName(ins.operands[lengthOperands - 1].value)];
      b := BytecodeObject(ins.name, Some(regList), None);
    } else {
      var parameter := ins.operands[lengthOperands - 1];
      var regList: seq<string> := [];
      var i := 0;
      while i < lengthOperands - 1
        invariant 0 <= i <= lengthOperands - 1
        invariant |regList| == i
        invariant forall k :: 0 <= k < i ==> regList[k] == RegisterName(ins.operands[k].value)
      {
        regList := regList + [RegisterName(ins.operands[i].value)];
        i := i + 1;
      }
      var param := if parameter.text.Some? then Named(parameter.text.value) else Plain(parameter.value);
      b := BytecodeObject(ins.name, Some(regList), Some(param));
    }
  }

  /**
   `get_method_bytecode`: the records of a method's instructions, one per
   instruction and in order. A method without an instruction body (`None`,
   where the source catches the `AttributeError`) yields nothing.
   */
  method GetMethodBytecode(body: Option<seq<Instruction>>) returns (records: seq<BytecodeObject>)
    ensures body.None? ==> records == []
    ensures body.Some? ==> |records| == |body.value|
    ensures body.Some? ==> forall k :: 0 <= k < |records| ==> Decodes(body.value[k], records[k])
  {
    records := [];
    if body.Some? {
      var instructions := body.value;
      for i := 0 to |instructions|
        invariant |records| == i
        invariant forall k :: 0 <= k < i ==> Decodes(instructions[k], records[k])
      {
        var bytecodeObj := DecodeInstruction(instructions[i]);
        records := records + [bytecodeObj];
      }
    }
  }
}
