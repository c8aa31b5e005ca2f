/**
 * Properties of the flag loop of `handle` and of the positional arguments
 * it leaves: when the loop aborts, which names end up in the flag map and
 * with which tokens, which indices are marked used, and how many tokens
 * are passed to the handler.
 */
module ResolveFacts {
  import opened Tokens
  import opened Schema
  import opened Dispatch
  import opened LookupFacts

  lemma RangeMembership(lo: nat, hi: nat, x: nat)
    requires lo <= hi
    ensures x in Range(lo, hi) <==> lo <= x < hi
  {
    if lo <= x < hi {
      assert Range(lo, hi)[x - lo] == x;
    }
  }

  /** One past the last index the consumption loop started at `start` takes. */
  function TakeEnd(args: seq<Token>, start: nat, expected: int): nat
    requires start <= |args|
  {
    if 0 < expected && start + expected <= |args| then start + expected else |args|
  }

  /**
   * The loop takes the tokens `args[start..TakeEnd]`, marks exactly their
   * indices used, and reports `allFound` exactly when it took `expected` of them.
   */
  lemma TakeArgsSpec(args: seq<Token>, start: nat, expected: int)
    requires start <= |args|
    ensures var t := TakeArgs(args, start, expected);
      |t.values| == |t.indices| == TakeEnd(args, start, expected) - start
      && (forall k :: 0 <= k < |t.indices| ==> t.indices[k] == start + k && t.values[k] == args[start + k])
      && (t.allFound <==> 0 < expected && |t.values| == expected)
  {
  }

  /** Declared flag `f` matched a marker and its argument loop took index `x`. */
  predicate Consumes(args: seq<Token>, ms: seq<Marker>, f: FlagSpec, x: nat)
    requires MarkersWithin(ms, |args|)
  {
    match LookupFlag(ms, f)
    case None => false
    case Some(mk) => mk.idx + 1 <= x < TakeEnd(args, mk.idx + 1, f.expectedArgs)
  }

  /** A pass fails exactly when its flag does, whatever was collected before. */
  lemma StepFails(args: seq<Token>, ms: seq<Marker>, f: FlagSpec, m: FlagMap, used: seq<nat>)
    requires MarkersWithin(ms, |args|)
    ensures Step(args, ms, f, m, used).Failed? <==> FlagFails(args, ms, f)
  {
  }

  /** A flag found by its name at marker `k`, with enough tokens after it, takes the next `expectedArgs` of them. */
  lemma StepTakesArguments(args: seq<Token>, ms: seq<Marker>, f: FlagSpec, m: FlagMap, used: seq<nat>, k: nat)
    requires MarkersWithin(ms, |args|) && k < |ms| && ms[k].name == f.name
    requires forall j :: 0 <= j < k ==> ms[j].name != f.name
    requires 0 < f.expectedArgs && ms[k].idx + 1 + f.expectedArgs <= |args|
    ensures var start := ms[k].idx + 1;
      Step(args, ms, f, m, used)
        == Resolved(Put(m, f.name, args[start..start + f.expectedArgs]), used + Range(start, start + f.expectedArgs))
  {
    LookupByName(ms, f, k);
    assert TakeArgs(args, ms[k].idx + 1, f.expectedArgs).allFound;
  }

  /** The same for a flag of arity 1: it takes the one token after its marker. */
  lemma StepTakesOne(args: seq<Token>, ms: seq<Marker>, f: FlagSpec, m: FlagMap, used: seq<nat>, k: nat)
    requires MarkersWithin(ms, |args|) && k < |ms| && ms[k].name == f.name
    requires forall j :: 0 <= j < k ==> ms[j].name != f.name
    requires f.expectedArgs == 1 && ms[k].idx + 2 <= |args|
    ensures Step(args, ms, f, m, used) == Resolved(Put(m, f.name, [args[ms[k].idx + 1]]), used + [ms[k].idx + 1])
  {
    StepTakesArguments(args, ms, f, m, used, k);
    SliceOne(args, ms[k].idx + 1);
  }

  /** A flag whose name is first carried by marker `k` matches that marker. */
  lemma LookupByName(ms: seq<Marker>, f: FlagSpec, k: nat)
    requires k < |ms| && ms[k].name == f.name
    requires forall j :: 0 <= j < k ==> ms[j].name != f.name
    ensures LookupFlag(ms, f) == Some(ms[k])
  {
    LookupFacts.FindMarkerFirst(ms, f.name, k);
  }

  /** The one token at `start` and its index. */
  lemma SliceOne(args: seq<Token>, start: nat)
    requires start < |args|
    ensures args[start..start + 1] == [args[start]] && Range(start, start + 1) == [start]
  {
    assert args[start..start + 1][0] == args[start];
  }

  /** With two declared flags, the loop's result is that of its second pass. */
  lemma TwoPasses(args: seq<Token>, ms: seq<Marker>, fs: seq<FlagSpec>, m1: FlagMap, u1: seq<nat>, r: FlagStage)
    requires MarkersWithin(ms, |args|) && |fs| == 2
    requires Step(args, ms, fs[0], [], []) == Resolved(m1, u1)
    requires Step(args, ms, fs[1], m1, u1) == r
    ensures ResolveAll(args, ms, fs) == r
  {
    assert ResolveFrom(args, ms, fs, 1, m1, u1) == r;
  }

  /** The flag loop aborts exactly when one of the remaining flags fails. */
  lemma {:induction false} ResolveFromFails(args: seq<Token>, ms: seq<Marker>, fs: seq<FlagSpec>, j: nat, m: FlagMap, used: seq<nat>)
    requires MarkersWithin(ms, |args|) && j <= |fs|
    ensures ResolveFrom(args, ms, fs, j, m, used).Failed? <==> exists i :: j <= i < |fs| && FlagFails(args, ms, fs[i])
    decreases |fs| - j
  {
    if j < |fs| {
      StepFails(args, ms, fs[j], m, used);
      match Step(args, ms, fs[j], m, used)
      case Failed =>
      case Resolved(m', used') =>
        ResolveFromFails(args, ms, fs, j + 1, m', used');
    }
  }

  /**
   * The command's help is the answer of the flag stage exactly when some
   * declared flag is required and unmatched, or matched with too few tokens
   * after it for a positive arity, or matched with a negative arity.
   */
  lemma ResolveAllFails(args: seq<Token>, ms: seq<Marker>, fs: seq<FlagSpec>)
    requires MarkersWithin(ms, |args|)
    ensures ResolveAll(args, ms, fs).Failed? <==> exists i :: 0 <= i < |fs| && FlagFails(args, ms, fs[i])
  {
    ResolveFromFails(args, ms, fs, 0, [], []);
  }

  /** `set` adds its key to the keys and removes none, with or without repeated keys. */
  lemma PutKeys(m: FlagMap, key: string, value: seq<Token>, name: string)
    ensures name in Keys(Put(m, key, value)) <==> name in Keys(m) || name == key
  {
    match FirstIndexOf(Keys(m), key)
    case None =>
      assert Keys(m + [(key, value)]) == Keys(m) + [key];
    case Some(i) =>
      assert Keys(m[i := (key, value)]) == Keys(m);
  }

  /** Some declared flag from pass `j` on has this name and matched a marker. */
  predicate MatchedFrom(ms: seq<Marker>, fs: seq<FlagSpec>, j: nat, name: string) {
    exists i :: j <= i < |fs| && fs[i].name == name && LookupFlag(ms, fs[i]).Some?
  }

  lemma MatchedFromStep(ms: seq<Marker>, fs: seq<FlagSpec>, j: nat, name: string)
    requires j < |fs|
    ensures MatchedFrom(ms, fs, j, name) <==>
      (fs[j].name == name && LookupFlag(ms, fs[j]).Some?) || MatchedFrom(ms, fs, j + 1, name)
  {
    if MatchedFrom(ms, fs, j, name) {
      var i :| j <= i < |fs| && fs[i].name == name && LookupFlag(ms, fs[i]).Some?;
      if i > j {
        assert MatchedFrom(ms, fs, j + 1, name);
      }
    }
  }

  /** One pass adds its flag's name to the keys when that flag matched, and otherwise leaves the keys alone. */
  lemma StepKeys(args: seq<Token>, ms: seq<Marker>, f: FlagSpec, m: FlagMap, used: seq<nat>, name: string)
    requires MarkersWithin(ms, |args|) && Step(args, ms, f, m, used).Resolved?
    ensures name in Keys(Step(args, ms, f, m, used).flags) <==>
      name in Keys(m) || (f.name == name && LookupFlag(ms, f).Some?)
  {
    match LookupFlag(ms, f)
    case None =>
      assert Step(args, ms, f, m, used).flags == m;
    case Some(mk) =>
      var values := TakeArgs(args, mk.idx + 1, f.expectedArgs).values;
      assert Step(args, ms, f, m, used).flags == Put(m, f.name, values);
      PutKeys(m, f.name, values, name);
  }

  /** After the loop from pass `j`, a name is a key when it was one before or a later flag of that name matched. */
  lemma {:induction false} ResolveFromKeys(args: seq<Token>, ms: seq<Marker>, fs: seq<FlagSpec>, j: nat, m: FlagMap, used: seq<nat>, name: string)
    requires MarkersWithin(ms, |args|) && j <= |fs|
    requires ResolveFrom(args, ms, fs, j, m, used).Resolved?
    ensures name in Keys(ResolveFrom(args, ms, fs, j, m, used).flags) <==> name in Keys(m) || MatchedFrom(ms, fs, j, name)
    decreases |fs| - j
  {
    if j < |fs| {
      MatchedFromStep(ms, fs, j, name);
      var st := Step(args, ms, fs[j], m, used);
      StepKeys(args, ms, fs[j], m, used, name);
      ResolveFromKeys(args, ms, fs, j + 1, st.flags, st.used, name);
    }
  }

  /** The flag map holds exactly the canonical names of the declared flags that matched a marker. */
  lemma ResolveAllKeys(args: seq<Token>, ms: seq<Marker>, fs: seq<FlagSpec>, name: string)
    requires MarkersWithin(ms, |args|) && ResolveAll(args, ms, fs).Resolved?
    ensures name in Keys(ResolveAll(args, ms, fs).flags) <==> MatchedFrom(ms, fs, 0, name)
  {
    ResolveFromKeys(args, ms, fs, 0, [], [], name);
  }

  lemma {:induction false} ResolveFromUniqueKeys(args: seq<Token>, ms: seq<Marker>, fs: seq<FlagSpec>, j: nat, m: FlagMap, used: seq<nat>)
    requires MarkersWithin(ms, |args|) && j <= |fs| && UniqueKeys(m)
    requires ResolveFrom(args, ms, fs, j, m, used).Resolved?
    ensures UniqueKeys(ResolveFrom(args, ms, fs, j, m, used).flags)
    decreases |fs| - j
  {
    if j < |fs| {
      match Step(args, ms, fs[j], m, used)
      case Resolved(m', used') =>
        if LookupFlag(ms, fs[j]).Some? {
          PutSpec(m, fs[j].name, TakeArgs(args, LookupFlag(ms, fs[j]).value.idx + 1, fs[j].expectedArgs).values);
        }
        ResolveFromUniqueKeys(args, ms, fs, j + 1, m', used');
    }
  }

  /** Like a JavaScript `Map`, the flag map never holds a name twice, even when two declared flags share it. */
  lemma ResolveAllUniqueKeys(args: seq<Token>, ms: seq<Marker>, fs: seq<FlagSpec>)
    requires MarkersWithin(ms, |args|) && ResolveAll(args, ms, fs).Resolved?
    ensures UniqueKeys(ResolveAll(args, ms, fs).flags)
  {
    ResolveFromUniqueKeys(args, ms, fs, 0, [], []);
  }

  /** A name that no remaining flag matches keeps the value it had. */
  lemma {:induction false} ResolveFromKeepsGet(args: seq<Token>, ms: seq<Marker>, fs: seq<FlagSpec>, j: nat, m: FlagMap, used: seq<nat>, name: string)
    requires MarkersWithin(ms, |args|) && j <= |fs| && UniqueKeys(m)
    requires ResolveFrom(args, ms, fs, j, m, used).Resolved?
    requires !MatchedFrom(ms, fs, j, name)
    ensures Get(ResolveFrom(args, ms, fs, j, m, used).flags, name) == Get(m, name)
    decreases |fs| - j
  {
    if j < |fs| {
      match Step(args, ms, fs[j], m, used)
      case Resolved(m', used') =>
        if LookupFlag(ms, fs[j]).Some? {
          PutSpec(m, fs[j].name, TakeArgs(args, LookupFlag(ms, fs[j]).value.idx + 1, fs[j].expectedArgs).values);
        }
        MatchedFromStep(ms, fs, j, name);
        ResolveFromKeepsGet(args, ms, fs, j + 1, m', used', name);
    }
  }

  /** One pass keeps the keys unique, and a matched flag's name then maps to the tokens it took. */
  lemma StepPut(args: seq<Token>, ms: seq<Marker>, f: FlagSpec, m: FlagMap, used: seq<nat>)
    requires MarkersWithin(ms, |args|) && UniqueKeys(m) && Step(args, ms, f, m, used).Resolved?
    ensures UniqueKeys(Step(args, ms, f, m, used).flags)
    ensures LookupFlag(ms, f).Some? ==>
      Get(Step(args, ms, f, m, used).flags, f.name) == Some(TakeArgs(args, LookupFlag(ms, f).value.idx + 1, f.expectedArgs).values)
  {
    if LookupFlag(ms, f).Some? {
      PutSpec(m, f.name, TakeArgs(args, LookupFlag(ms, f).value.idx + 1, f.expectedArgs).values);
    }
  }

  /** The value of a name is what the last flag of that name that matched a marker consumed. */
  lemma {:induction false} ResolveFromValue(args: seq<Token>, ms: seq<Marker>, fs: seq<FlagSpec>, j: nat, m: FlagMap, used: seq<nat>, i: nat)
    requires MarkersWithin(ms, |args|) && j <= i < |fs| && UniqueKeys(m)
    requires ResolveFrom(args, ms, fs, j, m, used).Resolved?
    requires LookupFlag(ms, fs[i]).Some? && !MatchedFrom(ms, fs, i + 1, fs[i].name)
    ensures Get(ResolveFrom(args, ms, fs, j, m, used).flags, fs[i].name)
      == Some(TakeArgs(args, LookupFlag(ms, fs[i]).value.idx + 1, fs[i].expectedArgs).values)
    decreases |fs| - j
  {
    var st := Step(args, ms, fs[j], m, used);
    assert st.Resolved?;
    assert ResolveFrom(args, ms, fs, j, m, used) == ResolveFrom(args, ms, fs, j + 1, st.flags, st.used);
    StepPut(args, ms, fs[j], m, used);
    if j == i {
      ResolveFromKeepsGet(args, ms, fs, j + 1, st.flags, st.used, fs[i].name);
    } else {
      ResolveFromValue(args, ms, fs, j + 1, st.flags, st.used, i);
    }
  }

  /**
   * `inputFlags.get(name)`: for a name no matching flag declared, nothing;
   * otherwise the tokens the last matching flag of that name consumed.
   */
  lemma ResolveAllValue(args: seq<Token>, ms: seq<Marker>, fs: seq<FlagSpec>, i: nat)
    requires MarkersWithin(ms, |args|) && ResolveAll(args, ms, fs).Resolved? && i < |fs|
    requires LookupFlag(ms, fs[i]).Some? && !MatchedFrom(ms, fs, i + 1, fs[i].name)
    ensures Get(ResolveAll(args, ms, fs).flags, fs[i].name)
      == Some(TakeArgs(args, LookupFlag(ms, fs[i]).value.idx + 1, fs[i].expectedArgs).values)
  {
    ResolveFromValue(args, ms, fs, 0, [], [], i);
  }

  lemma ResolveAllAbsent(args: seq<Token>, ms: seq<Marker>, fs: seq<FlagSpec>, name: string)
    requires MarkersWithin(ms, |args|) && ResolveAll(args, ms, fs).Resolved?
    requires !MatchedFrom(ms, fs, 0, name)
    ensures Get(ResolveAll(args, ms, fs).flags, name) == None
  {
    ResolveAllKeys(args, ms, fs, name);
  }

  lemma StepUsed(args: seq<Token>, ms: seq<Marker>, f: FlagSpec, m: FlagMap, used: seq<nat>, x: nat)
    requires MarkersWithin(ms, |args|) && Step(args, ms, f, m, used).Resolved?
    ensures x in Step(args, ms, f, m, used).used <==> x in used || Consumes(args, ms, f, x)
  {
    match LookupFlag(ms, f)
    case None =>
    case Some(mk) =>
      var start := mk.idx + 1;
      assert mk in ms;
      RangeMembership(start, TakeEnd(args, start, f.expectedArgs), x);
  }

  lemma {:induction false} ResolveFromUsed(args: seq<Token>, ms: seq<Marker>, fs: seq<FlagSpec>, j: nat, m: FlagMap, used: seq<nat>, x: nat)
    requires MarkersWithin(ms, |args|) && j <= |fs|
    requires ResolveFrom(args, ms, fs, j, m, used).Resolved?
    ensures x in ResolveFrom(args, ms, fs, j, m, used).used <==>
      x in used || exists i :: j <= i < |fs| && Consumes(args, ms, fs[i], x)
    decreases |fs| - j
  {
    if j < |fs| {
      StepUsed(args, ms, fs[j], m, used, x);
      match Step(args, ms, fs[j], m, used)
      case Resolved(m', used') =>
        ResolveFromUsed(args, ms, fs, j + 1, m', used', x);
    }
  }

  /** An index is marked used exactly when some matched flag's argument loop took it. */
  lemma ResolveAllUsed(args: seq<Token>, ms: seq<Marker>, fs: seq<FlagSpec>, x: nat)
    requires MarkersWithin(ms, |args|) && ResolveAll(args, ms, fs).Resolved?
    ensures x in ResolveAll(args, ms, fs).used <==> exists i :: 0 <= i < |fs| && Consumes(args, ms, fs[i], x)
  {
    ResolveFromUsed(args, ms, fs, 0, [], [], x);
  }

  /** Used indices lie after index 0 (a flag's arguments start after its marker) and inside the input. */
  lemma ResolveAllUsedWithin(args: seq<Token>, ms: seq<Marker>, fs: seq<FlagSpec>)
    requires MarkersWithin(ms, |args|) && ResolveAll(args, ms, fs).Resolved?
    ensures forall x :: x in ResolveAll(args, ms, fs).used ==> 0 < x < |args|
  {
    forall x | x in ResolveAll(args, ms, fs).used ensures 0 < x < |args| {
      ResolveAllUsed(args, ms, fs, x);
    }
  }

  /** Every index in `a..n-1` is used. */
  predicate AllUsed(used: seq<nat>, a: nat, n: nat) {
    forall x :: a <= x < n ==> x in used
  }

  /** A matched flag of arity 0 takes every token after its marker, so they are all used. */
  lemma ZeroArityFlagSwallowsRest(args: seq<Token>, ms: seq<Marker>, fs: seq<FlagSpec>, i: nat)
    requires MarkersWithin(ms, |args|) && ResolveAll(args, ms, fs).Resolved?
    requires i < |fs| && fs[i].expectedArgs == 0 && LookupFlag(ms, fs[i]).Some?
    ensures AllUsed(ResolveAll(args, ms, fs).used, LookupFlag(ms, fs[i]).value.idx + 1, |args|)
  {
    forall x | LookupFlag(ms, fs[i]).value.idx + 1 <= x < |args| ensures x in ResolveAll(args, ms, fs).used {
      assert Consumes(args, ms, fs[i], x);
      ResolveAllUsed(args, ms, fs, x);
    }
  }

  /** Every kept token: not the command slot 0 and not used. */
  lemma {:induction false} PassedMembership(args: seq<Token>, used: seq<nat>, n: nat, t: Token)
    requires n <= |args|
    ensures t in PassedUpTo(args, used, n) <==> exists k :: 0 < k < n && k !in used && args[k] == t
  {
    if n > 0 {
      PassedMembership(args, used, n - 1, t);
    }
  }

  /** Tokens at used indices are never passed, so once every index from `a` on is used nothing after `a` is passed. */
  lemma {:induction false} PassedStopsAtUsed(args: seq<Token>, used: seq<nat>, a: nat, n: nat)
    requires a <= n <= |args| && AllUsed(used, a, n)
    ensures PassedUpTo(args, used, n) == PassedUpTo(args, used, a)
    decreases n
  {
    if n > a {
      PassedStopsAtUsed(args, used, a, n - 1);
    }
  }

  /** After a matched zero-arity flag, no token becomes a positional argument. */
  lemma ZeroArityFlagEndsPositionals(args: seq<Token>, ms: seq<Marker>, fs: seq<FlagSpec>, i: nat)
    requires MarkersWithin(ms, |args|) && ResolveAll(args, ms, fs).Resolved?
    requires i < |fs| && fs[i].expectedArgs == 0 && LookupFlag(ms, fs[i]).Some?
    ensures var a := LookupFlag(ms, fs[i]).value.idx + 1;
      a <= |args| && PassedUpTo(args, ResolveAll(args, ms, fs).used, |args|) == PassedUpTo(args, ResolveAll(args, ms, fs).used, a)
  {
    var mk := LookupFlag(ms, fs[i]).value;
    var used := ResolveAll(args, ms, fs).used;
    ZeroArityFlagSwallowsRest(args, ms, fs, i);
    assert mk in ms;
    PassedStopsAtUsed(args, used, mk.idx + 1, |args|);
  }

  /** The indices in `1..n-1` that are used. */
  function UsedBelow(used: seq<nat>, n: nat): set<nat> {
    set x | x in used && 0 < x < n
  }

  /**
   * No token is counted twice: the passed tokens, the used indices (as a
   * set) and the command slot together account for the whole input.
   */
  lemma {:induction false} PassedCount(args: seq<Token>, used: seq<nat>, n: nat)
    requires 1 <= n <= |args|
    ensures |PassedUpTo(args, used, n)| + |UsedBelow(used, n)| + 1 == n
  {
    if n > 1 {
      PassedCount(args, used, n - 1);
      if n - 1 in used {
        assert UsedBelow(used, n) == UsedBelow(used, n - 1) + {n - 1};
      } else {
        assert UsedBelow(used, n) == UsedBelow(used, n - 1);
      }
    } else {
      assert UsedBelow(used, 1) == {};
    }
  }

  /** How many tokens the matched flags from pass `j` on consume, added up flag by flag. */
  function ConsumedFrom(args: seq<Token>, ms: seq<Marker>, fs: seq<FlagSpec>, j: nat): nat
    requires MarkersWithin(ms, |args|) && j <= |fs|
    decreases |fs| - j
  {
    if j == |fs| then 0
    else
      var here := match LookupFlag(ms, fs[j])
        case None => 0
        case Some(mk) => |TakeArgs(args, mk.idx + 1, fs[j].expectedArgs).values|;
      here + ConsumedFrom(args, ms, fs, j + 1)
  }

  /** Each matched flag pushes one used index per consumed token. */
  lemma {:induction false} ResolveFromUsedCount(args: seq<Token>, ms: seq<Marker>, fs: seq<FlagSpec>, j: nat, m: FlagMap, used: seq<nat>)
    requires MarkersWithin(ms, |args|) && j <= |fs|
    requires ResolveFrom(args, ms, fs, j, m, used).Resolved?
    ensures |ResolveFrom(args, ms, fs, j, m, used).used| == |used| + ConsumedFrom(args, ms, fs, j)
    decreases |fs| - j
  {
    if j < |fs| {
      match Step(args, ms, fs[j], m, used)
      case Resolved(m', used') =>
        match LookupFlag(ms, fs[j])
        case None =>
          ResolveFromUsedCount(args, ms, fs, j + 1, m', used');
        case Some(mk) =>
          assert mk in ms;
          TakeArgsSpec(args, mk.idx + 1, fs[j].expectedArgs);
          ResolveFromUsedCount(args, ms, fs, j + 1, m', used');
    }
  }

  predicate NoDuplicates(s: seq<nat>) {
    forall a, b :: 0 <= a < b < |s| ==> s[a] != s[b]
  }

  function Elements(s: seq<nat>): set<nat> {
    set x | x in s
  }

  lemma {:induction false} DistinctCount(s: seq<nat>)
    requires NoDuplicates(s)
    ensures |Elements(s)| == |s|
  {
    if s != [] {
      assert NoDuplicates(s[1..]) by {
        forall a, b | 0 <= a < b < |s[1..]| ensures s[1..][a] != s[1..][b] {
          assert s[1..][a] == s[a + 1] && s[1..][b] == s[b + 1];
        }
      }
      DistinctCount(s[1..]);
      assert s[0] !in Elements(s[1..]);
      assert Elements(s) == Elements(s[1..]) + {s[0]};
    }
  }

  /**
   * When no index is consumed by two flags, the positional arguments, the
   * consumed flag arguments and the command token add up to the input length.
   */
  lemma TokenAccounting(args: seq<Token>, ms: seq<Marker>, fs: seq<FlagSpec>)
    requires MarkersWithin(ms, |args|) && |args| >= 1
    requires ResolveAll(args, ms, fs).Resolved? && NoDuplicates(ResolveAll(args, ms, fs).used)
    ensures |PassedUpTo(args, ResolveAll(args, ms, fs).used, |args|)| + ConsumedFrom(args, ms, fs, 0) + 1 == |args|
  {
    var used := ResolveAll(args, ms, fs).used;
    ResolveFromUsedCount(args, ms, fs, 0, [], []);
    ResolveAllUsedWithin(args, ms, fs);
    DistinctCount(used);
    assert UsedBelow(used, |args|) == Elements(used);
    PassedCount(args, used, |args|);
  }

  /**
   * Without that condition the sum over-counts: when the second-to-last
   * alias of a second flag is the first flag's name, both flags match the
   * same marker and both consume the token after it.
   */
  lemma TwoFlagsShareToken(args: seq<Token>, fs: seq<FlagSpec>)
    requires |args| == 3 && |fs| == 2 && fs[0].name != fs[1].name
    requires fs[0].expectedArgs == 1 && fs[1].expectedArgs == 1
    requires |fs[1].aliases| >= 2 && fs[1].aliases[|fs[1].aliases| - 2] == fs[0].name
    ensures var ms := [Marker(fs[0].name, 1)];
      ResolveAll(args, ms, fs) == Resolved([(fs[0].name, [args[2]]), (fs[1].name, [args[2]])], [2, 2])
      && ConsumedFrom(args, ms, fs, 0) == 2
  {
    var ms := [Marker(fs[0].name, 1)];
    var v := args[2];
    var m1 := [(fs[0].name, [v])];
    var m2 := [(fs[0].name, [v]), (fs[1].name, [v])];
    var t := TakeArgs(args, 2, 1);
    assert t == Taken([v], [2], true) by {
      assert args[2..3] == [v] && Range(2, 3) == [2];
    }
    assert LookupFlag(ms, fs[0]) == Some(ms[0]) by {
      LookupFacts.FindMarkerFirst(ms, fs[0].name, 0);
    }
    assert LookupFlag(ms, fs[1]) == Some(ms[0]) by {
      LookupFlagEffect(ms, fs[1]);
      LookupFacts.FindMarkerFirst(ms, fs[0].name, 0);
    }
    assert Put([], fs[0].name, [v]) == m1;
    assert Step(args, ms, fs[0], [], []) == Resolved(m1, [2]);
    PutSecond(fs[0].name, [v], fs[1].name, [v]);
    assert Step(args, ms, fs[1], m1, [2]) == Resolved(m2, [2, 2]);
    assert ResolveFrom(args, ms, fs, 1, m1, [2]) == Resolved(m2, [2, 2]);
    assert ConsumedFrom(args, ms, fs, 1) == 1;
  }

  /**
   * For `cmd --a x` with `--a` of arity 1 and `--b` of arity 1 whose aliases
   * are `--a z`, the one token `x` is consumed twice, and the kept tokens,
   * the consumed tokens and the command slot add up to one more than the
   * input has.
   */
  lemma DoubleConsumptionExample(args: seq<Token>, fs: seq<FlagSpec>)
    requires args == [Str("cmd"), Str("--a"), Str("x")]
    requires fs == [FlagSpec("--a", "", 1, [], false), FlagSpec("--b", "", 1, ["--a", "z"], false)]
    ensures ResolveAll(args, FlagMarkers(args), fs) == Resolved([("--a", [Str("x")]), ("--b", [Str("x")])], [2, 2])
    ensures PassedUpTo(args, [2, 2], |args|) == [Str("--a")]
    ensures |PassedUpTo(args, [2, 2], |args|)| + ConsumedFrom(args, FlagMarkers(args), fs, 0) + 1 == |args| + 1
  {
    assert !IsFlagToken(args[0]) by { assert args[0].s[0] == 'c'; }
    assert !IsFlagToken(args[2]) by { assert args[2].s[0] == 'x'; }
    assert IsFlagToken(args[1]);
    assert Markers(args, 1, true) == [];
    assert Markers(args, 2, true) == [Marker("--a", 1)];
    assert FlagMarkers(args) == [Marker(fs[0].name, 1)];
    assert fs[1].aliases[0] == fs[0].name;
    TwoFlagsShareToken(args, fs);
    assert PassedUpTo(args, [2, 2], 1) == [];
  }

  /**
   * Overlap without aliases: a zero-arity flag takes everything after its
   * marker, the next flag's marker and argument included, and that next
   * flag then takes its argument again.
   */
  lemma ZeroArityOverlapsNextFlag(args: seq<Token>, fs: seq<FlagSpec>)
    requires |args| == 4 && |fs| == 2 && fs[0].name != fs[1].name
    requires fs[0].expectedArgs == 0 && fs[1].expectedArgs == 1
    ensures var ms := [Marker(fs[0].name, 1), Marker(fs[1].name, 2)];
      MarkersWithin(ms, |args|)
      && ResolveAll(args, ms, fs) == Resolved([(fs[0].name, [args[2], args[3]]), (fs[1].name, [args[3]])], [2, 3, 3])
  {
    var ms := [Marker(fs[0].name, 1), Marker(fs[1].name, 2)];
    assert MarkersWithin(ms, |args|);
    var m1 := [(fs[0].name, [args[2], args[3]])];
    assert Step(args, ms, fs[0], [], []) == Resolved(m1, [2, 3]) by {
      LookupByName(ms, fs[0], 0);
      assert args[2..] == [args[2], args[3]] && Range(2, 4) == [2, 3];
      assert Put([], fs[0].name, [args[2], args[3]]) == m1;
    }
    assert Step(args, ms, fs[1], m1, [2, 3]) == Resolved(Put(m1, fs[1].name, [args[3]]), [2, 3, 3]) by {
      StepTakesOne(args, ms, fs[1], m1, [2, 3], 1);
    }
    PutSecond(fs[0].name, [args[2], args[3]], fs[1].name, [args[3]]);
    TwoPasses(args, ms, fs, m1, [2, 3], Resolved([(fs[0].name, [args[2], args[3]]), (fs[1].name, [args[3]])], [2, 3, 3]));
  }

  /** `cmd --a --b y` has the flag markers `--a` at 1 and `--b` at 2. */
  lemma OverlapCallMarkers(args: seq<Token>)
    requires args == [Str("cmd"), Str("--a"), Str("--b"), Str("y")]
    ensures FlagMarkers(args) == [Marker("--a", 1), Marker("--b", 2)]
  {
    assert !IsFlagToken(args[0]) by { assert args[0].s[0] == 'c'; }
    assert !IsFlagToken(args[3]) by { assert args[3].s[0] == 'y'; }
    assert IsFlagToken(args[1]) && IsFlagToken(args[2]);
    assert Markers(args, 1, true) == [];
    assert Markers(args, 2, true) == [Marker("--a", 1)];
    assert Markers(args, 3, true) == [Marker("--a", 1), Marker("--b", 2)];
  }

  /** With indices 2 and 3 used, only the token at index 1 is passed. */
  lemma OverlapCallPassed(args: seq<Token>, used: seq<nat>)
    requires |args| == 4 && used == [2, 3, 3]
    ensures PassedUpTo(args, used, |args|) == [args[1]]
  {
    assert PassedUpTo(args, used, 1) == [];
    assert 1 !in used && 2 in used && 3 in used;
    assert PassedUpTo(args, used, 2) == [args[1]];
    assert PassedUpTo(args, used, 3) == [args[1]];
  }

  /**
   * For `cmd --a --b y` with `--a` of arity 0 and `--b` of arity 1, index 3
   * is used twice, and only the marker `--a` is left to pass.
   */
  lemma ZeroArityOverlapExample(args: seq<Token>, fs: seq<FlagSpec>)
    requires args == [Str("cmd"), Str("--a"), Str("--b"), Str("y")]
    requires fs == [FlagSpec("--a", "", 0, [], false), FlagSpec("--b", "", 1, [], false)]
    ensures ResolveAll(args, FlagMarkers(args), fs) == Resolved([("--a", [Str("--b"), Str("y")]), ("--b", [Str("y")])], [2, 3, 3])
    ensures PassedUpTo(args, [2, 3, 3], |args|) == [Str("--a")]
  {
    OverlapCallMarkers(args);
    assert fs[0].name[2] != fs[1].name[2];
    ZeroArityOverlapsNextFlag(args, fs);
    OverlapCallPassed(args, [2, 3, 3]);
  }

  /** A flag marker is passed to the handler as a positional token unless another flag consumed it. */
  lemma FlagMarkerStaysPositional(args: seq<Token>, fs: seq<FlagSpec>, x: nat)
    requires ResolveAll(args, FlagMarkers(args), fs).Resolved?
    requires 0 < x < |args| && IsFlagToken(args[x])
    requires forall i :: 0 <= i < |fs| ==> !Consumes(args, FlagMarkers(args), fs[i], x)
    ensures args[x] in PassedUpTo(args, ResolveAll(args, FlagMarkers(args), fs).used, |args|)
  {
    var ms := FlagMarkers(args);
    ResolveAllUsed(args, ms, fs, x);
    PassedMembership(args, ResolveAll(args, ms, fs).used, |args|, args[x]);
  }
}
