/** Laws of ranking, selection and cost reduction. */
module PolicySelection {
  import opened Prelude
  import opened Text
  import opened Sequences
  import opened Tallies
  import opened PolicyTypes
  import opened PolicyRules
  import opened PolicyDecision

  // ---- keys ----------------------------------------------------------------------------

  lemma SameKeySameCandidate(s: seq<Candidate>, a: Candidate, b: Candidate)
    requires DistinctProviderKeys(s) && a in s && b in s && a.Key() == b.Key()
    ensures a == b
  {
  }

  lemma EligibleMember(task: Task, s: seq<Candidate>, c: Candidate)
    ensures c in Eligible(task, s) <==>
        c in s && Qualified(task, c)
  {
    hide Capabilities, Qualified, ExclusionOf, Deserves;
    ExclusionMeans(task, c);
    CollectMember(IfEligible(Capabilities(task.requiredCapabilities), task.sensitivity), s, c);
  }

  lemma ExcludedMember(task: Task, s: seq<Candidate>, e: Exclusion)
    ensures e in Exclusions(task, s) <==>
        exists c | c in s :: e.agentKey == c.Key() && Deserves(task, c, e.reason)
  {
    var f := IfExcluded(Capabilities(task.requiredCapabilities), task.sensitivity);
    hide Capabilities, Qualified, ExclusionOf, Deserves, Candidate.Key;
    CollectMember(f, s, e);
    forall c
      ensures f(c) == Some(e) <==> e.agentKey == c.Key() && Deserves(task, c, e.reason)
    {
      ExclusionMeans(task, c);
    }
  }

  /** Every candidate is either ranked or excluded. */
  lemma {:induction false} EveryoneCounted(task: Task, s: seq<Candidate>)
    ensures |Eligible(task, s)| + |Exclusions(task, s)| == |s|
  {
    hide Capabilities, ExclusionOf, Candidate.Key;
    if s != [] {
      EveryoneCounted(task, s[1..]);
    }
  }

  lemma {:induction false} EligibleDistinct(task: Task, s: seq<Candidate>)
    requires DistinctProviderKeys(s)
    ensures DistinctProviderKeys(Eligible(task, s))
  {
    if s != [] {
      var rest := Eligible(task, s[1..]);
      EligibleDistinct(task, s[1..]);
      forall j | 0 <= j < |rest|
        ensures rest[j].Key() != s[0].Key()
      {
        EligibleMember(task, s[1..], rest[j]);
        var k :| 0 <= k < |s[1..]| && s[1..][k] == rest[j];
        assert s[k + 1] == rest[j];
      }
      assert Eligible(task, s) == rest || Eligible(task, s) == [s[0]] + rest;
    }
  }

  /** Ranking keeps exactly the eligible candidates, each once, best first. */
  lemma RankedLaws(task: Task, s: seq<Candidate>)
    requires DistinctProviderKeys(s)
    ensures var ranked := Ranked(task, s);
      && Ascending(RankKey, ranked)
      && DistinctProviderKeys(ranked)
      && forall c :: c in ranked <==>
          c in s && Qualified(task, c)
  {
    var eligible, ranked := Eligible(task, s), Ranked(task, s);
    EligibleDistinct(task, s);
    forall c
      ensures c in eligible <==>
          c in s && Qualified(task, c)
    {
      EligibleMember(task, s, c);
    }
    forall i, j | 0 <= i < j < |eligible|
      ensures RankKey(eligible[i]) != RankKey(eligible[j])
    {
      assert eligible[i].Key() != eligible[j].Key();
      RankKeyDistinct(eligible[i], eligible[j]);
    }
    SortAscending(RankKey, eligible);
    SameMembers(ranked, eligible);
    forall c
      ensures c in ranked <==> c in eligible
    {
      assert c in ranked <==> c in multiset(ranked);
      assert c in eligible <==> c in multiset(eligible);
    }
    forall i, j | 0 <= i < j < |ranked|
      ensures ranked[i].Key() != ranked[j].Key()
    {
      CompareSeqEqual(RankKey(ranked[i]), RankKey(ranked[j]));
      assert ranked[i] in s && ranked[j] in s;
      if ranked[i].Key() == ranked[j].Key() {
        SameKeySameCandidate(s, ranked[i], ranked[j]);
      }
    }
  }

  /** The required keys, each once, in key order. */
  lemma RequiredLaws(task: Task)
    requires ValidTask(task)
    ensures var required := RequiredSelection(task);
      && Ascending(Codes, required)
      && (forall k :: k in required <==> k in TrimAll(task.requiredAgentKeys) || Some(k) == ReviewerKey(task))
  {
    hide Trim, Sort, Codes, Ascending, NamedKeys, DistinctKeys;
    NamedKeysLaws(task);
    DistinctCodes(NamedKeys(task));
    SortAscending(Codes, NamedKeys(task));
    SortMembers(NamedKeys(task));
  }

  lemma NamedKeysLaws(task: Task)
    requires ValidTask(task)
    ensures forall i, j | 0 <= i < j < |NamedKeys(task)| :: NamedKeys(task)[i] != NamedKeys(task)[j]
    ensures forall k :: k in NamedKeys(task) <==> k in TrimAll(task.requiredAgentKeys) || Some(k) == ReviewerKey(task)
  {
    hide Trim, ValidAgentKey, ValidCapabilities;
    var keys := TrimAll(task.requiredAgentKeys);
    assert forall i, j | 0 <= i < j < |keys| :: keys[i] != keys[j];
  }

  lemma DistinctCodes(all: seq<string>)
    requires forall i, j | 0 <= i < j < |all| :: all[i] != all[j]
    ensures DistinctKeys(Codes, all)
  {
    hide Codes;
    forall i, j | 0 <= i < j < |all|
      ensures Codes(all[i]) != Codes(all[j])
    {
      if Codes(all[i]) == Codes(all[j]) {
        CodesInjective(all[i], all[j]);
      }
    }
  }

  lemma SortMembers(all: seq<string>)
    ensures forall k :: k in Sort(Codes, all) <==> k in all
  {
    hide Codes;
    forall k
      ensures k in Sort(Codes, all) <==> k in all
    {
      assert k in Sort(Codes, all) <==> k in multiset(Sort(Codes, all));
      assert k in all <==> k in multiset(all);
    }
  }

  // ---- required and optional candidates -------------------------------------------------

  lemma {:induction false} FoundLaws(required: seq<string>, ranked: seq<Candidate>)
    requires forall k | k in required :: Offered(ranked, k)
    ensures var found := FindAll(required, ranked);
      |found| == |required|
      && forall i | 0 <= i < |found| :: found[i] in ranked && found[i].Key() == required[i]
  {
    if required != [] {
      assert required == [required[0]] + required[1..];
      FoundLaws(required[1..], ranked);
    }
  }

  lemma OptionalLaws(ranked: seq<Candidate>, required: seq<string>)
    ensures forall c :: c in Optional(ranked, required) <==> c in ranked && c.Key() !in required
    ensures Ascending(RankKey, ranked) ==> Ascending(RankKey, Optional(ranked, required))
    ensures required == [] ==> Optional(ranked, required) == ranked
  {
    hide Optional, Ascending;
    OptionalMembers(ranked, required);
    if Ascending(RankKey, ranked) {
      OptionalAscending(ranked, required);
    }
  }

  lemma {:induction false} OptionalMembers(ranked: seq<Candidate>, required: seq<string>)
    ensures forall c :: c in Optional(ranked, required) <==> c in ranked && c.Key() !in required
    ensures required == [] ==> Optional(ranked, required) == ranked
  {
    hide Trim;
    if ranked != [] {
      assert ranked == [ranked[0]] + ranked[1..];
      OptionalMembers(ranked[1..], required);
    }
  }

  lemma {:induction false} OptionalAscending(ranked: seq<Candidate>, required: seq<string>)
    requires Ascending(RankKey, ranked)
    ensures Ascending(RankKey, Optional(ranked, required))
  {
    hide Trim, Ascending;
    if ranked != [] {
      var rest := Optional(ranked[1..], required);
      OptionalMembers(ranked[1..], required);
      AscendingTail(ranked);
      OptionalAscending(ranked[1..], required);
      AscendingPrepend(ranked[0], rest);
      assert [] + rest == rest;
    }
  }

  lemma AscendingTail(s: seq<Candidate>)
    requires Ascending(RankKey, s) && s != []
    ensures Ascending(RankKey, s[1..])
    ensures forall c | c in s[1..] :: CompareSeq(RankKey(s[0]), RankKey(c)).Less?
  {
    hide RankKey, CompareSeq;
  }

  lemma AscendingPrepend(x: Candidate, s: seq<Candidate>)
    requires Ascending(RankKey, s)
    requires forall c | c in s :: CompareSeq(RankKey(x), RankKey(c)).Less?
    ensures Ascending(RankKey, [x] + s)
  {
    hide RankKey, CompareSeq;
  }

  ghost function RequiredKeysIn(ranked: seq<Candidate>, required: seq<string>): set<string> {
    set c | c in ranked && c.Key() in required :: c.Key()
  }

  lemma {:induction false} OptionalCount(ranked: seq<Candidate>, required: seq<string>)
    requires DistinctProviderKeys(ranked)
    ensures |ranked| == |Optional(ranked, required)| + |RequiredKeysIn(ranked, required)|
  {
    if ranked != [] {
      var head, tail := ranked[0], ranked[1..];
      assert ranked == [head] + tail;
      OptionalCount(tail, required);
      var k, rest := RequiredKeysIn(ranked, required), RequiredKeysIn(tail, required);
      if head.Key() in required {
        assert k == rest + {head.Key()};
        assert head.Key() !in rest;
      } else {
        assert k == rest;
      }
    }
  }

  lemma {:induction false} MembersAtMostLength<T>(s: seq<T>, members: set<T>)
    requires forall x | x in members :: x in s
    ensures |members| <= |s|
  {
    if s == [] {
      assert members == {};
    } else {
      var rest := members - {s[0]};
      assert s == [s[0]] + s[1..];
      MembersAtMostLength(s[1..], rest);
      assert members <= rest + {s[0]};
      assert |members| <= |rest + {s[0]}|  by { SubsetSize(members, rest + {s[0]}); }
    }
  }

  /** There are always enough optional candidates to reach a feasible goal. */
  lemma EnoughOptional(ranked: seq<Candidate>, required: seq<string>)
    requires DistinctProviderKeys(ranked)
    ensures |ranked| <= |Optional(ranked, required)| + |required|
  {
    OptionalCount(ranked, required);
    MembersAtMostLength(required, RequiredKeysIn(ranked, required));
  }

  // ---- cost ---------------------------------------------------------------------------------

  lemma {:induction false} SaturationIsExact(s: seq<Candidate>)
    ensures SaturatedCost(s) == Min(Cost(s), U64_MAX)
  {
    if s != [] {
      SaturationIsExact(s[..|s| - 1]);
    }
  }

  /** Cost reduction keeps the largest affordable number of the best candidates. */
  lemma {:induction false} AffordableIsLargest(s: seq<Candidate>, n: nat, floor: nat, ceiling: nat)
    requires floor <= n <= |s|
    ensures var kept := Affordable(s, n, floor, ceiling);
      && floor <= kept <= n
      && (forall m | kept < m <= n :: SaturatedCost(s[..m]) > ceiling)
      && (kept > floor ==> SaturatedCost(s[..kept]) <= ceiling)
  {
    if n > floor && SaturatedCost(s[..n]) > ceiling {
      AffordableIsLargest(s, n - 1, floor, ceiling);
    }
  }

  lemma EveryoneRemovable(f: Frame, s: seq<Candidate>)
    requires f.required == [] && f.reviewer.None?
    ensures LastRemovable(f, s) == |s|
  {
  }

  /** With nothing required, cost reduction drops from the end of the pick. */
  lemma {:induction false} KeptIsPrefix(f: Frame, picked: seq<Candidate>, floor: nat, n: nat)
    requires f.required == [] && f.reviewer.None? && f.behavior == ReduceProviderCount && n <= |picked|
    ensures Kept(f, picked[..n], floor) == picked[..Affordable(picked, n, floor, f.budget.maxCost)]
  {
    hide SaturatedCost, LastRemovable, Kept;
    KeptStep(f, picked, floor, n);
    if SaturatedCost(picked[..n]) > f.budget.maxCost && n > floor {
      KeptIsPrefix(f, picked, floor, n - 1);
    }
  }

  /** One round of the reduction, with nothing required. */
  lemma KeptStep(f: Frame, picked: seq<Candidate>, floor: nat, n: nat)
    requires f.required == [] && f.reviewer.None? && f.behavior == ReduceProviderCount && n <= |picked|
    ensures Kept(f, picked[..n], floor) ==
        if SaturatedCost(picked[..n]) > f.budget.maxCost && n > floor then Kept(f, picked[..n - 1], floor)
        else picked[..n]
  {
    hide SaturatedCost, LastRemovable;
    var s := picked[..n];
    EveryoneRemovable(f, s);
    if n > 0 {
      assert s[..n - 1] + s[n..] == picked[..n - 1];
    }
  }

  // ---- the pick -------------------------------------------------------------------------------

  /** The named reviewer sits last; apart from it the order and the members do not change. */
  lemma ReviewerLastLaws(s: seq<Candidate>, reviewer: Option<string>)
    ensures var r := ReviewerLast(s, reviewer);
      && |r| == |s|
      && (forall c :: c in r <==> c in s)
      && (DistinctProviderKeys(s) ==> DistinctProviderKeys(r))
      && (reviewer.Some? && Offered(s, reviewer.value) ==> r != [] && r[|r| - 1].Key() == reviewer.value)
  {
    if reviewer.Some? {
      var i := IndexOf(s, reviewer.value);
      if i < |s| {
        var r := ReviewerLast(s, reviewer);
        assert forall j | 0 <= j < |s| :: s[j] == if j < i then r[j] else if j == i then r[|r| - 1] else r[j - 1];
        assert forall j | 0 <= j < |r| :: r[j] == if j < i then s[j] else if j == |r| - 1 then s[i] else s[j + 1];
      }
    }
  }
}
