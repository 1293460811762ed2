/** How the attempted risk sets cover the failures: every failing subject is
    a case of exactly one attempted set, so the cases over all sets are the
    failures, a failing subject is emitted as a case at most once, and the
    rows never outgrow the buffers sized for one case and `controls` controls
    per failure. */
module Coverage {
  import opened Seqs
  import opened RiskSets
  import opened Fold

  /** The failing subjects. */
  function FailSet<K>(subs: seq<Subject<K>>): set<nat> {
    set i: nat | i < |subs| && subs[i].failed
  }

  /** The cases of risk set `a`. */
  function CaseSet<K(==)>(subs: seq<Subject<K>>, a: Attempt<K>): set<nat> {
    set i: nat | i < |subs| && IsCase(subs[i], a.stratum, a.tf)
  }

  /** The risk set a failing subject is a case of: its own stratum and exit time. */
  function OwnSet<K>(s: Subject<K>): Attempt<K> {
    Attempt(s.stratum, s.tExit)
  }

  /** The subjects that are a case of some risk set of `plan`. */
  function CaseUnion<K(==)>(subs: seq<Subject<K>>, plan: seq<Attempt<K>>): (r: set<nat>)
    ensures forall i: nat :: i in r <==> i < |subs| && subs[i].failed && OwnSet(subs[i]) in plan
    decreases |plan|
  {
    if plan == [] then {}
    else
      var rest := CaseUnion(subs, plan[1..]);
      assert plan == [plan[0]] + plan[1..];
      CaseSet(subs, plan[0]) + rest
  }

  /** The case list of a risk set holds as many subjects as its case set. */
  lemma CaseSetSize<K>(subs: seq<Subject<K>>, a: Attempt<K>)
    ensures |CaseSet(subs, a)| == NCase(subs, a)
  {
    var cs := Cases(subs, a.stratum, a.tf);
    DistinctCard(cs);
    forall x: nat ensures x in cs <==> x in CaseSet(subs, a) {
    }
    assert (set x: nat | x in cs) == CaseSet(subs, a);
  }

  /** Over distinct risk sets no case is counted twice: the case counts add
      up to the number of subjects that are a case of one of them. */
  lemma {:induction false} CaseUnionSize<K>(subs: seq<Subject<K>>, plan: seq<Attempt<K>>)
    requires Distinct(plan)
    ensures |CaseUnion(subs, plan)| == CaseTotal(subs, plan)
    decreases |plan|
  {
    if plan != [] {
      var head := CaseSet(subs, plan[0]);
      var rest := CaseUnion(subs, plan[1..]);
      assert Distinct(plan[1..]);
      CaseUnionSize(subs, plan[1..]);
      CaseSetSize(subs, plan[0]);
      forall i | i in head ensures i !in rest {
        assert OwnSet(subs[i]) == plan[0];
        assert plan[0] !in plan[1..];
      }
      assert CaseUnion(subs, plan) == head + rest;
      assert |head + rest| == |head| + |rest|;
    }
  }

  /** The subjects that are a case of an attempted risk set are the failures. */
  lemma ScheduleCases<K(!new)>(subs: seq<Subject<K>>)
    ensures CaseUnion(subs, Schedule(subs)) == FailSet(subs)
  {
    var plan := Schedule(subs);
    forall i | i in FailSet(subs) ensures i in CaseUnion(subs, plan) {
      assert IsCase(subs[i], OwnSet(subs[i]).stratum, OwnSet(subs[i]).tf);
    }
  }

  /** The list of failing positions is as long as the set of failures. */
  lemma FailingSize<K>(subs: seq<Subject<K>>)
    ensures |Failing(subs)| == |FailSet(subs)|
  {
    var fs := Failing(subs);
    DistinctCard(fs);
    forall x: nat ensures x in fs <==> x in FailSet(subs) {
    }
    assert (set x: nat | x in fs) == FailSet(subs);
  }

  /** The attempted risk sets have as many cases in all as there are failures. */
  lemma CasesAreFailures<K(!new)>(subs: seq<Subject<K>>)
    ensures CaseTotal(subs, Schedule(subs)) == |Failing(subs)|
  {
    CaseUnionSize(subs, Schedule(subs));
    ScheduleCases(subs);
    FailingSize(subs);
  }

  /** A failing subject is a case of exactly one attempted risk set, the
      `k`-th: the one of its own stratum and exit time. */
  lemma CaseOfExactlyOneSet<K(!new)>(subs: seq<Subject<K>>, i: nat) returns (k: nat)
    requires i < |subs| && subs[i].failed
    ensures var plan := Schedule(subs);
      && k < |plan| && plan[k] == OwnSet(subs[i])
      && i in Cases(subs, plan[k].stratum, plan[k].tf)
      && forall l :: 0 <= l < |plan| && i in Cases(subs, plan[l].stratum, plan[l].tf) ==> l == k
  {
    var plan := Schedule(subs);
    assert IsCase(subs[i], OwnSet(subs[i]).stratum, OwnSet(subs[i]).tf);
    k :| 0 <= k < |plan| && plan[k] == OwnSet(subs[i]);
    forall l | 0 <= l < |plan| && i in Cases(subs, plan[l].stratum, plan[l].tf) ensures l == k {
      assert plan[l] == plan[k];
    }
  }

  /** When every failing subject fails in risk set `a` (one stratum, one
      exit time) and some subject fails, `a` is the only risk set attempted,
      and its cases are exactly the failing subjects. */
  lemma SharedRiskSet<K(!new)>(subs: seq<Subject<K>>, a: Attempt<K>, f: nat)
    requires f < |subs| && subs[f].failed
    requires forall i :: 0 <= i < |subs| && subs[i].failed ==> OwnSet(subs[i]) == a
    ensures Schedule(subs) == [a]
    ensures Cases(subs, a.stratum, a.tf) == Failing(subs)
  {
    assert IsCase(subs[f], a.stratum, a.tf);
    OnlyMember(Schedule(subs), a);
    IncreasingUnique(Cases(subs, a.stratum, a.tf), Failing(subs));
  }

  /** The size of the buffers the sampler preallocates: a case and `controls`
      controls for every failure. */
  function Capacity<K>(subs: seq<Subject<K>>, controls: int): int {
    (1 + controls) * |Failing(subs)|
  }

  /** The sampler's rows fit the preallocated buffers; with no positive
      `controls` it emits no row at all. */
  lemma RowsFitBuffer<K(!new)>(subs: seq<Subject<K>>, controls: int, stream: nat -> nat)
    ensures controls >= 0 ==> |Sampled(subs, controls, stream).entries| <= Capacity(subs, controls)
    ensures controls <= 0 ==> Sampled(subs, controls, stream).entries == []
  {
    var plan := Schedule(subs);
    RunCounters(subs, controls, stream, Start, plan);
    EmittedBound(subs, controls, plan);
    CasesAreFailures(subs);
  }

  /** A failing subject is emitted as a case at most once over the whole sample. */
  lemma CaseEmittedOnce<K(!new)>(subs: seq<Subject<K>>, controls: int, stream: nat -> nat, k: nat, l: nat)
    requires k < l
    ensures var es := Sampled(subs, controls, stream).entries;
      l < |es| && es[k].fail == 1 && es[l].fail == 1 ==> es[k].subject != es[l].subject
  {
    var plan := Schedule(subs);
    if l < |Sampled(subs, controls, stream).entries| {
      RunRowFits(subs, controls, stream, Start, plan, k);
      RunRowFits(subs, controls, stream, Start, plan, l);
      RunRowsOrdered(subs, controls, stream, Start, plan, k, l);
    }
  }
}
