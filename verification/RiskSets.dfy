/** The nested case-control sampler on the relative time axis: who is a case
    and who may serve as a control at a failure time, the order in which the
    (stratum, failure time) risk sets are attempted, what one attempt emits and
    counts, and the fold of all attempts into the sampler's result. */
module RiskSets {
  import opened Seqs

  /** A cohort member with times measured from the member's own origin;
      `stratum` is the value of its matching covariates. */
  datatype Subject<K> = Subject(tEntry: int, tExit: int, failed: bool, stratum: K)

  /** A risk set the sampler attempts: a stratum and a failure time in it. */
  datatype Attempt<K> = Attempt(stratum: K, tf: int)

  /** An emitted row before covariates are attached: the number of the risk set
      that produced it, the subject's position in the cohort, the relative
      failure time and the case (1) or control (0) flag. */
  datatype Entry = Entry(setId: nat, subject: nat, time: int, fail: int)

  /** The sampler's running state: the attempt counter, the incomplete-set and
      unmatched-case counters, the tie flag, the rows emitted so far and the
      number of values of the random stream the draws have consumed. */
  datatype Tally = Tally(sets: nat, incomplete: nat, nomatch: nat, ties: bool, entries: seq<Entry>, drawn: nat)

  /** The state before the first attempt. */
  const Start := Tally(0, 0, 0, false, [], 0)

  /** `s` fails at time `tf` in stratum `g`. */
  predicate IsCase<K(==)>(s: Subject<K>, g: K, tf: int) {
    s.stratum == g && s.tExit == tf && s.failed
  }

  /** `s` is in stratum `g`, under observation at `tf`, and not a case there. */
  predicate Eligible<K(==)>(s: Subject<K>, g: K, tf: int) {
    s.stratum == g && s.tEntry <= tf <= s.tExit && !IsCase(s, g, tf)
  }

  /** The cases of a risk set, by ascending cohort position. */
  function Cases<K(==)>(subs: seq<Subject<K>>, g: K, tf: int): (r: seq<nat>)
    ensures Increasing(r)
    ensures forall i: nat :: i in r <==> i < |subs| && IsCase(subs[i], g, tf)
  {
    Where(|subs|, (i: nat) => i < |subs| && IsCase(subs[i], g, tf))
  }

  /** The subjects controls are drawn from, by ascending cohort position. */
  function Pool<K(==)>(subs: seq<Subject<K>>, g: K, tf: int): (r: seq<nat>)
    ensures Increasing(r)
    ensures forall i: nat :: i in r <==> i < |subs| && Eligible(subs[i], g, tf)
  {
    Where(|subs|, (i: nat) => i < |subs| && Eligible(subs[i], g, tf))
  }

  /** The cohort positions of the failing subjects. */
  function Failing<K>(subs: seq<Subject<K>>): (r: seq<nat>)
    ensures Increasing(r)
    ensures forall i: nat :: i in r <==> i < |subs| && subs[i].failed
  {
    Where(|subs|, (i: nat) => i < |subs| && subs[i].failed)
  }

  /** The strata holding at least one failure, each once, in the order of
      their first failing subject. */
  function Strata<K(==,!new)>(subs: seq<Subject<K>>): (r: seq<K>)
    ensures Distinct(r)
    ensures forall g :: g in r <==> exists i :: 0 <= i < |subs| && subs[i].failed && subs[i].stratum == g
  {
    Dedup(Gather(subs, (s: Subject<K>) => s.failed, (s: Subject<K>) => s.stratum))
  }

  /** The distinct failure times of stratum `g`, ascending. */
  function FailureTimes<K(==)>(subs: seq<Subject<K>>, g: K): (r: seq<int>)
    ensures Increasing(r)
    ensures forall tf :: tf in r <==> exists i :: 0 <= i < |subs| && IsCase(subs[i], g, tf)
  {
    SortedSet(Gather(subs, (s: Subject<K>) => s.failed && s.stratum == g, (s: Subject<K>) => s.tExit))
  }

  /** The risk sets of stratum `g` at the failure times `ts`. */
  function Block<K>(g: K, ts: seq<int>): (r: seq<Attempt<K>>)
    ensures |r| == |ts|
    ensures forall k :: 0 <= k < |r| ==> r[k].stratum == g && r[k].tf == ts[k]
  {
    seq(|ts|, k requires 0 <= k < |ts| => Attempt(g, ts[k]))
  }

  /** The risk sets of the strata `gs`, stratum by stratum, each stratum's
      failure times ascending. */
  function Expand<K(==)>(subs: seq<Subject<K>>, gs: seq<K>): (r: seq<Attempt<K>>)
    ensures forall k :: 0 <= k < |r| ==> r[k].stratum in gs
  {
    if gs == [] then []
    else Block(gs[0], FailureTimes(subs, gs[0])) + Expand(subs, gs[1..])
  }

  /** The risk sets of `gs` are exactly the failure times of those strata. */
  lemma {:induction false} ExpandMembers<K(!new)>(subs: seq<Subject<K>>, gs: seq<K>)
    ensures forall a :: a in Expand(subs, gs) <==> a.stratum in gs && a.tf in FailureTimes(subs, a.stratum)
  {
    if gs != [] {
      var ts := FailureTimes(subs, gs[0]);
      var head := Block(gs[0], ts);
      ExpandMembers(subs, gs[1..]);
      assert Expand(subs, gs) == head + Expand(subs, gs[1..]);
      forall a ensures a in head <==> a.stratum == gs[0] && a.tf in ts {
        if a.stratum == gs[0] && a.tf in ts {
          var k :| 0 <= k < |ts| && ts[k] == a.tf;
          assert head[k] == a;
        }
      }
    }
  }

  /** With each stratum listed once, no risk set is attempted twice and a
      stratum's failure times are attempted in ascending order. */
  lemma {:induction false} ExpandOrdered<K>(subs: seq<Subject<K>>, gs: seq<K>, k: nat, l: nat)
    requires Distinct(gs)
    requires k < l < |Expand(subs, gs)|
    ensures var r := Expand(subs, gs);
      && r[k] != r[l]
      && (r[k].stratum == r[l].stratum ==> r[k].tf < r[l].tf)
  {
    var head := Block(gs[0], FailureTimes(subs, gs[0]));
    var tail := Expand(subs, gs[1..]);
    var r := head + tail;
    assert r == Expand(subs, gs);
    if k >= |head| {
      assert r[k] == tail[k - |head|] && r[l] == tail[l - |head|];
      ExpandOrdered(subs, gs[1..], k - |head|, l - |head|);
    } else if l >= |head| {
      assert r[l] == tail[l - |head|];
      assert r[l].stratum in gs[1..];
    }
  }

  /** The risk sets of one stratum come back to back: none of another
      stratum comes between two of them. */
  predicate Contiguous<K(==)>(r: seq<Attempt<K>>) {
    forall k, l, m :: 0 <= k < l < m < |r| && r[k].stratum == r[m].stratum ==> r[l].stratum == r[k].stratum
  }

  /** A stretch of risk sets of stratum `g` followed by contiguous risk sets
      of other strata is contiguous. */
  lemma ConcatContiguous<K>(head: seq<Attempt<K>>, tail: seq<Attempt<K>>, g: K)
    requires forall k :: 0 <= k < |head| ==> head[k].stratum == g
    requires forall k :: 0 <= k < |tail| ==> tail[k].stratum != g
    requires Contiguous(tail)
    ensures Contiguous(head + tail)
  {
    var r := head + tail;
    forall k, l, m | 0 <= k < l < m < |r| ensures r[k].stratum == r[m].stratum ==> r[l].stratum == r[k].stratum {
      if k >= |head| {
        assert r[k] == tail[k - |head|] && r[l] == tail[l - |head|] && r[m] == tail[m - |head|];
      } else {
        assert r[k] == head[k];
        if m >= |head| {
          assert r[m] == tail[m - |head|];
        } else {
          assert r[l] == head[l];
        }
      }
    }
  }

  /** With each stratum listed once, the risk sets of `gs` are attempted
      stratum by stratum. */
  lemma {:induction false} ExpandContiguous<K>(subs: seq<Subject<K>>, gs: seq<K>)
    requires Distinct(gs)
    ensures Contiguous(Expand(subs, gs))
    decreases |gs|
  {
    if gs != [] {
      var head := Block(gs[0], FailureTimes(subs, gs[0]));
      var tail := Expand(subs, gs[1..]);
      ExpandContiguous(subs, gs[1..]);
      forall k | 0 <= k < |tail| ensures tail[k].stratum != gs[0] {
        assert tail[k].stratum in gs[1..];
      }
      ConcatContiguous(head, tail, gs[0]);
      assert Expand(subs, gs) == head + tail;
    }
  }

  /** Every risk set the sampler attempts, in order. */
  function Schedule<K(==,!new)>(subs: seq<Subject<K>>): (r: seq<Attempt<K>>)
    ensures forall a :: a in r <==> exists i :: 0 <= i < |subs| && IsCase(subs[i], a.stratum, a.tf)
    ensures Distinct(r)
    ensures forall k, l :: 0 <= k < l < |r| && r[k].stratum == r[l].stratum ==> r[k].tf < r[l].tf
    ensures forall k, l, m :: 0 <= k < l < m < |r| && r[k].stratum == r[m].stratum ==> r[l].stratum == r[k].stratum
  {
    var r := Expand(subs, Strata(subs));
    forall k, l | 0 <= k < l < |r| ensures r[k] != r[l] && (r[k].stratum == r[l].stratum ==> r[k].tf < r[l].tf) {
      ExpandOrdered(subs, Strata(subs), k, l);
    }
    ExpandContiguous(subs, Strata(subs));
    ExpandMembers(subs, Strata(subs));
    r
  }

  /** The number of controls drawn for a risk set: the number wanted, capped
      by the number available. */
  function Cap(want: int, available: nat): (n: int)
    ensures n <= want && n <= available
    ensures n == want || n == available
  {
    if want > available then available else want
  }

  /** The number of cases of risk set `a`. */
  function NCase<K(==)>(subs: seq<Subject<K>>, a: Attempt<K>): nat {
    |Cases(subs, a.stratum, a.tf)|
  }

  /** The number of controls drawn for risk set `a` (not positive: none). */
  function NControls<K(==)>(subs: seq<Subject<K>>, controls: int, a: Attempt<K>): int {
    Cap(controls * NCase(subs, a), |Pool(subs, a.stratum, a.tf)|)
  }

  /** The rows of one risk set: its cases, then its drawn controls. */
  function SetRows(id: nat, tf: int, cases: seq<nat>, chosen: seq<nat>): seq<Entry> {
    seq(|cases|, k requires 0 <= k < |cases| => Entry(id, cases[k], tf, 1))
    + seq(|chosen|, k requires 0 <= k < |chosen| => Entry(id, chosen[k], tf, 0))
  }

  /** A row that risk set `a`, numbered `id`, may emit: at the set's failure
      time, and either one of its cases (flag 1) or an eligible control (flag 0). */
  predicate Fits<K(==)>(subs: seq<Subject<K>>, id: nat, a: Attempt<K>, e: Entry) {
    && e.setId == id
    && e.time == a.tf
    && e.subject < |subs|
    && ((e.fail == 1 && IsCase(subs[e.subject], a.stratum, a.tf))
        || (e.fail == 0 && Eligible(subs[e.subject], a.stratum, a.tf)))
  }

  /** The rows one attempt at risk set `a`, numbered `id`, emits: nothing
      when no control can be drawn, otherwise its cases followed by a draw of
      controls from the pool, taken from the random stream at offset `drawn`. */
  function Emit<K(==)>(subs: seq<Subject<K>>, controls: int, stream: nat -> nat, drawn: nat, id: nat, a: Attempt<K>): (rows: seq<Entry>)
    ensures NControls(subs, controls, a) <= 0 ==> rows == []
    ensures NControls(subs, controls, a) > 0 ==> |rows| == NCase(subs, a) + NControls(subs, controls, a)
    ensures forall k :: 0 <= k < |rows| ==> Fits(subs, id, a, rows[k])
    ensures forall k :: 0 <= k < |rows| ==> (rows[k].fail == 1 <==> k < NCase(subs, a))
    ensures rows != [] ==> forall k :: 0 <= k < NCase(subs, a) ==> rows[k].subject == Cases(subs, a.stratum, a.tf)[k]
    ensures forall k, l :: 0 <= k < l < |rows| ==> rows[k].subject != rows[l].subject
  {
    var cases := Cases(subs, a.stratum, a.tf);
    var pool := Pool(subs, a.stratum, a.tf);
    var ncont := Cap(controls * |cases|, |pool|);
    if ncont <= 0 then []
    else
      var chosen := Draw(pool, seq(ncont, (k: int) requires 0 <= k => stream(drawn + k)));
      SetRowsFit(subs, id, a, cases, pool, chosen);
      SetRows(id, a.tf, cases, chosen)
  }

  /** The rows of a set built from its cases and a duplicate-free draw from
      its pool fit the set, flag the cases first and repeat no subject. */
  lemma SetRowsFit<K>(subs: seq<Subject<K>>, id: nat, a: Attempt<K>, cases: seq<nat>, pool: seq<nat>, chosen: seq<nat>)
    requires cases == Cases(subs, a.stratum, a.tf) && pool == Pool(subs, a.stratum, a.tf)
    requires Distinct(chosen) && forall x :: x in chosen ==> x in pool
    ensures var rows := SetRows(id, a.tf, cases, chosen);
      && |rows| == |cases| + |chosen|
      && (forall k :: 0 <= k < |rows| ==> Fits(subs, id, a, rows[k]))
      && (forall k :: 0 <= k < |rows| ==> (rows[k].fail == 1 <==> k < |cases|))
      && (forall k :: 0 <= k < |cases| ==> rows[k].subject == cases[k])
      && (forall k, l :: 0 <= k < l < |rows| ==> rows[k].subject != rows[l].subject)
  {
    var rows := SetRows(id, a.tf, cases, chosen);
    assert forall k :: 0 <= k < |cases| ==> cases[k] in cases;
    assert forall k :: 0 <= k < |chosen| ==> chosen[k] in pool;
    forall k, l | 0 <= k < l < |rows| ensures rows[k].subject != rows[l].subject {
      if l < |cases| {
      } else if k >= |cases| {
      } else {
        assert rows[k].subject in cases;
        assert rows[l].subject in pool;
      }
    }
  }

  /** One attempt at risk set `a`: count it, note a tie, cap the controls,
      then either emit the set's rows or count its cases as unmatched. */
  function Step<K(==)>(subs: seq<Subject<K>>, controls: int, stream: nat -> nat, t: Tally, a: Attempt<K>): (r: Tally)
    ensures r.sets == t.sets + 1
    ensures r.ties <==> t.ties || NCase(subs, a) > 1
    ensures r.incomplete == t.incomplete + (if 0 < NControls(subs, controls, a) < controls * NCase(subs, a) then 1 else 0)
    ensures NControls(subs, controls, a) <= 0 ==>
      r.entries == t.entries && r.nomatch == t.nomatch + NCase(subs, a) && r.drawn == t.drawn
    ensures NControls(subs, controls, a) > 0 ==>
      && |r.entries| == |t.entries| + NCase(subs, a) + NControls(subs, controls, a)
      && r.nomatch == t.nomatch
      && r.drawn == t.drawn + NControls(subs, controls, a)
    ensures r.entries == t.entries + Emit(subs, controls, stream, t.drawn, t.sets + 1, a)
  {
    var cases := Cases(subs, a.stratum, a.tf);
    var pool := Pool(subs, a.stratum, a.tf);
    var id := t.sets + 1;
    var want := controls * |cases|;
    var ncont := Cap(want, |pool|);
    var incomplete := if want > |pool| && ncont > 0 then t.incomplete + 1 else t.incomplete;
    var ties := t.ties || |cases| > 1;
    if ncont > 0 then
      Tally(id, incomplete, t.nomatch, ties, t.entries + Emit(subs, controls, stream, t.drawn, id, a), t.drawn + ncont)
    else
      Tally(id, incomplete, t.nomatch + |cases|, ties, t.entries, t.drawn)
  }

  /** The attempts `plan`, one after another, starting from state `t`. */
  function Run<K(==)>(subs: seq<Subject<K>>, controls: int, stream: nat -> nat, t: Tally, plan: seq<Attempt<K>>): (r: Tally)
    ensures r.sets == t.sets + |plan|
    ensures |t.entries| <= |r.entries| && r.entries[..|t.entries|] == t.entries
    decreases |plan|
  {
    if plan == [] then t
    else
      var t1 := Step(subs, controls, stream, t, plan[0]);
      var r := Run(subs, controls, stream, t1, plan[1..]);
      assert r.entries[..|t.entries|] == r.entries[..|t1.entries|][..|t.entries|];
      r
  }

  /** The whole sampler on the relative time axis: one set counted per
      attempted risk set, and nothing at all when no subject fails. */
  function Sampled<K(==,!new)>(subs: seq<Subject<K>>, controls: int, stream: nat -> nat): (r: Tally)
    ensures r.sets == |Schedule(subs)|
    ensures (forall i :: 0 <= i < |subs| ==> !subs[i].failed) ==> r == Start
  {
    var plan := Schedule(subs);
    assert plan != [] ==> plan[0] in plan;
    Run(subs, controls, stream, Start, plan)
  }
}
