/** What the fold of attempts adds up to: the counters as sums over the
    attempted risk sets, every emitted row tied to the risk set its number
    names, the order of rows, the coverage of cases, and the bound on the
    number of rows that makes the preallocated buffers large enough. */
module Fold {
  import opened Seqs
  import opened RiskSets

  /** The number of cases over the risk sets of `plan`. */
  function CaseTotal<K(==)>(subs: seq<Subject<K>>, plan: seq<Attempt<K>>): nat
    decreases |plan|
  {
    if plan == [] then 0 else NCase(subs, plan[0]) + CaseTotal(subs, plan[1..])
  }

  /** The cases of the risk sets of `plan` that had no control available. */
  function UnmatchedTotal<K(==)>(subs: seq<Subject<K>>, controls: int, plan: seq<Attempt<K>>): nat
    decreases |plan|
  {
    if plan == [] then 0
    else (if NControls(subs, controls, plan[0]) <= 0 then NCase(subs, plan[0]) else 0)
         + UnmatchedTotal(subs, controls, plan[1..])
  }

  /** The risk sets of `plan` that got some, but fewer than the wanted, controls. */
  function IncompleteTotal<K(==)>(subs: seq<Subject<K>>, controls: int, plan: seq<Attempt<K>>): nat
    decreases |plan|
  {
    if plan == [] then 0
    else (if 0 < NControls(subs, controls, plan[0]) < controls * NCase(subs, plan[0]) then 1 else 0)
         + IncompleteTotal(subs, controls, plan[1..])
  }

  /** The rows the risk sets of `plan` emit: cases plus controls of every set
      that had a control available. */
  function EmittedTotal<K(==)>(subs: seq<Subject<K>>, controls: int, plan: seq<Attempt<K>>): nat
    decreases |plan|
  {
    if plan == [] then 0
    else
      var n := NControls(subs, controls, plan[0]);
      (if n > 0 then NCase(subs, plan[0]) + n else 0) + EmittedTotal(subs, controls, plan[1..])
  }

  /** The counters after a run are the sums of the per-set quantities. */
  lemma {:induction false} RunCounters<K>(subs: seq<Subject<K>>, controls: int, stream: nat -> nat, t: Tally, plan: seq<Attempt<K>>)
    ensures var r := Run(subs, controls, stream, t, plan);
      && r.nomatch == t.nomatch + UnmatchedTotal(subs, controls, plan)
      && r.incomplete == t.incomplete + IncompleteTotal(subs, controls, plan)
      && |r.entries| == |t.entries| + EmittedTotal(subs, controls, plan)
      && (r.ties <==> t.ties || exists k :: 0 <= k < |plan| && NCase(subs, plan[k]) > 1)
    decreases |plan|
  {
    if plan != [] {
      var t1 := Step(subs, controls, stream, t, plan[0]);
      RunCounters(subs, controls, stream, t1, plan[1..]);
      assert forall k :: 0 <= k < |plan[1..]| ==> plan[1..][k] == plan[k + 1];
      if exists k :: 0 <= k < |plan| && NCase(subs, plan[k]) > 1 {
        var k :| 0 <= k < |plan| && NCase(subs, plan[k]) > 1;
        if k > 0 {
          assert plan[1..][k - 1] == plan[k];
        }
      }
    }
  }

  /** A run that adds rows has a first attempt, and is that attempt followed
      by the rest. */
  lemma RunUnfold<K>(subs: seq<Subject<K>>, controls: int, stream: nat -> nat, t: Tally, plan: seq<Attempt<K>>)
    requires |t.entries| < |Run(subs, controls, stream, t, plan).entries|
    ensures plan != []
    ensures Run(subs, controls, stream, t, plan)
         == Run(subs, controls, stream, Step(subs, controls, stream, t, plan[0]), plan[1..])
  {
  }

  /** A run with a first attempt continues, from the state `t1` that attempt
      leaves, with the rest; `t1` has counted one more set and holds the rows
      that attempt emits after the rows the run started with. */
  lemma RunFirst<K>(subs: seq<Subject<K>>, controls: int, stream: nat -> nat, t: Tally, plan: seq<Attempt<K>>)
      returns (t1: Tally)
    requires plan != []
    ensures t1.sets == t.sets + 1
    ensures t1.entries == t.entries + Emit(subs, controls, stream, t.drawn, t.sets + 1, plan[0])
    ensures Run(subs, controls, stream, t, plan) == Run(subs, controls, stream, t1, plan[1..])
  {
    t1 := Step(subs, controls, stream, t, plan[0]);
  }

  /** The first rows a run adds are those of its first attempt. */
  lemma RunHead<K>(subs: seq<Subject<K>>, controls: int, stream: nat -> nat, t: Tally, plan: seq<Attempt<K>>, k: nat)
    requires plan != []
    requires |t.entries| <= k < |Step(subs, controls, stream, t, plan[0]).entries|
    ensures k < |Run(subs, controls, stream, t, plan).entries|
    ensures Run(subs, controls, stream, t, plan).entries[k]
         == Emit(subs, controls, stream, t.drawn, t.sets + 1, plan[0])[k - |t.entries|]
  {
    var t1 := RunFirst(subs, controls, stream, t, plan);
    var es := Run(subs, controls, stream, t1, plan[1..]).entries;
    PrefixIndex(es, t.entries, Emit(subs, controls, stream, t.drawn, t.sets + 1, plan[0]), k);
  }

  /** `e` is a row of one of the risk sets of `plan`, numbered after the
      `base` sets attempted before them: it is at that set's failure time and
      is one of its cases or an eligible control. */
  predicate FitsPlan<K(==)>(subs: seq<Subject<K>>, plan: seq<Attempt<K>>, base: nat, e: Entry) {
    base < e.setId <= base + |plan| && Fits(subs, e.setId, plan[e.setId - base - 1], e)
  }

  /** A row of the later sets of a plan is a row of the plan. */
  lemma FitsPlanShift<K>(subs: seq<Subject<K>>, plan: seq<Attempt<K>>, base: nat, e: Entry)
    requires plan != [] && FitsPlan(subs, plan[1..], base + 1, e)
    ensures FitsPlan(subs, plan, base, e)
  {
    assert plan[1..][e.setId - base - 2] == plan[e.setId - base - 1];
  }

  /** Every row a run adds fits the risk set its number names. */
  lemma {:induction false} RunRowFits<K>(subs: seq<Subject<K>>, controls: int, stream: nat -> nat, t: Tally, plan: seq<Attempt<K>>, k: nat)
    requires |t.entries| <= k < |Run(subs, controls, stream, t, plan).entries|
    ensures FitsPlan(subs, plan, t.sets, Run(subs, controls, stream, t, plan).entries[k])
    decreases |plan|
  {
    RunUnfold(subs, controls, stream, t, plan);
    var t1 := Step(subs, controls, stream, t, plan[0]);
    if k < |t1.entries| {
      FirstSetRowFits(subs, controls, stream, t, plan, k);
    } else {
      RunRowFits(subs, controls, stream, t1, plan[1..], k);
      FitsPlanShift(subs, plan, t.sets, Run(subs, controls, stream, t, plan).entries[k]);
    }
  }

  /** The rows the first attempt of a run adds carry its number and fit it. */
  lemma FirstSetRowFits<K>(subs: seq<Subject<K>>, controls: int, stream: nat -> nat, t: Tally, plan: seq<Attempt<K>>, k: nat)
    requires plan != []
    requires |t.entries| <= k < |Step(subs, controls, stream, t, plan[0]).entries|
    ensures k < |Run(subs, controls, stream, t, plan).entries|
    ensures var e := Run(subs, controls, stream, t, plan).entries[k];
      e.setId == t.sets + 1 && Fits(subs, t.sets + 1, plan[0], e)
  {
    RunHead(subs, controls, stream, t, plan, k);
  }

  /** Two rows a run adds come in set order; within one set the cases come
      first and no subject appears twice. */
  lemma {:induction false} RunRowsOrdered<K>(subs: seq<Subject<K>>, controls: int, stream: nat -> nat, t: Tally, plan: seq<Attempt<K>>, k: nat, l: nat)
    requires |t.entries| <= k < l < |Run(subs, controls, stream, t, plan).entries|
    ensures var r := Run(subs, controls, stream, t, plan);
      && r.entries[k].setId <= r.entries[l].setId
      && (r.entries[k].setId == r.entries[l].setId ==>
            r.entries[k].subject != r.entries[l].subject && r.entries[k].fail >= r.entries[l].fail)
    decreases |plan|
  {
    RunUnfold(subs, controls, stream, t, plan);
    var t1 := Step(subs, controls, stream, t, plan[0]);
    if l < |t1.entries| {
      RunHead(subs, controls, stream, t, plan, k);
      RunHead(subs, controls, stream, t, plan, l);
    } else if k < |t1.entries| {
      RunHead(subs, controls, stream, t, plan, k);
      RunRowFits(subs, controls, stream, t1, plan[1..], l);
      assert FitsPlan(subs, plan[1..], t1.sets, Run(subs, controls, stream, t, plan).entries[l]);
    } else {
      RunRowsOrdered(subs, controls, stream, t1, plan[1..], k, l);
    }
  }

  /** A case of a risk set that had a control available is emitted, as a
      case, under that set's number; `m` is its row. */
  lemma {:induction false} RunEmitsCase<K>(subs: seq<Subject<K>>, controls: int, stream: nat -> nat, t: Tally, plan: seq<Attempt<K>>, j: nat, c: nat)
      returns (m: nat)
    requires j < |plan| && NControls(subs, controls, plan[j]) > 0
    requires c in Cases(subs, plan[j].stratum, plan[j].tf)
    ensures var r := Run(subs, controls, stream, t, plan);
      && |t.entries| <= m < |r.entries|
      && r.entries[m].setId == t.sets + j + 1 && r.entries[m].subject == c && r.entries[m].fail == 1
    decreases |plan|
  {
    if j == 0 {
      m := FirstSetEmitsCase(subs, controls, stream, t, plan, c);
    } else {
      var t1 := Step(subs, controls, stream, t, plan[0]);
      assert plan[1..][j - 1] == plan[j];
      m := RunEmitsCase(subs, controls, stream, t1, plan[1..], j - 1, c);
      assert Run(subs, controls, stream, t, plan) == Run(subs, controls, stream, t1, plan[1..]);
    }
  }

  /** The first attempt of a run, when it has a control available, emits
      each of its cases as a case; `m` is its row. */
  lemma FirstSetEmitsCase<K>(subs: seq<Subject<K>>, controls: int, stream: nat -> nat, t: Tally, plan: seq<Attempt<K>>, c: nat)
      returns (m: nat)
    requires plan != [] && NControls(subs, controls, plan[0]) > 0
    requires c in Cases(subs, plan[0].stratum, plan[0].tf)
    ensures var r := Run(subs, controls, stream, t, plan);
      && |t.entries| <= m < |r.entries|
      && r.entries[m].setId == t.sets + 1 && r.entries[m].subject == c && r.entries[m].fail == 1
  {
    var rows := Emit(subs, controls, stream, t.drawn, t.sets + 1, plan[0]);
    var cs := Cases(subs, plan[0].stratum, plan[0].tf);
    var i :| 0 <= i < |cs| && cs[i] == c;
    m := |t.entries| + i;
    RunHead(subs, controls, stream, t, plan, m);
  }

  /** `rows` appear in `es` as one contiguous stretch starting at `m`. */
  predicate BlockAt(es: seq<Entry>, m: nat, rows: seq<Entry>) {
    m + |rows| <= |es| && es[m..m + |rows|] == rows
  }

  /** Of the rows of `es` from position `lo` on, those numbered `id` all lie
      in the stretch of `n` rows starting at `m`. */
  predicate OnlyIn(es: seq<Entry>, lo: nat, id: nat, m: nat, n: nat) {
    forall y :: lo <= y < |es| && es[y].setId == id ==> m <= y < m + n
  }

  /** The rows of the `j`-th attempt of a run, at risk set `a` and numbered
      `id`, are one contiguous stretch of the run's rows, starting at `m`:
      exactly what that attempt emits, drawing from the random stream at
      offset `d`; no other row the run adds carries its number. */
  lemma {:induction false} RunBlock<K>(subs: seq<Subject<K>>, controls: int, stream: nat -> nat, t: Tally, plan: seq<Attempt<K>>, j: nat)
      returns (m: nat, d: nat, id: nat, a: Attempt<K>)
    requires j < |plan|
    ensures a == plan[j] && id == t.sets + j + 1 && |t.entries| <= m
    ensures BlockAt(Run(subs, controls, stream, t, plan).entries, m, Emit(subs, controls, stream, d, id, a))
    ensures OnlyIn(Run(subs, controls, stream, t, plan).entries, |t.entries|, id, m, |Emit(subs, controls, stream, d, id, a)|)
    decreases |plan|
  {
    if j == 0 {
      m, d, id, a := FirstBlock(subs, controls, stream, t, plan);
    } else {
      TailIndex(plan, j);
      var t1 := RunFirst(subs, controls, stream, t, plan);
      m, d, id, a := RunBlock(subs, controls, stream, t1, plan[1..], j - 1);
      FirstRowsNumbered(subs, controls, stream, t, plan);
    }
  }

  /** The rows a run adds after its first attempt's rows carry later numbers. */
  lemma LaterRowsNumbered<K>(subs: seq<Subject<K>>, controls: int, stream: nat -> nat, t: Tally, plan: seq<Attempt<K>>)
    requires plan != []
    ensures var es := Run(subs, controls, stream, t, plan).entries;
      var n := |t.entries| + |Emit(subs, controls, stream, t.drawn, t.sets + 1, plan[0])|;
      forall y :: n <= y < |es| ==> es[y].setId > t.sets + 1
  {
    var t1 := RunFirst(subs, controls, stream, t, plan);
    var es := Run(subs, controls, stream, t, plan).entries;
    forall y | |t1.entries| <= y < |es| ensures es[y].setId > t.sets + 1 {
      RunRowFits(subs, controls, stream, t1, plan[1..], y);
    }
  }

  /** The rows of the first attempt of a run carry its number. */
  lemma FirstRowsNumbered<K>(subs: seq<Subject<K>>, controls: int, stream: nat -> nat, t: Tally, plan: seq<Attempt<K>>)
    requires plan != []
    ensures var es := Run(subs, controls, stream, t, plan).entries;
      var n := |t.entries| + |Emit(subs, controls, stream, t.drawn, t.sets + 1, plan[0])|;
      n <= |es| && forall y :: |t.entries| <= y < n ==> es[y].setId == t.sets + 1
  {
    forall y | |t.entries| <= y < |Step(subs, controls, stream, t, plan[0]).entries|
      ensures Run(subs, controls, stream, t, plan).entries[y].setId == t.sets + 1
    {
      FirstSetRowFits(subs, controls, stream, t, plan, y);
    }
  }

  /** The rows of the first attempt of a run follow the rows it started with,
      and no later row carries its number. */
  lemma FirstBlock<K>(subs: seq<Subject<K>>, controls: int, stream: nat -> nat, t: Tally, plan: seq<Attempt<K>>)
      returns (m: nat, d: nat, id: nat, a: Attempt<K>)
    requires plan != []
    ensures a == plan[0] && id == t.sets + 1 && m == |t.entries| && d == t.drawn
    ensures BlockAt(Run(subs, controls, stream, t, plan).entries, m, Emit(subs, controls, stream, d, id, a))
    ensures OnlyIn(Run(subs, controls, stream, t, plan).entries, |t.entries|, id, m, |Emit(subs, controls, stream, d, id, a)|)
  {
    m, d, id, a := |t.entries|, t.drawn, t.sets + 1, plan[0];
    var t1 := RunFirst(subs, controls, stream, t, plan);
    var es := Run(subs, controls, stream, t1, plan[1..]).entries;
    PrefixBlock(es, t.entries, Emit(subs, controls, stream, t.drawn, t.sets + 1, plan[0]));
    LaterRowsNumbered(subs, controls, stream, t, plan);
  }

  /** The `j`-th attempt of a run, when it has a control available, adds a
      stretch of rows starting at `m`: its cases in ascending position with
      flag 1, then as many controls as it draws, with flag 0, all under its number. */
  lemma RunSetRows<K>(subs: seq<Subject<K>>, controls: int, stream: nat -> nat, t: Tally, plan: seq<Attempt<K>>, j: nat)
      returns (m: nat)
    requires j < |plan| && NControls(subs, controls, plan[j]) > 0
    ensures var es := Run(subs, controls, stream, t, plan).entries;
      var cases := Cases(subs, plan[j].stratum, plan[j].tf);
      && |t.entries| <= m
      && m + |cases| + NControls(subs, controls, plan[j]) <= |es|
      && (forall y :: m <= y < m + |cases| ==>
            es[y].setId == t.sets + j + 1 && es[y].subject == cases[y - m] && es[y].fail == 1)
      && (forall y :: m + |cases| <= y < m + |cases| + NControls(subs, controls, plan[j]) ==>
            es[y].setId == t.sets + j + 1 && es[y].fail == 0)
      && OnlyIn(es, |t.entries|, t.sets + j + 1, m, |cases| + NControls(subs, controls, plan[j]))
  {
    var d, id, a;
    m, d, id, a := RunBlock(subs, controls, stream, t, plan, j);
    BlockRows(Run(subs, controls, stream, t, plan).entries, m, Emit(subs, controls, stream, d, id, a));
  }

  /** The `j`-th attempt of a run, when it has no control available, adds
      no row: no row the run adds carries its number (they all lie in an
      empty stretch). */
  lemma RunSilentSet<K>(subs: seq<Subject<K>>, controls: int, stream: nat -> nat, t: Tally, plan: seq<Attempt<K>>, j: nat)
    requires j < |plan|
    ensures NControls(subs, controls, plan[j]) <= 0 ==>
      OnlyIn(Run(subs, controls, stream, t, plan).entries, |t.entries|, t.sets + j + 1, 0, 0)
  {
    var m, d, id, a := RunBlock(subs, controls, stream, t, plan, j);
  }

  /** At most `controls` controls per case: the rows of a run never exceed
      `1 + controls` per case, and there are none when `controls` is not positive. */
  lemma {:induction false} EmittedBound<K>(subs: seq<Subject<K>>, controls: int, plan: seq<Attempt<K>>)
    ensures controls >= 0 ==> EmittedTotal(subs, controls, plan) <= (1 + controls) * CaseTotal(subs, plan)
    ensures controls <= 0 ==> EmittedTotal(subs, controls, plan) == 0
    decreases |plan|
  {
    if plan != [] {
      EmittedBound(subs, controls, plan[1..]);
      var c := NCase(subs, plan[0]);
      var n := NControls(subs, controls, plan[0]);
      SetBound(c, n, controls);
      Distribute(1 + controls, c, CaseTotal(subs, plan[1..]));
    }
  }

  /** One set emits at most `1 + controls` rows per case, and none when
      `controls` is not positive. */
  lemma SetBound(c: nat, n: int, controls: int)
    requires n <= controls * c
    ensures controls >= 0 ==> (if n > 0 then c + n else 0) <= (1 + controls) * c
    ensures controls <= 0 ==> n <= 0
  {
    if controls <= 0 {
      assert controls * c <= 0;
    }
  }

  /** Multiplication distributes over a sum. */
  lemma Distribute(x: int, a: int, b: int)
    ensures x * (a + b) == x * a + x * b
  {
  }

  /** Position `j - 1` of the tail is position `j` of the whole. */
  lemma TailIndex<T>(s: seq<T>, j: nat)
    requires 0 < j < |s|
    ensures s[1..][j - 1] == s[j]
  {
  }

  /** In a sequence that starts with `pre + rows`, the rows after `pre` are `rows`. */
  lemma PrefixIndex(es: seq<Entry>, pre: seq<Entry>, rows: seq<Entry>, k: nat)
    requires |pre + rows| <= |es| && es[..|pre + rows|] == pre + rows
    requires |pre| <= k < |pre| + |rows|
    ensures es[k] == rows[k - |pre|]
  {
    assert es[k] == es[..|pre + rows|][k];
  }

  /** A sequence that starts with `pre + rows` holds `rows` right after `pre`. */
  lemma PrefixBlock(es: seq<Entry>, pre: seq<Entry>, rows: seq<Entry>)
    requires |pre + rows| <= |es| && es[..|pre + rows|] == pre + rows
    ensures BlockAt(es, |pre|, rows)
  {
    assert es[|pre|..|pre| + |rows|] == es[..|pre + rows|][|pre|..];
  }

  /** The rows of a stretch, indexed from the start of the whole sequence. */
  lemma BlockRows(es: seq<Entry>, m: nat, rows: seq<Entry>)
    requires BlockAt(es, m, rows)
    ensures forall y :: m <= y < m + |rows| ==> es[y] == rows[y - m]
  {
    forall y | m <= y < m + |rows| ensures es[y] == rows[y - m] {
      assert es[m..m + |rows|][y - m] == rows[y - m];
    }
  }
}
