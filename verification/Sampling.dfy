/** The sampler as callers see it: the cohort's columns, the length checks
    done before any sampling, the subjects' times relative to their origin
    and their stratum keys built from the matching columns, and the output
    table whose rows carry the set number, the subject, the calendar time,
    the case flag and the subject's matching and included values. */
module Sampling {
  import opened Seqs
  import opened RiskSets
  import opened Fold
  import opened Coverage

  /** The columns the sampler reads, one value per subject. `entry` and
      `origin` may also hold a single value shared by every subject; `fail`
      is non-zero for a failure. Times are whole numbers on one axis. */
  datatype Cohort<V> = Cohort(
    entry: seq<int>,
    exit: seq<int>,
    fail: seq<int>,
    origin: seq<int>,
    matchVars: seq<seq<V>>,
    includeVars: seq<seq<V>>)

  /** Why a call is refused. `Unbound` is a name read before it was ever
      assigned, which only the sampler as written can run into. */
  datatype Error = VectorLength | MatchLength | IncludeLength | Unbound(name: string)

  datatype Result<T> = Success(value: T) | Failure(error: Error)

  /** One output row: the set number, the subject's position (`Map`), the
      calendar time, the case flag, and the subject's matching and included values. */
  datatype Row<V> = Row(setId: nat, subject: nat, time: int, fail: int, matched: seq<V>, included: seq<V>)

  /** The output rows and the diagnostics: the number of attempted sets, the
      sets with fewer controls than wanted, the cases left without any
      control, and whether two cases ever shared a set. */
  datatype Table<V> = Table(rows: seq<Row<V>>, sets: nat, incomplete: nat, unmatched: nat, ties: bool)

  /** A column of one value per subject, or a single value shared by all. */
  predicate Spans(col: seq<int>, n: nat) {
    |col| == 1 || |col| == n
  }

  /** Every column of `cols` has one value per subject. */
  predicate ColumnsSpan<V>(cols: seq<seq<V>>, n: nat) {
    forall j :: 0 <= j < |cols| ==> |cols[j]| == n
  }

  /** `exit`, `entry` and `origin` agree in length with `fail`. */
  predicate VectorsAgree<V>(c: Cohort<V>) {
    |c.exit| == |c.fail| && Spans(c.entry, |c.fail|) && Spans(c.origin, |c.fail|)
  }

  /** Every column agrees in length with `fail`. */
  predicate Consistent<V>(c: Cohort<V>) {
    VectorsAgree(c) && ColumnsSpan(c.matchVars, |c.fail|) && ColumnsSpan(c.includeVars, |c.fail|)
  }

  /** The length checks, in the order the sampler makes them: `exit`, `entry`
      and `origin` first, then every matching column, then every included column. */
  function Validate<V>(c: Cohort<V>): (r: Result<()>)
    ensures r.Success? <==> Consistent(c)
    ensures |c.exit| != |c.fail| || !Spans(c.entry, |c.fail|) || !Spans(c.origin, |c.fail|) ==> r == Failure(VectorLength)
    ensures VectorsAgree(c) && (exists j :: 0 <= j < |c.matchVars| && |c.matchVars[j]| != |c.fail|) ==> r == Failure(MatchLength)
    ensures VectorsAgree(c) && ColumnsSpan(c.matchVars, |c.fail|) && (exists j :: 0 <= j < |c.includeVars| && |c.includeVars[j]| != |c.fail|)
      ==> r == Failure(IncludeLength)
  {
    var n := |c.fail|;
    if |c.exit| != n then Failure(VectorLength)
    else if |c.entry| != 1 && |c.entry| != n then Failure(VectorLength)
    else if |c.origin| != 1 && |c.origin| != n then Failure(VectorLength)
    else if exists j :: 0 <= j < |c.matchVars| && |c.matchVars[j]| != n then Failure(MatchLength)
    else if exists j :: 0 <= j < |c.includeVars| && |c.includeVars[j]| != n then Failure(IncludeLength)
    else Success(())
  }

  /** Subject `i`'s value of a column that may be a single shared value. */
  function ValueAt(col: seq<int>, i: nat): int
    requires 0 < |col| && (|col| == 1 || i < |col|)
  {
    if |col| == 1 then col[0] else col[i]
  }

  /** Subject `i`'s origin. */
  function OriginAt<V>(c: Cohort<V>, i: nat): int
    requires Consistent(c) && i < |c.fail|
  {
    ValueAt(c.origin, i)
  }

  /** Subject `i`'s values of the columns `cols`, in column order. */
  function Across<V>(cols: seq<seq<V>>, i: nat): (r: seq<V>)
    requires forall j :: 0 <= j < |cols| ==> i < |cols[j]|
    ensures |r| == |cols| && forall j :: 0 <= j < |cols| ==> r[j] == cols[j][i]
  {
    seq(|cols|, j requires 0 <= j < |cols| => cols[j][i])
  }

  /** Subject `i` on the time axis of its own origin, its stratum being its
      values of the matching columns: moving its relative times forward by
      its origin gives back its calendar entry and exit. */
  function SubjectAt<V>(c: Cohort<V>, i: nat): (s: Subject<seq<V>>)
    requires Consistent(c) && i < |c.fail|
    ensures s.tEntry + OriginAt(c, i) == ValueAt(c.entry, i) && s.tExit + OriginAt(c, i) == c.exit[i]
    ensures s.failed <==> c.fail[i] != 0
    ensures |s.stratum| == |c.matchVars|
  {
    Subject(ValueAt(c.entry, i) - OriginAt(c, i), c.exit[i] - OriginAt(c, i), c.fail[i] != 0, Across(c.matchVars, i))
  }

  /** Two subjects share a stratum exactly when they agree on every matching
      column; with no matching column all subjects share one stratum. */
  lemma SameStratum<V>(c: Cohort<V>, i: nat, i': nat)
    requires Consistent(c) && i < |c.fail| && i' < |c.fail|
    ensures SubjectAt(c, i).stratum == SubjectAt(c, i').stratum <==>
      forall j :: 0 <= j < |c.matchVars| ==> c.matchVars[j][i] == c.matchVars[j][i']
  {
    var g, g' := SubjectAt(c, i).stratum, SubjectAt(c, i').stratum;
    if forall j :: 0 <= j < |c.matchVars| ==> c.matchVars[j][i] == c.matchVars[j][i'] {
      assert forall j :: 0 <= j < |g| ==> g[j] == g'[j];
    }
  }

  /** Every subject of the cohort. */
  function Subjects<V>(c: Cohort<V>): (r: seq<Subject<seq<V>>>)
    requires Consistent(c)
    ensures |r| == |c.fail| && forall i :: 0 <= i < |r| ==> r[i] == SubjectAt(c, i)
  {
    seq(|c.fail|, i requires 0 <= i < |c.fail| => SubjectAt(c, i))
  }

  /** The positions of the failing subjects. */
  function Failures<V>(c: Cohort<V>): (r: seq<nat>)
    requires Consistent(c)
    ensures forall i: nat :: i in r <==> i < |c.fail| && c.fail[i] != 0
  {
    Failing(Subjects(c))
  }

  /** Every row of a run over the cohort's subjects names one of them. */
  lemma EntriesInRange<K(!new)>(subs: seq<Subject<K>>, controls: int, stream: nat -> nat)
    ensures var es := Sampled(subs, controls, stream).entries;
      forall k :: 0 <= k < |es| ==> es[k].subject < |subs|
  {
    var es := Sampled(subs, controls, stream).entries;
    forall k | 0 <= k < |es| ensures es[k].subject < |subs| {
      RunRowFits(subs, controls, stream, Start, Schedule(subs), k);
    }
  }

  /** A row of the output: the relative failure time is moved back onto the
      calendar by the subject's own origin, and the subject's matching and
      included values are looked up by its position. */
  function Assemble<V>(c: Cohort<V>, e: Entry): (w: Row<V>)
    requires Consistent(c) && e.subject < |c.fail|
    ensures w.setId == e.setId && w.subject == e.subject && w.fail == e.fail
    ensures w.time - OriginAt(c, e.subject) == e.time
    ensures w.matched == SubjectAt(c, e.subject).stratum
    ensures |w.included| == |c.includeVars| && forall j :: 0 <= j < |c.includeVars| ==> w.included[j] == c.includeVars[j][e.subject]
  {
    Row(e.setId, e.subject, e.time + OriginAt(c, e.subject), e.fail,
        Across(c.matchVars, e.subject), Across(c.includeVars, e.subject))
  }

  /** The output rows of the entries `es`, in order. */
  function Rows<V>(c: Cohort<V>, es: seq<Entry>): (r: seq<Row<V>>)
    requires Consistent(c) && forall k :: 0 <= k < |es| ==> es[k].subject < |c.fail|
    ensures |r| == |es| && forall k :: 0 <= k < |es| ==> r[k] == Assemble(c, es[k])
  {
    seq(|es|, k requires 0 <= k < |es| => Assemble(c, es[k]))
  }

  /** The table of a cohort that passed the length checks. */
  function Tabulate<V(==,!new)>(c: Cohort<V>, controls: int, stream: nat -> nat): Table<V>
    requires Consistent(c)
  {
    var subs := Subjects(c);
    var t := Sampled(subs, controls, stream);
    EntriesInRange(subs, controls, stream);
    Table(Rows(c, t.entries), t.sets, t.incomplete, t.nomatch, t.ties)
  }

  /** The sampler: refuse a cohort whose columns disagree in length, before
      any sampling, otherwise sample every risk set. `stream` is the random
      generator's output; drawing the controls of a set consumes as many
      values as it draws controls. */
  function Sample<V(==,!new)>(c: Cohort<V>, controls: int, stream: nat -> nat): (r: Result<Table<V>>)
    ensures r.Success? <==> Consistent(c)
    ensures r.Failure? ==> Validate(c) == Failure(r.error)
  {
    match Validate(c)
    case Failure(e) => Failure(e)
    case Success(_) => Success(Tabulate(c, controls, stream))
  }

  /** A refusal depends on the columns alone: neither the number of controls
      nor the random stream can change it, and no table comes out. */
  lemma RefusalBeforeSampling<V(!new)>(c: Cohort<V>, controls: int, stream: nat -> nat, controls': int, stream': nat -> nat)
    requires !Consistent(c)
    ensures Sample(c, controls, stream) == Sample(c, controls', stream') == Failure(Validate(c).error)
  {
  }

  /** The table of a consistent cohort is built from the run's rows, one output row per entry. */
  lemma Tabulated<V(!new)>(c: Cohort<V>, controls: int, stream: nat -> nat)
    requires Consistent(c)
    ensures var s := Sampled(Subjects(c), controls, stream);
      var t := Sample(c, controls, stream).value;
      && t.sets == s.sets && t.incomplete == s.incomplete && t.unmatched == s.nomatch && t.ties == s.ties
      && |t.rows| == |s.entries|
      && forall k :: 0 <= k < |s.entries| ==> s.entries[k].subject < |c.fail| && t.rows[k] == Assemble(c, s.entries[k])
  {
    EntriesInRange(Subjects(c), controls, stream);
  }

  /** The diagnostics are sums over the attempted risk sets: one set per
      (stratum, failure time) with a failure, the cases of the sets without
      an available control, the sets that got fewer controls than wanted, and
      a tie exactly when some set has more than one case. The rows number the
      cases and controls of the sets that had a control available. */
  lemma SampleCounters<V(!new)>(c: Cohort<V>, controls: int, stream: nat -> nat)
    requires Consistent(c)
    ensures var t := Sample(c, controls, stream).value;
      var subs := Subjects(c);
      var plan := Schedule(subs);
      && t.sets == |plan|
      && t.unmatched == UnmatchedTotal(subs, controls, plan)
      && t.incomplete == IncompleteTotal(subs, controls, plan)
      && |t.rows| == EmittedTotal(subs, controls, plan)
      && (t.ties <==> exists k :: 0 <= k < |plan| && NCase(subs, plan[k]) > 1)
  {
    var subs := Subjects(c);
    Tabulated(c, controls, stream);
    RunCounters(subs, controls, stream, Start, Schedule(subs));
  }

  /** `w` belongs to the risk set of `plan` its number names: it is at that
      set's failure time moved by the row's own subject's origin, its matching
      values are that set's stratum, its included values are its subject's,
      and its subject is one of the set's cases (flag 1) or was at risk at
      that time without being a case (flag 0). */
  predicate RowFits<V(==)>(c: Cohort<V>, plan: seq<Attempt<seq<V>>>, w: Row<V>)
    requires Consistent(c)
  {
    && 1 <= w.setId <= |plan|
    && w.subject < |c.fail|
    && var a := plan[w.setId - 1];
    && var s := SubjectAt(c, w.subject);
    && w.time == a.tf + OriginAt(c, w.subject)
    && w.matched == a.stratum == Across(c.matchVars, w.subject)
    && w.included == Across(c.includeVars, w.subject)
    && ((w.fail == 1 && IsCase(s, a.stratum, a.tf)) || (w.fail == 0 && Eligible(s, a.stratum, a.tf)))
  }

  /** A run row that fits its risk set becomes an output row that fits it. */
  lemma AssembledFits<V>(c: Cohort<V>, plan: seq<Attempt<seq<V>>>, e: Entry)
    requires Consistent(c) && FitsPlan(Subjects(c), plan, 0, e)
    ensures RowFits(c, plan, Assemble(c, e))
  {
  }

  /** Every row belongs to the attempted risk set its number names. */
  lemma RowSound<V(!new)>(c: Cohort<V>, controls: int, stream: nat -> nat, k: nat)
    requires Consistent(c)
    ensures var rows := Sample(c, controls, stream).value.rows;
      k < |rows| ==> RowFits(c, Schedule(Subjects(c)), rows[k])
  {
    var subs := Subjects(c);
    var es := Sampled(subs, controls, stream).entries;
    Tabulated(c, controls, stream);
    if k < |es| {
      RunRowFits(subs, controls, stream, Start, Schedule(subs), k);
      AssembledFits(c, Schedule(subs), es[k]);
    }
  }

  /** Two rows of one set: different subjects, the case first, and the same
      stratum and relative time. */
  predicate SameSetOrder<V(==)>(c: Cohort<V>, w: Row<V>, w': Row<V>)
    requires Consistent(c) && w.subject < |c.fail| && w'.subject < |c.fail|
  {
    && w.subject != w'.subject
    && w.fail >= w'.fail
    && w.matched == w'.matched
    && w.time - OriginAt(c, w.subject) == w'.time - OriginAt(c, w'.subject)
  }

  /** Two run rows of one risk set, different subjects with the case first,
      become output rows in that order with the same stratum and relative time. */
  lemma SameSetRows<V>(c: Cohort<V>, plan: seq<Attempt<seq<V>>>, e: Entry, e': Entry)
    requires Consistent(c) && FitsPlan(Subjects(c), plan, 0, e) && FitsPlan(Subjects(c), plan, 0, e')
    requires e.setId == e'.setId && e.subject != e'.subject && e.fail >= e'.fail
    ensures SameSetOrder(c, Assemble(c, e), Assemble(c, e'))
  {
  }

  /** The rows come set by set; within one set no subject appears twice, the
      cases come before the controls, and all rows share the set's stratum
      and relative time. */
  lemma RowsOrdered<V(!new)>(c: Cohort<V>, controls: int, stream: nat -> nat, k: nat, l: nat)
    requires Consistent(c) && k < l
    ensures var rows := Sample(c, controls, stream).value.rows;
      l < |rows| ==>
        && rows[k].setId <= rows[l].setId
        && rows[k].subject < |c.fail| && rows[l].subject < |c.fail|
        && (rows[k].setId == rows[l].setId ==> SameSetOrder(c, rows[k], rows[l]))
  {
    var subs := Subjects(c);
    var plan := Schedule(subs);
    var es := Sampled(subs, controls, stream).entries;
    Tabulated(c, controls, stream);
    if l < |es| {
      RunRowsOrdered(subs, controls, stream, Start, plan, k, l);
      if es[k].setId == es[l].setId {
        RunRowFits(subs, controls, stream, Start, plan, k);
        RunRowFits(subs, controls, stream, Start, plan, l);
        SameSetRows(c, plan, es[k], es[l]);
      }
    }
  }

  /** The rows of the `j`-th attempted set, when it had a control available,
      are one stretch starting at `m`: its cases in ascending position with
      flag 1, then as many controls as it drew, with flag 0. */
  lemma SetBlock<V(!new)>(c: Cohort<V>, controls: int, stream: nat -> nat, j: nat) returns (m: nat)
    requires Consistent(c)
    requires j < |Schedule(Subjects(c))|
    requires NControls(Subjects(c), controls, Schedule(Subjects(c))[j]) > 0
    ensures var rows := Sample(c, controls, stream).value.rows;
      var subs := Subjects(c);
      var a := Schedule(subs)[j];
      var cases := Cases(subs, a.stratum, a.tf);
      && m + |cases| + NControls(subs, controls, a) <= |rows|
      && (forall y :: m <= y < m + |cases| ==>
            rows[y].setId == j + 1 && rows[y].subject == cases[y - m] && rows[y].fail == 1)
      && (forall y :: m + |cases| <= y < m + |cases| + NControls(subs, controls, a) ==>
            rows[y].setId == j + 1 && rows[y].fail == 0)
      && (forall y :: 0 <= y < |rows| && rows[y].setId == j + 1 ==> m <= y < m + |cases| + NControls(subs, controls, a))
  {
    var subs := Subjects(c);
    Tabulated(c, controls, stream);
    m := RunSetRows(subs, controls, stream, Start, Schedule(subs), j);
  }

  /** No row of `rows` carries the set number `id`. */
  predicate Unnumbered<V>(rows: seq<Row<V>>, id: nat) {
    forall y :: 0 <= y < |rows| ==> rows[y].setId != id
  }

  /** An attempted set that had no control available emits no row: its
      cases are only counted as unmatched. */
  lemma SetWithoutControl<V(!new)>(c: Cohort<V>, controls: int, stream: nat -> nat, j: nat)
    requires Consistent(c) && j < |Schedule(Subjects(c))|
    ensures var subs := Subjects(c);
      NControls(subs, controls, Schedule(subs)[j]) <= 0 ==> Unnumbered(Sample(c, controls, stream).value.rows, j + 1)
  {
    var subs := Subjects(c);
    var plan := Schedule(subs);
    var es := Run(subs, controls, stream, Start, plan).entries;
    var rows := Sample(c, controls, stream).value.rows;
    RowNumbers(c, controls, stream);
    RunSilentSet(subs, controls, stream, Start, plan, j);
    if NControls(subs, controls, plan[j]) <= 0 {
      UnnumberedRows(rows, es, j + 1);
    }
  }

  /** Rows numbered like `es`, where no entry carries `id`, do not carry it either. */
  lemma UnnumberedRows<V>(rows: seq<Row<V>>, es: seq<Entry>, id: nat)
    requires |rows| == |es| && forall y :: 0 <= y < |rows| ==> rows[y].setId == es[y].setId
    requires OnlyIn(es, 0, id, 0, 0)
    ensures Unnumbered(rows, id)
  {
  }

  /** The output rows carry the set numbers of the run's rows, one for one. */
  lemma RowNumbers<V(!new)>(c: Cohort<V>, controls: int, stream: nat -> nat)
    requires Consistent(c)
    ensures var rows := Sample(c, controls, stream).value.rows;
      var es := Run(Subjects(c), controls, stream, Start, Schedule(Subjects(c))).entries;
      |rows| == |es| && forall y :: 0 <= y < |rows| ==> rows[y].setId == es[y].setId
  {
    Tabulated(c, controls, stream);
  }

  /** Each failing subject is a case of exactly one attempted set, the
      `j`-th, of its own stratum and relative exit time; when that set had a
      control available the subject is emitted there as a case, and it is
      never emitted as a case twice. */
  lemma CaseCovered<V(!new)>(c: Cohort<V>, controls: int, stream: nat -> nat, i: nat) returns (j: nat)
    requires Consistent(c) && i < |c.fail| && c.fail[i] != 0
    ensures var subs := Subjects(c);
      var plan := Schedule(subs);
      var rows := Sample(c, controls, stream).value.rows;
      && j < |plan|
      && plan[j] == OwnSet(subs[i])
      && (forall l :: 0 <= l < |plan| && i in Cases(subs, plan[l].stratum, plan[l].tf) ==> l == j)
      && (NControls(subs, controls, plan[j]) > 0 ==>
            exists m :: 0 <= m < |rows| && rows[m].setId == j + 1 && rows[m].subject == i && rows[m].fail == 1)
      && (forall m, m' :: 0 <= m < m' < |rows| && rows[m].fail == 1 && rows[m'].fail == 1 ==>
            rows[m].subject != rows[m'].subject)
  {
    var subs := Subjects(c);
    var plan := Schedule(subs);
    var es := Sampled(subs, controls, stream).entries;
    j := CaseOfExactlyOneSet(subs, i);
    if NControls(subs, controls, plan[j]) > 0 {
      var m := RunEmitsCase(subs, controls, stream, Start, plan, j, i);
      assert es[m].setId == j + 1;
    }
    forall m, m' | 0 <= m < m' < |es| && es[m].fail == 1 && es[m'].fail == 1
      ensures es[m].subject != es[m'].subject
    {
      CaseEmittedOnce(subs, controls, stream, m, m');
    }
  }

  /** The rows fit the buffers sized for one case and `controls` controls per
      failure; without a positive number of controls there are no rows. */
  lemma SampleFitsBuffer<V(!new)>(c: Cohort<V>, controls: int, stream: nat -> nat)
    requires Consistent(c)
    ensures var rows := Sample(c, controls, stream).value.rows;
      && (controls >= 0 ==> |rows| <= (1 + controls) * |Failures(c)|)
      && (controls <= 0 ==> rows == [])
  {
    RowsFitBuffer(Subjects(c), controls, stream);
  }

  /** With no failing subject no risk set is attempted and no row is emitted. */
  lemma NoFailureNoRows<V(!new)>(c: Cohort<V>, controls: int, stream: nat -> nat)
    requires Consistent(c)
    ensures var t := Sample(c, controls, stream).value;
      (forall i :: 0 <= i < |c.fail| ==> c.fail[i] == 0) ==> t.sets == 0 && t.rows == []
  {
    var subs := Subjects(c);
    Tabulated(c, controls, stream);
    assert (forall i :: 0 <= i < |c.fail| ==> c.fail[i] == 0) ==> forall i :: 0 <= i < |subs| ==> !subs[i].failed;
  }

  /** With no matching columns every subject shares the empty stratum, so the
      attempted sets are the distinct failure times of the whole cohort. */
  lemma NoMatchingOneStratum<V(!new)>(c: Cohort<V>)
    requires Consistent(c) && |c.matchVars| == 0
    ensures var subs := Subjects(c);
      forall a :: a in Schedule(subs) <==>
        a.stratum == [] && exists i :: 0 <= i < |subs| && subs[i].failed && subs[i].tExit == a.tf
  {
    var subs := Subjects(c);
    forall a ensures a in Schedule(subs) <==>
        a.stratum == [] && exists i :: 0 <= i < |subs| && subs[i].failed && subs[i].tExit == a.tf
    {
      if a.stratum == [] && exists i :: 0 <= i < |subs| && subs[i].failed && subs[i].tExit == a.tf {
        var i :| 0 <= i < |subs| && subs[i].failed && subs[i].tExit == a.tf;
        assert IsCase(subs[i], a.stratum, a.tf);
      }
    }
  }
}
