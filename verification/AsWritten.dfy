/** The sampler as written, where it departs from the model after the length
    checks. Two names can be read before anything was assigned to them: the
    stratum labels are built only when there is a matching column, yet they
    are read for every failing subject; and the subject positions through
    which the matching and included values are looked up are assigned only
    when some row was emitted. When no row was emitted and there is no
    column to look up, the table is built from four missing columns, which
    gives one row whose cells are all missing. */
module AsWritten {
  import opened Sampling

  /** What the sampler as written hands back: a refusal, a table, or a table
      of one row whose cells are all missing. */
  datatype Outcome<V> = Refused(error: Error) | Returned(table: Table<V>) | MissingRow

  /** The model's result as an outcome. */
  function Lift<V>(r: Result<Table<V>>): Outcome<V> {
    match r
    case Failure(e) => Refused(e)
    case Success(t) => Returned(t)
  }

  /** Some subject failed. */
  predicate AnyFailure<V>(c: Cohort<V>) {
    exists i :: 0 <= i < |c.fail| && c.fail[i] != 0
  }

  /** The stratum labels are read but were never built. */
  predicate GroupUnbound<V>(c: Cohort<V>) {
    |c.matchVars| == 0 && AnyFailure(c)
  }

  /** The subject positions are read for a column lookup but were never assigned. */
  predicate MapUnbound<V>(c: Cohort<V>, rows: seq<Row<V>>) {
    rows == [] && |c.matchVars| + |c.includeVars| > 0
  }

  /** The sampler as written. It agrees with the model on every cohort that
      is refused and on every cohort whose run emits a row and reads no
      unassigned name. Otherwise it stops with the name it read, or, when
      there is neither a failure nor a column to look up, returns the row of
      missing cells; it never returns a table without rows. */
  function SampleAsWritten<V(==,!new)>(c: Cohort<V>, controls: int, stream: nat -> nat): (r: Outcome<V>)
    ensures r != Lift(Sample(c, controls, stream)) <==>
      Consistent(c) && (GroupUnbound(c) || Sample(c, controls, stream).value.rows == [])
    ensures r == Refused(Unbound("grp")) <==> Consistent(c) && GroupUnbound(c)
    ensures r == Refused(Unbound("map")) <==>
      Consistent(c) && !GroupUnbound(c) && MapUnbound(c, Sample(c, controls, stream).value.rows)
    ensures r == MissingRow <==>
      Consistent(c) && |c.matchVars| == 0 && |c.includeVars| == 0 && !AnyFailure(c)
  {
    match Validate(c)
    case Failure(e) => Refused(e)
    case Success(_) =>
      if GroupUnbound(c) then Refused(Unbound("grp"))
      else
        var t := Tabulate(c, controls, stream);
        NoFailureNoRows(c, controls, stream);
        if t.rows != [] then Returned(t)
        else if MapUnbound(c, t.rows) then Refused(Unbound("map"))
        else MissingRow
  }

  /** Two subjects, the first failing, no matching column. */
  const Unmatched: Cohort<int> := Cohort([0, 0], [5, 5], [1, 0], [0, 0], [], [])

  /** Two subjects, the first failing, one matching column they share. */
  const Matched: Cohort<int> := Cohort([0, 0], [5, 5], [1, 0], [0, 0], [[7, 7]], [])

  /** Two subjects, neither failing, and no column to look up. */
  const Quiet: Cohort<int> := Cohort([0, 0], [5, 5], [0, 0], [0, 0], [], [])

  /** Without a matching column the sampler as written stops at the first
      failing subject, while the model samples the one global stratum. */
  lemma GroupUnboundShown(stream: nat -> nat)
    ensures SampleAsWritten(Unmatched, 1, stream) == Refused(Unbound("grp"))
    ensures Sample(Unmatched, 1, stream).Success?
  {
    assert Consistent(Unmatched);
    assert Unmatched.fail[0] != 0;
  }

  /** When no row is emitted (here because no control is wanted) the sampler
      as written stops at the lookup of the matching values, while the model
      returns an empty table. */
  lemma MapUnboundShown(stream: nat -> nat)
    ensures SampleAsWritten(Matched, 0, stream) == Refused(Unbound("map"))
    ensures Sample(Matched, 0, stream).Success? && Sample(Matched, 0, stream).value.rows == []
  {
    assert Consistent(Matched);
    SampleFitsBuffer(Matched, 0, stream);
  }

  /** Without a failure and without a column to look up, the sampler as
      written returns a row of missing cells, while the model returns an
      empty table. */
  lemma MissingRowShown(stream: nat -> nat)
    ensures SampleAsWritten(Quiet, 1, stream) == MissingRow
    ensures Sample(Quiet, 1, stream).Success? && Sample(Quiet, 1, stream).value.rows == []
  {
    assert Consistent(Quiet);
    assert forall i :: 0 <= i < |Quiet.fail| ==> Quiet.fail[i] == 0;
    NoFailureNoRows(Quiet, 1, stream);
  }
}
