# Nested case-control risk-set sampling, in Dafny

This project models `RiskSetSampling`, the sampler that turns a cohort into a
nested case-control study. Each subject has an entry time, an exit time, a
failure flag, an origin and matching values.

Times are taken relative to each subject's origin. For every stratum (one
combination of matching values) that holds a failure, and for every distinct
failure time `tf` in that stratum, the sampler does the following:

- It numbers one risk set.
- It takes as cases the subjects of the stratum that fail at `tf`.
- It takes as the control pool the other subjects of the stratum with
  `entry <= tf <= exit`.
- It draws `min(controls * ncase, |pool|)` controls without replacement.
- It emits the cases with `Fail = 1`, then the controls with `Fail = 0`. If no
  control is available it counts the cases as unmatched instead.

The output rows carry the following columns:

- the set number (`Set`);
- the subject's position (`Map`);
- the failure time moved back onto the calendar by the row's own subject's
  origin;
- the case flag;
- the subject's matching and included values.

Next to the rows come four diagnostics: the number of sets, the incomplete
sets, the unmatched cases and whether there were tied failure times.

The model is functional throughout. Subjects are immutable records, and the
per-set rules are pure functions. The loop over strata and failure times is a
fold over the list of attempted risk sets that carries the counters and the
emitted rows.

The random draw is modelled as a stream of natural numbers. That stream is
the seeded generator's output. Each pick takes, modulo the number of pool
members left, one member not drawn yet. Two lemmas cover this draw:

- `Seqs.Draw` proves that the drawn controls are distinct pool members.
- `Seqs.DrawReachesEverySample` proves that every duplicate-free selection of
  pool members is produced by some stream.

The files:

- `Seqs.dfy` holds the sequence helpers the sampler is built from:
  - the positions at which a boolean mask holds;
  - collecting and de-duplicating values;
  - sorted distinct values;
  - drawing without replacement.
- `RiskSets.dfy` holds the subjects, cases, control pool and strata, the
  order of attempted risk sets, the control cap, one attempt (`Step`) and the
  whole fold (`Run`).
- `Fold.dfy` covers what the fold adds up to:
  - the counters as sums over the attempted sets;
  - every row tied to its set;
  - the order of the rows;
  - every case emitted;
  - the bound on the number of rows.
- `Coverage.dfy` covers the failures:
  - every failure is a case of exactly one attempted set;
  - no case is emitted twice;
  - the rows fit the buffers the sampler preallocates.
- `Sampling.dfy` is the sampler as a caller sees it:
  - the columns;
  - the length checks made before sampling;
  - relative times and stratum keys;
  - row assembly with the calendar time and covariate lookup;
  - the properties of the finished table.
- `AsWritten.dfy` holds the sampler as written where it departs from the
  model after the length checks (see Findings): the two names read before
  they are assigned, and the row of missing cells returned for a cohort
  with no failure and no column to look up.

## Model

| member | source | states |
|---|---|---|
| `Seqs.Where` | RiskSetSampling.py:120-121 | Indexing the positions `0..n-1` with a boolean mask yields exactly the positions where the mask holds, each once and in ascending order. |
| `Seqs.Dedup` | RiskSetSampling.py:97 | The stratum labels collected from the failing subjects, de-duplicated: no label twice, and no label lost or invented. |
| `Seqs.SortedSet` | RiskSetSampling.py:99 | The distinct failure times of a stratum: strictly ascending, and exactly the values that occur. |
| `Seqs.Draw` | RiskSetSampling.py:122-124 | Drawing `size` controls without replacement gives exactly `size` members of the pool. No member appears twice when the pool has no repeats. |
| `Seqs.DrawReachesEverySample` | RiskSetSampling.py:122-124 | Every duplicate-free selection of pool members is the draw of some random stream. It is no larger than the pool. |
| `RiskSets.Cases` | RiskSetSampling.py:104 | The cases at `(g, tf)` are exactly the subjects of stratum `g` that fail with relative exit `tf`, listed in ascending position. |
| `RiskSets.Pool` | RiskSetSampling.py:108 | The control pool at `(g, tf)` is exactly the subjects of stratum `g` with `tEntry <= tf <= tExit` that are not cases there, listed in ascending position. |
| `RiskSets.Failing` | RiskSetSampling.py:85 | The positions with a non-zero failure flag. |
| `RiskSets.Strata` | RiskSetSampling.py:97 | Each stratum holding a failure appears once, and no other stratum appears. |
| `RiskSets.FailureTimes` | RiskSetSampling.py:99 | A stratum's failure times: ascending, and exactly the relative exit times of its failing subjects. |
| `RiskSets.Schedule` | RiskSetSampling.py:97-100 | The attempted risk sets are exactly the (stratum, failure time) pairs that have a case. Each is attempted once. A stratum's risk sets are attempted back to back, with no other stratum's set between two of them, and its failure times in ascending order. |
| `RiskSets.Cap` | RiskSetSampling.py:109-111 | The number of controls is the number wanted capped by the pool size: it is at most each of them and equals one of them. |
| `RiskSets.Emit` | RiskSetSampling.py:114-124 | With no available control, nothing is emitted. Otherwise exactly `ncase + ncont` rows are emitted under the set's number and time. The cases come first, in ascending position, with flag 1, and the controls are eligible pool members with flag 0. No subject appears twice. |
| `RiskSets.Step` | RiskSetSampling.py:103-127 | One attempt adds exactly one set, including an attempt that emits nothing. It notes a tie iff `ncase > 1` and counts an incomplete set iff `0 < ncont < controls * ncase`. Without a control it leaves the rows and the stream untouched and adds `ncase` unmatched cases. Otherwise it adds `ncase + ncont` rows, consumes `ncont` stream values, and the earlier rows stay in place. |
| `RiskSets.Run` | RiskSetSampling.py:98-127 | A run over a list of attempts adds one set per attempt and keeps the rows it started with as a prefix. |
| `RiskSets.Sampled` | RiskSetSampling.py:93-127 | The whole loop counts one set per attempted risk set. With no failing subject it attempts nothing, and the state stays the initial one: no row and every counter zero. |
| `Fold.RunCounters` | RiskSetSampling.py:93-96 | After a run, `nomatch` is the sum of the cases of the sets without a control. `incomplete` counts the sets with `0 < ncont < controls * ncase`. The row count is the sum of `ncase + ncont` over the sets that emitted. `ties` holds iff some set has more than one case. |
| `Fold.RunRowFits` | RiskSetSampling.py:116-122 | Every row of a run carries the number of an attempted set and that set's failure time. Its subject is either a case of that set with flag 1 or an eligible control with flag 0. |
| `Fold.RunRowsOrdered` | RiskSetSampling.py:115-125 | The rows come in nondecreasing set number. Within a set no subject repeats, and a case row never follows a control row. |
| `Fold.RunEmitsCase` | RiskSetSampling.py:118-120 | Every case of an attempted set that had a control available is emitted as a case under that set's number. |
| `Fold.RunBlock` | RiskSetSampling.py:114-125 | The rows of each attempted set form one contiguous stretch of the output, equal to what that attempt emits. No other row the run adds carries that set's number. |
| `Fold.RunSetRows` | RiskSetSampling.py:115-124 | An attempt that had a control available contributes a stretch of rows: its cases in ascending position with flag 1, then `ncont` rows with flag 0, all under its number. No other row the run adds carries that number. |
| `Fold.RunSilentSet` | RiskSetSampling.py:114-127 | An attempt that had no control available adds no row: no row the run adds carries its number. |
| `Fold.EmittedBound` | RiskSetSampling.py:85 | Over any list of attempts, the rows number at most `(1 + controls)` per case. They number none when `controls` is not positive. |
| `Coverage.CasesAreFailures` | RiskSetSampling.py:97-105 | Summed over the attempted sets, the case counts equal the number of failing subjects. |
| `Coverage.CaseOfExactlyOneSet` | RiskSetSampling.py:97-104 | A failing subject is a case of exactly one attempted set: the one of its own stratum and exit time. |
| `Coverage.SharedRiskSet` | RiskSetSampling.py:97-105 | When every failing subject has the same stratum and exit time, that single risk set is the only one attempted, and its cases are exactly the failing subjects, in order. |
| `Coverage.RowsFitBuffer` | RiskSetSampling.py:85-90 | The emitted rows never outnumber the `(1 + controls) * #failures` slots preallocated for them. |
| `Coverage.CaseEmittedOnce` | RiskSetSampling.py:118-120 | No failing subject is emitted as a case twice over the whole sample. |
| `Sampling.Validate` | RiskSetSampling.py:46-81 | The cohort passes iff `exit` matches `fail` in length, `entry` and `origin` have length 1 or that length, and every matching and included column has that length. Mismatches are reported in source order: the three vectors first, then matching, then included columns. |
| `Sampling.Failures` | RiskSetSampling.py:85 | The positions whose failure flag is non-zero. |
| `Sampling.SubjectAt` | RiskSetSampling.py:56-57 | A subject's relative entry and exit, moved forward by its own origin, give back its calendar entry and exit. It fails iff its flag is non-zero, and its stratum has one value per matching column. |
| `Sampling.SameStratum` | RiskSetSampling.py:82-84 | Two subjects share a stratum iff they agree on every matching column. With no matching column, every subject shares one stratum. |
| `Sampling.Assemble` | RiskSetSampling.py:131-144 | An output row keeps its entry's set number, subject and flag. Its calendar time minus its own subject's origin is the relative failure time. Its matching values are its subject's stratum and its included values are its subject's values of the included columns. |
| `Sampling.Sample` | RiskSetSampling.py:46-81 | The sampler yields a table iff the columns agree in length. A refusal carries the first failed length check and no table. |
| `Sampling.RefusalBeforeSampling` | RiskSetSampling.py:46-81 | A refusal is decided by the columns alone: neither the number of controls nor the random stream changes it. |
| `Sampling.SampleCounters` | RiskSetSampling.py:103-113 | `sets` is the number of attempted (stratum, failure time) pairs. `unmatched`, `incomplete`, the row count and `ties` are the sums and the disjunction over those sets given in `Fold.RunCounters`. |
| `Sampling.RowSound` | RiskSetSampling.py:104-144 | Every row's set number names an attempted set. The row's time is that set's failure time plus the row's own subject's origin. Its matching values are the set's stratum and its included values are its subject's. Its subject is a case of the set with flag 1 or was at risk without being a case, with flag 0. |
| `Sampling.RowsOrdered` | RiskSetSampling.py:115-125 | Rows come set by set. Two rows of one set have different subjects, the same stratum and the same relative time, and a case row never follows a control row. |
| `Sampling.SetBlock` | RiskSetSampling.py:114-124 | The rows of an attempted set that had a control available are one stretch: its cases in ascending position with flag 1, then `ncont` controls with flag 0. No other row carries its number, so the set has exactly `ncont` controls. |
| `Sampling.SetWithoutControl` | RiskSetSampling.py:114-127 | An attempted set that had no control available has no row in the output. |
| `Sampling.CaseCovered` | RiskSetSampling.py:97-120 | A failing subject is a case of exactly one attempted set. If that set had a control available, the subject is emitted there as a case. It is never emitted as a case twice. |
| `Sampling.SampleFitsBuffer` | RiskSetSampling.py:85-90 | At most `(1 + controls) * #failures` rows, and none without a positive number of controls. |
| `Sampling.NoMatchingOneStratum` | RiskSetSampling.py:82-99 | With no matching column, all subjects share one stratum, and the attempted sets are the distinct failure times of the whole cohort. |
| `Sampling.NoFailureNoRows` | RiskSetSampling.py:97-127 | With no failing subject, no risk set is attempted and the table has no row. |
| `AsWritten.SampleAsWritten` | RiskSetSampling.py:82-155 | The sampler as written departs from the model exactly on a consistent cohort that has no matching column but a failure, or whose run emits no row. It stops with `grp` in the first case. In the second it stops with `map` when there is a column to look up, and otherwise returns the row of missing cells. It never returns a table without rows. |
| `AsWritten.GroupUnboundShown` | RiskSetSampling.py:82-97 | A two-subject cohort with one failure and no matching column makes the sampler as written stop, while the model samples it. |
| `AsWritten.MapUnboundShown` | RiskSetSampling.py:131-140 | A two-subject cohort with a matching column, from which no row is emitted, makes the sampler as written stop, while the model returns an empty table. |
| `AsWritten.MissingRowShown` | RiskSetSampling.py:130-155 | A two-subject cohort with no failure and no column to look up makes the sampler as written return one row of missing cells, while the model returns an empty table. |

## Left out

- Date handling (`convert_date_to_int`, parsing and formatting of dates, timestamps): every time is a whole number on one axis, and a row's `time` is that number, not a formatted date.
- The random number generator: seeding and numpy's choice algorithm are foreign code. The draw is an explicit procedure over a stream of numbers.
- `Seqs.Draw`: promises a duplicate-free draw of the wanted size from the pool, and `Seqs.DrawReachesEverySample` shows that every such draw is reachable. Uniformity of the distribution is not stated, and the model does not reproduce numpy's draws for a given seed.
- The string form of the stratum key, which joins the values' string forms with `-`: a stratum is the sequence of the matching values and is compared by value. Two value combinations whose joined strings happen to coincide are therefore different strata here.
- The order in which strata are visited: the source iterates a Python set, whose order is unspecified. The model visits strata in the order of their first failing subject, and failure times in ascending order. Set numbers depend on this order. The lemmas of `Fold.dfy` hold for any list of attempts. The lemmas of `Coverage.dfy` and `Sampling.dfy` are stated for this order only.
- The argument forms: a single column name given as a string, a list of names, and the `illegal argument (match)` refusal of any other form. The model takes the matching and included columns as a list of columns, so the refusal cannot arise.
- The source reads every column from one table, so the columns always agree in length and the checks at lines 47-81 cannot fail there. The model takes the columns separately, so `Sampling.Validate` can refuse. An `entry` or `origin` column of length 1 is then read as one value shared by every subject. This is the evident intent of line 52; the source itself only validates `entry`'s length.
- AsWritten.SampleAsWritten: does not model what line 52 does with an `origin` of length 1, which in the source happens only for a one-subject cohort. `[origin] * n` builds a list holding the column itself, not its value repeated, and line 56 then subtracts that list from `entry`. With the table library this plausibly fails (not executed). The model follows the evident intent, one origin shared by every subject.
- The output table's construction: column names, dtype conversion and the reset of indices. The model returns the rows and the diagnostics as one value.
- The printed progress dots and diagnostic messages: the counters they print are fields of the result.
- `deployment.py`, a driver that reads a file and prints the result.

## Findings

| source | as written | input that shows it | evidently intended | confidence | as-written member | corrected member |
|---|---|---|---|---|---|---|
| RiskSetSampling.py:82-97 | The stratum labels `grp` are assigned only when there is a matching column, but they are read for every failing subject. | Two subjects, the first failing, no matching column, `controls = 1` (`AsWritten.Unmatched`). | An empty list of matching columns means one global stratum. | high, not executed | `AsWritten.GroupUnboundShown` | `Sampling.NoMatchingOneStratum` |
| RiskSetSampling.py:131-144 | The subject positions `map` are assigned only when some row was emitted, but they are read whenever there is a matching or included column. | Two subjects, the first failing, one matching column, `controls = 0` (`AsWritten.Matched`). | No emitted row yields an empty table with the diagnostics. | high, not executed | `AsWritten.MapUnboundShown` | `Sampling.SampleFitsBuffer` |
| RiskSetSampling.py:130-155 | With no emitted row and no column to look up, the table is built from four missing columns and comes out as one row whose cells are all missing. | Two subjects, neither failing, no matching or included column (`AsWritten.Quiet`). | No emitted row yields an empty table. | medium, not executed | `AsWritten.MissingRowShown` | `Sampling.NoFailureNoRows` |
