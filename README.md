# Slurm queue exporter: parser and collector model

This project models the core of a Prometheus exporter for the Slurm batch
scheduler. On each scrape the exporter runs `squeue`. It reads one line per job
in the form `partition,user,name,state,cores,mem`. It aggregates the lines into
one entry per (partition, user, name, state) key, holding a job count, a cores
sum and a mem sum. It then emits one `slurm_queue_jobs` gauge sample per key.
The sample carries the four key parts as labels and the job count as its value.

Modules:

- `Wrappers` (`wrappers.dfy`): `Option` and `Result`.
- `Strings` (`strings.dfy`): Go's `strings.Split` and `strings.Join` for a
  one-character separator, and the lemmas that relate them.
- `Tally` (`tally.dfy`): counting and exact summation over a sequence. This
  module proves that neither depends on the order of the elements.
- `Queue` (`queue.dfy`): the data model (`Counts`, `QueueInfo`,
  `QueueMetrics`), the per-line step, and the pure fold `Aggregate` over the
  lines. It also holds the imperative parser `ParseQueueMetrics`: a `while`
  loop over the lines that updates a map in place. The three in-place updates
  for one accepted line are done by `CountLine`. The parser is proved equal to
  the fold.
- `QueueProperties` (`queue_properties.dfy`): what the parser guarantees. The
  count, sum and failure guarantees (`AggregateCounts`, `StepSummarizes`,
  `AggregateFails`) are stated against reference definitions that do not
  mention the parser: per key, the number of matching lines (`JobCount`) and
  the sums of their fields (`CoresSum`, `MemSum`); for failures, which lines
  are rejected (`Rejects`). The other lemmas compare the parser with itself on
  related inputs: reordered lines, an added comma-free line, a trailing
  newline, extra fields. A few lemmas work through concrete lines in terms of
  `Add`.
- `Collector` (`collector.dfy`): the metric descriptor, the loop that emits
  one sample per map entry, and the scrape `Collect`.

Modelling choices:

- Number parsing (`strconv.ParseFloat`) is a parameter `num: string -> Option<real>`.
  `None` stands for a parse error. Sums use exact real addition.
- `log.Fatal` is modelled as a `Failure` result that carries the zero-based
  index of the line and its cause. So are the index-out-of-range panics on
  lines with fewer than six fields. The checks run in the order the Go code
  uses the fields. Fields 2 to 4 are indexed before field 4 is parsed. Field 5
  is indexed only after field 4 parsed. So a five-field line with a bad cores
  field fails on the number, not on the missing field.
- The three `float64` entries `"jobs"`, `"cores"` and `"mem"` become the record
  `Counts(jobs: nat, cores: real, mem: real)`.
- Keys stay the joined strings the code builds. `Collect` splits them back.

The model keeps these details of the code:

- The HELP text of the gauge is `"Pending jobs in queue"`.
- A line may have more than six fields. The extra fields are ignored.
- A line with too few fields stops the program with a runtime panic, not a
  parse error. The model reports it as `IndexOutOfRange`.

## Model

| member | source | states |
|---|---|---|
| `Strings.Split` | queue.go:46 | Every part is free of the separator, and there is at least one part. |
| `Strings.Join` | queue.go:58 | With two or more parts, the separator follows the first part directly. `SplitJoin` and `JoinSplit` prove that `Join` and `Split` undo each other. |
| `Strings.SplitNoSep` | queue.go:46 | A string without the separator splits into itself alone. |
| `Strings.SplitAppend` | queue.go:43 | Splitting `a + sep + b` gives the parts of `a` followed by the parts of `b`. |
| `Strings.SplitSeparated` | queue.go:45-51 | A line that contains `,` splits into at least two fields, so reading `splitted[0]` and `splitted[1]` never goes out of range. |
| `Strings.SplitJoin` | queue.go:58 | Joining a non-empty list of separator-free parts and splitting the result gives back exactly those parts. |
| `Strings.JoinSplit` | queue.go:114 | Splitting a string and joining the parts gives back the string. |
| `Tally.Count` | queue.go:64 | The count is at most the length, and it is positive exactly when some element satisfies the predicate. |
| `Tally.Sum` | queue.go:65-66 | A weight that is zero on every element sums to zero. `SumAppend` adds sums over concatenations, and `SumPermutation` proves a sum independent of order. |
| `Tally.CountPermutation` | queue.go:64 | A count is the same for any reordering of the elements. |
| `Tally.SumPermutation` | queue.go:65-66 | An exact sum is the same for any reordering of the elements. |
| `Queue.ParseRecord` | queue.go:46-56 | A line yields a record exactly when it has at least six fields and fields 4 and 5 parse as numbers. The record's key joins the line's first four fields. A reported missing index really is past the last field. A reported bad number names a field that exists, carries its text, and that text does not parse. `AcceptedLine` and `ExtraFieldsIgnored` prove more. |
| `Queue.Add` | queue.go:60-66 | The key is present afterwards, and no other key is added or changed. Its job count is at least one. `StepSummarizes` proves that it adds one job and the line's cores and mem. |
| `Queue.CountLine` | queue.go:60-66 | Creating a zeroed entry when the key is missing, then bumping jobs, cores and mem in place one by one, gives exactly `Add`. |
| `Queue.Step` | queue.go:45-66 | A line without `,` leaves the map as it is. A successful step keeps every key already present. A failure names this line's index, and the line has `,`. `StepSummarizes` ties it to the per-key count and sums. |
| `Queue.Aggregate` | queue.go:43-68 | A failure names one of the lines, and that line has `,`. `AggregateCounts` and `AggregateFails` characterise success and failure completely. |
| `Queue.Parse` | queue.go:39-70 | A failure names one of the report's lines, and that line has `,`. `ParseQueueMetrics` is proved to return exactly this result. |
| `Queue.FailureIsFinal` | queue.go:53-56 | Once a prefix of the lines fails, the whole parse fails with that same error. |
| `Queue.ParseQueueMetrics` | queue.go:39-70 | The loop over the lines, with its in-place map updates, returns exactly `Parse(input, num)`: the fold of `Step` over the lines, or the first line's error. |
| `QueueProperties.AcceptedLine` | queue.go:46-58 | A line that has `,` and is not rejected parses to a record. Its cores and mem are the values of fields 4 and 5. The line matches exactly the key that its record builds. |
| `QueueProperties.NoMatchNoSums` | queue.go:60-62 | A key that no line matches has zero sums. This is why a fresh entry starts from zero. |
| `QueueProperties.StepSummarizes` | queue.go:58-66 | Processing one more line keeps the map equal to the per-key count and sums over the lines so far. |
| `QueueProperties.AggregateCounts` | queue.go:43-68 | After a successful parse, the keys are exactly the keys of the `,` lines. Each entry's jobs is the number of lines that match its key. Its cores and mem are the sums of fields 4 and 5 over those lines. |
| `QueueProperties.AggregateFails` | queue.go:46-56 | The parse fails exactly when some line has `,` but fewer than six fields or a non-numeric field 4 or 5. The error names the first such line and a real defect in it: an index past its last field, or the text of the bad field. |
| `QueueProperties.OrderIrrelevant` | queue.go:43-68 | Any reordering of the lines succeeds or fails alike. When it succeeds it gives the same snapshot. |
| `QueueProperties.SameSnapshot` | queue.go:43-68 | Two successful parses of the same lines in different orders give the same snapshot. |
| `QueueProperties.CommaFreeLineIgnored` | queue.go:45 | Adding a line without `,` anywhere changes neither success nor any entry. |
| `QueueProperties.SkippedLineTotals` | queue.go:45 | A line without `,`, inserted anywhere, adds nothing to any key's job count, cores sum or mem sum. |
| `QueueProperties.TrailingNewline` | queue.go:43-45 | A newline at the end of the report does not change the parse result, errors included. |
| `QueueProperties.ExtraFieldsIgnored` | queue.go:46-55 | Fields after the sixth do not change a line's record. |
| `QueueProperties.LineKeySplitsBack` | queue.go:46-58 | The key built from a line's first four fields splits back into exactly those four fields. |
| `QueueProperties.ParsedKeysSplitBack` | queue.go:46-58 | Every key of a successful parse splits into exactly four parts. These are the first four fields of each line that produced it. |
| `QueueProperties.EmptyReport` | queue.go:40-45 | An empty report parses to an empty snapshot. |
| `QueueProperties.StepOnLine` | queue.go:46-66 | A line built from six clean fields adds one job, its cores and its mem under the key of its first four fields. |
| `QueueProperties.AggregateSameKey` | queue.go:58-66 | Two clean lines with the same first four fields, then an empty line, give a single entry: two jobs, with both cores and both mems added. |
| `QueueProperties.SameKeyMerges` | queue.go:43-66 | Same as the previous row, starting from the raw report text `line1\nline2\n`. |
| `Collector.SampleOf` | queue.go:114-127 | A key's sample has as many labels as the descriptor names, and none of them contains `,`. Its value is the key's job count. When the key has exactly four parts, the labels join back to the key. |
| `Collector.EmitSamples` | queue.go:112-129 | There are as many samples as entries, and every entry's sample is among them. So an empty snapshot gives no samples. Each key is visited exactly once. The sample for a key has the key's first four parts as labels, as many as the descriptor names, and the key's job count as value. |
| `Collector.EmitsAll` | queue.go:113-128 | When every key splits into exactly four parts, the labels of each emitted sample join back to its key, and its value is that key's job count. |
| `Collector.Collect` | queue.go:110-131 | A failed parse makes the scrape fail with the same error. Otherwise there is one sample per entry. Each sample has as many labels as the descriptor, its labels join back to an entry's key, and its value is that entry's job count. |
| `Collector.LabelsRoundTrip` | queue.go:58 | The sample for a key built from four comma-free labels has exactly those labels, in that order. |

## Left out

- `QueueData` (queue.go:73-87) is not modelled: it starts the `squeue` subprocess and reads its output. `Collect` takes the report text as a parameter. Errors from `StdoutPipe`, `Start` and `Wait` end the process through `log.Fatal`. The error of `ReadAll` (queue.go:82) is discarded. None of this is modelled. The option `-o` and its format are a single argument, `"-o '%P,%u,%j,%T,%C,%m"`, so `squeue` receives the format with a stray ` '` (a space and a quote) in front. That would reach the partition label, but it lies outside this model.
- `strconv.ParseFloat` is not modelled: its grammar, float64 rounding, NaN and infinities are abstracted by the `num` parameter. Sums are exact. The count is an unbounded `nat`. The source keeps the count as a `float64`.
- Process exit through `log.Fatal` and index-out-of-range panics are modelled as `Failure` results.
- The Prometheus client is not modelled: `prometheus.NewDesc`, `MustNewConstMetric`, and the channels of `Describe` and `Collect` (queue.go:95-108, 120-128). The descriptor is the constant `Collector.JobsDesc`. A sample is a value `Sample(labels, value)`, and the samples are returned as a sequence.
- The order of Go's map iteration is left out. `Collector.EmitSamples` picks any remaining key. Its contract speaks of each key once, in any order.
- Bytes to text: the input `[]byte` is modelled as a `string`. Only the ASCII separators `\n` and `,` are looked at, so this changes nothing.
