/**
 * The queue-report parser: the text printed by the scheduler's queue query,
 * one job per line as "partition,user,name,state,cores,mem", aggregated into
 * per-(partition, user, name, state) counters.
 */
module Queue {
  import opened Wrappers
  import opened Strings

  /** Separates the lines of the report. */
  const LineSep := '\n'
  /** Separates the fields of a line, and the four parts of an aggregation key. */
  const FieldSep := ','

  /**
   * A number parser for the cores and mem fields: the field's text to its
   * value, or None when the text is not a number.
   */
  type NumParser = string -> Option<real>

  /** The three counters kept per aggregation key. */
  datatype Counts = Counts(jobs: nat, cores: real, mem: real)

  /** The counters of a key seen for the first time. */
  const Zero := Counts(0, 0.0, 0.0)

  /** Aggregation key (the four labels joined with FieldSep) to its counters. */
  type QueueInfo = map<string, Counts>

  datatype QueueMetrics = QueueMetrics(slurmQueue: QueueInfo)

  /** One job line, once its fields have been extracted. */
  datatype Record = Record(partition: string, user: string, name: string, state: string, cores: real, mem: real)

  /** What went wrong on a line: a missing field, or a field that is not a number. */
  datatype FieldError = IndexOutOfRange(index: nat) | BadNumber(field: nat, text: string)

  /** A failed parse: the zero-based index of the offending line and the cause. */
  datatype ParseError = ParseError(line: nat, cause: FieldError)

  function Fields(line: string): seq<string>
  {
    Split(line, FieldSep)
  }

  function Lines(input: string): seq<string>
  {
    Split(input, LineSep)
  }

  function RecordKey(r: Record): string
  {
    Join([r.partition, r.user, r.name, r.state], FieldSep)
  }

  /**
   * Extract the record of a line. The fields are looked at in the order the
   * parser uses them: fields 0 to 3 and 4 are indexed before field 4 is parsed
   * as a number, and field 5 is indexed only after that, so a line with five
   * fields and a bad cores field reports the bad number, not the missing field.
   */
  function ParseRecord(line: string, num: NumParser): (r: Result<Record, FieldError>)
    ensures r.Success? <==>
      |Fields(line)| >= 6 && num(Fields(line)[4]).Some? && num(Fields(line)[5]).Some?
    ensures r.Success? ==> RecordKey(r.value) == Join(Fields(line)[..4], FieldSep)
    ensures r.Failure? && r.error.IndexOutOfRange? ==> r.error.index >= |Fields(line)|
    ensures r.Failure? && r.error.BadNumber? ==>
      r.error.field < |Fields(line)| && r.error.text == Fields(line)[r.error.field]
      && num(r.error.text).None?
  {
    var f := Fields(line);
    if |f| < 5 then Failure(IndexOutOfRange(|f|))
    else match num(f[4])
      case None => Failure(BadNumber(4, f[4]))
      case Some(cores) =>
        assert f[..4] == [f[0], f[1], f[2], f[3]];
        if |f| < 6 then Failure(IndexOutOfRange(5))
        else match num(f[5])
          case None => Failure(BadNumber(5, f[5]))
          case Some(mem) => Success(Record(f[0], f[1], f[2], f[3], cores, mem))
  }

  /** Count one more job under `key`, creating a zeroed entry on its first occurrence. */
  function Add(m: QueueInfo, key: string, cores: real, mem: real): (r: QueueInfo)
    ensures r.Keys == m.Keys + {key}
    ensures forall k :: k in m && k != key ==> r[k] == m[k]
    ensures r[key].jobs >= 1
  {
    var c := if key in m then m[key] else Zero;
    m[key := Counts(c.jobs + 1, c.cores + cores, c.mem + mem)]
  }

  /** Process the line at position `index`: lines without FieldSep are skipped. */
  function Step(m: QueueInfo, line: string, index: nat, num: NumParser): (r: Result<QueueInfo, ParseError>)
    ensures FieldSep !in line ==> r == Success(m)
    ensures r.Success? ==> m.Keys <= r.value.Keys
    ensures r.Failure? ==> r.error.line == index && FieldSep in line
  {
    if FieldSep !in line then Success(m)
    else match ParseRecord(line, num)
      case Failure(cause) => Failure(ParseError(index, cause))
      case Success(rec) => Success(Add(m, RecordKey(rec), rec.cores, rec.mem))
  }

  /** The aggregate of a sequence of lines, built line by line from the empty map. */
  function Aggregate(lines: seq<string>, num: NumParser): (r: Result<QueueInfo, ParseError>)
    ensures r.Failure? ==> r.error.line < |lines| && FieldSep in lines[r.error.line]
    decreases |lines|
  {
    if |lines| == 0 then Success(map[])
    else match Aggregate(lines[..|lines| - 1], num)
      case Failure(e) => Failure(e)
      case Success(m) => Step(m, lines[|lines| - 1], |lines| - 1, num)
  }

  /** The whole report, split into lines and aggregated. */
  function Parse(input: string, num: NumParser): (r: Result<QueueMetrics, ParseError>)
    ensures r.Failure? ==> r.error.line < |Lines(input)| && FieldSep in Lines(input)[r.error.line]
  {
    match Aggregate(Lines(input), num)
    case Failure(e) => Failure(e)
    case Success(m) => Success(QueueMetrics(m))
  }

  /** Once a prefix of the lines fails, the whole parse fails with the same error. */
  lemma {:induction false} FailureIsFinal(lines: seq<string>, i: nat, num: NumParser)
    requires i <= |lines|
    requires Aggregate(lines[..i], num).Failure?
    ensures Aggregate(lines, num) == Aggregate(lines[..i], num)
    decreases |lines| - i
  {
    if i < |lines| {
      assert lines[..i + 1][..i] == lines[..i];
      FailureIsFinal(lines, i + 1, num);
    } else {
      assert lines[..i] == lines;
    }
  }

  /** One more line is one more Step; if that Step fails, so does the whole parse, with its error. */
  lemma AggregateNext(lines: seq<string>, i: nat, m: QueueInfo, num: NumParser)
    requires i < |lines| && Aggregate(lines[..i], num) == Success(m)
    ensures Aggregate(lines[..i + 1], num) == Step(m, lines[i], i, num)
    ensures Step(m, lines[i], i, num).Failure? ==> Aggregate(lines, num) == Step(m, lines[i], i, num)
  {
    assert lines[..i + 1][..i] == lines[..i];
    if Step(m, lines[i], i, num).Failure? {
      FailureIsFinal(lines, i + 1, num);
    }
  }

  /** A line with six fields whose fields 4 and 5 are numbers is one Add under its first four fields. */
  lemma AcceptedStep(m: QueueInfo, line: string, index: nat, num: NumParser)
    requires FieldSep in line
    requires |Fields(line)| >= 6 && num(Fields(line)[4]).Some? && num(Fields(line)[5]).Some?
    ensures var f := Fields(line);
      Step(m, line, index, num) ==
        Success(Add(m, Join([f[0], f[1], f[2], f[3]], FieldSep), num(f[4]).value, num(f[5]).value))
  {
    var f := Fields(line);
    assert ParseRecord(line, num) == Success(Record(f[0], f[1], f[2], f[3], num(f[4]).value, num(f[5]).value));
  }

  /**
   * Count one accepted line in place: create a zeroed entry for its key on the
   * key's first occurrence, then bump the entry's three counters one by one.
   */
  method CountLine(queue: QueueInfo, index: string, cores: real, mem: real) returns (q: QueueInfo)
    ensures q == Add(queue, index, cores, mem)
  {
    q := queue;
    if index !in q {
      q := q[index := Zero];
    }
    q := q[index := q[index].(jobs := q[index].jobs + 1)];
    q := q[index := q[index].(cores := q[index].cores + cores)];
    q := q[index := q[index].(mem := q[index].mem + mem)];
  }

  /**
   * The parser: walk the lines, skip those without FieldSep, and accumulate the
   * counters of every other line into a map, stopping at the first bad line.
   */
  method ParseQueueMetrics(input: string, num: NumParser) returns (r: Result<QueueMetrics, ParseError>)
    ensures r == Parse(input, num)
  {
    var queue: QueueInfo := map[];
    var lines := Split(input, LineSep);
    var i := 0;
    while i < |lines|
      invariant i <= |lines|
      invariant Aggregate(lines[..i], num) == Success(queue)
    {
      var line := lines[i];
      AggregateNext(lines, i, queue, num);
      if FieldSep in line {
        var splitted := Split(line, FieldSep);
        if |splitted| < 5 {
          return Failure(ParseError(i, IndexOutOfRange(|splitted|)));
        }
        var partition, user, name, state := splitted[0], splitted[1], splitted[2], splitted[3];
        var cores := num(splitted[4]);
        if cores.None? {
          return Failure(ParseError(i, BadNumber(4, splitted[4])));
        }
        if |splitted| < 6 {
          return Failure(ParseError(i, IndexOutOfRange(5)));
        }
        var mem := num(splitted[5]);
        if mem.None? {
          return Failure(ParseError(i, BadNumber(5, splitted[5])));
        }
        var index := Join([partition, user, name, state], FieldSep);
        AcceptedStep(queue, line, i, num);
        queue := CountLine(queue, index, cores.value, mem.value);
      }
      i := i + 1;
    }
    assert lines[..i] == lines;
    return Success(QueueMetrics(queue));
  }
}
