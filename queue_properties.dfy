/**
 * What the queue-report parser guarantees, stated against definitions that
 * do not mention the parser: per key, the number of matching lines and the
 * sums of their cores and mem fields; and, for failures, the first line whose
 * fields cannot be read.
 */
module QueueProperties {
  import opened Wrappers
  import opened Strings
  import opened Tally
  import opened Queue

  /** A line counts under `key` when it has FieldSep and its first four fields join to `key`. */
  predicate Matches(line: string, key: string)
  {
    FieldSep in line && |Fields(line)| >= 4 && Join(Fields(line)[..4], FieldSep) == key
  }

  /** The value of field `i` of a line, or 0 when it is missing or not a number. */
  function FieldValue(line: string, i: nat, num: NumParser): real
  {
    var f := Fields(line);
    if i < |f| then (match num(f[i]) case Some(v) => v case None => 0.0) else 0.0
  }

  function JobCount(lines: seq<string>, key: string): nat
  {
    Count(lines, line => Matches(line, key))
  }

  function CoresSum(lines: seq<string>, key: string, num: NumParser): real
  {
    Sum(lines, line => if Matches(line, key) then FieldValue(line, 4, num) else 0.0)
  }

  function MemSum(lines: seq<string>, key: string, num: NumParser): real
  {
    Sum(lines, line => if Matches(line, key) then FieldValue(line, 5, num) else 0.0)
  }

  /** A line that makes the whole parse fail: it has FieldSep but not six readable fields. */
  predicate Rejects(line: string, num: NumParser)
  {
    FieldSep in line &&
    var f := Fields(line);
    |f| < 6 || num(f[4]).None? || num(f[5]).None?
  }

  /** `cause` names a real defect of `line`: an index past its last field, or a field that is not a number. */
  predicate Explains(line: string, cause: FieldError, num: NumParser)
  {
    match cause
    case IndexOutOfRange(k) => 2 <= |Fields(line)| <= k <= 5
    case BadNumber(k, text) => (k == 4 || k == 5) && k < |Fields(line)| && Fields(line)[k] == text && num(text).None?
  }

  /** The record of a line with FieldSep that the parser accepts, and its key. */
  lemma AcceptedLine(line: string, num: NumParser) returns (rec: Record)
    requires FieldSep in line && !Rejects(line, num)
    ensures ParseRecord(line, num) == Success(rec)
    ensures forall key :: Matches(line, key) <==> key == RecordKey(rec)
    ensures rec.cores == FieldValue(line, 4, num) && rec.mem == FieldValue(line, 5, num)
  {
    var f := Fields(line);
    rec := ParseRecord(line, num).value;
    assert f[..4] == [f[0], f[1], f[2], f[3]];
  }

  /**
   * `m` summarises `lines`: it holds exactly one entry per key that some line
   * matches, and that entry counts the matching lines and sums their cores and mem.
   */
  ghost predicate Summarizes(m: QueueInfo, lines: seq<string>, num: NumParser)
  {
    && (forall key :: key in m <==> JobCount(lines, key) > 0)
    && (forall key :: key in m ==>
          m[key] == Counts(JobCount(lines, key), CoresSum(lines, key, num), MemSum(lines, key, num)))
  }

  /** What one more line adds to the count and the sums of a key. */
  lemma LastLine(init: seq<string>, line: string, key: string, num: NumParser)
    ensures JobCount(init + [line], key) == JobCount(init, key) + (if Matches(line, key) then 1 else 0)
    ensures CoresSum(init + [line], key, num) == CoresSum(init, key, num) + (if Matches(line, key) then FieldValue(line, 4, num) else 0.0)
    ensures MemSum(init + [line], key, num) == MemSum(init, key, num) + (if Matches(line, key) then FieldValue(line, 5, num) else 0.0)
  {
  }

  /** Each accepted line keeps the summary up to date. */
  lemma StepSummarizes(m0: QueueInfo, init: seq<string>, line: string, num: NumParser)
    requires Summarizes(m0, init, num)
    requires Step(m0, line, |init|, num).Success?
    ensures Summarizes(Step(m0, line, |init|, num).value, init + [line], num)
  {
    var lines := init + [line];
    var m := Step(m0, line, |init|, num).value;
    if FieldSep in line {
      var rec := AcceptedLine(line, num);
      var k := RecordKey(rec);
      assert m == Add(m0, k, rec.cores, rec.mem);
      forall key ensures (key in m <==> JobCount(lines, key) > 0) && (key in m ==>
          m[key] == Counts(JobCount(lines, key), CoresSum(lines, key, num), MemSum(lines, key, num)))
      {
        AddSummarizesKey(m0, init, line, rec, key, num);
      }
    } else {
      assert m == m0;
      forall key ensures (key in m <==> JobCount(lines, key) > 0) && (key in m ==>
          m[key] == Counts(JobCount(lines, key), CoresSum(lines, key, num), MemSum(lines, key, num)))
      {
        LastLine(init, line, key, num);
      }
    }
  }

  /** Adding an accepted line's record keeps one key's entry equal to its count and sums. */
  lemma AddSummarizesKey(m0: QueueInfo, init: seq<string>, line: string, rec: Record, key: string, num: NumParser)
    requires Summarizes(m0, init, num)
    requires forall key' :: Matches(line, key') <==> key' == RecordKey(rec)
    requires rec.cores == FieldValue(line, 4, num) && rec.mem == FieldValue(line, 5, num)
    ensures var m := Add(m0, RecordKey(rec), rec.cores, rec.mem);
      && (key in m <==> JobCount(init + [line], key) > 0)
      && (key in m ==> m[key] == Counts(JobCount(init + [line], key), CoresSum(init + [line], key, num), MemSum(init + [line], key, num)))
  {
    LastLine(init, line, key, num);
    if key == RecordKey(rec) && key !in m0 {
      NoMatchNoSums(init, key, num);
    }
  }

  /** A successful parse summarises its lines. */
  lemma {:induction false} AggregateCounts(lines: seq<string>, num: NumParser)
    requires Aggregate(lines, num).Success?
    ensures Summarizes(Aggregate(lines, num).value, lines, num)
    decreases |lines|
  {
    if |lines| > 0 {
      var n := |lines| - 1;
      AggregateCounts(lines[..n], num);
      assert lines == lines[..n] + [lines[n]];
      StepSummarizes(Aggregate(lines[..n], num).value, lines[..n], lines[n], num);
    }
  }

  /** Sums over a key that no line matches are zero. */
  lemma NoMatchNoSums(lines: seq<string>, key: string, num: NumParser)
    requires JobCount(lines, key) == 0
    ensures CoresSum(lines, key, num) == 0.0 && MemSum(lines, key, num) == 0.0
  {
    assert forall i :: 0 <= i < |lines| ==> !Matches(lines[i], key);
  }

  /**
   * The parse fails exactly when some line is rejected, and the error names
   * the first rejected line together with a genuine defect of that line.
   */
  lemma {:induction false} AggregateFails(lines: seq<string>, num: NumParser)
    ensures Aggregate(lines, num).Failure? <==> exists i :: 0 <= i < |lines| && Rejects(lines[i], num)
    ensures Aggregate(lines, num).Failure? ==>
      var e := Aggregate(lines, num).error;
      && e.line < |lines|
      && Rejects(lines[e.line], num)
      && Explains(lines[e.line], e.cause, num)
      && forall i :: 0 <= i < e.line ==> !Rejects(lines[i], num)
    decreases |lines|
  {
    if |lines| > 0 {
      var n := |lines| - 1;
      var init := lines[..n];
      AggregateFails(init, num);
      assert forall i :: 0 <= i < n ==> init[i] == lines[i];
      if FieldSep in lines[n] {
        SplitSeparated(lines[n], FieldSep);
      }
    }
  }

  /** Two line sequences that hold the same lines, apart from lines that are never rejected, fail alike. */
  lemma SameRejections(xs: seq<string>, ys: seq<string>, num: NumParser)
    requires forall x :: x in xs && Rejects(x, num) ==> x in ys
    requires forall y :: y in ys && Rejects(y, num) ==> y in xs
    ensures (exists i :: 0 <= i < |xs| && Rejects(xs[i], num)) <==> (exists j :: 0 <= j < |ys| && Rejects(ys[j], num))
  {
  }

  /** With exact arithmetic the order of the lines does not matter. */
  lemma OrderIrrelevant(lines: seq<string>, shuffled: seq<string>, num: NumParser)
    requires multiset(lines) == multiset(shuffled)
    ensures Aggregate(lines, num).Success? <==> Aggregate(shuffled, num).Success?
    ensures Aggregate(lines, num).Success? ==> Aggregate(lines, num) == Aggregate(shuffled, num)
  {
    AggregateFails(lines, num);
    AggregateFails(shuffled, num);
    assert forall x :: x in lines <==> x in shuffled by {
      forall x ensures x in lines <==> x in shuffled {
        assert x in lines <==> x in multiset(lines);
        assert x in shuffled <==> x in multiset(shuffled);
      }
    }
    SameRejections(lines, shuffled, num);
    if Aggregate(lines, num).Success? {
      SameSnapshot(lines, shuffled, num);
    }
  }

  /** Two successful parses of the same lines in different orders give the same snapshot. */
  lemma SameSnapshot(lines: seq<string>, shuffled: seq<string>, num: NumParser)
    requires multiset(lines) == multiset(shuffled)
    requires Aggregate(lines, num).Success? && Aggregate(shuffled, num).Success?
    ensures Aggregate(lines, num) == Aggregate(shuffled, num)
  {
    AggregateCounts(lines, num);
    AggregateCounts(shuffled, num);
    var m, m' := Aggregate(lines, num).value, Aggregate(shuffled, num).value;
    forall key ensures JobCount(lines, key) == JobCount(shuffled, key)
      && CoresSum(lines, key, num) == CoresSum(shuffled, key, num)
      && MemSum(lines, key, num) == MemSum(shuffled, key, num)
    {
      CountPermutation(lines, shuffled, line => Matches(line, key));
      SumPermutation(lines, shuffled, line => if Matches(line, key) then FieldValue(line, 4, num) else 0.0);
      SumPermutation(lines, shuffled, line => if Matches(line, key) then FieldValue(line, 5, num) else 0.0);
    }
    assert m.Keys == m'.Keys;
    assert m == m';
  }

  /** A line without FieldSep, wherever it stands, changes no entry of a successful parse. */
  lemma CommaFreeLineIgnored(before: seq<string>, line: string, after: seq<string>, num: NumParser)
    requires FieldSep !in line
    ensures Aggregate(before + [line] + after, num).Success? <==> Aggregate(before + after, num).Success?
    ensures Aggregate(before + after, num).Success? ==>
      Aggregate(before + [line] + after, num).value == Aggregate(before + after, num).value
  {
    var with, without := before + [line] + after, before + after;
    AggregateFails(with, num);
    AggregateFails(without, num);
    assert forall x :: x in with <==> x in without || x == line;
    assert !Rejects(line, num);
    SameRejections(with, without, num);
    if Aggregate(without, num).Success? {
      SkippedLineSnapshot(before, line, after, num);
    }
  }

  /** Two successful parses that differ by one line without FieldSep give the same snapshot. */
  lemma SkippedLineSnapshot(before: seq<string>, line: string, after: seq<string>, num: NumParser)
    requires FieldSep !in line
    requires Aggregate(before + [line] + after, num).Success? && Aggregate(before + after, num).Success?
    ensures Aggregate(before + [line] + after, num) == Aggregate(before + after, num)
  {
    var with, without := before + [line] + after, before + after;
    AggregateCounts(with, num);
    AggregateCounts(without, num);
    var m, m' := Aggregate(with, num).value, Aggregate(without, num).value;
    forall key ensures JobCount(with, key) == JobCount(without, key)
      && CoresSum(with, key, num) == CoresSum(without, key, num)
      && MemSum(with, key, num) == MemSum(without, key, num)
    {
      SkippedLineTotals(before, line, after, key, num);
    }
    assert m.Keys == m'.Keys;
    assert m == m';
  }

  /** A line without FieldSep adds nothing to any key's count or sums. */
  lemma SkippedLineTotals(before: seq<string>, line: string, after: seq<string>, key: string, num: NumParser)
    requires FieldSep !in line
    ensures JobCount(before + [line] + after, key) == JobCount(before + after, key)
    ensures CoresSum(before + [line] + after, key, num) == CoresSum(before + after, key, num)
    ensures MemSum(before + [line] + after, key, num) == MemSum(before + after, key, num)
  {
    var p := line => Matches(line, key);
    var c := line => if Matches(line, key) then FieldValue(line, 4, num) else 0.0;
    var d := line => if Matches(line, key) then FieldValue(line, 5, num) else 0.0;
    assert [line][..0] == [];
    CountAppend(before + [line], after, p);
    CountAppend(before, [line], p);
    CountAppend(before, after, p);
    SumAppend(before + [line], after, c);
    SumAppend(before, [line], c);
    SumAppend(before, after, c);
    SumAppend(before + [line], after, d);
    SumAppend(before, [line], d);
    SumAppend(before, after, d);
  }

  /** A newline at the end of the report only adds an empty line, which is skipped. */
  lemma TrailingNewline(input: string, num: NumParser)
    ensures Parse(input + [LineSep], num) == Parse(input, num)
  {
    SplitTrailing(input, LineSep);
    var lines := Lines(input);
    assert Lines(input + [LineSep]) == lines + [""];
    assert (lines + [""])[..|lines|] == lines;
  }

  /** Fields after the sixth play no part in a line's record. */
  lemma ExtraFieldsIgnored(line: string, extra: string, num: NumParser)
    requires |Fields(line)| >= 6
    ensures ParseRecord(line + [FieldSep] + extra, num) == ParseRecord(line, num)
  {
    SplitAppend(line, extra, FieldSep);
    var f, g := Fields(line), Fields(line + [FieldSep] + extra);
    assert g == f + Fields(extra);
    assert g[..6] == f[..6];
  }

  /** The key built from a line's first four fields splits back into exactly those fields. */
  lemma LineKeySplitsBack(line: string)
    requires |Fields(line)| >= 4
    ensures Split(Join(Fields(line)[..4], FieldSep), FieldSep) == Fields(line)[..4]
  {
    var f := Fields(line);
    assert FreeOf(f[..4], FieldSep) by {
      forall j | 0 <= j < 4 ensures FieldSep !in f[..4][j] {
        assert f[..4][j] == f[j];
      }
    }
    SplitJoin(f[..4], FieldSep);
  }

  /**
   * Every key of a successful parse splits back into exactly the first four
   * fields of each line it was built from.
   */
  lemma ParsedKeysSplitBack(lines: seq<string>, num: NumParser)
    requires Aggregate(lines, num).Success?
    ensures forall key :: key in Aggregate(lines, num).value ==> |Split(key, FieldSep)| == 4
    ensures forall key, i :: key in Aggregate(lines, num).value && 0 <= i < |lines| && Matches(lines[i], key) ==>
      Split(key, FieldSep) == Fields(lines[i])[..4]
  {
    var m := Aggregate(lines, num).value;
    AggregateCounts(lines, num);
    forall i | 0 <= i < |lines| && FieldSep in lines[i] && |Fields(lines[i])| >= 4
      ensures Split(Join(Fields(lines[i])[..4], FieldSep), FieldSep) == Fields(lines[i])[..4]
    {
      LineKeySplitsBack(lines[i]);
    }
    forall key | key in m ensures |Split(key, FieldSep)| == 4 {
      var i :| 0 <= i < |lines| && Matches(lines[i], key);
    }
  }

  /** An empty report parses to an empty snapshot. */
  lemma EmptyReport(num: NumParser)
    ensures Parse("", num) == Success(QueueMetrics(map[]))
  {
  }

  /** A report line made of the six given fields. */
  function Line(fields: seq<string>): string
  {
    Join(fields, FieldSep)
  }

  /** The six fields of a line made by Line come back from Fields, and the line has no LineSep. */
  lemma LineFields(fields: seq<string>)
    requires |fields| == 6
    requires FreeOf(fields, FieldSep) && FreeOf(fields, LineSep)
    ensures Fields(Line(fields)) == fields
    ensures FieldSep in Line(fields)
    ensures LineSep !in Line(fields)
  {
    SplitJoin(fields, FieldSep);
    JoinAvoids(fields, FieldSep, LineSep);
  }

  /** Aggregating one more line is one more Step. */
  lemma AggregateSnoc(init: seq<string>, line: string, m: QueueInfo, num: NumParser)
    requires Aggregate(init, num) == Success(m)
    ensures Aggregate(init + [line], num) == Step(m, line, |init|, num)
  {
  }

  /** A well-formed job line adds one job, its cores and its mem under its key. */
  lemma StepOnLine(m: QueueInfo, fields: seq<string>, index: nat, num: NumParser, cores: real, mem: real)
    requires |fields| == 6
    requires FreeOf(fields, FieldSep) && FreeOf(fields, LineSep)
    requires num(fields[4]) == Some(cores) && num(fields[5]) == Some(mem)
    ensures LineSep !in Line(fields)
    ensures Step(m, Line(fields), index, num) == Success(Add(m, Join(fields[..4], FieldSep), cores, mem))
  {
    LineFields(fields);
    assert fields[..4] == [fields[0], fields[1], fields[2], fields[3]];
  }

  /** Two well-formed job lines under one key, then an empty line. */
  lemma AggregateSameKey(f1: seq<string>, f2: seq<string>, num: NumParser, x1: real, y1: real, x2: real, y2: real)
    requires |f1| == 6 && FreeOf(f1, FieldSep) && FreeOf(f1, LineSep)
    requires |f2| == 6 && FreeOf(f2, FieldSep) && FreeOf(f2, LineSep)
    requires f1[..4] == f2[..4]
    requires num(f1[4]) == Some(x1) && num(f1[5]) == Some(y1)
    requires num(f2[4]) == Some(x2) && num(f2[5]) == Some(y2)
    ensures LineSep !in Line(f1) && LineSep !in Line(f2)
    ensures Aggregate([Line(f1), Line(f2), ""], num) == Success(map[Join(f1[..4], FieldSep) := Counts(2, x1 + x2, y1 + y2)])
  {
    var key := Join(f1[..4], FieldSep);
    var l1, l2 := Line(f1), Line(f2);
    var one := map[key := Counts(1, x1, y1)];
    var two := map[key := Counts(2, x1 + x2, y1 + y2)];
    StepOnLine(map[], f1, 0, num, x1, y1);
    StepOnLine(one, f2, 1, num, x2, y2);
    assert Add(map[], key, x1, y1) == one;
    assert Add(one, key, x2, y2) == two;
    AggregateSnoc([], l1, map[], num);
    assert [] + [l1] == [l1];
    AggregateSnoc([l1], l2, one, num);
    assert [l1] + [l2] == [l1, l2];
    AggregateSnoc([l1, l2], "", two, num);
    assert [l1, l2] + [""] == [l1, l2, ""];
  }

  /**
   * Two jobs with the same partition, user, name and state aggregate into one
   * entry that counts two jobs and adds their cores and their mem.
   */
  lemma SameKeyMerges(p: string, u: string, n: string, s: string,
                      c1: string, m1: string, c2: string, m2: string,
                      num: NumParser, x1: real, y1: real, x2: real, y2: real)
    requires FreeOf([p, u, n, s, c1, m1, c2, m2], FieldSep)
    requires FreeOf([p, u, n, s, c1, m1, c2, m2], LineSep)
    requires num(c1) == Some(x1) && num(m1) == Some(y1)
    requires num(c2) == Some(x2) && num(m2) == Some(y2)
    ensures Parse(Join([Line([p, u, n, s, c1, m1]), Line([p, u, n, s, c2, m2]), ""], LineSep), num)
         == Success(QueueMetrics(map[Join([p, u, n, s], FieldSep) := Counts(2, x1 + x2, y1 + y2)]))
  {
    var f1, f2 := [p, u, n, s, c1, m1], [p, u, n, s, c2, m2];
    var all := [p, u, n, s, c1, m1, c2, m2];
    assert all[0] == p && all[1] == u && all[2] == n && all[3] == s;
    assert all[4] == c1 && all[5] == m1 && all[6] == c2 && all[7] == m2;
    assert FreeOf(f1, FieldSep) && FreeOf(f1, LineSep);
    assert FreeOf(f2, FieldSep) && FreeOf(f2, LineSep);
    assert f1[..4] == [p, u, n, s] == f2[..4];
    AggregateSameKey(f1, f2, num, x1, y1, x2, y2);
    SplitJoin([Line(f1), Line(f2), ""], LineSep);
  }
}
