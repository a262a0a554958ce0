/**
 * The metrics collector: on each scrape it parses the queue report and emits
 * one gauge sample per aggregation key, labelled with the key's partition,
 * user, name and state and valued with the key's job count.
 */
module Collector {
  import opened Wrappers
  import opened Strings
  import opened Queue
  import opened QueueProperties

  /** The one metric the collector describes. */
  datatype Desc = Desc(name: string, help: string, labelNames: seq<string>)

  const JobsDesc := Desc("slurm_queue_jobs", "Pending jobs in queue", ["partition", "user", "name", "state"])

  /** A gauge sample: label values in the order of JobsDesc.labelNames, and the value. */
  datatype Sample = Sample(labels: seq<string>, value: nat)

  /** A key that splits into at least the four label values. */
  predicate HasLabels(key: string)
  {
    |Split(key, FieldSep)| >= 4
  }

  /** The sample emitted for one entry of the snapshot. */
  function SampleOf(key: string, c: Counts): (s: Sample)
    requires HasLabels(key)
    ensures |s.labels| == |JobsDesc.labelNames| && s.value == c.jobs
    ensures forall i :: 0 <= i < |s.labels| ==> FieldSep !in s.labels[i]
    ensures |Split(key, FieldSep)| == 4 ==> Join(s.labels, FieldSep) == key
  {
    JoinSplit(key, FieldSep);
    assert |Split(key, FieldSep)| == 4 ==> Split(key, FieldSep)[..4] == Split(key, FieldSep);

    Sample(Split(key, FieldSep)[..4], c.jobs)
  }

  /**
   * `samples` is what a scrape of `queue` must yield: one sample per entry,
   * whose labels join back to the entry's key and whose value is its job count.
   */
  ghost predicate Emits(samples: seq<Sample>, queue: QueueInfo)
  {
    && |samples| == |queue|
    && (forall key :: key in queue ==> HasLabels(key) && SampleOf(key, queue[key]) in samples)
    && (forall j :: 0 <= j < |samples| ==>
          && |samples[j].labels| == |JobsDesc.labelNames|
          && Join(samples[j].labels, FieldSep) in queue
          && samples[j].value == queue[Join(samples[j].labels, FieldSep)].jobs)
  }

  /**
   * Walk the snapshot's entries, in no particular order, emitting one sample
   * for each. `order` records the order in which the keys were visited.
   */
  method EmitSamples(queue: QueueInfo) returns (samples: seq<Sample>, ghost order: seq<string>)
    requires forall key :: key in queue ==> HasLabels(key)
    ensures |samples| == |queue|
    ensures forall key :: key in queue ==> SampleOf(key, queue[key]) in samples
    ensures forall j :: 0 <= j < |samples| ==> |samples[j].labels| == |JobsDesc.labelNames|
    ensures |order| == |samples|
    ensures multiset(order) == multiset(queue.Keys)
    ensures forall j :: 0 <= j < |samples| ==>
      order[j] in queue && samples[j] == SampleOf(order[j], queue[order[j]])
  {
    samples, order := [], [];
    if |queue| > 0 {
      var pending := queue.Keys;
      while pending != {}
        invariant pending <= queue.Keys
        invariant |order| == |samples|
        invariant multiset(order) == multiset(queue.Keys - pending)
        invariant forall j :: 0 <= j < |samples| ==>
          order[j] in queue && samples[j] == SampleOf(order[j], queue[order[j]])
        decreases pending
      {
        var index :| index in pending;
        var splitted := Split(index, FieldSep);
        var partition, user, name, state := splitted[0], splitted[1], splitted[2], splitted[3];
        assert Sample([partition, user, name, state], queue[index].jobs) == SampleOf(index, queue[index]) by {
          assert [partition, user, name, state] == splitted[..4];
        }
        VisitOne(queue.Keys, pending, order, index);
        samples := samples + [Sample([partition, user, name, state], queue[index].jobs)];
        order := order + [index];
        pending := pending - {index};
      }
      assert queue.Keys - pending == queue.Keys;
    }
    EveryKeySampled(queue, samples, order);
  }

  /** Visiting one more pending key extends the keys visited so far by exactly that key. */
  lemma VisitOne(keys: set<string>, pending: set<string>, order: seq<string>, index: string)
    requires pending <= keys && index in pending
    requires multiset(order) == multiset(keys - pending)
    ensures multiset(order + [index]) == multiset(keys - (pending - {index}))
  {
    var done := keys - pending;
    assert keys - (pending - {index}) == done + {index};
    assert index !in done;
  }

  /** Samples built one per visited key, visiting every key exactly once, cover the whole snapshot. */
  lemma EveryKeySampled(queue: QueueInfo, samples: seq<Sample>, order: seq<string>)
    requires forall key :: key in queue ==> HasLabels(key)
    requires |order| == |samples|
    requires multiset(order) == multiset(queue.Keys)
    requires forall j :: 0 <= j < |samples| ==>
      order[j] in queue && samples[j] == SampleOf(order[j], queue[order[j]])
    ensures |samples| == |queue|
    ensures forall key :: key in queue ==> SampleOf(key, queue[key]) in samples
  {
    assert |samples| == |multiset(order)| == |queue.Keys| == |queue|;
    forall key | key in queue ensures SampleOf(key, queue[key]) in samples {
      assert key in multiset(order);
      var j :| 0 <= j < |order| && order[j] == key;
      assert samples[j] == SampleOf(key, queue[key]);
    }
  }

  /** A scrape: parse the scheduler's report and emit the samples, or report why parsing failed. */
  method Collect(report: string, num: NumParser) returns (r: Result<seq<Sample>, ParseError>)
    ensures Parse(report, num).Failure? ==> r == Failure(Parse(report, num).error)
    ensures Parse(report, num).Success? ==> r.Success? && Emits(r.value, Parse(report, num).value.slurmQueue)
  {
    var qm := ParseQueueMetrics(report, num);
    if qm.Failure? {
      return Failure(qm.error);
    }
    var queue := qm.value.slurmQueue;
    ParsedKeysSplitBack(Lines(report), num);
    var samples, order := EmitSamples(queue);
    EmitsAll(queue, samples, order);
    return Success(samples);
  }

  /**
   * When every key splits into exactly four parts, samples built one per key
   * join back to the keys they were built from.
   */
  lemma EmitsAll(queue: QueueInfo, samples: seq<Sample>, order: seq<string>)
    requires forall key :: key in queue ==> |Split(key, FieldSep)| == 4
    requires |samples| == |queue|
    requires forall key :: key in queue ==> SampleOf(key, queue[key]) in samples
    requires |order| == |samples|
    requires forall j :: 0 <= j < |samples| ==>
      order[j] in queue && samples[j] == SampleOf(order[j], queue[order[j]])
    ensures Emits(samples, queue)
  {
  }

  /** The sample for a key built from four labels carries exactly those labels, in order. */
  lemma LabelsRoundTrip(partition: string, user: string, name: string, state: string, c: Counts)
    requires FreeOf([partition, user, name, state], FieldSep)
    ensures HasLabels(Join([partition, user, name, state], FieldSep))
    ensures SampleOf(Join([partition, user, name, state], FieldSep), c) == Sample([partition, user, name, state], c.jobs)
  {
    SplitJoin([partition, user, name, state], FieldSep);
  }
}
