/** The Austin event value types: frames, metrics, samples and metadata,
    and the metric-free key under which samples are aggregated. All of them
    are frozen dataclasses in the original, so they are plain datatypes. */
module Events {
  import opened Wrappers

  /** A Python frame; the position fields are absent in older formats. */
  datatype Frame = Frame(
    filename: string,
    func: string,
    line: int,
    lineEnd: Option<int>,
    column: Option<int>,
    columnEnd: Option<int>)

  /** `AustinFrame(filename, function, line)`: the constructor call that
      leaves every optional position field at its default. */
  function MakeFrame(filename: string, func: string, line: int): (f: Frame)
    ensures f.lineEnd.None? && f.column.None? && f.columnEnd.None?
    ensures f.filename == filename && f.func == func && f.line == line
  {
    Frame(filename, func, line, None, None, None)
  }

  /** Elapsed time in microseconds and signed memory delta in bytes. */
  datatype Metrics = Metrics(time: Option<int>, memory: Option<int>)

  /** `AustinMetrics()`: both fields default to None. */
  const NoMetrics: Metrics := Metrics(None, None)

  datatype Sample = Sample(
    pid: int,
    iid: Option<int>,
    thread: string,
    metrics: Metrics,
    frames: Option<seq<Frame>>,
    gc: Option<bool>,
    idle: Option<bool>)

  /** The sample record the speedscope and pprof generators read: a
      process, a thread, one metric value (their `sample.metric.value`)
      and the frames, outermost first. They import it as `Sample` from
      `austin.stats`, which does not define it, so this record is the
      interface they were written against, not one of the code's. */
  datatype SourceSample = SourceSample(pid: int, thread: string, value: int, frames: seq<Frame>)

  /** `AustinSample.Key`: every field of a sample except its metrics. */
  datatype Key = Key(
    pid: int,
    iid: Option<int>,
    thread: string,
    frames: Option<seq<Frame>>,
    gc: Option<bool>,
    idle: Option<bool>)

  datatype Event = MetadataEvent(name: string, value: string) | SampleEvent(sample: Sample)

  /** `AustinSample.from_key_and_metrics`. */
  function FromKeyAndMetrics(k: Key, m: Metrics): Sample {
    Sample(k.pid, k.iid, k.thread, m, k.frames, k.gc, k.idle)
  }

  /** `AustinSample.key()`: the key keeps everything but the metrics, so the
      sample is rebuilt from its key and its metrics. */
  function SampleKey(s: Sample): (k: Key)
    ensures FromKeyAndMetrics(k, s.metrics) == s
  {
    Key(s.pid, s.iid, s.thread, s.frames, s.gc, s.idle)
  }

  /** Building a sample from a key and then taking its key gives the key
      back, and the metrics are the ones supplied. */
  lemma FromKeyAndMetricsKey(k: Key, m: Metrics)
    ensures SampleKey(FromKeyAndMetrics(k, m)) == k
    ensures FromKeyAndMetrics(k, m).metrics == m
  {
  }

  /** Two samples have the same key exactly when they agree on everything
      but their metrics. */
  lemma KeyIgnoresMetrics(s1: Sample, s2: Sample)
    ensures SampleKey(s1) == SampleKey(s2) <==> s1.(metrics := s2.metrics) == s2
  {
  }
}
