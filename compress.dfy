/** austin/format/compress.py: the samples of a collapsed-stack file are
    added up per sample key (every field but the metrics), and the result
    is written back as collapsed stacks, metadata first. The per-key sums
    form a dictionary, which is a sequence of entries in first-insertion
    order here. */
module Compress {
  import opened Wrappers
  import opened Events
  import CollapsedStack

  /** One `stats` entry: a sample key and the sum of its values. */
  datatype Entry = Entry(key: Key, value: int)

  /** Why `compress` raises: the source failed to parse, it carried no
      "mode" metadata, or a sample could not be formatted, by which time
      the lines `written` were already in the destination. */
  datatype CompressError =
    | ReadFailed(parse: CollapsedStack.ParseError)
    | NoModeMetadata
    | FormatFailed(format: CollapsedStack.FormatError, written: seq<string>)

  /** What one sample adds: 1 when counting, otherwise its time, or its
      memory when its time is missing or zero, or 0 when both are. */
  function Contribution(counts: bool, m: Metrics): (v: int)
    ensures counts ==> v == 1
    ensures !counts && m.time.Some? && m.time.value != 0 ==> v == m.time.value
    ensures !counts && (m.time.None? || m.time.value == 0) ==>
      v == (if m.memory.Some? && m.memory.value != 0 then m.memory.value else 0)
  {
    if counts then 1
    else if m.time.Some? && m.time.value != 0 then m.time.value
    else if m.memory.Some? && m.memory.value != 0 then m.memory.value
    else 0
  }

  function Keys(st: seq<Entry>): (r: seq<Key>)
    ensures |r| == |st| && forall i :: 0 <= i < |st| ==> r[i] == st[i].key
  {
    seq(|st|, i requires 0 <= i < |st| => st[i].key)
  }

  predicate DistinctKeys(ks: seq<Key>) {
    forall i, j :: 0 <= i < j < |ks| ==> ks[i] != ks[j]
  }

  /** Position of the entry for `k`. */
  function KeyIndex(st: seq<Entry>, k: Key): (r: Option<nat>)
    ensures r.Some? ==> r.value < |st| && st[r.value].key == k
    ensures r.None? <==> k !in Keys(st)
  {
    if st == [] then None
    else if st[0].key == k then Some(0)
    else
      match KeyIndex(st[1..], k)
      case None => assert Keys(st) == [st[0].key] + Keys(st[1..]); None
      case Some(i) => Some(i + 1)
  }

  /** `stats.get(k, 0)`. */
  function ValueOf(st: seq<Entry>, k: Key): int {
    match KeyIndex(st, k)
    case None => 0
    case Some(i) => st[i].value
  }

  /** `stats[k] = stats.get(k, 0) + v`: an existing entry keeps its place,
      a new one goes at the end. */
  function AddTo(st: seq<Entry>, k: Key, v: int): (r: seq<Entry>)
    ensures Keys(r) == if k in Keys(st) then Keys(st) else Keys(st) + [k]
  {
    match KeyIndex(st, k)
    case Some(i) => st[i := Entry(k, st[i].value + v)]
    case None => st + [Entry(k, v)]
  }

  /** The keys of the sample events, in stream order. */
  function SampleKeys(events: seq<Event>): seq<Key> {
    if events == [] then []
    else
      var ks := SampleKeys(events[..|events| - 1]);
      match events[|events| - 1]
      case SampleEvent(s) => ks + [SampleKey(s)]
      case MetadataEvent(_, _) => ks
  }

  /** The entries after the loop of `compress` over `events`. */
  function Aggregated(counts: bool, events: seq<Event>): seq<Entry> {
    if events == [] then []
    else
      var st := Aggregated(counts, events[..|events| - 1]);
      match events[|events| - 1]
      case SampleEvent(s) => AddTo(st, SampleKey(s), Contribution(counts, s.metrics))
      case MetadataEvent(_, _) => st
  }

  /** The sum of the contributions of the samples with key `k`; with
      `k` absent, of all samples. */
  function SumFor(counts: bool, events: seq<Event>, k: Option<Key>): int {
    if events == [] then 0
    else
      var before := SumFor(counts, events[..|events| - 1], k);
      match events[|events| - 1]
      case SampleEvent(s) =>
        before + (if k.None? || k.value == SampleKey(s) then Contribution(counts, s.metrics) else 0)
      case MetadataEvent(_, _) => before
  }

  /** The number of samples with key `k`. */
  function CountOf(events: seq<Event>, k: Key): nat {
    if events == [] then 0
    else
      CountOf(events[..|events| - 1], k)
      + (if events[|events| - 1].SampleEvent? && SampleKey(events[|events| - 1].sample) == k then 1 else 0)
  }

  function Total(st: seq<Entry>): int {
    if st == [] then 0 else st[0].value + Total(st[1..])
  }

  /** The first position of `k` in `ks`. */
  function FirstIndex(ks: seq<Key>, k: Key): nat
    requires k in ks
    ensures FirstIndex(ks, k) < |ks| && ks[FirstIndex(ks, k)] == k
    ensures forall j :: 0 <= j < FirstIndex(ks, k) ==> ks[j] != k
  {
    if ks[0] == k then 0 else 1 + FirstIndex(ks[1..], k)
  }

  lemma {:induction false} FirstIndexSnoc(ks: seq<Key>, x: Key, k: Key)
    requires k in ks
    ensures FirstIndex(ks + [x], k) == FirstIndex(ks, k)
  {
    if ks[0] != k {
      assert (ks + [x])[1..] == ks[1..] + [x];
      FirstIndexSnoc(ks[1..], x, k);
    }
  }

  lemma {:induction false} TotalUpdate(st: seq<Entry>, i: nat, e: Entry)
    requires i < |st|
    ensures Total(st[i := e]) == Total(st) - st[i].value + e.value
  {
    if i > 0 {
      assert st[i := e][1..] == st[1..][i - 1 := e];
      TotalUpdate(st[1..], i - 1, e);
    }
  }

  lemma {:induction false} TotalAppend(st: seq<Entry>, e: Entry)
    ensures Total(st + [e]) == Total(st) + e.value
  {
    if st != [] {
      assert (st + [e])[1..] == st[1..] + [e];
      TotalAppend(st[1..], e);
    }
  }

  /** Adding to an existing entry: the keys stay, the entry's value grows. */
  lemma AddToExisting(st: seq<Entry>, k: Key, v: int, i: nat, k': Key)
    requires DistinctKeys(Keys(st)) && KeyIndex(st, k) == Some(i)
    ensures DistinctKeys(Keys(AddTo(st, k, v)))
    ensures ValueOf(AddTo(st, k, v), k') == ValueOf(st, k') + (if k' == k then v else 0)
    ensures Total(AddTo(st, k, v)) == Total(st) + v
  {
    var r := st[i := Entry(k, st[i].value + v)];
    assert AddTo(st, k, v) == r;
    TotalUpdate(st, i, Entry(k, st[i].value + v));
    assert Keys(r) == Keys(st);
    KeyIndexDistinct(r, k, i);
    if k' != k {
      match KeyIndex(st, k')
      case None =>
        assert KeyIndex(r, k') == None;
      case Some(j) =>
        assert r[j].key == k';
        KeyIndexDistinct(r, k', j);
    }
  }

  /** Adding a new key: it goes at the end. */
  lemma AddToNew(st: seq<Entry>, k: Key, v: int, k': Key)
    requires DistinctKeys(Keys(st)) && KeyIndex(st, k) == None
    ensures DistinctKeys(Keys(AddTo(st, k, v)))
    ensures ValueOf(AddTo(st, k, v), k') == ValueOf(st, k') + (if k' == k then v else 0)
    ensures Total(AddTo(st, k, v)) == Total(st) + v
  {
    var r := st + [Entry(k, v)];
    assert AddTo(st, k, v) == r;
    TotalAppend(st, Entry(k, v));
    assert Keys(r) == Keys(st) + [k];
    assert k !in Keys(st);
    assert DistinctKeys(Keys(r));
    KeyIndexDistinct(r, k, |st|);
    if k' != k {
      match KeyIndex(st, k')
      case None =>
        assert k' !in Keys(r);
      case Some(j) =>
        assert r[j].key == k';
        KeyIndexDistinct(r, k', j);
    }
  }

  /** With distinct keys, the entry at `i` is the one found for its key. */
  lemma KeyIndexDistinct(st: seq<Entry>, k: Key, i: nat)
    requires DistinctKeys(Keys(st)) && i < |st| && st[i].key == k
    ensures KeyIndex(st, k) == Some(i)
  {
    var ks := Keys(st);
    match KeyIndex(st, k)
    case None =>
    case Some(j) =>
      assert ks[i] == k && ks[j] == k;
  }

  lemma AddToValue(st: seq<Entry>, k: Key, v: int, k': Key)
    requires DistinctKeys(Keys(st))
    ensures DistinctKeys(Keys(AddTo(st, k, v)))
    ensures ValueOf(AddTo(st, k, v), k') == ValueOf(st, k') + (if k' == k then v else 0)
    ensures Total(AddTo(st, k, v)) == Total(st) + v
  {
    match KeyIndex(st, k)
    case Some(i) => AddToExisting(st, k, v, i, k');
    case None => AddToNew(st, k, v, k');
  }

  /** The entries after the loop: one per distinct sample key, each holding
      the sum of that key's contributions, together adding up to the sum
      of all contributions. */
  lemma {:induction false} AggregatedSums(counts: bool, events: seq<Event>, k: Key)
    ensures DistinctKeys(Keys(Aggregated(counts, events)))
    ensures ValueOf(Aggregated(counts, events), k) == SumFor(counts, events, Some(k))
    ensures Total(Aggregated(counts, events)) == SumFor(counts, events, None)
    ensures counts ==> SumFor(counts, events, Some(k)) == CountOf(events, k)
  {
    if events != [] {
      var pre := events[..|events| - 1];
      AggregatedSums(counts, pre, k);
      if events[|events| - 1].SampleEvent? {
        var s := events[|events| - 1].sample;
        AddToValue(Aggregated(counts, pre), SampleKey(s), Contribution(counts, s.metrics), k);
      }
    }
  }

  /** `ks` holds the keys of `sk`, ordered by where each first occurs. */
  ghost predicate FirstOccurrenceOrder(ks: seq<Key>, sk: seq<Key>) {
    (forall k :: k in ks <==> k in sk)
    && forall i, j :: 0 <= i < j < |ks| ==> FirstIndex(sk, ks[i]) < FirstIndex(sk, ks[j])
  }

  /** One more sample key keeps the first-occurrence order. */
  lemma OrderSnoc(ks0: seq<Key>, sk0: seq<Key>, x: Key)
    requires FirstOccurrenceOrder(ks0, sk0)
    ensures FirstOccurrenceOrder(if x in ks0 then ks0 else ks0 + [x], sk0 + [x])
  {
    var sk := sk0 + [x];
    forall k | k in sk0 ensures FirstIndex(sk, k) == FirstIndex(sk0, k) {
      FirstIndexSnoc(sk0, x, k);
    }
    if x !in ks0 {
      var ks := ks0 + [x];
      assert x !in sk0;
      FirstIndexLast(sk0, x);
      forall i, j | 0 <= i < j < |ks| ensures FirstIndex(sk, ks[i]) < FirstIndex(sk, ks[j]) {
        assert ks[i] == ks0[i];
        if j < |ks0| {
          assert ks[j] == ks0[j];
        } else {
          assert ks[j] == x;
        }
      }
    } else {
      assert x in sk0;
    }
  }

  /** The entry keys are the sample keys, each once, ordered by where the
      key first occurs among the samples. */
  lemma {:induction false} AggregatedOrder(counts: bool, events: seq<Event>)
    ensures FirstOccurrenceOrder(Keys(Aggregated(counts, events)), SampleKeys(events))
  {
    if events != [] {
      var pre := events[..|events| - 1];
      AggregatedOrder(counts, pre);
      if events[|events| - 1].SampleEvent? {
        var x := SampleKey(events[|events| - 1].sample);
        OrderSnoc(Keys(Aggregated(counts, pre)), SampleKeys(pre), x);
      }
    }
  }

  lemma {:induction false} FirstIndexLast(ks: seq<Key>, x: Key)
    requires x !in ks
    ensures FirstIndex(ks + [x], x) == |ks|
  {
    if ks != [] {
      assert (ks + [x])[1..] == ks[1..] + [x];
      FirstIndexLast(ks[1..], x);
    }
  }

  /** The metadata events, as the lines written for them, in order. */
  function MetadataLines(events: seq<Event>): (r: seq<string>) {
    if events == [] then []
    else
      var ls := MetadataLines(events[..|events| - 1]);
      match events[|events| - 1]
      case MetadataEvent(n, v) => ls + [CollapsedStack.MetadataLine(n, v)]
      case SampleEvent(_) => ls
  }

  /** The metrics written for a sum: in the memory field in "memory" mode,
      in the time field otherwise. */
  function MetricsFor(mode: string, v: int): Metrics {
    if mode == "memory" then Metrics(None, Some(v)) else Metrics(Some(v), None)
  }

  /** The line written for one entry. */
  function EntryLine(mode: string, e: Entry): Result<string, CollapsedStack.FormatError> {
    CollapsedStack.FormatSample(Some(mode), FromKeyAndMetrics(e.key, MetricsFor(mode, e.value)))
  }

  /** The values of `rs` in order, or the first failure among them. */
  function Collect<E>(rs: seq<Result<string, E>>): (r: Result<seq<string>, E>)
    ensures r.Success? ==> |r.value| == |rs|
  {
    if rs == [] then Success([])
    else
      match rs[0]
      case Failure(e) => Failure(e)
      case Success(l) =>
        match Collect(rs[1..])
        case Failure(e) => Failure(e)
        case Success(ls) => Success([l] + ls)
  }

  /** The line of every entry, formatted or not. */
  function Formatted(mode: string, st: seq<Entry>): (rs: seq<Result<string, CollapsedStack.FormatError>>)
    ensures |rs| == |st| && forall i :: 0 <= i < |st| ==> rs[i] == EntryLine(mode, st[i])
  {
    seq(|st|, i requires 0 <= i < |st| => EntryLine(mode, st[i]))
  }

  /** The lines written for the entries, in order; the first entry that
      cannot be formatted raises. */
  function EntryLines(mode: string, st: seq<Entry>): (r: Result<seq<string>, CollapsedStack.FormatError>)
    ensures r.Success? ==> |r.value| == |st|
  {
    Collect(Formatted(mode, st))
  }

  /** The values of the results before the first failure among them. */
  function Leading<E>(rs: seq<Result<string, E>>): (ls: seq<string>)
    ensures Prefix(rs, ls) && (|ls| < |rs| ==> rs[|ls|].Failure?)
  {
    if rs == [] || rs[0].Failure? then []
    else
      var ls := Leading(rs[1..]);
      assert forall l :: 0 <= l < |ls| ==> rs[1..][l] == rs[l + 1];
      [rs[0].value] + ls
  }

  /** What `compress` writes for the events of a source whose metadata
      dictionary ends up as `md`: with no "mode" it writes nothing; the
      metadata lines always come first, and a sample that cannot be
      formatted stops the output after the lines of the entries before
      it. */
  function Compressed(events: seq<Event>, md: map<string, string>, counts: bool): (r: Result<seq<string>, CompressError>)
    ensures r == Failure(NoModeMetadata) <==> "mode" !in md
    ensures r.Failure? ==> !r.error.ReadFailed?
    ensures r.Success? ==>
      |MetadataLines(events)| <= |r.value| && r.value[..|MetadataLines(events)|] == MetadataLines(events)
    ensures r.Failure? && r.error.FormatFailed? ==>
      |MetadataLines(events)| <= |r.error.written|
      && r.error.written[..|MetadataLines(events)|] == MetadataLines(events)
  {
    if "mode" !in md then Failure(NoModeMetadata)
    else
      var st := Aggregated(counts, events);
      match EntryLines(md["mode"], st)
      case Failure(e) => Failure(FormatFailed(e, MetadataLines(events) + Leading(Formatted(md["mode"], st))))
      case Success(ls) => Success(MetadataLines(events) + ls)
  }

  lemma {:induction false} CollectAt<E>(rs: seq<Result<string, E>>, j: nat)
    requires Collect(rs).Success? && j < |rs|
    ensures rs[j] == Success(Collect(rs).value[j])
  {
    if j > 0 {
      CollectAt(rs[1..], j - 1);
    }
  }

  /** The first `|ls|` results are the lines `ls`. */
  ghost predicate Prefix<E>(rs: seq<Result<string, E>>, ls: seq<string>) {
    |ls| <= |rs| && forall l :: 0 <= l < |ls| ==> rs[l] == Success(ls[l])
  }

  lemma PrefixSnoc<E>(rs: seq<Result<string, E>>, ls: seq<string>, line: string)
    requires Prefix(rs, ls) && |ls| < |rs| && rs[|ls|] == Success(line)
    ensures Prefix(rs, ls + [line])
  {
    var ls' := ls + [line];
    forall l | 0 <= l < |ls'| ensures rs[l] == Success(ls'[l]) {
      if l < |ls| {
        assert ls'[l] == ls[l];
      }
    }
  }

  /** All results succeed: they collect to their values. */
  lemma {:induction false} CollectSuccess<E>(rs: seq<Result<string, E>>, ls: seq<string>)
    requires |ls| == |rs| && Prefix(rs, ls)
    ensures Collect(rs) == Success(ls)
  {
    if rs != [] {
      assert Prefix(rs[1..], ls[1..]) by {
        forall l | 0 <= l < |ls| - 1 ensures rs[1..][l] == Success(ls[1..][l]) {
          assert rs[1..][l] == rs[l + 1];
        }
      }
      CollectSuccess(rs[1..], ls[1..]);
      assert ls == [ls[0]] + ls[1..];
    }
  }

  /** The first failing result decides the error. */
  lemma {:induction false} CollectFailure<E>(rs: seq<Result<string, E>>, ls: seq<string>)
    requires |ls| < |rs| && rs[|ls|].Failure? && Prefix(rs, ls)
    ensures Collect(rs) == Failure(rs[|ls|].error)
  {
    if |ls| > 0 {
      assert Prefix(rs[1..], ls[1..]) by {
        forall l | 0 <= l < |ls| - 1 ensures rs[1..][l] == Success(ls[1..][l]) {
          assert rs[1..][l] == rs[l + 1];
        }
      }
      CollectFailure(rs[1..], ls[1..]);
    }
  }

  /** The leading values of results that all succeed up to the first
      failure, or to the end, are exactly those values. */
  lemma {:induction false} LeadingOf<E>(rs: seq<Result<string, E>>, ls: seq<string>)
    requires Prefix(rs, ls) && (|ls| == |rs| || rs[|ls|].Failure?)
    ensures Leading(rs) == ls
  {
    if ls != [] {
      assert Prefix(rs[1..], ls[1..]) by {
        forall l | 0 <= l < |ls| - 1 ensures rs[1..][l] == Success(ls[1..][l]) {
          assert rs[1..][l] == rs[l + 1];
        }
      }
      LeadingOf(rs[1..], ls[1..]);
      assert ls == [ls[0]] + ls[1..];
    }
  }

  /** The output `written` is the metadata lines `meta` followed by the
      lines of the entries of `st` before entry k, the first that does not
      format, with the error `e`. */
  ghost predicate StopsAt(mode: string, st: seq<Entry>, meta: seq<string>, written: seq<string>, e: CollapsedStack.FormatError) {
    |meta| <= |written| && written[..|meta|] == meta
    && var k := |written| - |meta|;
      k < |st| && EntryLine(mode, st[k]) == Failure(e)
      && forall l :: 0 <= l < k ==> EntryLine(mode, st[l]) == Success(written[|meta| + l])
  }

  /** On a formatting failure the destination holds the metadata lines,
      then the line of every entry before the first one that does not
      format, whose error is the one raised. */
  lemma CompressedFailure(events: seq<Event>, md: map<string, string>, counts: bool)
    requires Compressed(events, md, counts).Failure? && Compressed(events, md, counts).error.FormatFailed?
    ensures "mode" in md
    ensures StopsAt(md["mode"], Aggregated(counts, events), MetadataLines(events),
      Compressed(events, md, counts).error.written, Compressed(events, md, counts).error.format)
  {
    EntryLinesStop(md["mode"], Aggregated(counts, events), MetadataLines(events));
  }

  /** Formatting that fails stops after the leading lines. */
  lemma EntryLinesStop(mode: string, st: seq<Entry>, meta: seq<string>)
    requires EntryLines(mode, st).Failure?
    ensures StopsAt(mode, st, meta, meta + Leading(Formatted(mode, st)), EntryLines(mode, st).error)
  {
    var rs := Formatted(mode, st);
    var ls := Leading(rs);
    LeadingFailure(rs);
    var written := meta + ls;
    assert written[..|meta|] == meta;
    forall l | 0 <= l < |ls| ensures EntryLine(mode, st[l]) == Success(written[|meta| + l]) {
      assert written[|meta| + l] == ls[l];
    }
  }

  /** Collecting stops at the result after the leading successes. */
  lemma LeadingFailure<E>(rs: seq<Result<string, E>>)
    requires Collect(rs).Failure?
    ensures |Leading(rs)| < |rs| && rs[|Leading(rs)|] == Failure(Collect(rs).error)
  {
    var ls := Leading(rs);
    if |ls| == |rs| {
      CollectSuccess(rs, ls);
    }
    CollectFailure(rs, ls);
  }

  /** A formatted entry is the collapsed-stack line of a sample with the
      entry's key whose displayed metric is the entry's sum. */
  lemma EntryLineShows(mode: string, e: Entry)
    requires EntryLine(mode, e).Success?
    ensures SampleKey(FromKeyAndMetrics(e.key, MetricsFor(mode, e.value))) == e.key
    ensures CollapsedStack.Shown(mode, MetricsFor(mode, e.value)) == Some(e.value)
    ensures EntryLine(mode, e).value ==
      CollapsedStack.SampleLine(mode, FromKeyAndMetrics(e.key, MetricsFor(mode, e.value)))
  {
    FromKeyAndMetricsKey(e.key, MetricsFor(mode, e.value));
  }

  /** The output holds every metadata line first, in input order, then
      exactly one line per entry, in entry order, each showing the entry's
      sum as the metric its mode displays. */
  lemma CompressedLines(events: seq<Event>, md: map<string, string>, counts: bool, j: nat)
    requires Compressed(events, md, counts).Success?
    ensures "mode" in md
    ensures var out := Compressed(events, md, counts).value;
      var meta := MetadataLines(events);
      var st := Aggregated(counts, events);
      |out| == |meta| + |st| && out[..|meta|] == meta
      && (j < |st| ==>
            Success(out[|meta| + j]) == EntryLine(md["mode"], st[j])
            && SampleKey(FromKeyAndMetrics(st[j].key, MetricsFor(md["mode"], st[j].value))) == st[j].key
            && CollapsedStack.Shown(md["mode"], MetricsFor(md["mode"], st[j].value)) == Some(st[j].value)
            && out[|meta| + j] == CollapsedStack.SampleLine(md["mode"],
                 FromKeyAndMetrics(st[j].key, MetricsFor(md["mode"], st[j].value))))
  {
    var st := Aggregated(counts, events);
    var mode := md["mode"];
    var ls := EntryLines(mode, st).value;
    assert Compressed(events, md, counts).value == MetadataLines(events) + ls;
    if j < |st| {
      CollectAt(Formatted(mode, st), j);
      assert EntryLine(mode, st[j]) == Success(ls[j]);
      EntryLineShows(mode, st[j]);
    }
  }

  /** The loop of `compress` over the events: the sums per key, and the
      metadata lines to write first. */
  method AddUp(events: seq<Event>, counts: bool) returns (stats: seq<Entry>, meta: seq<string>)
    ensures stats == Aggregated(counts, events) && meta == MetadataLines(events)
  {
    stats, meta := [], [];
    for i := 0 to |events|
      invariant stats == Aggregated(counts, events[..i])
      invariant meta == MetadataLines(events[..i])
    {
      assert events[..i + 1][..i] == events[..i];
      match events[i]
      case MetadataEvent(n, v) =>
        meta := meta + [CollapsedStack.MetadataLine(n, v)];
      case SampleEvent(s) =>
        var value := Contribution(counts, s.metrics);
        stats := AddTo(stats, SampleKey(s), value);
    }
    assert events[..|events|] == events;
  }

  /** The output loop of `compress`: one line per entry, stopping at the
      first entry that does not format; `written` is what reached the
      destination either way. */
  method WriteEntries(mode: string, stats: seq<Entry>)
    returns (written: seq<string>, r: Result<seq<string>, CollapsedStack.FormatError>)
    ensures r == EntryLines(mode, stats) && written == Leading(Formatted(mode, stats))
  {
    written := [];
    ghost var rs := Formatted(mode, stats);
    for j := 0 to |stats|
      invariant |written| == j && Prefix(rs, written)
    {
      var line := EntryLine(mode, stats[j]);
      if line.Failure? {
        CollectFailure(rs, written);
        LeadingOf(rs, written);
        return written, Failure(line.error);
      }
      PrefixSnoc(rs, written, line.value);
      written := written + [line.value];
    }
    CollectSuccess(rs, written);
    LeadingOf(rs, written);
    return written, Success(written);
  }

  /** `compress`: read the source, add up the samples per key, then write
      the metadata and one line per key. */
  method Compress(source: CollapsedStack.FileReader, lines: seq<string>, counts: bool)
    returns (r: Result<seq<string>, CompressError>)
    modifies source
    ensures var read := CollapsedStack.ReadLines(lines);
      source.metadata == CollapsedStack.WithMetadata(old(source.metadata), read.events)
      && (read.error.Some? ==> r == Failure(ReadFailed(read.error.value)))
      && (read.error.None? ==> r == Compressed(read.events, source.metadata, counts))
  {
    var events, error := source.Iterate(lines);
    if error.Some? {
      return Failure(ReadFailed(error.value));
    }
    var stats, meta := AddUp(events, counts);
    if "mode" !in source.metadata {
      return Failure(NoModeMetadata);
    }
    var written, lines := WriteEntries(source.metadata["mode"], stats);
    if lines.Failure? {
      return Failure(FormatFailed(lines.error, meta + written));
    }
    return Success(meta + lines.value);
  }
}
