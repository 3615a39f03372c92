/** The MOJO event vocabulary and the meaning of each event for the reader's
    tables (austin/format/mojo.py). The imperative reader in
    mojo_stream.dfy is proved against the functions here: each handler is a
    function from the reader's tables to the new tables and the handler's
    result, and the field layout of each tag is a list of field kinds. */
module Mojo {
  import opened Wrappers
  import opened MojoVarint
  import Events

  // The MojoEvents tag bytes.
  const RESERVED: Byte := 0
  const METADATA: Byte := 1
  const STACK: Byte := 2
  const FRAME: Byte := 3
  const FRAME_INVALID: Byte := 4
  const FRAME_REF: Byte := 5
  const FRAME_KERNEL: Byte := 6
  const GC: Byte := 7
  const IDLE: Byte := 8
  const METRIC_TIME: Byte := 9
  const METRIC_MEMORY: Byte := 10
  const STRING: Byte := 11
  const STRING_REF: Byte := 12

  /** The size of the fixed buffer of `str_reader`. */
  const STR_BUFFER_SIZE: nat := 1024

  /** The bytes of a string read from the stream, one character per byte. */
  function Decode(bs: seq<Byte>): (s: string)
    ensures |s| == |bs| && forall i :: 0 <= i < |bs| ==> s[i] as int == bs[i]
  {
    seq(|bs|, i requires 0 <= i < |bs| => bs[i] as char)
  }

  datatype MojoString = MojoString(key: int, value: string)

  const EMPTY: MojoString := MojoString(0, "")
  const UNKNOWN: MojoString := MojoString(1, "<unknown>")

  datatype MojoFrame = MojoFrame(
    key: int,
    filename: MojoString,
    scope: MojoString,
    line: int,
    lineEnd: Option<int>,
    column: Option<int>,
    columnEnd: Option<int>)

  datatype MetricType = Time | Memory

  /** The events `parse_event` returns, one per handler result class. */
  datatype MojoEvent =
    | MojoMetadata(key: string, value: string)
    | MojoStack(pid: int, iid: int, tid: string)
    | FrameEvent(frame: MojoFrame)
    | MojoFrameReference(frame: MojoFrame)
    | MojoKernelFrame(scope: string)
    | MojoSpecialFrame(frameLabel: string)
    | MojoIdle
    | MojoMetric(metricType: MetricType, amount: int)
    | StringEvent(str: MojoString)
    | MojoStringReference(str: MojoString)

  /** What goes wrong while handling an event: a lookup in a table
      (KeyError), a failed `assert`, a read past the end of the stream, a
      write past the string buffer, or a send to the string reader after
      such a write has ended it. */
  datatype Fault = KeyErr | AssertErr | ShortRead | IndexErr | Exhausted

  /** `_RunningSample`: the sample being accumulated since the last STACK. */
  datatype RunningSample = RunningSample(
    pid: int,
    thread: string,
    iid: Option<int>,
    frames: seq<MojoFrame>,
    time: Option<int>,
    memory: Option<int>,
    gc: Option<bool>,
    idle: Option<bool>)

  /** The tables of the reader that the handlers update. */
  datatype Tables = Tables(
    frameMap: map<(int, int), MojoFrame>,
    stringMap: map<(int, int), MojoString>,
    running: Option<RunningSample>,
    metadata: map<string, string>,
    samples: seq<Events.Sample>)

  const InitialTables: Tables := Tables(map[], map[], None, map[], [])

  // ------------------------------------------------------------ finalising

  function ToAustinFrame(mf: MojoFrame): Events.Frame {
    Events.Frame(mf.filename.value, mf.scope.value, mf.line, mf.lineEnd, mf.column, mf.columnEnd)
  }

  /** The AustinSample built by `_finalize_sample`. */
  function FinalSample(rs: RunningSample): (s: Events.Sample)
    ensures s.frames.None? <==> rs.frames == []
    ensures s.frames.Some? ==>
      |s.frames.value| == |rs.frames| &&
      forall i :: 0 <= i < |rs.frames| ==> s.frames.value[i] == ToAustinFrame(rs.frames[i])
    ensures s.metrics == Events.Metrics(rs.time, rs.memory)
    ensures Events.SampleKey(s) ==
      Events.Key(rs.pid, rs.iid, rs.thread, s.frames, rs.gc, rs.idle)
  {
    Events.Sample(
      rs.pid, rs.iid, rs.thread,
      Events.Metrics(rs.time, rs.memory),
      if rs.frames == [] then None else Some(seq(|rs.frames|, i requires 0 <= i < |rs.frames| => ToAustinFrame(rs.frames[i]))),
      rs.gc, rs.idle)
  }

  /** `_finalize_sample`: the running sample is appended to `samples`. */
  function Finalize(t: Tables): (u: Tables)
    requires t.running.Some?
    ensures u.samples == t.samples + [FinalSample(t.running.value)]
    ensures u.running.None?
    ensures u == t.(samples := u.samples, running := None)
  {
    t.(samples := t.samples + [FinalSample(t.running.value)], running := None)
  }

  // ------------------------------------------------------------- interning

  /** `ref`: a reference number is relative to the pid of the running
      sample; with no running sample the assertion fails. */
  function Ref(t: Tables, n: int): (r: Result<(int, int), Fault>)
    ensures r.Success? <==> t.running.Some?
    ensures r.Success? ==> r.value == (t.running.value.pid, n)
    ensures r.Failure? ==> r.error == AssertErr
  {
    if t.running.None? then Failure(AssertErr) else Success((t.running.value.pid, n))
  }

  /** `_lookup_string`: index 1 is the UNKNOWN string whatever the tables
      hold; any other index is looked up under the running sample's pid. */
  function LookupString(t: Tables, index: int): (r: Result<MojoString, Fault>)
    ensures index == 1 ==> r == Success(UNKNOWN)
    ensures index != 1 && t.running.None? ==> r == Failure(AssertErr)
    ensures index != 1 && t.running.Some? ==>
      var k := (t.running.value.pid, index);
      r == if k in t.stringMap then Success(t.stringMap[k]) else Failure(KeyErr)
  {
    if index == 1 then Success(UNKNOWN)
    else
      var k :- Ref(t, index);
      if k in t.stringMap then Success(t.stringMap[k]) else Failure(KeyErr)
  }

  // -------------------------------------------------------------- handlers

  /** `get_metadata`. */
  function HandleMetadata(t: Tables, name: string, value: string): (Tables, Result<MojoEvent, Fault>) {
    (t.(metadata := t.metadata[name := value]), Success(MojoMetadata(name, value)))
  }

  function NewRunning(pid: int, iid: Option<int>, thread: string): RunningSample {
    RunningSample(pid, thread, iid, [], None, None, None, None)
  }

  /** `get_stack`: the running sample, if any, is finalised and a fresh one
      is started. */
  function HandleStack(t: Tables, pid: int, iid: Option<int>, thread: string): (Tables, Result<MojoEvent, Fault>) {
    var u := if t.running.Some? then Finalize(t) else t;
    (u.(running := Some(NewRunning(pid, iid, thread))),
     Success(MojoStack(pid, if iid.Some? then iid.value else -1, thread)))
  }

  predicate AllNone(lineEnd: Option<int>, column: Option<int>, columnEnd: Option<int>) {
    lineEnd.None? && column.None? && columnEnd.None?
  }

  /** `get_frame`: both strings are looked up first, then the version 1
      assertion is checked, then the frame is registered under
      `ref(key)`. */
  function HandleFrame(
    t: Tables, version: Option<int>, key: int, filenameIndex: int, scopeIndex: int, line: int,
    lineEnd: Option<int>, column: Option<int>, columnEnd: Option<int>): (Tables, Result<MojoEvent, Fault>)
  {
    match LookupString(t, filenameIndex)
    case Failure(e) => (t, Failure(e))
    case Success(filename) =>
      match LookupString(t, scopeIndex)
      case Failure(e) => (t, Failure(e))
      case Success(scope) =>
        if version == Some(1) && !AllNone(lineEnd, column, columnEnd) then (t, Failure(AssertErr))
        else
          match Ref(t, key)
          case Failure(e) => (t, Failure(e))
          case Success(k) =>
            var frame := MojoFrame(key, filename, scope, line, lineEnd, column, columnEnd);
            (t.(frameMap := t.frameMap[k := frame]), Success(FrameEvent(frame)))
  }

  /** `get_frame_ref`: the referenced frame is appended to the running
      sample. */
  function HandleFrameRef(t: Tables, key: int): (Tables, Result<MojoEvent, Fault>) {
    match Ref(t, key)
    case Failure(e) => (t, Failure(e))
    case Success(k) =>
      if k !in t.frameMap then (t, Failure(KeyErr))
      else
        var frame := t.frameMap[k];
        var rs := t.running.value;
        (t.(running := Some(rs.(frames := rs.frames + [frame]))), Success(MojoFrameReference(frame)))
  }

  /** `_get_metric`: the metric of that type replaces any earlier one. */
  function HandleMetric(t: Tables, metricType: MetricType, value: int): (Tables, Result<MojoEvent, Fault>) {
    if t.running.None? then (t, Failure(AssertErr))
    else
      var rs := t.running.value;
      var rs' := if metricType == Time then rs.(time := Some(value)) else rs.(memory := Some(value));
      (t.(running := Some(rs')), Success(MojoMetric(metricType, value)))
  }

  /** `get_idle`. */
  function HandleIdle(t: Tables): (Tables, Result<MojoEvent, Fault>) {
    if t.running.None? then (t, Failure(AssertErr))
    else (t.(running := Some(t.running.value.(idle := Some(true)))), Success(MojoIdle))
  }

  /** `get_gc`. */
  function HandleGc(t: Tables): (Tables, Result<MojoEvent, Fault>) {
    if t.running.None? then (t, Failure(AssertErr))
    else (t.(running := Some(t.running.value.(gc := Some(true)))), Success(MojoSpecialFrame("GC")))
  }

  /** `get_string`: the string is registered under `ref(key)`. */
  function HandleString(t: Tables, key: int, value: string): (Tables, Result<MojoEvent, Fault>) {
    match Ref(t, key)
    case Failure(e) => (t, Failure(e))
    case Success(k) =>
      var s := MojoString(key, value);
      (t.(stringMap := t.stringMap[k := s]), Success(StringEvent(s)))
  }

  /** `get_string_ref`. */
  function HandleStringRef(t: Tables, key: int): (Tables, Result<MojoEvent, Fault>) {
    match Ref(t, key)
    case Failure(e) => (t, Failure(e))
    case Success(k) =>
      if k in t.stringMap then (t, Success(MojoStringReference(t.stringMap[k]))) else (t, Failure(KeyErr))
  }

  // ---------------------------------------------------------- field layout

  datatype FieldKind = IntField | StrField
  datatype Field = IntVal(i: int) | StrVal(s: string)

  /** The fields each `parse_*` handler reads after the tag byte, in order;
      an unknown tag is a KeyError in the handler table, and STACK asserts
      that a version has been read before reading anything. */
  function Kinds(tag: Byte, version: Option<int>): (r: Result<seq<FieldKind>, Fault>)
    ensures r.Failure? <==> !(1 <= tag <= 12) || (tag == STACK && version.None?)
    ensures r.Failure? ==> r.error == if 1 <= tag <= 12 then AssertErr else KeyErr
  {
    if tag == METADATA then Success([StrField, StrField])
    else if tag == STACK then
      if version.None? then Failure(AssertErr)
      else if version.value >= 3 then Success([IntField, IntField, StrField])
      else Success([IntField, StrField])
    else if tag == FRAME then
      if version == Some(1) then Success([IntField, IntField, IntField, IntField])
      else Success([IntField, IntField, IntField, IntField, IntField, IntField, IntField])
    else if tag == FRAME_INVALID then Success([])
    else if tag == FRAME_REF then Success([IntField])
    else if tag == FRAME_KERNEL then Success([StrField])
    else if tag == GC || tag == IDLE then Success([])
    else if tag == METRIC_TIME || tag == METRIC_MEMORY then Success([IntField])
    else if tag == STRING then Success([IntField, StrField])
    else if tag == STRING_REF then Success([IntField])
    else Failure(KeyErr)
  }

  /** The integer at position `i` of a field list (0 if there is none). */
  function IntOf(f: seq<Field>, i: nat): int {
    if i < |f| && f[i].IntVal? then f[i].i else 0
  }

  /** The string at position `i` of a field list ("" if there is none). */
  function StrOf(f: seq<Field>, i: nat): string {
    if i < |f| && f[i].StrVal? then f[i].s else ""
  }

  /** The handler of a tag applied to the fields read for it. A tag
      without a handler raises a `KeyError` and changes nothing; the
      invalid and kernel frames always succeed and change nothing. */
  function Step(t: Tables, version: Option<int>, tag: Byte, f: seq<Field>): (r: (Tables, Result<MojoEvent, Fault>))
    ensures !(1 <= tag <= 12) ==> r == (t, Failure(KeyErr))
    ensures tag == FRAME_INVALID || tag == FRAME_KERNEL ==> r.0 == t && r.1.Success?
  {
    if tag == METADATA then HandleMetadata(t, StrOf(f, 0), StrOf(f, 1))
    else if tag == STACK then
      if version.Some? && version.value >= 3 then HandleStack(t, IntOf(f, 0), Some(IntOf(f, 1)), StrOf(f, 2))
      else HandleStack(t, IntOf(f, 0), None, StrOf(f, 1))
    else if tag == FRAME then
      if version == Some(1) then HandleFrame(t, version, IntOf(f, 0), IntOf(f, 1), IntOf(f, 2), IntOf(f, 3), None, None, None)
      else HandleFrame(t, version, IntOf(f, 0), IntOf(f, 1), IntOf(f, 2), IntOf(f, 3), Some(IntOf(f, 4)), Some(IntOf(f, 5)), Some(IntOf(f, 6)))
    else if tag == FRAME_INVALID then (t, Success(MojoSpecialFrame("INVALID")))
    else if tag == FRAME_REF then HandleFrameRef(t, IntOf(f, 0))
    else if tag == FRAME_KERNEL then (t, Success(MojoKernelFrame(StrOf(f, 0))))
    else if tag == GC then HandleGc(t)
    else if tag == IDLE then HandleIdle(t)
    else if tag == METRIC_TIME then HandleMetric(t, Time, IntOf(f, 0))
    else if tag == METRIC_MEMORY then HandleMetric(t, Memory, IntOf(f, 0))
    else if tag == STRING then HandleString(t, IntOf(f, 0), StrOf(f, 1))
    else if tag == STRING_REF then HandleStringRef(t, IntOf(f, 0))
    else (t, Failure(KeyErr))
  }

  // ------------------------------------------------------- reading fields

  /** How `str_reader` ends a string that starts at a position: the bytes
      before the terminating 0 and the position after it; a write past the
      buffer (the position after the offending byte); or the end of the
      stream first. */
  datatype StrOutcome = StrOk(bytes: seq<Byte>, end: nat) | StrTooLong(end: nat) | StrShort

  /** `str_reader` after it has buffered the `i` bytes from `p`. */
  function StrFrom(bs: seq<Byte>, p: nat, i: nat): (r: StrOutcome)
    requires p + i <= |bs| && i <= STR_BUFFER_SIZE
    requires forall j :: p <= j < p + i ==> bs[j] != 0
    ensures r.StrOk? ==>
      r.end == p + |r.bytes| + 1 <= |bs| && |r.bytes| <= STR_BUFFER_SIZE &&
      r.bytes == bs[p..r.end - 1] && bs[r.end - 1] == 0
    ensures r.StrTooLong? ==> r.end == p + STR_BUFFER_SIZE + 1 <= |bs|
    ensures r.StrShort? ==> |bs| - p <= STR_BUFFER_SIZE
    decreases |bs| - (p + i)
  {
    if p + i == |bs| then StrShort
    else if bs[p + i] == 0 then StrOk(bs[p..p + i], p + i + 1)
    else if i == STR_BUFFER_SIZE then StrTooLong(p + i + 1)
    else StrFrom(bs, p, i + 1)
  }

  /** No byte `str_reader` buffers is a 0: a string ends at its first 0,
      and a string that is too long or cut short has none. */
  lemma {:induction false} StrFromNonZero(bs: seq<Byte>, p: nat, i: nat)
    requires p + i <= |bs| && i <= STR_BUFFER_SIZE
    requires forall j :: p <= j < p + i ==> bs[j] != 0
    ensures StrFrom(bs, p, i).StrOk? ==> forall j :: p <= j < StrFrom(bs, p, i).end - 1 ==> bs[j] != 0
    ensures StrFrom(bs, p, i).StrTooLong? ==> forall j :: p <= j < StrFrom(bs, p, i).end ==> bs[j] != 0
    ensures StrFrom(bs, p, i).StrShort? ==> forall j :: p <= j < |bs| ==> bs[j] != 0
    decreases |bs| - (p + i)
  {
    if p + i < |bs| && bs[p + i] != 0 && i < STR_BUFFER_SIZE {
      StrFromNonZero(bs, p, i + 1);
    }
  }

  /** The string that `str_reader` returns for the bytes from `p`. */
  function StrAt(bs: seq<Byte>, p: nat): StrOutcome
    requires p <= |bs|
  {
    StrFrom(bs, p, 0)
  }

  /** The outcome of reading fields from position `p`: the values and the
      position after them, or the position at which reading stopped and
      why. */
  datatype Scan = Scanned(values: seq<Field>, end: nat) | Stopped(end: nat, fault: Fault)

  /** One field: a varint, or a string (which, once the string reader has
      ended, fails on the first byte sent to it). */
  function ScanOne(bs: seq<Byte>, p: nat, kind: FieldKind, dead: bool): (r: Scan)
    requires p <= |bs|
    ensures r.Scanned? ==> p < r.end <= |bs| && |r.values| == 1 && (r.values[0].IntVal? <==> kind == IntField)
    ensures r.Stopped? ==> p <= r.end <= |bs| && !r.fault.KeyErr? && !r.fault.AssertErr?
  {
    match kind
    case IntField =>
      (match VarintAt(bs, p)
       case Some((v, len)) => Scanned([IntVal(v)], p + len)
       case None => Stopped(|bs|, ShortRead))
    case StrField =>
      if dead then
        if p < |bs| then Stopped(p + 1, Exhausted) else Stopped(p, ShortRead)
      else
        match StrAt(bs, p)
        case StrOk(b, e) => Scanned([StrVal(Decode(b))], e)
        case StrTooLong(e) => Stopped(e, IndexErr)
        case StrShort => Stopped(|bs|, ShortRead)
  }

  /** An integer field whose varint ends at `q` reads its value and stops
      just after it. */
  lemma ScanIntEnd(bs: seq<Byte>, p: nat, q: nat, dead: bool)
    requires p <= q < |bs| && !Continues(bs[q])
    requires forall j :: p <= j < q ==> Continues(bs[j])
    ensures ScanOne(bs, p, IntField, dead) == Scanned([IntVal(VarintValue(bs[p..q + 1]))], q + 1)
  {
    VarintEndAt(bs, p, q);
  }

  /** An integer field whose bytes all carry 0x80 runs out of data. */
  lemma ScanIntNone(bs: seq<Byte>, p: nat, dead: bool)
    requires p <= |bs|
    requires forall j :: p <= j < |bs| ==> Continues(bs[j])
    ensures ScanOne(bs, p, IntField, dead) == Stopped(|bs|, ShortRead)
  {
    VarintEndNone(bs, p);
  }

  /** The fields of a handler, read one after the other. */
  function ScanFields(bs: seq<Byte>, p: nat, kinds: seq<FieldKind>, dead: bool): (r: Scan)
    requires p <= |bs|
    ensures r.Scanned? ==> p <= r.end <= |bs| && |r.values| == |kinds|
    ensures r.Stopped? ==> p <= r.end <= |bs| && !r.fault.KeyErr? && !r.fault.AssertErr?
    decreases |kinds|, |bs| - p
  {
    if kinds == [] then Scanned([], p)
    else
      match ScanOne(bs, p, kinds[0], dead)
      case Stopped(e, fault) => Stopped(e, fault)
      case Scanned(v, q) =>
        match ScanFields(bs, q, kinds[1..], dead)
        case Stopped(e, fault) => Stopped(e, fault)
        case Scanned(vs, e) => Scanned(v + vs, e)
  }

  // ---------------------------------------------------------- parse_event

  /** What `parse_event` makes of the bytes at a position: the end of the
      stream at a tag boundary; a handled event; a KeyError, reported as
      "Unhandled event"; or any other failure, reported as MojoParseError. */
  datatype EventResult = EndOfStream | Handled(event: MojoEvent) | UnhandledEvent(tag: Byte) | InvalidBytes

  /** What the handler of a tag does, started on the byte after the tag:
      its result, where it stopped reading, the tables it leaves and
      whether the string reader has ended. */
  datatype Outcome = Outcome(result: Result<MojoEvent, Fault>, end: nat, tables: Tables, dead: bool)

  /** A handler that reads fields of `kinds` run from `q`: the fields are
      read as `ScanFields` reads them, reading that stops fails with its
      fault (a write past the string buffer ends the string reader), and
      fields that are all read are handed to `Step`. A failure changes no
      table, and no handler leaves finalised samples without a running
      one. */
  function HandlerOutcome(bs: seq<Byte>, q: nat, version: Option<int>, dead: bool, t: Tables, tag: Byte, kinds: seq<FieldKind>): (o: Outcome)
    requires q <= |bs|
    ensures q <= o.end <= |bs|
    ensures o.result.Failure? ==> o.tables == t
    ensures o.result.Success? ==> o.dead == dead
    ensures t.running.Some? || t.samples == [] ==> o.tables.running.Some? || o.tables.samples == []
  {
    match ScanFields(bs, q, kinds, dead)
    case Stopped(e, fault) => Outcome(Failure(fault), e, t, dead || fault == IndexErr)
    case Scanned(values, e) =>
      FailureChangesNothing(t, version, tag, values);
      StepSamples(t, version, tag, values);
      var (u, r) := Step(t, version, tag, values);
      Outcome(r, e, u, dead)
  }

  /** The handler of `tag` run from `q`: a tag without a handler, or a
      STACK before the version is known, fails before reading anything;
      any other reads the fields `Kinds` lists. */
  function RunHandler(bs: seq<Byte>, q: nat, version: Option<int>, dead: bool, t: Tables, tag: Byte): (o: Outcome)
    requires q <= |bs|
    ensures q <= o.end <= |bs|
    ensures o.result.Failure? ==> o.tables == t
    ensures o.result.Success? ==> o.dead == dead
    ensures t.running.Some? || t.samples == [] ==> o.tables.running.Some? || o.tables.samples == []
  {
    match Kinds(tag, version)
    case Failure(e) => Outcome(Failure(e), q, t, dead)
    case Success(kinds) => HandlerOutcome(bs, q, version, dead, t, tag, kinds)
  }

  /** `parse_event` on the tables `t`: the position it stops at, the new
      tables and the result. */
  function ParseEventAt(bs: seq<Byte>, p: nat, version: Option<int>, dead: bool, t: Tables): (r: (nat, Tables, EventResult))
    requires p <= |bs|
    ensures p <= r.0 <= |bs| && (p < |bs| ==> p < r.0)
    ensures r.2.EndOfStream? <==> p == |bs|
    ensures !r.2.Handled? ==> r.1 == t
  {
    if p == |bs| then (p, t, EndOfStream)
    else
      var o := RunHandler(bs, p + 1, version, dead, t, bs[p]);
      (o.end, o.tables,
       match o.result
       case Success(ev) => Handled(ev)
       case Failure(e) => if e == KeyErr then UnhandledEvent(bs[p]) else InvalidBytes)
  }

  // --------------------------------------------------------- emission

  /** The tables after a run of handled events, each a tag and its fields. */
  function RunSteps(t: Tables, version: Option<int>, trace: seq<(Byte, seq<Field>)>): Tables
    decreases |trace|
  {
    if trace == [] then t
    else RunSteps(Step(t, version, trace[0].0, trace[0].1).0, version, trace[1..])
  }

  /** The end of `__iter__`: a running sample is finalised at EOF. */
  function Finish(t: Tables): Tables {
    if t.running.Some? then Finalize(t) else t
  }

  /** What `__iter__` yields for one handled event: metadata as it comes,
      and, at a STACK, the last finalised sample if there is one. */
  function YieldOf(u: Tables, ev: MojoEvent): seq<Events.Event> {
    if ev.MojoMetadata? then [Events.MetadataEvent(ev.key, ev.value)]
    else if ev.MojoStack? && u.samples != [] then [Events.SampleEvent(u.samples[|u.samples| - 1])]
    else []
  }

  /** Everything `__iter__` yields over a run of handled events. */
  function Yields(t: Tables, version: Option<int>, trace: seq<(Byte, seq<Field>)>): seq<Events.Event>
    decreases |trace|
  {
    if trace == [] then []
    else
      var (u, res) := Step(t, version, trace[0].0, trace[0].1);
      (if res.Success? then YieldOf(u, res.value) else []) + Yields(u, version, trace[1..])
  }

  function SamplesOf(events: seq<Events.Event>): seq<Events.Sample> {
    if events == [] then []
    else (if events[0].SampleEvent? then [events[0].sample] else []) + SamplesOf(events[1..])
  }

  function CountStacks(trace: seq<(Byte, seq<Field>)>): nat {
    if trace == [] then 0 else (if trace[0].0 == STACK then 1 else 0) + CountStacks(trace[1..])
  }

  // ------------------------------------------------------------- lemmas

  /** Version gating: under version 1 a FRAME carries four varints and the
      frame it registers has no position fields; under any other version it
      carries seven varints and the last three are the position fields. A
      STACK carries an iid only from version 3 on. */
  lemma VersionGating(t: Tables, version: Option<int>, f: seq<Field>)
    ensures version == Some(1) ==> Kinds(FRAME, version) == Success([IntField, IntField, IntField, IntField])
    ensures version != Some(1) ==> Kinds(FRAME, version).Success? && |Kinds(FRAME, version).value| == 7
    ensures var r := Step(t, version, FRAME, f).1;
      r.Success? ==>
        r.value.FrameEvent? &&
        (version == Some(1) ==> AllNone(r.value.frame.lineEnd, r.value.frame.column, r.value.frame.columnEnd)) &&
        (version != Some(1) ==>
          r.value.frame.lineEnd == Some(IntOf(f, 4)) && r.value.frame.column == Some(IntOf(f, 5)) &&
          r.value.frame.columnEnd == Some(IntOf(f, 6)))
    ensures version.Some? ==>
      (Kinds(STACK, version).Success? &&
       (|Kinds(STACK, version).value| == 3 <==> version.value >= 3))
    ensures version.Some? ==>
      var u := Step(t, version, STACK, f).0;
      u.running.Some? && (u.running.value.iid.Some? <==> version.value >= 3)
  {
  }

  /** Interning: after a string is registered, looking up its key under the
      same pid gives it back, re-registering a key overwrites the entry,
      other keys are unaffected, and index 1 is still UNKNOWN. */
  lemma StringInterning(t: Tables, key: int, value: string, index: int)
    requires t.running.Some?
    ensures var (u, r) := HandleString(t, key, value);
      r == Success(StringEvent(MojoString(key, value))) &&
      LookupString(u, index) ==
        if index == 1 then Success(UNKNOWN)
        else if index == key then Success(MojoString(key, value))
        else LookupString(t, index)
  {
  }

  /** Registering a string, registering or referencing a frame, a metric,
      IDLE and GC all need a running sample: before the first STACK they
      fail the assertion and leave the tables alone. */
  lemma NeedsRunningSample(t: Tables, version: Option<int>, key: int, line: int, value: int, str: string)
    requires t.running.None?
    ensures HandleString(t, key, str) == (t, Failure(AssertErr))
    ensures HandleStringRef(t, key) == (t, Failure(AssertErr))
    ensures HandleFrame(t, version, key, 1, 1, line, None, None, None) == (t, Failure(AssertErr))
    ensures HandleFrameRef(t, key) == (t, Failure(AssertErr))
    ensures HandleMetric(t, Time, value) == (t, Failure(AssertErr))
    ensures HandleMetric(t, Memory, value) == (t, Failure(AssertErr))
    ensures HandleIdle(t) == (t, Failure(AssertErr)) && HandleGc(t) == (t, Failure(AssertErr))
  {
  }

  /** A frame is referenced by the key it was registered under: after FRAME
      registers it, FRAME_REF of that key appends exactly that frame to the
      running sample, after the frames referenced before. */
  lemma FrameRefAppends(t: Tables, version: Option<int>, key: int, fi: int, si: int, line: int)
    requires t.running.Some?
    requires HandleFrame(t, version, key, fi, si, line, None, None, None).1.Success?
    ensures var (u, r) := HandleFrame(t, version, key, fi, si, line, None, None, None);
      var (w, q) := HandleFrameRef(u, key);
      q == Success(MojoFrameReference(r.value.frame)) &&
      w.running.value.frames == t.running.value.frames + [r.value.frame]
  {
  }

  /** GC and IDLE set their flag, and a metric replaces an earlier metric of
      the same type while keeping the other type: the last one wins. */
  lemma Accumulation(t: Tables, a: int, b: int, c: int)
    requires t.running.Some?
    ensures HandleGc(t).0.running.value.gc == Some(true)
    ensures HandleIdle(t).0.running.value.idle == Some(true)
    ensures var u := HandleMetric(HandleMetric(HandleMetric(t, Time, a).0, Memory, b).0, Time, c).0;
      u.running.value.time == Some(c) && u.running.value.memory == Some(b) &&
      u.running.value.frames == t.running.value.frames
  {
  }

  /** Metadata keeps the last value given for each key. */
  lemma MetadataLastWins(t: Tables, name: string, v1: string, v2: string, other: string)
    ensures var u := HandleMetadata(HandleMetadata(t, name, v1).0, name, v2).0;
      u.metadata[name] == v2 &&
      (other != name && other in t.metadata ==> other in u.metadata && u.metadata[other] == t.metadata[other])
  {
  }

  /** A failed handler leaves the tables as they were. */
  lemma FailureChangesNothing(t: Tables, version: Option<int>, tag: Byte, f: seq<Field>)
    ensures Step(t, version, tag, f).1.Failure? ==> Step(t, version, tag, f).0 == t
  {
  }

  // The pid and thread of every STACK, in stream order.
  function Heads(version: Option<int>, trace: seq<(Byte, seq<Field>)>): seq<(int, string)>
    decreases |trace|
  {
    if trace == [] then []
    else
      var f := trace[0].1;
      var thread := if version.Some? && version.value >= 3 then StrOf(f, 2) else StrOf(f, 1);
      (if trace[0].0 == STACK then [(IntOf(f, 0), thread)] else []) + Heads(version, trace[1..])
  }

  function SampleIds(s: seq<Events.Sample>): (r: seq<(int, string)>)
    ensures |r| == |s|
  {
    seq(|s|, i requires 0 <= i < |s| => (s[i].pid, s[i].thread))
  }

  function RunningIds(t: Tables): seq<(int, string)> {
    if t.running.Some? then [(t.running.value.pid, t.running.value.thread)] else []
  }

  lemma SampleIdsAppend(a: seq<Events.Sample>, b: seq<Events.Sample>)
    ensures SampleIds(a + b) == SampleIds(a) + SampleIds(b)
  {
  }

  /** One handled event: a STACK finalises the running sample, if any, and
      starts a sample for its own pid and thread; every other event keeps
      the samples and the identity of the running sample. */
  lemma StepSamples(t: Tables, version: Option<int>, tag: Byte, f: seq<Field>)
    ensures var u := Step(t, version, tag, f).0;
      u.samples == t.samples + (if tag == STACK && t.running.Some? then [FinalSample(t.running.value)] else []) &&
      RunningIds(u) == if tag == STACK then Heads(version, [(tag, f)]) else RunningIds(t)
  {
    assert [(tag, f)][1..] == [];
  }

  /** Emission in stream order: the samples a run of events finalises, with
      the one finalised at EOF, are one per STACK, in order, after the
      sample running at the start. */
  lemma {:induction false} EmissionOrder(t: Tables, version: Option<int>, trace: seq<(Byte, seq<Field>)>)
    ensures var w := Finish(RunSteps(t, version, trace)).samples;
      |t.samples| <= |w| && w[..|t.samples|] == t.samples &&
      SampleIds(w[|t.samples|..]) == RunningIds(t) + Heads(version, trace)
    decreases |trace|
  {
    if trace == [] {
      FinishIds(t);
    } else {
      var tag, f := trace[0].0, trace[0].1;
      var u := Step(t, version, tag, f).0;
      EmissionOrder(u, version, trace[1..]);
      StepSamples(t, version, tag, f);
      assert Heads(version, trace) == Heads(version, [(tag, f)]) + Heads(version, trace[1..]);
      EmissionCons(t, u, Finish(RunSteps(u, version, trace[1..])).samples, tag, Heads(version, [(tag, f)]), Heads(version, trace[1..]));
    }
  }

  lemma FinishIds(t: Tables)
    ensures var w := Finish(t).samples;
      |t.samples| <= |w| && w[..|t.samples|] == t.samples &&
      SampleIds(w[|t.samples|..]) == RunningIds(t)
  {
    var w := Finish(t).samples;
    if t.running.Some? {
      assert w[|t.samples|..] == [FinalSample(t.running.value)];
    } else {
      assert w[|t.samples|..] == [];
    }
  }

  /** One step of EmissionOrder, on the samples alone: `u` follows `t` by
      one event whose STACK, if it is one, has the identity `head`. */
  lemma EmissionCons(t: Tables, u: Tables, w: seq<Events.Sample>, tag: Byte, head: seq<(int, string)>, rest: seq<(int, string)>)
    requires tag != STACK ==> head == []
    requires u.samples == t.samples + (if tag == STACK && t.running.Some? then [FinalSample(t.running.value)] else [])
    requires RunningIds(u) == if tag == STACK then head else RunningIds(t)
    requires |u.samples| <= |w| && w[..|u.samples|] == u.samples && SampleIds(w[|u.samples|..]) == RunningIds(u) + rest
    ensures |t.samples| <= |w| && w[..|t.samples|] == t.samples
    ensures SampleIds(w[|t.samples|..]) == RunningIds(t) + (head + rest)
  {
    var added := if tag == STACK && t.running.Some? then [FinalSample(t.running.value)] else [];
    assert SampleIds(added) == (if tag == STACK then RunningIds(t) else []);
    PrefixIds(t.samples, added, w, RunningIds(u) + rest);
  }

  /** Sequence bookkeeping for one step of EmissionOrder. */
  lemma PrefixIds(ts: seq<Events.Sample>, added: seq<Events.Sample>, w: seq<Events.Sample>, rest: seq<(int, string)>)
    requires |ts + added| <= |w| && w[..|ts + added|] == ts + added
    requires SampleIds(w[|ts + added|..]) == rest
    ensures |ts| <= |w| && w[..|ts|] == ts
    ensures SampleIds(w[|ts|..]) == SampleIds(added) + rest
  {
    assert w[|ts|..] == added + w[|ts + added|..];
    SampleIdsAppend(added, w[|ts + added|..]);
  }

  /** Every STACK yields exactly one sample: a run that starts with no
      running sample (at the start of a stream) finalises as many samples as
      it has STACK events. */
  lemma SampleCount(t: Tables, version: Option<int>, trace: seq<(Byte, seq<Field>)>)
    requires t.running.None?
    ensures |Finish(RunSteps(t, version, trace)).samples| == |t.samples| + CountStacks(trace)
  {
    EmissionOrder(t, version, trace);
    HeadsCount(version, trace);
  }

  lemma {:induction false} HeadsCount(version: Option<int>, trace: seq<(Byte, seq<Field>)>)
    ensures |Heads(version, trace)| == CountStacks(trace)
    decreases |trace|
  {
    if trace != [] {
      HeadsCount(version, trace[1..]);
    }
  }

  lemma SamplesOfAppend(a: seq<Events.Event>, b: seq<Events.Event>)
    ensures SamplesOf(a + b) == SamplesOf(a) + SamplesOf(b)
    decreases |a|
  {
    if a != [] {
      assert (a + b)[0] == a[0];
      assert (a + b)[1..] == a[1..] + b;
      SamplesOfAppend(a[1..], b);
    } else {
      assert a + b == b;
    }
  }

  /** Iteration yields each finalised sample exactly once: from a state in
      which a sample is running or none was ever finalised, the samples
      yielded at STACK events are exactly the samples appended, in order. */
  lemma {:induction false} YieldsExactlyOnce(t: Tables, version: Option<int>, trace: seq<(Byte, seq<Field>)>)
    requires t.running.Some? || t.samples == []
    ensures var u := RunSteps(t, version, trace);
      |t.samples| <= |u.samples| && u.samples[..|t.samples|] == t.samples &&
      SamplesOf(Yields(t, version, trace)) == u.samples[|t.samples|..] &&
      (u.running.Some? || u.samples == [])
    decreases |trace|
  {
    if trace == [] {
      assert t.samples[|t.samples|..] == [];
    } else {
      var u := Step(t, version, trace[0].0, trace[0].1).0;
      StepSamples(t, version, trace[0].0, trace[0].1);
      YieldsExactlyOnce(u, version, trace[1..]);
      YieldsCons(t, u, version, trace);
    }
  }

  lemma YieldsCons(t: Tables, u: Tables, version: Option<int>, trace: seq<(Byte, seq<Field>)>)
    requires trace != [] && u == Step(t, version, trace[0].0, trace[0].1).0
    requires t.running.Some? || t.samples == []
    requires var w := RunSteps(u, version, trace[1..]);
      |u.samples| <= |w.samples| && w.samples[..|u.samples|] == u.samples &&
      SamplesOf(Yields(u, version, trace[1..])) == w.samples[|u.samples|..] &&
      (w.running.Some? || w.samples == [])
    ensures var w := RunSteps(t, version, trace);
      |t.samples| <= |w.samples| && w.samples[..|t.samples|] == t.samples &&
      SamplesOf(Yields(t, version, trace)) == w.samples[|t.samples|..] &&
      (w.running.Some? || w.samples == [])
  {
    var tag, f := trace[0].0, trace[0].1;
    var res := Step(t, version, tag, f).1;
    StepSamples(t, version, tag, f);
    assert RunSteps(t, version, trace) == RunSteps(u, version, trace[1..]);
    var head := if res.Success? then YieldOf(u, res.value) else [];
    assert Yields(t, version, trace) == head + Yields(u, version, trace[1..]);
    SamplesOfAppend(head, Yields(u, version, trace[1..]));
    var added := if tag == STACK && t.running.Some? then [FinalSample(t.running.value)] else [];
    assert SamplesOf(head) == added by {
      if tag == STACK {
        StackYields(t, version, f);
      } else {
        NonStackYieldsNoSample(t, version, tag, f);
      }
    }
    PrefixSamples(t.samples, added, RunSteps(u, version, trace[1..]).samples, SamplesOf(Yields(u, version, trace[1..])));
  }

  /** Sequence bookkeeping for one step of YieldsExactlyOnce. */
  lemma PrefixSamples(ts: seq<Events.Sample>, added: seq<Events.Sample>, w: seq<Events.Sample>, rest: seq<Events.Sample>)
    requires |ts + added| <= |w| && w[..|ts + added|] == ts + added
    requires rest == w[|ts + added|..]
    ensures |ts| <= |w| && w[..|ts|] == ts
    ensures added + rest == w[|ts|..]
  {
    assert w[|ts|..] == added + w[|ts + added|..];
  }

  lemma StackYields(t: Tables, version: Option<int>, f: seq<Field>)
    ensures var (u, res) := Step(t, version, STACK, f);
      res.Success? && res.value.MojoStack? &&
      SamplesOf(YieldOf(u, res.value)) == if u.samples == [] then [] else [u.samples[|u.samples| - 1]]
  {
  }

  lemma NonStackYieldsNoSample(t: Tables, version: Option<int>, tag: Byte, f: seq<Field>)
    requires tag != STACK
    ensures var (u, res) := Step(t, version, tag, f);
      res.Success? ==> !res.value.MojoStack? && SamplesOf(YieldOf(u, res.value)) == []
  {
  }
}
