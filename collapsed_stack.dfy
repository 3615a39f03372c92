/** The collapsed-stack text format of austin/format/collapsed_stack.py:
    one sample per line, `P<pid>;T[<iid>:]<thread>[;<frame>]* <metrics>`,
    with frames written `<filename>:<function>:<line>` and metadata lines
    `# <name>: <value>`. The parsers are functions, the formatter is a
    class whose metadata overload sets its mode, and the file reader is a
    class whose iteration records the metadata it meets. */
module CollapsedStack {
  import opened Wrappers
  import opened Text
  import opened Events

  /** Why `parse_collapsed_stack` rejected the whole sample. */
  datatype SampleFault = Empty | NoProcessId | InvalidProcessId | NoThreadId

  /** The exceptions the parsers raise: InvalidFrame, InvalidSample,
      Python's ValueError from `int()` or from unpacking, and the
      IndexError of `rest[0]` on an empty remainder. */
  datatype ParseError = InvalidFrame(frame: string) | InvalidSample(fault: SampleFault) | ValueError | IndexError

  /** `s[1:]`, which is empty for an empty string. */
  function Drop1(s: string): string {
    if s == "" then "" else s[1..]
  }

  // ---------------------------------------------------------------- frames

  /** `parse_frame`: split from the right at the last two ':', so the
      filename may itself hold ':' but the function may not. */
  function ParseFrame(frame: string): (r: Result<Frame, ParseError>)
    ensures r.Success? ==> r.value.lineEnd.None? && r.value.column.None? && r.value.columnEnd.None?
    ensures r.Success? ==> ':' !in r.value.func
  {
    if frame == "" then Failure(InvalidFrame(frame))
    else
      var last := RPartition(frame, ':');
      if !last.found then Failure(InvalidFrame(frame))
      else
        var first := RPartition(last.before, ':');
        if !first.found then
          Failure(InvalidFrame(frame))
        else
          match ParseInt(last.after)
          case None => Failure(ValueError)
          case Some(line) => Success(MakeFrame(first.before, first.after, line))
  }

  /** The frame overload of the formatter: `filename:function:line`. */
  function FormatFrame(f: Frame): string {
    f.filename + ":" + f.func + ":" + IntToString(f.line)
  }

  /** A frame as it reads back from text: the position fields are lost. */
  function Plain(f: Frame): Frame {
    MakeFrame(f.filename, f.func, f.line)
  }

  /** A formatted frame parses back to its filename, function and line
      whenever the function has no ':'; the filename may have any. */
  lemma FrameRoundTrip(f: Frame)
    requires ':' !in f.func
    ensures ParseFrame(FormatFrame(f)) == Success(Plain(f))
  {
    var text := IntToString(f.line);
    IntToStringHasNo(f.line, ':');
    RPartitionAt(f.filename + ":" + f.func, ':', text);
    RPartitionAt(f.filename, ':', f.func);
    IntToStringRoundTrip(f.line);
  }

  /** A line number that is not an integer raises ValueError, not
      InvalidFrame. */
  lemma NonIntegerLine(filename: string, func: string, line: string)
    requires ':' !in func && ':' !in line && ParseInt(line).None?
    ensures ParseFrame(filename + ":" + func + ":" + line) == Failure(ValueError)
  {
    RPartitionAt(filename + ":" + func, ':', line);
    RPartitionAt(filename, ':', func);
  }

  /** `parse_frame` applied to every part. */
  function ParseEach(parts: seq<string>): (rs: seq<Result<Frame, ParseError>>)
    ensures |rs| == |parts| && forall i :: 0 <= i < |parts| ==> rs[i] == ParseFrame(parts[i])
  {
    seq(|parts|, i requires 0 <= i < |parts| => ParseFrame(parts[i]))
  }

  /** Building the tuple of frames in order: the first failure is raised. */
  function Collect(rs: seq<Result<Frame, ParseError>>): (r: Result<seq<Frame>, ParseError>)
    ensures r.Success? ==> |r.value| == |rs|
  {
    if rs == [] then Success([])
    else
      match rs[0]
      case Failure(e) => Failure(e)
      case Success(f) =>
        match Collect(rs[1..])
        case Failure(e) => Failure(e)
        case Success(fs) => Success([f] + fs)
  }

  /** Every part parsed as a frame; the first failure is raised. */
  function ParseFrames(parts: seq<string>): Result<seq<Frame>, ParseError> {
    Collect(ParseEach(parts))
  }

  /** A successful collection holds every result's frame, in order. */
  lemma {:induction false} CollectSuccess(rs: seq<Result<Frame, ParseError>>, i: nat)
    requires Collect(rs).Success? && i < |rs|
    ensures rs[i] == Success(Collect(rs).value[i])
  {
    if i > 0 {
      CollectSuccess(rs[1..], i - 1);
    }
  }

  /** A failed collection raises the first failure. */
  lemma {:induction false} CollectFailure(rs: seq<Result<Frame, ParseError>>) returns (i: nat)
    requires Collect(rs).Failure?
    ensures i < |rs| && rs[i] == Failure(Collect(rs).error)
    ensures forall j :: 0 <= j < i ==> rs[j].Success?
  {
    if rs[0].Failure? {
      i := 0;
    } else {
      var k := CollectFailure(rs[1..]);
      i := k + 1;
    }
  }

  /** Results that all succeed collect to their frames. */
  lemma {:induction false} CollectAll(rs: seq<Result<Frame, ParseError>>, fs: seq<Frame>)
    requires |rs| == |fs| && forall i :: 0 <= i < |rs| ==> rs[i] == Success(fs[i])
    ensures Collect(rs) == Success(fs)
  {
    if rs != [] {
      CollectAll(rs[1..], fs[1..]);
      assert fs == [fs[0]] + fs[1..];
    }
  }

  /** On success each frame is its part, parsed. */
  lemma ParseFramesSuccess(parts: seq<string>, i: nat)
    requires ParseFrames(parts).Success? && i < |parts|
    ensures ParseFrame(parts[i]) == Success(ParseFrames(parts).value[i])
  {
    CollectSuccess(ParseEach(parts), i);
  }

  /** The error raised is that of the first part that is not a frame:
      every part before it parses. */
  lemma ParseFramesFailure(parts: seq<string>) returns (i: nat)
    requires ParseFrames(parts).Failure?
    ensures i < |parts| && ParseFrame(parts[i]) == Failure(ParseFrames(parts).error)
    ensures forall j :: 0 <= j < i ==> ParseFrame(parts[j]).Success?
  {
    i := CollectFailure(ParseEach(parts));
  }

  /** A frame with fewer than two ':' is invalid, and only such a frame. */
  lemma ParseFrameInvalid(frame: string)
    ensures ParseFrame(frame) == Failure(InvalidFrame(frame)) <==> multiset(frame)[':'] < 2
  {
    var last := RPartition(frame, ':');
    if last.found {
      assert frame == last.before + [':'] + last.after;
      assert multiset(frame)[':'] == multiset(last.before)[':'] + 1;
      var first := RPartition(last.before, ':');
      if first.found {
        assert last.before == first.before + [':'] + first.after;
        assert multiset(last.before)[':'] >= 1;
      }
    }
  }

  function FormatFrames(fs: seq<Frame>): (r: seq<string>)
    ensures |r| == |fs| && forall i :: 0 <= i < |fs| ==> r[i] == FormatFrame(fs[i])
  {
    if fs == [] then [] else [FormatFrame(fs[0])] + FormatFrames(fs[1..])
  }

  function PlainFrames(fs: seq<Frame>): (r: seq<Frame>)
    ensures |r| == |fs| && forall i :: 0 <= i < |fs| ==> r[i] == Plain(fs[i])
  {
    if fs == [] then [] else [Plain(fs[0])] + PlainFrames(fs[1..])
  }

  /** The frame segment after the thread: absent when empty. */
  function ParseFramesData(data: string): Result<Option<seq<Frame>>, ParseError> {
    if data == "" then Success(None)
    else
      match ParseFrames(Split(data, ';'))
      case Failure(e) => Failure(e)
      case Success(fs) => Success(Some(fs))
  }

  /** A frame the text format can carry unchanged in its fields. */
  predicate Printable(f: Frame) {
    ';' !in f.filename && ';' !in f.func && ':' !in f.func
  }

  /** Formatted frames parse back one by one. */
  lemma FormattedFramesParse(fs: seq<Frame>)
    requires forall i :: 0 <= i < |fs| ==> Printable(fs[i])
    ensures ParseFrames(FormatFrames(fs)) == Success(PlainFrames(fs))
  {
    var texts := FormatFrames(fs);
    forall i | 0 <= i < |texts| ensures ParseEach(texts)[i] == Success(PlainFrames(fs)[i]) {
      FrameRoundTrip(fs[i]);
    }
    CollectAll(ParseEach(texts), PlainFrames(fs));
  }

  /** No formatted frame holds a ';'. */
  lemma FormattedFramesSeparable(fs: seq<Frame>)
    requires forall i :: 0 <= i < |fs| ==> Printable(fs[i])
    ensures forall i :: 0 <= i < |fs| ==> ';' !in FormatFrames(fs)[i]
  {
    forall i | 0 <= i < |fs| ensures ';' !in FormatFrames(fs)[i] {
      IntToStringHasNo(fs[i].line, ';');
    }
  }

  /** Formatted frames joined by ';' read back as the same frames, bar the
      position fields. */
  lemma FramesRoundTrip(fs: seq<Frame>)
    requires |fs| > 0 && forall i :: 0 <= i < |fs| ==> Printable(fs[i])
    ensures ParseFramesData(Join(FormatFrames(fs), ';')) == Success(Some(PlainFrames(fs)))
  {
    var texts := FormatFrames(fs);
    FormattedFramesSeparable(fs);
    JoinSplit(texts, ';');
    JoinStarts(texts, ';');
    FormattedFramesParse(fs);
  }

  /** A join is at least as long as its first part. */
  lemma JoinStarts(parts: seq<string>, sep: char)
    requires |parts| > 0
    ensures |Join(parts, sep)| >= |parts[0]|
  {
  }

  /** `any(frame.function == "GC" for frame in frames)`. */
  function AnyGC(fs: seq<Frame>): (r: bool)
    ensures r <==> exists i :: 0 <= i < |fs| && fs[i].func == "GC"
  {
    if fs == [] then false
    else if fs[0].func == "GC" then true
    else
      assert forall i :: 1 <= i < |fs| ==> fs[i] == fs[1..][i - 1];
      AnyGC(fs[1..])
  }

  /** `gc=... if frames else None`: known only when there are frames. */
  function GcOf(frames: Option<seq<Frame>>): Option<bool> {
    match frames
    case None => None
    case Some(fs) => if fs == [] then None else Some(AnyGC(fs))
  }

  // --------------------------------------------------------------- metrics

  /** `int(t) if t else None`: an empty field is None. */
  function OptInt(t: string): Result<Option<int>, ParseError> {
    if t == "" then Success(None)
    else
      match ParseInt(t)
      case None => Failure(ValueError)
      case Some(n) => Success(Some(n))
  }

  datatype MetricFields = MetricFields(time: Option<int>, idle: Option<bool>, memory: Option<int>)

  /** The metrics after the last space: with a ',' exactly
      `time,idle,memory`, otherwise only the time. */
  function ParseMetrics(m: string): (r: Result<MetricFields, ParseError>)
    ensures ',' !in m ==> r.Success? == OptInt(m).Success?
    ensures ',' !in m && r.Success? ==> r.value == MetricFields(OptInt(m).value, None, None)
    ensures ',' in m && |Split(m, ',')| != 3 ==> r == Failure(ValueError)
  {
    if ',' in m then
      var parts := Split(m, ',');
      if |parts| != 3 then Failure(ValueError)
      else
        match (OptInt(parts[0]), OptInt(parts[1]), OptInt(parts[2]))
        case (Success(time), Success(idle), Success(memory)) =>
          Success(MetricFields(time, match idle case None => None case Some(n) => Some(n != 0), memory))
        case _ => Failure(ValueError)
    else
      match OptInt(m)
      case Failure(e) => Failure(e)
      case Success(time) => Success(MetricFields(time, None, None))
  }

  /** A sample's metrics written as three fields are read back field by
      field, the idle flag as the truth of its integer. */
  lemma ThreeMetrics(time: int, idle: int, memory: int)
    ensures ParseMetrics(IntToString(time) + "," + IntToString(idle) + "," + IntToString(memory)) ==
      Success(MetricFields(Some(time), Some(idle != 0), Some(memory)))
  {
    var parts := [IntToString(time), IntToString(idle), IntToString(memory)];
    IntToStringHasNo(time, ',');
    IntToStringHasNo(idle, ',');
    IntToStringHasNo(memory, ',');
    Join3(IntToString(time), IntToString(idle), IntToString(memory), ',');
    JoinSplit(parts, ',');
    assert ',' in Join(parts, ',') by {
      assert Join(parts, ',')[|IntToString(time)|] == ',';
    }
    IntToStringRoundTrip(time);
    IntToStringRoundTrip(idle);
    IntToStringRoundTrip(memory);
  }

  /** A single integer is the time alone. */
  lemma OneMetric(v: int)
    ensures ParseMetrics(IntToString(v)) == Success(MetricFields(Some(v), None, None))
  {
    IntToStringHasNo(v, ',');
    IntToStringRoundTrip(v);
  }

  // ---------------------------------------------------------------- samples

  /** The thread field after the 'T': `iid:name` or a bare name. */
  function ThreadField(t: string): (r: (Option<string>, string))
    ensures ':' !in t ==> r == (None, t)
    ensures ':' in t ==> r.0.Some? && ':' !in r.0.value && t == r.0.value + ":" + r.1
  {
    PartitionChar(t, ':');
    if ':' in t then
      var p := Partition(t, ":");
      (Some(p.before), p.after)
    else
      (None, t)
  }

  /** `int(iid) if iid else None`. */
  function ParseIid(iid: Option<string>): Result<Option<int>, ParseError> {
    match iid
    case None => Success(None)
    case Some(t) => OptInt(t)
  }

  /** Everything after `P<pid>;`: the thread, the frames and the metrics.
      A parsed sample carries the pid given, its gc flag says whether a
      frame list with frames was read, and a frame list that parses is
      the only way past the frames. */
  function ParseBody(pid: int, rest: string, metrics: string): (r: Result<Sample, ParseError>)
    ensures r.Success? ==> r.value.pid == pid && ParseFramesData(Partition(rest, ";").after) == Success(r.value.frames)
    ensures r.Success? ==> r.value.gc.Some? == (r.value.frames.Some? && r.value.frames.value != [])
    ensures ParseFramesData(Partition(rest, ";").after).Failure? ==>
      r == Failure(ParseFramesData(Partition(rest, ";").after).error)
  {
    var q := Partition(rest, ";");
    var thread := ThreadField(Drop1(q.before));
    match ParseFramesData(q.after)
    case Failure(e) => Failure(e)
    case Success(frames) =>
      match (ParseMetrics(metrics), ParseIid(thread.0))
      case (Success(m), Success(iid)) =>
        Success(Sample(pid, iid, thread.1, Metrics(m.time, m.memory), frames, GcOf(frames), m.idle))
      case _ => Failure(ValueError)
  }

  /** `parse_collapsed_stack`. */
  function ParseCollapsedStack(sample: string): (r: Result<Sample, ParseError>)
    ensures sample == "" ==> r == Failure(InvalidSample(Empty))
    ensures sample != "" && sample[0] != 'P' ==> r == Failure(InvalidSample(NoProcessId))
    ensures r.Success? ==> r.value.gc.Some? == (r.value.frames.Some? && r.value.frames.value != [])
  {
    if sample == "" then Failure(InvalidSample(Empty))
    else if sample[0] != 'P' then Failure(InvalidSample(NoProcessId))
    else
      var m := RPartition(sample, ' ');
      var p := Partition(m.before, ";");
      match ParseInt(Drop1(p.before))
      case None => Failure(InvalidSample(InvalidProcessId))
      case Some(pid) =>
        if p.after == "" then Failure(IndexError)
        else if p.after[0] != 'T' then Failure(InvalidSample(NoThreadId))
        else ParseBody(pid, p.after, m.after)
  }

  /** A sample with a well-formed process field goes on to its body. */
  lemma ProcessRead(pid: int, rest: string, metrics: string)
    requires ' ' !in metrics
    ensures var r := ParseCollapsedStack("P" + IntToString(pid) + ";" + rest + " " + metrics);
      (rest == "" ==> r == Failure(IndexError)) &&
      (rest != "" && rest[0] != 'T' ==> r == Failure(InvalidSample(NoThreadId))) &&
      (rest != "" && rest[0] == 'T' ==> r == ParseBody(pid, rest, metrics))
  {
    var a := "P" + IntToString(pid);
    IntToStringHasNo(pid, ';');
    RPartitionAt(a + ";" + rest, ' ', metrics);
    PartitionAt(a, ";", rest);
    assert Drop1(a) == IntToString(pid);
    IntToStringRoundTrip(pid);
  }

  /** A process field that is not an integer is an invalid sample. */
  lemma BadProcessId(process: string, rest: string, metrics: string)
    requires ';' !in process && ' ' !in metrics && ParseInt(process).None?
    ensures ParseCollapsedStack("P" + process + ";" + rest + " " + metrics) == Failure(InvalidSample(InvalidProcessId))
  {
    var a := "P" + process;
    RPartitionAt(a + ";" + rest, ' ', metrics);
    PartitionAt(a, ";", rest);
    assert Drop1(a) == process;
  }

  /** Without a space there are no metrics and the process field is empty,
      so the sample is rejected for its process ID. */
  lemma NoSpaceBadProcessId(sample: string)
    requires sample != "" && sample[0] == 'P' && ' ' !in sample
    ensures ParseCollapsedStack(sample) == Failure(InvalidSample(InvalidProcessId))
  {
    PartitionAbsent("", ";");
  }

  /** The thread field with its optional iid, as the formatter writes it. */
  function ThreadText(iid: Option<int>, thread: string): string {
    match iid
    case None => thread
    case Some(i) => IntToString(i) + ":" + thread
  }

  /** The iid and the name come back from their text. */
  lemma ThreadRead(iid: Option<int>, thread: string)
    requires iid.None? ==> ':' !in thread
    ensures ThreadField(ThreadText(iid, thread)).1 == thread
    ensures ParseIid(ThreadField(ThreadText(iid, thread)).0) == Success(iid)
  {
    if iid.Some? {
      IntToStringHasNo(iid.value, ':');
      PartitionAt(IntToString(iid.value), ":", thread);
      IntToStringRoundTrip(iid.value);
    }
  }

  /** The frame segment as the formatter writes it. */
  function FramesText(frames: Option<seq<Frame>>): string {
    match frames
    case None => ""
    case Some(fs) => ";" + Join(FormatFrames(fs), ';')
  }

  function PlainOpt(frames: Option<seq<Frame>>): Option<seq<Frame>> {
    match frames
    case None => None
    case Some(fs) => Some(PlainFrames(fs))
  }

  /** Frames that survive the text format: a non-empty list of printable
      frames, or none at all. */
  predicate PrintableFrames(frames: Option<seq<Frame>>) {
    frames.Some? ==> |frames.value| > 0 && forall i :: 0 <= i < |frames.value| ==> Printable(frames.value[i])
  }

  /** The body of a sample is assembled from its parsed parts. */
  lemma BodyFrom(pid: int, rest: string, metrics: string, head: string, data: string,
                 frames: Option<seq<Frame>>, iid: Option<int>, thread: string, m: MetricFields)
    requires Partition(rest, ";").before == head && Partition(rest, ";").after == data
    requires ThreadField(Drop1(head)).1 == thread && ParseIid(ThreadField(Drop1(head)).0) == Success(iid)
    requires ParseFramesData(data) == Success(frames)
    requires ParseMetrics(metrics) == Success(m)
    ensures ParseBody(pid, rest, metrics) == Success(Sample(pid, iid, thread, Metrics(m.time, m.memory), frames, GcOf(frames), m.idle))
  {
  }

  /** The thread part of a formatted sample: no ';', and its iid and name
      read back once the 'T' is dropped. */
  lemma ThreadHead(iid: Option<int>, thread: string)
    requires ';' !in thread && (iid.None? ==> ':' !in thread)
    ensures ';' !in "T" + ThreadText(iid, thread)
    ensures ThreadField(Drop1("T" + ThreadText(iid, thread))).1 == thread
    ensures ParseIid(ThreadField(Drop1("T" + ThreadText(iid, thread))).0) == Success(iid)
  {
    if iid.Some? { IntToStringHasNo(iid.value, ';'); }
    assert Drop1("T" + ThreadText(iid, thread)) == ThreadText(iid, thread);
    ThreadRead(iid, thread);
  }

  /** The parts of the body of a formatted sample with frames. */
  lemma FramesBodyParts(iid: Option<int>, thread: string, fs: seq<Frame>, v: int)
    requires ';' !in thread && (iid.None? ==> ':' !in thread) && PrintableFrames(Some(fs))
    ensures var head := "T" + ThreadText(iid, thread);
      var data := Join(FormatFrames(fs), ';');
      Partition(head + FramesText(Some(fs)), ";").before == head &&
      Partition(head + FramesText(Some(fs)), ";").after == data &&
      ThreadField(Drop1(head)).1 == thread && ParseIid(ThreadField(Drop1(head)).0) == Success(iid) &&
      ParseFramesData(data) == Success(PlainOpt(Some(fs))) &&
      ParseMetrics(IntToString(v)) == Success(MetricFields(Some(v), None, None))
  {
    ThreadHead(iid, thread);
    OneMetric(v);
    SplitAtFrames("T" + ThreadText(iid, thread), fs);
    FramesRoundTrip(fs);
  }

  /** The frame segment starts at the first ';'. */
  lemma SplitAtFrames(head: string, fs: seq<Frame>)
    requires ';' !in head
    ensures Partition(head + FramesText(Some(fs)), ";") == Parts(head, true, Join(FormatFrames(fs), ';'))
  {
    var data := Join(FormatFrames(fs), ';');
    assert head + FramesText(Some(fs)) == head + ";" + data;
    PartitionAt(head, ";", data);
  }

  /** The body of a formatted sample with frames reads back. */
  lemma BodyReadFrames(pid: int, iid: Option<int>, thread: string, fs: seq<Frame>, v: int)
    requires ';' !in thread && (iid.None? ==> ':' !in thread) && PrintableFrames(Some(fs))
    ensures ParseBody(pid, "T" + ThreadText(iid, thread) + FramesText(Some(fs)), IntToString(v)) ==
      Success(Sample(pid, iid, thread, Metrics(Some(v), None), PlainOpt(Some(fs)), GcOf(PlainOpt(Some(fs))), None))
  {
    FramesBodyParts(iid, thread, fs, v);
    BodyFrom(pid, "T" + ThreadText(iid, thread) + FramesText(Some(fs)), IntToString(v), "T" + ThreadText(iid, thread),
      Join(FormatFrames(fs), ';'), PlainOpt(Some(fs)), iid, thread, MetricFields(Some(v), None, None));
  }

  /** The body of a formatted sample without frames reads back. */
  lemma BodyReadBare(pid: int, iid: Option<int>, thread: string, v: int)
    requires ';' !in thread && (iid.None? ==> ':' !in thread)
    ensures ParseBody(pid, "T" + ThreadText(iid, thread) + FramesText(None), IntToString(v)) ==
      Success(Sample(pid, iid, thread, Metrics(Some(v), None), None, None, None))
  {
    var head := "T" + ThreadText(iid, thread);
    ThreadHead(iid, thread);
    OneMetric(v);
    assert head + FramesText(None) == head;
    PartitionAbsent(head, ";");
    BodyFrom(pid, head, IntToString(v), head, "", None, iid, thread, MetricFields(Some(v), None, None));
  }

  /** The body of a formatted sample reads back. */
  lemma BodyRead(pid: int, iid: Option<int>, thread: string, frames: Option<seq<Frame>>, v: int)
    requires ';' !in thread && (iid.None? ==> ':' !in thread) && PrintableFrames(frames)
    ensures ParseBody(pid, "T" + ThreadText(iid, thread) + FramesText(frames), IntToString(v)) ==
      Success(Sample(pid, iid, thread, Metrics(Some(v), None), PlainOpt(frames), GcOf(PlainOpt(frames)), None))
  {
    if frames.Some? {
      BodyReadFrames(pid, iid, thread, frames.value, v);
    } else {
      BodyReadBare(pid, iid, thread, v);
    }
  }

  // -------------------------------------------------------------- formatter

  /** The formatter's assertion failures. */
  datatype FormatError = ModeNotSet | IdleNotSet

  /** `str()` of an optional integer. */
  function Show(n: Option<int>): string {
    match n
    case None => "None"
    case Some(v) => IntToString(v)
  }

  /** `str(int(thread, 16))`, or the thread itself when it is not hex. */
  function ShowThread(thread: string): string {
    match ParseHex(thread)
    case None => thread
    case Some(n) => IntToString(n)
  }

  /** A thread of hex digits is printed as its value in decimal. */
  lemma HexThreadInDecimal(thread: string)
    requires |thread| > 0 && AllHexDigits(thread) && !StartsWith(thread, "0x") && !StartsWith(thread, "0X")
    ensures ShowThread(thread) == NatToString(HexDigitsValue(thread))
  {
    ParseHexDigits(thread);
  }

  /** The metric the tail shows: memory in memory mode and the time in
      every other mode, "full" included, since the second `if` replaces
      the three-field tail. */
  function Shown(mode: string, m: Metrics): Option<int> {
    if mode == "memory" then m.memory else m.time
  }

  function SampleLine(mode: string, s: Sample): string {
    "P" + IntToString(s.pid) + ";T" + ThreadText(s.iid, ShowThread(s.thread)) + FramesText(s.frames) + " " + Show(Shown(mode, s.metrics))
  }

  /** The sample overload of the formatter. */
  function FormatSample(mode: Option<string>, s: Sample): (r: Result<string, FormatError>)
    ensures r.Failure? <==> mode.None? || (mode.value == "full" && s.idle.None?)
  {
    if mode.None? then Failure(ModeNotSet)
    else if mode.value == "full" && s.idle.None? then Failure(IdleNotSet)
    else Success(SampleLine(mode.value, s))
  }

  /** A formatted sample parses back: the shown thread and the shown metric
      (as the time) are recovered, frames lose their position fields, and
      idle is lost. */
  lemma FormatThenParse(mode: Option<string>, s: Sample)
    requires FormatSample(mode, s).Success?
    requires ';' !in ShowThread(s.thread) && (s.iid.None? ==> ':' !in ShowThread(s.thread))
    requires PrintableFrames(s.frames) && Shown(mode.value, s.metrics).Some?
    ensures ParseCollapsedStack(FormatSample(mode, s).value) ==
      Success(Sample(s.pid, s.iid, ShowThread(s.thread), Metrics(Shown(mode.value, s.metrics), None),
        PlainOpt(s.frames), GcOf(PlainOpt(s.frames)), None))
  {
    var v := Shown(mode.value, s.metrics).value;
    var tt, ft := ThreadText(s.iid, ShowThread(s.thread)), FramesText(s.frames);
    var rest := "T" + tt + ft;
    LineShape(IntToString(s.pid), tt, ft, IntToString(v));
    IntToStringHasNo(v, ' ');
    ProcessRead(s.pid, rest, IntToString(v));
    BodyRead(s.pid, s.iid, ShowThread(s.thread), s.frames, v);
  }

  lemma LineShape(pid: string, tt: string, ft: string, tail: string)
    ensures "P" + pid + ";T" + tt + ft + " " + tail == "P" + pid + ";" + ("T" + tt + ft) + " " + tail
  {
    assert ";T" == ";" + "T";
  }

  /** `# name: value`. */
  function MetadataLine(name: string, value: string): string {
    "# " + name + ": " + value
  }

  /** `AustinEventCollapsedStackFormatter`. */
  class Formatter {
    var mode: Option<string>

    constructor(mode: Option<string>)
      ensures this.mode == mode
    {
      this.mode := mode;
    }

    /** The metadata overload: a "mode" entry sets the mode. */
    method FormatMetadata(name: string, value: string) returns (line: string)
      modifies this
      ensures line == MetadataLine(name, value)
      ensures mode == if name == "mode" then Some(value) else old(mode)
    {
      if name == "mode" {
        mode := Some(value);
      }
      line := MetadataLine(name, value);
    }

    /** The sample overload, under the current mode. */
    function Format(s: Sample): (r: Result<string, FormatError>)
      reads this
      ensures r.Success? <==> mode.Some? && (mode.value == "full" ==> s.idle.Some?)
    {
      FormatSample(mode, s)
    }
  }

  // -------------------------------------------------------------- file reader

  /** What one line of an Austin file is. */
  datatype LineRead = Stop | Blank | Meta(name: string, value: string) | Parsed(sample: Result<Sample, ParseError>)

  /** One iteration of `AustinFileReader.__iter__`. */
  function ReadLine(raw: string): (l: LineRead)
    ensures l == Stop <==> raw == ""
  {
    if raw == "" then Stop
    else
      var line := RStripChar(raw, '\n');
      if line == "" then Blank
      else if StartsWith(line, "# ") then
        var kv := Partition(Strip(line[2..]), ": ");
        Meta(kv.before, kv.after)
      else Parsed(ParseCollapsedStack(line))
  }

  /** The events a run of the iterator yields, and the error it raises. */
  datatype Reading = Reading(events: seq<Event>, error: Option<ParseError>)

  function Prepend(evs: seq<Event>, r: Reading): Reading {
    Reading(evs + r.events, r.error)
  }

  /** What the iterator does with one line, given what it does with the
      lines after it: stop, skip, yield, or raise. */
  function Continue(l: LineRead, rest: Reading): Reading {
    match l
    case Stop => Reading([], None)
    case Blank => rest
    case Meta(k, v) => Prepend([MetadataEvent(k, v)], rest)
    case Parsed(Failure(e)) => Reading([], Some(e))
    case Parsed(Success(s)) => Prepend([SampleEvent(s)], rest)
  }

  /** What each line of the stream is, in order. */
  function LinesRead(lines: seq<string>): (r: seq<LineRead>)
    ensures |r| == |lines|
  {
    if lines == [] then [] else [ReadLine(lines[0])] + LinesRead(lines[1..])
  }

  /** Iterating over the line readings. */
  function Run(ls: seq<LineRead>): Reading {
    if ls == [] then Reading([], None)
    else Continue(ls[0], Run(ls[1..]))
  }

  /** The whole iteration over `lines`: at most one event per line, and
      an empty read, the end of the file, stops it at once. */
  function ReadLines(lines: seq<string>): (r: Reading)
    ensures |r.events| <= |lines|
    ensures lines != [] && lines[0] == "" ==> r == Reading([], None)
  {
    RunBound(LinesRead(lines));
    Run(LinesRead(lines))
  }

  /** Each reading yields at most one event. */
  lemma {:induction false} RunBound(ls: seq<LineRead>)
    ensures |Run(ls).events| <= |ls|
  {
    if ls != [] {
      RunBound(ls[1..]);
    }
  }

  lemma {:induction false} LinesReadAt(lines: seq<string>, i: nat)
    requires i < |lines|
    ensures LinesRead(lines)[i] == ReadLine(lines[i])
  {
    if i > 0 {
      LinesReadAt(lines[1..], i - 1);
    }
  }

  lemma {:induction false} LinesReadAppend(a: seq<string>, b: seq<string>)
    ensures LinesRead(a + b) == LinesRead(a) + LinesRead(b)
  {
    if a == [] {
      assert a + b == b;
    } else {
      assert (a + b)[0] == a[0];
      assert (a + b)[1..] == a[1..] + b;
      LinesReadAppend(a[1..], b);
    }
  }

  /** Iteration reads reading `i` before the readings after it. */
  lemma RunStep(ls: seq<LineRead>, i: nat)
    requires i < |ls|
    ensures Run(ls[i..]) == Continue(ls[i], Run(ls[i + 1..]))
  {
    assert ls[i..][0] == ls[i] && ls[i..][1..] == ls[i + 1..];
  }

  lemma PrependAssoc(x: seq<Event>, y: seq<Event>, r: Reading)
    ensures Prepend(x, Prepend(y, r)) == Prepend(x + y, r)
  {
    assert x + (y + r.events) == (x + y) + r.events;
  }

  /** A line that neither stops nor raises passes later lines through. */
  lemma ContinueShift(l: LineRead, r: Reading, tail: Reading)
    requires l != Stop && Continue(l, r).error.None?
    ensures r.error.None?
    ensures Continue(l, Prepend(r.events, tail)) == Prepend(Continue(l, r).events, tail)
  {
    match l
    case Blank =>
    case Meta(k, v) =>
      PrependAssoc([MetadataEvent(k, v)], r.events, tail);
    case Parsed(p) =>
      PrependAssoc([SampleEvent(p.value)], r.events, tail);
  }

  /** A formatted metadata line, with its newline, reads back as the same
      name and value, provided stripping and the ": " split cannot cut
      into them. */
  lemma MetadataRoundTrip(name: string, value: string)
    requires ':' !in name && (name == "" || !IsSpace(name[0]))
    requires value != "" && !IsSpace(value[|value| - 1])
    ensures ReadLine(MetadataLine(name, value) + "\n") == Meta(name, value)
  {
    var line := MetadataLine(name, value);
    RStripCharOnce(line, '\n');
    assert line[..2] == "# ";
    var body := name + ": " + value;
    assert line[2..] == body;
    assert body[0] == if name == "" then ':' else name[0];
    assert body[|body| - 1] == value[|value| - 1];
    StripTrimmed(body);
    PartitionAt(name, ": ", value);
  }

  /** A newline-terminated sample line is parsed as a sample. */
  lemma SampleLineRead(line: string)
    requires line != "" && line[0] == 'P' && line[|line| - 1] != '\n'
    ensures ReadLine(line + "\n") == Parsed(ParseCollapsedStack(line))
  {
    RStripCharOnce(line, '\n');
    assert !StartsWith(line, "# ") by {
      if |line| >= 2 {
        assert line[..2][0] == 'P';
      }
    }
  }

  /** The events a reading yields when it neither stops nor raises. */
  function Emitted(l: LineRead): seq<Event> {
    match l
    case Meta(k, v) => [MetadataEvent(k, v)]
    case Parsed(Success(s)) => [SampleEvent(s)]
    case _ => []
  }

  /** One reading of the iteration, after `events` have been yielded. */
  lemma ConsumeStep(ls: seq<LineRead>, i: nat, events: seq<Event>)
    requires i < |ls| && Run(ls) == Prepend(events, Run(ls[i..]))
    ensures ls[i] == Stop ==> Run(ls) == Reading(events, None)
    ensures ls[i].Parsed? && ls[i].sample.Failure? ==> Run(ls) == Reading(events, Some(ls[i].sample.error))
    ensures ls[i] != Stop && !(ls[i].Parsed? && ls[i].sample.Failure?) ==>
      Run(ls) == Prepend(events + Emitted(ls[i]), Run(ls[i + 1..]))
  {
    RunStep(ls, i);
    PrependAssoc(events, Emitted(ls[i]), Run(ls[i + 1..]));
    assert events + [] == events;
  }

  /** The metadata after one more event. */
  lemma MetadataSnoc(m: map<string, string>, evs: seq<Event>, e: Event)
    ensures WithMetadata(m, evs + [e])
      == if e.MetadataEvent? then WithMetadata(m, evs)[e.name := e.value] else WithMetadata(m, evs)
  {
    assert (evs + [e])[..|evs|] == evs;
  }

  /** Readings are consumed in order: running `x` then `y` is running
      `x + y`, when `x` neither stops nor raises. */
  lemma {:induction false} RunAppend(x: seq<LineRead>, y: seq<LineRead>)
    requires forall i :: 0 <= i < |x| ==> x[i] != Stop
    requires Run(x).error.None?
    ensures Run(x + y) == Prepend(Run(x).events, Run(y))
  {
    if x == [] {
      assert x + y == y;
    } else {
      assert (x + y)[0] == x[0];
      assert (x + y)[1..] == x[1..] + y;
      ContinueShift(x[0], Run(x[1..]), Run(y));
      RunAppend(x[1..], y);
    }
  }

  /** Lines are read in order: reading `a` then `b` is reading `a + b`,
      when `a` neither ends the iteration nor raises. */
  lemma ReadLinesAppend(a: seq<string>, b: seq<string>)
    requires forall i :: 0 <= i < |a| ==> a[i] != ""
    requires ReadLines(a).error.None?
    ensures ReadLines(a + b) == Prepend(ReadLines(a).events, ReadLines(b))
  {
    LinesReadAppend(a, b);
    forall i | 0 <= i < |a| ensures LinesRead(a)[i] != Stop {
      LinesReadAt(a, i);
    }
    RunAppend(LinesRead(a), LinesRead(b));
  }

  /** `self.metadata` after the given events: each metadata event updates
      its key. */
  function WithMetadata(m: map<string, string>, evs: seq<Event>): map<string, string> {
    if evs == [] then m
    else
      var before := WithMetadata(m, evs[..|evs| - 1]);
      match evs[|evs| - 1]
      case MetadataEvent(k, v) => before[k := v]
      case SampleEvent(_) => before
  }

  /** The value of the last metadata event that names `k`. */
  function LastValue(evs: seq<Event>, k: string): Option<string> {
    if evs == [] then None
    else if evs[|evs| - 1].MetadataEvent? && evs[|evs| - 1].name == k then Some(evs[|evs| - 1].value)
    else LastValue(evs[..|evs| - 1], k)
  }

  /** The metadata keeps the last value seen for each key, and what was
      there before for keys the events never name. */
  lemma {:induction false} MetadataKeepsLast(m: map<string, string>, evs: seq<Event>, k: string)
    ensures LastValue(evs, k).Some? ==> k in WithMetadata(m, evs) && WithMetadata(m, evs)[k] == LastValue(evs, k).value
    ensures LastValue(evs, k).None? ==> (k in WithMetadata(m, evs) <==> k in m)
    ensures LastValue(evs, k).None? && k in m ==> WithMetadata(m, evs)[k] == m[k]
  {
    if evs != [] {
      MetadataKeepsLast(m, evs[..|evs| - 1], k);
    }
  }

  /** `AustinFileReader`: iterating records the metadata met on the way. */
  class FileReader {
    var metadata: map<string, string>

    constructor()
      ensures metadata == map[]
    {
      metadata := map[];
    }

    /** `__iter__` over the lines of the stream: the events it yields, the
        error it raises, and the metadata it leaves behind. */
    method Iterate(lines: seq<string>) returns (events: seq<Event>, error: Option<ParseError>)
      modifies this
      ensures Reading(events, error) == ReadLines(lines)
      ensures metadata == WithMetadata(old(metadata), events)
    {
      events, error := Consume(lines);
    }

    /** The loop of `__iter__`, over the readings of the lines. */
    method Consume(lines: seq<string>) returns (events: seq<Event>, error: Option<ParseError>)
      modifies this
      ensures Reading(events, error) == Run(LinesRead(lines))
      ensures metadata == WithMetadata(old(metadata), events)
    {
      ghost var ls := LinesRead(lines);
      events := [];
      error := None;
      var i := 0;
      var stopped := false;
      while i < |lines| && !stopped
        invariant 0 <= i <= |lines|
        invariant !stopped ==> error.None? && Run(ls) == Prepend(events, Run(ls[i..]))
        invariant stopped ==> Run(ls) == Reading(events, error)
        invariant metadata == WithMetadata(old(metadata), events)
        decreases |lines| - i, !stopped
      {
        ConsumeStep(ls, i, events);
        var l := NextLine(lines, i);
        match l
        case Stop =>
          stopped := true;
        case Blank =>
          assert events + [] == events;
          i := i + 1;
        case Meta(k, v) =>
          MetadataSnoc(old(metadata), events, MetadataEvent(k, v));
          metadata := metadata[k := v];
          events := events + [MetadataEvent(k, v)];
          i := i + 1;
        case Parsed(Failure(e)) =>
          error := Some(e);
          stopped := true;
        case Parsed(Success(s)) =>
          MetadataSnoc(old(metadata), events, SampleEvent(s));
          events := events + [SampleEvent(s)];
          i := i + 1;
      }
      if !stopped {
        assert ls[i..] == [];
        assert events + [] == events;
      }
    }

    /** Reads line `i` of the stream. */
    method NextLine(lines: seq<string>, i: nat) returns (l: LineRead)
      requires i < |lines|
      ensures l == LinesRead(lines)[i]
    {
      l := ReadLine(lines[i]);
      LinesReadAt(lines, i);
    }
  }
}
