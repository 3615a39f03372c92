/** `MojoStreamReader` of austin/format/mojo.py: a reader over a byte
    stream with a cursor, the suspended states of its `int_reader` and
    `str_reader` generators, the per-process interning tables and the
    running sample. Every method is proved against the functions of module
    Mojo: the byte-level effect of a handler is `ScanFields` over the
    handler's field kinds, and its effect on the tables is `Step`. */
module MojoStream {
  import opened Wrappers
  import opened MojoVarint
  import opened Mojo
  import Events

  /** The three bytes of the MOJO marker. */
  const MOJ: seq<Byte> := [77, 79, 74]

  /** The version in the header at a position, with the header's length:
      the marker followed by a varint. */
  function HeaderAt(bs: seq<Byte>, p: nat): Option<(int, nat)>
    requires p <= |bs|
  {
    if p + 3 <= |bs| && bs[p..p + 3] == MOJ then
      match VarintAt(bs, p + 3)
      case Some((v, len)) => Some((v, 3 + len))
      case None => None
    else None
  }

  /** The fields `parse_event` reads for the tag at a position. */
  function EventFields(bs: seq<Byte>, p: nat, version: Option<int>, dead: bool): seq<Field>
    requires p < |bs|
  {
    match Kinds(bs[p], version)
    case Failure(_) => []
    case Success(kinds) =>
      match ScanFields(bs, p + 1, kinds, dead)
      case Stopped(_, _) => []
      case Scanned(values, _) => values
  }

  /** A handled event is the tag's handler applied to the fields read. */
  lemma EventStep(bs: seq<Byte>, p: nat, version: Option<int>, dead: bool, t: Tables)
    requires p < |bs| && ParseEventAt(bs, p, version, dead, t).2.Handled?
    ensures Step(t, version, bs[p], EventFields(bs, p, version, dead)) ==
      (ParseEventAt(bs, p, version, dead, t).1, Success(ParseEventAt(bs, p, version, dead, t).2.event))
  {
  }

  /** After the marker, the header's version is the varint `ReadInt` scans. */
  lemma HeaderByScan(bs: seq<Byte>, p0: nat, p1: nat, dead: bool, r: Result<int, Fault>, e: nat)
    requires p0 + 3 == p1 <= |bs| && bs[p0..p1] == MOJ
    requires ScanOne(bs, p1, IntField, dead) == if r.Success? then Scanned([IntVal(r.value)], e) else Stopped(e, r.error)
    ensures r.Success? ==> p1 < e && HeaderAt(bs, p0) == Some((r.value, e - p0))
    ensures r.Failure? ==> HeaderAt(bs, p0).None?
  {
  }

  /** Bytes gathered from `a` that end with `bs[b..c]` still do once the
      gathering runs on to `d`. */
  lemma ExtendGathered(bs: seq<Byte>, lb: seq<Byte>, a: nat, b: nat, c: nat, d: nat)
    requires a <= b <= c <= d <= |bs| && bs[a..c] == lb + bs[b..c]
    ensures bs[a..d] == lb + bs[b..d]
  {
    assert bs[a..d] == bs[a..c] + bs[c..d];
    assert bs[b..d] == bs[b..c] + bs[c..d];
  }

  /** Reading the field at index `i` of a handler's field list. */
  lemma ScanUnfold(bs: seq<Byte>, p: nat, kinds: seq<FieldKind>, i: nat, dead: bool)
    requires p <= |bs| && i < |kinds|
    ensures ScanFields(bs, p, kinds[i..], dead) ==
      match ScanOne(bs, p, kinds[i], dead)
      case Stopped(e, f) => Stopped(e, f)
      case Scanned(v, q) => Prepend(v, ScanFields(bs, q, kinds[i + 1..], dead))
  {
    assert kinds[i..][0] == kinds[i];
    assert kinds[i..][1..] == kinds[i + 1..];
  }

  /** A handler's outcome by how the reading of its fields ended. */
  lemma HandlerRead(bs: seq<Byte>, q: nat, version: Option<int>, dead: bool, t: Tables, tag: Byte, kinds: seq<FieldKind>)
    requires q <= |bs|
    ensures var sc, o := ScanFields(bs, q, kinds, dead), HandlerOutcome(bs, q, version, dead, t, tag, kinds);
      (sc.Stopped? ==> o == Outcome(Failure(sc.fault), sc.end, t, dead || sc.fault == IndexErr)) &&
      (sc.Scanned? ==> o == Outcome(Step(t, version, tag, sc.values).1, sc.end, Step(t, version, tag, sc.values).0, dead))
  {
  }

  lemma StepIsStack(t: Tables, version: Option<int>, f: seq<Field>)
    requires version.Some?
    ensures Step(t, version, STACK, f) ==
      if version.value >= 3 then HandleStack(t, IntOf(f, 0), Some(IntOf(f, 1)), StrOf(f, 2))
      else HandleStack(t, IntOf(f, 0), None, StrOf(f, 1))
  {
  }

  lemma StepIsString(t: Tables, version: Option<int>, f: seq<Field>)
    ensures Step(t, version, STRING, f) == HandleString(t, IntOf(f, 0), StrOf(f, 1))
  {
  }

  lemma StepIsFrame(t: Tables, version: Option<int>, f: seq<Field>)
    ensures Step(t, version, FRAME, f) ==
      if version == Some(1) then HandleFrame(t, version, IntOf(f, 0), IntOf(f, 1), IntOf(f, 2), IntOf(f, 3), None, None, None)
      else HandleFrame(t, version, IntOf(f, 0), IntOf(f, 1), IntOf(f, 2), IntOf(f, 3), Some(IntOf(f, 4)), Some(IntOf(f, 5)), Some(IntOf(f, 6)))
  {
  }

  /** The fields read so far, `vals`, then field `i` read from `p`: a
      failure ends the handler's reading there, a value joins `vals`. */
  lemma ScanNext(bs: seq<Byte>, p0: nat, kinds: seq<FieldKind>, i: nat, dead: bool, vals: seq<Field>, p: nat)
    requires p0 <= |bs| && p <= |bs| && i < |kinds|
    requires ScanFields(bs, p0, kinds, dead) == Prepend(vals, ScanFields(bs, p, kinds[i..], dead))
    ensures var one := ScanOne(bs, p, kinds[i], dead);
      (one.Stopped? ==> ScanFields(bs, p0, kinds, dead) == one) &&
      (one.Scanned? ==> ScanFields(bs, p0, kinds, dead) == Prepend(vals + one.values, ScanFields(bs, one.end, kinds[i + 1..], dead)))
  {
    ScanUnfold(bs, p, kinds, i, dead);
    var one := ScanOne(bs, p, kinds[i], dead);
    if one.Scanned? {
      PrependAssoc(vals, one.values, ScanFields(bs, one.end, kinds[i + 1..], dead));
    }
  }

  /** `str_reader` after `i` non-zero bytes is where it started. */
  lemma {:induction false} StrAtFrom(bs: seq<Byte>, p: nat, i: nat)
    requires p + i <= |bs| && i <= STR_BUFFER_SIZE
    requires forall j :: p <= j < p + i ==> bs[j] != 0
    ensures StrAt(bs, p) == StrFrom(bs, p, i)
  {
    if i > 0 {
      StrAtFrom(bs, p, i - 1);
      assert bs[p + i - 1] != 0;
    }
  }

  /** How `str_reader` ends after buffering the non-zero bytes from `p0`
      to `q`, by what the byte at `q` does to it. */
  lemma StrStop(bs: seq<Byte>, p0: nat, q: nat, r: Result<string, Fault>, buf: seq<Byte>)
    requires p0 <= q <= |bs| && q - p0 <= STR_BUFFER_SIZE
    requires forall j :: p0 <= j < q ==> bs[j] != 0
    requires q < |bs| ==> buf == bs[p0..q]
    requires q == |bs| ==> r == Failure(ShortRead)
    requires q < |bs| && bs[q] == 0 ==> r == Success(Decode(buf))
    requires q < |bs| && bs[q] != 0 ==> |buf| == STR_BUFFER_SIZE && r == Failure(IndexErr)
    ensures match StrAt(bs, p0)
      case StrOk(b, e) => r == Success(Decode(b)) && e == q + 1
      case StrTooLong(e) => r == Failure(IndexErr) && e == q + 1
      case StrShort => r == Failure(ShortRead) && q == |bs|
  {
    StrAtFrom(bs, p0, q - p0);
  }

  /** The fields `parse_stack` reads under a version that has been read. */
  function StackKinds(v: int): (r: seq<FieldKind>)
    ensures Kinds(STACK, Some(v)) == Success(r)
  {
    if v >= 3 then [IntField, IntField, StrField] else [IntField, StrField]
  }

  /** The fields `parse_frame` reads under a version. */
  function FrameKinds(version: Option<int>): (r: seq<FieldKind>)
    ensures Kinds(FRAME, version) == Success(r)
  {
    if version == Some(1) then [IntField, IntField, IntField, IntField]
    else [IntField, IntField, IntField, IntField, IntField, IntField, IntField]
  }

  lemma PrependStart(bs: seq<Byte>, p: nat, kinds: seq<FieldKind>, dead: bool)
    requires p <= |bs|
    ensures ScanFields(bs, p, kinds, dead) == Prepend([], ScanFields(bs, p, kinds[0..], dead))
  {
    assert kinds[0..] == kinds;
    var sc := ScanFields(bs, p, kinds, dead);
    if sc.Scanned? {
      assert [] + sc.values == sc.values;
    }
  }

  lemma PrependDone(bs: seq<Byte>, p0: nat, kinds: seq<FieldKind>, dead: bool, vals: seq<Field>, p: nat)
    requires p0 <= |bs| && p <= |bs|
    requires ScanFields(bs, p0, kinds, dead) == Prepend(vals, ScanFields(bs, p, kinds[|kinds|..], dead))
    ensures ScanFields(bs, p0, kinds, dead) == Scanned(vals, p)
  {
    assert kinds[|kinds|..] == [];
    assert vals + [] == vals;
  }

  function Prepend(v: seq<Field>, sc: Scan): Scan {
    if sc.Scanned? then Scanned(v + sc.values, sc.end) else sc
  }

  lemma PrependAssoc(a: seq<Field>, b: seq<Field>, sc: Scan)
    ensures Prepend(a, Prepend(b, sc)) == Prepend(a + b, sc)
  {
    if sc.Scanned? {
      assert a + (b + sc.values) == (a + b) + sc.values;
    }
  }

  /** The events `parse_event` reads from a position, each a tag with the
      fields read for it, up to the first that is not handled, and how the
      reading ended: at the end of the stream, at an unhandled tag or at
      bytes that are not an event. A handled event leaves the string
      reader as it was. */
  function EventTrace(bs: seq<Byte>, p: nat, version: Option<int>, dead: bool, t: Tables): (r: (seq<(Byte, seq<Field>)>, EventResult))
    requires p <= |bs|
    ensures !r.1.Handled?
    decreases |bs| - p
  {
    var (end, u, res) := ParseEventAt(bs, p, version, dead, t);
    if res.Handled? then
      var (rest, last) := EventTrace(bs, end, version, dead, u);
      ([(bs[p], EventFields(bs, p, version, dead))] + rest, last)
    else ([], res)
  }

  /** The error iteration ends with is the one of the event at which the
      reading ended, and there is none at the end of the stream. */
  predicate EndedAs(last: EventResult, error: Option<StreamError>) {
    match last
    case EndOfStream => error.None?
    case Handled(_) => false
    case UnhandledEvent(tag) =>
      error.Some? && error.value.EventError? && error.value.failure.UnhandledError? && error.value.failure.tag == tag
    case InvalidBytes => error.Some? && error.value.EventError? && error.value.failure.ParseError?
  }

  /** The events read from `p0` so far are `trace`, which has brought the
      reader to `p` with the tables `t`. */
  ghost predicate TraceFrom(bs: seq<Byte>, p0: nat, version: Option<int>, dead: bool, t0: Tables, trace: seq<(Byte, seq<Field>)>, p: nat, t: Tables)
  {
    p0 <= |bs| && p <= |bs| &&
    var (rest, last) := EventTrace(bs, p, version, dead, t);
    EventTrace(bs, p0, version, dead, t0) == (trace + rest, last)
  }

  /** Nothing has been read yet. */
  lemma TraceStart(bs: seq<Byte>, p0: nat, version: Option<int>, dead: bool, t0: Tables)
    requires p0 <= |bs|
    ensures TraceFrom(bs, p0, version, dead, t0, [], p0, t0)
  {
    assert [] + EventTrace(bs, p0, version, dead, t0).0 == EventTrace(bs, p0, version, dead, t0).0;
  }

  /** The events read from a position and how the reading ended are
      `trace` and `error`. */
  ghost predicate TraceEnds(bs: seq<Byte>, p: nat, version: Option<int>, dead: bool, t: Tables, trace: seq<(Byte, seq<Field>)>, error: Option<StreamError>)
  {
    p <= |bs| &&
    var (events, last) := EventTrace(bs, p, version, dead, t);
    trace == events && EndedAs(last, error)
  }

  /** A handled event moves the reading on by one event. */
  lemma TraceStep(bs: seq<Byte>, p0: nat, version: Option<int>, dead: bool, t0: Tables, trace: seq<(Byte, seq<Field>)>, p: nat, t: Tables)
    requires TraceFrom(bs, p0, version, dead, t0, trace, p, t)
    requires ParseEventAt(bs, p, version, dead, t).2.Handled?
    ensures var (end, u, _) := ParseEventAt(bs, p, version, dead, t);
      TraceFrom(bs, p0, version, dead, t0, trace + [(bs[p], EventFields(bs, p, version, dead))], end, u)
  {
    var (end, u, _) := ParseEventAt(bs, p, version, dead, t);
    var rest := EventTrace(bs, end, version, dead, u).0;
    assert trace + ([(bs[p], EventFields(bs, p, version, dead))] + rest) ==
      (trace + [(bs[p], EventFields(bs, p, version, dead))]) + rest;
  }

  /** An event that is not handled ends the reading there. */
  lemma TraceEnd(bs: seq<Byte>, p0: nat, version: Option<int>, dead: bool, t0: Tables, trace: seq<(Byte, seq<Field>)>, p: nat, t: Tables)
    requires TraceFrom(bs, p0, version, dead, t0, trace, p, t)
    requires !ParseEventAt(bs, p, version, dead, t).2.Handled?
    ensures EventTrace(bs, p0, version, dead, t0) == (trace, ParseEventAt(bs, p, version, dead, t).2)
  {
    assert trace + [] == trace;
  }

  /** The tables after a run of events, extended by one more event. */
  lemma {:induction false} RunStepsSnoc(t: Tables, version: Option<int>, trace: seq<(Byte, seq<Field>)>, e: (Byte, seq<Field>))
    ensures RunSteps(t, version, trace + [e]) == Step(RunSteps(t, version, trace), version, e.0, e.1).0
    decreases |trace|
  {
    if trace == [] {
      assert [e][1..] == [];
    } else {
      assert (trace + [e])[1..] == trace[1..] + [e];
      RunStepsSnoc(Step(t, version, trace[0].0, trace[0].1).0, version, trace[1..], e);
    }
  }

  /** What iteration yields over a run of events, extended by one more
      handled event. */
  lemma {:induction false} YieldsSnoc(t: Tables, version: Option<int>, trace: seq<(Byte, seq<Field>)>, e: (Byte, seq<Field>))
    ensures var (u, res) := Step(RunSteps(t, version, trace), version, e.0, e.1);
      Yields(t, version, trace + [e]) ==
        Yields(t, version, trace) + (if res.Success? then YieldOf(u, res.value) else [])
    decreases |trace|
  {
    if trace == [] {
      assert [e][1..] == [];
    } else {
      var u := Step(t, version, trace[0].0, trace[0].1).0;
      assert (trace + [e])[1..] == trace[1..] + [e];
      YieldsSnoc(u, version, trace[1..], e);
    }
  }

  /** What `parse_event` returns: None at the end of the stream, an event
      with the bytes it was read from, or the error it raises with the
      offset and last read size of its message. */
  datatype Parsed =
    | NoEvent
    | Event(event: MojoEvent, raw: seq<Byte>)
    | UnhandledError(tag: Byte, offset: int, lastRead: nat)
    | ParseError(offset: int, lastRead: nat)

  /** What iteration raises: a header that is not the MOJO marker, a stream
      too short for the header, or the error of `parse_event`. */
  datatype StreamError = NotMojo | ShortHeader(offset: int) | EventError(failure: Parsed)

  class MojoStreamReader {
    const mojo: seq<Byte>
    var pos: nat

    var version: Option<int>
    var header: seq<Byte>

    var frameMap: map<(int, int), MojoFrame>
    var stringMap: map<(int, int), MojoString>

    var offset: int
    var lastRead: nat
    var lastBytes: seq<Byte>
    var running: Option<RunningSample>

    var intState: IntState
    const strBuf: array<Byte>
    var strLen: nat
    var strDead: bool

    var metadata: map<string, string>
    var samples: seq<Events.Sample>

    /** Where the last read that succeeded ended, and where the bytes
        gathered in `lastBytes` start. */
    ghost var okPos: nat
    ghost var mark: nat

    /** The cursor is within the stream; `_offset` and `_last_read` add up
        to the end of the last read that succeeded, and `_last_bytes` holds
        the bytes read since it was last cleared; only a short read, which
        consumes the rest of the stream, moves the cursor past them. The
        string buffer has its fixed size. */
    ghost predicate Sound()
      reads this`mark, this`okPos, this`pos, this`lastBytes, this`offset, this`lastRead, this`strLen
    {
      mark <= okPos <= pos <= |mojo| && lastBytes == mojo[mark..okPos] && offset + lastRead == okPos &&
      (okPos < pos ==> pos == |mojo|) &&
      strBuf.Length == STR_BUFFER_SIZE && strLen <= STR_BUFFER_SIZE
    }

    /** Between reads, a generator can be suspended in the middle of a
        value only once the stream is exhausted. */
    ghost predicate Resting()
      reads this`mark, this`okPos, this`pos, this`lastBytes, this`offset, this`lastRead, this`strLen
      reads this`intState, this`strDead
    {
      Sound() &&
      (intState != Fresh ==> pos == |mojo|) &&
      (strLen != 0 && !strDead ==> pos == |mojo|)
    }

    /** Between events, samples exist without a running sample only once
        the stream is exhausted (after iteration has finalised the last). */
    ghost predicate Valid()
      reads this`mark, this`okPos, this`pos, this`lastBytes, this`offset, this`lastRead, this`strLen
      reads this`intState, this`strDead, this`running, this`samples
    {
      Resting() && (running.None? && samples != [] ==> pos == |mojo|)
    }

    function TablesOf(): Tables
      reads this`frameMap, this`stringMap, this`running, this`metadata, this`samples
    {
      Tables(frameMap, stringMap, running, metadata, samples)
    }

    constructor (mojo: seq<Byte>)
      ensures Valid() && fresh(strBuf)
      ensures this.mojo == mojo && pos == 0 && version.None?
      ensures TablesOf() == InitialTables
      ensures offset == 0 && lastRead == 0 && lastBytes == []
      ensures intState == Fresh && strLen == 0 && !strDead
    {
      this.mojo := mojo;
      pos := 0;
      version := None;
      header := [];
      frameMap := map[];
      stringMap := map[];
      offset := 0;
      lastRead := 0;
      lastBytes := [];
      running := None;
      intState := Fresh;
      strBuf := new Byte[STR_BUFFER_SIZE](_ => 0);
      strLen := 0;
      strDead := false;
      metadata := map[];
      samples := [];
      okPos := 0;
      mark := 0;
    }

    // ------------------------------------------------------------ reading

    /** `read`: `n` bytes from the stream, through `_read`, which raises
        without touching the bookkeeping when fewer are left. The bytes
        that were left are consumed either way. */
    method Read(n: nat) returns (r: Result<seq<Byte>, Fault>)
      requires Sound() && n >= 1
      modifies this`pos, this`offset, this`lastRead, this`lastBytes, this`okPos
      ensures Sound() && (old(Valid()) ==> Valid())
      ensures old(pos) + n <= |mojo| ==>
        r == Success(mojo[old(pos)..old(pos) + n]) && pos == okPos == old(pos) + n &&
        offset == old(offset) + old(lastRead) && lastRead == n && lastBytes == old(lastBytes) + r.value
      ensures old(pos) + n > |mojo| ==>
        r == Failure(ShortRead) && pos == |mojo| && okPos == old(okPos) &&
        offset == old(offset) && lastRead == old(lastRead) && lastBytes == old(lastBytes)
    {
      if pos + n > |mojo| {
        pos := |mojo|;
        return Failure(ShortRead);
      }
      var data := mojo[pos..pos + n];
      assert mojo[mark..pos + n] == mojo[mark..pos] + data;
      pos := pos + n;
      okPos := pos;
      offset := offset + lastRead;
      lastRead := n;
      lastBytes := lastBytes + data;
      r := Success(data);
    }

    /** `self._last_bytes.clear()`: the bytes gathered so far have been
        handed on, and gathering starts afresh at the last read. */
    method ClearLastBytes()
      requires Valid()
      modifies this`lastBytes, this`mark
      ensures Valid() && lastBytes == [] && mark == okPos
    {
      lastBytes := [];
      mark := okPos;
    }

    /** One `self._int_reader.send(self.read())`: the next byte, fed to
        `int_reader`, which yields the number when the byte ends it. */
    method SendInt() returns (r: Result<Option<int>, Fault>)
      requires Sound()
      modifies this`pos, this`offset, this`lastRead, this`lastBytes, this`okPos, this`intState
      ensures Sound() && old(okPos) <= okPos
      ensures old(pos) == |mojo| ==>
        r == Failure(ShortRead) && pos == |mojo| && intState == old(intState) && lastRead == old(lastRead)
      ensures old(pos) < |mojo| ==>
        pos == old(pos) + 1 && okPos == pos && lastRead == 1 &&
        r.Success? && (intState, r.value) == FeedInt(old(intState), mojo[old(pos)])
    {
      var bs := Read(1);
      if bs.Failure? {
        return Failure(bs.error);
      }
      var step := FeedInt(intState, bs.value[0]);
      intState := step.0;
      r := Success(step.1);
    }

    /** `read_int`: bytes are sent to `int_reader` until it yields. */
    method ReadInt() returns (r: Result<int, Fault>)
      requires Resting()
      modifies this`pos, this`offset, this`lastRead, this`lastBytes, this`okPos, this`intState
      ensures Resting() && (old(Valid()) ==> Valid())
      ensures ScanOne(mojo, old(pos), IntField, strDead) ==
        if r.Success? then Scanned([IntVal(r.value)], pos) else Stopped(pos, r.error)
      ensures r.Success? ==> intState == Fresh && okPos == pos
      ensures old(okPos) <= okPos
      ensures old(lastRead) == 1 ==> lastRead == 1
    {
      ghost var p0 := pos;
      while true
        invariant Sound() && p0 <= pos
        invariant pos == p0 ==> intState == old(intState)
        invariant pos > p0 ==> intState == PartialAfter(mojo[p0..pos]) && okPos == pos && lastRead == 1
        invariant old(lastRead) == 1 ==> lastRead == 1
        invariant old(okPos) <= okPos
        invariant forall j :: p0 <= j < pos ==> Continues(mojo[j])
        invariant p0 < |mojo| ==> old(intState) == Fresh
        decreases |mojo| - pos
      {
        ghost var q := pos;
        ghost var st := intState;
        var n := SendInt();
        if n.Failure? {
          ScanIntNone(mojo, p0, strDead);
          r := Failure(n.error);
          break;
        }
        FeedIntAt(mojo, p0, q, st);
        if n.value.Some? {
          ScanIntEnd(mojo, p0, q, strDead);
          r := Success(n.value.value);
          break;
        }
      }
    }

    /** `read_string`: bytes are sent to `str_reader`, which buffers them
        until a 0 byte and then yields them and starts afresh; a byte past
        the buffer's end raises and ends the generator, after which every
        send fails. */
    method ReadString() returns (r: Result<string, Fault>)
      requires Resting()
      modifies this`pos, this`offset, this`lastRead, this`lastBytes, this`okPos, this`strLen, this`strDead, strBuf
      ensures Resting()
      ensures ScanOne(mojo, old(pos), StrField, old(strDead)) ==
        if r.Success? then Scanned([StrVal(r.value)], pos) else Stopped(pos, r.error)
      ensures strDead == (old(strDead) || r == Failure(IndexErr))
      ensures r.Success? ==> okPos == pos
      ensures old(okPos) <= okPos
      ensures old(lastRead) == 1 ==> lastRead == 1
    {
      if strDead {
        var bs := Read(1);
        return if bs.Success? then Failure(Exhausted) else Failure(ShortRead);
      }
      r := FillString();
    }

    /** One `send` to the live `str_reader`: a 0 byte yields the buffered
        bytes, decoded, and empties the buffer; any other byte is stored,
        and raises IndexError once the buffer is full, which ends the
        generator. */
    method StrSend(b: Byte) returns (r: Result<Option<string>, Fault>)
      requires !strDead && strBuf.Length == STR_BUFFER_SIZE && strLen <= STR_BUFFER_SIZE
      modifies this`strLen, this`strDead, strBuf
      ensures b == 0 ==> r == Success(Some(Decode(old(strBuf[..strLen])))) && strLen == 0 && !strDead
      ensures b != 0 && old(strLen) == STR_BUFFER_SIZE ==> r == Failure(IndexErr) && strDead && strLen == old(strLen)
      ensures b != 0 && old(strLen) < STR_BUFFER_SIZE ==>
        r == Success(None) && !strDead && strLen == old(strLen) + 1 && strBuf[..strLen] == old(strBuf[..strLen]) + [b]
    {
      if b == 0 {
        var s := Decode(strBuf[..strLen]);
        strLen := 0;
        return Success(Some(s));
      }
      if strLen == STR_BUFFER_SIZE {
        strDead := true;
        return Failure(IndexErr);
      }
      strBuf[strLen] := b;
      strLen := strLen + 1;
      r := Success(None);
    }

    /** One `self._str_reader.send(self.read())` to the live reader. */
    method SendString() returns (r: Result<Option<string>, Fault>)
      requires Sound() && !strDead
      modifies this`pos, this`offset, this`lastRead, this`lastBytes, this`okPos, this`strLen, this`strDead, strBuf
      ensures Sound() && old(okPos) <= okPos
      ensures old(pos) == |mojo| ==>
        r == Failure(ShortRead) && pos == |mojo| && lastRead == old(lastRead) && strLen == old(strLen) && !strDead
      ensures old(pos) < |mojo| ==>
        pos == old(pos) + 1 && okPos == pos && lastRead == 1 &&
        var b := mojo[old(pos)];
        (b == 0 ==> r == Success(Some(Decode(old(strBuf[..strLen])))) && strLen == 0 && !strDead) &&
        (b != 0 && old(strLen) == STR_BUFFER_SIZE ==> r == Failure(IndexErr) && strDead && strLen == old(strLen)) &&
        (b != 0 && old(strLen) < STR_BUFFER_SIZE ==>
          r == Success(None) && !strDead && strLen == old(strLen) + 1 && strBuf[..strLen] == old(strBuf[..strLen]) + [b])
    {
      var bs := Read(1);
      if bs.Failure? {
        return Failure(bs.error);
      }
      r := StrSend(bs.value[0]);
    }

    /** The live `str_reader`, fed until it yields or raises. */
    method FillString() returns (r: Result<string, Fault>)
      requires Resting() && !strDead
      modifies this`pos, this`offset, this`lastRead, this`lastBytes, this`okPos, this`strLen, this`strDead, strBuf
      ensures Resting()
      ensures match StrAt(mojo, old(pos))
        case StrOk(b, e) => r == Success(Decode(b)) && pos == e && !strDead
        case StrTooLong(e) => r == Failure(IndexErr) && pos == e && strDead
        case StrShort => r == Failure(ShortRead) && pos == |mojo| && !strDead
      ensures r.Success? ==> okPos == pos
      ensures old(okPos) <= okPos
      ensures old(lastRead) == 1 ==> lastRead == 1
    {
      ghost var p0 := pos;
      while true
        invariant Sound() && p0 <= pos && !strDead
        invariant pos == p0 ==> strLen == old(strLen)
        invariant p0 < |mojo| ==> strBuf[..strLen] == mojo[p0..pos]
        invariant pos > p0 ==> okPos == pos && lastRead == 1
        invariant old(lastRead) == 1 ==> lastRead == 1
        invariant old(okPos) <= okPos
        invariant forall j :: p0 <= j < pos ==> mojo[j] != 0
        decreases |mojo| - pos
      {
        ghost var q, buf := pos, strBuf[..strLen];
        var s := SendString();
        if s.Failure? || s.value.Some? {
          r := if s.Failure? then Failure(s.error) else Success(s.value.value);
          StrStop(mojo, p0, q, r, buf);
          return;
        }
        assert mojo[q] != 0;
        assert mojo[p0..pos] == mojo[p0..q] + [mojo[q]];
      }
    }

    // ----------------------------------------------------------- handlers

    /** `get_metadata`. */
    method GetMetadata(name: string, value: string) returns (r: Result<MojoEvent, Fault>)
      modifies this`metadata
      ensures (TablesOf(), r) == HandleMetadata(old(TablesOf()), name, value)
    {
      metadata := metadata[name := value];
      r := Success(MojoMetadata(name, value));
    }

    /** `_finalize_sample`. */
    method FinalizeSample() returns (s: Events.Sample)
      requires running.Some?
      modifies this`running, this`samples
      ensures s == FinalSample(old(running).value)
      ensures TablesOf() == Finalize(old(TablesOf()))
    {
      s := FinalSample(running.value);
      samples := samples + [s];
      running := None;
    }

    /** `get_stack`. */
    method GetStack(pid: int, iid: Option<int>, thread: string) returns (r: Result<MojoEvent, Fault>)
      modifies this`running, this`samples
      ensures (TablesOf(), r) == HandleStack(old(TablesOf()), pid, iid, thread)
    {
      if running.Some? {
        var _ := FinalizeSample();
      }
      running := Some(NewRunning(pid, iid, thread));
      r := Success(MojoStack(pid, if iid.Some? then iid.value else -1, thread));
    }

    /** `get_frame`. */
    method GetFrame(
      key: int, filenameIndex: int, scopeIndex: int, line: int,
      lineEnd: Option<int>, column: Option<int>, columnEnd: Option<int>) returns (r: Result<MojoEvent, Fault>)
      modifies this`frameMap
      ensures (TablesOf(), r) ==
        HandleFrame(old(TablesOf()), version, key, filenameIndex, scopeIndex, line, lineEnd, column, columnEnd)
    {
      var filename :- LookupString(TablesOf(), filenameIndex);
      var scope :- LookupString(TablesOf(), scopeIndex);
      if version == Some(1) && !AllNone(lineEnd, column, columnEnd) {
        return Failure(AssertErr);
      }
      var k :- Ref(TablesOf(), key);
      var frame := MojoFrame(key, filename, scope, line, lineEnd, column, columnEnd);
      frameMap := frameMap[k := frame];
      r := Success(FrameEvent(frame));
    }

    /** `get_frame_ref`. */
    method GetFrameRef(key: int) returns (r: Result<MojoEvent, Fault>)
      modifies this`running
      ensures (TablesOf(), r) == HandleFrameRef(old(TablesOf()), key)
    {
      var k :- Ref(TablesOf(), key);
      if k !in frameMap {
        return Failure(KeyErr);
      }
      var frame := frameMap[k];
      running := Some(running.value.(frames := running.value.frames + [frame]));
      r := Success(MojoFrameReference(frame));
    }

    /** `_get_metric`, behind `get_time_metric` and `get_memory_metric`. */
    method GetMetric(metricType: MetricType, value: int) returns (r: Result<MojoEvent, Fault>)
      modifies this`running
      ensures (TablesOf(), r) == HandleMetric(old(TablesOf()), metricType, value)
    {
      if running.None? {
        return Failure(AssertErr);
      }
      if metricType == Time {
        running := Some(running.value.(time := Some(value)));
      } else {
        running := Some(running.value.(memory := Some(value)));
      }
      r := Success(MojoMetric(metricType, value));
    }

    /** `get_idle`. */
    method GetIdle() returns (r: Result<MojoEvent, Fault>)
      modifies this`running
      ensures (TablesOf(), r) == HandleIdle(old(TablesOf()))
    {
      if running.None? {
        return Failure(AssertErr);
      }
      running := Some(running.value.(idle := Some(true)));
      r := Success(MojoIdle);
    }

    /** `get_gc`. */
    method GetGc() returns (r: Result<MojoEvent, Fault>)
      modifies this`running
      ensures (TablesOf(), r) == HandleGc(old(TablesOf()))
    {
      if running.None? {
        return Failure(AssertErr);
      }
      running := Some(running.value.(gc := Some(true)));
      r := Success(MojoSpecialFrame("GC"));
    }

    /** `get_string`. */
    method GetString(key: int, value: string) returns (r: Result<MojoEvent, Fault>)
      modifies this`stringMap
      ensures (TablesOf(), r) == HandleString(old(TablesOf()), key, value)
    {
      var k :- Ref(TablesOf(), key);
      var s := MojoString(key, value);
      stringMap := stringMap[k := s];
      r := Success(StringEvent(s));
    }

    /** `get_string_ref`. */
    method GetStringRef(key: int) returns (r: Result<MojoEvent, Fault>)
      ensures (TablesOf(), r) == HandleStringRef(TablesOf(), key)
    {
      var k :- Ref(TablesOf(), key);
      if k !in stringMap {
        return Failure(KeyErr);
      }
      r := Success(MojoStringReference(stringMap[k]));
    }

    // ------------------------------------------------------ parse handlers

    /** The `read_int` and `read_string` calls of a handler, in the order
        of its field kinds: the fields are read as `ScanFields` reads them,
        the cursor ends where reading ended, and the string reader has died
        if a string overflowed its buffer. */
    /** One field of a handler: a varint through `int_reader` or a string
        through `str_reader`. */
    method ReadField(kind: FieldKind) returns (r: Result<Field, Fault>)
      requires Resting()
      modifies this`pos, this`offset, this`lastRead, this`lastBytes, this`okPos, this`intState, this`strLen, this`strDead, strBuf
      ensures Resting()
      ensures ScanOne(mojo, old(pos), kind, old(strDead)) ==
        if r.Success? then Scanned([r.value], pos) else Stopped(pos, r.error)
      ensures strDead == (old(strDead) || r == Failure(IndexErr))
      ensures r.Success? ==> okPos == pos
      ensures old(okPos) <= okPos
      ensures old(lastRead) == 1 ==> lastRead == 1
    {
      if kind == IntField {
        var n := ReadInt();
        r := if n.Success? then Success(IntVal(n.value)) else Failure(n.error);
      } else {
        var s := ReadString();
        r := if s.Success? then Success(StrVal(s.value)) else Failure(s.error);
      }
    }

    method ReadFields(kinds: seq<FieldKind>) returns (r: Result<seq<Field>, Fault>)
      requires Resting() && okPos == pos
      modifies this`pos, this`offset, this`lastRead, this`lastBytes, this`okPos, this`intState, this`strLen, this`strDead, strBuf
      ensures Resting()
      ensures var sc := ScanFields(mojo, old(pos), kinds, old(strDead));
        pos == sc.end && old(pos) <= okPos && (old(lastRead) == 1 ==> lastRead == 1) &&
        strDead == (old(strDead) || (sc.Stopped? && sc.fault == IndexErr)) &&
        (sc.Scanned? ==> r == Success(sc.values) && okPos == pos) &&
        (sc.Stopped? ==> r == Failure(sc.fault))
    {
      ghost var p0, dead0 := pos, strDead;
      PrependStart(mojo, pos, kinds, strDead);
      var vals: seq<Field> := [];
      var i := 0;
      while i < |kinds|
        invariant Resting() && i <= |kinds| && p0 <= pos && okPos == pos && strDead == dead0
        invariant old(lastRead) == 1 ==> lastRead == 1
        invariant old(okPos) <= okPos
        invariant ScanFields(mojo, p0, kinds, dead0) == Prepend(vals, ScanFields(mojo, pos, kinds[i..], dead0))
      {
        ghost var p := pos;
        var f := ReadField(kinds[i]);
        ScanNext(mojo, p0, kinds, i, dead0, vals, p);
        if f.Failure? {
          return Failure(f.error);
        }
        vals := vals + [f.value];
        i := i + 1;
      }
      PrependDone(mojo, p0, kinds, dead0, vals, pos);
      r := Success(vals);
    }

    /** The handler of `tag` has had the effect `RunHandler` gives, read
        from `p0` with the string reader dead or not and the tables `t0`. */
    ghost predicate Dispatched(p0: nat, lr0: nat, dead0: bool, t0: Tables, tag: Byte, r: Result<MojoEvent, Fault>)
      reads this`pos, this`okPos, this`lastRead, this`strDead, this`version
      reads this`frameMap, this`stringMap, this`running, this`metadata, this`samples
      requires p0 <= |mojo|
    {
      Ran(p0, lr0, RunHandler(mojo, p0, version, dead0, t0, tag), r)
    }

    /** A handler has had the outcome `o`, begun at `p0`: the bookkeeping
        of the last read moves forward, and a handled event ends at the
        last read that succeeded. */
    ghost predicate Ran(p0: nat, lr0: nat, o: Outcome, r: Result<MojoEvent, Fault>)
      reads this`pos, this`okPos, this`lastRead, this`strDead
      reads this`frameMap, this`stringMap, this`running, this`metadata, this`samples
    {
      Outcome(r, pos, TablesOf(), strDead) == o &&
      p0 <= okPos && (lr0 == 1 ==> lastRead == 1) && (r.Success? ==> okPos == pos)
    }

    /** `parse_metadata`: two strings, the key and the value. */
    method ParseMetadata() returns (r: Result<MojoEvent, Fault>)
      requires Resting() && okPos == pos
      modifies this`pos, this`offset, this`lastRead, this`lastBytes, this`okPos, this`intState, this`strLen, this`strDead, strBuf
      modifies this`metadata
      ensures Resting()
      ensures Ran(old(pos), old(lastRead), HandlerOutcome(mojo, old(pos), version, old(strDead), old(TablesOf()), METADATA, [StrField, StrField]), r)
    {
      var f := ReadFields([StrField, StrField]);
      if f.Failure? {
        return Failure(f.error);
      }
      r := GetMetadata(StrOf(f.value, 0), StrOf(f.value, 1));
    }

    /** `parse_stack`: it asserts that a version has been read, then reads
        the pid, the iid (only from version 3 on) and the thread name. */
    method ParseStack() returns (r: Result<MojoEvent, Fault>)
      requires Resting() && okPos == pos
      modifies this`pos, this`offset, this`lastRead, this`lastBytes, this`okPos, this`intState, this`strLen, this`strDead, strBuf
      modifies this`running, this`samples
      ensures Resting()
      ensures Ran(old(pos), old(lastRead),
        if version.None? then Outcome(Failure(AssertErr), old(pos), old(TablesOf()), old(strDead))
        else HandlerOutcome(mojo, old(pos), version, old(strDead), old(TablesOf()), STACK, StackKinds(version.value)), r)
    {
      if version.None? {
        return Failure(AssertErr);
      }
      r := ReadStack();
    }

    /** `parse_stack` once the version is known. */
    method ReadStack() returns (r: Result<MojoEvent, Fault>)
      requires Resting() && okPos == pos && version.Some?
      modifies this`pos, this`offset, this`lastRead, this`lastBytes, this`okPos, this`intState, this`strLen, this`strDead, strBuf
      modifies this`running, this`samples
      ensures Resting()
      ensures Ran(old(pos), old(lastRead), HandlerOutcome(mojo, old(pos), version, old(strDead), old(TablesOf()), STACK, StackKinds(version.value)), r)
    {
      var withIid := version.value >= 3;
      var f := ReadFields(StackKinds(version.value));
      if f.Failure? {
        return Failure(f.error);
      }
      var vs := f.value;
      StepIsStack(TablesOf(), version, vs);
      r := GetStack(IntOf(vs, 0), if withIid then Some(IntOf(vs, 1)) else None, StrOf(vs, if withIid then 2 else 1));
    }

    /** `parse_frame`: the key, the filename and scope indices and the
        line, then under any version but 1 the end line and the two
        columns. */
    method ParseFrame() returns (r: Result<MojoEvent, Fault>)
      requires Resting() && okPos == pos
      modifies this`pos, this`offset, this`lastRead, this`lastBytes, this`okPos, this`intState, this`strLen, this`strDead, strBuf
      modifies this`frameMap
      ensures Resting()
      ensures Ran(old(pos), old(lastRead), HandlerOutcome(mojo, old(pos), version, old(strDead), old(TablesOf()), FRAME, FrameKinds(version)), r)
    {
      HandlerRead(mojo, pos, version, strDead, TablesOf(), FRAME, FrameKinds(version));
      var f := ReadFields(FrameKinds(version));
      if f.Failure? {
        return Failure(f.error);
      }
      var vs := f.value;
      StepIsFrame(TablesOf(), version, vs);
      var full := version != Some(1);
      r := GetFrame(IntOf(vs, 0), IntOf(vs, 1), IntOf(vs, 2), IntOf(vs, 3),
        if full then Some(IntOf(vs, 4)) else None, if full then Some(IntOf(vs, 5)) else None, if full then Some(IntOf(vs, 6)) else None);
    }

    /** `parse_frame_ref`: the key of a frame already seen. */
    method ParseFrameRef() returns (r: Result<MojoEvent, Fault>)
      requires Resting() && okPos == pos
      modifies this`pos, this`offset, this`lastRead, this`lastBytes, this`okPos, this`intState, this`strLen, this`strDead, strBuf
      modifies this`running
      ensures Resting()
      ensures Ran(old(pos), old(lastRead), HandlerOutcome(mojo, old(pos), version, old(strDead), old(TablesOf()), FRAME_REF, [IntField]), r)
    {
      var f := ReadFields([IntField]);
      if f.Failure? {
        return Failure(f.error);
      }
      r := GetFrameRef(IntOf(f.value, 0));
    }

    /** `parse_kernel_frame`: one string, the kernel function's name, which `get_kernel_frame` wraps. */
    method ParseKernelFrame() returns (r: Result<MojoEvent, Fault>)
      requires Resting() && okPos == pos
      modifies this`pos, this`offset, this`lastRead, this`lastBytes, this`okPos, this`intState, this`strLen, this`strDead, strBuf
      ensures Resting()
      ensures Ran(old(pos), old(lastRead), HandlerOutcome(mojo, old(pos), version, old(strDead), old(TablesOf()), FRAME_KERNEL, [StrField]), r)
    {
      var f := ReadFields([StrField]);
      if f.Failure? {
        return Failure(f.error);
      }
      r := Success(MojoKernelFrame(StrOf(f.value, 0)));
    }

    /** `parse_time_metric`, through `_parse_metric`. */
    method ParseTimeMetric() returns (r: Result<MojoEvent, Fault>)
      requires Resting() && okPos == pos
      modifies this`pos, this`offset, this`lastRead, this`lastBytes, this`okPos, this`intState, this`strLen, this`strDead, strBuf
      modifies this`running
      ensures Resting()
      ensures Ran(old(pos), old(lastRead), HandlerOutcome(mojo, old(pos), version, old(strDead), old(TablesOf()), METRIC_TIME, [IntField]), r)
    {
      var f := ReadFields([IntField]);
      if f.Failure? {
        return Failure(f.error);
      }
      r := GetMetric(Time, IntOf(f.value, 0));
    }

    /** `parse_memory_metric`, through `_parse_metric`. */
    method ParseMemoryMetric() returns (r: Result<MojoEvent, Fault>)
      requires Resting() && okPos == pos
      modifies this`pos, this`offset, this`lastRead, this`lastBytes, this`okPos, this`intState, this`strLen, this`strDead, strBuf
      modifies this`running
      ensures Resting()
      ensures Ran(old(pos), old(lastRead), HandlerOutcome(mojo, old(pos), version, old(strDead), old(TablesOf()), METRIC_MEMORY, [IntField]), r)
    {
      var f := ReadFields([IntField]);
      if f.Failure? {
        return Failure(f.error);
      }
      r := GetMetric(Memory, IntOf(f.value, 0));
    }

    /** `parse_string`: a key, then the string. */
    method ParseString() returns (r: Result<MojoEvent, Fault>)
      requires Resting() && okPos == pos
      modifies this`pos, this`offset, this`lastRead, this`lastBytes, this`okPos, this`intState, this`strLen, this`strDead, strBuf
      modifies this`stringMap
      ensures Resting()
      ensures Ran(old(pos), old(lastRead), HandlerOutcome(mojo, old(pos), version, old(strDead), old(TablesOf()), STRING, [IntField, StrField]), r)
    {
      var f := ReadFields([IntField, StrField]);
      if f.Failure? {
        return Failure(f.error);
      }
      StepIsString(TablesOf(), version, f.value);
      r := GetString(IntOf(f.value, 0), StrOf(f.value, 1));
    }

    /** `parse_string_ref`: the key of a string already seen. */
    method ParseStringRef() returns (r: Result<MojoEvent, Fault>)
      requires Resting() && okPos == pos
      modifies this`pos, this`offset, this`lastRead, this`lastBytes, this`okPos, this`intState, this`strLen, this`strDead, strBuf
      ensures Resting()
      ensures Ran(old(pos), old(lastRead), HandlerOutcome(mojo, old(pos), version, old(strDead), old(TablesOf()), STRING_REF, [IntField]), r)
    {
      var f := ReadFields([IntField]);
      if f.Failure? {
        return Failure(f.error);
      }
      r := GetStringRef(IntOf(f.value, 0));
    }

    /** What `parse_event` makes of the event at `p`, as `ParseEventAt`
        describes it, once its handler has run from the tables `t0` with the
        string reader dead or not; the bookkeeping of the last read moves
        past the tag, and a handled event ends at the last read that
        succeeded. No handler leaves finalised samples without a running
        one. */
    ghost predicate EventDone(p: nat, v: Option<int>, lr0: nat, dead0: bool, t0: Tables, r: Result<MojoEvent, Fault>)
      reads this
      requires p < |mojo|
    {
      var (e, u, res) := ParseEventAt(mojo, p, v, dead0, t0);
      pos == e && TablesOf() == u && p < okPos && (lr0 == 1 ==> lastRead == 1) &&
      (r.Success? ==> res == Handled(r.value) && okPos == pos) &&
      (r.Failure? ==> res == if r.error == KeyErr then UnhandledEvent(mojo[p]) else InvalidBytes) &&
      (t0.running.Some? || t0.samples == [] ==> running.Some? || samples == [])
    }

    /** The `parse_*` handler of a tag, looked up in the handler table; a
        tag without one is a KeyError. */
    method Dispatch(tag: Byte) returns (r: Result<MojoEvent, Fault>)
      requires Resting() && okPos == pos
      modifies this`pos, this`offset, this`lastRead, this`lastBytes, this`okPos, this`intState, this`strLen, this`strDead, strBuf
      modifies this`frameMap, this`stringMap, this`running, this`metadata, this`samples
      ensures Resting()
      ensures Dispatched(old(pos), old(lastRead), old(strDead), old(TablesOf()), tag, r)
    {
      if tag == METADATA {
        r := ParseMetadata();
      } else if tag == STACK {
        r := ParseStack();
      } else if tag == FRAME {
        r := ParseFrame();
      } else if tag == FRAME_INVALID {
        r := Success(MojoSpecialFrame("INVALID"));
      } else if tag == FRAME_REF {
        r := ParseFrameRef();
      } else if tag == FRAME_KERNEL {
        r := ParseKernelFrame();
      } else {
        r := DispatchRest(tag);
      }
    }

    /** The handler table, from the GC tag on. */
    method DispatchRest(tag: Byte) returns (r: Result<MojoEvent, Fault>)
      requires Resting() && okPos == pos
      requires tag != METADATA && tag != STACK && tag != FRAME && tag != FRAME_INVALID && tag != FRAME_REF && tag != FRAME_KERNEL
      modifies this`pos, this`offset, this`lastRead, this`lastBytes, this`okPos, this`intState, this`strLen, this`strDead, strBuf
      modifies this`frameMap, this`stringMap, this`running, this`metadata, this`samples
      ensures Resting()
      ensures Dispatched(old(pos), old(lastRead), old(strDead), old(TablesOf()), tag, r)
    {
      if tag == GC {
        r := GetGc();
      } else if tag == IDLE {
        r := GetIdle();
      } else if tag == METRIC_TIME {
        r := ParseTimeMetric();
      } else if tag == METRIC_MEMORY {
        r := ParseMemoryMetric();
      } else if tag == STRING {
        r := ParseString();
      } else if tag == STRING_REF {
        r := ParseStringRef();
      } else {
        r := Failure(KeyErr);
      }
    }

    /** The `try` block of `parse_event` after the tag byte: the handler of
        the tag that was just read, with the outcome `ParseEventAt` gives
        it. */
    method HandleEvent(tag: Byte, ghost p: nat, ghost v: Option<int>, ghost lr0: nat, ghost dead0: bool, ghost t0: Tables, ghost lb0: seq<Byte>)
      returns (r: Result<MojoEvent, Fault>)
      requires Resting() && okPos == pos && p + 1 == pos && mojo[p] == tag
      requires v == version && lr0 == lastRead && dead0 == strDead && t0 == TablesOf()
      requires lastBytes == lb0 + mojo[p..pos]
      modifies this`pos, this`offset, this`lastRead, this`lastBytes, this`okPos, this`intState, this`strLen, this`strDead, strBuf
      modifies this`frameMap, this`stringMap, this`running, this`metadata, this`samples
      ensures Resting()
      ensures version == v && EventDone(p, v, lr0, dead0, t0, r)
      ensures r.Success? ==> strDead == dead0
      ensures lastBytes == lb0 + mojo[p..okPos]
    {
      r := Dispatch(tag);
      assert mojo[mark..okPos] == mojo[mark..p + 1] + mojo[p + 1..okPos];
      assert mojo[p..okPos] == mojo[p..p + 1] + mojo[p + 1..okPos];
    }

    // ------------------------------------------------------- parse_event

    /** `parse_event`: the tag byte, then its handler. A handled event
        carries the bytes read since the last event (or the header) and
        clears them; a KeyError becomes "Unhandled event" and any other
        failure an invalid byte sequence, both reporting the offset and the
        last read size, which after the one-byte reads of an event are the
        position of the last byte read and 1. */
    method ParseEvent() returns (r: Parsed)
      requires Valid()
      modifies this`pos, this`offset, this`lastRead, this`lastBytes, this`okPos, this`mark
      modifies this`intState, this`strLen, this`strDead, strBuf
      modifies this`frameMap, this`stringMap, this`running, this`metadata, this`samples
      ensures Valid()
      ensures var (end, t, res) := ParseEventAt(mojo, old(pos), old(version), old(strDead), old(TablesOf()));
        pos == end && TablesOf() == t &&
        (res.EndOfStream? <==> r == NoEvent) &&
        (res.Handled? ==> r == Event(res.event, old(lastBytes) + mojo[old(pos)..pos]) && lastBytes == []) &&
        (res.UnhandledEvent? ==> r == UnhandledError(res.tag, offset, lastRead)) &&
        (res.InvalidBytes? ==> r == ParseError(offset, lastRead))
      ensures r.Event? ==> strDead == old(strDead)
      ensures old(pos) < |mojo| ==>
        lastRead == 1 && old(pos) < okPos <= pos && offset == okPos - 1 &&
        (!r.Event? ==> lastBytes == old(lastBytes) + mojo[old(pos)..okPos])
    {
      ghost var p0, v0, dead0, t0, lb0 := pos, version, strDead, TablesOf(), lastBytes;
      var t := Read(1);
      if t.Failure? {
        return NoEvent;
      }
      r := ParseTagged(t.value[0], p0, v0, dead0, t0, lb0);
    }

    /** The rest of `parse_event` once the tag byte at `p0` has been read. */
    method ParseTagged(tag: Byte, ghost p0: nat, ghost v0: Option<int>, ghost dead0: bool, ghost t0: Tables, ghost lb0: seq<Byte>)
      returns (r: Parsed)
      requires Valid() && okPos == pos && p0 + 1 == pos && mojo[p0] == tag && lastRead == 1
      requires v0 == version && dead0 == strDead && t0 == TablesOf() && lastBytes == lb0 + mojo[p0..pos]
      modifies this`pos, this`offset, this`lastRead, this`lastBytes, this`okPos, this`mark
      modifies this`intState, this`strLen, this`strDead, strBuf
      modifies this`frameMap, this`stringMap, this`running, this`metadata, this`samples
      ensures Valid()
      ensures var (end, t, res) := ParseEventAt(mojo, p0, v0, dead0, t0);
        pos == end && TablesOf() == t && !res.EndOfStream? && r != NoEvent &&
        (res.Handled? ==> r == Event(res.event, lb0 + mojo[p0..pos]) && lastBytes == []) &&
        (res.UnhandledEvent? ==> r == UnhandledError(res.tag, offset, lastRead)) &&
        (res.InvalidBytes? ==> r == ParseError(offset, lastRead))
      ensures r.Event? ==> strDead == dead0
      ensures lastRead == 1 && p0 < okPos <= pos && offset == okPos - 1 &&
        (!r.Event? ==> lastBytes == lb0 + mojo[p0..okPos])
    {
      var res := HandleEvent(tag, p0, v0, lastRead, dead0, t0, lb0);
      match res
      case Success(ev) =>
        r := Event(ev, lastBytes);
        ghost var d1 := strDead;
        ClearLastBytes();
        assert strDead == d1 == dead0;
      case Failure(e) =>
        r := if e == KeyErr then UnhandledError(tag, offset, lastRead) else ParseError(offset, lastRead);
    }

    // ---------------------------------------------------------- __iter__

    /** The header part of `parse`: the MOJO marker and the version, whose
        bytes become `header`; a stream too short for either raises the
        short read error, and any other marker "Not a MOJO stream". */
    method ReadHeader() returns (error: Option<StreamError>)
      requires Valid() && version.None?
      modifies this`pos, this`offset, this`lastRead, this`lastBytes, this`okPos, this`mark, this`intState
      modifies this`version, this`header
      ensures Valid()
      ensures match HeaderAt(mojo, old(pos))
        case None => error.Some? && (error.value.NotMojo? || error.value.ShortHeader?) && version.None?
        case Some((v, len)) =>
          error.None? && version == Some(v) && lastBytes == [] && pos == old(pos) + len &&
          header == old(lastBytes) + mojo[old(pos)..old(pos) + len]
      ensures old(pos) + 3 <= |mojo| && mojo[old(pos)..old(pos) + 3] != MOJ ==> error == Some(NotMojo)
    {
      ghost var p0, lb0 := pos, lastBytes;
      var magic := Read(3);
      if magic.Failure? {
        error := Some(ShortHeader(offset));
      } else if magic.value != MOJ {
        error := Some(NotMojo);
      } else {
        error := ReadVersion(p0, lb0);
      }
    }

    /** The version after the marker, and the header bytes with it. */
    method ReadVersion(ghost p0: nat, ghost lb0: seq<Byte>) returns (error: Option<StreamError>)
      requires Valid() && version.None? && p0 + 3 == pos == okPos && mojo[p0..pos] == MOJ
      requires lastBytes == lb0 + mojo[p0..pos]
      modifies this`pos, this`offset, this`lastRead, this`lastBytes, this`okPos, this`mark, this`intState
      modifies this`version, this`header
      ensures Valid()
      ensures match HeaderAt(mojo, p0)
        case None => error.Some? && error.value.ShortHeader? && version.None?
        case Some((v, len)) =>
          error.None? && version == Some(v) && lastBytes == [] && pos == p0 + len &&
          header == lb0 + mojo[p0..p0 + len]
    {
      ghost var p1 := pos;
      var v := ReadInt();
      HeaderByScan(mojo, p0, p1, strDead, v, pos);
      if v.Failure? {
        error := Some(ShortHeader(offset));
      } else {
        ExtendGathered(mojo, lb0, mark, p0, p1, pos);
        version := Some(v.value);
        header := lastBytes;
        ClearLastBytes();
        error := None;
      }
    }

    /** `parse` and `__iter__`: the header is read unless it has been, then
        events until the end of the stream; a metadata event yields its
        AustinMetadata, a STACK yields the sample it has just finalised, and
        at the end the running sample is finalised and yielded. The
        iteration ends with the first error, which is returned. */
    method Iterate() returns (events: seq<Events.Event>, error: Option<StreamError>, ghost trace: seq<(Byte, seq<Field>)>, ghost start: nat)
      requires Valid()
      modifies this, strBuf
      ensures Valid()
      ensures old(version).Some? ==> version == old(version) && header == old(header)
      ensures old(version).None? ==>
        match HeaderAt(mojo, old(pos))
        case None => error.Some? && (error.value.NotMojo? || error.value.ShortHeader?) && trace == []
        case Some((v, len)) =>
          version == Some(v) && header == old(lastBytes) + mojo[old(pos)..old(pos) + len] && start == old(pos) + len
      ensures old(version).Some? ==> start == old(pos)
      ensures old(version).Some? || HeaderAt(mojo, old(pos)).Some? ==>
        TraceEnds(mojo, start, version, old(strDead), old(TablesOf()), trace, error)
      ensures old(version).None? && old(pos) + 3 <= |mojo| && mojo[old(pos)..old(pos) + 3] != MOJ ==>
        error == Some(NotMojo)
      ensures error.Some? && !error.value.EventError? ==> TablesOf() == old(TablesOf()) && events == []
      ensures error.Some? && error.value.EventError? ==>
        error.value.failure.UnhandledError? || error.value.failure.ParseError?
      ensures Iterated(old(TablesOf()), version, trace, events, error)
    {
      ghost var t0, d0 := TablesOf(), strDead;
      if version.None? {
        error := ReadHeader();
        assert TablesOf() == t0 && strDead == d0;
        if error.Some? {
          StoppedIterating(t0, version, [], [], error);
          return [], error, [], pos;
        }
      }
      ghost var ver := version;
      start := pos;
      events, error, trace := ReadEvents(ver);
      assert Iterated(t0, ver, trace, events, error);
    }

    /** The body of the loop of `__iter__`: a metadata event is yielded as
        it is, and a STACK yields the last finalised sample, if any. */
    method AustinEvents(ev: MojoEvent) returns (out: seq<Events.Event>)
      ensures out == YieldOf(TablesOf(), ev)
      ensures |out| <= 1
    {
      out := [];
      if ev.MojoMetadata? {
        out := [Events.MetadataEvent(ev.key, ev.value)];
      } else if ev.MojoStack? && samples != [] {
        out := [Events.SampleEvent(samples[|samples| - 1])];
      }
    }

    /** What iteration from the tables `t0` has done once it ends: the
        handled events `trace` have left the tables their handlers give,
        with the running sample finalised if the stream was read to its
        end; `events` are what they yield, with that last sample; and the
        samples yielded are exactly those appended, in order. */
    ghost predicate Iterated(t0: Tables, ver: Option<int>, trace: seq<(Byte, seq<Field>)>, events: seq<Events.Event>, error: Option<StreamError>)
      reads this
    {
      var t := RunSteps(t0, ver, trace);
      TablesOf() == (if error.None? then Finish(t) else t) &&
      events == Yields(t0, ver, trace) +
        (if error.None? && t.running.Some? then [Events.SampleEvent(FinalSample(t.running.value))] else []) &&
      (error.None? ==> pos == |mojo| && running.None?) &&
      |t0.samples| <= |samples| && samples[..|t0.samples|] == t0.samples &&
      SamplesOf(events) == samples[|t0.samples|..]
    }

    /** Iteration that stops at an event that is not handled keeps the
        tables that event found. */
    lemma StoppedIterating(t0: Tables, ver: Option<int>, trace: seq<(Byte, seq<Field>)>, events: seq<Events.Event>, error: Option<StreamError>)
      requires error.Some? && TablesOf() == RunSteps(t0, ver, trace) && events == Yields(t0, ver, trace)
      requires trace != [] ==> t0.running.Some? || t0.samples == []
      requires trace == [] ==> TablesOf() == t0
      ensures Iterated(t0, ver, trace, events, error)
    {
      EmittedOnce(t0, ver, trace, TablesOf(), events, false);
      assert events + [] == events;
    }

    /** The end of `__iter__` at the end of the stream: the running sample,
        if any, is finalised and yielded. */
    method FinishIterating(ghost ver: Option<int>, ghost t0: Tables, ghost trace: seq<(Byte, seq<Field>)>, ghost events: seq<Events.Event>)
      returns (last: seq<Events.Event>)
      requires Valid() && pos == |mojo| && TablesOf() == RunSteps(t0, ver, trace) && events == Yields(t0, ver, trace)
      requires trace != [] ==> t0.running.Some? || t0.samples == []
      requires trace == [] ==> TablesOf() == t0
      modifies this`running, this`samples
      ensures Valid() && Iterated(t0, ver, trace, events + last, None)
    {
      ghost var t := TablesOf();
      last := [];
      if running.Some? {
        var s := FinalizeSample();
        last := [Events.SampleEvent(s)];
      }
      EmittedOnce(t0, ver, trace, t, events + last, true);
    }

    /** Between two events of the loop of `__iter__`: the handled events
        `trace`, read from `p0` with the tables `t0`, have left the tables
        their handlers give, and what they yield is `events`. */
    ghost predicate Between(ver: Option<int>, t0: Tables, p0: nat, d0: bool, trace: seq<(Byte, seq<Field>)>, events: seq<Events.Event>)
      reads this
    {
      Valid() && version == ver && strDead == d0 &&
      TraceFrom(mojo, p0, ver, d0, t0, trace, pos, TablesOf()) &&
      TablesOf() == RunSteps(t0, ver, trace) &&
      events == Yields(t0, ver, trace) &&
      (trace != [] ==> t0.running.Some? || t0.samples == []) &&
      (trace == [] ==> TablesOf() == t0)
    }

    /** One turn of the loop of `__iter__`: the next event, and what a
        handled one yields. An event that is not handled ends the reading
        of the stream, with the tables as they were. */
    method NextEvent(ghost ver: Option<int>, ghost t0: Tables, ghost p0: nat, ghost d0: bool, ghost trace: seq<(Byte, seq<Field>)>, ghost events: seq<Events.Event>)
      returns (e: Parsed, out: seq<Events.Event>, ghost step: (Byte, seq<Field>))
      requires Between(ver, t0, p0, d0, trace, events)
      modifies this`pos, this`offset, this`lastRead, this`lastBytes, this`okPos, this`mark
      modifies this`intState, this`strLen, this`strDead, strBuf
      modifies this`frameMap, this`stringMap, this`running, this`metadata, this`samples
      ensures e.Event? ==> Between(ver, t0, p0, d0, trace + [step], events + out) && old(pos) < pos
      ensures !e.Event? ==>
        Valid() && version == ver && TablesOf() == RunSteps(t0, ver, trace) &&
        (trace == [] ==> TablesOf() == t0) &&
        (e.NoEvent? || e.UnhandledError? || e.ParseError?) && (e.NoEvent? ==> pos == |mojo|) &&
        EventTrace(mojo, p0, ver, d0, t0).0 == trace &&
        EndedAs(EventTrace(mojo, p0, ver, d0, t0).1, if e.NoEvent? then None else Some(EventError(e)))
    {
      ghost var p, before := pos, TablesOf();
      e := ParseEvent();
      if !e.Event? {
        TraceEnd(mojo, p0, ver, d0, t0, trace, p, before);
        return e, [], (0, []);
      }
      var ev := e.event;
      step := (mojo[p], EventFields(mojo, p, ver, d0));
      Advance(mojo, p, ver, d0, t0, trace, before, pos, TablesOf(), ev, step);
      TraceStep(mojo, p0, ver, d0, t0, trace, p, before);
      StepResting(before, ver, step.0, step.1);
      out := AustinEvents(ev);
    }

    /** The event loop of `__iter__`, once the version is known. */
    method ReadEvents(ghost ver: Option<int>) returns (events: seq<Events.Event>, error: Option<StreamError>, ghost trace: seq<(Byte, seq<Field>)>)
      requires Valid() && version == ver && ver.Some?
      modifies this`pos, this`offset, this`lastRead, this`lastBytes, this`okPos, this`mark
      modifies this`intState, this`strLen, this`strDead, strBuf
      modifies this`frameMap, this`stringMap, this`running, this`metadata, this`samples
      ensures Valid()
      ensures error.Some? ==>
        error.value.EventError? && (error.value.failure.UnhandledError? || error.value.failure.ParseError?)
      ensures TraceEnds(mojo, old(pos), ver, old(strDead), old(TablesOf()), trace, error)
      ensures Iterated(old(TablesOf()), ver, trace, events, error)
    {
      ghost var t0, p0, d0 := TablesOf(), pos, strDead;
      events, error, trace := [], None, [];
      TraceStart(mojo, p0, ver, d0, t0);
      while true
        invariant Between(ver, t0, p0, d0, trace, events)
        decreases |mojo| - pos
      {
        var e, out, step := NextEvent(ver, t0, p0, d0, trace, events);
        if e.NoEvent? {
          break;
        }
        if !e.Event? {
          error := Some(EventError(e));
          StoppedIterating(t0, ver, trace, events, error);
          return;
        }
        events := events + out;
        trace := trace + [step];
      }
      var last := FinishIterating(ver, t0, trace, events);
      events := events + last;
    }
  }

  /** One more handled event extends the trace: the tables are those the
      event's handler leaves, and iteration yields what it yields. */
  lemma Advance(
    bs: seq<Byte>, p: nat, version: Option<int>, dead: bool, t0: Tables, trace: seq<(Byte, seq<Field>)>,
    before: Tables, end: nat, u: Tables, ev: MojoEvent, step: (Byte, seq<Field>))
    requires p < |bs| && before == RunSteps(t0, version, trace)
    requires ParseEventAt(bs, p, version, dead, before) == (end, u, Handled(ev))
    requires step == (bs[p], EventFields(bs, p, version, dead))
    ensures RunSteps(t0, version, trace + [step]) == u
    ensures Yields(t0, version, trace + [step]) == Yields(t0, version, trace) + YieldOf(u, ev)
  {
    EventStep(bs, p, version, dead, before);
    RunStepsSnoc(t0, version, trace, step);
    YieldsSnoc(t0, version, trace, step);
  }

  /** A handled event keeps samples from existing without a running sample. */
  lemma StepResting(t: Tables, version: Option<int>, tag: Byte, f: seq<Field>)
    requires t.running.Some? || t.samples == []
    ensures var u := Step(t, version, tag, f).0; u.running.Some? || u.samples == []
  {
    StepSamples(t, version, tag, f);
  }

  /** The samples iteration yields are exactly the samples it appends, each
      once and in order, whether it ran to the end of the stream (and
      finalised the running sample) or stopped at an error. */
  lemma EmittedOnce(t0: Tables, version: Option<int>, trace: seq<(Byte, seq<Field>)>, t: Tables, events: seq<Events.Event>, finish: bool)
    requires t == RunSteps(t0, version, trace)
    requires trace != [] ==> t0.running.Some? || t0.samples == []
    requires trace == [] ==> t == t0
    requires events == Yields(t0, version, trace) +
      (if finish && t.running.Some? then [Events.SampleEvent(FinalSample(t.running.value))] else [])
    ensures var f := if finish then Finish(t) else t;
      |t0.samples| <= |f.samples| && f.samples[..|t0.samples|] == t0.samples &&
      SamplesOf(events) == f.samples[|t0.samples|..]
  {
    var f := if finish then Finish(t) else t;
    var tail := if finish && t.running.Some? then [Events.SampleEvent(FinalSample(t.running.value))] else [];
    SamplesOfAppend(Yields(t0, version, trace), tail);
    if trace == [] {
      assert Yields(t0, version, trace) == [];
      assert f.samples[|t0.samples|..] == SamplesOf(tail);
    } else {
      YieldsExactlyOnce(t0, version, trace);
      assert f.samples[|t0.samples|..] == t.samples[|t0.samples|..] + SamplesOf(tail);
    }
  }

  /** The positions of the STACK events of a run, in order. */
  function Stacks(trace: seq<(Byte, seq<Field>)>): (r: seq<nat>)
    ensures forall k :: 0 <= k < |r| ==> r[k] < |trace| && trace[r[k]].0 == STACK
    ensures forall k, l :: 0 <= k < l < |r| ==> r[k] < r[l]
    ensures forall j :: 0 <= j < |trace| && trace[j].0 == STACK ==> j in r
    decreases |trace|
  {
    if trace == [] then []
    else
      var n := |trace| - 1;
      Stacks(trace[..n]) + (if trace[n].0 == STACK then [n] else [])
  }

  /** Where the sample opened by the `i`-th STACK stops growing: at the
      next STACK, or at the end of the run. */
  function SampleEnd(stacks: seq<nat>, i: nat, n: nat): nat {
    if i + 1 < |stacks| then stacks[i + 1] else n
  }

  /** The sample the `i`-th STACK opened, as it stands after the first `k`
      events: it is running there. */
  ghost predicate OpenedAs(t: Tables, version: Option<int>, trace: seq<(Byte, seq<Field>)>, k: nat, s: Events.Sample)
    requires k <= |trace|
  {
    var u := RunSteps(t, version, trace[..k]);
    u.running.Some? && s == FinalSample(u.running.value)
  }

  /** `ws` are the samples the STACKs at `stacks` finalised: each one
      finalises the sample the STACK before it opened. */
  ghost predicate Opened(t: Tables, version: Option<int>, trace: seq<(Byte, seq<Field>)>, stacks: seq<nat>, ws: seq<Events.Sample>)
  {
    |ws| + 1 == |stacks| &&
    forall k :: 0 <= k < |ws| ==> FinalisedAt(t, version, trace, stacks, ws, k)
  }

  /** The `k`-th of `ws` is the sample the STACK at `stacks[k]` opened, as
      the STACK at `stacks[k + 1]` finalised it. */
  ghost predicate FinalisedAt(t: Tables, version: Option<int>, trace: seq<(Byte, seq<Field>)>, stacks: seq<nat>, ws: seq<Events.Sample>, k: int)
  {
    0 <= k < |ws| && k + 1 < |stacks| && stacks[k + 1] <= |trace| && OpenedAs(t, version, trace, stacks[k + 1], ws[k])
  }

  /** The samples a run has finalised, from a start with no running
      sample: none before the first STACK, and after it one per later
      STACK, each the sample the STACK before it opened. */
  ghost predicate FinalisedBy(t: Tables, version: Option<int>, trace: seq<(Byte, seq<Field>)>, u: Tables)
  {
    var S := Stacks(trace);
    (S == [] <==> u.running.None?) &&
    |t.samples| <= |u.samples| && u.samples[..|t.samples|] == t.samples &&
    (S == [] ==> |u.samples| == |t.samples|) &&
    (S != [] ==> Opened(t, version, trace, S, u.samples[|t.samples|..]))
  }

  lemma {:induction false} FinalisedSamples(t: Tables, version: Option<int>, trace: seq<(Byte, seq<Field>)>)
    requires t.running.None?
    ensures FinalisedBy(t, version, trace, RunSteps(t, version, trace))
    decreases |trace|
  {
    if trace == [] {
      assert t.samples[..|t.samples|] == t.samples;
    } else {
      var n := |trace| - 1;
      var pre, e := trace[..n], trace[n];
      assert trace == pre + [e];
      FinalisedSamples(t, version, pre);
      RunStepsSnoc(t, version, pre, e);
      var v := RunSteps(t, version, pre);
      StepSamples(v, version, e.0, e.1);
      if e.0 == STACK {
        assert Heads(version, [e]) != [];
        SnocStack(t, version, pre, e, v);
      } else {
        SnocOther(t, version, pre, e, v);
      }
    }
  }

  /** The sample a STACK opened stays as it was once more events follow. */
  lemma OpenedPrefix(t: Tables, version: Option<int>, pre: seq<(Byte, seq<Field>)>, e: (Byte, seq<Field>), j: nat, s: Events.Sample)
    requires j <= |pre| && OpenedAs(t, version, pre, j, s)
    ensures OpenedAs(t, version, pre + [e], j, s)
  {
    assert (pre + [e])[..j] == pre[..j];
  }

  lemma OpenedSnoc(t: Tables, version: Option<int>, pre: seq<(Byte, seq<Field>)>, e: (Byte, seq<Field>), S: seq<nat>, ws: seq<Events.Sample>)
    requires Opened(t, version, pre, S, ws)
    ensures Opened(t, version, pre + [e], S, ws)
  {
    forall k | 0 <= k < |ws|
      ensures FinalisedAt(t, version, pre + [e], S, ws, k)
    {
      assert FinalisedAt(t, version, pre, S, ws, k);
      OpenedPrefix(t, version, pre, e, S[k + 1], ws[k]);
    }
  }


  /** An event other than STACK finalises nothing and keeps the running
      sample running. */
  lemma SnocOther(t: Tables, version: Option<int>, pre: seq<(Byte, seq<Field>)>, e: (Byte, seq<Field>), v: Tables)
    requires e.0 != STACK && FinalisedBy(t, version, pre, v)
    requires var u := Step(v, version, e.0, e.1).0;
      u.samples == v.samples && RunningIds(u) == RunningIds(v)
    ensures FinalisedBy(t, version, pre + [e], Step(v, version, e.0, e.1).0)
  {
    var trace := pre + [e];
    assert trace[..|pre|] == pre;
    assert Stacks(trace) == Stacks(pre);
    if Stacks(pre) != [] {
      OpenedSnoc(t, version, pre, e, Stacks(pre), v.samples[|t.samples|..]);
    }
  }

  /** A STACK finalises the running sample, if there is one, as it stands
      after the events before it, and opens a new one. */
  lemma SnocStack(t: Tables, version: Option<int>, pre: seq<(Byte, seq<Field>)>, e: (Byte, seq<Field>), v: Tables)
    requires e.0 == STACK && FinalisedBy(t, version, pre, v) && v == RunSteps(t, version, pre)
    requires var u := Step(v, version, e.0, e.1).0;
      u.samples == v.samples + (if v.running.Some? then [FinalSample(v.running.value)] else []) &&
      u.running.Some?
    ensures FinalisedBy(t, version, pre + [e], Step(v, version, e.0, e.1).0)
  {
    var trace := pre + [e];
    var n := |pre|;
    assert trace[..n] == pre;
    var S := Stacks(pre);
    assert Stacks(trace) == S + [n];
    var u := Step(v, version, e.0, e.1).0;
    var m := |t.samples|;
    assert u.samples[..m] == t.samples;
    if S == [] {
      assert u.samples[m..] == [];
    } else {
      var ws := v.samples[m..];
      OpenedSnoc(t, version, pre, e, S, ws);
      assert u.samples[m..] == ws + [FinalSample(v.running.value)];
      assert trace[..n] == pre;
      assert OpenedAs(t, version, trace, n, FinalSample(v.running.value));
      OpenedLast(t, version, trace, S, ws, n, FinalSample(v.running.value));
    }
  }

  lemma OpenedLast(t: Tables, version: Option<int>, trace: seq<(Byte, seq<Field>)>, S: seq<nat>, ws: seq<Events.Sample>, n: nat, s: Events.Sample)
    requires Opened(t, version, trace, S, ws) && n <= |trace| && OpenedAs(t, version, trace, n, s)
    ensures Opened(t, version, trace, S + [n], ws + [s])
  {
    var S', ws' := S + [n], ws + [s];
    forall k | 0 <= k < |ws'|
      ensures FinalisedAt(t, version, trace, S', ws', k)
    {
      if k < |ws| {
        assert FinalisedAt(t, version, trace, S, ws, k);
        assert S'[k + 1] == S[k + 1] && ws'[k] == ws[k];
      }
    }
  }

  /** The samples finalised once the stream has ended, from an empty
      start: the `i`-th is the one the `i`-th STACK opened, as it stood
      when the next STACK, or the end, finalised it. */
  lemma FinishedSamples(t: Tables, version: Option<int>, trace: seq<(Byte, seq<Field>)>)
    requires t.running.None? && t.samples == []
    ensures var S, w := Stacks(trace), Finish(RunSteps(t, version, trace)).samples;
      |w| == |S| && forall i :: 0 <= i < |S| ==> OpenedAs(t, version, trace, SampleEnd(S, i, |trace|), w[i])
  {
    var S, u := Stacks(trace), RunSteps(t, version, trace);
    FinalisedSamples(t, version, trace);
    var w := Finish(u).samples;
    assert u.samples[|t.samples|..] == u.samples;
    forall i | 0 <= i < |S|
      ensures OpenedAs(t, version, trace, SampleEnd(S, i, |trace|), w[i])
    {
      if i + 1 == |S| {
        assert trace[..|trace|] == trace;
        assert w[i] == FinalSample(u.running.value);
      } else {
        assert FinalisedAt(t, version, trace, S, u.samples, i);
        assert w[i] == u.samples[i];
      }
    }
  }

  /** What iteration yields from the start of a stream, sample by sample:
      the `i`-th sample is the one the `i`-th STACK of the run opened, with
      that STACK's pid and thread, as it stood when the next STACK (or the
      end of the stream) finalised it. */
  lemma YieldedSamples(t: Tables, version: Option<int>, trace: seq<(Byte, seq<Field>)>, events: seq<Events.Event>)
    requires t.running.None? && t.samples == []
    requires var u := RunSteps(t, version, trace);
      events == Yields(t, version, trace) + (if u.running.Some? then [Events.SampleEvent(FinalSample(u.running.value))] else [])
    ensures var S, ys := Stacks(trace), SamplesOf(events);
      |ys| == |S| == |Heads(version, trace)| &&
      forall i :: 0 <= i < |S| ==>
        (ys[i].pid, ys[i].thread) == Heads(version, trace)[i] &&
        OpenedAs(t, version, trace, SampleEnd(S, i, |trace|), ys[i])
  {
    var u := RunSteps(t, version, trace);
    var w := Finish(u).samples;
    EmittedOnce(t, version, trace, u, events, true);
    EmissionOrder(t, version, trace);
    assert w[|t.samples|..] == w;
    assert SamplesOf(events) == w;
    assert SampleIds(w) == Heads(version, trace);
    FinishedSamples(t, version, trace);
  }
}
