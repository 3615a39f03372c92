# austin-python, modelled in Dafny

This project models the core of austin-python, the Python companion library
of the Austin frame-stack sampler, and proves properties of that model.

- **MOJO decoding** (`varint.dfy`, `mojo.dfy`, `mojo_stream.dfy`). The
  `to_varint` encoder and the `int_reader` generator form a proved round
  trip. `MojoStreamReader` is a class over the byte stream. It keeps the
  cursor, `_offset`, `_last_read`, `_last_bytes`, the per-process string
  and frame tables, the running sample, the metadata and the finalised
  samples as fields. Every handler and `parse_*` method is proved against a
  function on those tables. Iteration is proved to yield every sample
  exactly once, in stream order, built from the events between its STACK
  and the next.
- **Statistics** (`stats.dfy`). The `HierarchicalStats` tree merge (`<<`)
  is modelled, together with `AustinStats.update`, `get_process`,
  `get_thread` and `load`, the `collapse` text and the lines `dump`
  writes. Every tree that `update` builds keeps
  total == own + the sum of the child totals, and merging preserves this.
- **Samples and formats**:
  - `events.dfy`: sample keys;
  - `format.dfy`: modes;
  - `collapsed_stack.dfy`: the collapsed-stack parser, formatter and file reader;
  - `compress.dfy`: compression by sample key;
  - `speedscope.dfy`, `sorting.dfy` and `pprof.dfy`: the interning tables of the
    speedscope and pprof generators, over the sample record they assume
    (Events.SourceSample; see "Left out").
- **Tools and the command line**:
  - `resolve.dfy`: Cython demangling and the memory-map bookkeeping of the resolver;
  - `cli.dfy`: the time-unit parser, the constructor and `parse_args` checks, and `to_list`;
  - `semver.dfy`, `austin_init.dfy` and `base.dfy`: version parsing, exit codes and the
    state of the Austin wrappers.

Python's own string and integer builtins are modelled in `text.dfy`, and
Option/Result in `wrappers.dfy`. Dicts, which Python iterates in insertion
order, are modelled as maps plus a key sequence, or as sequences of pairs,
wherever the order shows in the output.

## Model

| member | source | states |
|---|---|---|
| Events.MakeFrame | austin/events.py:12-21 | a frame built from filename, function and line carries them and leaves line end, column and column end unset |
| Events.SampleKey | austin/events.py:68-79 | the key keeps everything but the metrics: rebuilding a sample from its key and its own metrics gives the sample back |
| Events.FromKeyAndMetricsKey | austin/events.py:81-94 | `from_key_and_metrics` then `key` gives the key back, and the new sample carries exactly the metrics passed |
| Events.KeyIgnoresMetrics | austin/events.py:68-79 | two samples have equal keys exactly when they differ at most in their metrics |
| Format.FromMetadata | austin/format/__init__.py:12-20 | a mode is found exactly for "cpu", "wall", "memory" and "full" (any other string is the KeyError), and the found mode's name is the string looked up |
| Format.FromMetadataName | austin/format/__init__.py:12-20 | looking up a mode's own name gives that mode |
| Format.ModeValueInjective | austin/format/__init__.py:4-10 | the four modes have distinct values below 4 |
| SemVer.ReplaceQuestion | austin/__init__.py:67 | every '?' becomes '0', every other character is kept, and the length is unchanged |
| SemVer.TakeVersion | austin/__init__.py:65-68 | the result is the longest prefix of digits and dots: a prefix, all digits or dots, and followed by neither |
| SemVer.ParseParts | austin/__init__.py:61-70 | succeeds exactly when every part reads as an integer, and then holds those integers in order |
| SemVer.ToSemVer | austin/__init__.py:56-75 | None gives (0, 0, 0) |
| SemVer.InvalidIffEmptyPart | austin/__init__.py:56-75 | the ValueError is raised exactly when some dot-separated piece of the kept prefix is empty |
| SemVer.PartsAreDigits | austin/__init__.py:62-70 | every piece between dots is a string of digits |
| SemVer.ComponentsInOrder | austin/__init__.py:60-73 | major, minor and patch are the first three pieces read as numbers, with zeros for missing pieces and anything past the third dropped |
| SemVer.QuestionIsZero | austin/__init__.py:67 | a version with '?' reads the same as the version with '0' in its place |
| SemVer.StopsAtOtherCharacter | austin/__init__.py:65-68 | reading stops at the first character that is not a digit, a dot or '?'; everything after it is ignored |
| SemVer.TakePrefix | austin/__init__.py:65-68 | a prefix of digits and dots followed by something else is exactly what takewhile keeps |
| SemVer.PlainVersionParts | austin/__init__.py:62-70 | digit strings joined by dots split back into the same strings |
| SemVer.ShortVersionPadded | austin/__init__.py:71-73 | "3.1" reads as (3, 1, 0) |
| SemVer.DoubleDotInvalid | austin/__init__.py:74-75 | "3..1" raises |
| Austin.CheckExit | austin/__init__.py:242-247 | zero passes; -15, 15 and 241 raise AustinTerminated; any other non-zero code raises an AustinError that carries the code |
| Austin.CheckVersion | austin/__init__.py:249-258 | passes exactly when the "austin" metadata reads as a version of at least 3.0.0; an unreadable version raises, and an older one raises Incompatible with that version |
| Austin.MissingVersionIncompatible | austin/__init__.py:322-325 | without "austin" metadata the version is 0.0.0 and the check reports it as incompatible (the None branch is never taken) |
| Austin.MajorDecides | austin/__init__.py:108 | a version is below 3.0.0 exactly when its major number is below 3 |
| Base.New | austin/base.py:107-135 | construction fails exactly when there is no sample callback and no `on_sample` method; otherwise the state is NOT_STARTED, the metadata is empty and no version is cached |
| Base.NewNotRunning | austin/base.py:153-155 | a freshly constructed object is not running and its state has value 0 |
| Base.StateValueInjective | austin/base.py:75-82 | the five states have distinct values from 0 to 4 |
| Base.ReadVersion | austin/base.py:219-225 | the `version` cached property: a cached version is returned with nothing changed; otherwise the "austin" metadata is read (0.0.0 when absent), and only a readable version is cached; metadata and state are untouched |
| Base.CheckVersion | austin/base.py:174-182 | reads `version` through the cache and passes exactly when it is a version of at least 4.0.0; an unreadable version raises, and an older one raises Incompatible with that version; with nothing cached, this is the metadata's version |
| Base.VersionCached | austin/base.py:219-225 | once `version` has been read, later reads give the same version and change nothing, whatever the metadata has become |
| Base.EarlyReadRefused | austin/base.py:174-182 | a `version` read before the "austin" metadata arrives caches 0.0.0, so a later `_check_version` raises Incompatible whatever version the metadata then holds |
| Base.NewerMinimum | austin/base.py:104 | every version accepted here is also accepted by the older check in austin/__init__.py, and every 3.x version passes there but fails here |
| Sorting.Sort | austin/format/speedscope.py:156-159 | the sorted list is a permutation of its input |
| Sorting.SortCorrect | austin/format/speedscope.py:156-159 | `sorted` by name gives a list ordered by key that is a permutation of the input, and elements with equal keys keep their input order (stability) |
| Sorting.InsertSorted | austin/format/speedscope.py:156-159 | inserting into a sorted list keeps it sorted |
| Sorting.InsertKeepsOrder | austin/format/speedscope.py:156-159 | inserting places the new element just before the elements that already had its key, which keeps equal keys in input order once the sort inserts from the back |
| MojoVarint.EncodeTail | austin/format/mojo.py:35-40 | the continuation groups are empty exactly for a zero remainder, and every group but the last has its high bit set |
| MojoVarint.ToVarint | austin/format/mojo.py:18-42 | the byte-building loop of `to_varint` produces exactly the encoding `Encode(n)` about which the layout and round-trip lemmas are proved |
| MojoVarint.EncodeLayout | austin/format/mojo.py:18-42 | an encoding is never empty, its first byte carries the sign in bit 6 and the low six bits of the magnitude, and only its last byte lacks the continuation bit |
| MojoVarint.EncodeTailValue | austin/format/mojo.py:35-40 | the seven-bit groups emitted after the first byte add back up to the shifted magnitude |
| MojoVarint.VarintAt | austin/format/mojo.py:201-212 | a varint found at a position ends at the first byte without the continuation bit, and its value is the one those bytes spell |
| MojoVarint.VarintEnd | austin/format/mojo.py:208-211 | the end found is the first byte at or after the position whose continuation bit is clear |
| MojoVarint.VarintEndSpan | austin/format/mojo.py:208-211 | every byte before the end found carries the continuation bit, and when no end is found every remaining byte does |
| MojoVarint.VarintEndAt | austin/format/mojo.py:208-211 | the first byte with a clear continuation bit is the end found |
| MojoVarint.VarintEndNone | austin/format/mojo.py:208-211 | when every remaining byte continues, no varint end is found |
| MojoVarint.EncodeRoundTrip | austin/format/mojo.py:18-42 | decoding `to_varint(n)` followed by any bytes gives back n and consumes exactly the encoding |
| MojoVarint.FeedIntStep | austin/format/mojo.py:208-212 | feeding one more byte to a partly read integer either keeps reading or yields the value of all bytes fed so far |
| MojoVarint.FeedIntFirst | austin/format/mojo.py:202-207 | feeding the first byte to a fresh integer reader either keeps reading or yields the value of that single byte |
| MojoVarint.FeedIntAt | austin/format/mojo.py:202-212 | at every byte of a varint inside a stream the generator state is the partial value of the bytes read so far, and the last byte yields the whole value |
| MojoVarint.FeedRest | austin/format/mojo.py:208-212 | feeding the remaining continuation bytes and a final byte yields exactly one value and a fresh reader |
| MojoVarint.IntReaderRoundTrip | austin/format/mojo.py:18-42 | the `int_reader` generator fed the bytes of `to_varint(n)` yields exactly n once and is ready for the next integer |
| Mojo.Decode | austin/format/mojo.py:222 | the decoded string has one character per byte, each with the byte's code |
| Mojo.FinalSample | austin/format/mojo.py:301-332 | the finalised sample has frames exactly when the running sample collected some, each converted in order, and carries the collected metrics and identity |
| Mojo.Finalize | austin/format/mojo.py:301-336 | finalising appends the running sample to the samples, clears the running sample and changes nothing else |
| Mojo.Ref | austin/format/mojo.py:269-277 | a reference key is the running sample's pid paired with n, and fails with an assertion error when no sample is running |
| Mojo.LookupString | austin/format/mojo.py:347-348 | index 1 is the UNKNOWN string; otherwise the lookup needs a running sample and fails with a key error when the string was never interned for that pid |
| Mojo.Kinds | austin/format/mojo.py:458-538 | only tags 1 to 12 have handlers (a key error otherwise), and the stack handler fails its version assertion when no version was read |
| Mojo.StrFrom | austin/format/mojo.py:215-227 | a string read ends at the first zero byte and holds at most 1024 bytes; a longer one overflows the buffer, and a stream without a zero byte runs short |
| Mojo.StrFromNonZero | austin/format/mojo.py:221-227 | every byte the string reader stores before stopping is non-zero |
| Mojo.ScanOne | austin/format/mojo.py:447-456 | reading one field consumes at least one byte and yields an integer for an integer field and a string for a string field; its failures are short reads or buffer overflows |
| Mojo.ScanIntEnd | austin/format/mojo.py:447-450 | an integer field ends at the first byte without the continuation bit and has the value of the bytes read |
| Mojo.ScanIntNone | austin/format/mojo.py:447-450 | an integer field that never ends runs short at the end of the stream |
| Mojo.ScanFields | austin/format/mojo.py:459-538 | reading a handler's fields either yields one value per field or stops at a read fault |
| Mojo.HandlerOutcome | austin/format/mojo.py:540-558 | a failing handler leaves the tables as they were, and a stream with a running sample or no samples keeps that shape |
| Mojo.RunHandler | austin/format/mojo.py:548 | dispatching to a handler preserves the failure-changes-nothing and running-sample shape properties |
| Mojo.ParseEventAt | austin/format/mojo.py:540-558 | parsing an event consumes at least one byte unless the stream is over, reports end of stream exactly at the end, and changes the tables only when the event is handled |
| Mojo.VersionGating | austin/format/mojo.py:464-490 | version 1 frames carry four integers and no line end or columns, later versions seven with all three set; a stack carries an interpreter id exactly when the version is at least 3 |
| Mojo.StringInterning | austin/format/mojo.py:347-348 | after a string is registered, looking up its key yields it, index 1 still yields UNKNOWN, and every other lookup is unchanged |
| Mojo.NeedsRunningSample | austin/format/mojo.py:373-428 | without a running sample the string, string reference, frame, frame reference, metric, idle and gc handlers all fail their assertion and change nothing |
| Mojo.FrameRefAppends | austin/format/mojo.py:350-380 | a frame registered and then referenced is appended to the running sample's frames |
| Mojo.Accumulation | austin/format/mojo.py:386-418 | gc and idle mark the running sample, and a later metric of a type overrides an earlier one without touching the other type or the frames |
| Mojo.MetadataLastWins | austin/format/mojo.py:293-299 | the last value given for a metadata key wins and other keys are untouched |
| Mojo.FailureChangesNothing | austin/format/mojo.py:540-558 | a handler that fails leaves all reader state unchanged |
| Mojo.SampleIds | austin/format/mojo.py:301-336 | one (pid and thread) pair per sample |
| Mojo.SampleIdsAppend | austin/format/mojo.py:305 | the ids of appended samples are the ids of each part in order |
| Mojo.Step | austin/format/mojo.py:540-558 | a tag without a handler raises a key error and changes nothing; invalid and kernel frames always succeed and change nothing |
| Mojo.StepSamples | austin/format/mojo.py:338-345 | only a stack event finalises a sample (the running one, if any) and opens a new running sample with the stack's pid and thread |
| Mojo.EmissionOrder | austin/format/mojo.py:338-345 | after a run of events and the final flush the new samples appear in the order their stacks were read, starting with any sample already running |
| Mojo.FinishIds | austin/format/mojo.py:596-597 | the final flush adds exactly the running sample, if any |
| Mojo.EmissionCons | austin/format/mojo.py:338-345 | one step followed by the rest emits the step's samples before the rest's |
| Mojo.PrefixIds | austin/format/mojo.py:305 | splitting the sample list after a prefix keeps the order of ids |
| Mojo.SampleCount | austin/format/mojo.py:338-345 | starting with no running sample, the samples after a run and the final flush are exactly one per stack event |
| Mojo.HeadsCount | austin/format/mojo.py:464-471 | one head per stack event in the trace |
| Mojo.SamplesOfAppend | austin/format/mojo.py:588-597 | the samples of concatenated event lists are the samples of each part in order |
| Mojo.YieldsExactlyOnce | austin/format/mojo.py:588-595 | the samples yielded while iterating are exactly the samples finalised during the run, each once and in order |
| Mojo.YieldsCons | austin/format/mojo.py:588-595 | one event followed by the rest yields the event's sample before the rest's |
| Mojo.PrefixSamples | austin/format/mojo.py:305 | splitting the sample list after a prefix keeps the order of samples |
| Mojo.StackYields | austin/format/mojo.py:593-595 | a stack event yields the last finalised sample, or nothing when none has been finalised |
| Mojo.NonStackYieldsNoSample | austin/format/mojo.py:590-595 | no event other than a stack yields a sample |
| MojoStream.EventStep | austin/format/mojo.py:540-551 | a handled event is the step function applied to the fields it read |
| MojoStream.HeaderByScan | austin/format/mojo.py:566-571 | the header is MOJ followed by a varint version, and a header whose version cannot be read is not a header |
| MojoStream.HandlerRead | austin/format/mojo.py:548 | a handler whose fields read fail reports the read fault and changes nothing, otherwise it is the step on the values read |
| MojoStream.StepIsStack | austin/format/mojo.py:463-471 | a stack reads pid, then interpreter id from version 3 on, then thread name |
| MojoStream.StepIsString | austin/format/mojo.py:530-533 | a string event registers the key read and the string read |
| MojoStream.StepIsFrame | austin/format/mojo.py:473-490 | a frame reads key, filename and scope indices and line, and from version 2 on line end, column and column end |
| MojoStream.StrStop | austin/format/mojo.py:452-456 | the buffered string reader agrees with the specification of string reads: success at a zero byte, an overflow after 1024 bytes, a short read at the end |
| MojoStream.StackKinds | austin/format/mojo.py:463-471 | the fields of a stack event at a known version |
| MojoStream.FrameKinds | austin/format/mojo.py:473-490 | the fields of a frame event at the stream's version |
| MojoStream.EventTrace | austin/format/mojo.py:578-581 | the events read from a position up to the first one not handled, and how the run ended |
| MojoStream.TraceStart | austin/format/mojo.py:578 | an empty trace starts at the first event position |
| MojoStream.TraceStep | austin/format/mojo.py:578-581 | a handled event extends the trace by its tag and fields |
| MojoStream.TraceEnd | austin/format/mojo.py:579-580 | the first event not handled ends the trace and fixes its outcome |
| MojoStream.RunStepsSnoc | austin/format/mojo.py:578-581 | running a trace and then one more event gives the state of running the longer trace |
| MojoStream.YieldsSnoc | austin/format/mojo.py:588-595 | the yields of a longer trace are those of the shorter trace followed by the last event's |
| MojoStream.MojoStreamReader.constructor | austin/format/mojo.py:239-267 | a new reader has no version, empty maps, no running sample, no metadata, no samples, offset and last read 0 and fresh integer and string readers |
| MojoStream.MojoStreamReader.Read | austin/format/mojo.py:279-291 | reading n bytes advances the offset by the previous read's length, records n as the last read and appends the bytes to the last bytes; a short read raises and leaves the counters alone |
| MojoStream.MojoStreamReader.SendInt | austin/format/mojo.py:201-212 | sending one byte to the integer generator advances its state as the generator does |
| MojoStream.MojoStreamReader.ReadInt | austin/format/mojo.py:447-450 | `read_int` reads exactly the bytes of one varint and returns its value, or fails with a short read |
| MojoStream.MojoStreamReader.ReadString | austin/format/mojo.py:452-456 | `read_string` reads up to and including the zero byte and returns the decoded bytes, overflowing after 1024 bytes |
| MojoStream.MojoStreamReader.StrSend | austin/format/mojo.py:215-227 | sending a byte to the string generator yields the buffered string at zero, stores it otherwise, and raises when the 1024-byte buffer is full |
| MojoStream.MojoStreamReader.SendString | austin/format/mojo.py:452-456 | reading one byte and sending it to the string generator |
| MojoStream.MojoStreamReader.FillString | austin/format/mojo.py:452-456 | the string read loop agrees with the string specification |
| MojoStream.MojoStreamReader.GetMetadata | austin/format/mojo.py:293-299 | records the metadata value under its key |
| MojoStream.MojoStreamReader.FinalizeSample | austin/format/mojo.py:301-336 | appends the running sample as a finished sample and clears it |
| MojoStream.MojoStreamReader.GetStack | austin/format/mojo.py:338-345 | finalises any running sample and starts a new one for the stack's pid, interpreter and thread |
| MojoStream.MojoStreamReader.GetFrame | austin/format/mojo.py:350-371 | looks up filename and scope, asserts a version 1 frame has no extra fields, and registers the frame under the running pid |
| MojoStream.MojoStreamReader.GetFrameRef | austin/format/mojo.py:373-380 | appends the referenced frame to the running sample, failing on an unknown key or no running sample |
| MojoStream.MojoStreamReader.GetMetric | austin/format/mojo.py:386-392 | stores the metric under its type in the running sample |
| MojoStream.MojoStreamReader.GetIdle | austin/format/mojo.py:406-411 | marks the running sample idle |
| MojoStream.MojoStreamReader.GetGc | austin/format/mojo.py:413-418 | marks the running sample as in garbage collection |
| MojoStream.MojoStreamReader.GetString | austin/format/mojo.py:420-424 | interns the string under the running pid and key |
| MojoStream.MojoStreamReader.GetStringRef | austin/format/mojo.py:426-428 | resolves a string reference without changing state, failing on an unknown key |
| MojoStream.MojoStreamReader.ReadField | austin/format/mojo.py:447-456 | reads one integer or string field as specified by the field scan |
| MojoStream.MojoStreamReader.ReadFields | austin/format/mojo.py:458-538 | reads a handler's fields in order as specified by the field scan, stopping at the first fault |
| MojoStream.MojoStreamReader.ParseMetadata | austin/format/mojo.py:458-461 | reads two strings and records them as metadata |
| MojoStream.MojoStreamReader.ParseStack | austin/format/mojo.py:463-471 | fails its assertion without a version, otherwise reads the stack's fields and runs the stack handler |
| MojoStream.MojoStreamReader.ReadStack | austin/format/mojo.py:467-471 | reads pid, the version-gated interpreter id and the thread, and runs the stack handler |
| MojoStream.MojoStreamReader.ParseFrame | austin/format/mojo.py:473-490 | reads four or seven integers by version and runs the frame handler |
| MojoStream.MojoStreamReader.ParseFrameRef | austin/format/mojo.py:492-495 | reads one integer and runs the frame reference handler |
| MojoStream.MojoStreamReader.ParseKernelFrame | austin/format/mojo.py:497-500 | reads one string and builds a kernel frame |
| MojoStream.MojoStreamReader.ParseTimeMetric | austin/format/mojo.py:502-508 | reads one integer and stores it as the time metric |
| MojoStream.MojoStreamReader.ParseMemoryMetric | austin/format/mojo.py:502-513 | reads one integer and stores it as the memory metric |
| MojoStream.MojoStreamReader.ParseString | austin/format/mojo.py:530-533 | reads a key and a string and interns it |
| MojoStream.MojoStreamReader.ParseStringRef | austin/format/mojo.py:535-538 | reads a key and resolves the string reference |
| MojoStream.MojoStreamReader.Dispatch | austin/format/mojo.py:548 | runs the handler registered for the tag |
| MojoStream.MojoStreamReader.DispatchRest | austin/format/mojo.py:515-538 | runs the handlers for the invalid frame, gc, idle, metric and string tags and rejects unknown tags |
| MojoStream.MojoStreamReader.HandleEvent | austin/format/mojo.py:547-551 | runs one event's handler and keeps the raw bytes gathered since the tag |
| MojoStream.MojoStreamReader.ParseEvent | austin/format/mojo.py:540-558 | `parse_event` agrees with the event specification: nothing at end of stream, the handled event with its raw bytes (then cleared), an unhandled-event error for an unknown tag, and a parse error with offset and last read for bad bytes |
| MojoStream.MojoStreamReader.ParseTagged | austin/format/mojo.py:547-558 | after the tag byte, the handled event, unhandled-event error or parse error as specified |
| MojoStream.MojoStreamReader.ReadHeader | austin/format/mojo.py:566-575 | a stream not starting with MOJ is rejected as not MOJO; otherwise the version is read and the header bytes kept |
| MojoStream.MojoStreamReader.ReadVersion | austin/format/mojo.py:570-575 | after MOJ the version varint is read, and the header bytes are stored and cleared |
| MojoStream.MojoStreamReader.Iterate | austin/format/mojo.py:560-597 | iterating reads the header once, then events until the stream ends or fails; it yields metadata, one sample per stack event in order and the last running sample at the end |
| MojoStream.MojoStreamReader.AustinEvents | austin/format/mojo.py:590-595 | an event yields at most one Austin event: metadata for metadata, the last finished sample for a stack |
| MojoStream.MojoStreamReader.StoppedIterating | austin/format/mojo.py:579-580 | a run stopped by an error has yielded exactly the events of its trace |
| MojoStream.MojoStreamReader.FinishIterating | austin/format/mojo.py:596-597 | at the end of the stream the running sample, if any, is finalised and yielded |
| MojoStream.MojoStreamReader.NextEvent | austin/format/mojo.py:578-595 | one loop step either extends the trace and yields its events or ends the trace as specified |
| MojoStream.MojoStreamReader.ReadEvents | austin/format/mojo.py:577-581 | the event loop reads exactly the specified trace and stops at its end or its first failure |
| MojoStream.Advance | austin/format/mojo.py:578-595 | a handled event advances the run's state and yields by that event |
| MojoStream.StepResting | austin/format/mojo.py:338-345 | after any step either a sample is running or none has been finished |
| MojoStream.EmittedOnce | austin/format/mojo.py:588-597 | the samples yielded by an iteration are exactly the samples finished during it, each once and in order |
| MojoStream.Stacks | austin/format/mojo.py:463-471 | the positions of the stack events in a trace, in increasing order and all of them |
| MojoStream.FinalisedSamples | austin/format/mojo.py:301-345 | starting with no running sample, a sample is running exactly when the trace has a stack event, and each finished sample is the one a stack opened, as the next stack found it |
| MojoStream.OpenedSnoc | austin/format/mojo.py:338-345 | extending a trace keeps what earlier stacks opened |
| MojoStream.SnocOther | austin/format/mojo.py:350-428 | a non-stack event finishes no sample |
| MojoStream.SnocStack | austin/format/mojo.py:338-345 | a stack event finishes the running sample and opens the next |
| MojoStream.OpenedLast | austin/format/mojo.py:338-345 | the last stack of a trace opens the running sample |
| MojoStream.FinishedSamples | austin/format/mojo.py:338-345 | after the final flush there is one sample per stack event, the i-th built from the events between the i-th stack and the next |
| MojoStream.YieldedSamples | austin/format/mojo.py:588-597 | iterating yields one sample per stack event, in stream order, each carrying that stack's pid and thread and the frames and metrics read before the next stack |
| Stats.Frames | austin/stats.py:101 | the keys of a children dictionary, in insertion order |
| Stats.IndexOf | austin/stats.py:86-88 | a found position holds a child with that frame, and nothing is found exactly when no child has that frame |
| Stats.Find | austin/stats.py:86-88 | a found child is one of the children and has that frame, and nothing is found exactly when no child has it |
| Stats.GetChild | austin/stats.py:86-88 | `get_child` raises KeyError exactly when no child has the label, and otherwise returns the child with that label |
| Stats.FindDistinct | austin/stats.py:86-88 | in a dictionary of children, looking up a child's own frame finds that child |
| Stats.Merge | austin/stats.py:70-84 | `<<` keeps the left node's frame and height |
| Stats.MergeInto | austin/stats.py:78-82 | merging one child into a dictionary keeps the keys and their order, adding the child's frame at the end when it is new |
| Stats.MergeThread | austin/stats.py:70-84 | `<<` on a thread keeps the left thread's name |
| Stats.NewFrames | austin/stats.py:78-82 | the frames that merging adds are exactly those of the right side not already present |
| Stats.MergeAllOrder | austin/stats.py:78-82 | after merging all of the right node's children, the keys are the left keys in their order followed by the new right keys in theirs |
| Stats.MergeIntoDistinct | austin/stats.py:78-82 | merging a child into a dictionary keeps its keys distinct |
| Stats.MergeIntoFind | austin/stats.py:78-82 | after merging child o, the entry for o's frame is the old entry merged with o (or o when it was missing); every other entry is unchanged |
| Stats.MergeAllFind | austin/stats.py:78-82 | after merging all children, the entry for every frame is the left entry merged with the right one, or whichever of the two exists |
| Stats.MergeNodes | austin/stats.py:70-84 | `<<` of nodes with different labels returns the left node unchanged; with equal labels own and total add up, each child is the merge of the two sides' children, and the new keys come after the old ones |
| Stats.MergeThreads | austin/stats.py:70-84 | the same as for frames, for two thread roots |
| Stats.MergeConsistent | austin/stats.py:70-84 | `<<` keeps every total equal to the node's own value plus its children's totals, and the children distinct |
| Stats.MergeAllConsistent | austin/stats.py:78-82 | merging all children keeps that invariant, and the children's totals add up |
| Stats.MergeIntoConsistent | austin/stats.py:78-82 | merging one child keeps that invariant, and the children's totals grow by the child's total |
| Stats.MergeThreadConsistent | austin/stats.py:70-84 | `<<` on threads keeps the invariant |
| Stats.MergeFrameStats | austin/stats.py:70-84 | the recursive merge of frame nodes computes `<<` on frame statistics |
| Stats.MergeChildren | austin/stats.py:78-82 | the loop over the right node's children merges each of them into the left dictionary |
| Stats.MergeThreadStats | austin/stats.py:70-84 | the merge of thread roots computes `<<` on thread statistics |
| Stats.FramePathNode | austin/stats.py:280-284 | the chain built from a sample's frames has, at depth k, the k-th frame, height k, total equal to the metric, and one child, except the last node, which has no child and own equal to the metric |
| Stats.ThreadPathNode | austin/stats.py:275-284 | the thread root built from a sample has the sample's thread name and total equal to the metric, its own value is the metric only when there are no frames, and below it lies the chain of frames |
| Stats.FramePathConsistent | austin/stats.py:280-284 | the chain built from a sample satisfies the totals invariant |
| Stats.ThreadPathConsistent | austin/stats.py:275-284 | the thread root built from a sample satisfies the totals invariant |
| Stats.BuildThreadStats | austin/stats.py:275-284 | the loop that nests the frames builds the thread root of the sample |
| Stats.MetricOf | austin/stats.py:254-272 | wall and CPU statistics use the time, alloc statistics a positive memory value, dealloc statistics minus a negative one; a missing or zero metric means the sample is ignored |
| Stats.Pids | austin/stats.py:180 | the keys of the processes dictionary, in insertion order |
| Stats.Names | austin/stats.py:141 | the keys of a threads dictionary, in insertion order |
| Stats.PidIndex | austin/stats.py:206-208 | a found position holds that pid, and nothing is found exactly when the pid is not a key |
| Stats.ThreadIndex | austin/stats.py:151-157 | a found position holds that thread name, and nothing is found exactly when the name is not a key |
| Stats.GetThread | austin/stats.py:151-157 | `get_thread` returns None exactly for an unknown name and otherwise the thread with that name |
| Stats.ProcessOf | austin/stats.py:206-208 | `get_process` raises KeyError exactly for an unknown pid and otherwise returns the process with that pid |
| Stats.NewProcessEffect | austin/stats.py:287-289 | adding a new process puts its pid last, keeps the pids distinct and changes no other process |
| Stats.SameProcessEffect | austin/stats.py:291-296 | replacing a process keeps the pids and changes no other process |
| Stats.Updated | austin/stats.py:247-296 | `update` changes only the sample's process, appends a process only for a new pid, and changes nothing for a sample without the metric |
| Stats.UpdateEffect | austin/stats.py:247-296 | `update` ignores a sample without a metric for the statistics type; otherwise the sample's pid is added last if new, other processes are unchanged, and in the sample's process the sample's thread becomes its old tree merged with the sample's path (or the path), its total grows by the metric, and other threads are unchanged |
| Stats.ThreadAt | austin/stats.py:292-296 | writing thread t into a dictionary changes only the lookup of t's name |
| Stats.UpdateThreads | austin/stats.py:292-296 | adding or merging the sample's thread tree changes only that thread, as described above |
| Stats.UpdatePreserves | austin/stats.py:247-296 | `update` keeps the pids and thread names distinct and every thread tree's totals consistent |
| Stats.UpdateIgnoresIid | austin/stats.py:247-296 | the statistics do not depend on a sample's interpreter id |
| Stats.Prefixed | austin/stats.py:111-114 | every line gets the same prefix, in order |
| Stats.CollapseFrameLines | austin/stats.py:103-115 | every collapsed line of a frame starts with ";" + prefix + the frame's formatted text and ends with one own value, and the values are the node's own values in tree order |
| Stats.CollapseChildrenLines | austin/stats.py:111-114 | the lines of all children start with ";" and end with the children's own values in order |
| Stats.OwnsSum | austin/stats.py:103-115 | for consistent statistics the values reported by a frame's lines add up to its total |
| Stats.OwnsAllSum | austin/stats.py:111-114 | the values reported for a list of children add up to their totals |
| Stats.CollapseOwnLine | austin/stats.py:107-110 | a leaf collapses to the single line with its own value; an inner node reports its own line exactly when its own value is non-zero |
| Stats.ChildLinesDiffer | austin/stats.py:110-114 | a node's own line is never one of its children's lines, so the own line appears only when it is emitted |
| Stats.CollapseThreadLines | austin/stats.py:124-133 | a thread's lines start with ";T" + its name and report its own values; a thread without frames gives one line with its own value, otherwise its own line appears exactly when its own value is non-zero |
| Stats.ThreadOwnsSum | austin/stats.py:124-133 | for a consistent thread the reported values add up to its total |
| Stats.CollapseThreadsLines | austin/stats.py:145-149 | the lines of all threads start with ";T" |
| Stats.ThreadsOwnsSum | austin/stats.py:145-149 | the values reported for all threads add up to the threads' totals |
| Stats.CollapseProcessLines | austin/stats.py:143-149 | every line of a process starts with "P<pid>;T", and for well-formed statistics the reported values add up to the threads' totals |
| Stats.ModeWords | austin/stats.py:196 | the mode header says "wall", "cpu" or "memory" (the type's value up to the first underscore) |
| Stats.StripZeros | austin/stats.py:200-201 | when every line ends with " 0 0" the suffix is removed from each; otherwise the lines are unchanged |
| Stats.WrittenLinesSplit | austin/stats.py:203-204 | lines written one per row can be split on newlines back into the same lines |
| Stats.AustinStats.constructor | austin/stats.py:169-181 | new statistics have the given type and no processes |
| Stats.AustinStats.Update | austin/stats.py:247-296 | the processes become those of `update` on the old ones, and well-formed statistics stay well-formed |
| Stats.AustinStats.GetProcess | austin/stats.py:206-208 | raises KeyError exactly for an unknown pid, otherwise returns that process |
| Stats.AustinStats.Dump | austin/stats.py:193-204 | the text is the mode header, an empty line, and each process's collapsed lines (zero suffixes removed) one per row, processes in insertion order |
| Stats.WriteAll | austin/stats.py:203-204 | the loop writes each line followed by a newline |
| Stats.DumpText | austin/stats.py:197-204 | the dump opens with the "# mode: " header and a blank line and ends with a newline |
| Stats.DumpLinesSnoc | austin/stats.py:197-204 | one more process appends exactly its lines to the dump |
| Stats.ModeAt | austin/stats.py:213-219 | the position of the first "mode" metadata event, or none when the stream has none |
| Stats.ProfileTypes | austin/stats.py:221-239 | "full" gives CPU, wall, alloc and dealloc; "memory" gives alloc and dealloc; "cpu" gives CPU only; anything else gives wall only |
| Stats.Aggregate | austin/stats.py:241-243 | loading yields at most one process per event, and none from metadata alone |
| Stats.AggregateWellFormed | austin/stats.py:241-243 | statistics built from any events are well-formed |
| Stats.AggregateStep | austin/stats.py:241-243 | one more event updates the statistics with that event when it is a sample, and leaves them alone otherwise |
| Stats.NewProfiles | austin/stats.py:221-239 | one fresh, empty statistics object per type |
| Stats.Load | austin/stats.py:210-245 | `load` raises ValueError exactly when no mode metadata event exists; otherwise it gives one statistics object per type of the mode, each updated with every sample after that event |
| Stats.LoadAll | austin/stats.py:241-243 | the loop over the rest of the stream updates every object with every sample |
| Stats.LoadEvent | austin/stats.py:241-243 | one event of the loop updates every object when it is a sample |
| Stats.FeedAll | austin/stats.py:242-243 | one sample updates every statistics object |
| CollapsedStack.ParseFrame | austin/format/collapsed_stack.py:33-51 | a parsed frame has no end line or column, and its function name holds no colon (the text is split at its last two colons) |
| CollapsedStack.FrameRoundTrip | austin/format/collapsed_stack.py:33-51 | formatting a frame whose function has no colon and parsing it back gives the frame without its position fields |
| CollapsedStack.NonIntegerLine | austin/format/collapsed_stack.py:48-51 | a line number that `int()` refuses raises ValueError |
| CollapsedStack.ParseFrameInvalid | austin/format/collapsed_stack.py:44-50 | InvalidFrame is raised exactly for text with fewer than two colons (which includes the empty string) |
| CollapsedStack.ParseEach | austin/format/collapsed_stack.py:88 | each part is parsed as a frame, in order |
| CollapsedStack.Collect | austin/format/collapsed_stack.py:88 | the tuple of frames has one frame per part |
| CollapsedStack.CollectSuccess | austin/format/collapsed_stack.py:88 | when every part parses, the i-th frame is the i-th part's parse |
| CollapsedStack.CollectFailure | austin/format/collapsed_stack.py:88 | when parsing fails, the error is that of the first part that fails, and every earlier part parses |
| CollapsedStack.CollectAll | austin/format/collapsed_stack.py:88 | parts that all parse give exactly their frames |
| CollapsedStack.ParseFramesSuccess | austin/format/collapsed_stack.py:87-91 | every frame of a parsed stack is the parse of its part |
| CollapsedStack.ParseFramesFailure | austin/format/collapsed_stack.py:87-91 | a failed stack fails on its first bad frame |
| CollapsedStack.FormatFrames | austin/format/collapsed_stack.py:186-187 | one formatted text per frame, in order |
| CollapsedStack.PlainFrames | austin/format/collapsed_stack.py:51 | each frame without its position fields, in order |
| CollapsedStack.FormattedFramesParse | austin/format/collapsed_stack.py:33-51 | formatted printable frames parse back one by one |
| CollapsedStack.FormattedFramesSeparable | austin/format/collapsed_stack.py:186-187 | formatted printable frames hold no ";", so joining them can be undone |
| CollapsedStack.FramesRoundTrip | austin/format/collapsed_stack.py:81-91 | a non-empty stack of printable frames, formatted and joined with ";", parses back as the frames |
| CollapsedStack.AnyGC | austin/format/collapsed_stack.py:108 | true exactly when some frame's function is "GC" |
| CollapsedStack.ParseMetrics | austin/format/collapsed_stack.py:93-107 | a metric without commas is the time alone (none when empty); a metric with commas must have exactly three parts, or raises ValueError |
| CollapsedStack.ThreeMetrics | austin/format/collapsed_stack.py:93-107 | "time,idle,memory" reads back as the time, idle as a boolean (non-zero), and the memory |
| CollapsedStack.OneMetric | austin/format/collapsed_stack.py:96-105 | a single number reads back as the time with no idle and no memory |
| CollapsedStack.ThreadField | austin/format/collapsed_stack.py:84-85 | a thread text without ":" is the thread name; otherwise it is split at its first ":" into interpreter id and name |
| CollapsedStack.ParseCollapsedStack | austin/format/collapsed_stack.py:54-109 | an empty sample and a sample not starting with "P" raise InvalidSample; a parsed sample has a GC flag exactly when it has a non-empty stack |
| CollapsedStack.ParseBody | austin/format/collapsed_stack.py:81-109 | a parsed sample carries the given pid and the frames read, with a GC flag exactly when it has frames; frames that fail to parse decide the error |
| CollapsedStack.ProcessRead | austin/format/collapsed_stack.py:71-81 | after "P<pid>;", an empty rest fails on `rest[0]`, a rest not starting with "T" raises InvalidSample, and otherwise the body is parsed |
| CollapsedStack.BadProcessId | austin/format/collapsed_stack.py:73-76 | a process id that `int()` refuses raises InvalidSample |
| CollapsedStack.NoSpaceBadProcessId | austin/format/collapsed_stack.py:71-76 | a sample with no space has an empty head, so its process id is refused |
| CollapsedStack.ThreadRead | austin/format/collapsed_stack.py:81-85 | the thread text written by the formatter reads back as its interpreter id and thread name |
| CollapsedStack.BodyFrom | austin/format/collapsed_stack.py:81-109 | when thread, frames and metrics each parse, the sample is built from them, with the GC flag of the frames |
| CollapsedStack.ThreadHead | austin/format/collapsed_stack.py:181-185 | the written head "T[iid:]thread" holds no ";" and reads back as the iid and thread |
| CollapsedStack.BodyRead | austin/format/collapsed_stack.py:181-199 | a written body, with or without frames, parses back as the sample with the frames' position fields dropped |
| CollapsedStack.HexThreadInDecimal | austin/format/collapsed_stack.py:175-179 | a thread name that is a hexadecimal number is shown as the same number in decimal |
| CollapsedStack.FormatSample | austin/format/collapsed_stack.py:170-199 | formatting a sample fails exactly when the mode is not set, or the mode is "full" and idle is not set |
| CollapsedStack.FormatThenParse | austin/format/collapsed_stack.py:54-199 | a formatted sample parses back with its pid, iid, shown thread, the shown metric as the time, its frames without position fields and their GC flag; idle is lost, and memory mode's value reads back as a time |
| CollapsedStack.Formatter.constructor | austin/format/collapsed_stack.py:150-151 | the formatter starts with the given mode |
| CollapsedStack.Formatter.FormatMetadata | austin/format/collapsed_stack.py:158-163 | the line is "# name: value", and the mode becomes the value exactly when the name is "mode" |
| CollapsedStack.Formatter.Format | austin/format/collapsed_stack.py:170-199 | formatting succeeds exactly when a mode is set and, in full mode, idle is set |
| CollapsedStack.ReadLine | austin/format/collapsed_stack.py:129-140 | an empty raw line, and only that, stops the iteration |
| CollapsedStack.LinesRead | austin/format/collapsed_stack.py:129-140 | one reading per line |
| CollapsedStack.RunStep | austin/format/collapsed_stack.py:129-140 | the iteration from line i is line i's effect followed by the iteration from i + 1 |
| CollapsedStack.MetadataRoundTrip | austin/format/collapsed_stack.py:135-138 | a metadata line written by the formatter reads back as its name and value |
| CollapsedStack.SampleLineRead | austin/format/collapsed_stack.py:132-140 | a sample line is parsed as a collapsed stack |
| CollapsedStack.RunAppend | austin/format/collapsed_stack.py:129-140 | lines that neither stop nor fail yield their events ahead of those of the lines after them |
| CollapsedStack.ReadLines | austin/format/collapsed_stack.py:127-140 | iterating yields at most one event per line, and an empty read (end of file) stops it at once |
| CollapsedStack.ReadLinesAppend | austin/format/collapsed_stack.py:129-140 | reading a file in two parts yields the events of the first part, then those of the second |
| CollapsedStack.MetadataKeepsLast | austin/format/collapsed_stack.py:136-137 | after reading, each metadata key holds the value of its last metadata line, and keys never read keep their old values |
| CollapsedStack.FileReader.constructor | austin/format/collapsed_stack.py:119-121 | a new reader has no metadata |
| CollapsedStack.FileReader.Iterate | austin/format/collapsed_stack.py:127-140 | the events and error are those of reading the lines in order, and the metadata is the old metadata updated by every metadata event |
| CollapsedStack.FileReader.Consume | austin/format/collapsed_stack.py:129-140 | the loop yields the events and error of the readings in order and records each metadata event |
| CollapsedStack.FileReader.NextLine | austin/format/collapsed_stack.py:129-134 | one line of the loop is read as described by `ReadLine` |
| Compress.Contribution | austin/format/compress.py:51 | with counts each sample adds 1; otherwise it adds its time when that is set and non-zero, else its memory when set and non-zero, else 0 |
| Compress.Keys | austin/format/compress.py:41-71 | the keys of the stats dictionary, in insertion order |
| Compress.KeyIndex | austin/format/compress.py:53 | a found position holds the key, and nothing is found exactly when the key is absent |
| Compress.AddTo | austin/format/compress.py:53 | adding to a key keeps the keys and their order, putting a new key at the end |
| Compress.AddToValue | austin/format/compress.py:53 | `stats[k] = stats.get(k, 0) + v` raises k's sum by v, leaves every other key's sum alone, keeps the keys distinct and raises the grand total by v |
| Compress.AddToExisting | austin/format/compress.py:53 | the same, for a key already present |
| Compress.AddToNew | austin/format/compress.py:53 | the same, for a new key |
| Compress.AggregatedSums | austin/format/compress.py:44-53 | after the loop, every key's value is the sum of the contributions of the samples with that key, the values add up to the sum of all contributions, and with counts a key's value is its number of samples |
| Compress.AggregatedOrder | austin/format/compress.py:44-72 | the keys come out in the order of their first occurrence among the samples |
| Compress.Formatted | austin/format/compress.py:61-72 | one formatted line per entry, in order |
| Compress.EntryLines | austin/format/compress.py:61-72 | when formatting succeeds there is one line per entry |
| Compress.EntryLineShows | austin/format/compress.py:62-69 | the sample rebuilt from an entry has the entry's key, shows the entry's value (as memory in memory mode, as time otherwise), and is formatted as a collapsed line |
| Compress.Leading | austin/format/compress.py:61-72 | the lines before the first entry that fails to format, each a formatted line |
| Compress.Compressed | austin/format/compress.py:55-72 | compression fails with the missing-mode error exactly when there is no "mode" metadata, never with a read error, and what it writes, or had written when formatting failed, starts with the metadata lines |
| Compress.CompressedLines | austin/format/compress.py:55-72 | compression needs the "mode" metadata; the output is the metadata lines in order followed by one line per key, in first-occurrence order, each the collapsed line of the key with its summed value |
| Compress.CompressedFailure | austin/format/compress.py:58-72 | when formatting fails, the destination already holds the metadata lines and then the line of every entry before the first one that does not format, whose error is the one raised |
| Compress.AddUp | austin/format/compress.py:44-53 | the loop over the events builds the sums and collects the metadata lines |
| Compress.WriteEntries | austin/format/compress.py:61-72 | the loop formats every entry, or stops at the first failure, having written the lines of the entries before it |
| Compress.Compress | austin/format/compress.py:34-72 | a read error is passed on; otherwise the reader's metadata is updated by the events read and the output is the compressed text of those events, or the formatting error with the lines written before it |
| Speedscope.MetricPrefix | austin/format/speedscope.py:110-115 | a profile name prefix exists exactly for the metrics "cpu", "wall", "m+" and "m-"; any other metric is the KeyError |
| Speedscope.UnitRule | austin/format/speedscope.py:116 | the unit is bytes exactly for the metrics starting with "m", and microseconds exactly for "cpu" and "wall" |
| Speedscope.AddSampleBalanced | austin/format/speedscope.py:59-75 | a new profile starts at 0 with no samples; `add_sample` appends the stack and the weight at the end, keeps the earlier ones, and keeps endValue equal to startValue plus the sum of the weights |
| Speedscope.SpeedscopeProfile.constructor | austin/format/speedscope.py:59-69 | a new profile object holds the new profile of that name and unit (start and end value 0, no samples) |
| Speedscope.SpeedscopeProfile.AddSample | austin/format/speedscope.py:71-75 | the profile gains the stack and the weight at the end and its end value grows by the weight, which keeps it balanced |
| Speedscope.FrameMapExact | austin/format/speedscope.py:95-106 | in valid tables every registered frame's index holds that frame's description, and the frame map's values are exactly the indices of the frame list |
| Speedscope.EmptyValid | austin/format/speedscope.py:89-93 | the empty tables of a new generator are valid |
| Speedscope.InternFrame | austin/format/speedscope.py:95-106 | `get_frame` leaves the frame mapped to the index it returns, with the earlier frames in place and at most one appended |
| Speedscope.InternFrameEffect | austin/format/speedscope.py:95-106 | `get_frame` returns the index already stored for a seen frame and changes nothing; a new frame gets the next index and its name, file and line are appended; other frames keep their indices and the profiles are untouched |
| Speedscope.InternFrameValid | austin/format/speedscope.py:95-106 | `get_frame` keeps the tables valid |
| Speedscope.InternFrames | austin/format/speedscope.py:148 | one index per frame, and the profiles are untouched |
| Speedscope.InternFramesEffect | austin/format/speedscope.py:148 | the stack built for a sample has one index per frame, in order, and each index holds the description of its frame |
| Speedscope.InternFrameKeeps | austin/format/speedscope.py:95-106 | interning a frame never changes or removes the frames listed before |
| Speedscope.FindProfile | austin/format/speedscope.py:108-130 | `get_profile` raises exactly for an unknown metric; otherwise the key maps to the index returned, earlier profiles stay in place and the frames are untouched |
| Speedscope.FindProfileEffect | austin/format/speedscope.py:108-130 | `get_profile` raises exactly for an unknown metric; a known (pid, thread, metric) gives its existing profile and changes nothing; a new one appends a profile named "<prefix> profile for <pid>:<thread>" with the metric's unit; other keys and the frames are untouched |
| Speedscope.FindProfileAppends | austin/format/speedscope.py:121-130 | creating a profile for a new key keeps the tables valid |
| Speedscope.FindProfileValid | austin/format/speedscope.py:108-130 | `get_profile` keeps the tables valid and returns an index of an existing profile |
| Speedscope.FindProfileInRange | austin/format/speedscope.py:108-130 | the index `get_profile` returns names a profile, and every stored index still does |
| Speedscope.FindProfileOthers | austin/format/speedscope.py:117-130 | finding the profile of one key leaves the profile of every other key in place and distinct from it |
| Speedscope.AddToProfileValid | austin/format/speedscope.py:147-149 | adding a sample to a profile keeps the tables valid |
| Speedscope.AddToProfileEffect | austin/format/speedscope.py:147-149 | the found profile ends with the weight and the stack of interned frames, and every other profile is unchanged |
| Speedscope.Prefixes | austin/format/speedscope.py:134-141 | every metric a mode pairs with samples has a profile prefix |
| Speedscope.Zip | austin/format/speedscope.py:135-141 | `zip` pairs the i-th metric with the i-th sample and stops at the shorter list |
| Speedscope.PairsOfMode | austin/format/speedscope.py:134-141 | cpu and wall mode pair only "cpu" (with the first sample), memory mode pairs "m+" and "m-", full mode pairs "cpu", "wall", "m+" and "m-", each with the sample at the same position |
| Speedscope.AddPair | austin/format/speedscope.py:143-149 | taking one (metric, sample) pair keeps every stored profile index naming a profile |
| Speedscope.AddPairValid | austin/format/speedscope.py:143-149 | taking one pair keeps the tables valid |
| Speedscope.AddPairEffect | austin/format/speedscope.py:143-149 | a pair with frames and a non-zero value makes the profile of its (pid, thread, metric) end with the value and a stack describing the frames in order; every other profile is unchanged |
| Speedscope.AddPairsSkip | austin/format/speedscope.py:144-145 | a pair without frames or with a zero value changes nothing |
| Speedscope.AddPairs | austin/format/speedscope.py:143-149 | the loop over the pairs keeps every stored profile index in range |
| Speedscope.AddPairsValid | austin/format/speedscope.py:143-149 | the loop over the pairs keeps the tables valid |
| Speedscope.WithSamples | austin/format/speedscope.py:132-149 | `add_samples` keeps every stored profile index in range, and samples that all lack frames or carry a zero value change nothing |
| Speedscope.WithSamplesValid | austin/format/speedscope.py:132-149 | `add_samples` keeps the tables valid |
| Speedscope.AfterLastSpace | austin/format/speedscope.py:158 | the last word is the longest suffix without whitespace |
| Speedscope.ProfileNameWord | austin/format/speedscope.py:123 | the sort key of a profile is "<pid>:<thread>" when the thread name has no whitespace, so the profiles of one thread sort together |
| Speedscope.NoSpaceWord | austin/format/speedscope.py:158 | a word without whitespace is its own last word |
| Speedscope.WordAfterSpace | austin/format/speedscope.py:158 | the last word after a space is what follows that space |
| Speedscope.AsJson | austin/format/speedscope.py:151-162 | the document carries the schema and exporter, the name, the shared frames, and the generator's profiles with none lost or added |
| Speedscope.AsJsonProfiles | austin/format/speedscope.py:151-162 | the document lists the shared frames and the generator's name, and its profiles are a permutation of the generator's, sorted by the last word of their names, with equal words in creation order |
| Speedscope.ProfilesData | austin/format/speedscope.py:157 | the i-th profile record is the data of the i-th profile object, for every i |
| Speedscope.Speedscope.constructor | austin/format/speedscope.py:81-93 | a new generator has the given name and mode, no frames and no profiles |
| Speedscope.Speedscope.GetFrame | austin/format/speedscope.py:95-106 | the new state and the index are those of `get_frame` on the old state, and the profile objects are the same |
| Speedscope.Speedscope.GetProfile | austin/format/speedscope.py:108-130 | an unknown metric raises KeyError and changes nothing; otherwise the state is that of `get_profile` and the returned object is the profile at the found index |
| Speedscope.Speedscope.Register | austin/format/speedscope.py:121-130 | a new profile object is appended and the state is that of `get_profile` creating it |
| Speedscope.Speedscope.AddSampleTo | austin/format/speedscope.py:147-149 | the state is the old one with the sample added to profile i |
| Speedscope.Speedscope.GetFrames | austin/format/speedscope.py:148 | the state and the stack are those of interning the frames in order |
| Speedscope.Speedscope.AddPairTo | austin/format/speedscope.py:143-149 | one pass of the loop: the state after the first i pairs becomes the state after the first i + 1 |
| Speedscope.Speedscope.AddSamples | austin/format/speedscope.py:132-149 | the new state is the old one with the mode's pairs of samples added in order |
| Speedscope.Speedscope.AsDict | austin/format/speedscope.py:151-162 | the document is the one built from the generator's name and state |
| PProf.StartValid | austin/format/pprof/__init__.py:50-57 | a new generator's string table holds only the empty string at index 0, the empty string is not in the string map, and the tables are consistent |
| PProf.InternString | austin/format/pprof/__init__.py:91-99 | `get_string` touches only the string table and its map |
| PProf.InternStringEffect | austin/format/pprof/__init__.py:91-99 | `get_string` returns an index from 1 on that reads back as the string; a known string changes nothing, a new one is appended at the end and gets the old table length; the map and the table keep their old entries |
| PProf.InternStringGrows | austin/format/pprof/__init__.py:91-99 | the tables only grow, and the string maps to the returned index |
| PProf.InternStringValid | austin/format/pprof/__init__.py:91-99 | `get_string` keeps the tables consistent and returns an index inside the string table |
| PProf.InternStringIdempotent | austin/format/pprof/__init__.py:91-99 | asking for the same string twice gives the same index and changes nothing the second time |
| PProf.EmptyStringAppended | austin/format/pprof/__init__.py:91-99 | the empty string placed at index 0 is not in the map, so `get_string("")` appends a second empty string at a non-zero index |
| PProf.SampleTypeNames | austin/format/pprof/__init__.py:63-89 | every mode adds between one and four sample types, each with a non-empty type and unit |
| PProf.SampleTypeAdded | austin/format/pprof/__init__.py:79-82 | `_add_sample_type` leaves samples, locations and functions alone |
| PProf.AddSampleTypeEffect | austin/format/pprof/__init__.py:79-82 | the new sample type is appended after the earlier ones and reads back, through the string table, as its type and unit; the tables stay consistent and only grow |
| PProf.SampleTypesAdded | austin/format/pprof/__init__.py:63-89 | adding sample types leaves samples, locations and functions alone |
| PProf.AddSampleTypesEffect | austin/format/pprof/__init__.py:63-89 | after adding a list of sample types, the profile's sample types read back as exactly that list, in order |
| PProf.Init | austin/format/pprof/__init__.py:50-77 | a new generator holds no samples, locations or functions |
| PProf.InitEffect | austin/format/pprof/__init__.py:50-77 | a new generator has the sample types of its mode (CPU time or wall time in μs, allocated and deallocated memory in B, all four in full mode), string 0 is empty, and there are no samples, locations or functions |
| PProf.InternFunction | austin/format/pprof/__init__.py:110-123 | `get_function` leaves sample types, samples and locations alone |
| PProf.InternFunctionEffect | austin/format/pprof/__init__.py:110-123 | the returned id reads back as the frame's function name and file name; a known (name, file) pair changes nothing, a new one gets the id equal to the new number of functions; the tables stay consistent and only grow |
| PProf.InternFunctionGrows | austin/format/pprof/__init__.py:110-123 | the tables only grow and the (name, file) pair maps to the returned id |
| PProf.FunctionAppended | austin/format/pprof/__init__.py:116-121 | a new function entry, numbered after the last, reads back as the frame's name and file |
| PProf.InternFunctionIdempotent | austin/format/pprof/__init__.py:110-123 | asking twice for the same frame's function gives the same id and changes nothing the second time |
| PProf.InternLocation | austin/format/pprof/__init__.py:125-138 | `get_location` leaves the sample types and samples alone |
| PProf.LocationDecodes | austin/format/pprof/__init__.py:125-138 | every registered frame's location reads back as that frame's line, function name and file name |
| PProf.InternLocationEffect | austin/format/pprof/__init__.py:125-138 | the returned id reads back as the frame; a known frame changes nothing, a new one gets the id equal to the new number of locations; the tables stay consistent and only grow |
| PProf.InternLocationGrows | austin/format/pprof/__init__.py:125-138 | the tables only grow and the frame maps to the returned id |
| PProf.LocationAppended | austin/format/pprof/__init__.py:130-136 | a new location, numbered after the last, with one line pointing at the frame's function, reads back as the frame |
| PProf.InternLocationIdempotent | austin/format/pprof/__init__.py:125-138 | asking twice for the same frame's location gives the same id and changes nothing the second time |
| PProf.AddLabel | austin/format/pprof/__init__.py:101-108 | adding a label keeps the sample types and the number of samples |
| PProf.AddLabelEffect | austin/format/pprof/__init__.py:101-108 | the sample's labels gain one label reading back as (key, value) at the end; its locations and values and every other sample are unchanged; the tables stay consistent and only grow |
| PProf.Values | austin/format/pprof/__init__.py:150-151 | one value per sample, each that sample's metric value, in order |
| PProf.Reverse | austin/format/pprof/__init__.py:154 | `frames[::-1]`: the j-th element is the j-th from the end |
| PProf.AppendLocationId | austin/format/pprof/__init__.py:155 | only sample i changes, by one location id at the end |
| PProf.AddLocations | austin/format/pprof/__init__.py:154-155 | the location loop keeps the sample types and the number of samples |
| PProf.LocationStep | austin/format/pprof/__init__.py:155 | one pass of the loop keeps the sample types and the number of samples |
| PProf.AddLocationsValid | austin/format/pprof/__init__.py:154-155 | the location loop keeps the tables consistent |
| PProf.AddLocationsGrown | austin/format/pprof/__init__.py:154-155 | the location loop only grows the tables |
| PProf.AddLocationsEffect | austin/format/pprof/__init__.py:154-155 | after n passes, sample i carries its old ids followed by the ids of the locations of the first n frames, and every other sample is unchanged |
| PProf.NewSample | austin/format/pprof/__init__.py:143 | `sample.add()` appends exactly one sample |
| PProf.Labeled | austin/format/pprof/__init__.py:146-147 | labelling keeps the number of samples |
| PProf.AddValues | austin/format/pprof/__init__.py:150-151 | only sample i changes, by the values appended at the end |
| PProf.LabeledEffect | austin/format/pprof/__init__.py:143-147 | the new last sample has no values and no locations and carries the labels "Thread ID" = the first sample's thread and "Process ID" = its pid; earlier samples are unchanged |
| PProf.WithSamples | austin/format/pprof/__init__.py:140-155 | `add_samples` appends exactly one sample, keeps the sample types and fails (IndexError) exactly on an empty list, for metric values and line numbers within int64 |
| PProf.WithSamplesEffect | austin/format/pprof/__init__.py:140-155 | `add_samples` appends exactly one sample and, for metric values and line numbers within int64, fails (IndexError) exactly on an empty list, leaving that sample empty; otherwise the sample carries the thread and pid labels of the first sample, one value per sample in order, and one location per frame of the first sample, innermost first, each reading back as its frame; earlier samples are unchanged |
| PProf.BeforeLocations | austin/format/pprof/__init__.py:143-151 | labelling and the value loop append exactly one sample |
| PProf.BeforeLocationsEffect | austin/format/pprof/__init__.py:143-151 | before the location loop the new sample has its labels and the values of all samples and no locations |
| PProf.WithSamplesValid | austin/format/pprof/__init__.py:140-155 | `add_samples` on a non-empty list keeps the tables consistent, only grows them and keeps earlier samples |
| PProf.WithSamplesReads | austin/format/pprof/__init__.py:140-155 | the new sample reads back as the list of samples, as described for `add_samples` |
| PProf.LocationsRead | austin/format/pprof/__init__.py:154-155 | ids looked up for frames read back as those frames |
| PProf.PProfGenerator.constructor | austin/format/pprof/__init__.py:50-77 | a new generator is the initial state for its mode |
| PProf.PProfGenerator.AddModeSampleTypes | austin/format/pprof/__init__.py:63-75 | the mode's branches add the mode's sample types in order |
| PProf.PProfGenerator.AddMemorySampleTypes | austin/format/pprof/__init__.py:87-89 | adds allocated and then deallocated memory, both in B |
| PProf.PProfGenerator.AddSampleTypeAfter | austin/format/pprof/__init__.py:79-85 | one more sample type after those already added |
| PProf.PProfGenerator.AddSampleType | austin/format/pprof/__init__.py:79-82 | the state becomes that of adding one sample type, and stays consistent |
| PProf.PProfGenerator.GetString | austin/format/pprof/__init__.py:91-99 | the state and index are those of `get_string` |
| PProf.PProfGenerator.AddLabelToSample | austin/format/pprof/__init__.py:101-108 | the state is that of adding the label to sample i |
| PProf.PProfGenerator.GetFunction | austin/format/pprof/__init__.py:110-123 | the state and id are those of `get_function` |
| PProf.PProfGenerator.GetLocation | austin/format/pprof/__init__.py:125-138 | the state and id are those of `get_location` |
| PProf.PProfGenerator.AddSamples | austin/format/pprof/__init__.py:140-155 | the state and error are those of `add_samples`, and the state stays consistent |
| PProf.PProfGenerator.FillSample | austin/format/pprof/__init__.py:143-155 | the body of `add_samples` |
| PProf.PProfGenerator.AddMetrics | austin/format/pprof/__init__.py:150-151 | the value loop appends every sample's value to sample i |
| PProf.PProfGenerator.AddLocationIds | austin/format/pprof/__init__.py:154-155 | the location loop appends one location id per frame to sample i |
| PProf.PProfGenerator.AppendLocation | austin/format/pprof/__init__.py:155 | appends one location id to sample i |
| Resolve.FirstDigitFrom | austin/tools/resolve.py:45-49 | the position of the first digit at or after i, or none when no digit follows |
| Resolve.Demangle | austin/tools/resolve.py:37-63 | `demangle_cython` never raises for a "__pyx_pymod_" name; otherwise it raises only ValueError or IndexError, and IndexError only after a digit was found in the name left after the fuse prefix |
| Resolve.DemanglePlain | austin/tools/resolve.py:43-63 | a name with neither the "__pyx_pymod_" nor the "__pyx_fuse_" prefix is demangled by the digit scan alone |
| Resolve.Scan | austin/tools/resolve.py:51-63 | the length-prefix scan raises nothing but IndexError (a skip past the end of the name) |
| Resolve.ScanSuffix | austin/tools/resolve.py:51-63 | whatever the length-prefix scan returns is a suffix of the name, and the scan never raises ValueError |
| Resolve.DemangleSuffix | austin/tools/resolve.py:37-63 | a demangled name is always a suffix of the mangled one |
| Resolve.DemanglePymod | austin/tools/resolve.py:39-41 | a "__pyx_pymod_" name always demangles, to the text after the first "_" that follows the 12-character prefix, or to "" when there is none |
| Resolve.DemangleNoDigit | austin/tools/resolve.py:45-49 | for a name without the pymod and fuse prefixes, demangling raises ValueError exactly when the name has no digit |
| Resolve.DemangleFusedNoDigit | austin/tools/resolve.py:43-49 | for a "__pyx_fuse_" name, demangling raises ValueError exactly when no "__pyx_" follows position 12 or the name left after stripping up to it has no digit |
| Resolve.ScanDigits | austin/tools/resolve.py:52-56 | a run of digits accumulates its decimal value before the scan goes on |
| Resolve.DemangleSegmentAt | austin/tools/resolve.py:51-61 | with the first digit run at i..k, the scan skips that many characters after the separator; a skip past the end is the IndexError, and landing on a non-digit returns the rest of the name |
| Resolve.DemangleCython | austin/tools/resolve.py:37-63 | the loop over `_i` and `n` computes the demangled name, or the same error |
| Resolve.FindDigit | austin/tools/resolve.py:45-49 | the `for`/`else` loop stops at the first digit, or at the end when there is none |
| Resolve.ScanFrom | austin/tools/resolve.py:51-63 | the `while` loop computes the length-prefix scan from the first digit |
| Resolve.AddBase | austin/tools/resolve.py:109-112 | after a map, the binaries with a base are the old ones plus the map's binary |
| Resolve.AddEntryMinimal | austin/tools/resolve.py:108-112 | `add` keeps each binary's base equal to the lowest start address among its maps, and keeps only binaries that have maps |
| Resolve.ParseMapLine | austin/tools/resolve.py:103-108 | `add` reads a map line; the only error it raises is the ValueError of a bound that is not hexadecimal |
| Resolve.ParseMapLineOf | austin/tools/resolve.py:103-108 | a line of seven prefix characters, hexadecimal bounds separated by "-", a space and a binary name reads back as those bounds and that binary |
| Resolve.ParseMapLineFrom | austin/tools/resolve.py:104-108 | when the stripped body splits into bounds and binary, and the bounds into two hexadecimal numbers, the map entry has those numbers and that binary |
| Resolve.MapBodyParts | austin/tools/resolve.py:104-105 | a body "<low>-<high> <binary>" splits at its first space into the bounds and the binary, and the bounds at "-" into the two numbers |
| Resolve.FirstMatch | austin/tools/resolve.py:81-83 | the index of the first map from k on whose range holds the address, or none |
| Resolve.Symbolize | austin/tools/resolve.py:88-101 | the symbolizer's answer is read as "file:line", or as the binary and offset after "??"; the only error is ValueError (no ":" or a line that is not an integer) |
| Resolve.SymbolizeSource | austin/tools/resolve.py:88-101 | a source file read from the answer holds no ":", since the answer splits at its first one |
| Resolve.Lookup | austin/tools/resolve.py:76-101 | `addr2line` never changes the maps or the bases |
| Resolve.Miss | austin/tools/resolve.py:80-101 | an uncached lookup never changes the maps or the bases |
| Resolve.Ask | austin/tools/resolve.py:88-101 | asking the symbolizer never changes the maps or the bases |
| Resolve.AskStores | austin/tools/resolve.py:88-101 | the symbolizer's answer for the binary at the address minus the binary's base is cached and returned |
| Resolve.Store | austin/tools/resolve.py:94-101 | a successful answer is cached under the address and returned; a failure changes nothing |
| Resolve.LookupCached | austin/tools/resolve.py:76-101 | a lookup only adds to the cache, and caches what it returns; a failed lookup changes nothing; a successful lookup asked again gives the same answer and state, whatever the symbolizer |
| Resolve.AskCached | austin/tools/resolve.py:88-101 | asking the symbolizer only adds its answer to the cache |
| Resolve.LookupHit | austin/tools/resolve.py:77-78 | a cached address returns its cached answer and changes nothing |
| Resolve.LookupNoMatch | austin/tools/resolve.py:80-86 | an address in no map is cached as None and None is returned |
| Resolve.LookupFirstMatch | austin/tools/resolve.py:81-93 | the first map holding the address decides the binary, whose base is at most the address |
| Resolve.BaseBelow | austin/tools/resolve.py:109-112 | every map's binary has a base no higher than the map's start |
| Resolve.FirstMatchAt | austin/tools/resolve.py:81-83 | the first map containing the address is found |
| Resolve.LookupNoKeyError | austin/tools/resolve.py:88-96 | with bases kept by `add`, `self.bases[_binary]` never raises KeyError |
| Resolve.LookupKept | austin/tools/resolve.py:76-101 | a lookup keeps the maps, the bases and every cached answer |
| Resolve.ResolveFrame | austin/tools/resolve.py:123-137 | a frame whose head is not "native@..." leaves the state alone, and no frame changes the maps or the bases |
| Resolve.ResolvePart | austin/tools/resolve.py:117-137 | resolving one part never changes the maps or bases, and only a part starting with "native@" can change the cache |
| Resolve.ResolveParts | austin/tools/resolve.py:116-137 | resolving the parts never changes the maps or bases, and yields at most one frame per part (wrappers are dropped) |
| Resolve.ResolveLine | austin/tools/resolve.py:114-139 | `resolve` never changes the maps or bases |
| Resolve.ResolvePartKept | austin/tools/resolve.py:117-137 | resolving one part keeps every cached answer |
| Resolve.ResolvePartsKept | austin/tools/resolve.py:117-137 | resolving all parts keeps every cached answer |
| Resolve.ResolvePartVerbatim | austin/tools/resolve.py:118-122 | a part that does not split into three fields is kept as it is |
| Resolve.SplitFrame | austin/tools/resolve.py:119 | a part joined from three colon-free fields splits back into them |
| Resolve.PartIsFrame | austin/tools/resolve.py:119-137 | a three-field part is handled as a frame |
| Resolve.ResolvePartWrapper | austin/tools/resolve.py:123-125 | a Cython wrapper frame ("__pyx_pw_" or "__pyx_pf_") is dropped |
| Resolve.ResolvePartPlain | austin/tools/resolve.py:136-137 | a frame with neither a Cython name nor a native head is kept as it is |
| Resolve.ResolvePartCython | austin/tools/resolve.py:126-137 | a Cython frame with a non-native head keeps its head and line and gets the demangled name, which is a suffix of the mangled one |
| Resolve.ResolvePartNative | austin/tools/resolve.py:128-135 | a native frame whose address resolves becomes "<source>:<function>:<line>", taking the frame's own line when the resolved line is 0 |
| Resolve.ResolveFrameNative | austin/tools/resolve.py:128-135 | a native frame's result is built from the answer of `addr2line` on the address after "@" |
| Resolve.NativeFrameFound | austin/tools/resolve.py:134-135 | `native_lineno or lineno`: a resolved line of 0 falls back to the frame's line |
| Resolve.PlainPartKept | austin/tools/resolve.py:117-137 | a part `resolve` leaves alone comes back unchanged, with no state change |
| Resolve.ResolvePartsPlain | austin/tools/resolve.py:117-137 | a list of such parts comes back unchanged |
| Resolve.ResolveLinePlain | austin/tools/resolve.py:114-139 | a line without Cython or native frames is returned as it is |
| Resolve.LineLayout | austin/tools/resolve.py:116 | "<frames> <metrics>" with space-free metrics splits at its last space into exactly those |
| Resolve.ResolveLineMetrics | austin/tools/resolve.py:114-139 | `resolve` keeps the metrics after the last space of the stripped line, at the end of the result |
| Resolve.FramesThenEnds | austin/tools/resolve.py:139 | the result ends with a space and the metrics |
| Resolve.StringResolution | austin/tools/resolve.py:141-155 | resolving a string never changes the maps or the bases, and a non-native string changes nothing |
| Resolve.SourceOf | austin/tools/resolve.py:150-153 | turning an `addr2line` answer into a resolution keeps the state |
| Resolve.ResolveStringScope | austin/tools/resolve.py:141-155 | a scope resolution is a suffix of the string; a string that is neither Cython nor native resolves to None with no state change |
| Resolve.ResolveLineKept | austin/tools/resolve.py:114-139 | `resolve` keeps maps, bases and every cached answer |
| Resolve.StringResolutionKept | austin/tools/resolve.py:141-155 | `resolve_string` keeps maps, bases and every cached answer |
| Resolve.ResolvePartsSnoc | austin/tools/resolve.py:117-137 | one more part extends the result of the earlier ones |
| Resolve.ResolvePartsFailed | austin/tools/resolve.py:117-137 | once a part fails, the whole line fails with that state and error |
| Resolve.Maps.constructor | austin/tools/resolve.py:69-74 | new maps are empty |
| Resolve.Maps.Add | austin/tools/resolve.py:103-112 | the state and error are those of `add` on the line, and the bases stay minimal |
| Resolve.Maps.Insert | austin/tools/resolve.py:108-112 | the map is appended and the bases updated |
| Resolve.Maps.Addr2Line | austin/tools/resolve.py:76-101 | the state and answer are those of the lookup |
| Resolve.Maps.LookUpMiss | austin/tools/resolve.py:80-101 | the uncached path of `addr2line` |
| Resolve.Maps.AskTool | austin/tools/resolve.py:88-101 | the symbolizer path of `addr2line` |
| Resolve.Maps.FindMap | austin/tools/resolve.py:81-86 | the loop stops at the first map holding the address, or at the end |
| Resolve.Maps.Remember | austin/tools/resolve.py:94-101 | caches a successful answer |
| Resolve.Maps.ResolveSegment | austin/tools/resolve.py:118-137 | one pass of the parts loop |
| Resolve.Maps.Resolve | austin/tools/resolve.py:114-139 | the state and result are those of `resolve` on the line |
| Resolve.Maps.ResolveAll | austin/tools/resolve.py:117-137 | the loop over the parts |
| Resolve.Maps.ResolveString | austin/tools/resolve.py:141-155 | the state and result are those of `resolve_string` |
| Cli.Base | austin/cli.py:76 | the divisor of every unit is at least 1 (1, 1000 or 1000000) |
| Cli.ParseTime | austin/cli.py:74-87 | the `time(units)` parser converts a magnitude with a "us", "ms" or "s" suffix into the parser's unit; a magnitude already in that unit comes back as the integer it spells |
| Cli.TimeUnits | austin/cli.py:78-85 | a whole number followed by "us", "ms" or "s" is converted from that unit into the parser's unit with floor division, and a bare number is taken as it is |
| Cli.Micro | austin/cli.py:79-80 | any integer text followed by "us" is divided by the unit's base |
| Cli.Milli | austin/cli.py:81-82 | any integer text followed by "ms" is taken times 1000 and divided by the base |
| Cli.Seconds | austin/cli.py:83-84 | any integer text not ending in "u" or "m", followed by "s", is taken times 1000000 and divided by the base |
| Cli.NoSuffix | austin/cli.py:79-85 | text not ending in "s" has none of the three suffixes, so it is read as a bare integer |
| Cli.RejectsNonInteger | austin/cli.py:78-85 | a magnitude holding a character that is neither a digit, a space nor a sign is refused, with or without the "s" suffix |
| Cli.ForeignCharacter | austin/cli.py:80-85 | `int()` refuses text holding a character that is neither a digit, a space nor a sign |
| Cli.AsWrittenRefusesPidOnly | austin/cli.py:89-93 | the constructor as written refuses a parser with only pid or only command, although its message asks for at least one |
| Cli.AcceptsExactly | austin/cli.py:89-93 | the intended check refuses exactly when both pid and command are off; with both on, both readings accept; with both off, both refuse |
| Cli.NewParserAsWritten | austin/cli.py:89-93 | the constructor as written raises AustinCommandLineError unless both pid and command are on, and otherwise keeps the switches |
| Cli.AsWrittenRefusesOneSwitch | austin/cli.py:89-93 | for exactly one switch on, the as-written constructor raises while the intended one accepts; otherwise the two agree |
| Cli.NewParser | austin/cli.py:89-93 | the constructor raises exactly when neither pid nor command is on, and otherwise keeps the switches |
| Cli.CheckParsed | austin/cli.py:180-198 | `parse_args` succeeds exactly when nothing is left unparsed and a non-zero pid or a non-empty command is given; leftovers raise with those leftovers, and success returns the parsed namespace |
| Cli.Rank | austin/cli.py:213-233 | every word gets the rank of the option it is, from 1 to 9 in the order `to_list` writes them, or 10 |
| Cli.RankOfWord | austin/cli.py:213-233 | each option word has its own rank |
| Cli.ValueAt | austin/cli.py:222-231 | interval, pid and timeout carry a number; the others are switches |
| Cli.ToList | austin/cli.py:204-235 | the list holds, in order, "-a", "-C", "-e", "-f", "-i <interval>", "-m", "-p <pid>", "-s", "-t <timeout>" for each set (truthy) value, then the command; the command is its suffix, and when the command holds no option word the list parses back into the same values and command |
| Cli.WriteOptions | austin/cli.py:213-231 | the options part of the list, in order |
| Cli.ReadsBack | austin/cli.py:204-235 | `to_list` inverts parsing: reading the list back gives the namespace's values and its command |
| Cli.WrittenThenRest | austin/cli.py:213-233 | the options written so far followed by the ones still to write make up the whole list |
| Cli.ReadStartsAfter | austin/cli.py:213-233 | what remains to read after option k starts with a later option or with the command |
| Cli.EmitBack | austin/cli.py:214-231 | one written option reads back as its value |
| Cli.FlagBack | austin/cli.py:214-229 | a switch is written as its word when on and not at all when off |
| Cli.NumberBack | austin/cli.py:222-231 | a set number is written as its word and its decimal text, which parses back to the number |
| Cli.ReadBackFrom | austin/cli.py:213-233 | reading the list from option k on gives the values from k on and the command |

## Left out

- Byte streams, files and text streams are modelled as sequences. The stream
  `read` is a cursor into a `seq` of bytes. The `dump` of the statistics
  is modelled as the text it writes (Stats.DumpText). The two `writelines` calls of `compress` are
  modelled as the lines that reach the destination, including the lines
  already written when a later entry fails to format
  (Compress.CompressedFailure).
- Speedscope.Speedscope.AsDict / PProf.Init: the speedscope document of
  `asdict` and the tables of the pprof profile message are modelled; their
  serialisation is not. The `dump` of the speedscope generator
  (austin/format/speedscope.py:164-170) hands the document to
  `json.dump`, whose JSON text, and the `indent` it takes from the
  constructor, are not modelled; the constructor therefore does not keep
  `indent`. The `dump` of the pprof generator
  (austin/format/pprof/__init__.py:157-159) writes protobuf's
  `SerializeToString`, a foreign library, and is not modelled.
- PProf.WithSamples: metric values and line numbers are taken to lie in
  the int64 range of the pprof message fields. protobuf raises ValueError
  when `pprof_sample.value.append` (austin/format/pprof/__init__.py:151)
  or `line.line = frame.line` (austin/format/pprof/__init__.py:134) gets a
  value outside [-2^63, 2^63), after the new sample has been added and
  partly filled. That error path is not modelled, so "fails exactly on an
  empty list" holds only for values within int64. The same applies to
  PProf.InternLocation, whose `line` field is an unbounded `int`.
- PProf.WithSamplesEffect: states the effect of `add_samples` for
  metric values and line numbers within int64 only. The protobuf
  ValueError of the PProf.WithSamples line above is not among its
  failure cases.
- Events.SourceSample: the speedscope and pprof generators import `Frame`,
  `Sample`, `AustinFileReader`, `InvalidSample` and `MetricType` from
  `austin.stats` (austin/format/speedscope.py:32-36,
  austin/format/pprof/__init__.py:29-30). austin/stats.py defines none of
  them: it only imports `AustinFrame` and `AustinSample` from
  `austin.events` (austin/stats.py:35-41). As written, both modules fail to
  import. The current `AustinSample` has a `metrics` record and no
  `metric` field. The model takes the record the generators were written
  against to be Events.SourceSample: a pid, a thread, one metric value
  standing for `sample.metric.value`, and the frames. Their `Frame` is
  taken to be Events.Frame, the model of `AustinFrame`. This is an assumed
  interface, not one the code defines.
- Mojo.Decode: `bytes.decode(errors="replace")` is modelled as one
  character per byte. UTF-8 decoding and replacement characters are not
  modelled.
- Text.ParseInt: Python's `int()` is modelled as surrounding ASCII
  whitespace, an optional sign and ASCII decimal digits. Underscores
  ("1_0"), Unicode digits and Unicode whitespace are not accepted. This
  applies through CollapsedStack.ParseFrame, CollapsedStack.ParseMetrics
  and Cli.ParseTime.
- Text.ParseHex: `int(s, 16)` has the same ASCII restriction. It is used
  for the thread names of the collapsed-stack formatter, for the addresses
  of `addr2line` (austin/tools/resolve.py:80, through Resolve.Lookup) and
  for the map bounds of `add` (austin/tools/resolve.py:106-107, through
  Resolve.ParseMapLine).
- Resolve.FirstDigitFrom / Resolve.Scan: `str.isdigit()` and `int(c)` in
  `demangle_cython` (austin/tools/resolve.py:46, 55 and 60) are modelled as
  ASCII digits. A character such as '²' passes `isdigit()` in Python, so
  the source stops its first loop there and `int('²')` raises ValueError.
  The model skips the character instead: on "x²3ab" it reads the count 3
  and fails with IndexError. Names made only of ASCII characters are
  handled alike.
- Text.IsSpace: `str.strip()`, `str.split()` and `str.isspace()` know only
  ASCII whitespace. This affects Speedscope.AfterLastSpace and the
  profile ordering.
- SemVer.TakeVersion: `str.isdigit()` is modelled as ASCII digits. A
  character such as '²' passes `isdigit()` in Python and makes `int()`
  raise. The model stops reading at it instead.
- Stats.Merge: `HierarchicalStats.__lshift__` mutates the left tree in
  place and returns it. It is modelled on values, so aliasing between
  trees (a right-hand subtree adopted by reference and then changed by a
  later merge) is not captured.
- The `Lock` and `__deepcopy__` of `AustinStats` (austin/stats.py:181-191)
  are not modelled. `update` is sequential.
- Resolve: the `addr2line` subprocess is a function parameter `tool`. The
  `resolve_mojo` and `resolve_austin` file drivers are not modelled.
- `AsyncMojoStreamReader` is not modelled. It shares its handlers with
  `BaseMojoStreamReader`, and only its reads are awaited.
- `hexdump`, `unwind` and every `main()` entry point are not modelled:
  they only print or drive loops already modelled.
- argparse itself, and the `exit` error hook of the command-line parser,
  are not modelled. Parsed arguments are a record of the fields that
  `parse_args` and `to_list` read.
- Cli.CheckParsed: an option the parser did not define reads as None.
  `parse_args` (austin/cli.py:195) reads `.pid` and `.command` directly,
  so a parser built by the corrected Cli.NewParser without one of them
  would raise AttributeError in Python where the model sees None. The
  parser built as written always defines both.
- austin/aio.py, austin/simple.py, austin/threads.py and austin/config.py
  are not part of this model. They cover process supervision, asyncio,
  psutil and toml configuration. So are the psutil and environment parts
  of austin/__init__.py and austin/base.py (`_get_process_info`,
  `terminate`, `binary_path`, `submit_sample`).
- austin/tools/diff.py and austin/format/pstat.py are not part of this
  model. They rest on float ratios from difflib and on pstats.

## Findings

| source | as written | input that shows it | evidently intended | confidence | as-written member | corrected member |
|---|---|---|---|---|---|---|
| austin/cli.py:89 | `if not (pid and command)` raises unless both the pid and the command switches are on | pid=True and command=False: the constructor raises AustinCommandLineError | raise only when neither switch is on, as the error message at austin/cli.py:91-92 and the docstring at austin/cli.py:52 say ("at least one between pid and command") | not executed | Cli.NewParserAsWritten | Cli.NewParser |
