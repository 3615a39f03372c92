/** austin/format/speedscope.py: the speedscope generator interns frames
    into a shared frame list and keeps one sampled profile per process,
    thread and metric. The dictionaries `frame_map` and `profile_map` are
    maps here, each with the insertion order of its keys beside it; a
    profile in `profile_map` is named by its position in `profiles`, which
    is where the object Python stores there sits. */
module Speedscope {
  import opened Wrappers
  import opened Text
  import opened Events
  import opened Format
  import opened Sorting

  /** `SpeedscopeFrame`: the entry of the shared frame list. */
  datatype SpeedscopeFrame = SpeedscopeFrame(name: string, file: string, line: int)

  /** What the shared frame list records of a frame. */
  function Describe(f: Frame): SpeedscopeFrame {
    SpeedscopeFrame(f.func, f.filename, f.line)
  }

  /** The three nested keys of `profile_map`. */
  datatype ProfileKey = ProfileKey(pid: int, thread: string, metric: string)

  /** The raise of a dictionary lookup on an unknown key. */
  datatype LookupError = KeyError

  const MICROSECONDS: string := "μs"
  const BYTES: string := "bytes"
  const SAMPLED: string := "sampled"

  /** The profile name prefix of each metric; None for the KeyError on
      any other metric. */
  function MetricPrefix(metric: string): (r: Option<string>)
    ensures r.Some? <==> metric in {"cpu", "wall", "m+", "m-"}
  {
    if metric == "cpu" then Some("CPU time")
    else if metric == "wall" then Some("Wall time")
    else if metric == "m+" then Some("Memory allocation")
    else if metric == "m-" then Some("Memory deallocation")
    else None
  }

  /** The unit of a metric's profile, from its first character. */
  function UnitFor(metric: string): (u: string)
    requires metric != ""
  {
    if metric[0] == 'm' then BYTES else MICROSECONDS
  }

  /** Memory metrics are counted in bytes, time metrics in microseconds. */
  lemma UnitRule(metric: string)
    requires MetricPrefix(metric).Some?
    ensures UnitFor(metric) == BYTES <==> StartsWith(metric, "m")
    ensures UnitFor(metric) == MICROSECONDS <==> metric in {"cpu", "wall"}
  {
  }

  function ProfileName(prefix: string, pid: int, thread: string): string {
    prefix + " profile for " + IntToString(pid) + ":" + thread
  }

  /** A `SpeedscopeProfile` as a value. */
  datatype ProfileData = ProfileData(
    name: string,
    unit: string,
    startValue: int,
    endValue: int,
    samples: seq<seq<nat>>,
    weights: seq<int>,
    kind: string)

  function NewProfile(name: string, unit: string): ProfileData {
    ProfileData(name, unit, 0, 0, [], [], SAMPLED)
  }

  /** `add_sample` on a value. */
  function AddSampleData(p: ProfileData, stack: seq<nat>, weight: int): ProfileData {
    p.(samples := p.samples + [stack], weights := p.weights + [weight], endValue := p.endValue + weight)
  }

  function Sum(ws: seq<int>): int {
    if ws == [] then 0 else Sum(ws[..|ws| - 1]) + ws[|ws| - 1]
  }

  /** A profile's stacks and weights pair up, and it ends at its start
      value plus the sum of its weights. */
  predicate Balanced(p: ProfileData) {
    |p.samples| == |p.weights| && p.endValue == p.startValue + Sum(p.weights)
  }

  /** A new profile is balanced, and `add_sample` keeps it so: the stack
      and the weight go at the end together, and the end value grows by
      the weight. */
  lemma AddSampleBalanced(p: ProfileData, stack: seq<nat>, weight: int)
    ensures Balanced(NewProfile(p.name, p.unit)) && NewProfile(p.name, p.unit).endValue == 0
    ensures var r := AddSampleData(p, stack, weight);
      r.samples[|r.samples| - 1] == stack && r.weights[|r.weights| - 1] == weight
      && r.samples[..|p.samples|] == p.samples && r.weights[..|p.weights|] == p.weights
      && (Balanced(p) ==> Balanced(r))
      && r.name == p.name && r.unit == p.unit && r.startValue == p.startValue
  {
    var r := AddSampleData(p, stack, weight);
    assert r.weights[..|r.weights| - 1] == p.weights;
  }

  /** The generator's tables as values: the shared frame list, `frame_map`
      with its keys in insertion order, `profile_map` with its keys in
      insertion order, and the profiles. */
  datatype Tables = Tables(
    frames: seq<SpeedscopeFrame>,
    frameMap: map<Frame, nat>,
    frameOrder: seq<Frame>,
    profileMap: map<ProfileKey, nat>,
    profileOrder: seq<ProfileKey>,
    profiles: seq<ProfileData>)

  const Empty: Tables := Tables([], map[], [], map[], [], [])

  /** The `i`-th frame key is the frame stored at index `i`. */
  ghost predicate FramesIndexed(t: Tables) {
    |t.frameOrder| == |t.frames|
    && (forall i :: 0 <= i < |t.frames| ==>
          t.frameOrder[i] in t.frameMap && t.frameMap[t.frameOrder[i]] == i
          && t.frames[i] == Describe(t.frameOrder[i]))
    && forall f :: f in t.frameMap ==> t.frameMap[f] < |t.frames| && t.frameOrder[t.frameMap[f]] == f
  }

  /** The `i`-th profile key names the profile at index `i`, which carries
      the name and the unit of the key. */
  ghost predicate ProfilesIndexed(t: Tables) {
    |t.profileOrder| == |t.profiles|
    && (forall i :: 0 <= i < |t.profiles| ==>
          var k := t.profileOrder[i];
          k in t.profileMap && t.profileMap[k] == i
          && MetricPrefix(k.metric).Some?
          && t.profiles[i].name == ProfileName(MetricPrefix(k.metric).value, k.pid, k.thread)
          && t.profiles[i].unit == UnitFor(k.metric)
          && t.profiles[i].startValue == 0 && t.profiles[i].kind == SAMPLED
          && Balanced(t.profiles[i]))
    && forall k :: k in t.profileMap ==> t.profileMap[k] < |t.profiles| && t.profileOrder[t.profileMap[k]] == k
  }

  /** Every index `profile_map` stores names a profile. */
  predicate ProfileMapInRange(t: Tables) {
    forall k :: k in t.profileMap ==> t.profileMap[k] < |t.profiles|
  }

  ghost predicate TablesValid(t: Tables) {
    FramesIndexed(t) && ProfilesIndexed(t)
  }

  /** The values of `frame_map` are exactly the indices of the frame list,
      and the entry at a frame's index describes that frame. */
  lemma FrameMapExact(t: Tables)
    requires TablesValid(t)
    ensures forall f :: f in t.frameMap ==> t.frameMap[f] < |t.frames| && t.frames[t.frameMap[f]] == Describe(f)
    ensures forall i :: 0 <= i < |t.frames| <==> i in t.frameMap.Values
  {
    forall i | 0 <= i < |t.frames| ensures i in t.frameMap.Values {
      var f := t.frameOrder[i];
      assert t.frameMap[f] in t.frameMap.Values;
    }
  }

  lemma EmptyValid()
    ensures TablesValid(Empty)
  {
  }

  /** `get_frame` on the tables: afterwards the frame maps to the index
      returned, and the frames described so far stay in place, with at
      most one appended. */
  function InternFrame(t: Tables, f: Frame): (r: (Tables, nat))
    ensures r.0.frameMap == t.frameMap[f := r.1]
    ensures t.frames <= r.0.frames && |r.0.frames| <= |t.frames| + 1
  {
    if f in t.frameMap then (t, t.frameMap[f])
    else
      var index := |t.frames|;
      (t.(frames := t.frames + [Describe(f)], frameMap := t.frameMap[f := index], frameOrder := t.frameOrder + [f]),
       index)
  }

  /** A frame seen before gets its stored index back and changes nothing;
      a new one gets the next index and is appended. Either way the index
      describes the frame, the tables stay indexed, and no stored index
      moves. */
  lemma InternFrameEffect(t: Tables, f: Frame)
    requires TablesValid(t)
    ensures var r1 := InternFrame(t, f); var t', i := r1.0, r1.1;
      TablesValid(t') && i < |t'.frames| && t'.frames[i] == Describe(f)
      && f in t'.frameMap && t'.frameMap[f] == i
      && (f in t.frameMap ==> t' == t)
      && (f !in t.frameMap ==> i == |t.frames| && t'.frames == t.frames + [Describe(f)])
      && (forall g :: g in t.frameMap ==> g in t'.frameMap && t'.frameMap[g] == t.frameMap[g])
      && t'.profiles == t.profiles && t'.profileMap == t.profileMap && t'.profileOrder == t.profileOrder
  {
    if f !in t.frameMap {
      var r2 := InternFrame(t, f); var t', i := r2.0, r2.1;
      forall j | 0 <= j < |t'.frames|
        ensures t'.frameOrder[j] in t'.frameMap && t'.frameMap[t'.frameOrder[j]] == j
          && t'.frames[j] == Describe(t'.frameOrder[j])
      {
        if j < |t.frames| {
          assert t'.frameOrder[j] == t.frameOrder[j] && t'.frames[j] == t.frames[j];
        }
      }
    }
  }

  lemma InternFrameValid(t: Tables, f: Frame)
    requires TablesValid(t)
    ensures TablesValid(InternFrame(t, f).0)
  {
    InternFrameEffect(t, f);
  }

  /** The list comprehension `[self.get_frame(frame) for frame in frames]`:
      one index per frame, and no profile is touched. */
  function InternFrames(t: Tables, fs: seq<Frame>): (r: (Tables, seq<nat>))
    ensures |r.1| == |fs| && r.0.profiles == t.profiles
      && r.0.profileMap == t.profileMap && r.0.profileOrder == t.profileOrder
  {
    if fs == [] then (t, [])
    else
      var r3 := InternFrames(t, fs[..|fs| - 1]); var t1, ids := r3.0, r3.1;
      var r4 := InternFrame(t1, fs[|fs| - 1]); var t2, i := r4.0, r4.1;
      (t2, ids + [i])
  }

  /** The stack holds, for each frame in order, an index describing it;
      the profiles are untouched. */
  lemma {:induction false} InternFramesEffect(t: Tables, fs: seq<Frame>)
    requires TablesValid(t)
    ensures var r5 := InternFrames(t, fs); var t', ids := r5.0, r5.1;
      TablesValid(t') && |ids| == |fs|
      && (forall j :: 0 <= j < |fs| ==> ids[j] < |t'.frames| && t'.frames[ids[j]] == Describe(fs[j]))
      && t'.profiles == t.profiles && t'.profileMap == t.profileMap && t'.profileOrder == t.profileOrder
  {
    if fs != [] {
      var pre := fs[..|fs| - 1];
      InternFramesEffect(t, pre);
      var r6 := InternFrames(t, pre); var t1, ids := r6.0, r6.1;
      InternFrameEffect(t1, fs[|fs| - 1]);
      var r7 := InternFrame(t1, fs[|fs| - 1]); var t2, i := r7.0, r7.1;
      assert InternFrames(t, fs) == (t2, ids + [i]);
      InternFrameKeeps(t1, fs[|fs| - 1]);
      forall j | 0 <= j < |fs| ensures (ids + [i])[j] < |t2.frames| && t2.frames[(ids + [i])[j]] == Describe(fs[j]) {
        if j < |pre| {
          assert (ids + [i])[j] == ids[j] && fs[j] == pre[j];
          assert t1.frames[ids[j]] == Describe(pre[j]);
          assert t2.frames[ids[j]] == t1.frames[ids[j]];
        } else {
          assert (ids + [i])[j] == i && fs[j] == fs[|fs| - 1];
        }
      }
    }
  }

  /** Interning a frame keeps the frames already described. */
  lemma InternFrameKeeps(t: Tables, f: Frame)
    ensures |InternFrame(t, f).0.frames| >= |t.frames|
    ensures forall j :: 0 <= j < |t.frames| ==> InternFrame(t, f).0.frames[j] == t.frames[j]
  {
  }

  /** `get_profile` on the tables: an unknown metric raises; a known key
      gives its profile; otherwise a new empty profile is appended. Either
      way the key then maps to the index returned, the profiles so far stay
      in place and the frames are untouched. */
  function FindProfile(t: Tables, pid: int, thread: string, metric: string): (r: Result<(Tables, nat), LookupError>)
    ensures r.Failure? <==> MetricPrefix(metric).None?
    ensures r.Success? ==>
      r.value.0.profileMap == t.profileMap[ProfileKey(pid, thread, metric) := r.value.1]
      && t.profiles <= r.value.0.profiles && r.value.0.frames == t.frames
  {
    match MetricPrefix(metric)
    case None => Failure(KeyError)
    case Some(prefix) =>
      var k := ProfileKey(pid, thread, metric);
      if k in t.profileMap then Success((t, t.profileMap[k]))
      else
        var index := |t.profiles|;
        Success((t.(profiles := t.profiles + [NewProfile(ProfileName(prefix, pid, thread), UnitFor(metric))],
                    profileMap := t.profileMap[k := index], profileOrder := t.profileOrder + [k]),
                 index))
  }

  /** `get_profile` raises exactly on an unknown metric. A key seen before
      gives the same profile and changes nothing; a new key appends one
      empty profile named after the metric, process and thread. There is
      one profile per key, and the frames are untouched. */
  lemma FindProfileEffect(t: Tables, pid: int, thread: string, metric: string)
    requires TablesValid(t)
    ensures FindProfile(t, pid, thread, metric).Failure? <==> metric !in {"cpu", "wall", "m+", "m-"}
    ensures FindProfile(t, pid, thread, metric).Success? ==>
      var r8 := FindProfile(t, pid, thread, metric).value; var t', i := r8.0, r8.1;
      var k := ProfileKey(pid, thread, metric);
      TablesValid(t') && i < |t'.profiles| && k in t'.profileMap && t'.profileMap[k] == i
      && (k in t.profileMap ==> t' == t)
      && (k !in t.profileMap ==>
            i == |t.profiles|
            && t'.profiles == t.profiles + [NewProfile(ProfileName(MetricPrefix(metric).value, pid, thread), UnitFor(metric))])
      && (forall q :: q in t.profileMap ==> q in t'.profileMap && t'.profileMap[q] == t.profileMap[q])
      && t'.frames == t.frames && t'.frameMap == t.frameMap && t'.frameOrder == t.frameOrder
  {
    var k := ProfileKey(pid, thread, metric);
    if MetricPrefix(metric).Some? && k !in t.profileMap {
      FindProfileAppends(t, pid, thread, metric);
    }
  }

  /** A new key appends a profile that fits it, so the tables stay indexed. */
  lemma FindProfileAppends(t: Tables, pid: int, thread: string, metric: string)
    requires TablesValid(t) && MetricPrefix(metric).Some? && ProfileKey(pid, thread, metric) !in t.profileMap
    ensures TablesValid(FindProfile(t, pid, thread, metric).value.0)
  {
    var r9 := FindProfile(t, pid, thread, metric).value; var t' := r9.0;
    forall j | 0 <= j < |t'.profiles|
      ensures var q := t'.profileOrder[j];
        q in t'.profileMap && t'.profileMap[q] == j
        && MetricPrefix(q.metric).Some?
        && t'.profiles[j].name == ProfileName(MetricPrefix(q.metric).value, q.pid, q.thread)
        && t'.profiles[j].unit == UnitFor(q.metric)
        && t'.profiles[j].startValue == 0 && t'.profiles[j].kind == SAMPLED
        && Balanced(t'.profiles[j])
    {
      if j < |t.profiles| {
        assert t'.profileOrder[j] == t.profileOrder[j] && t'.profiles[j] == t.profiles[j];
      }
    }
  }

  lemma FindProfileInRange(t: Tables, pid: int, thread: string, metric: string)
    requires ProfileMapInRange(t)
    ensures FindProfile(t, pid, thread, metric).Success? ==>
      var r := FindProfile(t, pid, thread, metric).value;
      ProfileMapInRange(r.0) && r.1 < |r.0.profiles|
  {
  }

  lemma FindProfileValid(t: Tables, pid: int, thread: string, metric: string)
    requires TablesValid(t)
    ensures FindProfile(t, pid, thread, metric).Success? ==>
      var r := FindProfile(t, pid, thread, metric).value;
      TablesValid(r.0) && r.1 < |r.0.profiles|
  {
    if MetricPrefix(metric).Some? && ProfileKey(pid, thread, metric) !in t.profileMap {
      FindProfileAppends(t, pid, thread, metric);
    }
  }

  /** Replacing the profile at `i` by one that has taken a sample. */
  function AddToProfile(t: Tables, i: nat, stack: seq<nat>, weight: int): Tables
    requires i < |t.profiles|
  {
    t.(profiles := t.profiles[i := AddSampleData(t.profiles[i], stack, weight)])
  }

  lemma AddToProfileValid(t: Tables, i: nat, stack: seq<nat>, weight: int)
    requires TablesValid(t) && i < |t.profiles|
    ensures TablesValid(AddToProfile(t, i, stack, weight))
  {
    var t' := AddToProfile(t, i, stack, weight);
    AddSampleBalanced(t.profiles[i], stack, weight);
    forall j | 0 <= j < |t'.profiles|
      ensures var q := t'.profileOrder[j];
        q in t'.profileMap && t'.profileMap[q] == j
        && MetricPrefix(q.metric).Some?
        && t'.profiles[j].name == ProfileName(MetricPrefix(q.metric).value, q.pid, q.thread)
        && t'.profiles[j].unit == UnitFor(q.metric)
        && t'.profiles[j].startValue == 0 && t'.profiles[j].kind == SAMPLED
        && Balanced(t'.profiles[j])
    {
      if j != i {
        assert t'.profiles[j] == t.profiles[j];
      }
    }
  }

  /** The profile prefixes each mode pairs with its samples: WALL mode
      uses the "cpu" prefix too. */
  function Prefixes(mode: Mode): (r: seq<string>)
    ensures forall j :: 0 <= j < |r| ==> MetricPrefix(r[j]).Some?
  {
    match mode
    case CPU => ["cpu"]
    case WALL => ["cpu"]
    case MEMORY => ["m+", "m-"]
    case FULL => ["cpu", "wall", "m+", "m-"]
  }

  /** `zip(prefixes, samples)`: pairs by position, stopping at the shorter. */
  function Zip(ps: seq<string>, ss: seq<SourceSample>): (r: seq<(string, SourceSample)>)
    ensures |r| == if |ps| < |ss| then |ps| else |ss|
    ensures forall j :: 0 <= j < |r| ==> r[j] == (ps[j], ss[j])
  {
    if ps == [] || ss == [] then [] else [(ps[0], ss[0])] + Zip(ps[1..], ss[1..])
  }

  /** The body of the loop of `add_samples` for one pair: a sample with no
      frames or a zero value is skipped; otherwise the profile is looked
      up first, then the frames are interned, then the sample is added. */
  function AddPair(t: Tables, prefix: string, s: SourceSample): (r: Tables)
    requires ProfileMapInRange(t) && MetricPrefix(prefix).Some?
    ensures ProfileMapInRange(r)
  {
    if s.frames == [] || s.value == 0 then t
    else
      FindProfileInRange(t, s.pid, s.thread, prefix);
      var r10 := FindProfile(t, s.pid, s.thread, prefix).value; var t1, i := r10.0, r10.1;
      var r11 := InternFrames(t1, s.frames); var t2, stack := r11.0, r11.1;
      AddToProfile(t2, i, stack, s.value)
  }

  lemma AddPairValid(t: Tables, prefix: string, s: SourceSample)
    requires TablesValid(t) && MetricPrefix(prefix).Some?
    ensures TablesValid(AddPair(t, prefix, s))
  {
    if !(s.frames == [] || s.value == 0) {
      FindProfileEffect(t, s.pid, s.thread, prefix);
      var r12 := FindProfile(t, s.pid, s.thread, prefix).value; var t1, i := r12.0, r12.1;
      InternFramesEffect(t1, s.frames);
      var r13 := InternFrames(t1, s.frames); var t2, stack := r13.0, r13.1;
      AddToProfileValid(t2, i, stack, s.value);
    }
  }

  /** The profile of `k` ends with `value` and a stack describing `frames`
      in order, and the profile of every other key of `t` is as in `t`. */
  ghost predicate PairAdded(t: Tables, t': Tables, k: ProfileKey, frames: seq<Frame>, value: int)
    requires ProfileMapInRange(t)
  {
    k in t'.profileMap && t'.profileMap[k] < |t'.profiles|
    && var p := t'.profiles[t'.profileMap[k]];
    |p.weights| > 0 && |p.samples| > 0 && p.weights[|p.weights| - 1] == value
    && |p.samples[|p.samples| - 1]| == |frames|
    && (forall j :: 0 <= j < |frames| ==>
          p.samples[|p.samples| - 1][j] < |t'.frames| && t'.frames[p.samples[|p.samples| - 1][j]] == Describe(frames[j]))
    && (forall q :: q in t.profileMap && q != k ==>
          q in t'.profileMap && t'.profileMap[q] < |t'.profiles|
          && t'.profiles[t'.profileMap[q]] == t.profiles[t.profileMap[q]])
  }

  /** What one taken pair does: the profile of its key gains, at its end,
      the sample's value and a stack describing the sample's frames in
      order; every other profile is as before. */
  lemma AddPairEffect(t: Tables, prefix: string, s: SourceSample)
    requires TablesValid(t) && MetricPrefix(prefix).Some? && s.frames != [] && s.value != 0
    ensures PairAdded(t, AddPair(t, prefix, s), ProfileKey(s.pid, s.thread, prefix), s.frames, s.value)
  {
    FindProfileEffect(t, s.pid, s.thread, prefix);
    var r14 := FindProfile(t, s.pid, s.thread, prefix).value; var t1, i := r14.0, r14.1;
    InternFramesEffect(t1, s.frames);
    var r15 := InternFrames(t1, s.frames); var t2, stack := r15.0, r15.1;
    var t' := AddToProfile(t2, i, stack, s.value);
    assert t' == AddPair(t, prefix, s);
    FindProfileOthers(t, s.pid, s.thread, prefix);
    AddToProfileEffect(t, t2, t', i, stack, ProfileKey(s.pid, s.thread, prefix), s.frames, s.value);
  }

  /** Finding a profile leaves every other key's profile where it was. */
  lemma FindProfileOthers(t: Tables, pid: int, thread: string, metric: string)
    requires TablesValid(t) && FindProfile(t, pid, thread, metric).Success?
    ensures var r := FindProfile(t, pid, thread, metric).value; var t1, i := r.0, r.1;
      forall q :: q in t.profileMap && q != ProfileKey(pid, thread, metric) ==>
        q in t1.profileMap && t1.profileMap[q] < |t1.profiles| && t1.profileMap[q] != i
        && t1.profiles[t1.profileMap[q]] == t.profiles[t.profileMap[q]]
  {
    FindProfileEffect(t, pid, thread, metric);
    var r := FindProfile(t, pid, thread, metric).value; var t1, i := r.0, r.1;
    forall q | q in t.profileMap && q != ProfileKey(pid, thread, metric)
      ensures t1.profileMap[q] != i && t1.profiles[t1.profileMap[q]] == t.profiles[t.profileMap[q]]
    {
      assert t1.profileOrder[t1.profileMap[q]] == q;
    }
  }

  /** Adding a stack of interned frames to the profile found for `k`. */
  lemma AddToProfileEffect(t: Tables, t2: Tables, t': Tables, i: nat, stack: seq<nat>,
                           k: ProfileKey, frames: seq<Frame>, value: int)
    requires ProfileMapInRange(t) && i < |t2.profiles| && k in t2.profileMap && t2.profileMap[k] == i
    requires forall q :: q in t.profileMap && q != k ==>
      q in t2.profileMap && t2.profileMap[q] < |t2.profiles| && t2.profileMap[q] != i
      && t2.profiles[t2.profileMap[q]] == t.profiles[t.profileMap[q]]
    requires |stack| == |frames|
    requires forall j :: 0 <= j < |frames| ==> stack[j] < |t2.frames| && t2.frames[stack[j]] == Describe(frames[j])
    requires t' == AddToProfile(t2, i, stack, value)
    ensures PairAdded(t, t', k, frames, value)
  {
  }

  /** Every pair carries a known metric. */
  predicate Prefixed(pairs: seq<(string, SourceSample)>) {
    forall j :: 0 <= j < |pairs| ==> MetricPrefix(pairs[j].0).Some?
  }

  /** The loop of `add_samples` over the first `n` pairs. */
  function AddPairs(t: Tables, pairs: seq<(string, SourceSample)>, n: nat): (r: Tables)
    requires ProfileMapInRange(t) && Prefixed(pairs) && n <= |pairs|
    ensures ProfileMapInRange(r)
  {
    if n == 0 then t
    else AddPair(AddPairs(t, pairs, n - 1), pairs[n - 1].0, pairs[n - 1].1)
  }

  /** The loop keeps the tables indexed. */
  lemma {:induction false} AddPairsValid(t: Tables, pairs: seq<(string, SourceSample)>, n: nat)
    requires TablesValid(t) && Prefixed(pairs) && n <= |pairs|
    ensures TablesValid(AddPairs(t, pairs, n))
  {
    if n > 0 {
      AddPairsValid(t, pairs, n - 1);
      AddPairValid(AddPairs(t, pairs, n - 1), pairs[n - 1].0, pairs[n - 1].1);
    }
  }

  /** `add_samples`: the pairs a mode takes from a list of samples. The
      profile map stays in range, and samples that all lack frames or
      carry a zero value change nothing. */
  function WithSamples(t: Tables, mode: Mode, samples: seq<SourceSample>): (r: Tables)
    requires ProfileMapInRange(t)
    ensures ProfileMapInRange(r)
    ensures (forall j :: 0 <= j < |samples| ==> samples[j].frames == [] || samples[j].value == 0) ==> r == t
  {
    var pairs := Zip(Prefixes(mode), samples);
    AddPairsSkipped(t, pairs, |pairs|);
    AddPairs(t, pairs, |pairs|)
  }

  /** Pairs whose samples are all skipped leave the tables alone. */
  lemma {:induction false} AddPairsSkipped(t: Tables, pairs: seq<(string, SourceSample)>, n: nat)
    requires ProfileMapInRange(t) && Prefixed(pairs) && n <= |pairs|
    ensures (forall j :: 0 <= j < n ==> pairs[j].1.frames == [] || pairs[j].1.value == 0) ==> AddPairs(t, pairs, n) == t
  {
    if n > 0 {
      AddPairsSkipped(t, pairs, n - 1);
    }
  }

  lemma WithSamplesValid(t: Tables, mode: Mode, samples: seq<SourceSample>)
    requires TablesValid(t)
    ensures TablesValid(WithSamples(t, mode, samples))
  {
    var pairs := Zip(Prefixes(mode), samples);
    AddPairsValid(t, pairs, |pairs|);
  }

  /** A pair whose sample has no frames or a zero value changes nothing. */
  lemma AddPairsSkip(t: Tables, pairs: seq<(string, SourceSample)>, n: nat)
    requires ProfileMapInRange(t) && Prefixed(pairs) && n < |pairs|
    requires pairs[n].1.frames == [] || pairs[n].1.value == 0
    ensures AddPairs(t, pairs, n + 1) == AddPairs(t, pairs, n)
  {
  }

  /** The pairs taken, mode by mode: one per prefix while samples last. */
  lemma PairsOfMode(mode: Mode, samples: seq<SourceSample>)
    ensures var pairs := Zip(Prefixes(mode), samples);
      |pairs| == (if |Prefixes(mode)| < |samples| then |Prefixes(mode)| else |samples|)
      && (mode == WALL || mode == CPU ==> Prefixes(mode) == ["cpu"])
      && (mode == MEMORY ==> Prefixes(mode) == ["m+", "m-"])
      && (mode == FULL ==> Prefixes(mode) == ["cpu", "wall", "m+", "m-"])
      && forall j :: 0 <= j < |pairs| ==> pairs[j].1 == samples[j]
  {
  }

  /** Python's `str.isspace`, restricted to ASCII as in `Text.IsSpace`. */
  function AfterLastSpace(t: string): (r: string)
    ensures |r| <= |t| && r == t[|t| - |r|..]
    ensures forall j :: 0 <= j < |r| ==> !IsSpace(r[j])
    ensures |r| < |t| ==> IsSpace(t[|t| - |r| - 1])
  {
    if t == [] || IsSpace(t[|t| - 1]) then []
    else AfterLastSpace(t[..|t| - 1]) + [t[|t| - 1]]
  }

  /** `name.rsplit(maxsplit=1)[-1]`: the last whitespace-separated word. */
  function LastWord(name: string): string {
    AfterLastSpace(RStrip(name))
  }

  /** A profile name ends in the word "<pid>:<thread>" when the thread has
      no whitespace, so the profiles of one thread share their key. */
  lemma {:induction false} ProfileNameWord(prefix: string, pid: int, thread: string)
    requires forall j :: 0 <= j < |thread| ==> !IsSpace(thread[j])
    ensures LastWord(ProfileName(prefix, pid, thread)) == IntToString(pid) + ":" + thread
  {
    var w := IntToString(pid) + ":" + thread;
    var name := ProfileName(prefix, pid, thread);
    var head := prefix + " profile for";
    assert name == head + " " + w;
    IntToStringNonSpace(pid);
    NoSpaceWord(w);
    assert !IsSpace(w[|w| - 1]);
    assert RStrip(name) == name;
    WordAfterSpace(head, w);
  }

  lemma NoSpaceWord(w: string)
    requires w != [] && forall j :: 0 <= j < |w| ==> !IsSpace(w[j])
    ensures AfterLastSpace(w) == w
  {
  }

  lemma {:induction false} WordAfterSpace(head: string, w: string)
    requires forall j :: 0 <= j < |w| ==> !IsSpace(w[j])
    ensures AfterLastSpace(head + " " + w) == w
  {
    if w == [] {
      assert (head + " " + w)[|head + " " + w| - 1] == ' ';
    } else {
      var pre := w[..|w| - 1];
      assert (head + " " + w)[..|head + " " + w| - 1] == head + " " + pre;
      WordAfterSpace(head, pre);
    }
  }

  /** `asdict` sorts the profiles by the last word of their names. */
  function SortKey(p: ProfileData): string {
    LastWord(p.name)
  }

  /** The speedscope document `asdict` returns. */
  datatype SpeedscopeJson = SpeedscopeJson(
    schema: string,
    frames: seq<SpeedscopeFrame>,
    profiles: seq<ProfileData>,
    name: string,
    exporter: string)

  const SCHEMA: string := "https://www.speedscope.app/file-format-schema.json"
  const EXPORTER: string := "Austin2Speedscope Converter 0.2.0"

  /** The document holds the schema and exporter constants, the name, the
      shared frames as they are, and the profiles, none lost or added. */
  function AsJson(name: string, t: Tables): (r: SpeedscopeJson)
    ensures r.schema == SCHEMA && r.exporter == EXPORTER && r.name == name && r.frames == t.frames
    ensures multiset(r.profiles) == multiset(t.profiles)
  {
    SpeedscopeJson(SCHEMA, t.frames, Sort(SortKey, t.profiles), name, EXPORTER)
  }

  /** The document lists the shared frames and the profiles sorted by
      the last word of their names; profiles whose names end in the same
      word keep their creation order, and no profile is lost or added. */
  lemma AsJsonProfiles(name: string, t: Tables, w: string)
    ensures var doc := AsJson(name, t);
      doc.frames == t.frames && doc.name == name
      && multiset(doc.profiles) == multiset(t.profiles)
      && SortedBy(SortKey, doc.profiles)
      && WithKey(SortKey, doc.profiles, w) == WithKey(SortKey, t.profiles, w)
  {
    SortCorrect(SortKey, t.profiles, w);
  }

  /** `SpeedscopeProfile`: a profile object that `add_sample` updates in
      place. */
  class SpeedscopeProfile {
    const name: string
    const unit: string
    var startValue: int
    var endValue: int
    var samples: seq<seq<nat>>
    var weights: seq<int>
    var kind: string

    function Data(): ProfileData
      reads this
    {
      ProfileData(name, unit, startValue, endValue, samples, weights, kind)
    }

    constructor(name: string, unit: string)
      ensures Data() == NewProfile(name, unit)
    {
      this.name := name;
      this.unit := unit;
      startValue := 0;
      endValue := 0;
      samples := [];
      weights := [];
      kind := SAMPLED;
    }

    /** `add_sample`: the stack and the weight go at the end, and the end
        value grows by the weight. */
    method AddSample(stack: seq<nat>, weight: int)
      modifies this
      ensures Data() == AddSampleData(old(Data()), stack, weight)
      ensures old(Balanced(Data())) ==> Balanced(Data())
    {
      AddSampleBalanced(Data(), stack, weight);
      samples := samples + [stack];
      weights := weights + [weight];
      endValue := endValue + weight;
    }
  }

  /** The values of a list of profile objects. */
  function ProfilesData(ps: seq<SpeedscopeProfile>): (r: seq<ProfileData>)
    reads ps
    ensures |r| == |ps| && forall i :: 0 <= i < |ps| ==> r[i] == ps[i].Data()
  {
    if ps == [] then [] else ProfilesData(ps[..|ps| - 1]) + [ps[|ps| - 1].Data()]
  }

  predicate Distinct(ps: seq<SpeedscopeProfile>) {
    forall i, j :: 0 <= i < j < |ps| ==> ps[i] != ps[j]
  }

  lemma DistinctSnoc(ps: seq<SpeedscopeProfile>, p: SpeedscopeProfile)
    requires Distinct(ps) && p !in ps
    ensures Distinct(ps + [p])
  {
  }

  /** `Speedscope`: the generator, whose lists and dictionaries grow in
      place. */
  class Speedscope {
    const name: string
    const mode: Mode
    var profiles: seq<SpeedscopeProfile>
    var profileMap: map<ProfileKey, nat>
    var frames: seq<SpeedscopeFrame>
    var frameMap: map<Frame, nat>
    /** The generator's tables as a value. */
    ghost var model: Tables

    /** The fields hold `model`, the profile objects are distinct and hold
        its profiles, and the tables are indexed. */
    ghost predicate Valid()
      reads this, profiles
    {
      frames == model.frames && frameMap == model.frameMap && profileMap == model.profileMap
      && Distinct(profiles) && |model.profiles| == |profiles|
      && (forall i :: 0 <= i < |profiles| ==> profiles[i].Data() == model.profiles[i])
      && TablesValid(model)
    }

    /** A generator starts with no frames and no profiles. A string mode
        is turned into a `Mode` by `Format.FromMetadata` first. The `indent`
        argument only shapes the JSON text of `dump` and is not kept. */
    constructor(name: string, mode: Mode)
      ensures Valid() && model == Empty
      ensures this.name == name && this.mode == mode
    {
      this.name := name;
      this.mode := mode;
      profiles := [];
      profileMap := map[];
      frames := [];
      frameMap := map[];
      model := Empty;
      EmptyValid();
    }

    /** `get_frame`. */
    method GetFrame(f: Frame) returns (index: nat)
      requires Valid()
      modifies this
      ensures Valid() && profiles == old(profiles)
      ensures (model, index) == InternFrame(old(model), f)
    {
      InternFrameValid(model, f);
      if f in frameMap {
        return frameMap[f];
      }
      index := |frames|;
      frameMap := frameMap[f := index];
      frames := frames + [Describe(f)];
      model := InternFrame(model, f).0;
    }

    /** `get_profile`: the profile object for a key, created on first use. */
    method GetProfile(pid: int, thread: string, metric: string) returns (r: Result<SpeedscopeProfile, LookupError>)
      requires Valid()
      modifies this
      ensures Valid()
      ensures forall j :: 0 <= j < |profiles| ==> profiles[j] in old(profiles) || fresh(profiles[j])
      ensures FindProfile(old(model), pid, thread, metric).Failure? ==>
        r == Failure(KeyError) && model == old(model) && profiles == old(profiles)
      ensures FindProfile(old(model), pid, thread, metric).Success? ==>
        var found := FindProfile(old(model), pid, thread, metric).value;
        model == found.0 && found.1 < |profiles| && r == Success(profiles[found.1])
    {
      var prefix := MetricPrefix(metric);
      if prefix.None? {
        return Failure(KeyError);
      }
      var k := ProfileKey(pid, thread, metric);
      if k in profileMap {
        return Success(profiles[profileMap[k]]);
      }
      var p := new SpeedscopeProfile(ProfileName(prefix.value, pid, thread), UnitFor(metric));
      Register(k, p);
      return Success(p);
    }

    /** The new-key branch of `get_profile`: the new empty profile `p` is
        appended and registered under `k`. */
    method Register(k: ProfileKey, p: SpeedscopeProfile)
      requires Valid() && MetricPrefix(k.metric).Some? && k !in profileMap && p !in profiles
      requires p.Data() == NewProfile(ProfileName(MetricPrefix(k.metric).value, k.pid, k.thread), UnitFor(k.metric))
      modifies this
      ensures Valid() && profiles == old(profiles) + [p]
      ensures model == FindProfile(old(model), k.pid, k.thread, k.metric).value.0
    {
      FindProfileValid(model, k.pid, k.thread, k.metric);
      ghost var m0 := model;
      model := FindProfile(model, k.pid, k.thread, k.metric).value.0;
      assert model.profiles == m0.profiles + [p.Data()];
      DistinctSnoc(profiles, p);
      profiles := profiles + [p];
      profileMap := profileMap[k := |profiles| - 1];
      forall j | 0 <= j < |profiles| ensures profiles[j].Data() == model.profiles[j] {
        if j < |profiles| - 1 {
          assert profiles[j] == old(profiles)[j] && model.profiles[j] == m0.profiles[j];
        }
      }
    }

    /** The profile `p`, at `i`, takes a sample; nothing else changes. */
    method AddSampleTo(p: SpeedscopeProfile, ghost i: nat, stack: seq<nat>, weight: int)
      requires Valid() && i < |profiles| && profiles[i] == p
      modifies this, p
      ensures Valid() && profiles == old(profiles)
      ensures model == AddToProfile(old(model), i, stack, weight)
    {
      AddToProfileValid(model, i, stack, weight);
      p.AddSample(stack, weight);
      model := AddToProfile(model, i, stack, weight);
      forall j | 0 <= j < |profiles| ensures profiles[j].Data() == model.profiles[j] {
        if j != i {
          assert profiles[j] != p;
        }
      }
    }

    /** `[self.get_frame(frame) for frame in frames]`. */
    method GetFrames(fs: seq<Frame>) returns (stack: seq<nat>)
      requires Valid()
      modifies this
      ensures Valid() && profiles == old(profiles)
      ensures (model, stack) == InternFrames(old(model), fs)
    {
      stack := [];
      for j := 0 to |fs|
        invariant Valid() && profiles == old(profiles)
        invariant (model, stack) == InternFrames(old(model), fs[..j])
      {
        assert fs[..j + 1][..j] == fs[..j];
        var id := GetFrame(fs[j]);
        stack := stack + [id];
      }
      assert fs[..|fs|] == fs;
    }

    /** One pass of the loop of `add_samples`: the pair at `i` is taken. */
    method AddPairTo(ghost t0: Tables, pairs: seq<(string, SourceSample)>, i: nat)
      requires Valid() && Prefixed(pairs) && i < |pairs| && ProfileMapInRange(t0) && model == AddPairs(t0, pairs, i)
      modifies this, profiles
      ensures Valid()
      ensures forall j :: 0 <= j < |profiles| ==> profiles[j] in old(profiles) || fresh(profiles[j])
      ensures model == AddPairs(t0, pairs, i + 1)
    {
      var prefix, s := pairs[i].0, pairs[i].1;
      if s.frames == [] || s.value == 0 {
        return;
      }
      ghost var found := FindProfile(model, s.pid, s.thread, prefix).value;
      var r := GetProfile(s.pid, s.thread, prefix);
      assert r.value in profiles;
      var stack := GetFrames(s.frames);
      AddSampleTo(r.value, found.1, stack, s.value);
    }

    /** `add_samples`. */
    method AddSamples(samples: seq<SourceSample>)
      requires Valid()
      modifies this, profiles
      ensures Valid()
      ensures model == WithSamples(old(model), mode, samples)
    {
      var pairs := Zip(Prefixes(mode), samples);
      for i := 0 to |pairs|
        invariant Valid()
        invariant forall j :: 0 <= j < |profiles| ==> profiles[j] in old(profiles) || fresh(profiles[j])
        invariant model == AddPairs(old(model), pairs, i)
      {
        AddPairTo(old(model), pairs, i);
      }
    }

    /** `asdict`: the document, with the profiles sorted by the last word
        of their names. */
    function AsDict(): (doc: SpeedscopeJson)
      reads this, profiles
      requires Valid()
      ensures doc == AsJson(name, model)
    {
      var ds := ProfilesData(profiles);
      assert ds == model.profiles;
      SpeedscopeJson(SCHEMA, frames, Sort(SortKey, ds), name, EXPORTER)
    }
  }
}
