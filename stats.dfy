/** The hierarchical statistics of austin/stats.py: per-process,
    per-thread trees of frames, each node carrying the metric spent in the
    frame itself (`own`) and in the frame and everything it called
    (`total`). Trees are values here: a node's `children` dictionary,
    iterated in insertion order, is a sequence of nodes keyed by their
    frame, and `<<` returns the merged tree instead of rewriting the left
    one. */
module Stats {
  import opened Wrappers
  import opened Text
  import opened Events
  import CollapsedStack

  // ---------------------------------------------------------------------
  // The trees

  /** `FrameStats`: a frame node; its children are keyed by their frame. */
  datatype FrameStats = FrameStats(
    frame: Frame,
    height: int,
    own: int,
    total: int,
    children: seq<FrameStats>)

  /** `ThreadStats`: the root of one thread's tree, keyed by thread name. */
  datatype ThreadStats = ThreadStats(
    name: string,
    own: int,
    total: int,
    children: seq<FrameStats>)

  /** `ProcessStats`: the threads of one process, keyed by name. */
  datatype ProcessStats = ProcessStats(pid: int, threads: seq<ThreadStats>)

  /** A missing dictionary key. */
  datatype LookupError = KeyError

  /** Number of nodes: the measure that makes the merge recursion end. */
  function Size(s: FrameStats): nat {
    1 + SizeAll(s.children)
  }

  function SizeAll(cs: seq<FrameStats>): nat {
    if cs == [] then 0 else Size(cs[0]) + SizeAll(cs[1..])
  }

  lemma {:induction false} SizeAllAt(cs: seq<FrameStats>, i: nat)
    requires i < |cs|
    ensures Size(cs[i]) <= SizeAll(cs)
    ensures SizeAll(cs[1..]) < SizeAll(cs)
  {
    if i > 0 {
      SizeAllAt(cs[1..], i - 1);
    }
  }

  /** The frames of a sequence of nodes, in order. */
  function Frames(cs: seq<FrameStats>): (r: seq<Frame>)
    ensures |r| == |cs| && forall i :: 0 <= i < |cs| ==> r[i] == cs[i].frame
  {
    seq(|cs|, i requires 0 <= i < |cs| => cs[i].frame)
  }

  /** No two children share a frame: the children form a dictionary. */
  predicate DistinctFrames(cs: seq<FrameStats>) {
    forall i, j :: 0 <= i < j < |cs| ==> cs[i].frame != cs[j].frame
  }

  /** Position of the child keyed by `f`. */
  function IndexOf(cs: seq<FrameStats>, f: Frame): (r: Option<nat>)
    ensures r.Some? ==> r.value < |cs| && cs[r.value].frame == f
    ensures r.None? <==> f !in Frames(cs)
  {
    if cs == [] then None
    else if cs[0].frame == f then Some(0)
    else
      match IndexOf(cs[1..], f)
      case None => assert Frames(cs) == [cs[0].frame] + Frames(cs[1..]); None
      case Some(i) => Some(i + 1)
  }

  /** `children.get(f)`. */
  function Find(cs: seq<FrameStats>, f: Frame): (r: Option<FrameStats>)
    ensures r.Some? ==> r.value in cs && r.value.frame == f
    ensures r.None? <==> f !in Frames(cs)
  {
    match IndexOf(cs, f)
    case None => None
    case Some(i) => Some(cs[i])
  }

  /** `get_child`: the child keyed by `f`; a missing key raises. */
  function GetChild(s: FrameStats, f: Frame): (r: Result<FrameStats, LookupError>)
    ensures r.Failure? <==> f !in Frames(s.children)
    ensures r.Success? ==> r.value in s.children && r.value.frame == f
  {
    match Find(s.children, f)
    case None => Failure(KeyError)
    case Some(c) => Success(c)
  }

  /** In a dictionary, the child keyed by `f` is the only one with that frame. */
  lemma FindDistinct(cs: seq<FrameStats>, i: nat)
    requires DistinctFrames(cs) && i < |cs|
    ensures Find(cs, cs[i].frame) == Some(cs[i])
  {
    var k := IndexOf(cs, cs[i].frame);
  }

  // ---------------------------------------------------------------------
  // Merging (`__lshift__`)

  /** `a << b` on frame nodes: unequal labels leave `a` as it is; equal
      labels add `own` and `total` and merge the children. */
  function Merge(a: FrameStats, b: FrameStats): (r: FrameStats)
    ensures r.frame == a.frame && r.height == a.height
    decreases Size(b), 0
  {
    if a.frame != b.frame then a
    else
      a.(own := a.own + b.own, total := a.total + b.total,
         children := MergeAll(a.children, b.children))
  }

  /** The loop of `__lshift__`: each right child in turn is merged into the
      left child with its frame, or inserted at the end when there is none. */
  function MergeAll(cs: seq<FrameStats>, others: seq<FrameStats>): (r: seq<FrameStats>)
    decreases SizeAll(others), 2
  {
    if others == [] then cs
    else
      SizeAllAt(others, 0);
      MergeAll(MergeInto(cs, others[0]), others[1..])
  }

  /** One iteration of that loop. */
  function MergeInto(cs: seq<FrameStats>, o: FrameStats): (r: seq<FrameStats>)
    ensures Frames(r) == if o.frame in Frames(cs) then Frames(cs) else Frames(cs) + [o.frame]
    decreases Size(o), 1
  {
    match IndexOf(cs, o.frame)
    case Some(i) => cs[i := Merge(cs[i], o)]
    case None => cs + [o]
  }

  /** `a << b` on thread roots. */
  function MergeThread(a: ThreadStats, b: ThreadStats): (r: ThreadStats)
    ensures r.name == a.name
  {
    if a.name != b.name then a
    else
      a.(own := a.own + b.own, total := a.total + b.total,
         children := MergeAll(a.children, b.children))
  }

  /** The right-hand frames not yet known, in their order. */
  function NewFrames(known: seq<Frame>, fs: seq<Frame>): (r: seq<Frame>)
    ensures forall f :: f in r <==> f in fs && f !in known
  {
    if fs == [] then []
    else (if fs[0] in known then [] else [fs[0]]) + NewFrames(known, fs[1..])
  }

  lemma {:induction false} NewFramesExtend(known: seq<Frame>, x: Frame, fs: seq<Frame>)
    requires x !in fs
    ensures NewFrames(known + [x], fs) == NewFrames(known, fs)
  {
    if fs != [] {
      NewFramesExtend(known, x, fs[1..]);
    }
  }

  /** The children after the first still form a dictionary, and none of
      them has the first one's frame. */
  lemma DistinctTail(cs: seq<FrameStats>)
    requires DistinctFrames(cs) && cs != []
    ensures DistinctFrames(cs[1..]) && cs[0].frame !in Frames(cs[1..])
    ensures Frames(cs) == [cs[0].frame] + Frames(cs[1..])
  {
    assert forall i :: 0 <= i < |cs| - 1 ==> cs[1..][i] == cs[i + 1];
  }

  /** Merging keeps the left children in place and appends the right-only
      ones in the right's order: dictionary insertion order. */
  lemma {:induction false} MergeAllOrder(cs: seq<FrameStats>, others: seq<FrameStats>)
    requires DistinctFrames(others)
    ensures Frames(MergeAll(cs, others)) == Frames(cs) + NewFrames(Frames(cs), Frames(others))
    decreases |others|
  {
    if others == [] {
      assert Frames(others) == [];
      assert Frames(cs) + [] == Frames(cs);
    } else {
      var o, rest := others[0], others[1..];
      var cs' := MergeInto(cs, o);
      DistinctTail(others);
      MergeAllOrder(cs', rest);
      OrderStep(Frames(cs), o.frame, Frames(rest), Frames(cs'));
    }
  }

  /** One more right-hand frame: known already, it adds nothing; new, it
      is appended. */
  lemma OrderStep(known: seq<Frame>, x: Frame, rest: seq<Frame>, after: seq<Frame>)
    requires x !in rest
    requires after == if x in known then known else known + [x]
    ensures after + NewFrames(after, rest) == known + NewFrames(known, [x] + rest)
  {
    assert ([x] + rest)[1..] == rest;
    if x !in known {
      NewFramesExtend(known, x, rest);
      assert known + [x] + NewFrames(known, rest) == known + ([x] + NewFrames(known, rest));
    }
  }

  /** The four cases of a merged child: present on both sides it is merged,
      present on one side only it is that side's child. */
  function Combined(x: Option<FrameStats>, y: Option<FrameStats>): Option<FrameStats> {
    match (x, y)
    case (Some(l), Some(r)) => Some(Merge(l, r))
    case (Some(l), None) => Some(l)
    case (None, Some(r)) => Some(r)
    case (None, None) => None
  }

  lemma MergeIntoDistinct(cs: seq<FrameStats>, o: FrameStats)
    requires DistinctFrames(cs)
    ensures DistinctFrames(MergeInto(cs, o))
  {
    var r := MergeInto(cs, o);
    assert forall i :: 0 <= i < |r| ==> r[i].frame == Frames(r)[i];
    assert forall i :: 0 <= i < |cs| ==> cs[i].frame == Frames(cs)[i];
  }

  lemma MergeIntoFind(cs: seq<FrameStats>, o: FrameStats, f: Frame)
    requires DistinctFrames(cs)
    ensures Find(MergeInto(cs, o), f) == if f == o.frame then Combined(Find(cs, f), Some(o)) else Find(cs, f)
  {
    MergeIntoDistinct(cs, o);
    var r := MergeInto(cs, o);
    match IndexOf(cs, o.frame)
    case Some(i) =>
      FindDistinct(r, i);
      FindDistinct(cs, i);
      if f != o.frame {
        match IndexOf(cs, f)
        case None =>
          assert Frames(r) == Frames(cs);
        case Some(k) =>
          FindDistinct(r, k);
      }
    case None =>
      FindDistinct(r, |cs|);
      if f != o.frame {
        match IndexOf(cs, f)
        case None =>
          assert f !in Frames(r);
        case Some(k) =>
          FindDistinct(r, k);
      }
  }

  /** The child of a merge under any frame, in terms of the two sides'
      children under that frame. */
  lemma {:induction false} MergeAllFind(cs: seq<FrameStats>, others: seq<FrameStats>, f: Frame)
    requires DistinctFrames(cs) && DistinctFrames(others)
    ensures Find(MergeAll(cs, others), f) == Combined(Find(cs, f), Find(others, f))
    decreases |others|
  {
    if others == [] {
    } else {
      var o := others[0];
      var cs' := MergeInto(cs, o);
      MergeIntoDistinct(cs, o);
      DistinctTail(others);
      MergeIntoFind(cs, o, f);
      MergeAllFind(cs', others[1..], f);
      if f != o.frame {
        FindTail(others, f);
      } else {
        FindDistinct(others, 0);
      }
    }
  }

  /** A frame other than the first child's is found among the rest. */
  lemma FindTail(cs: seq<FrameStats>, f: Frame)
    requires cs != [] && cs[0].frame != f
    ensures Find(cs, f) == Find(cs[1..], f)
  {
    match IndexOf(cs[1..], f)
    case None =>
    case Some(i) => assert cs[1..][i] == cs[i + 1];
  }

  /** Merging two frame nodes with equal labels adds their metrics, merges
      the children found on both sides, adopts the children found only on
      the right and leaves those found only on the left untouched; unequal
      labels leave the left node unchanged. */
  lemma MergeNodes(a: FrameStats, b: FrameStats, f: Frame)
    requires DistinctFrames(a.children) && DistinctFrames(b.children)
    ensures a.frame != b.frame ==> Merge(a, b) == a
    ensures a.frame == b.frame ==>
      Merge(a, b).own == a.own + b.own && Merge(a, b).total == a.total + b.total
      && Find(Merge(a, b).children, f) == Combined(Find(a.children, f), Find(b.children, f))
      && Frames(Merge(a, b).children) == Frames(a.children) + NewFrames(Frames(a.children), Frames(b.children))
  {
    MergeAllFind(a.children, b.children, f);
    MergeAllOrder(a.children, b.children);
  }

  /** The same for thread roots. */
  lemma MergeThreads(a: ThreadStats, b: ThreadStats, f: Frame)
    requires DistinctFrames(a.children) && DistinctFrames(b.children)
    ensures a.name != b.name ==> MergeThread(a, b) == a
    ensures a.name == b.name ==>
      MergeThread(a, b).own == a.own + b.own && MergeThread(a, b).total == a.total + b.total
      && Find(MergeThread(a, b).children, f) == Combined(Find(a.children, f), Find(b.children, f))
      && Frames(MergeThread(a, b).children) == Frames(a.children) + NewFrames(Frames(a.children), Frames(b.children))
  {
    MergeAllFind(a.children, b.children, f);
    MergeAllOrder(a.children, b.children);
  }

  // ---------------------------------------------------------------------
  // The total invariant

  /** The sum of the children's totals. */
  function SumTotals(cs: seq<FrameStats>): int {
    if cs == [] then 0 else cs[0].total + SumTotals(cs[1..])
  }

  /** Every node's total is its own value plus its children's totals, and
      every node's children form a dictionary. */
  ghost predicate Consistent(s: FrameStats) {
    s.total == s.own + SumTotals(s.children)
    && DistinctFrames(s.children)
    && forall i :: 0 <= i < |s.children| ==> Consistent(s.children[i])
  }

  ghost predicate AllConsistent(cs: seq<FrameStats>) {
    forall i :: 0 <= i < |cs| ==> Consistent(cs[i])
  }

  /** The same invariant for a thread root. */
  ghost predicate ThreadConsistent(t: ThreadStats) {
    t.total == t.own + SumTotals(t.children)
    && DistinctFrames(t.children) && AllConsistent(t.children)
  }

  lemma {:induction false} SumTotalsAppend(cs: seq<FrameStats>, o: FrameStats)
    ensures SumTotals(cs + [o]) == SumTotals(cs) + o.total
  {
    if cs != [] {
      assert (cs + [o])[1..] == cs[1..] + [o];
      SumTotalsAppend(cs[1..], o);
    }
  }

  lemma {:induction false} SumTotalsUpdate(cs: seq<FrameStats>, i: nat, x: FrameStats)
    requires i < |cs|
    ensures SumTotals(cs[i := x]) == SumTotals(cs) - cs[i].total + x.total
  {
    if i > 0 {
      assert cs[i := x][1..] == cs[1..][i - 1 := x];
      SumTotalsUpdate(cs[1..], i - 1, x);
    }
  }

  /** Merging consistent trees gives a consistent tree. */
  lemma MergeConsistent(a: FrameStats, b: FrameStats)
    requires Consistent(a) && Consistent(b)
    ensures Consistent(Merge(a, b))
    decreases Size(b), 0
  {
    if a.frame == b.frame {
      MergeAllConsistent(a.children, b.children);
    }
  }

  /** Merging consistent children keeps them consistent and a dictionary,
      and adds the right-hand totals to the left-hand ones. */
  lemma MergeAllConsistent(cs: seq<FrameStats>, others: seq<FrameStats>)
    requires DistinctFrames(cs) && AllConsistent(cs) && AllConsistent(others)
    ensures var r := MergeAll(cs, others);
      DistinctFrames(r) && AllConsistent(r) && SumTotals(r) == SumTotals(cs) + SumTotals(others)
    decreases SizeAll(others), 2
  {
    if others != [] {
      SizeAllAt(others, 0);
      MergeIntoConsistent(cs, others[0]);
      MergeAllConsistent(MergeInto(cs, others[0]), others[1..]);
    }
  }

  lemma MergeIntoConsistent(cs: seq<FrameStats>, o: FrameStats)
    requires DistinctFrames(cs) && AllConsistent(cs) && Consistent(o)
    ensures var r := MergeInto(cs, o);
      DistinctFrames(r) && AllConsistent(r) && SumTotals(r) == SumTotals(cs) + o.total
    decreases Size(o), 1
  {
    MergeIntoDistinct(cs, o);
    match IndexOf(cs, o.frame)
    case Some(i) =>
      MergeConsistent(cs[i], o);
      SumTotalsUpdate(cs, i, Merge(cs[i], o));
    case None =>
      SumTotalsAppend(cs, o);
  }

  /** Merging consistent thread roots gives a consistent thread root. */
  lemma MergeThreadConsistent(a: ThreadStats, b: ThreadStats)
    requires ThreadConsistent(a) && ThreadConsistent(b)
    ensures ThreadConsistent(MergeThread(a, b))
  {
    if a.name == b.name {
      MergeAllConsistent(a.children, b.children);
    }
  }

  // ---------------------------------------------------------------------
  // The merge as the source runs it

  /** `a << b` on frame nodes, with the loop over the right children. */
  method MergeFrameStats(a: FrameStats, b: FrameStats) returns (r: FrameStats)
    ensures r == Merge(a, b)
    decreases Size(b), 0
  {
    if a.frame != b.frame {
      return a;
    }
    var cs := MergeChildren(a.children, b.children);
    r := a.(own := a.own + b.own, total := a.total + b.total, children := cs);
  }

  /** The loop of `__lshift__`: merge each right child into the left child
      with its frame, or insert it when the left has none (the `KeyError`). */
  method MergeChildren(cs: seq<FrameStats>, others: seq<FrameStats>) returns (r: seq<FrameStats>)
    ensures r == MergeAll(cs, others)
    decreases SizeAll(others), 1
  {
    r := cs;
    for i := 0 to |others|
      invariant MergeAll(r, others[i..]) == MergeAll(cs, others)
    {
      var o := others[i];
      assert others[i..][0] == o && others[i..][1..] == others[i + 1..];
      SizeAllAt(others, i);
      var k := IndexOf(r, o.frame);
      if k.Some? {
        var merged := MergeFrameStats(r[k.value], o);
        r := r[k.value := merged];
      } else {
        r := r + [o];
      }
    }
    assert others[|others|..] == [];
  }

  /** `a << b` on thread roots. */
  method MergeThreadStats(a: ThreadStats, b: ThreadStats) returns (r: ThreadStats)
    ensures r == MergeThread(a, b)
  {
    if a.name != b.name {
      return a;
    }
    var cs := MergeChildren(a.children, b.children);
    r := a.(own := a.own + b.own, total := a.total + b.total, children := cs);
  }

  // ---------------------------------------------------------------------
  // The single path of one sample

  /** The nested frame nodes `update` builds for `frames`, the first at
      height `h`: each has own 0 and total `m`, but the deepest has own `m`. */
  function FramePath(frames: seq<Frame>, h: int, m: int): FrameStats
    requires frames != []
    decreases |frames|
  {
    if |frames| == 1 then FrameStats(frames[0], h, m, m, [])
    else FrameStats(frames[0], h, 0, m, [FramePath(frames[1..], h + 1, m)])
  }

  /** The thread root `update` builds: own 0 and total `m`, and own `m`
      when there are no frames below it. */
  function ThreadPath(name: string, frames: seq<Frame>, m: int): ThreadStats {
    if frames == [] then ThreadStats(name, m, m, [])
    else ThreadStats(name, 0, m, [FramePath(frames, 0, m)])
  }

  /** The node `k` levels below a sequence of children, following the
      first child at each level. */
  function Descend(cs: seq<FrameStats>, k: nat): Option<FrameStats> {
    if cs == [] then None
    else if k == 0 then Some(cs[0])
    else Descend(cs[0].children, k - 1)
  }

  lemma {:induction false} FramePathNode(frames: seq<Frame>, h: int, m: int, k: nat)
    requires frames != []
    ensures k < |frames| ==>
      var n := Descend([FramePath(frames, h, m)], k);
      n.Some? && n.value.frame == frames[k] && n.value.height == h + k && n.value.total == m
      && n.value.own == (if k == |frames| - 1 then m else 0)
      && |n.value.children| == (if k == |frames| - 1 then 0 else 1)
    ensures k >= |frames| ==> Descend([FramePath(frames, h, m)], k).None?
    decreases |frames|
  {
    if k > 0 && |frames| > 1 {
      FramePathNode(frames[1..], h + 1, m, k - 1);
    }
  }

  /** The path one sample turns into: a single chain with one node per
      frame, at the frame's index as height, each with total `m`, own 0 but
      for the deepest node, which has own `m`. */
  lemma ThreadPathNode(name: string, frames: seq<Frame>, m: int, k: nat)
    ensures ThreadPath(name, frames, m).name == name && ThreadPath(name, frames, m).total == m
    ensures ThreadPath(name, frames, m).own == (if frames == [] then m else 0)
    ensures k < |frames| ==>
      var n := Descend(ThreadPath(name, frames, m).children, k);
      n.Some? && n.value.frame == frames[k] && n.value.height == k && n.value.total == m
      && n.value.own == (if k == |frames| - 1 then m else 0)
      && |n.value.children| == (if k == |frames| - 1 then 0 else 1)
    ensures k >= |frames| ==> Descend(ThreadPath(name, frames, m).children, k).None?
  {
    if frames != [] {
      FramePathNode(frames, 0, m, k);
    }
  }

  lemma {:induction false} FramePathConsistent(frames: seq<Frame>, h: int, m: int)
    requires frames != []
    ensures Consistent(FramePath(frames, h, m))
    decreases |frames|
  {
    if |frames| > 1 {
      FramePathConsistent(frames[1..], h + 1, m);
    }
  }

  /** Every path `update` builds satisfies the total invariant. */
  lemma ThreadPathConsistent(name: string, frames: seq<Frame>, m: int)
    ensures ThreadConsistent(ThreadPath(name, frames, m))
  {
    if frames != [] {
      FramePathConsistent(frames, 0, m);
    }
  }

  /** The loop of `update` that nests one node per frame; as values, the
      nodes are put together from the deepest frame up. */
  method BuildThreadStats(name: string, frames: seq<Frame>, m: int) returns (t: ThreadStats)
    ensures t == ThreadPath(name, frames, m)
  {
    if frames == [] {
      return ThreadStats(name, m, m, []);
    }
    var i := |frames| - 1;
    var node := FrameStats(frames[i], i, m, m, []);
    while i > 0
      invariant 0 <= i < |frames| && node == FramePath(frames[i..], i, m)
      decreases i
    {
      i := i - 1;
      assert frames[i..][1..] == frames[i + 1..];
      node := FrameStats(frames[i], i, 0, m, [node]);
    }
    t := ThreadStats(name, 0, m, [node]);
  }

  // ---------------------------------------------------------------------
  // Processes and threads

  /** `AustinStatsType`: which metric a statistics object aggregates. */
  datatype StatsType = Wall | Cpu | MemoryAlloc | MemoryDealloc

  /** The enumeration's string value. */
  function TypeValue(t: StatsType): string {
    match t
    case Wall => "wall"
    case Cpu => "cpu"
    case MemoryAlloc => "memory_alloc"
    case MemoryDealloc => "memory_dealloc"
  }

  /** The metric `update` adds for a sample; None when it returns early.
      Time counts for wall and CPU statistics, a positive memory delta for
      allocations and the magnitude of a negative one for deallocations;
      a missing or zero metric counts as nothing. */
  function MetricOf(t: StatsType, m: Metrics): (r: Option<int>)
    ensures r.Some? ==> r.value != 0
    ensures (t == Wall || t == Cpu) ==>
      (r.Some? <==> m.time.Some? && m.time.value != 0) && (r.Some? ==> r.value == m.time.value)
    ensures t == MemoryAlloc ==>
      (r.Some? <==> m.memory.Some? && m.memory.value > 0) && (r.Some? ==> r.value == m.memory.value)
    ensures t == MemoryDealloc ==>
      (r.Some? <==> m.memory.Some? && m.memory.value < 0) && (r.Some? ==> r.value == -m.memory.value)
  {
    var metric :=
      if t == Wall || t == Cpu then m.time
      else if t == MemoryAlloc && m.memory.Some? && m.memory.value > 0 then m.memory
      else if t == MemoryDealloc && m.memory.Some? && m.memory.value < 0 then Some(-m.memory.value)
      else None;
    if metric.None? || metric.value == 0 then None else metric
  }

  /** `sample.frames or []`. */
  function FramesOf(s: Sample): seq<Frame> {
    if s.frames.Some? then s.frames.value else []
  }

  function Pids(ps: seq<ProcessStats>): (r: seq<int>)
    ensures |r| == |ps| && forall i :: 0 <= i < |ps| ==> r[i] == ps[i].pid
  {
    seq(|ps|, i requires 0 <= i < |ps| => ps[i].pid)
  }

  function Names(ts: seq<ThreadStats>): (r: seq<string>)
    ensures |r| == |ts| && forall i :: 0 <= i < |ts| ==> r[i] == ts[i].name
  {
    seq(|ts|, i requires 0 <= i < |ts| => ts[i].name)
  }

  /** Position of the process with `pid`. */
  function PidIndex(ps: seq<ProcessStats>, pid: int): (r: Option<nat>)
    ensures r.Some? ==> r.value < |ps| && ps[r.value].pid == pid
    ensures r.None? <==> pid !in Pids(ps)
  {
    if ps == [] then None
    else if ps[0].pid == pid then Some(0)
    else
      match PidIndex(ps[1..], pid)
      case None => assert Pids(ps) == [ps[0].pid] + Pids(ps[1..]); None
      case Some(i) => Some(i + 1)
  }

  /** Position of the thread called `name`. */
  function ThreadIndex(ts: seq<ThreadStats>, name: string): (r: Option<nat>)
    ensures r.Some? ==> r.value < |ts| && ts[r.value].name == name
    ensures r.None? <==> name !in Names(ts)
  {
    if ts == [] then None
    else if ts[0].name == name then Some(0)
    else
      match ThreadIndex(ts[1..], name)
      case None => assert Names(ts) == [ts[0].name] + Names(ts[1..]); None
      case Some(i) => Some(i + 1)
  }

  /** `ProcessStats.get_thread`: None for a thread that is not there. */
  function GetThread(p: ProcessStats, name: string): (r: Option<ThreadStats>)
    ensures r.None? <==> name !in Names(p.threads)
    ensures r.Some? ==> r.value in p.threads && r.value.name == name
  {
    match ThreadIndex(p.threads, name)
    case None => None
    case Some(j) => Some(p.threads[j])
  }

  /** `processes[pid]`: a missing pid raises. */
  function ProcessOf(ps: seq<ProcessStats>, pid: int): (r: Result<ProcessStats, LookupError>)
    ensures r.Failure? <==> pid !in Pids(ps)
    ensures r.Success? ==> r.value in ps && r.value.pid == pid
  {
    match PidIndex(ps, pid)
    case None => Failure(KeyError)
    case Some(i) => Success(ps[i])
  }

  predicate DistinctPids(ps: seq<ProcessStats>) {
    forall i, j :: 0 <= i < j < |ps| ==> ps[i].pid != ps[j].pid
  }

  /** The processes form a dictionary keyed by pid, each process's threads
      one keyed by name, and every thread tree keeps the total invariant. */
  ghost predicate WellFormed(ps: seq<ProcessStats>) {
    DistinctPids(ps)
    && forall i :: 0 <= i < |ps| ==> ThreadsWellFormed(ps[i].threads)
  }

  predicate DistinctNames(ts: seq<ThreadStats>) {
    forall i, j :: 0 <= i < j < |ts| ==> ts[i].name != ts[j].name
  }

  ghost predicate ThreadsWellFormed(ts: seq<ThreadStats>) {
    DistinctNames(ts)
    && forall i :: 0 <= i < |ts| ==> ThreadConsistent(ts[i])
  }

  /** What `update` does to the processes: nothing when the metric is
      missing or zero; otherwise the sample's path becomes a new process, a
      new thread of its process, or is merged into the thread's tree. Only
      the sample's process changes, and a process is appended only for a
      pid not seen before. */
  function Updated(ps: seq<ProcessStats>, t: StatsType, s: Sample): (r: seq<ProcessStats>)
    ensures MetricOf(t, s.metrics).None? ==> r == ps
    ensures |ps| <= |r| <= |ps| + 1
    ensures forall i :: 0 <= i < |ps| && ps[i].pid != s.pid ==> r[i] == ps[i]
    ensures |r| == |ps| + 1 ==> r[|ps|].pid == s.pid && s.pid !in Pids(ps)
  {
    match MetricOf(t, s.metrics)
    case None => ps
    case Some(m) =>
      var path := ThreadPath(s.thread, FramesOf(s), m);
      match PidIndex(ps, s.pid)
      case None => ps + [ProcessStats(s.pid, [path])]
      case Some(i) =>
        match ThreadIndex(ps[i].threads, s.thread)
        case None => ps[i := ps[i].(threads := ps[i].threads + [path])]
        case Some(j) => ps[i := ps[i].(threads := ps[i].threads[j := MergeThread(ps[i].threads[j], path)])]
  }

  lemma {:induction false} DistinctPosition(ps: seq<ProcessStats>, i: nat)
    requires DistinctPids(ps) && i < |ps|
    ensures PidIndex(ps, ps[i].pid) == Some(i)
  {
    if i > 0 {
      var tl := ps[1..];
      assert ps[0].pid != ps[i].pid && tl[i - 1] == ps[i];
      assert DistinctPids(tl) by {
        forall a, b | 0 <= a < b < |tl| ensures tl[a].pid != tl[b].pid {
          assert tl[a] == ps[a + 1] && tl[b] == ps[b + 1];
        }
      }
      DistinctPosition(tl, i - 1);
    }
  }

  /** Adding a process with a new pid keeps the others. */
  lemma NewProcessEffect(ps: seq<ProcessStats>, p: ProcessStats, pid: int)
    requires DistinctPids(ps) && p.pid !in Pids(ps)
    ensures Pids(ps + [p]) == Pids(ps) + [p.pid]
    ensures DistinctPids(ps + [p])
    ensures pid != p.pid ==> ProcessOf(ps + [p], pid) == ProcessOf(ps, pid)
    ensures ProcessOf(ps + [p], p.pid) == Success(p)
  {
    var r := ps + [p];
    assert Pids(r) == Pids(ps) + [p.pid];
    assert forall i :: 0 <= i < |ps| ==> ps[i].pid == Pids(ps)[i];
    DistinctPosition(r, |ps|);
    if pid != p.pid {
      match PidIndex(ps, pid)
      case None =>
      case Some(i) => DistinctPosition(r, i);
    }
  }

  /** Replacing a process by one with the same pid keeps the others. */
  lemma SameProcessEffect(ps: seq<ProcessStats>, i: nat, p: ProcessStats, pid: int)
    requires DistinctPids(ps) && i < |ps| && p.pid == ps[i].pid
    ensures Pids(ps[i := p]) == Pids(ps)
    ensures pid != p.pid ==> ProcessOf(ps[i := p], pid) == ProcessOf(ps, pid)
    ensures ProcessOf(ps[i := p], p.pid) == Success(p)
  {
    var r := ps[i := p];
    assert Pids(r) == Pids(ps);
    DistinctPosition(r, i);
    if pid != p.pid {
      match PidIndex(ps, pid)
      case None =>
      case Some(k) => DistinctPosition(r, k);
    }
  }

  /** A sample with a metric adds its pid when it is new and keeps every
      other process unchanged; its own process gains the thread when the
      thread is new, and otherwise the thread becomes the merge of the old
      tree with the sample's path, so its total grows by the metric. Other
      threads are unchanged; a sample without a metric changes nothing. */
  lemma UpdateEffect(ps: seq<ProcessStats>, t: StatsType, s: Sample, pid: int, name: string)
    requires WellFormed(ps)
    ensures MetricOf(t, s.metrics).None? ==> Updated(ps, t, s) == ps
    ensures MetricOf(t, s.metrics).Some? ==>
      var m := MetricOf(t, s.metrics).value;
      var path := ThreadPath(s.thread, FramesOf(s), m);
      var r := Updated(ps, t, s);
      Pids(r) == Pids(ps) + (if s.pid in Pids(ps) then [] else [s.pid])
      && (pid != s.pid ==> ProcessOf(r, pid) == ProcessOf(ps, pid))
      && ProcessOf(r, s.pid).Success?
      && ThreadEffect(if s.pid in Pids(ps) then GetThread(ProcessOf(ps, s.pid).value, name) else None,
                      GetThread(ProcessOf(r, s.pid).value, name), name, path, m)
  {
    match MetricOf(t, s.metrics)
    case None =>
    case Some(m) =>
      var path := ThreadPath(s.thread, FramesOf(s), m);
      ThreadPathConsistent(s.thread, FramesOf(s), m);
      match PidIndex(ps, s.pid)
      case None =>
        NewProcessEffect(ps, ProcessStats(s.pid, [path]), pid);
        assert GetThread(ProcessStats(s.pid, [path]), name) == if name == s.thread then Some(path) else None;
      case Some(i) =>
        var ts := ps[i].threads;
        var ts' := match ThreadIndex(ts, s.thread)
                   case None => ts + [path]
                   case Some(j) => ts[j := MergeThread(ts[j], path)];
        SameProcessEffect(ps, i, ps[i].(threads := ts'), pid);
        UpdateThreads(ts, s.thread, path, name, m);
  }

  /** How one thread entry changes: threads with other names stay as they
      were, the sample's thread is the merge of its old tree with the path,
      or the path itself when it is new, and its total grows by `m`. */
  ghost predicate ThreadEffect(before: Option<ThreadStats>, after: Option<ThreadStats>, name: string, path: ThreadStats, m: int) {
    (name != path.name ==> after == before)
    && (name == path.name ==>
          after == Some(if before.Some? then MergeThread(before.value, path) else path)
          && after.value.total == (if before.Some? then before.value.total else 0) + m)
  }

  lemma {:induction false} NamePosition(ts: seq<ThreadStats>, i: nat)
    requires DistinctNames(ts) && i < |ts|
    ensures ThreadIndex(ts, ts[i].name) == Some(i)
  {
    if i > 0 {
      var tl := ts[1..];
      assert ts[0].name != ts[i].name && tl[i - 1] == ts[i];
      assert DistinctNames(tl) by {
        forall a, b | 0 <= a < b < |tl| ensures tl[a].name != tl[b].name {
          assert tl[a] == ts[a + 1] && tl[b] == ts[b + 1];
        }
      }
      NamePosition(tl, i - 1);
    }
  }

  /** Writing thread `t` at position `j`, or at the end when `j` is past
      the last thread, changes the lookup of `t`'s name only. */
  lemma ThreadAt(ts: seq<ThreadStats>, j: nat, t: ThreadStats, name: string)
    requires DistinctNames(ts) && j <= |ts|
    requires if j < |ts| then ts[j].name == t.name else t.name !in Names(ts)
    ensures var r := if j < |ts| then ts[j := t] else ts + [t];
      GetThread(ProcessStats(0, r), name)
      == if name == t.name then Some(t) else GetThread(ProcessStats(0, ts), name)
  {
    var r := if j < |ts| then ts[j := t] else ts + [t];
    WrittenNames(ts, j, t);
    NamePosition(r, j);
    if name != t.name {
      match ThreadIndex(ts, name)
      case None =>
        assert name !in Names(r) by {
          forall i | 0 <= i < |r| ensures r[i].name != name {
            if i < |ts| { assert ts[i].name == Names(ts)[i]; }
          }
        }
      case Some(k) =>
        assert r[k] == ts[k];
        NamePosition(r, k);
    }
  }

  /** The threads stay distinct by name when `t` is written at `j`. */
  lemma WrittenNames(ts: seq<ThreadStats>, j: nat, t: ThreadStats)
    requires DistinctNames(ts) && j <= |ts|
    requires if j < |ts| then ts[j].name == t.name else t.name !in Names(ts)
    ensures DistinctNames(if j < |ts| then ts[j := t] else ts + [t])
  {
    var r := if j < |ts| then ts[j := t] else ts + [t];
    forall a, b | 0 <= a < b < |r| ensures r[a].name != r[b].name {
      if b == |ts| {
        assert ts[a].name == Names(ts)[a];
      }
    }
  }

  /** The thread dictionary of the sample's process after `update`. */
  lemma UpdateThreads(ts: seq<ThreadStats>, thread: string, path: ThreadStats, name: string, m: int)
    requires ThreadsWellFormed(ts) && path.name == thread && path.total == m
    ensures var r := match ThreadIndex(ts, thread)
                     case None => ts + [path]
                     case Some(j) => ts[j := MergeThread(ts[j], path)];
      ThreadEffect(GetThread(ProcessStats(0, ts), name), GetThread(ProcessStats(0, r), name), name, path, m)
  {
    match ThreadIndex(ts, thread)
    case None =>
      ThreadAt(ts, |ts|, path, name);
    case Some(j) =>
      ThreadAt(ts, j, MergeThread(ts[j], path), name);
      NamePosition(ts, j);
  }

  lemma WellFormedAppend(ps: seq<ProcessStats>, p: ProcessStats)
    requires WellFormed(ps) && p.pid !in Pids(ps) && ThreadsWellFormed(p.threads)
    ensures WellFormed(ps + [p])
  {
    assert forall i :: 0 <= i < |ps| ==> ps[i].pid == Pids(ps)[i];
  }

  lemma WellFormedSet(ps: seq<ProcessStats>, i: nat, p: ProcessStats)
    requires WellFormed(ps) && i < |ps| && p.pid == ps[i].pid && ThreadsWellFormed(p.threads)
    ensures WellFormed(ps[i := p])
  {
  }

  lemma ThreadsAppend(ts: seq<ThreadStats>, t: ThreadStats)
    requires ThreadsWellFormed(ts) && t.name !in Names(ts) && ThreadConsistent(t)
    ensures ThreadsWellFormed(ts + [t])
  {
    assert forall k :: 0 <= k < |ts| ==> ts[k].name == Names(ts)[k];
  }

  lemma ThreadsSet(ts: seq<ThreadStats>, j: nat, t: ThreadStats)
    requires ThreadsWellFormed(ts) && j < |ts| && t.name == ts[j].name && ThreadConsistent(t)
    ensures ThreadsWellFormed(ts[j := t])
  {
  }

  /** `update` keeps the processes well formed. */
  lemma UpdatePreserves(ps: seq<ProcessStats>, t: StatsType, s: Sample)
    requires WellFormed(ps)
    ensures WellFormed(Updated(ps, t, s))
  {
    match MetricOf(t, s.metrics)
    case None =>
    case Some(m) =>
      var path := ThreadPath(s.thread, FramesOf(s), m);
      ThreadPathConsistent(s.thread, FramesOf(s), m);
      match PidIndex(ps, s.pid)
      case None =>
        WellFormedAppend(ps, ProcessStats(s.pid, [path]));
      case Some(i) =>
        var ts := ps[i].threads;
        match ThreadIndex(ts, s.thread)
        case None =>
          ThreadsAppend(ts, path);
          WellFormedSet(ps, i, ps[i].(threads := ts + [path]));
        case Some(j) =>
          MergeThreadConsistent(ts[j], path);
          ThreadsSet(ts, j, MergeThread(ts[j], path));
          WellFormedSet(ps, i, ps[i].(threads := ts[j := MergeThread(ts[j], path)]));
  }

  /** The sample's thread is found by name alone: its iid plays no part. */
  lemma UpdateIgnoresIid(ps: seq<ProcessStats>, t: StatsType, s: Sample, iid: Option<int>)
    ensures Updated(ps, t, s.(iid := iid)) == Updated(ps, t, s)
  {
  }

  // ---------------------------------------------------------------------
  // Collapsed text (`collapse`)

  /** Each line with `p` in front. */
  function Prefixed(p: string, lines: seq<string>): (r: seq<string>)
    ensures |r| == |lines| && forall i :: 0 <= i < |lines| ==> r[i] == p + lines[i]
  {
    seq(|lines|, i requires 0 <= i < |lines| => p + lines[i])
  }

  /** `FrameStats.collapse(prefix)`: a leaf gives one line with its own
      value; an inner node gives its own line only when its own value is
      not zero, then every line of every child with the node's frame in
      front. The children are collapsed with an empty prefix. */
  function CollapseFrame(s: FrameStats, prefix: string): seq<string> {
    var head := ";" + prefix + CollapsedStack.FormatFrame(s.frame);
    var ownLine := head + " " + IntToString(s.own);
    if s.children == [] then [ownLine]
    else (if s.own == 0 then [] else [ownLine]) + Prefixed(head, CollapseChildren(s.children))
  }

  function CollapseChildren(cs: seq<FrameStats>): seq<string> {
    if cs == [] then [] else CollapseFrame(cs[0], "") + CollapseChildren(cs[1..])
  }

  /** `ThreadStats.collapse`: the same with ";T<name>" as the head; the
      prefix argument plays no part. */
  function CollapseThread(t: ThreadStats): seq<string> {
    var head := ";T" + t.name;
    var ownLine := head + " " + IntToString(t.own);
    if t.children == [] then [ownLine]
    else (if t.own == 0 then [] else [ownLine]) + Prefixed(head, CollapseChildren(t.children))
  }

  function CollapseThreads(ts: seq<ThreadStats>): seq<string> {
    if ts == [] then [] else CollapseThread(ts[0]) + CollapseThreads(ts[1..])
  }

  /** `ProcessStats.collapse`: every thread's lines with "P<pid>" in front. */
  function CollapseProcess(p: ProcessStats): seq<string> {
    Prefixed("P" + IntToString(p.pid), CollapseThreads(p.threads))
  }

  /** The own values of the nodes that report a line, in line order: every
      leaf and every inner node whose own value is not zero. */
  ghost function Owns(s: FrameStats): seq<int> {
    if s.children == [] then [s.own]
    else (if s.own == 0 then [] else [s.own]) + OwnsAll(s.children)
  }

  ghost function OwnsAll(cs: seq<FrameStats>): seq<int> {
    if cs == [] then [] else Owns(cs[0]) + OwnsAll(cs[1..])
  }

  ghost function ThreadOwns(t: ThreadStats): seq<int> {
    if t.children == [] then [t.own]
    else (if t.own == 0 then [] else [t.own]) + OwnsAll(t.children)
  }

  ghost function ThreadsOwns(ts: seq<ThreadStats>): seq<int> {
    if ts == [] then [] else ThreadOwns(ts[0]) + ThreadsOwns(ts[1..])
  }

  function Sum(xs: seq<int>): int {
    if xs == [] then 0 else xs[0] + Sum(xs[1..])
  }

  lemma {:induction false} SumAppend(a: seq<int>, b: seq<int>)
    ensures Sum(a + b) == Sum(a) + Sum(b)
  {
    if a == [] {
      assert a + b == b;
    } else {
      assert (a + b)[1..] == a[1..] + b;
      SumAppend(a[1..], b);
    }
  }

  /** A collapsed line: it starts with `head` and ends with the value. */
  predicate Reports(line: string, head: string, v: int) {
    StartsWith(line, head) && EndsWith(line, " " + IntToString(v))
  }

  lemma ReportsPrefixed(line: string, head: string, v: int, p: string)
    requires Reports(line, head, v)
    ensures Reports(p + line, p + head, v)
  {
    assert (p + line)[|p + line| - |" " + IntToString(v)|..] == line[|line| - |" " + IntToString(v)|..];
    assert (p + line)[..|p + head|] == p + line[..|head|];
  }

  lemma ReportsOwn(head: string, v: int)
    ensures Reports(head + " " + IntToString(v), head, v)
  {
    assert (head + " " + IntToString(v))[..|head|] == head;
    assert (head + " " + IntToString(v))[|head|..] == " " + IntToString(v);
  }

  /** Lines and reported values line up, each line starting with its head. */
  ghost predicate Collapsed(lines: seq<string>, head: string, owns: seq<int>) {
    |lines| == |owns| && forall i :: 0 <= i < |lines| ==> Reports(lines[i], head, owns[i])
  }

  lemma CollapsedAppend(a: seq<string>, oa: seq<int>, b: seq<string>, ob: seq<int>, head: string)
    requires Collapsed(a, head, oa) && Collapsed(b, head, ob)
    ensures Collapsed(a + b, head, oa + ob)
  {
    forall i | 0 <= i < |a + b| ensures Reports((a + b)[i], head, (oa + ob)[i]) {
      if i >= |a| {
        assert (a + b)[i] == b[i - |a|] && (oa + ob)[i] == ob[i - |a|];
      }
    }
  }

  lemma CollapsedPrefixed(lines: seq<string>, head: string, owns: seq<int>, p: string)
    requires Collapsed(lines, head, owns)
    ensures Collapsed(Prefixed(p, lines), p + head, owns)
  {
    forall i | 0 <= i < |lines| ensures Reports(Prefixed(p, lines)[i], p + head, owns[i]) {
      ReportsPrefixed(lines[i], head, owns[i], p);
    }
  }

  lemma CollapsedWeaker(lines: seq<string>, head: string, owns: seq<int>, shorter: string)
    requires Collapsed(lines, head, owns) && StartsWith(head, shorter)
    ensures Collapsed(lines, shorter, owns)
  {
    forall i | 0 <= i < |lines| ensures Reports(lines[i], shorter, owns[i]) {
      assert lines[i][..|shorter|] == head[..|shorter|];
    }
  }

  /** Every collapsed line of a node starts with ";<prefix><frame>" and
      ends with the own value of the node it reports. */
  lemma {:induction false} CollapseFrameLines(s: FrameStats, prefix: string)
    ensures Collapsed(CollapseFrame(s, prefix), ";" + prefix + CollapsedStack.FormatFrame(s.frame), Owns(s))
    decreases Size(s), 0
  {
    var head := ";" + prefix + CollapsedStack.FormatFrame(s.frame);
    ReportsOwn(head, s.own);
    if s.children != [] {
      CollapseChildrenLines(s.children);
      CollapsedPrefixed(CollapseChildren(s.children), ";", OwnsAll(s.children), head);
      CollapsedWeaker(Prefixed(head, CollapseChildren(s.children)), head + ";", OwnsAll(s.children), head);
      var own := if s.own == 0 then [] else [head + " " + IntToString(s.own)];
      var owns := if s.own == 0 then [] else [s.own];
      CollapsedAppend(own, owns, Prefixed(head, CollapseChildren(s.children)), OwnsAll(s.children), head);
    }
  }

  /** Every collapsed line of a sequence of children starts with ";". */
  lemma {:induction false} CollapseChildrenLines(cs: seq<FrameStats>)
    ensures Collapsed(CollapseChildren(cs), ";", OwnsAll(cs))
    decreases SizeAll(cs), 1
  {
    if cs != [] {
      SizeAllAt(cs, 0);
      CollapseFrameLines(cs[0], "");
      CollapsedWeaker(CollapseFrame(cs[0], ""), ";" + "" + CollapsedStack.FormatFrame(cs[0].frame), Owns(cs[0]), ";");
      CollapseChildrenLines(cs[1..]);
      CollapsedAppend(CollapseFrame(cs[0], ""), Owns(cs[0]), CollapseChildren(cs[1..]), OwnsAll(cs[1..]), ";");
    }
  }

  /** The reported values of a consistent tree add up to its total. */
  lemma {:induction false} OwnsSum(s: FrameStats)
    requires Consistent(s)
    ensures Sum(Owns(s)) == s.total
    decreases Size(s), 0
  {
    if s.children != [] {
      OwnsAllSum(s.children);
      SumAppend(if s.own == 0 then [] else [s.own], OwnsAll(s.children));
    }
  }

  lemma {:induction false} OwnsAllSum(cs: seq<FrameStats>)
    requires AllConsistent(cs)
    ensures Sum(OwnsAll(cs)) == SumTotals(cs)
    decreases SizeAll(cs), 1
  {
    if cs != [] {
      SizeAllAt(cs, 0);
      OwnsSum(cs[0]);
      OwnsAllSum(cs[1..]);
      SumAppend(Owns(cs[0]), OwnsAll(cs[1..]));
    }
  }

  /** A leaf reports one line even when its own value is zero; an inner
      node reports its own line exactly when its own value is not zero. */
  lemma CollapseOwnLine(s: FrameStats, prefix: string)
    ensures var head := ";" + prefix + CollapsedStack.FormatFrame(s.frame);
      var ownLine := head + " " + IntToString(s.own);
      (s.children == [] ==> CollapseFrame(s, prefix) == [ownLine])
      && (s.children != [] ==> (ownLine in CollapseFrame(s, prefix) <==> s.own != 0))
  {
    var head := ";" + prefix + CollapsedStack.FormatFrame(s.frame);
    if s.children != [] {
      ChildLinesDiffer(head, s.own, s.children);
    }
  }

  /** A line of a child, with `head` in front, is never the own line of
      `head`: the child's part starts with ';', the own value with ' '. */
  lemma ChildLinesDiffer(head: string, own: int, cs: seq<FrameStats>)
    ensures head + " " + IntToString(own) !in Prefixed(head, CollapseChildren(cs))
  {
    CollapseChildrenLines(cs);
    SemicolonLines(head, CollapseChildren(cs), OwnsAll(cs), " " + IntToString(own));
    assert head + " " + IntToString(own) == head + (" " + IntToString(own));
  }

  /** Lines reported under ";" never read as `head` followed by a space. */
  lemma SemicolonLines(head: string, lines: seq<string>, owns: seq<int>, rest: string)
    requires Collapsed(lines, ";", owns) && |rest| > 0 && rest[0] == ' '
    ensures head + rest !in Prefixed(head, lines)
  {
    forall i | 0 <= i < |lines| ensures Prefixed(head, lines)[i] != head + rest {
      assert Reports(lines[i], ";", owns[i]);
      assert (head + lines[i])[|head|] == lines[i][0] == ';';
      assert (head + rest)[|head|] == ' ';
    }
  }

  /** Every line of a thread starts with ";T<name>" and ends with a
      reported own value; its own line appears as for frame nodes. */
  lemma CollapseThreadLines(t: ThreadStats)
    ensures Collapsed(CollapseThread(t), ";T" + t.name, ThreadOwns(t))
    ensures var ownLine := ";T" + t.name + " " + IntToString(t.own);
      (t.children == [] ==> CollapseThread(t) == [ownLine])
      && (t.children != [] ==> (ownLine in CollapseThread(t) <==> t.own != 0))
  {
    var head := ";T" + t.name;
    ReportsOwn(head, t.own);
    if t.children != [] {
      CollapseChildrenLines(t.children);
      CollapsedPrefixed(CollapseChildren(t.children), ";", OwnsAll(t.children), head);
      CollapsedWeaker(Prefixed(head, CollapseChildren(t.children)), head + ";", OwnsAll(t.children), head);
      var own := if t.own == 0 then [] else [head + " " + IntToString(t.own)];
      var owns := if t.own == 0 then [] else [t.own];
      CollapsedAppend(own, owns, Prefixed(head, CollapseChildren(t.children)), OwnsAll(t.children), head);
      ChildLinesDiffer(head, t.own, t.children);
    }
  }

  /** The reported values of a consistent thread add up to its total. */
  lemma ThreadOwnsSum(t: ThreadStats)
    requires ThreadConsistent(t)
    ensures Sum(ThreadOwns(t)) == t.total
  {
    if t.children != [] {
      OwnsAllSum(t.children);
      SumAppend(if t.own == 0 then [] else [t.own], OwnsAll(t.children));
    }
  }

  function ThreadTotals(ts: seq<ThreadStats>): int {
    if ts == [] then 0 else ts[0].total + ThreadTotals(ts[1..])
  }

  lemma {:induction false} CollapseThreadsLines(ts: seq<ThreadStats>)
    ensures Collapsed(CollapseThreads(ts), ";T", ThreadsOwns(ts))
  {
    if ts != [] {
      CollapseThreadLines(ts[0]);
      CollapsedWeaker(CollapseThread(ts[0]), ";T" + ts[0].name, ThreadOwns(ts[0]), ";T");
      CollapseThreadsLines(ts[1..]);
      CollapsedAppend(CollapseThread(ts[0]), ThreadOwns(ts[0]), CollapseThreads(ts[1..]), ThreadsOwns(ts[1..]), ";T");
    }
  }

  lemma {:induction false} ThreadsOwnsSum(ts: seq<ThreadStats>)
    requires forall i :: 0 <= i < |ts| ==> ThreadConsistent(ts[i])
    ensures Sum(ThreadsOwns(ts)) == ThreadTotals(ts)
  {
    if ts != [] {
      ThreadOwnsSum(ts[0]);
      ThreadsOwnsSum(ts[1..]);
      SumAppend(ThreadOwns(ts[0]), ThreadsOwns(ts[1..]));
    }
  }

  /** Every line of a process starts with "P<pid>;T" and ends with a
      reported own value, and for a well-formed process those values add
      up to the totals of its threads. */
  lemma CollapseProcessLines(p: ProcessStats)
    ensures Collapsed(CollapseProcess(p), "P" + IntToString(p.pid) + ";T", ThreadsOwns(p.threads))
    ensures ThreadsWellFormed(p.threads) ==> Sum(ThreadsOwns(p.threads)) == ThreadTotals(p.threads)
  {
    CollapseThreadsLines(p.threads);
    CollapsedPrefixed(CollapseThreads(p.threads), ";T", ThreadsOwns(p.threads), "P" + IntToString(p.pid));
    if ThreadsWellFormed(p.threads) {
      ThreadsOwnsSum(p.threads);
    }
  }

  // ---------------------------------------------------------------------
  // The text of `dump`

  /** The word after "# mode: ": the type's value up to its first '_'. */
  function ModeWord(t: StatsType): string {
    Partition(TypeValue(t), "_").before
  }

  /** Wall and CPU statistics dump as their own modes, both memory kinds
      as "memory". */
  lemma ModeWords()
    ensures ModeWord(Wall) == "wall" && ModeWord(Cpu) == "cpu"
    ensures ModeWord(MemoryAlloc) == "memory" && ModeWord(MemoryDealloc) == "memory"
  {
    assert TypeValue(MemoryAlloc) == "memory" + "_" + "alloc";
    assert TypeValue(MemoryDealloc) == "memory" + "_" + "dealloc";
    PartitionAbsent("wall", "_");
    PartitionAbsent("cpu", "_");
    PartitionAt("memory", "_", "alloc");
    PartitionAt("memory", "_", "dealloc");
  }

  /** When every line of a process ends in " 0 0" the four characters are
      cut from each; otherwise the lines stay as they are. */
  function StripZeros(lines: seq<string>): (r: seq<string>)
    ensures |r| == |lines|
    ensures (forall i :: 0 <= i < |lines| ==> EndsWith(lines[i], " 0 0")) ==>
      forall i :: 0 <= i < |lines| ==> r[i] + " 0 0" == lines[i]
    ensures !(forall i :: 0 <= i < |lines| ==> EndsWith(lines[i], " 0 0")) ==> r == lines
  {
    if forall i :: 0 <= i < |lines| ==> EndsWith(lines[i], " 0 0") then
      seq(|lines|, i requires 0 <= i < |lines| && EndsWith(lines[i], " 0 0") => lines[i][..|lines[i]| - 4])
    else lines
  }

  /** Each line followed by a newline. */
  function WriteLines(lines: seq<string>): string {
    if lines == [] then "" else lines[0] + "\n" + WriteLines(lines[1..])
  }

  /** The written lines of each process in turn. */
  function DumpLines(ps: seq<ProcessStats>): seq<string> {
    if ps == [] then [] else StripZeros(CollapseProcess(ps[0])) + DumpLines(ps[1..])
  }

  /** The whole text `dump` writes: the mode header, a blank line and then
      every line of every process, each ending in a newline. */
  function DumpText(t: StatsType, ps: seq<ProcessStats>): (r: string)
    ensures StartsWith(r, "# mode: " + ModeWord(t) + "\n\n") && EndsWith(r, "\n")
  {
    var header := "# mode: " + ModeWord(t) + "\n\n";
    WriteLinesEnds(DumpLines(ps));
    assert (header + WriteLines(DumpLines(ps)))[..|header|] == header;
    header + WriteLines(DumpLines(ps))
  }

  /** Written lines end in a newline. */
  lemma {:induction false} WriteLinesEnds(lines: seq<string>)
    ensures lines == [] || EndsWith(WriteLines(lines), "\n")
  {
    if lines != [] {
      WriteLinesEnds(lines[1..]);
    }
  }

  lemma {:induction false} WriteLinesAppend(a: seq<string>, b: seq<string>)
    ensures WriteLines(a + b) == WriteLines(a) + WriteLines(b)
  {
    if a == [] {
      assert a + b == b;
    } else {
      assert (a + b)[1..] == a[1..] + b;
      WriteLinesAppend(a[1..], b);
    }
  }

  lemma {:induction false} WriteLinesJoin(lines: seq<string>)
    ensures WriteLines(lines) == Join(lines + [""], '\n')
  {
    if lines != [] {
      WriteLinesJoin(lines[1..]);
      assert (lines + [""])[1..] == lines[1..] + [""];
    }
  }

  /** Splitting the written text at newlines gives back the lines, and an
      empty last piece, whenever no line holds a newline. */
  lemma WrittenLinesSplit(lines: seq<string>)
    requires forall i :: 0 <= i < |lines| ==> '\n' !in lines[i]
    ensures Split(WriteLines(lines), '\n') == lines + [""]
  {
    WriteLinesJoin(lines);
    JoinSplit(lines + [""], '\n');
  }

  // ---------------------------------------------------------------------
  // `AustinStats`

  class AustinStats {
    const statsType: StatsType
    var processes: seq<ProcessStats>

    /** The processes form a dictionary of well-formed thread trees. */
    ghost predicate Valid()
      reads this
    {
      WellFormed(processes)
    }

    constructor(t: StatsType)
      ensures statsType == t && processes == [] && Valid()
    {
      statsType := t;
      processes := [];
    }

    /** `update`: add the sample's path under its pid and thread. */
    method Update(sample: Sample)
      modifies this
      ensures processes == Updated(old(processes), statsType, sample)
      ensures old(Valid()) ==> Valid()
    {
      if WellFormed(processes) {
        UpdatePreserves(processes, statsType, sample);
      }
      var metric := MetricOf(statsType, sample.metrics);
      if metric.None? {
        return;
      }
      var path := BuildThreadStats(sample.thread, FramesOf(sample), metric.value);
      var i := PidIndex(processes, sample.pid);
      if i.None? {
        processes := processes + [ProcessStats(sample.pid, [path])];
        return;
      }
      var process := processes[i.value];
      var j := ThreadIndex(process.threads, sample.thread);
      if j.None? {
        processes := processes[i.value := process.(threads := process.threads + [path])];
        return;
      }
      var merged := MergeThreadStats(process.threads[j.value], path);
      processes := processes[i.value := process.(threads := process.threads[j.value := merged])];
    }

    /** `get_process`: a missing pid raises. */
    function GetProcess(pid: int): (r: Result<ProcessStats, LookupError>)
      reads this
      ensures r.Failure? <==> pid !in Pids(processes)
      ensures r.Success? ==> r.value in processes && r.value.pid == pid
    {
      ProcessOf(processes, pid)
    }

    /** `dump`: the text written to the stream. */
    method Dump() returns (text: string)
      ensures text == DumpText(statsType, processes)
    {
      var ps := processes;
      text := "# mode: " + ModeWord(statsType) + "\n\n";
      DumpStart(statsType, ps);
      for k := 0 to |ps|
        invariant text == DumpText(statsType, ps[..k])
      {
        text := WriteAll(text, StripZeros(CollapseProcess(ps[k])));
        DumpStep(statsType, ps, k);
      }
      assert ps[..|ps|] == ps;
    }
  }

  lemma DumpStart(t: StatsType, ps: seq<ProcessStats>)
    ensures DumpText(t, ps[..0]) == "# mode: " + ModeWord(t) + "\n\n"
  {
    assert ps[..0] == [];
  }

  lemma DumpStep(t: StatsType, ps: seq<ProcessStats>, k: nat)
    requires k < |ps|
    ensures DumpText(t, ps[..k + 1]) == DumpText(t, ps[..k]) + WriteLines(StripZeros(CollapseProcess(ps[k])))
  {
    assert ps[..k + 1] == ps[..k] + [ps[k]];
    DumpLinesSnoc(ps[..k], ps[k]);
    WriteLinesAppend(DumpLines(ps[..k]), StripZeros(CollapseProcess(ps[k])));
  }

  /** The writes of one process's lines, one after the other. */
  method WriteAll(text: string, lines: seq<string>) returns (r: string)
    ensures r == text + WriteLines(lines)
  {
    r := text;
    for l := 0 to |lines|
      invariant r == text + WriteLines(lines[..l])
    {
      r := r + lines[l] + "\n";
      WriteLinesAppend(lines[..l], [lines[l]]);
      assert lines[..l + 1] == lines[..l] + [lines[l]];
    }
    assert lines[..|lines|] == lines;
  }

  lemma {:induction false} DumpLinesSnoc(ps: seq<ProcessStats>, p: ProcessStats)
    ensures DumpLines(ps + [p]) == DumpLines(ps) + StripZeros(CollapseProcess(p))
  {
    var q := ps + [p];
    if ps == [] {
      assert q[1..] == [];
      DumpLinesCons(q, StripZeros(CollapseProcess(p)), []);
    } else {
      var a, b := StripZeros(CollapseProcess(ps[0])), StripZeros(CollapseProcess(p));
      var tail, dumped := DumpLines(ps[1..]), DumpLines(ps[1..] + [p]);
      assert q[0] == ps[0] && q[1..] == ps[1..] + [p];
      DumpLinesCons(q, a, ps[1..] + [p]);
      DumpLinesCons(ps, a, ps[1..]);
      DumpLinesSnoc(ps[1..], p);
      SeqAssoc(a, tail, b, dumped);
    }
  }

  /** One unfolding of `DumpLines`, with the first block given. */
  lemma DumpLinesCons(ps: seq<ProcessStats>, a: seq<string>, rest: seq<ProcessStats>)
    requires ps != [] && a == StripZeros(CollapseProcess(ps[0])) && rest == ps[1..]
    ensures DumpLines(ps) == a + DumpLines(rest)
  {
  }

  lemma SeqAssoc(a: seq<string>, tail: seq<string>, b: seq<string>, dumped: seq<string>)
    requires dumped == tail + b
    ensures a + dumped == (a + tail) + b
  {
  }

  // ---------------------------------------------------------------------
  // `load`

  datatype LoadError = NoModeMetadata

  predicate IsMode(e: Event) {
    e.MetadataEvent? && e.name == "mode"
  }

  /** The position of the first "mode" metadata event. */
  function ModeAt(events: seq<Event>): (r: Option<nat>)
    ensures r.Some? ==> r.value < |events| && IsMode(events[r.value])
    ensures r.Some? ==> forall j :: 0 <= j < r.value ==> !IsMode(events[j])
    ensures r.None? ==> forall j :: 0 <= j < |events| ==> !IsMode(events[j])
  {
    if events == [] then None
    else if IsMode(events[0]) then Some(0)
    else
      match ModeAt(events[1..])
      case None => None
      case Some(i) => Some(i + 1)
  }

  /** The statistics `load` creates for a mode, in dictionary order. */
  function ProfileTypes(mode: string): (r: seq<StatsType>)
    ensures forall i, j :: 0 <= i < j < |r| ==> r[i] != r[j]
    ensures (MemoryAlloc in r) == (MemoryDealloc in r) == (mode == "full" || mode == "memory")
    ensures (Cpu in r) == (mode == "full" || mode == "cpu")
    ensures (Wall in r) == (mode != "memory" && mode != "cpu")
    ensures mode == "full" ==> r == [Cpu, Wall, MemoryAlloc, MemoryDealloc]
    ensures mode == "memory" ==> r == [MemoryAlloc, MemoryDealloc]
    ensures mode != "full" && mode != "memory" ==> |r| == 1
  {
    if mode == "full" then [Cpu, Wall, MemoryAlloc, MemoryDealloc]
    else if mode == "memory" then [MemoryAlloc, MemoryDealloc]
    else [if mode == "cpu" then Cpu else Wall]
  }

  /** The processes after updating with every sample event of `events`,
      in order; metadata events change nothing. */
  function Aggregate(t: StatsType, events: seq<Event>): (r: seq<ProcessStats>)
    decreases |events|
    ensures |r| <= |events|
    ensures (forall j :: 0 <= j < |events| ==> events[j].MetadataEvent?) ==> r == []
  {
    if events == [] then []
    else
      var ps := Aggregate(t, events[..|events| - 1]);
      match events[|events| - 1]
      case SampleEvent(s) => Updated(ps, t, s)
      case MetadataEvent(_, _) => ps
  }

  /** Loading keeps every statistics object well formed. */
  lemma {:induction false} AggregateWellFormed(t: StatsType, events: seq<Event>)
    ensures WellFormed(Aggregate(t, events))
    decreases |events|
  {
    if events != [] {
      AggregateWellFormed(t, events[..|events| - 1]);
      if events[|events| - 1].SampleEvent? {
        UpdatePreserves(Aggregate(t, events[..|events| - 1]), t, events[|events| - 1].sample);
      }
    }
  }

  lemma AggregateStep(t: StatsType, events: seq<Event>, start: nat, n: nat)
    requires start <= n < |events|
    ensures Aggregate(t, events[start..n + 1])
      == if events[n].SampleEvent? then Updated(Aggregate(t, events[start..n]), t, events[n].sample)
         else Aggregate(t, events[start..n])
  {
    var es := events[start..n + 1];
    assert es[..|es| - 1] == events[start..n];
    AggregateLast(t, es, events[start..n], events[n]);
  }

  /** One unfolding of `Aggregate`, with the last event given. */
  lemma AggregateLast(t: StatsType, es: seq<Event>, init: seq<Event>, last: Event)
    requires es != [] && init == es[..|es| - 1] && last == es[|es| - 1]
    ensures Aggregate(t, es)
      == if last.SampleEvent? then Updated(Aggregate(t, init), t, last.sample) else Aggregate(t, init)
  {
  }

  /** The profiles hold one fresh statistics object per type, each with the
      processes aggregated from `events`. */
  ghost predicate Loaded(profiles: seq<AustinStats>, types: seq<StatsType>, events: seq<Event>)
    reads set k | 0 <= k < |profiles| :: profiles[k]
  {
    |profiles| == |types|
    && (forall a, b :: 0 <= a < b < |profiles| ==> profiles[a] != profiles[b])
    && forall k :: 0 <= k < |profiles| ==>
         profiles[k].statsType == types[k] && profiles[k].processes == Aggregate(types[k], events)
  }

  /** One empty statistics object per type. */
  method NewProfiles(types: seq<StatsType>) returns (profiles: seq<AustinStats>)
    ensures Loaded(profiles, types, [])
    ensures forall k :: 0 <= k < |profiles| ==> fresh(profiles[k])
  {
    profiles := [];
    for i := 0 to |types|
      invariant Loaded(profiles, types[..i], [])
      invariant forall k :: 0 <= k < |profiles| ==> fresh(profiles[k])
    {
      var p := new AustinStats(types[i]);
      profiles := profiles + [p];
    }
    assert types[..|types|] == types;
  }

  /** `load`: the statistics each mode asks for, fed with the sample events
      after the first "mode" metadata; with no such metadata it raises.
      The iterators the source reads resume where its first loop stopped,
      so the samples before that metadata are not read again. */
  method Load(events: seq<Event>) returns (r: Result<seq<AustinStats>, LoadError>)
    ensures r.Failure? <==> ModeAt(events).None?
    ensures r.Success? ==>
      var i := ModeAt(events).value;
      Loaded(r.value, ProfileTypes(events[i].value), events[i + 1..])
    ensures r.Success? ==> forall k :: 0 <= k < |r.value| ==> fresh(r.value[k])
  {
    var i := 0;
    while i < |events| && !IsMode(events[i])
      invariant 0 <= i <= |events| && forall j :: 0 <= j < i ==> !IsMode(events[j])
    {
      i := i + 1;
    }
    if i == |events| {
      return Failure(NoModeMetadata);
    }
    ModeFirst(events, i);
    var types := ProfileTypes(events[i].value);
    var profiles := NewProfiles(types);
    LoadAll(profiles, types, events, i + 1);
    return Success(profiles);
  }

  /** The loop of `load` after the mode: every event from `start` on, in
      order, fed to every statistics object. */
  method LoadAll(profiles: seq<AustinStats>, types: seq<StatsType>, events: seq<Event>, start: nat)
    requires start <= |events| && Loaded(profiles, types, [])
    modifies set k | 0 <= k < |profiles| :: profiles[k]
    ensures Loaded(profiles, types, events[start..])
  {
    var n := start;
    assert events[start..n] == [];
    while n < |events|
      invariant start <= n <= |events|
      invariant Loaded(profiles, types, events[start..n])
    {
      LoadEvent(profiles, types, events, start, n);
      n := n + 1;
    }
    SliceToEnd(events, start, n);
  }

  lemma SliceToEnd(events: seq<Event>, start: nat, n: nat)
    requires start <= n == |events|
    ensures events[start..n] == events[start..]
  {
  }

  /** One turn of the second loop of `load`: a sample event updates
      every statistics object, a metadata event changes nothing. */
  method LoadEvent(profiles: seq<AustinStats>, types: seq<StatsType>, events: seq<Event>, start: nat, n: nat)
    requires start <= n < |events| && Loaded(profiles, types, events[start..n])
    modifies set k | 0 <= k < |profiles| :: profiles[k]
    ensures Loaded(profiles, types, events[start..n + 1])
  {
    if events[n].SampleEvent? {
      FeedAll(profiles, events[n].sample);
    }
    forall k | 0 <= k < |profiles| {
      AggregateStep(types[k], events, start, n);
    }
  }

  lemma {:induction false} ModeFirst(events: seq<Event>, i: nat)
    requires i < |events| && IsMode(events[i]) && forall j :: 0 <= j < i ==> !IsMode(events[j])
    ensures ModeAt(events) == Some(i)
  {
    if i > 0 {
      ModeFirst(events[1..], i - 1);
    }
  }

  /** The inner loop of `load`: every profile is updated with the sample. */
  method FeedAll(profiles: seq<AustinStats>, s: Sample)
    requires forall a, b :: 0 <= a < b < |profiles| ==> profiles[a] != profiles[b]
    modifies set k | 0 <= k < |profiles| :: profiles[k]
    ensures forall k :: 0 <= k < |profiles| ==>
      profiles[k].processes == Updated(old(profiles[k].processes), profiles[k].statsType, s)
  {
    for j := 0 to |profiles|
      invariant forall k :: 0 <= k < j ==>
        profiles[k].processes == Updated(old(profiles[k].processes), profiles[k].statsType, s)
      invariant forall k :: j <= k < |profiles| ==> profiles[k].processes == old(profiles[k].processes)
    {
      profiles[j].Update(s);
    }
  }
}
