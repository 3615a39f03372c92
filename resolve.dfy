/** The native-symbol resolver of `austinp-resolve`: Cython name
    demangling, and a table of memory maps that turns `native@<address>`
    frames into source locations through a symbolizer (`addr2line`), with
    a cache of the answers. The symbolizer is a function parameter. */
module Resolve {
  import opened Wrappers
  import opened Text

  const PYMOD_PREFIX: string := "__pyx_pymod_"
  const FUSE_PREFIX: string := "__pyx_fuse_"
  const PYX_PREFIX: string := "__pyx_"
  const PW_PREFIX: string := "__pyx_pw_"
  const PF_PREFIX: string := "__pyx_pf_"
  const NATIVE_PREFIX: string := "native@"
  const MAP_PREFIX_LENGTH: nat := 7

  /** The exceptions the resolver lets through. */
  datatype ResolveError = ValueError | IndexError | KeyError

  /** `r` is a suffix of `s`. */
  predicate IsSuffix(r: string, s: string) {
    |r| <= |s| && s[|s| - |r|..] == r
  }

  lemma SuffixTrans(a: string, b: string, c: string)
    requires IsSuffix(a, b) && IsSuffix(b, c)
    ensures IsSuffix(a, c)
  {
    assert c[|c| - |a|..] == c[|c| - |b|..][|b| - |a|..];
  }

  // demangle_cython

  /** The position of the first digit of `s` at or after `i`. */
  function FirstDigitFrom(s: string, i: nat): (r: Option<nat>)
    decreases |s| - i
    ensures r.Some? ==> i <= r.value < |s| && IsDigit(s[r.value])
    ensures r.Some? ==> forall j :: i <= j < r.value ==> !IsDigit(s[j])
    ensures r.None? ==> forall j :: i <= j < |s| ==> !IsDigit(s[j])
  {
    if i >= |s| then None
    else if IsDigit(s[i]) then Some(i)
    else FirstDigitFrom(s, i + 1)
  }

  /** The length-prefix scan from position `i` with `n` digits' worth of
      count read so far: digits add to the count; any other character is
      consumed and the count's worth of characters after it skipped: the
      scan then stops at a non-digit, giving the rest of the name, or goes
      on reading a new count. A skip past the end is an `IndexError`;
      running out of name gives the whole name. */
  function Scan(f: string, i: nat, n: nat): (r: Result<string, ResolveError>)
    decreases |f| - i
    ensures r.Failure? ==> r.error == IndexError
  {
    if i >= |f| then Success(f)
    else if IsDigit(f[i]) then Scan(f, i + 1, n * 10 + DigitValue(f[i]))
    else
      var j := i + 1 + n;
      if j >= |f| then Failure(IndexError)
      else if !IsDigit(f[j]) then Success(f[j..])
      else Scan(f, j, 0)
  }

  /** The name after a `__pyx_fuse_` prefix: from the first `__pyx_`
      found at or after position 12; none is a `ValueError`. */
  function StripFuse(f: string): Result<string, ResolveError> {
    var rest := if |f| >= 12 then f[12..] else "";
    match Find(rest, PYX_PREFIX)
    case None => Failure(ValueError)
    case Some(k) => Success(f[k + 12..])
  }

  /** The scan of a name from its first digit; no digit is a
      `ValueError`. */
  function ScanName(g: string): Result<string, ResolveError> {
    match FirstDigitFrom(g, 0)
    case None => Failure(ValueError)
    case Some(i) => Scan(g, i, 0)
  }

  /** A module-init name: what follows the first `_` after the prefix. */
  function PymodName(f: string): string
    requires StartsWith(f, PYMOD_PREFIX)
  {
    Partition(f[12..], "_").after
  }

  /** The name the scan starts from: a fused name loses its prefix. */
  function Unfuse(f: string): Result<string, ResolveError> {
    if StartsWith(f, FUSE_PREFIX) then StripFuse(f) else Success(f)
  }

  /** `demangle_cython`: a module-init name never raises, and the only
      errors are a `ValueError` and an `IndexError`, the latter only once a
      digit has been found in the name the scan starts from. */
  function Demangle(f: string): (r: Result<string, ResolveError>)
    ensures StartsWith(f, PYMOD_PREFIX) ==> r.Success?
    ensures r.Failure? ==> r.error == ValueError || r.error == IndexError
    ensures r == Failure(IndexError) ==>
      Unfuse(f).Success? && FirstDigitFrom(Unfuse(f).value, 0).Some?
  {
    if StartsWith(f, PYMOD_PREFIX) then Success(PymodName(f))
    else
      match Unfuse(f)
      case Failure(e) => Failure(e)
      case Success(g) => ScanName(g)
  }

  /** A name with neither special prefix is scanned as it is. */
  lemma DemanglePlain(f: string)
    requires !StartsWith(f, PYMOD_PREFIX) && !StartsWith(f, FUSE_PREFIX)
    ensures Demangle(f) == ScanName(f)
  {
  }

  /** The scan gives a suffix of the name, and never a `ValueError`. */
  lemma {:induction false} ScanSuffix(f: string, i: nat, n: nat)
    decreases |f| - i
    ensures Scan(f, i, n).Success? ==> IsSuffix(Scan(f, i, n).value, f)
    ensures Scan(f, i, n) != Failure(ValueError)
  {
    if i < |f| {
      if IsDigit(f[i]) {
        ScanSuffix(f, i + 1, n * 10 + DigitValue(f[i]));
      } else if i + 1 + n < |f| && IsDigit(f[i + 1 + n]) {
        ScanSuffix(f, i + 1 + n, 0);
      }
    }
  }

  /** A demangled name is always a suffix of the mangled one. */
  lemma DemangleSuffix(f: string)
    ensures Demangle(f).Success? ==> IsSuffix(Demangle(f).value, f)
  {
    if StartsWith(f, PYMOD_PREFIX) {
      var p := Partition(f[12..], "_");
      if p.found {
        assert f[12..] == p.before + "_" + p.after;
        assert f[|f| - |p.after|..] == f[12..][|f[12..]| - |p.after|..];
      }
    } else if Unfuse(f).Success? {
      var g := Unfuse(f).value;
      assert IsSuffix(g, f);
      match FirstDigitFrom(g, 0)
      case None =>
      case Some(i) =>
        ScanSuffix(g, i, 0);
        if Demangle(f).Success? {
          SuffixTrans(Demangle(f).value, g, f);
        }
    }
  }

  /** A module-init name gives what follows the first `_` after its
      12-character prefix, or nothing when there is none. */
  lemma DemanglePymod(f: string)
    requires StartsWith(f, PYMOD_PREFIX)
    ensures Demangle(f).Success?
    ensures '_' in f[12..] ==>
      exists k :: 12 <= k < |f| && f[k] == '_' && '_' !in f[12..k] && Demangle(f).value == f[k + 1..]
    ensures '_' !in f[12..] ==> Demangle(f).value == ""
  {
    var s := f[12..];
    var p := Partition(s, "_");
    assert Demangle(f) == Success(p.after);
    PartitionChar(s, '_');
    if p.found {
      PymodSplit(f, s, p.before, p.after);
      var k := 12 + |p.before|;
      assert 12 <= k < |f| && f[k] == '_' && '_' !in f[12..k] && p.after == f[k + 1..];
    }
  }

  /** Where the tail after the prefix splits at its `_`, the name does too. */
  lemma PymodSplit(f: string, s: string, before: string, after: string)
    requires |f| >= 12 && s == f[12..] && s == before + "_" + after
    ensures 12 + |before| < |f| && f[12 + |before|] == '_'
    ensures f[12..12 + |before|] == before && f[12 + |before| + 1..] == after
  {
    assert f[12 + |before|] == s[|before|];
  }

  /** Outside the module-init and fused forms, the name is rejected with
      a `ValueError` exactly when it holds no digit. */
  lemma DemangleNoDigit(f: string)
    requires !StartsWith(f, PYMOD_PREFIX) && !StartsWith(f, FUSE_PREFIX)
    ensures Demangle(f) == Failure(ValueError) <==> forall j :: 0 <= j < |f| ==> !IsDigit(f[j])
  {
    DemanglePlain(f);
    match FirstDigitFrom(f, 0)
    case None =>
    case Some(i) => ScanSuffix(f, i, 0);
  }

  /** A fused name is rejected with a `ValueError` exactly when no
      `__pyx_` follows its 12th character, or when the name left after
      stripping up to it holds no digit. */
  lemma DemangleFusedNoDigit(f: string)
    requires StartsWith(f, FUSE_PREFIX)
    ensures Demangle(f) == Failure(ValueError) <==>
      Unfuse(f).Failure? || forall j :: 0 <= j < |Unfuse(f).value| ==> !IsDigit(Unfuse(f).value[j])
  {
    assert !StartsWith(f, PYMOD_PREFIX) by {
      assert f[6] == FUSE_PREFIX[6] == 'f';
    }
    match Unfuse(f)
    case Failure(e) =>
    case Success(g) =>
      match FirstDigitFrom(g, 0)
      case None =>
      case Some(i) => ScanSuffix(g, i, 0);
  }

  /** Reading a run of digits adds their value to the count. */
  lemma {:induction false} ScanDigits(f: string, i: nat, k: nat)
    requires i <= k <= |f| && AllDigits(f[i..k])
    ensures Scan(f, i, 0) == Scan(f, k, DigitsValue(f[i..k]))
  {
    if k > i {
      DigitsPrefix(f, i, k);
      ScanDigits(f, i, k - 1);
      ScanDigit(f, k - 1, DigitsValue(f[i..k - 1]), DigitsValue(f[i..k]));
    } else {
      assert f[i..k] == [];
    }
  }

  /** A run of digits is the run without its last digit, then that digit. */
  lemma DigitsPrefix(f: string, i: nat, k: nat)
    requires i < k <= |f| && AllDigits(f[i..k])
    ensures AllDigits(f[i..k - 1]) && IsDigit(f[k - 1])
    ensures DigitsValue(f[i..k]) == DigitsValue(f[i..k - 1]) * 10 + DigitValue(f[k - 1])
  {
    var d, d' := f[i..k - 1], f[i..k];
    forall j | 0 <= j < |d| ensures IsDigit(d[j]) {
      assert d[j] == d'[j];
    }
    assert d'[..|d'| - 1] == d;
    assert f[k - 1] == d'[|d'| - 1];
  }

  /** A digit moves the scan on with the count extended by it. */
  lemma ScanDigit(f: string, i: nat, n: nat, m: nat)
    requires i < |f| && IsDigit(f[i]) && m == n * 10 + DigitValue(f[i])
    ensures Scan(f, i, n) == Scan(f, i + 1, m)
  {
  }

  /** A name with a digit-free head `f[..i]`, then a count `f[i..k]`,
      then a non-digit at `k`: the non-digit and the count's worth of
      characters after it are skipped, and the rest from there is returned
      when it starts with a non-digit; a skip past the end fails with
      `IndexError`. */
  lemma DemangleSegmentAt(f: string, i: nat, k: nat)
    requires !StartsWith(f, PYMOD_PREFIX) && !StartsWith(f, FUSE_PREFIX)
    requires i < k < |f|
    requires forall j :: 0 <= j < i ==> !IsDigit(f[j])
    requires AllDigits(f[i..k]) && !IsDigit(f[k])
    ensures var j := k + 1 + DigitsValue(f[i..k]);
      (j >= |f| ==> Demangle(f) == Failure(IndexError))
      && (j < |f| && !IsDigit(f[j]) ==> Demangle(f) == Success(f[j..]))
  {
    assert IsDigit(f[i]) by {
      assert f[i..k][0] == f[i];
    }
    assert FirstDigitFrom(f, 0) == Some(i);
    ScanDigits(f, i, k);
    DemanglePlain(f);
  }

  /** `demangle_cython`, with its index loops. */
  method DemangleCython(name: string) returns (r: Result<string, ResolveError>)
    ensures r == Demangle(name)
  {
    if StartsWith(name, PYMOD_PREFIX) {
      return Success(Partition(name[12..], "_").after);
    }
    var f := name;
    if StartsWith(f, FUSE_PREFIX) {
      var rest := if |f| >= 12 then f[12..] else "";
      var k := Find(rest, PYX_PREFIX);
      if k.None? {
        return Failure(ValueError);
      }
      f := f[k.value + 12..];
    }
    assert Unfuse(name) == Success(f);
    var i := FindDigit(f);
    if i == |f| {
      return Failure(ValueError);
    }
    r := ScanFrom(f, i);
  }

  /** The `for ... else` loop that looks for the first digit; `|f|` when
      there is none. */
  method FindDigit(f: string) returns (i: nat)
    ensures i <= |f| && (i == |f| <==> FirstDigitFrom(f, 0).None?)
    ensures i < |f| ==> FirstDigitFrom(f, 0) == Some(i)
  {
    i := 0;
    while i < |f| && !IsDigit(f[i])
      invariant i <= |f| && FirstDigitFrom(f, i) == FirstDigitFrom(f, 0)
    {
      i := i + 1;
    }
  }

  /** The `while` loop of the length-prefix scan, from a digit at `i`. */
  method ScanFrom(f: string, i0: nat) returns (r: Result<string, ResolveError>)
    requires i0 <= |f|
    ensures r == Scan(f, i0, 0)
  {
    var i, n: nat := i0, 0;
    while i < |f|
      invariant Scan(f, i, n) == Scan(f, i0, 0)
      decreases |f| - i
    {
      ghost var before := Scan(f, i, n);
      var c := f[i];
      i := i + 1;
      if IsDigit(c) {
        n := n * 10 + DigitValue(c);
        assert Scan(f, i, n) == before;
      } else {
        i := i + n;
        n := 0;
        if i >= |f| {
          return Failure(IndexError);
        }
        if !IsDigit(f[i]) {
          return Success(f[i..]);
        }
        assert Scan(f, i, n) == before;
      }
    }
    return Success(f);
  }

  // Maps: the memory maps, the lowest address of each binary, the cache

  /** One memory map: an address range and the binary mapped there. */
  datatype MapEntry = MapEntry(lo: int, hi: int, binary: string)

  /** An answer of the symbolizer: a source file and line, or, when the
      symbolizer knows nothing, the binary and the offset in it. */
  datatype SourceLine = SourceLine(source: string, line: int)

  /** The fields of `Maps` as a value. */
  datatype MapsState = MapsState(maps: seq<MapEntry>, bases: map<string, int>,
                                 cache: map<string, Option<SourceLine>>)

  const EmptyMaps: MapsState := MapsState([], map[], map[])

  /** `add`'s reading of a `# map: <lo>-<hi> <binary>` line: the first
      seven characters are dropped, the rest is stripped and split at its
      first space, and the bounds at their first `-`; a bound that is not
      hexadecimal is a `ValueError`, the only error it raises. */
  function ParseMapLine(line: string): (r: Result<MapEntry, ResolveError>)
    ensures r.Failure? ==> r == Failure(ValueError)
  {
    var rest := if |line| >= MAP_PREFIX_LENGTH then line[MAP_PREFIX_LENGTH..] else "";
    var p := Partition(Strip(rest), " ");
    var b := Partition(p.before, "-");
    match ParseHex(b.before)
    case None => Failure(ValueError)
    case Some(lo) =>
      match ParseHex(b.after)
      case None => Failure(ValueError)
      case Some(hi) => Success(MapEntry(lo, hi, p.after))
  }

  /** `bases` after a new map: the lowest start address per binary. */
  function AddBase(bases: map<string, int>, e: MapEntry): (r: map<string, int>)
    ensures r.Keys == bases.Keys + {e.binary}
  {
    if e.binary in bases then bases[e.binary := if e.lo < bases[e.binary] then e.lo else bases[e.binary]]
    else bases[e.binary := e.lo]
  }

  /** `bases` holds exactly the binaries of `maps`, each with the lowest
      start address among its maps. */
  ghost predicate BasesMinimal(maps: seq<MapEntry>, bases: map<string, int>) {
    (forall k :: 0 <= k < |maps| ==> maps[k].binary in bases && bases[maps[k].binary] <= maps[k].lo)
    && forall b :: b in bases ==> exists k :: 0 <= k < |maps| && maps[k].binary == b && maps[k].lo == bases[b]
  }

  /** `Maps.add` on the state. */
  function AddEntry(s: MapsState, e: MapEntry): MapsState {
    s.(maps := s.maps + [e], bases := AddBase(s.bases, e))
  }

  /** `Maps.add`: a line that does not parse changes nothing. */
  function AddLine(s: MapsState, line: string): (MapsState, Option<ResolveError>) {
    match ParseMapLine(line)
    case Failure(err) => (s, Some(err))
    case Success(e) => (AddEntry(s, e), None)
  }

  /** Adding a map keeps every base the minimum of its binary's maps. */
  lemma AddEntryMinimal(maps: seq<MapEntry>, bases: map<string, int>, e: MapEntry)
    requires BasesMinimal(maps, bases)
    ensures BasesMinimal(maps + [e], AddBase(bases, e))
  {
    var maps', bases' := maps + [e], AddBase(bases, e);
    forall k | 0 <= k < |maps'|
      ensures maps'[k].binary in bases' && bases'[maps'[k].binary] <= maps'[k].lo
    {
      if k < |maps| {
        assert maps'[k] == maps[k];
      }
    }
    forall b | b in bases'
      ensures exists k :: 0 <= k < |maps'| && maps'[k].binary == b && maps'[k].lo == bases'[b]
    {
      if b == e.binary && bases'[b] == e.lo {
        assert maps'[|maps|] == e;
      } else {
        var k :| 0 <= k < |maps| && maps[k].binary == b && maps[k].lo == bases[b];
        assert maps'[k] == maps[k];
      }
    }
  }

  /** A well-formed map line is read as its two hexadecimal bounds and
      its binary. */
  lemma ParseMapLineOf(prefix: string, low: string, high: string, binary: string)
    requires |prefix| == MAP_PREFIX_LENGTH
    requires |low| > 0 && AllHexDigits(low) && !StartsWith(low, "0x") && !StartsWith(low, "0X")
    requires |high| > 0 && AllHexDigits(high) && !StartsWith(high, "0x") && !StartsWith(high, "0X")
    requires binary != [] && !IsSpace(binary[|binary| - 1])
    ensures ParseMapLine(prefix + low + "-" + high + " " + binary)
      == Success(MapEntry(HexDigitsValue(low), HexDigitsValue(high), binary))
  {
    var body := low + "-" + high + " " + binary;
    var line := prefix + low + "-" + high + " " + binary;
    assert line == prefix + body;
    assert line[MAP_PREFIX_LENGTH..] == body;
    MapBodyParts(low, high, binary);
    ParseHexDigits(low);
    ParseHexDigits(high);
    ParseMapLineFrom(line, low, high, binary);
  }

  lemma ParseMapLineFrom(line: string, low: string, high: string, binary: string)
    requires |line| >= MAP_PREFIX_LENGTH
    requires Partition(Strip(line[MAP_PREFIX_LENGTH..]), " ") == Parts(low + "-" + high, true, binary)
    requires Partition(low + "-" + high, "-") == Parts(low, true, high)
    requires ParseHex(low).Some? && ParseHex(high).Some?
    ensures ParseMapLine(line) == Success(MapEntry(ParseHex(low).value, ParseHex(high).value, binary))
  {
  }

  /** The text after the prefix splits at its space into the bounds and
      the binary, and the bounds at their dash into the two addresses. */
  lemma MapBodyParts(low: string, high: string, binary: string)
    requires |low| > 0 && AllHexDigits(low) && AllHexDigits(high)
    requires binary != [] && !IsSpace(binary[|binary| - 1])
    ensures Partition(Strip(low + "-" + high + " " + binary), " ") == Parts(low + "-" + high, true, binary)
    ensures Partition(low + "-" + high, "-") == Parts(low, true, high)
  {
    var bounds := low + "-" + high;
    var body := bounds + " " + binary;
    assert !IsSpace(bounds[0]) by {
      assert bounds[0] == low[0];
    }
    assert body[0] == bounds[0] && body[|body| - 1] == binary[|binary| - 1];
    StripTrimmed(body);
    BoundsNoSpace(low, high);
    PartitionAt(bounds, " ", binary);
    assert '-' !in low;
    PartitionAt(low, "-", high);
  }

  /** Hex digits and a dash hold no space. */
  lemma BoundsNoSpace(low: string, high: string)
    requires AllHexDigits(low) && AllHexDigits(high)
    ensures ' ' !in low + "-" + high
  {
    var bounds := low + "-" + high;
    assert forall j :: 0 <= j < |low| ==> bounds[j] == low[j];
    assert forall j :: 0 <= j < |high| ==> bounds[|low| + 1 + j] == high[j];
  }

  /** The map contains the address. */
  predicate Contains(e: MapEntry, addr: int) {
    e.lo <= addr <= e.hi
  }

  /** The first map at or after `k`, in insertion order, that contains
      `addr`. */
  function FirstMatch(maps: seq<MapEntry>, addr: int, k: nat): (r: Option<nat>)
    decreases |maps| - k
    ensures r.Some? ==> k <= r.value < |maps| && Contains(maps[r.value], addr)
    ensures r.Some? ==> forall j :: k <= j < r.value ==> !Contains(maps[j], addr)
    ensures r.None? ==> forall j :: k <= j < |maps| ==> !Contains(maps[j], addr)
  {
    if k >= |maps| then None
    else if Contains(maps[k], addr) then Some(k)
    else FirstMatch(maps, addr, k + 1)
  }

  /** What `addr2line` makes of the symbolizer's output for `binary` at
      `offset`: the text up to the first space, "file:line", or the binary
      and the offset when it starts with "??". No `:`, or a line number
      that is not an integer, is a `ValueError`, the only error. */
  function Symbolize(output: string, binary: string, offset: int): (r: Result<SourceLine, ResolveError>)
    ensures r.Failure? ==> r == Failure(ValueError)
  {
    var resolved := Partition(Strip(output), " ").before;
    if StartsWith(resolved, "??") then Success(SourceLine(binary, offset))
    else
      var q := Partition(resolved, ":");
      if !q.found then Failure(ValueError)
      else
        match ParseInt(q.after)
        case None => Failure(ValueError)
        case Some(n) => Success(SourceLine(q.before, n))
  }

  /** A source file read from the symbolizer's output holds no `:`: the
      output splits at its first one. */
  lemma SymbolizeSource(output: string, binary: string, offset: int)
    ensures var r := Symbolize(output, binary, offset);
      r.Success? ==> r.value == SourceLine(binary, offset) || ':' !in r.value.source
  {
    PartitionChar(Partition(Strip(output), " ").before, ':');
  }

  /** `addr2line`: a cached address gives its cached answer; otherwise
      the address is read as hexadecimal, the first map holding it is
      looked up, and the symbolizer asked for the offset from its binary's
      base. No map gives None, and that is cached too. `tool(binary,
      offset)` is the output of `addr2line -Ce binary offset`. */
  function Lookup(s: MapsState, address: string, tool: (string, int) -> string)
    : (r: (MapsState, Result<Option<SourceLine>, ResolveError>))
    ensures r.0.maps == s.maps && r.0.bases == s.bases
  {
    if address in s.cache then (s, Success(s.cache[address]))
    else
      match ParseHex(address)
      case None => (s, Failure(ValueError))
      case Some(addr) => Miss(s, address, addr, tool)
  }

  /** An address that is not cached: the first map holding it decides. */
  function Miss(s: MapsState, address: string, addr: int, tool: (string, int) -> string)
    : (r: (MapsState, Result<Option<SourceLine>, ResolveError>))
    ensures r.0.maps == s.maps && r.0.bases == s.bases
  {
    match FirstMatch(s.maps, addr, 0)
    case None => (s.(cache := s.cache[address := None]), Success(None))
    case Some(k) => Ask(s, address, addr, s.maps[k].binary, tool)
  }

  /** The symbolizer's answer for the address, from the map of `binary`;
      a successful answer is cached. */
  function Ask(s: MapsState, address: string, addr: int, binary: string, tool: (string, int) -> string)
    : (r: (MapsState, Result<Option<SourceLine>, ResolveError>))
    ensures r.0.maps == s.maps && r.0.bases == s.bases
  {
    if binary !in s.bases then (s, Failure(KeyError))
    else Store(s, address, Answer(tool, binary, addr - s.bases[binary]))
  }

  /** Asking with a known base stores the symbolizer's answer. */
  lemma AskStores(s: MapsState, address: string, addr: int, binary: string, tool: (string, int) -> string,
                   answer: Result<SourceLine, ResolveError>)
    requires binary in s.bases && answer == Answer(tool, binary, addr - s.bases[binary])
    ensures Ask(s, address, addr, binary, tool) == Store(s, address, answer)
  {
    assert !(binary !in s.bases);
  }

  /** The symbolizer's output for `binary` at `offset`, as `addr2line` reads it. */
  function Answer(tool: (string, int) -> string, binary: string, offset: int): Result<SourceLine, ResolveError> {
    Symbolize(tool(binary, offset), binary, offset)
  }

  /** A successful answer is cached and returned; a failure is passed on. */
  function Store(s: MapsState, address: string, answer: Result<SourceLine, ResolveError>)
    : (r: (MapsState, Result<Option<SourceLine>, ResolveError>))
    ensures answer.Failure? ==> r == (s, Failure(answer.error))
    ensures answer.Success? ==> r == (s.(cache := s.cache[address := Some(answer.value)]), Success(Some(answer.value)))
  {
    if answer.Failure? then (s, Failure(answer.error))
    else (s.(cache := s.cache[address := Some(answer.value)]), Success(Some(answer.value)))
  }

  /** `s'` has every cache entry of `s`; on success the answer is cached
      under the address, and a failure changes nothing. */
  ghost predicate CacheGrew(s: MapsState, s': MapsState, address: string, r: Result<Option<SourceLine>, ResolveError>) {
    (forall a :: a in s.cache ==> a in s'.cache && s'.cache[a] == s.cache[a])
    && (r.Failure? ==> s' == s)
    && (r.Success? ==> address in s'.cache && s'.cache[address] == r.value)
  }

  /** A lookup only adds to the cache, and what it returns is cached under
      the address; a failed lookup changes nothing. Asking again, with any
      symbolizer, gives the same answer and changes nothing. */
  lemma LookupCached(s: MapsState, address: string, tool: (string, int) -> string, tool': (string, int) -> string)
    ensures CacheGrew(s, Lookup(s, address, tool).0, address, Lookup(s, address, tool).1)
    ensures Lookup(s, address, tool).1.Success? ==>
      Lookup(Lookup(s, address, tool).0, address, tool') == Lookup(s, address, tool)
  {
    var r := Lookup(s, address, tool);
    if address !in s.cache && ParseHex(address).Some? {
      var addr := ParseHex(address).value;
      var f := FirstMatch(s.maps, addr, 0);
      if f.Some? {
        AskCached(s, address, addr, s.maps[f.value].binary, tool);
      }
    }
    if r.1.Success? {
      LookupHit(r.0, address, tool');
    }
  }

  lemma AskCached(s: MapsState, address: string, addr: int, binary: string, tool: (string, int) -> string)
    requires address !in s.cache
    ensures CacheGrew(s, Ask(s, address, addr, binary, tool).0, address, Ask(s, address, addr, binary, tool).1)
  {
  }

  /** A cached address is answered from the cache. */
  lemma LookupHit(s: MapsState, address: string, tool: (string, int) -> string)
    requires address in s.cache
    ensures Lookup(s, address, tool) == (s, Success(s.cache[address]))
  {
  }

  /** An address no map holds resolves to None, which is cached. */
  lemma LookupNoMatch(s: MapsState, address: string, addr: int, tool: (string, int) -> string)
    requires address !in s.cache && ParseHex(address) == Some(addr)
    requires forall j :: 0 <= j < |s.maps| ==> !Contains(s.maps[j], addr)
    ensures Lookup(s, address, tool) == (s.(cache := s.cache[address := None]), Success(None))
  {
    assert FirstMatch(s.maps, addr, 0).None?;
  }

  /** Otherwise the first map in insertion order that holds the address
      decides: its binary is asked for the address's offset from the
      binary's base, which is never negative when the bases are minimal,
      and the answer is cached when it is one. */
  lemma LookupFirstMatch(s: MapsState, address: string, addr: int, k: nat, tool: (string, int) -> string)
    requires address !in s.cache && ParseHex(address) == Some(addr) && BasesMinimal(s.maps, s.bases)
    requires k < |s.maps| && Contains(s.maps[k], addr)
    requires forall j :: 0 <= j < k ==> !Contains(s.maps[j], addr)
    ensures s.maps[k].binary in s.bases && 0 <= addr - s.bases[s.maps[k].binary]
    ensures Lookup(s, address, tool) == Ask(s, address, addr, s.maps[k].binary, tool)
  {
    BaseBelow(s.maps, s.bases, k);
    FirstMatchAt(s.maps, addr, 0, k);
  }

  /** The base recorded for an entry's binary is at most the entry's low bound. */
  lemma BaseBelow(maps: seq<MapEntry>, bases: map<string, int>, k: nat)
    requires BasesMinimal(maps, bases) && k < |maps|
    ensures maps[k].binary in bases && bases[maps[k].binary] <= maps[k].lo
  {
  }

  /** The first entry holding the address, counting from `i`, is the one found. */
  lemma {:induction false} FirstMatchAt(maps: seq<MapEntry>, addr: int, i: nat, k: nat)
    requires i <= k < |maps| && Contains(maps[k], addr)
    requires forall j :: i <= j < k ==> !Contains(maps[j], addr)
    ensures FirstMatch(maps, addr, i) == Some(k)
    decreases k - i
  {
    if i < k {
      FirstMatchAt(maps, addr, i + 1, k);
    }
  }

  /** With minimal bases a lookup never fails with `KeyError`. */
  lemma LookupNoKeyError(s: MapsState, address: string, tool: (string, int) -> string)
    requires BasesMinimal(s.maps, s.bases)
    ensures Lookup(s, address, tool).1 != Failure(KeyError)
  {
    if address !in s.cache && ParseHex(address).Some? {
      var addr := ParseHex(address).value;
      var f := FirstMatch(s.maps, addr, 0);
      if f.Some? {
        assert s.maps[f.value].binary in s.bases;
      }
    }
  }

  // Resolving collapsed-stack lines and MOJO strings

  /** Maps and bases are left alone and every cached answer is kept. */
  ghost predicate CacheKept(s: MapsState, s': MapsState) {
    s'.maps == s.maps && s'.bases == s.bases
    && forall a :: a in s.cache ==> a in s'.cache && s'.cache[a] == s.cache[a]
  }

  lemma CacheKeptTrans(s: MapsState, s': MapsState, s'': MapsState)
    requires CacheKept(s, s') && CacheKept(s', s'')
    ensures CacheKept(s, s'')
  {
  }

  lemma LookupKept(s: MapsState, address: string, tool: (string, int) -> string)
    ensures CacheKept(s, Lookup(s, address, tool).0)
  {
    LookupCached(s, address, tool, tool);
  }

  /** A native frame's text once its address has been looked up: as it
      was when nothing is known, otherwise the source in place of the
      head, and the native line number in place of the Python one unless
      it is 0. */
  function NativeFrame(head: string, name: string, lineno: string, found: Option<SourceLine>): string {
    match found
    case None => Join([head, name, lineno], ':')
    case Some(SourceLine(source, n)) => Join([source, name, if n == 0 then lineno else IntToString(n)], ':')
  }

  predicate IsWrapper(name: string) {
    StartsWith(name, PW_PREFIX) || StartsWith(name, PF_PREFIX)
  }

  /** One `head:function:lineno` frame of `resolve`: Cython wrappers are
      dropped (None), other Cython names demangled, and `native@` heads
      looked up. */
  function ResolveFrame(s: MapsState, head: string, name: string, lineno: string, tool: (string, int) -> string)
    : (r: (MapsState, Result<Option<string>, ResolveError>))
    ensures r.0.maps == s.maps && r.0.bases == s.bases
    ensures !StartsWith(head, NATIVE_PREFIX) ==> r.0 == s
  {
    if IsWrapper(name) then (s, Success(None))
    else
      var d := if StartsWith(name, PYX_PREFIX) then Demangle(name) else Success(name);
      if d.Failure? then (s, Failure(d.error))
      else if !StartsWith(head, NATIVE_PREFIX) then (s, Success(Some(Join([head, d.value, lineno], ':'))))
      else
        var l := Lookup(s, Partition(head, "@").after, tool);
        if l.1.Failure? then (l.0, Failure(l.1.error))
        else (l.0, Success(Some(NativeFrame(head, d.value, lineno, l.1.value))))
  }

  /** One `;`-separated part: one that does not split into exactly three
      `:` fields is kept as it is. */
  function ResolvePart(s: MapsState, part: string, tool: (string, int) -> string)
    : (r: (MapsState, Result<Option<string>, ResolveError>))
    ensures r.0.maps == s.maps && r.0.bases == s.bases
    ensures !StartsWith(part, NATIVE_PREFIX) ==> r.0 == s
  {
    var fields := Split(part, ':');
    SplitHead(part, fields);
    if |fields| != 3 then (s, Success(Some(part)))
    else ResolveFrame(s, fields[0], fields[1], fields[2], tool)
  }

  /** The parts resolved in order, the dropped ones left out; the first
      error stops the line. */
  function ResolveParts(s: MapsState, ps: seq<string>, tool: (string, int) -> string)
    : (r: (MapsState, Result<seq<string>, ResolveError>))
    decreases |ps|
    ensures r.0.maps == s.maps && r.0.bases == s.bases
    ensures r.1.Success? ==> |r.1.value| <= |ps|
  {
    if ps == [] then (s, Success([]))
    else
      var before := ResolveParts(s, ps[..|ps| - 1], tool);
      Extend(before, ResolvePart(before.0, ps[|ps| - 1], tool))
  }

  /** The parts resolved so far, followed by the next one's outcome. */
  function Extend(before: (MapsState, Result<seq<string>, ResolveError>), last: (MapsState, Result<Option<string>, ResolveError>))
    : (MapsState, Result<seq<string>, ResolveError>)
  {
    if before.1.Failure? then before
    else if last.1.Failure? then (last.0, Failure(last.1.error))
    else if last.1.value.None? then (last.0, before.1)
    else (last.0, Success(before.1.value + [last.1.value.value]))
  }

  /** `resolve`: the stripped line is split at its last space into frames
      and metrics; the frames are resolved and joined back, and the
      metrics follow unchanged. */
  function ResolveLine(s: MapsState, line: string, tool: (string, int) -> string)
    : (r: (MapsState, Result<string, ResolveError>))
    ensures r.0.maps == s.maps && r.0.bases == s.bases
  {
    var p := RPartition(Strip(line), ' ');
    FramesThen(ResolveParts(s, Split(p.before, ';'), tool), p.after)
  }

  lemma ResolvePartKept(s: MapsState, part: string, tool: (string, int) -> string)
    ensures CacheKept(s, ResolvePart(s, part, tool).0)
  {
    var fields := Split(part, ':');
    if |fields| == 3 && StartsWith(fields[0], NATIVE_PREFIX) {
      LookupKept(s, Partition(fields[0], "@").after, tool);
    }
  }

  /** Resolving a line only adds to the cache. */
  lemma {:induction false} ResolvePartsKept(s: MapsState, ps: seq<string>, tool: (string, int) -> string)
    ensures CacheKept(s, ResolveParts(s, ps, tool).0)
    decreases |ps|
  {
    if ps != [] {
      var before := ResolveParts(s, ps[..|ps| - 1], tool);
      ResolvePartsKept(s, ps[..|ps| - 1], tool);
      if before.1.Success? {
        ResolvePartKept(before.0, ps[|ps| - 1], tool);
        CacheKeptTrans(s, before.0, ResolvePart(before.0, ps[|ps| - 1], tool).0);
      }
    }
  }

  /** The first field of a split starts the string. */
  lemma SplitHead(part: string, fields: seq<string>)
    requires fields == Split(part, ':')
    ensures StartsWith(part, fields[0] + [':']) || fields == [part]
  {
    if |fields| > 1 {
      assert part == fields[0] + [':'] + Join(fields[1..], ':');
      assert part[..|fields[0]| + 1] == fields[0] + [':'];
    }
  }

  /** A part without `:` is kept verbatim. */
  lemma ResolvePartVerbatim(s: MapsState, part: string, tool: (string, int) -> string)
    requires ':' !in part
    ensures ResolvePart(s, part, tool) == (s, Success(Some(part)))
  {
    SplitNoSep(part, ':');
  }

  lemma SplitFrame(head: string, name: string, lineno: string)
    requires ':' !in head && ':' !in name && ':' !in lineno
    ensures Split(Join([head, name, lineno], ':'), ':') == [head, name, lineno]
  {
    JoinSplit([head, name, lineno], ':');
  }

  /** A part joined from three fields is resolved as that frame. */
  lemma PartIsFrame(s: MapsState, head: string, name: string, lineno: string, tool: (string, int) -> string)
    requires ':' !in head && ':' !in name && ':' !in lineno
    ensures ResolvePart(s, Join([head, name, lineno], ':'), tool) == ResolveFrame(s, head, name, lineno, tool)
  {
    SplitFrame(head, name, lineno);
  }

  /** A Cython wrapper frame is dropped and asks nothing. */
  lemma ResolvePartWrapper(s: MapsState, head: string, name: string, lineno: string, tool: (string, int) -> string)
    requires ':' !in head && ':' !in name && ':' !in lineno
    requires StartsWith(name, PW_PREFIX) || StartsWith(name, PF_PREFIX)
    ensures ResolvePart(s, Join([head, name, lineno], ':'), tool) == (s, Success(None))
  {
    PartIsFrame(s, head, name, lineno, tool);
  }

  /** A frame that is neither native nor Cython comes out as it went in. */
  lemma ResolvePartPlain(s: MapsState, head: string, name: string, lineno: string, tool: (string, int) -> string)
    requires ':' !in head && ':' !in name && ':' !in lineno
    requires !StartsWith(name, PYX_PREFIX) && !StartsWith(head, NATIVE_PREFIX)
    ensures ResolvePart(s, Join([head, name, lineno], ':'), tool) == (s, Success(Some(Join([head, name, lineno], ':'))))
  {
    PartIsFrame(s, head, name, lineno, tool);
    assert !IsWrapper(name);
  }

  /** A Cython frame of a non-native head gets its demangled name, which
      is a suffix of the mangled one. */
  lemma ResolvePartCython(s: MapsState, head: string, name: string, lineno: string, tool: (string, int) -> string)
    requires ':' !in head && ':' !in name && ':' !in lineno
    requires StartsWith(name, PYX_PREFIX) && !IsWrapper(name) && !StartsWith(head, NATIVE_PREFIX)
    requires Demangle(name).Success?
    ensures IsSuffix(Demangle(name).value, name)
    ensures ResolvePart(s, Join([head, name, lineno], ':'), tool) ==
      (s, Success(Some(Join([head, Demangle(name).value, lineno], ':'))))
  {
    PartIsFrame(s, head, name, lineno, tool);
    DemangleSuffix(name);
  }

  /** A native frame whose address the symbolizer resolves takes its
      source, and its line unless that is 0. */
  lemma ResolvePartNative(s: MapsState, head: string, name: string, lineno: string, tool: (string, int) -> string,
                          source: string, n: int)
    requires ':' !in head && ':' !in name && ':' !in lineno
    requires StartsWith(head, NATIVE_PREFIX) && !StartsWith(name, PYX_PREFIX)
    requires Lookup(s, Partition(head, "@").after, tool).1 == Success(Some(SourceLine(source, n)))
    ensures ResolvePart(s, Join([head, name, lineno], ':'), tool) ==
      (Lookup(s, Partition(head, "@").after, tool).0,
       Success(Some(source + ":" + name + ":" + (if n == 0 then lineno else IntToString(n)))))
  {
    PartIsFrame(s, head, name, lineno, tool);
    ResolveFrameNative(s, head, name, lineno, tool);
    NativeFrameFound(head, name, lineno, source, n);
  }

  lemma ResolveFrameNative(s: MapsState, head: string, name: string, lineno: string, tool: (string, int) -> string)
    requires StartsWith(head, NATIVE_PREFIX) && !StartsWith(name, PYX_PREFIX)
    requires Lookup(s, Partition(head, "@").after, tool).1.Success?
    ensures var l := Lookup(s, Partition(head, "@").after, tool);
      ResolveFrame(s, head, name, lineno, tool) == (l.0, Success(Some(NativeFrame(head, name, lineno, l.1.value))))
  {
    assert !IsWrapper(name);
  }

  lemma NativeFrameFound(head: string, name: string, lineno: string, source: string, n: int)
    ensures NativeFrame(head, name, lineno, Some(SourceLine(source, n))) ==
      source + ":" + name + ":" + (if n == 0 then lineno else IntToString(n))
  {
    Join3(source, name, if n == 0 then lineno else IntToString(n), ':');
  }

  /** A part that `resolve` leaves alone: not a frame, or a frame with
      neither a native head nor a Cython name. */
  predicate PlainPart(part: string) {
    var fields := Split(part, ':');
    |fields| != 3 || (!StartsWith(fields[1], PYX_PREFIX) && !StartsWith(fields[0], NATIVE_PREFIX))
  }

  lemma PlainPartKept(s: MapsState, part: string, tool: (string, int) -> string)
    requires PlainPart(part)
    ensures ResolvePart(s, part, tool) == (s, Success(Some(part)))
  {
    var fields := Split(part, ':');
    if |fields| == 3 {
      assert !IsWrapper(fields[1]);
      assert Join(fields, ':') == part;
      Join3(fields[0], fields[1], fields[2], ':');
      assert fields == [fields[0], fields[1], fields[2]];
    }
  }

  lemma {:induction false} ResolvePartsPlain(s: MapsState, ps: seq<string>, tool: (string, int) -> string)
    requires forall i :: 0 <= i < |ps| ==> PlainPart(ps[i])
    ensures ResolveParts(s, ps, tool) == (s, Success(ps))
    decreases |ps|
  {
    if ps != [] {
      var init, last := ps[..|ps| - 1], ps[|ps| - 1];
      forall i | 0 <= i < |init|
        ensures PlainPart(init[i])
      {
        assert init[i] == ps[i];
      }
      ResolvePartsPlain(s, init, tool);
      PlainPartKept(s, last, tool);
      assert ResolveParts(s, ps, tool) == Extend((s, Success(init)), (s, Success(Some(last))));
      assert init + [last] == ps;
    }
  }

  /** A line made only of plain parts resolves to itself. */
  lemma ResolveLinePlain(s: MapsState, ps: seq<string>, metrics: string, tool: (string, int) -> string)
    requires |ps| >= 1 && forall i :: 0 <= i < |ps| ==> PlainPart(ps[i]) && ';' !in ps[i]
    requires Join(ps, ';') != "" && !IsSpace(Join(ps, ';')[0])
    requires metrics != "" && ' ' !in metrics && !IsSpace(metrics[|metrics| - 1])
    ensures ResolveLine(s, Join(ps, ';') + " " + metrics, tool) == (s, Success(Join(ps, ';') + " " + metrics))
  {
    var frames := Join(ps, ';');
    var line := frames + " " + metrics;
    LineLayout(frames, metrics);
    JoinSplit(ps, ';');
    ResolvePartsPlain(s, ps, tool);
    assert ResolveLine(s, line, tool) == FramesThen(ResolveParts(s, ps, tool), metrics);
  }

  /** How a stripped line with a last space falls apart. */
  lemma LineLayout(frames: string, metrics: string)
    requires frames != "" && !IsSpace(frames[0])
    requires metrics != "" && ' ' !in metrics && !IsSpace(metrics[|metrics| - 1])
    ensures RPartition(Strip(frames + " " + metrics), ' ') == Parts(frames, true, metrics)
  {
    var line := frames + " " + metrics;
    StripTrimmed(line);
    RPartitionAt(frames, ' ', metrics);
    assert line == frames + [' '] + metrics;
  }

  /** The resolved frames joined back and followed by the metrics. */
  function FramesThen(frames: (MapsState, Result<seq<string>, ResolveError>), metrics: string)
    : (MapsState, Result<string, ResolveError>)
  {
    if frames.1.Failure? then (frames.0, Failure(frames.1.error))
    else (frames.0, Success(Join(frames.1.value, ';') + " " + metrics))
  }

  /** The metrics after the last space of the stripped line come through
      every successful resolution unchanged. */
  lemma ResolveLineMetrics(s: MapsState, line: string, tool: (string, int) -> string)
    requires ResolveLine(s, line, tool).1.Success?
    ensures EndsWith(ResolveLine(s, line, tool).1.value, " " + RPartition(Strip(line), ' ').after)
    ensures ' ' !in RPartition(Strip(line), ' ').after ||
      RPartition(Strip(line), ' ').after == Strip(line)
  {
    var p := RPartition(Strip(line), ' ');
    FramesThenEnds(ResolveParts(s, Split(p.before, ';'), tool), p.after);
  }

  lemma FramesThenEnds(frames: (MapsState, Result<seq<string>, ResolveError>), metrics: string)
    ensures FramesThen(frames, metrics).1.Success? ==> EndsWith(FramesThen(frames, metrics).1.value, " " + metrics)
  {
    if frames.1.Success? {
      var out := Join(frames.1.value, ';');
      assert out + " " + metrics == out + (" " + metrics);
      assert (out + (" " + metrics))[|out|..] == " " + metrics;
    }
  }

  /** What `resolve_string` makes of a MOJO string: a demangled Cython
      scope name, or the source file and line of a native address. */
  datatype Resolution = Scope(name: string) | Source(filename: string, line: int)

  function StringResolution(s: MapsState, value: string, tool: (string, int) -> string)
    : (r: (MapsState, Result<Option<Resolution>, ResolveError>))
    ensures r.0.maps == s.maps && r.0.bases == s.bases
    ensures !StartsWith(value, NATIVE_PREFIX) ==> r.0 == s
  {
    if StartsWith(value, PYX_PREFIX) && !IsWrapper(value) then
      var d := Demangle(value);
      if d.Failure? then (s, Failure(d.error)) else (s, Success(Some(Scope(d.value))))
    else if StartsWith(value, NATIVE_PREFIX) then SourceOf(Lookup(s, Partition(value, "@").after, tool))
    else (s, Success(None))
  }

  /** The source location a native address was looked up as, if any. */
  function SourceOf(l: (MapsState, Result<Option<SourceLine>, ResolveError>))
    : (r: (MapsState, Result<Option<Resolution>, ResolveError>))
    ensures r.0 == l.0
  {
    if l.1.Failure? then (l.0, Failure(l.1.error))
    else if l.1.value.None? then (l.0, Success(None))
    else (l.0, Success(Some(Source(l.1.value.value.source, l.1.value.value.line))))
  }

  /** A resolved scope name is a suffix of the mangled one, and a string
      that is neither Cython nor native resolves to nothing. */
  lemma ResolveStringScope(s: MapsState, value: string, tool: (string, int) -> string)
    ensures var r := StringResolution(s, value, tool).1;
      r.Success? && r.value.Some? && r.value.value.Scope? ==> IsSuffix(r.value.value.name, value)
    ensures !StartsWith(value, PYX_PREFIX) && !StartsWith(value, NATIVE_PREFIX) ==>
      StringResolution(s, value, tool) == (s, Success(None))
  {
    if StartsWith(value, PYX_PREFIX) && !IsWrapper(value) {
      DemangleSuffix(value);
    }
  }

  lemma ResolveLineKept(s: MapsState, line: string, tool: (string, int) -> string)
    ensures CacheKept(s, ResolveLine(s, line, tool).0)
  {
    ResolvePartsKept(s, Split(RPartition(Strip(line), ' ').before, ';'), tool);
  }

  lemma StringResolutionKept(s: MapsState, value: string, tool: (string, int) -> string)
    ensures CacheKept(s, StringResolution(s, value, tool).0)
  {
    if StartsWith(value, NATIVE_PREFIX) && !(StartsWith(value, PYX_PREFIX) && !IsWrapper(value)) {
      var l := Lookup(s, Partition(value, "@").after, tool);
      LookupKept(s, Partition(value, "@").after, tool);
      assert StringResolution(s, value, tool) == SourceOf(l);
    }
  }

  /** The parts up to `k` are those before it, then part `k`. */
  lemma ResolvePartsSnoc(s: MapsState, ps: seq<string>, k: nat, tool: (string, int) -> string)
    requires k < |ps|
    ensures ResolveParts(s, ps[..k + 1], tool) ==
      Extend(ResolveParts(s, ps[..k], tool), ResolvePart(ResolveParts(s, ps[..k], tool).0, ps[k], tool))
  {
    assert ps[..k + 1][..k] == ps[..k];
  }

  /** Once a part fails, the parts after it are not looked at. */
  lemma {:induction false} ResolvePartsFailed(s: MapsState, ps: seq<string>, k: nat, tool: (string, int) -> string)
    requires k <= |ps| && ResolveParts(s, ps[..k], tool).1.Failure?
    ensures ResolveParts(s, ps, tool) == ResolveParts(s, ps[..k], tool)
    decreases |ps| - k
  {
    if k < |ps| {
      assert ps[..k + 1][..k] == ps[..k];
      assert ResolveParts(s, ps[..k + 1], tool) == ResolveParts(s, ps[..k], tool);
      ResolvePartsFailed(s, ps, k + 1, tool);
    } else {
      assert ps[..k] == ps;
    }
  }

  /** The memory maps of the processes that `austinp` sampled, and the
      cache of the symbolizer's answers. */
  class Maps {
    var maps: seq<MapEntry>
    var bases: map<string, int>
    var cache: map<string, Option<SourceLine>>

    function Model(): MapsState
      reads this
    {
      MapsState(maps, bases, cache)
    }

    ghost predicate Valid()
      reads this
    {
      BasesMinimal(maps, bases)
    }

    constructor()
      ensures Model() == EmptyMaps && Valid()
    {
      maps := [];
      bases := map[];
      cache := map[];
    }

    /** `add`: a `# map:` line becomes a map; the bases stay minimal. */
    method Add(line: string) returns (error: Option<ResolveError>)
      modifies this
      ensures (Model(), error) == AddLine(old(Model()), line)
      ensures old(Valid()) ==> Valid()
    {
      var parsed := ParseMapLine(line);
      if parsed.Failure? {
        return Some(parsed.error);
      }
      Insert(parsed.value);
      error := None;
    }

    /** The map appended and its binary's base lowered to it if need be. */
    method Insert(e: MapEntry)
      modifies this
      ensures Model() == AddEntry(old(Model()), e)
      ensures old(Valid()) ==> Valid()
    {
      if Valid() {
        AddEntryMinimal(maps, bases, e);
      }
      maps, bases := maps + [e], AddBase(bases, e);
    }

    /** `addr2line`: the first map that holds the address is found by a
        linear scan, in insertion order. */
    method Addr2Line(address: string, tool: (string, int) -> string) returns (r: Result<Option<SourceLine>, ResolveError>)
      modifies this
      ensures (Model(), r) == Lookup(old(Model()), address, tool)
    {
      if address in cache {
        return Success(cache[address]);
      }
      var parsed := ParseHex(address);
      if parsed.None? {
        return Failure(ValueError);
      }
      r := LookUpMiss(address, parsed.value, tool);
    }

    /** The rest of `addr2line` for an address that is not cached. */
    method LookUpMiss(address: string, addr: int, tool: (string, int) -> string) returns (r: Result<Option<SourceLine>, ResolveError>)
      modifies this
      ensures (Model(), r) == Miss(old(Model()), address, addr, tool)
    {
      ghost var s := Model();
      var k := FindMap(addr);
      if k == |maps| {
        cache := cache[address := None];
        return Success(None);
      }
      assert Miss(s, address, addr, tool) == Ask(s, address, addr, maps[k].binary, tool);
      r := AskTool(address, addr, maps[k].binary, tool);
    }

    /** The symbolizer asked about `binary`, whose base must be known. */
    method AskTool(address: string, addr: int, binary: string, tool: (string, int) -> string)
      returns (r: Result<Option<SourceLine>, ResolveError>)
      modifies this
      ensures (Model(), r) == Ask(old(Model()), address, addr, binary, tool)
    {
      if binary !in bases {
        return Failure(KeyError);
      }
      var answer := Answer(tool, binary, addr - bases[binary]);
      AskStores(Model(), address, addr, binary, tool, answer);
      r := Remember(address, answer);
    }

    /** The linear scan of `addr2line`: the index of the first map that
        holds the address, or the number of maps when none does. */
    method FindMap(addr: int) returns (k: nat)
      ensures k <= |maps|
      ensures k == |maps| <==> FirstMatch(maps, addr, 0).None?
      ensures k < |maps| ==> FirstMatch(maps, addr, 0) == Some(k)
    {
      k := 0;
      while k < |maps| && !Contains(maps[k], addr)
        invariant k <= |maps|
        invariant FirstMatch(maps, addr, k) == FirstMatch(maps, addr, 0)
        decreases |maps| - k
      {
        k := k + 1;
      }
    }

    method Remember(address: string, answer: Result<SourceLine, ResolveError>) returns (r: Result<Option<SourceLine>, ResolveError>)
      modifies this
      ensures (Model(), r) == Store(old(Model()), address, answer)
    {
      if answer.Failure? {
        return Failure(answer.error);
      }
      cache := cache[address := Some(answer.value)];
      return Success(Some(answer.value));
    }

    /** One part of a collapsed-stack line, as `resolve` handles it. */
    method ResolveSegment(part: string, tool: (string, int) -> string) returns (r: Result<Option<string>, ResolveError>)
      modifies this
      ensures (Model(), r) == ResolvePart(old(Model()), part, tool)
    {
      var fields := Split(part, ':');
      if |fields| != 3 {
        return Success(Some(part));
      }
      var head, name, lineno := fields[0], fields[1], fields[2];
      if IsWrapper(name) {
        return Success(None);
      }
      var d: Result<string, ResolveError> := Success(name);
      if StartsWith(name, PYX_PREFIX) {
        d := DemangleCython(name);
      }
      if d.Failure? {
        return Failure(d.error);
      }
      if !StartsWith(head, NATIVE_PREFIX) {
        return Success(Some(Join([head, d.value, lineno], ':')));
      }
      var found := Addr2Line(Partition(head, "@").after, tool);
      if found.Failure? {
        return Failure(found.error);
      }
      r := Success(Some(NativeFrame(head, d.value, lineno, found.value)));
    }

    /** `resolve`: every part of the line in turn, the resolved ones
        joined back with the metrics. */
    method Resolve(line: string, tool: (string, int) -> string) returns (r: Result<string, ResolveError>)
      modifies this
      ensures (Model(), r) == ResolveLine(old(Model()), line, tool)
    {
      var p := RPartition(Strip(line), ' ');
      var frames := ResolveAll(Split(p.before, ';'), tool);
      if frames.Failure? {
        return Failure(frames.error);
      }
      r := Success(Join(frames.value, ';') + " " + p.after);
    }

    /** The parts of a line in turn; the first error stops the line. */
    method ResolveAll(ps: seq<string>, tool: (string, int) -> string) returns (r: Result<seq<string>, ResolveError>)
      modifies this
      ensures (Model(), r) == ResolveParts(old(Model()), ps, tool)
    {
      ghost var s0 := Model();
      var parts: seq<string> := [];
      for k := 0 to |ps|
        invariant ResolveParts(s0, ps[..k], tool) == (Model(), Success(parts))
      {
        ResolvePartsSnoc(s0, ps, k, tool);
        var x := ResolveSegment(ps[k], tool);
        if x.Failure? {
          ResolvePartsFailed(s0, ps, k + 1, tool);
          return Failure(x.error);
        }
        if x.value.Some? {
          parts := parts + [x.value.value];
        }
      }
      assert ps[..|ps|] == ps;
      r := Success(parts);
    }

    /** `resolve_string`. */
    method ResolveString(value: string, tool: (string, int) -> string) returns (r: Result<Option<Resolution>, ResolveError>)
      modifies this
      ensures (Model(), r) == StringResolution(old(Model()), value, tool)
    {
      if StartsWith(value, PYX_PREFIX) && !IsWrapper(value) {
        var d := DemangleCython(value);
        if d.Failure? {
          return Failure(d.error);
        }
        return Success(Some(Scope(d.value)));
      }
      if StartsWith(value, NATIVE_PREFIX) {
        var found := Addr2Line(Partition(value, "@").after, tool);
        if found.Failure? {
          return Failure(found.error);
        }
        if found.value.None? {
          return Success(None);
        }
        return Success(Some(Source(found.value.value.source, found.value.value.line)));
      }
      return Success(None);
    }
  }
}
