/** The pure parts of `BaseAustin` in austin/base.py: its state, the
    requirement of a sample callback, the cached `version` property and
    the newer minimum version of the Austin binary. `_to_semver` is the same as in austin/__init__.py. */
module Base {
  import opened Wrappers
  import opened SemVer

  /** `AustinState`, an int enumeration. */
  datatype AustinState = NotStarted | Starting | Running | Terminating | Terminated

  function StateValue(s: AustinState): nat {
    match s
    case NotStarted => 0
    case Starting => 1
    case Running => 2
    case Terminating => 3
    case Terminated => 4
  }

  /** The exceptions raised. */
  datatype BaseError = NoSampleCallback | InvalidSemVer | Incompatible(got: SemVer)

  /** The fields the checks read: the metadata received from Austin, the
      state, and the slot in which `functools.cached_property` keeps the
      first version it computed. Whether a sample callback exists is fixed
      at construction. */
  datatype BaseAustin = BaseAustin(meta: map<string, string>, state: AustinState, version: Option<SemVer>)

  /** `MINIMUM_BINARY_VERSION`. */
  const MinimumBinaryVersion: SemVer := SemVer(4, 0, 0)

  /** The constructor: without a sample callback and without an `on_sample`
      method it raises; otherwise the object starts with no metadata and
      no cached version, in the NOT_STARTED state. */
  function New(sampleCallback: bool, definesOnSample: bool): (r: Result<BaseAustin, BaseError>)
    ensures r.Failure? <==> !sampleCallback && !definesOnSample
    ensures r.Failure? ==> r.error == NoSampleCallback
    ensures r.Success? ==> r.value.state == NotStarted && r.value.meta == map[] && r.value.version.None?
  {
    if !sampleCallback && !definesOnSample then Failure(NoSampleCallback)
    else Success(BaseAustin(map[], NotStarted, None))
  }

  /** `is_running`. */
  predicate IsRunning(a: BaseAustin) {
    a.state == Running
  }

  /** The body of the `version` property: the "austin" metadata read as a
      semantic version. */
  function MetaVersion(a: BaseAustin): Result<SemVer, InvalidVersion> {
    ToSemVer(if "austin" in a.meta then Some(a.meta["austin"]) else None)
  }

  /** Reading `version`: a cached value is returned as it is; otherwise the
      metadata is read, and a readable version is stored in the object
      before it is returned. A ValueError is not cached. */
  function ReadVersion(a: BaseAustin): (r: (BaseAustin, Result<SemVer, InvalidVersion>))
    ensures r.0.meta == a.meta && r.0.state == a.state
    ensures a.version.Some? ==> r == (a, Success(a.version.value))
    ensures a.version.None? ==> r.1 == MetaVersion(a)
    ensures r.0.version == if r.1.Success? then Some(r.1.value) else None
  {
    match a.version
    case Some(v) => (a, Success(v))
    case None =>
      match MetaVersion(a)
      case Failure(e) => (a, Failure(e))
      case Success(v) => (a.(version := Some(v)), Success(v))
  }

  /** `_check_version`: the version is read through the cached property; an
      invalid version string, or one below 4.0.0, raises. */
  function CheckVersion(a: BaseAustin): (r: (BaseAustin, Option<BaseError>))
    ensures r.0 == ReadVersion(a).0
    ensures var v := ReadVersion(a).1;
      && (r.1.None? <==> v.Success? && !Less(v.value, MinimumBinaryVersion))
      && (r.1 == Some(InvalidSemVer) <==> v.Failure?)
      && (r.1.Some? && v.Success? ==> r.1 == Some(Incompatible(v.value)))
    ensures a.version.None? ==> (r.1.None? <==> MetaVersion(a).Success? && !Less(MetaVersion(a).value, MinimumBinaryVersion))
  {
    var (b, v) := ReadVersion(a);
    match v
    case Failure(_) => (b, Some(InvalidSemVer))
    case Success(v) => (b, if Less(v, MinimumBinaryVersion) then Some(Incompatible(v)) else None)
  }

  /** A read of `version` is remembered: reading it again, even after the
      metadata has changed, gives the same version and changes nothing. */
  lemma VersionCached(a: BaseAustin, meta: map<string, string>)
    requires ReadVersion(a).1.Success?
    ensures var b := ReadVersion(a).0.(meta := meta);
      ReadVersion(b) == (b, ReadVersion(a).1)
  {
  }

  /** A `version` read before the "austin" metadata has arrived caches
      0.0.0, so a later `_check_version` refuses the binary whatever version
      it has reported since. */
  lemma EarlyReadRefused(a: BaseAustin, meta: map<string, string>)
    requires a.version.None? && "austin" !in a.meta
    ensures var b := ReadVersion(a).0.(meta := meta);
      CheckVersion(b).1 == Some(Incompatible(SemVer(0, 0, 0)))
  {
  }

  /** A freshly constructed object is not running. */
  lemma NewNotRunning(sampleCallback: bool, definesOnSample: bool)
    requires New(sampleCallback, definesOnSample).Success?
    ensures !IsRunning(New(sampleCallback, definesOnSample).value)
    ensures StateValue(New(sampleCallback, definesOnSample).value.state) == 0
  {
  }

  /** The states have distinct values 0 to 4. */
  lemma StateValueInjective(s1: AustinState, s2: AustinState)
    ensures StateValue(s1) <= 4
    ensures StateValue(s1) == StateValue(s2) <==> s1 == s2
  {
  }

  /** The binary accepted here is accepted by austin/__init__.py as well,
      and a 3.x binary passes there but fails here. */
  lemma NewerMinimum(v: SemVer)
    ensures !Less(v, MinimumBinaryVersion) ==> !Less(v, SemVer(3, 0, 0))
    ensures v.major == 3 ==> Less(v, MinimumBinaryVersion) && !Less(v, SemVer(3, 0, 0))
  {
  }
}
