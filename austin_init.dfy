/** The pure checks of `BaseAustin` in austin/__init__.py: how an exit
    code of the Austin binary is classified, and whether the version the
    binary reports in its metadata is recent enough. */
module Austin {
  import opened Wrappers
  import opened SemVer

  /** The exceptions the checks raise. */
  datatype AustinError =
    | Terminated                    // AustinTerminated
    | ExitError(code: int)          // AustinError("(rcode) stderr")
    | InvalidSemVer                 // ValueError("Invalid semantic version")
    | Incompatible(got: SemVer)     // AustinError("Incompatible Austin version ...")

  /** `BaseAustin.BINARY_VERSION`. */
  const BinaryVersion: SemVer := SemVer(3, 0, 0)

  /** The exit codes of a terminated Austin: SIGTERM, and its shell forms. */
  predicate TerminationCode(rcode: int) {
    rcode == -15 || rcode == 15 || rcode == 241
  }

  /** `check_exit`: zero passes; a termination code raises AustinTerminated
      and any other code an AustinError carrying it. */
  function CheckExit(rcode: int): (r: Option<AustinError>)
    ensures r.None? <==> rcode == 0
    ensures r == Some(Terminated) <==> TerminationCode(rcode)
    ensures r.Some? && !TerminationCode(rcode) ==> r == Some(ExitError(rcode))
  {
    if rcode != 0 then
      if TerminationCode(rcode) then Some(Terminated) else Some(ExitError(rcode))
    else None
  }

  /** The `version` property: `_to_semver` of the "austin" metadata. */
  function Version(meta: map<string, string>): Result<SemVer, InvalidVersion> {
    ToSemVer(if "austin" in meta then Some(meta["austin"]) else None)
  }

  /** `check_version`: the version is never None, so the only failures are
      an invalid version string and a version below 3.0.0. */
  function CheckVersion(meta: map<string, string>): (r: Option<AustinError>)
    ensures r.None? <==> Version(meta).Success? && !Less(Version(meta).value, BinaryVersion)
    ensures r == Some(InvalidSemVer) <==> Version(meta).Failure?
    ensures r.Some? && Version(meta).Success? ==> r == Some(Incompatible(Version(meta).value))
  {
    match Version(meta)
    case Failure(_) => Some(InvalidSemVer)
    case Success(v) => if Less(v, BinaryVersion) then Some(Incompatible(v)) else None
  }

  /** Without "austin" metadata the version is 0.0.0, which is too old. */
  lemma MissingVersionIncompatible(meta: map<string, string>)
    requires "austin" !in meta
    ensures CheckVersion(meta) == Some(Incompatible(SemVer(0, 0, 0)))
  {
  }

  /** Any 3.x or later version passes, whatever its minor and patch. */
  lemma MajorDecides(v: SemVer)
    ensures Less(v, BinaryVersion) <==> v.major < 3
  {
  }
}
