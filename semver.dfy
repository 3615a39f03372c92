/** `_to_semver`, which austin/__init__.py and austin/base.py define
    identically: the leading run of digits and dots of a version string,
    with every '?' read as '0', split at the dots into at most three
    integer components, missing ones being zero. */
module SemVer {
  import opened Wrappers
  import opened Text

  datatype SemVer = SemVer(major: nat, minor: nat, patch: nat)

  /** The ValueError "Invalid semantic version". */
  datatype InvalidVersion = InvalidVersion

  /** `version.replace("?", "0")`. */
  function ReplaceQuestion(s: string): (r: string)
    ensures |r| == |s|
    ensures forall i :: 0 <= i < |s| ==> r[i] == if s[i] == '?' then '0' else s[i]
  {
    if s == [] then [] else [if s[0] == '?' then '0' else s[0]] + ReplaceQuestion(s[1..])
  }

  predicate VersionChar(c: char) { IsDigit(c) || c == '.' }

  /** `takewhile(lambda _: _.isdigit() or _ == ".", s)`: the longest
      prefix of digits and dots. */
  function TakeVersion(s: string): (r: string)
    ensures |r| <= |s| && r == s[..|r|]
    ensures forall i :: 0 <= i < |r| ==> VersionChar(r[i])
    ensures |r| < |s| ==> !VersionChar(s[|r|])
  {
    if s != [] && VersionChar(s[0]) then [s[0]] + TakeVersion(s[1..]) else []
  }

  /** The value of component `i`, zero past the end: `(... + (0, 0, 0))[:3]`. */
  function Component(values: seq<nat>, i: nat): nat {
    if i < |values| then values[i] else 0
  }

  /** `int(_)` on every part, failing on the first that is not a number. */
  function ParseParts(parts: seq<string>): (r: Option<seq<nat>>)
    ensures r.Some? <==> forall i :: 0 <= i < |parts| ==> ParseNat(parts[i]).Some?
    ensures r.Some? ==>
      |r.value| == |parts| && forall i :: 0 <= i < |parts| ==> ParseNat(parts[i]) == Some(r.value[i])
  {
    if parts == [] then Some([])
    else
      match ParseNat(parts[0])
      case None => None
      case Some(n) =>
        match ParseParts(parts[1..])
        case None => None
        case Some(rest) => Some([n] + rest)
  }

  /** The components of a version string. */
  function VersionParts(version: string): seq<string> {
    Split(TakeVersion(ReplaceQuestion(version)), '.')
  }

  /** `_to_semver`: None is 0.0.0; a component that is not a number raises. */
  function ToSemVer(version: Option<string>): (r: Result<SemVer, InvalidVersion>)
    ensures version.None? ==> r == Success(SemVer(0, 0, 0))
  {
    match version
    case None => Success(SemVer(0, 0, 0))
    case Some(v) =>
      match ParseParts(VersionParts(v))
      case None => Failure(InvalidVersion)
      case Some(values) => Success(SemVer(Component(values, 0), Component(values, 1), Component(values, 2)))
  }

  /** Python's tuple comparison `a < b`. */
  predicate Less(a: SemVer, b: SemVer) {
    a.major < b.major ||
    (a.major == b.major && (a.minor < b.minor || (a.minor == b.minor && a.patch < b.patch)))
  }

  /** Every character of a part of `Split(s, sep)` is a character of `s`. */
  lemma {:induction false} JoinedCharacters(parts: seq<string>, sep: char, i: nat, j: nat)
    requires i < |parts| && j < |parts[i]|
    ensures parts[i][j] in Join(parts, sep)
    decreases |parts|
  {
    if |parts| > 1 {
      if i == 0 {
        assert Join(parts, sep)[j] == parts[0][j];
      } else {
        JoinedCharacters(parts[1..], sep, i - 1, j);
        var tail := Join(parts[1..], sep);
        var k :| 0 <= k < |tail| && tail[k] == parts[i][j];
        assert Join(parts, sep)[|parts[0]| + 1 + k] == tail[k];
      }
    }
  }

  /** The parts of a version are strings of digits. */
  lemma PartsAreDigits(version: string, i: nat)
    requires i < |VersionParts(version)|
    ensures AllDigits(VersionParts(version)[i])
  {
    var t := TakeVersion(ReplaceQuestion(version));
    var parts := Split(t, '.');
    forall j | 0 <= j < |parts[i]| ensures IsDigit(parts[i][j]) {
      JoinedCharacters(parts, '.', i, j);
      assert parts[i][j] != '.';
    }
  }

  /** A version is invalid exactly when one of its components is empty:
      an empty prefix of digits and dots, two dots in a row, or a dot at
      either end. */
  lemma InvalidIffEmptyPart(version: string)
    ensures ToSemVer(Some(version)).Failure? <==>
      exists i :: 0 <= i < |VersionParts(version)| && VersionParts(version)[i] == ""
  {
    var parts := VersionParts(version);
    forall i | 0 <= i < |parts| ensures ParseNat(parts[i]).Some? <==> parts[i] != "" {
      PartsAreDigits(version, i);
    }
  }

  /** The components are the numbers between the dots, in order, padded
      with zeros and truncated to three. */
  lemma ComponentsInOrder(version: string)
    requires ToSemVer(Some(version)).Success?
    ensures var parts, v := VersionParts(version), ToSemVer(Some(version)).value;
      (|parts| > 0 ==> ParseNat(parts[0]) == Some(v.major)) &&
      (|parts| > 1 ==> ParseNat(parts[1]) == Some(v.minor)) && (|parts| <= 1 ==> v.minor == 0) &&
      (|parts| > 2 ==> ParseNat(parts[2]) == Some(v.patch)) && (|parts| <= 2 ==> v.patch == 0)
  {
  }

  /** A '?' counts as a '0'. */
  lemma QuestionIsZero(version: string)
    ensures ToSemVer(Some(version)) == ToSemVer(Some(ReplaceQuestion(version)))
  {
    var r := ReplaceQuestion(version);
    assert ReplaceQuestion(r) == r;
  }

  /** Reading stops at the first character that is neither a digit, a dot
      nor a '?': whatever follows it is ignored. */
  lemma StopsAtOtherCharacter(s: string, c: char, rest: string)
    requires forall i :: 0 <= i < |s| ==> VersionChar(s[i])
    requires !VersionChar(c) && c != '?'
    ensures ToSemVer(Some(s + [c] + rest)) == ToSemVer(Some(s))
  {
    var u := s + [c] + rest;
    var ru := ReplaceQuestion(u);
    var rs := ReplaceQuestion(s);
    assert rs == s;
    assert ru[..|s|] == s && ru[|s|] == c;
    TakePrefix(ru, s);
    TakePrefix(rs, s);
  }

  /** The longest prefix of digits and dots of a string that starts with
      `p`, all digits and dots, followed by some other character or
      nothing, is `p`. */
  lemma {:induction false} TakePrefix(s: string, p: string)
    requires |p| <= |s| && s[..|p|] == p
    requires forall i :: 0 <= i < |p| ==> VersionChar(p[i])
    requires |p| < |s| ==> !VersionChar(s[|p|])
    ensures TakeVersion(s) == p
    decreases |p|
  {
    if p != [] {
      TakePrefix(s[1..], p[1..]);
    }
  }

  /** The parts of a version made only of digits and dots are its
      dot-separated pieces. */
  lemma PlainVersionParts(parts: seq<string>)
    requires |parts| >= 1 && forall i :: 0 <= i < |parts| ==> AllDigits(parts[i])
    ensures VersionParts(Join(parts, '.')) == parts
  {
    var v := Join(parts, '.');
    forall i | 0 <= i < |v| ensures VersionChar(v[i]) && v[i] != '?' {
      JoinedFrom(parts, '.', i);
    }
    assert ReplaceQuestion(v) == v;
    TakePrefix(v, v);
    forall i | 0 <= i < |parts| ensures '.' !in parts[i] {
      assert forall j :: 0 <= j < |parts[i]| ==> IsDigit(parts[i][j]);
    }
    JoinSplit(parts, '.');
  }

  /** A character of `Join(parts, sep)` is the separator or a character of
      one of the parts. */
  lemma {:induction false} JoinedFrom(parts: seq<string>, sep: char, k: nat)
    requires k < |Join(parts, sep)|
    ensures Join(parts, sep)[k] == sep || exists i, j :: 0 <= i < |parts| && 0 <= j < |parts[i]| && parts[i][j] == Join(parts, sep)[k]
    decreases |parts|
  {
    if |parts| > 1 {
      var n := |parts[0]|;
      if k > n {
        JoinedFrom(parts[1..], sep, k - n - 1);
        var tail := Join(parts[1..], sep);
        assert Join(parts, sep)[k] == tail[k - n - 1];
        if tail[k - n - 1] != sep {
          var i, j :| 0 <= i < |parts[1..]| && 0 <= j < |parts[1..][i]| && parts[1..][i][j] == tail[k - n - 1];
          assert parts[i + 1][j] == Join(parts, sep)[k];
        }
      } else if k < n {
        assert parts[0][k] == Join(parts, sep)[k];
      }
    } else {
      assert parts[0][k] == Join(parts, sep)[k];
    }
  }

  /** "3.1" is 3.1.0. */
  lemma ShortVersionPadded()
    ensures ToSemVer(Some("3.1")) == Success(SemVer(3, 1, 0))
  {
    assert Join(["3", "1"], '.') == "3.1";
    PlainVersionParts(["3", "1"]);
  }

  /** "3..1" is invalid. */
  lemma DoubleDotInvalid()
    ensures ToSemVer(Some("3..1")).Failure?
  {
    assert Join(["3", "", "1"], '.') == "3..1";
    PlainVersionParts(["3", "", "1"]);
  }
}
