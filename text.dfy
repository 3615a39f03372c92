/** The handful of Python `str` operations the profiler tooling relies on,
    written out over `seq<char>`: prefix tests, `partition`/`rpartition`,
    `split`/`join` on one character, `strip`, `int(s)`, `int(s, 16)` and
    `str(n)`. Only ASCII whitespace and ASCII digits are recognised. */
module Text {
  import opened Wrappers

  predicate IsDigit(c: char) { '0' <= c <= '9' }

  function DigitValue(c: char): (d: nat)
    requires IsDigit(c)
    ensures d < 10
  {
    (c as int) - ('0' as int)
  }

  function DigitChar(d: nat): (c: char)
    requires d < 10
    ensures IsDigit(c) && DigitValue(c) == d
  {
    (('0' as int) + d) as char
  }

  predicate IsHexDigit(c: char) {
    IsDigit(c) || 'a' <= c <= 'f' || 'A' <= c <= 'F'
  }

  function HexValue(c: char): (d: nat)
    requires IsHexDigit(c)
    ensures d < 16
  {
    if IsDigit(c) then DigitValue(c)
    else if 'a' <= c <= 'f' then (c as int) - ('a' as int) + 10
    else (c as int) - ('A' as int) + 10
  }

  /** The characters Python's `str.strip()` removes, restricted to ASCII. */
  predicate IsSpace(c: char) {
    c == ' ' || 9 <= c as int <= 13 || 28 <= c as int <= 31
  }

  predicate StartsWith(s: string, p: string) {
    |p| <= |s| && s[..|p|] == p
  }

  predicate EndsWith(s: string, p: string) {
    |p| <= |s| && s[|s| - |p|..] == p
  }

  predicate OccursAt(s: string, sub: string, j: int) {
    0 <= j && j + |sub| <= |s| && s[j..j + |sub|] == sub
  }

  /** The first position at or after `i` where `sub` occurs in `s`. */
  function FindFrom(s: string, sub: string, i: nat): (r: Option<nat>)
    decreases |s| - i
    ensures r.Some? ==> i <= r.value && OccursAt(s, sub, r.value)
    ensures r.Some? ==> forall j :: i <= j < r.value ==> !OccursAt(s, sub, j)
    ensures r.None? ==> forall j :: i <= j ==> !OccursAt(s, sub, j)
  {
    if i + |sub| > |s| then None
    else if s[i..i + |sub|] == sub then Some(i)
    else FindFrom(s, sub, i + 1)
  }

  /** `s.find(sub)` (None for -1). */
  function Find(s: string, sub: string): (r: Option<nat>)
    ensures r.Some? ==> OccursAt(s, sub, r.value)
    ensures r.Some? ==> forall j :: 0 <= j < r.value ==> !OccursAt(s, sub, j)
    ensures r.None? ==> forall j :: !OccursAt(s, sub, j)
  {
    FindFrom(s, sub, 0)
  }

  /** The index of the last occurrence of `c` in `s`. */
  function LastIndexOf(s: string, c: char): (r: Option<nat>)
    ensures r.Some? ==> r.value < |s| && s[r.value] == c && c !in s[r.value + 1..]
    ensures r.None? ==> c !in s
  {
    if |s| == 0 then None
    else if s[|s| - 1] == c then Some(|s| - 1)
    else
      var r := LastIndexOf(s[..|s| - 1], c);
      assert s == s[..|s| - 1] + [s[|s| - 1]];
      if r.Some? then
        assert s[r.value + 1..] == s[..|s| - 1][r.value + 1..] + [s[|s| - 1]];
        r
      else r
  }

  /** The three parts of Python's `partition` and `rpartition`; `found`
      says whether the separator was present. */
  datatype Parts = Parts(before: string, found: bool, after: string)

  /** `s.partition(sep)`: split at the first occurrence of `sep`. */
  function Partition(s: string, sep: string): (p: Parts)
    requires |sep| > 0
    ensures p.found ==> s == p.before + sep + p.after
    ensures p.found ==> forall j :: 0 <= j < |p.before| ==> !OccursAt(s, sep, j)
    ensures !p.found ==> p.before == s && p.after == "" && forall j :: !OccursAt(s, sep, j)
  {
    match Find(s, sep)
    case None => Parts(s, false, "")
    case Some(i) =>
      assert s == s[..i] + s[i..i + |sep|] + s[i + |sep|..];
      Parts(s[..i], true, s[i + |sep|..])
  }

  /** `s.rpartition(c)`: split at the last occurrence of `c`. */
  function RPartition(s: string, c: char): (p: Parts)
    ensures p.found ==> s == p.before + [c] + p.after && c !in p.after
    ensures !p.found ==> p.before == "" && p.after == s && c !in s
  {
    match LastIndexOf(s, c)
    case None => Parts("", false, s)
    case Some(i) =>
      assert s == s[..i] + [c] + s[i + 1..];
      Parts(s[..i], true, s[i + 1..])
  }

  /** `sep.join(parts)` for a one-character separator. */
  function Join(parts: seq<string>, sep: char): string {
    if |parts| == 0 then ""
    else if |parts| == 1 then parts[0]
    else parts[0] + [sep] + Join(parts[1..], sep)
  }

  /** `s.split(sep)` for a one-character separator: never empty, no part
      contains the separator, and joining the parts gives `s` back. */
  function Split(s: string, sep: char): (parts: seq<string>)
    ensures |parts| >= 1
    ensures forall i :: 0 <= i < |parts| ==> sep !in parts[i]
    ensures Join(parts, sep) == s
  {
    var f := Find(s, [sep]);
    if f.None? then
      assert forall j :: 0 <= j < |s| ==> !OccursAt(s, [sep], j);
      assert forall j :: 0 <= j < |s| ==> s[j] != sep by {
        forall j | 0 <= j < |s| ensures s[j] != sep {
          assert !OccursAt(s, [sep], j);
          assert s[j..j + 1] == [s[j]];
        }
      }
      [s]
    else
      var i := f.value;
      assert s[i..i + 1] == [sep];
      assert sep !in s[..i] by {
        forall j | 0 <= j < i ensures s[..i][j] != sep {
          assert !OccursAt(s, [sep], j);
          assert s[j..j + 1] == [s[j]];
        }
      }
      var rest := Split(s[i + 1..], sep);
      assert s == s[..i] + [sep] + s[i + 1..];
      [s[..i]] + rest
  }

  lemma {:induction false} JoinSplit(parts: seq<string>, sep: char)
    requires |parts| >= 1
    requires forall i :: 0 <= i < |parts| ==> sep !in parts[i]
    ensures Split(Join(parts, sep), sep) == parts
  {
    if |parts| == 1 {
      SplitNoSep(parts[0], sep);
    } else {
      SplitCons(parts[0], sep, Join(parts[1..], sep));
      JoinSplit(parts[1..], sep);
      assert parts == [parts[0]] + parts[1..];
    }
  }

  /** A string without the separator splits into itself. */
  lemma SplitNoSep(a: string, sep: char)
    requires sep !in a
    ensures Split(a, sep) == [a]
  {
    forall j | 0 <= j < |a| ensures !OccursAt(a, [sep], j) {
      OccursAtChar(a, sep, j);
    }
  }

  /** Splitting stops at the first separator. */
  lemma SplitCons(a: string, sep: char, t: string)
    requires sep !in a
    ensures Split(a + [sep] + t, sep) == [a] + Split(t, sep)
  {
    var s := a + [sep] + t;
    OccursAtChar(s, sep, |a|);
    forall j | 0 <= j < |a| ensures !OccursAt(s, [sep], j) {
      OccursAtChar(s, sep, j);
      assert s[j] == a[j];
    }
    FindFirst(s, [sep], |a|);
    assert s[..|a|] == a;
    assert s[|a| + 1..] == t;
  }

  lemma FindFirst(s: string, sub: string, k: nat)
    requires OccursAt(s, sub, k)
    requires forall j :: 0 <= j < k ==> !OccursAt(s, sub, j)
    ensures Find(s, sub) == Some(k)
  {
  }

  /** `s.lstrip()` / `s.rstrip()` / `s.strip()` for ASCII whitespace. */
  function LStrip(s: string): (r: string)
    ensures |r| <= |s| && r == s[|s| - |r|..]
    ensures r == "" || !IsSpace(r[0])
    ensures forall i :: 0 <= i < |s| - |r| ==> IsSpace(s[i])
  {
    if |s| > 0 && IsSpace(s[0]) then LStrip(s[1..]) else s
  }

  function RStrip(s: string): (r: string)
    ensures |r| <= |s| && r == s[..|r|]
    ensures r == "" || !IsSpace(r[|r| - 1])
    ensures forall i :: |r| <= i < |s| ==> IsSpace(s[i])
  {
    if |s| > 0 && IsSpace(s[|s| - 1]) then RStrip(s[..|s| - 1]) else s
  }

  function Strip(s: string): string {
    RStrip(LStrip(s))
  }

  /** `s.rstrip(c)` for one character `c`. */
  function RStripChar(s: string, c: char): (r: string)
    ensures |r| <= |s| && r == s[..|r|]
    ensures r == "" || r[|r| - 1] != c
    ensures forall i :: |r| <= i < |s| ==> s[i] == c
  {
    if |s| > 0 && s[|s| - 1] == c then RStripChar(s[..|s| - 1], c) else s
  }

  predicate AllDigits(s: string) {
    forall i :: 0 <= i < |s| ==> IsDigit(s[i])
  }

  /** The value of a string of decimal digits, most significant first. */
  function DigitsValue(s: string): nat
    requires AllDigits(s)
  {
    if |s| == 0 then 0
    else DigitsValue(s[..|s| - 1]) * 10 + DigitValue(s[|s| - 1])
  }

  predicate AllHexDigits(s: string) {
    forall i :: 0 <= i < |s| ==> IsHexDigit(s[i])
  }

  function HexDigitsValue(s: string): nat
    requires AllHexDigits(s)
  {
    if |s| == 0 then 0
    else HexDigitsValue(s[..|s| - 1]) * 16 + HexValue(s[|s| - 1])
  }

  /** One or more decimal digits. */
  function ParseNat(s: string): Option<nat> {
    if |s| > 0 && AllDigits(s) then Some(DigitsValue(s)) else None
  }

  /** Python's `int(s)`: surrounding whitespace, an optional sign, then
      decimal digits. None stands for the ValueError it raises. */
  function ParseInt(s: string): Option<int> {
    var t := Strip(s);
    if |t| > 0 && t[0] == '-' then
      match ParseNat(t[1..])
      case None => None
      case Some(n) => Some(0 - n as int)
    else if |t| > 0 && t[0] == '+' then
      match ParseNat(t[1..])
      case None => None
      case Some(n) => Some(n)
    else
      match ParseNat(t)
      case None => None
      case Some(n) => Some(n)
  }

  function ParseHexMagnitude(t: string): Option<nat> {
    var d := if StartsWith(t, "0x") || StartsWith(t, "0X") then t[2..] else t;
    if |d| > 0 && AllHexDigits(d) then Some(HexDigitsValue(d)) else None
  }

  /** Python's `int(s, 16)`: whitespace, an optional sign, an optional
      `0x` prefix, then hexadecimal digits. */
  function ParseHex(s: string): Option<int> {
    var t := Strip(s);
    if |t| > 0 && t[0] == '-' then
      match ParseHexMagnitude(t[1..])
      case None => None
      case Some(n) => Some(0 - n as int)
    else if |t| > 0 && t[0] == '+' then
      ParseHexMagnitude(t[1..])
    else
      match ParseHexMagnitude(t)
      case None => None
      case Some(n) => Some(n)
  }

  /** `str(n)` for a natural number. */
  function NatToString(n: nat): (s: string)
    ensures |s| > 0 && AllDigits(s)
  {
    if n < 10 then [DigitChar(n)]
    else NatToString(n / 10) + [DigitChar(n % 10)]
  }

  /** `str(n)` for any integer. */
  function IntToString(n: int): (s: string)
    ensures |s| > 0
    ensures forall i :: 0 <= i < |s| ==> IsDigit(s[i]) || s[i] == '-'
  {
    if n < 0 then "-" + NatToString(-n) else NatToString(n)
  }

  lemma {:induction false} NatToStringValue(n: nat)
    ensures DigitsValue(NatToString(n)) == n
  {
    if n >= 10 {
      NatToStringValue(n / 10);
      var s := NatToString(n);
      assert s[..|s| - 1] == NatToString(n / 10);
    }
  }

  lemma NoSpaceStrip(s: string)
    requires forall i :: 0 <= i < |s| ==> !IsSpace(s[i])
    ensures Strip(s) == s
  {
  }

  /** `int(str(n)) == n`. */
  lemma IntToStringRoundTrip(n: int)
    ensures ParseInt(IntToString(n)) == Some(n)
  {
    var s := IntToString(n);
    NoSpaceStrip(s);
    if n < 0 {
      NatToStringValue(-n);
      assert s[1..] == NatToString(-n);
    } else {
      NatToStringValue(n);
    }
  }

  lemma IntToStringHasNo(n: int, c: char)
    requires !IsDigit(c) && c != '-'
    ensures c !in IntToString(n)
  {
  }

  /** `rpartition` splits at a separator that does not occur after it. */
  lemma RPartitionAt(a: string, c: char, b: string)
    requires c !in b
    ensures RPartition(a + [c] + b, c) == Parts(a, true, b)
  {
    var s := a + [c] + b;
    assert s[|a|] == c;
    assert s[..|a|] == a && s[|a| + 1..] == b;
  }

  /** `partition` splits at a separator whose first character does not
      occur before it. */
  lemma PartitionAt(a: string, sep: string, b: string)
    requires |sep| > 0 && sep[0] !in a
    ensures Partition(a + sep + b, sep) == Parts(a, true, b)
  {
    var s := a + sep + b;
    assert s[|a|..|a| + |sep|] == sep;
    FindFirst(s, sep, |a|);
    assert s[..|a|] == a && s[|a| + |sep|..] == b;
  }

  /** `partition` of a string without the separator's first character
      keeps it whole. */
  lemma PartitionAbsent(s: string, sep: string)
    requires |sep| > 0 && sep[0] !in s
    ensures Partition(s, sep) == Parts(s, false, "")
  {
  }

  /** `strip` leaves alone a string that neither starts nor ends with
      whitespace. */
  lemma StripTrimmed(s: string)
    requires s == [] || (!IsSpace(s[0]) && !IsSpace(s[|s| - 1]))
    ensures Strip(s) == s
  {
  }

  /** `rstrip(c)` removes a trailing `c` from a string that does not
      otherwise end in one. */
  lemma RStripCharOnce(s: string, c: char)
    requires s == [] || s[|s| - 1] != c
    ensures RStripChar(s + [c], c) == s
  {
    assert (s + [c])[..|s|] == s;
  }

  lemma IntToStringNonSpace(n: int)
    ensures forall i :: 0 <= i < |IntToString(n)| ==> !IsSpace(IntToString(n)[i])
  {
  }

  /** Hexadecimal digits without a `0x` prefix read as their value. */
  lemma ParseHexDigits(s: string)
    requires |s| > 0 && AllHexDigits(s) && !StartsWith(s, "0x") && !StartsWith(s, "0X")
    ensures ParseHex(s) == Some(HexDigitsValue(s))
  {
    HexNoSpace(s);
    assert s[0] != '-' && s[0] != '+';
    assert ParseHexMagnitude(s) == Some(HexDigitsValue(s));
  }

  lemma HexNoSpace(s: string)
    requires AllHexDigits(s)
    ensures Strip(s) == s
  {
    assert forall i :: 0 <= i < |s| ==> !IsSpace(s[i]);
    NoSpaceStrip(s);
  }

  /** A one-character separator occurs exactly where that character is. */
  lemma OccursAtChar(s: string, c: char, j: nat)
    requires j < |s|
    ensures OccursAt(s, [c], j) <==> s[j] == c
  {
    assert s[j..j + 1] == [s[j]];
  }

  /** Partitioning at a character finds it exactly when it is there, and
      the part before holds none of it. */
  lemma PartitionChar(s: string, c: char)
    ensures Partition(s, [c]).found <==> c in s
    ensures Partition(s, [c]).found ==> c !in Partition(s, [c]).before
  {
    var p := Partition(s, [c]);
    if c in s {
      var k :| 0 <= k < |s| && s[k] == c;
      OccursAtChar(s, c, k);
    }
    if p.found {
      forall j | 0 <= j < |p.before| ensures p.before[j] != c {
        OccursAtChar(s, c, j);
      }
    }
  }

  lemma Join3(a: string, b: string, c: string, sep: char)
    ensures Join([a, b, c], sep) == a + [sep] + b + [sep] + c
  {
    assert [a, b, c][1..] == [b, c];
    assert [b, c][1..] == [c];
    assert Join([c], sep) == c;
    assert Join([b, c], sep) == b + [sep] + c;
  }
}
