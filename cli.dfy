/** The parts of `AustinArgumentParser` in austin/cli.py that are not
    argparse itself: the parser of time arguments with units, the check of
    the constructor's switches, the checks after parsing, and `to_list`,
    which rebuilds the Austin command line from parsed arguments. */
module Cli {
  import opened Wrappers
  import opened Text

  // ------------------------------------------------------------- times

  /** The units a time argument is read in: `time("us")`, `time("ms")`
      and `time("s")`. */
  datatype Unit = Us | Ms | S

  /** `int({"us": 1, "ms": 1e3, "s": 1e6}[units])`. */
  function Base(u: Unit): (b: nat)
    ensures b >= 1
  {
    match u
    case Us => 1
    case Ms => 1000
    case S => 1000000
  }

  /** The parser `time(units)` returns: a magnitude with an optional
      suffix, converted into `units`; None stands for the ValueError of a
      magnitude that is not an integer. The suffixes are tried in the
      order "us", "ms", "s". Python's `//` floors, which for a positive
      divisor is Dafny's `/`. A magnitude already in `units` comes back
      as it is. */
  function ParseTime(units: Unit, arg: string): (r: Option<int>)
    ensures units == Us && EndsWith(arg, "us") ==> r == ParseInt(arg[..|arg| - 2])
    ensures units == Ms && EndsWith(arg, "ms") ==> r == ParseInt(arg[..|arg| - 2])
    ensures units == S && EndsWith(arg, "s") && !EndsWith(arg, "us") && !EndsWith(arg, "ms") ==>
      r == ParseInt(arg[..|arg| - 1])
  {
    SuffixesDiffer(arg);
    if EndsWith(arg, "us") then
      match ParseInt(arg[..|arg| - 2])
      case None => None
      case Some(n) => Some(Scaled(n, 1, units))
    else if EndsWith(arg, "ms") then
      match ParseInt(arg[..|arg| - 2])
      case None => None
      case Some(n) => Some(Scaled(n, 1000, units))
    else if EndsWith(arg, "s") then
      match ParseInt(arg[..|arg| - 1])
      case None => None
      case Some(n) => Some(Scaled(n, 1000000, units))
    else ParseInt(arg)
  }

  /** `n` of a unit worth `per` microseconds, in `units`. */
  function Scaled(n: int, per: nat, units: Unit): (r: int)
    ensures per == Base(units) ==> r == n
  {
    n * per / Base(units)
  }

  /** A magnitude in microseconds, milliseconds or seconds, or without a
      unit, converted into `units`. */
  lemma TimeUnits(units: Unit, n: int)
    ensures ParseTime(units, IntToString(n) + "us") == Some(n / Base(units))
    ensures ParseTime(units, IntToString(n) + "ms") == Some(n * 1000 / Base(units))
    ensures ParseTime(units, IntToString(n) + "s") == Some(n * 1000000 / Base(units))
    ensures ParseTime(units, IntToString(n)) == Some(n)
  {
    var s := IntToString(n);
    IntToStringRoundTrip(n);
    Micro(units, s, n);
    Milli(units, s, n);
    Seconds(units, s, n);
    NoSuffix(s);
  }

  /** No string ends in both "us" and "ms". */
  lemma SuffixesDiffer(arg: string)
    ensures !(EndsWith(arg, "us") && EndsWith(arg, "ms"))
  {
    if EndsWith(arg, "us") {
      assert arg[|arg| - 2] == arg[|arg| - 2..][0] == 'u';
    }
  }

  /** The magnitude before a unit suffix is the integer it spells. */
  lemma Micro(units: Unit, s: string, n: int)
    requires ParseInt(s) == Some(n)
    ensures ParseTime(units, s + "us") == Some(n / Base(units))
  {
    var a := s + "us";
    assert a[..|s|] == s && a[|s|..] == "us";
  }

  lemma Milli(units: Unit, s: string, n: int)
    requires ParseInt(s) == Some(n)
    ensures ParseTime(units, s + "ms") == Some(n * 1000 / Base(units))
  {
    var a := s + "ms";
    assert a[..|s|] == s && a[|s|..] == "ms";
    assert a[|a| - 2..][0] == 'm';
  }

  lemma Seconds(units: Unit, s: string, n: int)
    requires |s| > 0 && s[|s| - 1] != 'u' && s[|s| - 1] != 'm' && ParseInt(s) == Some(n)
    ensures ParseTime(units, s + "s") == Some(n * 1000000 / Base(units))
  {
    SecondsSuffix(s);
  }

  /** A string whose last character is not an 's' ends in no unit suffix. */
  lemma NoSuffix(s: string)
    requires |s| > 0 && s[|s| - 1] != 's'
    ensures !EndsWith(s, "us") && !EndsWith(s, "ms") && !EndsWith(s, "s")
  {
    LastOfSuffix(s, "us");
    LastOfSuffix(s, "ms");
    LastOfSuffix(s, "s");
  }

  /** A string ends with the last character of each of its suffixes. */
  lemma LastOfSuffix(s: string, p: string)
    requires |p| > 0
    ensures EndsWith(s, p) ==> s[|s| - 1] == p[|p| - 1]
  {
    if EndsWith(s, p) { assert s[|s| - |p|..][|p| - 1] == s[|s| - 1]; }
  }

  /** A string ending in an 's' not preceded by 'u' or 'm' has the seconds
      suffix only. */
  lemma SecondsSuffix(m: string)
    requires |m| > 0 && m[|m| - 1] != 'u' && m[|m| - 1] != 'm'
    ensures !EndsWith(m + "s", "us") && !EndsWith(m + "s", "ms") && EndsWith(m + "s", "s")
    ensures (m + "s")[..|m|] == m
  {
    var a := m + "s";
    assert a[|m|..] == "s";
    assert a[|a| - 2..][0] == m[|m| - 1];
  }

  /** `int` refuses a string with a character that is neither a digit, a
      sign nor whitespace. */
  lemma ForeignCharacter(t: string, k: nat)
    requires k < |t| && !IsDigit(t[k]) && !IsSpace(t[k]) && t[k] != '-' && t[k] != '+'
    ensures ParseInt(t).None?
  {
    var k1 := StrippedAt(t, k);
    NoDigitsAt(Strip(t), k1);
  }

  /** A character that is not whitespace survives `strip`. */
  lemma StrippedAt(t: string, k: nat) returns (k1: nat)
    requires k < |t| && !IsSpace(t[k])
    ensures k1 < |Strip(t)| && Strip(t)[k1] == t[k]
  {
    var l := LStrip(t);
    k1 := k - (|t| - |l|);
    assert l[k1] == t[k];
    assert RStrip(l)[k1] == l[k1];
  }

  /** Neither `r` nor `r` after its leading sign is all digits when some
      character of `r` is neither a digit nor a sign. */
  lemma NoDigitsAt(r: string, k: nat)
    requires k < |r| && !IsDigit(r[k]) && r[k] != '-' && r[k] != '+'
    ensures ParseNat(r).None?
    ensures |r| > 0 && (r[0] == '-' || r[0] == '+') ==> ParseNat(r[1..]).None?
  {
    if k > 0 {
      assert r[1..][k - 1] == r[k];
    }
  }

  /** A magnitude that is not an integer is rejected, with the seconds
      suffix or without a unit ("2ls" and "2l", say). */
  lemma RejectsNonInteger(units: Unit, m: string, k: nat)
    requires k < |m| && !IsDigit(m[k]) && !IsSpace(m[k]) && m[k] != '-' && m[k] != '+'
    requires m[|m| - 1] != 'u' && m[|m| - 1] != 'm' && m[|m| - 1] != 's'
    ensures ParseTime(units, m + "s").None?
    ensures ParseTime(units, m).None?
  {
    ForeignCharacter(m, k);
    SecondsSuffix(m);
    NoSuffix(m);
  }

  // ------------------------------------------------------- constructor

  /** The switches of the constructor: which options the parser accepts. */
  datatype Switches = Switches(
    altFormat: bool, children: bool, excludeEmpty: bool, exposure: bool, full: bool,
    interval: bool, memory: bool, pid: bool, sleepless: bool, timeout: bool, command: bool)

  datatype CliError =
    | NoPidNorCommandOption   // "must have at least one between pid and command"
    | LeftUnparsed(rest: seq<string>)
    | NoPidNorCommand         // "No PID or command given."

  /** The check as the constructor writes it: it raises when
      `not (pid and command)`, so a parser is accepted only with BOTH
      switches on. */
  predicate AcceptsAsWritten(pid: bool, command: bool) {
    pid && command
  }

  /** The check the documentation and the error message describe: at least
      one of the two must be on. */
  predicate Accepts(pid: bool, command: bool) {
    pid || command
  }

  /** A parser with only `pid` enabled is refused as written, although it
      has one of the two. */
  lemma AsWrittenRefusesPidOnly()
    ensures !AcceptsAsWritten(true, false) && Accepts(true, false)
    ensures !AcceptsAsWritten(false, true) && Accepts(false, true)
  {
  }

  /** The documented check refuses exactly a parser with neither option,
      the case the tests exercise, and agrees with the code when both
      are on. */
  lemma AcceptsExactly(pid: bool, command: bool)
    ensures !Accepts(pid, command) <==> !pid && !command
    ensures pid && command ==> Accepts(pid, command) && AcceptsAsWritten(pid, command)
    ensures !pid && !command ==> !AcceptsAsWritten(pid, command)
  {
  }

  /** The constructor as written: it raises unless both `pid` and
      `command` are on. */
  function NewParserAsWritten(sw: Switches): (r: Result<Switches, CliError>)
    ensures r.Failure? <==> !(sw.pid && sw.command)
    ensures r.Success? ==> r.value == sw
    ensures r.Failure? ==> r.error == NoPidNorCommandOption
  {
    if !AcceptsAsWritten(sw.pid, sw.command) then Failure(NoPidNorCommandOption) else Success(sw)
  }

  /** The written constructor refuses a parser with exactly one of the two
      switches, which the documented one accepts; on every other choice the
      two agree. */
  lemma AsWrittenRefusesOneSwitch(sw: Switches)
    ensures sw.pid != sw.command ==> NewParserAsWritten(sw).Failure? && NewParser(sw) == Success(sw)
    ensures sw.pid == sw.command ==> NewParserAsWritten(sw) == NewParser(sw)
  {
  }

  /** The constructor, with the documented check. */
  function NewParser(sw: Switches): (r: Result<Switches, CliError>)
    ensures r.Failure? <==> !sw.pid && !sw.command
    ensures r.Success? ==> r.value == sw
    ensures r.Failure? ==> r.error == NoPidNorCommandOption
  {
    if !Accepts(sw.pid, sw.command) then Failure(NoPidNorCommandOption) else Success(sw)
  }

  // ------------------------------------------------------ parsed values

  /** An `argparse.Namespace`, with None for an option the parser did not
      define. `to_list` reads such an option as None through `getattr`;
      `parse_args` (austin/cli.py:195) reads `.pid` and `.command` directly,
      and Cli.CheckParsed reads them as None too. The difference only shows
      under the corrected Cli.NewParser, which builds a parser without `-p`
      or without the command: there Python raises AttributeError where
      Cli.CheckParsed sees None. */
  datatype Namespace = Namespace(
    altFormat: Option<bool>, children: Option<bool>, excludeEmpty: Option<bool>, full: Option<bool>,
    interval: Option<int>, memory: Option<bool>, pid: Option<int>, sleepless: Option<bool>,
    timeout: Option<int>, command: Option<seq<string>>)

  predicate TrueFlag(b: Option<bool>) { b == Some(true) }

  /** Python truthiness of an optional integer: None and 0 are false. */
  predicate TrueInt(n: Option<int>) { n.Some? && n.value != 0 }

  predicate TrueList(c: Option<seq<string>>) { c.Some? && c.value != [] }

  /** `parse_args` after `parse_known_args`: arguments left over, or
      neither a pid nor a command, raise. */
  function CheckParsed(parsed: Namespace, unparsed: seq<string>): (r: Result<Namespace, CliError>)
    ensures r.Success? <==> unparsed == [] && (TrueInt(parsed.pid) || TrueList(parsed.command))
    ensures r.Success? ==> r.value == parsed
    ensures unparsed != [] ==> r == Failure(LeftUnparsed(unparsed))
  {
    if unparsed != [] then Failure(LeftUnparsed(unparsed))
    else if !TrueInt(parsed.pid) && !TrueList(parsed.command) then Failure(NoPidNorCommand)
    else Success(parsed)
  }

  // ----------------------------------------------------------- to_list

  /** The options `to_list` writes, by rank: -a, -C, -e, -f, -i, -m, -p, -s,
      -t. Those of rank 5, 7 and 9 take a number. */
  function Letter(k: nat): char
    requires 1 <= k <= 9
  {
    match k
    case 1 => 'a' case 2 => 'C' case 3 => 'e' case 4 => 'f' case 5 => 'i'
    case 6 => 'm' case 7 => 'p' case 8 => 's' case _ => 't'
  }

  function Word(k: nat): string
    requires 1 <= k <= 9
  {
    ['-', Letter(k)]
  }

  predicate HasValue(k: nat) { k == 5 || k == 7 || k == 9 }

  /** The rank of a word: that of the option it is, 10 for any other word. */
  function Rank(w: string): (k: nat)
    ensures 1 <= k <= 10
  {
    if |w| != 2 || w[0] != '-' then 10
    else
      match w[1]
      case 'a' => 1 case 'C' => 2 case 'e' => 3 case 'f' => 4 case 'i' => 5
      case 'm' => 6 case 'p' => 7 case 's' => 8 case 't' => 9
      case _ => 10
  }

  predicate IsOption(w: string) {
    Rank(w) < 10
  }

  /** A command that does not start with one of the options. */
  predicate NoOption(command: seq<string>) {
    command == [] || !IsOption(command[0])
  }

  lemma RankOfWord(k: nat)
    requires 1 <= k <= 9
    ensures Rank(Word(k)) == k
  {
  }

  /** The value of an option as `to_list` sees it: a switch is on when it
      is truthy; a number is present when it is truthy, that is, not None
      and not 0. */
  datatype Value = Flag(on: bool) | Number(n: Option<int>)

  function ValueAt(args: Namespace, k: nat): (v: Value)
    requires 1 <= k <= 9
    ensures v.Number? <==> HasValue(k)
  {
    match k
    case 1 => Flag(TrueFlag(args.altFormat))
    case 2 => Flag(TrueFlag(args.children))
    case 3 => Flag(TrueFlag(args.excludeEmpty))
    case 4 => Flag(TrueFlag(args.full))
    case 5 => Number(if TrueInt(args.interval) then args.interval else None)
    case 6 => Flag(TrueFlag(args.memory))
    case 7 => Number(if TrueInt(args.pid) then args.pid else None)
    case 8 => Flag(TrueFlag(args.sleepless))
    case _ => Number(if TrueInt(args.timeout) then args.timeout else None)
  }

  /** The values of the options of rank `k` and beyond. */
  function ValuesFrom(args: Namespace, k: nat): (vs: seq<Value>)
    requires 1 <= k <= 10
    decreases 10 - k
  {
    if k == 10 then [] else [ValueAt(args, k)] + ValuesFrom(args, k + 1)
  }

  /** The command, empty when there is none. */
  function Command(args: Namespace): seq<string> {
    if TrueList(args.command) then args.command.value else []
  }

  /** The words for an option with value `v`. */
  function Emit(v: Value, w: string): seq<string> {
    match v
    case Flag(on) => if on then [w] else []
    case Number(n) => if n.Some? then [w, IntToString(n.value)] else []
  }

  function PieceAt(args: Namespace, k: nat): seq<string>
    requires 1 <= k <= 9
  {
    Emit(ValueAt(args, k), Word(k))
  }

  /** The options of rank at most `k`, as `to_list` appends them. */
  function Written(args: Namespace, k: nat): seq<string>
    requires k <= 9
  {
    if k == 0 then [] else Written(args, k - 1) + PieceAt(args, k)
  }

  /** The options of rank `k` and beyond, then the command, as a reader
      meets them. */
  function ToRead(args: Namespace, k: nat): seq<string>
    requires 1 <= k <= 10
    decreases 10 - k
  {
    if k == 10 then Command(args) else PieceAt(args, k) + ToRead(args, k + 1)
  }

  /** An independent reader of a command line in `to_list`'s layout: each
      option in turn, if present, then the command. */
  function ReadFrom(list: seq<string>, k: nat): (seq<Value>, seq<string>)
    requires 1 <= k <= 10
    decreases 10 - k
  {
    if k == 10 then ([], list)
    else
      var (v, rest) := ReadOne(list, k);
      var (vs, command) := ReadFrom(rest, k + 1);
      ([v] + vs, command)
  }

  function ReadOne(list: seq<string>, k: nat): (Value, seq<string>)
    requires 1 <= k <= 9
  {
    var w := Word(k);
    if HasValue(k) then
      if |list| > 1 && list[0] == w && ParseInt(list[1]).Some? then (Number(ParseInt(list[1])), list[2..])
      else (Number(None), list)
    else if |list| > 0 && list[0] == w then (Flag(true), list[1..])
    else (Flag(false), list)
  }

  /** `to_list`: the options that are set, in a fixed order, then the
      command. Reading the list back gives the value of every option, and
      the command, unless the command itself starts with one of the
      options. */
  method ToList(args: Namespace) returns (list: seq<string>)
    ensures list == Written(args, 9) + Command(args)
    ensures NoOption(Command(args)) ==> ReadFrom(list, 1) == (ValuesFrom(args, 1), Command(args))
    ensures |Command(args)| <= |list| && list[|list| - |Command(args)|..] == Command(args)
  {
    list := WriteOptions(args);
    if TrueList(args.command) { list := list + args.command.value; }
    SuffixOfConcat(Written(args, 9), Command(args));
    if NoOption(Command(args)) {
      ReadsBack(args, list);
    }
  }

  /** The options of `to_list`, each appended when it is set. */
  method WriteOptions(args: Namespace) returns (list: seq<string>)
    ensures list == Written(args, 9)
  {
    list := [];
    ghost var before := list;
    if TrueFlag(args.altFormat) { list := list + ["-a"]; }
    AppendedPiece(args, 1, before, list, TrueFlag(args.altFormat), ["-a"]);
    before := list;
    if TrueFlag(args.children) { list := list + ["-C"]; }
    AppendedPiece(args, 2, before, list, TrueFlag(args.children), ["-C"]);
    before := list;
    if TrueFlag(args.excludeEmpty) { list := list + ["-e"]; }
    AppendedPiece(args, 3, before, list, TrueFlag(args.excludeEmpty), ["-e"]);
    before := list;
    if TrueFlag(args.full) { list := list + ["-f"]; }
    AppendedPiece(args, 4, before, list, TrueFlag(args.full), ["-f"]);
    before := list;
    if TrueInt(args.interval) { list := list + ["-i", IntToString(args.interval.value)]; }
    AppendedPiece(args, 5, before, list, TrueInt(args.interval),
      if TrueInt(args.interval) then ["-i", IntToString(args.interval.value)] else []);
    before := list;
    if TrueFlag(args.memory) { list := list + ["-m"]; }
    AppendedPiece(args, 6, before, list, TrueFlag(args.memory), ["-m"]);
    before := list;
    if TrueInt(args.pid) { list := list + ["-p", IntToString(args.pid.value)]; }
    AppendedPiece(args, 7, before, list, TrueInt(args.pid),
      if TrueInt(args.pid) then ["-p", IntToString(args.pid.value)] else []);
    before := list;
    if TrueFlag(args.sleepless) { list := list + ["-s"]; }
    AppendedPiece(args, 8, before, list, TrueFlag(args.sleepless), ["-s"]);
    before := list;
    if TrueInt(args.timeout) { list := list + ["-t", IntToString(args.timeout.value)]; }
    AppendedPiece(args, 9, before, list, TrueInt(args.timeout),
      if TrueInt(args.timeout) then ["-t", IntToString(args.timeout.value)] else []);
  }

  lemma SuffixOfConcat(a: seq<string>, b: seq<string>)
    ensures |b| <= |a + b| && (a + b)[|a + b| - |b|..] == b
  {
  }

  /** The whole list `to_list` writes reads back. */
  lemma ReadsBack(args: Namespace, list: seq<string>)
    requires NoOption(Command(args)) && list == Written(args, 9) + Command(args)
    ensures ReadFrom(list, 1) == (ValuesFrom(args, 1), Command(args))
  {
    WrittenThenRest(args, 0);
    assert list == ToRead(args, 1);
    ReadBackFrom(args, 1);
  }

  /** One `if` of `to_list`: the words of the option of rank `k` are
      appended exactly when it is set. */
  lemma AppendedPiece(args: Namespace, k: nat, before: seq<string>, after: seq<string>, on: bool, words: seq<string>)
    requires 1 <= k <= 9 && before == Written(args, k - 1)
    requires after == if on then before + words else before
    requires PieceAt(args, k) == if on then words else []
    ensures after == Written(args, k)
  {
    if !on { assert before + [] == before; }
  }

  lemma Assoc(a: seq<string>, b: seq<string>, c: seq<string>)
    ensures a + b + c == a + (b + c)
  {
  }

  /** What `to_list` has written so far, followed by what it has still to
      write, is the whole list. */
  lemma {:induction false} WrittenThenRest(args: Namespace, k: nat)
    requires k <= 9
    ensures Written(args, k) + ToRead(args, k + 1) == Written(args, 9) + Command(args)
    decreases 9 - k
  {
    if k < 9 {
      WrittenThenRest(args, k + 1);
      Assoc(Written(args, k), PieceAt(args, k + 1), ToRead(args, k + 2));
    }
  }

  /** `l` starts with nothing that belongs at rank `k` or before. */
  predicate StartsAfter(l: seq<string>, k: nat) {
    l == [] || Rank(l[0]) > k
  }

  /** Nothing the reader meets from rank `k` on belongs before rank `k`. */
  lemma {:induction false} ReadStartsAfter(args: Namespace, k: nat)
    requires 1 <= k <= 10 && NoOption(Command(args))
    ensures StartsAfter(ToRead(args, k), k - 1)
    decreases 10 - k
  {
    if k < 10 {
      ReadStartsAfter(args, k + 1);
      RankOfWord(k);
      var p, r := PieceAt(args, k), ToRead(args, k + 1);
      if p == [] { assert p + r == r; } else { assert (p + r)[0] == p[0]; }
    }
  }

  /** Reading one option back off its own words followed by words of a
      later rank. */
  lemma EmitBack(v: Value, k: nat, rest: seq<string>)
    requires 1 <= k <= 9 && (v.Number? <==> HasValue(k)) && StartsAfter(rest, k)
    ensures ReadOne(Emit(v, Word(k)) + rest, k) == (v, rest)
  {
    RankOfWord(k);
    var w := Word(k);
    if rest != [] { assert rest[0] != w; }
    if v.Flag? {
      FlagBack(v.on, w, rest);
    } else {
      NumberBack(v.n, w, rest);
    }
  }

  lemma FlagBack(on: bool, w: string, rest: seq<string>)
    requires rest == [] || rest[0] != w
    ensures var l := Emit(Flag(on), w) + rest;
      if on then |l| > 0 && l[0] == w && l[1..] == rest else l == rest
  {
    if on { assert ([w] + rest)[1..] == rest; } else { assert [] + rest == rest; }
  }

  lemma NumberBack(n: Option<int>, w: string, rest: seq<string>)
    requires rest == [] || rest[0] != w
    ensures var l := Emit(Number(n), w) + rest;
      if n.Some? then |l| > 1 && l[0] == w && ParseInt(l[1]) == n && l[2..] == rest else l == rest
  {
    if n.Some? {
      IntToStringRoundTrip(n.value);
      var l := [w, IntToString(n.value)] + rest;
      assert l[2..] == rest && l[1] == IntToString(n.value);
    } else {
      assert [] + rest == rest;
    }
  }

  /** Reading back the words from rank `k` on recovers the value of every
      option of rank `k` and beyond, and the command. */
  lemma {:induction false} ReadBackFrom(args: Namespace, k: nat)
    requires 1 <= k <= 10 && NoOption(Command(args))
    ensures ReadFrom(ToRead(args, k), k) == (ValuesFrom(args, k), Command(args))
    decreases 10 - k
  {
    if k < 10 {
      var rest := ToRead(args, k + 1);
      ReadStartsAfter(args, k + 1);
      EmitBack(ValueAt(args, k), k, rest);
      ReadBackFrom(args, k + 1);
      ReadFromStep(ToRead(args, k), k, ValueAt(args, k), rest, ValuesFrom(args, k + 1), Command(args));
    }
  }

  /** One step of `ReadFrom`. */
  lemma ReadFromStep(list: seq<string>, k: nat, v: Value, rest: seq<string>, vs: seq<Value>, command: seq<string>)
    requires 1 <= k <= 9 && ReadOne(list, k) == (v, rest) && ReadFrom(rest, k + 1) == (vs, command)
    ensures ReadFrom(list, k) == ([v] + vs, command)
  {
  }
}
