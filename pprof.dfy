/** austin/format/pprof/__init__.py: the pprof generator fills one
    protobuf `Profile` message. Its repeated fields are sequences here; the
    string table and the function and location tables are interned through
    the dictionaries `_string_table`, `_function_map` and `_location_map`. */
module PProf {
  import opened Wrappers
  import opened Text
  import opened Events
  import opened Format

  const PROCESS_ID_LABEL: string := "Process ID"
  const THREAD_ID_LABEL: string := "Thread ID"
  const CPU_TYPE: string := "CPU time"
  const WALL_TYPE: string := "Wall time"
  const TIME_UNIT: string := "μs"
  const MEMORY_ALLOC_TYPE: string := "Allocated memory"
  const MEMORY_DEALLOC_TYPE: string := "Deallocated memory"
  const MEMORY_UNIT: string := "B"

  /** `ValueType`: the string-table indices of a sample type and its unit. */
  datatype ValueType = ValueType(kind: nat, unit: nat)
  /** `Label`: the string-table indices of a key and its string value. */
  datatype Label = Label(key: nat, str: nat)
  /** `Sample`: location ids, one value per sample type, and labels. */
  datatype PSample = PSample(locationId: seq<nat>, value: seq<int>, labels: seq<Label>)
  datatype Line = Line(functionId: nat, line: int)
  datatype Location = Location(id: nat, line: seq<Line>)
  /** `Function`: an id and the string-table indices of its name and file. */
  datatype Function = Function(id: nat, name: nat, filename: nat)

  /** The `Profile` message, restricted to the fields the generator sets. */
  datatype Profile = Profile(
    sampleType: seq<ValueType>,
    sample: seq<PSample>,
    location: seq<Location>,
    functions: seq<Function>,
    stringTable: seq<string>)

  /** The generator's state as a value: the message and the three
      dictionaries. */
  datatype Tables = Tables(
    profile: Profile,
    stringMap: map<string, nat>,
    functionMap: map<(string, string), nat>,
    locationMap: map<Frame, nat>)

  /** `samples[0]` of an empty list. */
  datatype SampleError = IndexError

  /** A new message whose string table holds only "", and empty maps. */
  const Start: Tables := Tables(Profile([], [], [], [], [""]), map[], map[], map[])

  // Invariants, stated on the parts of the state they read

  /** `b` starts with `a`. */
  ghost predicate Extends<T>(a: seq<T>, b: seq<T>) {
    |a| <= |b| && b[..|a|] == a
  }

  lemma ExtendsTrans<T>(a: seq<T>, b: seq<T>, c: seq<T>)
    requires Extends(a, b) && Extends(b, c)
    ensures Extends(a, c)
  {
    assert c[..|a|] == c[..|b|][..|a|];
  }

  /** Every entry of `m` is in `m'` with the same value. */
  ghost predicate Sub<K, V>(m: map<K, V>, m': map<K, V>) {
    forall k :: k in m ==> k in m' && m'[k] == m[k]
  }

  /** Index 0 holds "", every other entry of the string table is
      registered at its own index, and every registered string sits at its
      index. */
  ghost predicate StringsIndexed(table: seq<string>, strings: map<string, nat>) {
    |table| >= 1 && table[0] == ""
    && (forall i :: 1 <= i < |table| ==> table[i] in strings && strings[table[i]] == i)
    && forall s :: s in strings ==> 1 <= strings[s] < |table| && table[strings[s]] == s
  }

  /** Function ids are 1, 2, ... in order; every registered key names the
      function whose strings are the key's function name and file name. */
  ghost predicate FunctionsIndexed(fs: seq<Function>, functions: map<(string, string), nat>, table: seq<string>) {
    (forall i :: 0 <= i < |fs| ==> fs[i].id == i + 1 && fs[i].name < |table| && fs[i].filename < |table|)
    && forall k :: k in functions ==>
         1 <= functions[k] <= |fs|
         && table[fs[functions[k] - 1].name] == k.0 && table[fs[functions[k] - 1].filename] == k.1
  }

  /** Location ids are 1, 2, ... in order, each location has one line
      naming one of the `count` functions; every registered frame names the
      location whose line carries the frame's line number and the id
      registered for the frame's function. */
  ghost predicate LocationsIndexed(ls: seq<Location>, locations: map<Frame, nat>,
                                   functions: map<(string, string), nat>, count: nat) {
    (forall i :: 0 <= i < |ls| ==>
       ls[i].id == i + 1 && |ls[i].line| == 1 && 1 <= ls[i].line[0].functionId <= count)
    && forall f :: f in locations ==>
         1 <= locations[f] <= |ls|
         && ls[locations[f] - 1].line[0].line == f.line
         && (f.func, f.filename) in functions
         && ls[locations[f] - 1].line[0].functionId == functions[(f.func, f.filename)]
  }

  ghost predicate TablesValid(t: Tables) {
    StringsIndexed(t.profile.stringTable, t.stringMap)
    && FunctionsIndexed(t.profile.functions, t.functionMap, t.profile.stringTable)
    && LocationsIndexed(t.profile.location, t.locationMap, t.functionMap, |t.profile.functions|)
  }

  /** Every entry of the three maps of `t` is in `t'` with the same
      value, and the string, function and location tables only grow at
      their ends. */
  ghost predicate Grown(t: Tables, t': Tables) {
    Sub(t.stringMap, t'.stringMap) && Sub(t.functionMap, t'.functionMap) && Sub(t.locationMap, t'.locationMap)
    && Extends(t.profile.stringTable, t'.profile.stringTable)
    && Extends(t.profile.functions, t'.profile.functions)
    && Extends(t.profile.location, t'.profile.location)
  }

  lemma GrownTrans(t: Tables, t': Tables, t'': Tables)
    requires Grown(t, t') && Grown(t', t'')
    ensures Grown(t, t'')
  {
    ExtendsTrans(t.profile.stringTable, t'.profile.stringTable, t''.profile.stringTable);
    ExtendsTrans(t.profile.functions, t'.profile.functions, t''.profile.functions);
    ExtendsTrans(t.profile.location, t'.profile.location, t''.profile.location);
  }

  lemma GrownRefl(t: Tables)
    ensures Grown(t, t)
  {
    assert t.profile.stringTable[..|t.profile.stringTable|] == t.profile.stringTable;
    assert t.profile.functions[..|t.profile.functions|] == t.profile.functions;
    assert t.profile.location[..|t.profile.location|] == t.profile.location;
  }

  /** The function table stays indexed when the string table grows at its
      end. */
  lemma FunctionsKept(fs: seq<Function>, functions: map<(string, string), nat>, table: seq<string>, table': seq<string>)
    requires FunctionsIndexed(fs, functions, table) && Extends(table, table')
    ensures FunctionsIndexed(fs, functions, table')
  {
    forall k | k in functions
      ensures table'[fs[functions[k] - 1].name] == k.0 && table'[fs[functions[k] - 1].filename] == k.1
    {
      var f := fs[functions[k] - 1];
      assert table'[f.name] == table[f.name] && table'[f.filename] == table[f.filename];
    }
  }

  /** The location table stays indexed when the function map and the
      function count only grow. */
  lemma LocationsKept(ls: seq<Location>, locations: map<Frame, nat>, functions: map<(string, string), nat>,
                      functions': map<(string, string), nat>, count: nat, count': nat)
    requires LocationsIndexed(ls, locations, functions, count) && Sub(functions, functions') && count <= count'
    ensures LocationsIndexed(ls, locations, functions', count')
  {
  }

  lemma StartValid()
    ensures TablesValid(Start) && "" !in Start.stringMap
  {
  }

  // get_string

  /** `get_string`; it touches only the string table and its map. */
  function InternString(t: Tables, s: string): (r: (Tables, nat))
    ensures r.0.profile.sampleType == t.profile.sampleType && r.0.profile.sample == t.profile.sample
      && r.0.profile.location == t.profile.location && r.0.profile.functions == t.profile.functions
      && r.0.functionMap == t.functionMap && r.0.locationMap == t.locationMap
  {
    if s in t.stringMap then (t, t.stringMap[s])
    else
      var index := |t.profile.stringTable|;
      (t.(profile := t.profile.(stringTable := t.profile.stringTable + [s]), stringMap := t.stringMap[s := index]),
       index)
  }

  /** A known string gives its index back and changes nothing; a new one
      gets the current length of the table as index and is appended.
      Either way the table holds the string at that index, and no
      registered string moves. */
  lemma InternStringEffect(t: Tables, s: string)
    requires StringsIndexed(t.profile.stringTable, t.stringMap)
    ensures var r := InternString(t, s); var t', i := r.0, r.1;
      StringsIndexed(t'.profile.stringTable, t'.stringMap)
      && Sub(t.stringMap, t'.stringMap) && Extends(t.profile.stringTable, t'.profile.stringTable)
      && 1 <= i < |t'.profile.stringTable| && t'.profile.stringTable[i] == s
      && s in t'.stringMap && t'.stringMap[s] == i
      && (s in t.stringMap ==> t' == t)
      && (s !in t.stringMap ==>
            i == |t.profile.stringTable| && t'.profile.stringTable == t.profile.stringTable + [s])
  {
    var t' := InternString(t, s).0;
    var table, table' := t.profile.stringTable, t'.profile.stringTable;
    if s in t.stringMap {
      assert table[..|table|] == table;
    } else {
      forall i | 1 <= i < |table'| ensures table'[i] in t'.stringMap && t'.stringMap[table'[i]] == i {
        if i < |table| {
          assert table'[i] == table[i];
        }
      }
      assert table'[..|table|] == table;
    }
  }

  /** Whatever the state, `get_string` only grows it and registers the
      string at the index it returns. */
  lemma InternStringGrows(t: Tables, s: string)
    ensures var r := InternString(t, s); Grown(t, r.0) && s in r.0.stringMap && r.0.stringMap[s] == r.1
  {
    GrownRefl(t);
    assert (t.profile.stringTable + [s])[..|t.profile.stringTable|] == t.profile.stringTable;
  }

  /** `get_string` keeps the whole state valid and only grows it. */
  lemma InternStringValid(t: Tables, s: string)
    requires TablesValid(t)
    ensures TablesValid(InternString(t, s).0) && Grown(t, InternString(t, s).0)
    ensures InternString(t, s).1 < |InternString(t, s).0.profile.stringTable|
  {
    var t' := InternString(t, s).0;
    InternStringEffect(t, s);
    FunctionsKept(t.profile.functions, t.functionMap, t.profile.stringTable, t'.profile.stringTable);
    GrownRefl(t);
  }

  /** Looking a string up again gives the same index and changes nothing. */
  lemma InternStringIdempotent(t: Tables, s: string)
    requires StringsIndexed(t.profile.stringTable, t.stringMap)
    ensures var r := InternString(t, s); InternString(r.0, s) == r
  {
    InternStringEffect(t, s);
  }

  /** "" is not registered in advance: the first lookup of "" appends a
      second "" instead of giving back index 0. */
  lemma EmptyStringAppended(t: Tables)
    requires StringsIndexed(t.profile.stringTable, t.stringMap) && "" !in t.stringMap
    ensures var r := InternString(t, "");
      r.1 == |t.profile.stringTable| && r.1 != 0
      && r.0.profile.stringTable == t.profile.stringTable + [""]
  {
  }

  // The sample types of the constructor

  /** The (type, unit) pairs of the sample types of each mode. */
  function SampleTypeNames(mode: Mode): (r: seq<(string, string)>)
    ensures 1 <= |r| <= 4
    ensures forall j :: 0 <= j < |r| ==> r[j].0 != "" && r[j].1 != ""
  {
    match mode
    case MEMORY => [(MEMORY_ALLOC_TYPE, MEMORY_UNIT), (MEMORY_DEALLOC_TYPE, MEMORY_UNIT)]
    case CPU => [(CPU_TYPE, TIME_UNIT)]
    case WALL => [(WALL_TYPE, TIME_UNIT)]
    case FULL => [(CPU_TYPE, TIME_UNIT), (WALL_TYPE, TIME_UNIT),
                  (MEMORY_ALLOC_TYPE, MEMORY_UNIT), (MEMORY_DEALLOC_TYPE, MEMORY_UNIT)]
  }

  /** `_add_sample_type`: the type string is looked up before the unit. */
  function SampleTypeAdded(t: Tables, kind: string, unit: string): (r: Tables)
    ensures r.profile.sample == t.profile.sample && r.profile.location == t.profile.location
      && r.profile.functions == t.profile.functions
      && r.functionMap == t.functionMap && r.locationMap == t.locationMap
  {
    var r1 := InternString(t, kind);
    var r2 := InternString(r1.0, unit);
    r2.0.(profile := r2.0.profile.(sampleType := r2.0.profile.sampleType + [ValueType(r1.1, r2.1)]))
  }

  /** The sample types decode, through the string table, to `names`. */
  ghost predicate TypesRead(types: seq<ValueType>, names: seq<(string, string)>, table: seq<string>) {
    |types| == |names|
    && forall j :: 0 <= j < |names| ==>
         types[j].kind < |table| && types[j].unit < |table|
         && table[types[j].kind] == names[j].0 && table[types[j].unit] == names[j].1
  }

  /** Sample types keep reading back when the string table grows at its
      end. */
  lemma TypesKept(types: seq<ValueType>, names: seq<(string, string)>, table: seq<string>, table': seq<string>)
    requires TypesRead(types, names, table) && Extends(table, table')
    ensures TypesRead(types, names, table')
  {
    forall j | 0 <= j < |names|
      ensures table'[types[j].kind] == names[j].0 && table'[types[j].unit] == names[j].1
    {
      assert table'[types[j].kind] == table[types[j].kind];
      assert table'[types[j].unit] == table[types[j].unit];
    }
  }

  /** Adding a sample type keeps the tables valid, keeps "" unregistered
      when neither string is "", and the new type reads back as
      `(kind, unit)` after the earlier ones. */
  lemma AddSampleTypeEffect(t: Tables, names: seq<(string, string)>, kind: string, unit: string)
    requires TablesValid(t) && TypesRead(t.profile.sampleType, names, t.profile.stringTable)
    requires "" !in t.stringMap && kind != "" && unit != ""
    ensures var r := SampleTypeAdded(t, kind, unit);
      TablesValid(r) && Grown(t, r) && "" !in r.stringMap
      && TypesRead(r.profile.sampleType, names + [(kind, unit)], r.profile.stringTable)
  {
    var r1 := InternString(t, kind);
    InternStringEffect(t, kind);
    var r2 := InternString(r1.0, unit);
    InternStringEffect(r1.0, unit);
    var table, table1, table2 := t.profile.stringTable, r1.0.profile.stringTable, r2.0.profile.stringTable;
    ExtendsTrans(table, table1, table2);
    FunctionsKept(t.profile.functions, t.functionMap, table, table2);
    TypesKept(t.profile.sampleType, names, table, table2);
    assert table2[r1.1] == kind by {
      assert table2[..|table1|] == table1;
    }
    TypesAppended(t.profile.sampleType, names, table2, kind, unit, r1.1, r2.1);
    var r := SampleTypeAdded(t, kind, unit);
    assert r.profile.stringTable == table2 && r.stringMap == r2.0.stringMap;
    assert r.profile.sampleType == t.profile.sampleType + [ValueType(r1.1, r2.1)];
    GrownRefl(t);
  }

  /** The sample-type part of `AddSampleTypeEffect`. */
  lemma TypesAppended(types: seq<ValueType>, names: seq<(string, string)>, table: seq<string>,
                      kind: string, unit: string, k: nat, u: nat)
    requires TypesRead(types, names, table)
    requires k < |table| && table[k] == kind && u < |table| && table[u] == unit
    ensures TypesRead(types + [ValueType(k, u)], names + [(kind, unit)], table)
  {
    var types', names' := types + [ValueType(k, u)], names + [(kind, unit)];
    forall j | 0 <= j < |names'|
      ensures types'[j].kind < |table| && types'[j].unit < |table|
        && table[types'[j].kind] == names'[j].0 && table[types'[j].unit] == names'[j].1
    {
      if j < |names| {
        assert types'[j] == types[j] && names'[j] == names[j];
      }
    }
  }

  /** The sample types added in turn for `names`. */
  function SampleTypesAdded(t: Tables, names: seq<(string, string)>): (r: Tables)
    ensures r.profile.sample == t.profile.sample && r.profile.location == t.profile.location
      && r.profile.functions == t.profile.functions
  {
    if names == [] then t
    else
      var last := names[|names| - 1];
      SampleTypeAdded(SampleTypesAdded(t, names[..|names| - 1]), last.0, last.1)
  }

  lemma {:induction false} AddSampleTypesEffect(names: seq<(string, string)>)
    requires forall j :: 0 <= j < |names| ==> names[j].0 != "" && names[j].1 != ""
    ensures var r := SampleTypesAdded(Start, names);
      TablesValid(r) && "" !in r.stringMap
      && TypesRead(r.profile.sampleType, names, r.profile.stringTable)
  {
    if names == [] {
      StartValid();
    } else {
      var pre, last := names[..|names| - 1], names[|names| - 1];
      assert names == pre + [last];
      AddSampleTypesEffect(pre);
      var prev := SampleTypesAdded(Start, pre);
      assert SampleTypesAdded(Start, names) == SampleTypeAdded(prev, last.0, last.1);
      AddSampleTypeEffect(prev, pre, last.0, last.1);
    }
  }

  /** `PProf.__init__` on the tables: a new generator holds no samples,
      locations or functions yet. */
  function Init(mode: Mode): (r: Tables)
    ensures r.profile.sample == [] && r.profile.location == [] && r.profile.functions == []
  {
    SampleTypesAdded(Start, SampleTypeNames(mode))
  }

  /** A new generator has one sample type per entry of its mode, each
      reading back as its type and unit, a string table that starts with
      "" and no samples, locations or functions. "" is not registered. */
  lemma InitEffect(mode: Mode)
    ensures var t := Init(mode);
      TablesValid(t) && TypesRead(t.profile.sampleType, SampleTypeNames(mode), t.profile.stringTable)
      && t.profile.stringTable[0] == "" && "" !in t.stringMap
      && t.profile.sample == [] && t.profile.location == [] && t.profile.functions == []
  {
    AddSampleTypesEffect(SampleTypeNames(mode));
  }

  // get_function

  /** The state after appending the function of `f` with the given
      string indices. */
  function FunctionAdded(t: Tables, f: Frame, name: nat, filename: nat): Tables {
    t.(profile := t.profile.(functions := t.profile.functions + [Function(|t.profile.functions| + 1, name, filename)]),
       functionMap := t.functionMap[(f.func, f.filename) := |t.profile.functions| + 1])
  }

  /** `get_function`: functions are keyed by name and file name. A new
      function takes the next id, then its name and its file name are
      looked up in that order. */
  function InternFunction(t: Tables, f: Frame): (r: (Tables, nat))
    ensures r.0.profile.sampleType == t.profile.sampleType && r.0.profile.sample == t.profile.sample
      && r.0.profile.location == t.profile.location && r.0.locationMap == t.locationMap
  {
    var key := (f.func, f.filename);
    if key in t.functionMap then (t, t.functionMap[key])
    else
      var r1 := InternString(t, f.func);
      var r2 := InternString(r1.0, f.filename);
      (FunctionAdded(r2.0, f, r1.1, r2.1), |t.profile.functions| + 1)
  }

  /** The function with id `id` reads back, through the string table, as
      the name and file name of `f`. */
  ghost predicate FunctionReads(t: Tables, id: nat, f: Frame) {
    var fs, table := t.profile.functions, t.profile.stringTable;
    1 <= id <= |fs| && fs[id - 1].name < |table| && fs[id - 1].filename < |table|
    && table[fs[id - 1].name] == f.func && table[fs[id - 1].filename] == f.filename
  }

  /** A known key gives its id back and changes nothing; a new key gets
      the next id and a function appended at the end of the table. Either
      way the key is registered at the id and the function reads back as
      the frame's name and file name. */
  lemma InternFunctionEffect(t: Tables, f: Frame)
    requires TablesValid(t)
    ensures var r := InternFunction(t, f); var t', id := r.0, r.1;
      TablesValid(t') && Grown(t, t')
      && (f.func, f.filename) in t'.functionMap && t'.functionMap[(f.func, f.filename)] == id
      && FunctionReads(t', id, f)
      && ((f.func, f.filename) in t.functionMap ==> t' == t)
      && ((f.func, f.filename) !in t.functionMap ==>
            id == |t.profile.functions| + 1 && |t'.profile.functions| == id)
  {
    var key := (f.func, f.filename);
    if key in t.functionMap {
      GrownRefl(t);
    } else {
      var r1 := InternString(t, f.func);
      InternStringValid(t, f.func);
      InternStringEffect(t, f.func);
      var r2 := InternString(r1.0, f.filename);
      InternStringValid(r1.0, f.filename);
      InternStringEffect(r1.0, f.filename);
      GrownTrans(t, r1.0, r2.0);
      var t2 := r2.0;
      var r := InternFunction(t, f);
      var id := |t.profile.functions| + 1;
      assert t2.profile.stringTable[r1.1] == f.func by {
        assert t2.profile.stringTable[..|r1.0.profile.stringTable|] == r1.0.profile.stringTable;
      }
      FunctionAppended(t2, f, r1.1, r2.1);
      GrownTrans(t, t2, FunctionAdded(t2, f, r1.1, r2.1));
    }
  }

  /** Whatever the state, `get_function` only grows it and registers the
      frame's key at the id it returns. */
  lemma InternFunctionGrows(t: Tables, f: Frame)
    ensures var r := InternFunction(t, f);
      Grown(t, r.0) && (f.func, f.filename) in r.0.functionMap && r.0.functionMap[(f.func, f.filename)] == r.1
  {
    if (f.func, f.filename) in t.functionMap {
      GrownRefl(t);
    } else {
      var r1 := InternString(t, f.func);
      InternStringGrows(t, f.func);
      var r2 := InternString(r1.0, f.filename);
      InternStringGrows(r1.0, f.filename);
      GrownTrans(t, r1.0, r2.0);
      var fs := r2.0.profile.functions;
      assert (fs + [Function(|fs| + 1, r1.1, r2.1)])[..|fs|] == fs;
      GrownRefl(r2.0);
      GrownTrans(t, r2.0, FunctionAdded(r2.0, f, r1.1, r2.1));
    }
  }

  /** Appending a function for an unknown key keeps the state valid. */
  lemma FunctionAppended(t: Tables, f: Frame, name: nat, filename: nat)
    requires TablesValid(t) && (f.func, f.filename) !in t.functionMap
    requires name < |t.profile.stringTable| && t.profile.stringTable[name] == f.func
    requires filename < |t.profile.stringTable| && t.profile.stringTable[filename] == f.filename
    ensures var t' := FunctionAdded(t, f, name, filename);
      TablesValid(t') && Grown(t, t') && FunctionReads(t', |t.profile.functions| + 1, f)
  {
    var t' := FunctionAdded(t, f, name, filename);
    var fs := t.profile.functions;
    FunctionsAppended(fs, t.functionMap, t.profile.stringTable, f, name, filename);
    assert t'.profile.functions == fs + [Function(|fs| + 1, name, filename)];
    LocationsKept(t.profile.location, t.locationMap, t.functionMap, t'.functionMap, |fs|, |fs| + 1);
    assert t'.profile.functions[..|fs|] == fs;
    GrownRefl(t);
  }

  /** The function part of `FunctionAppended`. */
  lemma FunctionsAppended(fs: seq<Function>, functions: map<(string, string), nat>, table: seq<string>,
                          f: Frame, name: nat, filename: nat)
    requires FunctionsIndexed(fs, functions, table) && (f.func, f.filename) !in functions
    requires name < |table| && table[name] == f.func && filename < |table| && table[filename] == f.filename
    ensures FunctionsIndexed(fs + [Function(|fs| + 1, name, filename)],
                             functions[(f.func, f.filename) := |fs| + 1], table)
  {
    var fs' := fs + [Function(|fs| + 1, name, filename)];
    var functions' := functions[(f.func, f.filename) := |fs| + 1];
    forall k | k in functions'
      ensures 1 <= functions'[k] <= |fs'|
        && table[fs'[functions'[k] - 1].name] == k.0 && table[fs'[functions'[k] - 1].filename] == k.1
    {
      if k != (f.func, f.filename) {
        assert fs'[functions[k] - 1] == fs[functions[k] - 1];
      }
    }
  }

  /** Looking a frame's function up again gives the same id and changes
      nothing. */
  lemma InternFunctionIdempotent(t: Tables, f: Frame)
    requires TablesValid(t)
    ensures var r := InternFunction(t, f); InternFunction(r.0, f) == r
  {
    InternFunctionEffect(t, f);
  }

  // get_location

  /** The state after appending the location of `f` on function `fid`. */
  function LocationAdded(t: Tables, f: Frame, fid: nat): Tables {
    t.(profile := t.profile.(location := t.profile.location + [Location(|t.profile.location| + 1, [Line(fid, f.line)])]),
       locationMap := t.locationMap[f := |t.profile.location| + 1])
  }

  /** `get_location`: locations are keyed by the whole frame. A new
      location takes the next id and one line holding the id of the
      frame's function and the frame's line number. */
  function InternLocation(t: Tables, f: Frame): (r: (Tables, nat))
    ensures r.0.profile.sampleType == t.profile.sampleType && r.0.profile.sample == t.profile.sample
  {
    if f in t.locationMap then (t, t.locationMap[f])
    else
      var r1 := InternFunction(t, f);
      (LocationAdded(r1.0, f, r1.1), |t.profile.location| + 1)
  }

  /** The location with id `id` reads back as the line number, the name
      and the file name of `f`. */
  ghost predicate LocationReads(t: Tables, id: nat, f: Frame) {
    var ls := t.profile.location;
    1 <= id <= |ls| && |ls[id - 1].line| == 1 && ls[id - 1].line[0].line == f.line
    && FunctionReads(t, ls[id - 1].line[0].functionId, f)
  }

  /** Every registered frame's location reads back as that frame. */
  lemma LocationDecodes(t: Tables, f: Frame)
    requires TablesValid(t) && f in t.locationMap
    ensures LocationReads(t, t.locationMap[f], f)
  {
  }

  /** A known frame gives its id back and changes nothing; a new frame
      gets the next id and a location appended at the end of the table.
      Either way the frame is registered at the id and its location reads
      back as the frame. */
  lemma InternLocationEffect(t: Tables, f: Frame)
    requires TablesValid(t)
    ensures var r := InternLocation(t, f); var t', id := r.0, r.1;
      TablesValid(t') && Grown(t, t')
      && f in t'.locationMap && t'.locationMap[f] == id && LocationReads(t', id, f)
      && (f in t.locationMap ==> t' == t)
      && (f !in t.locationMap ==> id == |t.profile.location| + 1 && |t'.profile.location| == id)
  {
    if f in t.locationMap {
      GrownRefl(t);
      LocationDecodes(t, f);
    } else {
      var r1 := InternFunction(t, f);
      InternFunctionEffect(t, f);
      LocationAppended(r1.0, f, r1.1);
      GrownTrans(t, r1.0, LocationAdded(r1.0, f, r1.1));
    }
  }

  /** Whatever the state, `get_location` only grows it and registers the
      frame at the id it returns. */
  lemma InternLocationGrows(t: Tables, f: Frame)
    ensures var r := InternLocation(t, f); Grown(t, r.0) && f in r.0.locationMap && r.0.locationMap[f] == r.1
  {
    if f in t.locationMap {
      GrownRefl(t);
    } else {
      var r1 := InternFunction(t, f);
      InternFunctionGrows(t, f);
      var ls := r1.0.profile.location;
      assert (ls + [Location(|ls| + 1, [Line(r1.1, f.line)])])[..|ls|] == ls;
      GrownRefl(r1.0);
      GrownTrans(t, r1.0, LocationAdded(r1.0, f, r1.1));
    }
  }

  /** Appending a location for an unknown frame whose function is
      registered keeps the state valid. */
  lemma LocationAppended(t: Tables, f: Frame, fid: nat)
    requires TablesValid(t) && f !in t.locationMap
    requires (f.func, f.filename) in t.functionMap && t.functionMap[(f.func, f.filename)] == fid
    requires FunctionReads(t, fid, f)
    ensures var t' := LocationAdded(t, f, fid);
      TablesValid(t') && Grown(t, t') && LocationReads(t', |t.profile.location| + 1, f)
  {
    var t' := LocationAdded(t, f, fid);
    var ls := t.profile.location;
    LocationsAppended(ls, t.locationMap, t.functionMap, |t.profile.functions|, f);
    assert t'.profile.location == ls + [Location(|ls| + 1, [Line(fid, f.line)])];
    assert t'.profile.location[..|ls|] == ls;
    GrownRefl(t);
  }

  /** The location part of `LocationAppended`. */
  lemma LocationsAppended(ls: seq<Location>, locations: map<Frame, nat>,
                          functions: map<(string, string), nat>, count: nat, f: Frame)
    requires LocationsIndexed(ls, locations, functions, count) && f !in locations
    requires (f.func, f.filename) in functions && 1 <= functions[(f.func, f.filename)] <= count
    ensures LocationsIndexed(ls + [Location(|ls| + 1, [Line(functions[(f.func, f.filename)], f.line)])],
                             locations[f := |ls| + 1], functions, count)
  {
    var ls' := ls + [Location(|ls| + 1, [Line(functions[(f.func, f.filename)], f.line)])];
    var locations' := locations[f := |ls| + 1];
    forall g | g in locations'
      ensures 1 <= locations'[g] <= |ls'|
        && ls'[locations'[g] - 1].line[0].line == g.line
        && (g.func, g.filename) in functions
        && ls'[locations'[g] - 1].line[0].functionId == functions[(g.func, g.filename)]
    {
      if g != f {
        assert ls'[locations[g] - 1] == ls[locations[g] - 1];
      }
    }
  }

  /** Looking a frame's location up again gives the same id and changes
      nothing. */
  lemma InternLocationIdempotent(t: Tables, f: Frame)
    requires TablesValid(t)
    ensures var r := InternLocation(t, f); InternLocation(r.0, f) == r
  {
    InternLocationEffect(t, f);
  }

  // add_label_to_sample

  /** `add_label_to_sample` on the sample at `i`: the key string is looked
      up before the value string, and the label is appended. */
  function AddLabel(t: Tables, i: nat, key: string, value: string): (r: Tables)
    requires i < |t.profile.sample|
    ensures r.profile.sampleType == t.profile.sampleType && |r.profile.sample| == |t.profile.sample|
  {
    var r1 := InternString(t, key);
    var r2 := InternString(r1.0, value);
    var p := r2.0.profile.sample[i];
    r2.0.(profile := r2.0.profile.(sample := r2.0.profile.sample[i := p.(labels := p.labels + [Label(r1.1, r2.1)])]))
  }

  /** The labels decode, through the string table, to `pairs`. */
  ghost predicate LabelsRead(labels: seq<Label>, pairs: seq<(string, string)>, table: seq<string>) {
    |labels| == |pairs|
    && forall j :: 0 <= j < |pairs| ==>
         labels[j].key < |table| && labels[j].str < |table|
         && table[labels[j].key] == pairs[j].0 && table[labels[j].str] == pairs[j].1
  }

  /** Labels keep reading back when the string table grows at its end. */
  lemma LabelsKept(labels: seq<Label>, pairs: seq<(string, string)>, table: seq<string>, table': seq<string>)
    requires LabelsRead(labels, pairs, table) && Extends(table, table')
    ensures LabelsRead(labels, pairs, table')
  {
    forall j | 0 <= j < |pairs|
      ensures table'[labels[j].key] == pairs[j].0 && table'[labels[j].str] == pairs[j].1
    {
      assert table'[labels[j].key] == table[labels[j].key];
      assert table'[labels[j].str] == table[labels[j].str];
    }
  }

  lemma LabelsAppended(labels: seq<Label>, pairs: seq<(string, string)>, table: seq<string>,
                       key: string, value: string, k: nat, v: nat)
    requires LabelsRead(labels, pairs, table)
    requires k < |table| && table[k] == key && v < |table| && table[v] == value
    ensures LabelsRead(labels + [Label(k, v)], pairs + [(key, value)], table)
  {
    var labels', pairs' := labels + [Label(k, v)], pairs + [(key, value)];
    forall j | 0 <= j < |pairs'|
      ensures labels'[j].key < |table| && labels'[j].str < |table|
        && table[labels'[j].key] == pairs'[j].0 && table[labels'[j].str] == pairs'[j].1
    {
      if j < |pairs| {
        assert labels'[j] == labels[j] && pairs'[j] == pairs[j];
      }
    }
  }

  /** Adding a label keeps the state valid and touches only the string
      table and the labels of sample `i`, whose labels then read back as
      the earlier pairs followed by `(key, value)`. */
  lemma AddLabelEffect(t: Tables, i: nat, key: string, value: string, pairs: seq<(string, string)>)
    requires TablesValid(t) && i < |t.profile.sample|
    requires LabelsRead(t.profile.sample[i].labels, pairs, t.profile.stringTable)
    ensures var r := AddLabel(t, i, key, value);
      TablesValid(r) && Grown(t, r)
      && LabelsRead(r.profile.sample[i].labels, pairs + [(key, value)], r.profile.stringTable)
      && r.profile.sample[i].locationId == t.profile.sample[i].locationId
      && r.profile.sample[i].value == t.profile.sample[i].value
      && forall j :: 0 <= j < |t.profile.sample| && j != i ==> r.profile.sample[j] == t.profile.sample[j]
  {
    var r1 := InternString(t, key);
    InternStringValid(t, key);
    InternStringEffect(t, key);
    var r2 := InternString(r1.0, value);
    InternStringValid(r1.0, value);
    InternStringEffect(r1.0, value);
    GrownTrans(t, r1.0, r2.0);
    var table, table2 := t.profile.stringTable, r2.0.profile.stringTable;
    assert table2[r1.1] == key by {
      assert table2[..|r1.0.profile.stringTable|] == r1.0.profile.stringTable;
    }
    LabelsKept(t.profile.sample[i].labels, pairs, table, table2);
    LabelsAppended(t.profile.sample[i].labels, pairs, table2, key, value, r1.1, r2.1);
  }

  // add_samples

  /** The metric values of `samples`, in order. */
  function Values(samples: seq<SourceSample>): (r: seq<int>)
    ensures |r| == |samples| && forall j :: 0 <= j < |samples| ==> r[j] == samples[j].value
  {
    if samples == [] then [] else Values(samples[..|samples| - 1]) + [samples[|samples| - 1].value]
  }

  lemma ValuesStep(samples: seq<SourceSample>, j: nat)
    requires j < |samples|
    ensures Values(samples[..j + 1]) == Values(samples[..j]) + [samples[j].value]
  {
    assert samples[..j + 1][..j] == samples[..j];
  }

  /** `frames[::-1]`. */
  function Reverse<T>(s: seq<T>): (r: seq<T>)
    ensures |r| == |s| && forall j :: 0 <= j < |s| ==> r[j] == s[|s| - 1 - j]
  {
    if s == [] then [] else [s[|s| - 1]] + Reverse(s[..|s| - 1])
  }

  /** `pprof_sample.location_id.append(.)` on the sample at `i`; only
      that sample changes. */
  function AppendLocationId(t: Tables, i: nat, id: nat): (r: Tables)
    requires i < |t.profile.sample|
    ensures r.profile.sampleType == t.profile.sampleType && r.profile.stringTable == t.profile.stringTable
      && r.profile.functions == t.profile.functions && r.profile.location == t.profile.location
      && r.stringMap == t.stringMap && r.functionMap == t.functionMap && r.locationMap == t.locationMap
      && r.profile.sample == t.profile.sample[i := t.profile.sample[i].(locationId := t.profile.sample[i].locationId + [id])]
  {
    var p := t.profile.sample[i];
    t.(profile := t.profile.(sample := t.profile.sample[i := p.(locationId := p.locationId + [id])]))
  }

  /** The first `n` passes of the location loop of `add_samples`. */
  function AddLocations(t: Tables, i: nat, frames: seq<Frame>, n: nat): (r: Tables)
    requires i < |t.profile.sample| && n <= |frames|
    ensures r.profile.sampleType == t.profile.sampleType && |r.profile.sample| == |t.profile.sample|
  {
    if n == 0 then t else LocationStep(AddLocations(t, i, frames, n - 1), i, frames[n - 1])
  }

  /** One pass of the location loop: the frame's location id is appended
      to sample `i`. */
  function LocationStep(t: Tables, i: nat, f: Frame): (r: Tables)
    requires i < |t.profile.sample|
    ensures r.profile.sampleType == t.profile.sampleType && |r.profile.sample| == |t.profile.sample|
  {
    var r := InternLocation(t, f);
    AppendLocationId(r.0, i, r.1)
  }

  /** `s'` is `s` except perhaps at `i`. */
  ghost predicate OnlyAt<T>(s: seq<T>, s': seq<T>, i: nat) {
    |s'| == |s| && forall j :: 0 <= j < |s| && j != i ==> s'[j] == s[j]
  }

  lemma OnlyAtUpdate<T>(s: seq<T>, s': seq<T>, i: nat, x: T)
    requires OnlyAt(s, s', i) && i < |s'|
    ensures OnlyAt(s, s'[i := x], i)
  {
  }

  /** `q` is `p` with `n` location ids appended, the id registered in
      `locations` for each of the first `n` frames in turn. */
  ghost predicate SampleGrew(p: PSample, q: PSample, frames: seq<Frame>, n: nat, locations: map<Frame, nat>)
    requires n <= |frames|
  {
    q.value == p.value && q.labels == p.labels
    && |q.locationId| == |p.locationId| + n && q.locationId[..|p.locationId|] == p.locationId
    && forall j :: 0 <= j < n ==>
         frames[j] in locations && q.locationId[|p.locationId| + j] == locations[frames[j]]
  }

  lemma SampleGrewStep(p: PSample, q: PSample, frames: seq<Frame>, k: nat,
                       locations: map<Frame, nat>, locations': map<Frame, nat>, id: nat)
    requires k < |frames| && SampleGrew(p, q, frames, k, locations) && Sub(locations, locations')
    requires frames[k] in locations' && locations'[frames[k]] == id
    ensures SampleGrew(p, q.(locationId := q.locationId + [id]), frames, k + 1, locations')
  {
    var q' := q.(locationId := q.locationId + [id]);
    forall j | 0 <= j < k + 1
      ensures frames[j] in locations' && q'.locationId[|p.locationId| + j] == locations'[frames[j]]
    {
      if j < k {
        assert q'.locationId[|p.locationId| + j] == q.locationId[|p.locationId| + j];
      }
    }
    assert q'.locationId[..|p.locationId|] == q.locationId[..|p.locationId|];
  }

  /** Sample `i` of `r` is sample `i` of `t` with the ids of the
      locations of the first `n` frames appended; the other samples are
      those of `t`. */
  ghost predicate LocationsAdded(t: Tables, r: Tables, i: nat, frames: seq<Frame>, n: nat)
    requires i < |t.profile.sample| && n <= |frames|
  {
    |r.profile.sample| == |t.profile.sample| && OnlyAt(t.profile.sample, r.profile.sample, i)
    && SampleGrew(t.profile.sample[i], r.profile.sample[i], frames, n, r.locationMap)
  }

  /** The location loop keeps the state valid. */
  lemma {:induction false} AddLocationsValid(t: Tables, i: nat, frames: seq<Frame>, n: nat, r: Tables)
    requires TablesValid(t) && i < |t.profile.sample| && n <= |frames| && r == AddLocations(t, i, frames, n)
    ensures TablesValid(r)
  {
    if n > 0 {
      var prev := AddLocations(t, i, frames, n - 1);
      AddLocationsValid(t, i, frames, n - 1, prev);
      LocationStepValid(prev, r, i, frames[n - 1]);
    }
  }

  /** One pass of the location loop leaves valid tables valid. */
  lemma LocationStepValid(prev: Tables, next: Tables, i: nat, f: Frame)
    requires i < |prev.profile.sample| && next == LocationStep(prev, i, f)
    ensures TablesValid(prev) ==> TablesValid(next)
  {
    if TablesValid(prev) {
      InternLocationEffect(prev, f);
      var r := InternLocation(prev, f);
      AppendLocationIdValid(r.0, i, r.1);
    }
  }

  lemma LocationStepGrown(prev: Tables, next: Tables, i: nat, f: Frame)
    requires i < |prev.profile.sample| && next == LocationStep(prev, i, f)
    ensures Grown(prev, next)
  {
    InternLocationGrows(prev, f);
  }

  /** Appending a location id to a sample leaves the tables valid. */
  lemma AppendLocationIdValid(t: Tables, i: nat, id: nat)
    requires TablesValid(t) && i < |t.profile.sample|
    ensures TablesValid(AppendLocationId(t, i, id))
  {
  }

  /** The location loop only grows the state. */
  lemma {:induction false} AddLocationsGrown(t: Tables, i: nat, frames: seq<Frame>, n: nat)
    requires i < |t.profile.sample| && n <= |frames|
    ensures Grown(t, AddLocations(t, i, frames, n))
  {
    if n == 0 {
      GrownRefl(t);
    } else {
      var prev, next := AddLocations(t, i, frames, n - 1), AddLocations(t, i, frames, n);
      AddLocationsGrown(t, i, frames, n - 1);
      LocationStepGrown(prev, next, i, frames[n - 1]);
      GrownTrans(t, prev, next);
    }
  }

  /** After `n` passes the location loop has appended the ids of the
      locations of the first `n` frames to sample `i`, and changed no other
      sample. */
  lemma {:induction false} AddLocationsEffect(t: Tables, i: nat, frames: seq<Frame>, n: nat)
    requires i < |t.profile.sample| && n <= |frames|
    ensures LocationsAdded(t, AddLocations(t, i, frames, n), i, frames, n)
  {
    if n == 0 {
      NoLocationsAdded(t, AddLocations(t, i, frames, 0), i, frames);
    } else {
      AddLocationsEffect(t, i, frames, n - 1);
      AddLocationStep(t, AddLocations(t, i, frames, n - 1), AddLocations(t, i, frames, n), i, frames, n - 1);
    }
  }

  lemma NoLocationsAdded(t: Tables, r: Tables, i: nat, frames: seq<Frame>)
    requires i < |t.profile.sample| && r == t
    ensures LocationsAdded(t, r, i, frames, 0)
  {
    var p := t.profile.sample[i];
    assert p.locationId[..|p.locationId|] == p.locationId;
  }

  /** One pass of the location loop. */
  lemma AddLocationStep(t: Tables, prev: Tables, next: Tables, i: nat, frames: seq<Frame>, k: nat)
    requires i < |t.profile.sample| && k < |frames| && LocationsAdded(t, prev, i, frames, k)
    requires next == LocationStep(prev, i, frames[k])
    ensures LocationsAdded(t, next, i, frames, k + 1)
  {
    var r := InternLocation(prev, frames[k]);
    InternLocationGrows(prev, frames[k]);
    var q := prev.profile.sample[i];
    SampleGrewStep(t.profile.sample[i], q, frames, k, prev.locationMap, r.0.locationMap, r.1);
    OnlyAtUpdate(t.profile.sample, prev.profile.sample, i, q.(locationId := q.locationId + [r.1]));
  }

  /** `self.profile.sample.add()`: an empty sample is appended. */
  function NewSample(t: Tables): (r: Tables)
    ensures |r.profile.sample| == |t.profile.sample| + 1
  {
    t.(profile := t.profile.(sample := t.profile.sample + [PSample([], [], [])]))
  }

  /** The thread label, then the process label, on the sample at `i`;
      the process id is written in decimal, as `str` does. */
  function Labeled(t: Tables, i: nat, s: SourceSample): (r: Tables)
    requires i < |t.profile.sample|
    ensures |r.profile.sample| == |t.profile.sample|
  {
    AddLabel(AddLabel(t, i, THREAD_ID_LABEL, s.thread), i, PROCESS_ID_LABEL, IntToString(s.pid))
  }

  /** The label pairs `add_samples` writes for the first sample. */
  function LabelPairs(s: SourceSample): seq<(string, string)> {
    [(THREAD_ID_LABEL, s.thread), (PROCESS_ID_LABEL, IntToString(s.pid))]
  }

  /** The metric loop of `add_samples`: the values are appended to the
      sample at `i`. */
  function AddValues(t: Tables, i: nat, values: seq<int>): (r: Tables)
    requires i < |t.profile.sample|
    ensures r.profile.stringTable == t.profile.stringTable && r.profile.functions == t.profile.functions
      && r.profile.location == t.profile.location
      && r.stringMap == t.stringMap && r.functionMap == t.functionMap && r.locationMap == t.locationMap
      && r.profile.sample == t.profile.sample[i := t.profile.sample[i].(value := t.profile.sample[i].value + values)]
  {
    var p := t.profile.sample[i];
    t.(profile := t.profile.(sample := t.profile.sample[i := p.(value := p.value + values)]))
  }

  /** `add_samples`: an empty sample is appended first, so an empty list
      leaves it in the profile and then fails on `samples[0]`. Otherwise
      the sample gets the labels of the first sample, the value of every
      sample in order and the locations of the frames of the first sample,
      innermost first. */
  function WithSamples(t: Tables, samples: seq<SourceSample>): (r: (Tables, Option<SampleError>))
    ensures r.1.Some? <==> samples == []
    ensures |r.0.profile.sample| == |t.profile.sample| + 1
    ensures r.0.profile.sampleType == t.profile.sampleType
  {
    if samples == [] then (NewSample(t), Some(IndexError))
    else
      var frames := Reverse(samples[0].frames);
      (AddLocations(BeforeLocations(t, samples), |t.profile.sample|, frames, |frames|), None)
  }

  /** A new sample carries the labels of the thread and the process of
      the first sample, one value per sample, and one location per frame of
      the first sample, innermost first, each reading back as its frame. */
  ghost predicate SampleReads(t: Tables, p: PSample, samples: seq<SourceSample>)
    requires samples != []
  {
    var frames := samples[0].frames;
    p.value == Values(samples)
    && LabelsRead(p.labels, LabelPairs(samples[0]), t.profile.stringTable)
    && |p.locationId| == |frames|
    && forall j :: 0 <= j < |frames| ==> LocationReads(t, p.locationId[j], frames[|frames| - 1 - j])
  }

  /** The labelling part of `add_samples`. */
  lemma LabeledEffect(t: Tables, s: SourceSample)
    requires TablesValid(t)
    ensures var i := |t.profile.sample|; var r := Labeled(NewSample(t), i, s);
      TablesValid(r) && Grown(t, r) && r.profile.sample[..i] == t.profile.sample
      && r.profile.sample[i] == PSample([], [], r.profile.sample[i].labels)
      && LabelsRead(r.profile.sample[i].labels, LabelPairs(s), r.profile.stringTable)
  {
    var i := |t.profile.sample|;
    var t0 := NewSample(t);
    assert t0.profile.sample[..i] == t.profile.sample;
    GrownRefl(t);
    AddLabelEffect(t0, i, THREAD_ID_LABEL, s.thread, []);
    var t1 := AddLabel(t0, i, THREAD_ID_LABEL, s.thread);
    AddLabelEffect(t1, i, PROCESS_ID_LABEL, IntToString(s.pid), [(THREAD_ID_LABEL, s.thread)]);
    var t2 := AddLabel(t1, i, PROCESS_ID_LABEL, IntToString(s.pid));
    GrownTrans(t0, t1, t2);
    assert t2.profile.sample[..i] == t.profile.sample;
  }

  /** `add_samples` keeps the state valid and only grows it; it always
      appends exactly one sample and fails exactly when `samples` is empty,
      leaving that sample empty. Otherwise the new sample reads back as
      `SampleReads` says. */
  lemma WithSamplesEffect(t: Tables, samples: seq<SourceSample>)
    requires TablesValid(t)
    ensures var (r, e) := WithSamples(t, samples); var i := |t.profile.sample|;
      TablesValid(r) && Grown(t, r)
      && |r.profile.sample| == i + 1 && r.profile.sample[..i] == t.profile.sample
      && (e.Some? <==> samples == [])
      && (samples == [] ==>
            r.profile.sample[i] == PSample([], [], [])
            && r.stringMap == t.stringMap && r.profile.stringTable == t.profile.stringTable)
      && (samples != [] ==> SampleReads(r, r.profile.sample[i], samples))
  {
    var i := |t.profile.sample|;
    if samples == [] {
      GrownRefl(t);
      assert NewSample(t).profile.sample[..i] == t.profile.sample;
    } else {
      WithSamplesValid(t, samples);
      WithSamplesReads(t, samples);
    }
  }

  /** The state before the location loop of `add_samples`. */
  function BeforeLocations(t: Tables, samples: seq<SourceSample>): (r: Tables)
    requires samples != []
    ensures |r.profile.sample| == |t.profile.sample| + 1
  {
    var i := |t.profile.sample|;
    AddValues(Labeled(NewSample(t), i, samples[0]), i, Values(samples))
  }

  /** The state before the location loop is valid, has grown from `t`,
      keeps the earlier samples, and its new sample holds the labels and
      the values and no location yet. */
  lemma BeforeLocationsEffect(t: Tables, samples: seq<SourceSample>)
    requires TablesValid(t) && samples != []
    ensures var r, i := BeforeLocations(t, samples), |t.profile.sample|;
      TablesValid(r) && Grown(t, r) && OnlyAt(NewSample(t).profile.sample, r.profile.sample, i)
      && r.profile.sample[i].locationId == [] && r.profile.sample[i].value == Values(samples)
      && LabelsRead(r.profile.sample[i].labels, LabelPairs(samples[0]), r.profile.stringTable)
  {
    var i := |t.profile.sample|;
    var t2 := Labeled(NewSample(t), i, samples[0]);
    ValuesAdded(t, samples[0], t2, AddValues(t2, i, Values(samples)), Values(samples));
  }

  /** The values added to the labelled new sample `t2` give `t3`. */
  lemma ValuesAdded(t: Tables, s: SourceSample, t2: Tables, t3: Tables, values: seq<int>)
    requires TablesValid(t)
    requires t2 == Labeled(NewSample(t), |t.profile.sample|, s)
    requires t3 == AddValues(t2, |t.profile.sample|, values)
    ensures var i := |t.profile.sample|;
      TablesValid(t3) && Grown(t, t3) && OnlyAt(NewSample(t).profile.sample, t3.profile.sample, i)
      && t3.profile.sample[i].locationId == [] && t3.profile.sample[i].value == values
      && LabelsRead(t3.profile.sample[i].labels, LabelPairs(s), t3.profile.stringTable)
  {
    var i := |t.profile.sample|;
    LabeledEffect(t, s);
    AddValuesKeeps(t2, i, values);
    GrownTrans(t, t2, t3);
    LabeledOnlyAt(t, s);
    OnlyAtUpdate(NewSample(t).profile.sample, t2.profile.sample, i, t3.profile.sample[i]);
  }

  /** Labelling the new sample changes no other sample. */
  lemma LabeledOnlyAt(t: Tables, s: SourceSample)
    requires TablesValid(t)
    ensures var i := |t.profile.sample|;
      OnlyAt(NewSample(t).profile.sample, Labeled(NewSample(t), i, s).profile.sample, i)
  {
    var i := |t.profile.sample|;
    LabeledEffect(t, s);
    var t2 := Labeled(NewSample(t), i, s);
    forall j | 0 <= j < i ensures t2.profile.sample[j] == NewSample(t).profile.sample[j] {
      assert t2.profile.sample[j] == t2.profile.sample[..i][j];
    }
  }

  /** Adding values to a sample leaves the tables valid and grown. */
  lemma AddValuesKeeps(t: Tables, i: nat, values: seq<int>)
    requires i < |t.profile.sample|
    ensures TablesValid(t) ==> TablesValid(AddValues(t, i, values))
    ensures Grown(t, AddValues(t, i, values))
  {
    GrownRefl(t);
  }

  /** `s'` and `s` agree below `i`. */
  lemma OnlyAtPrefix<T>(s: seq<T>, s': seq<T>, i: nat)
    requires OnlyAt(s, s', i) && i <= |s|
    ensures s'[..i] == s[..i]
  {
  }

  lemma WithSamplesValid(t: Tables, samples: seq<SourceSample>)
    requires TablesValid(t) && samples != []
    ensures var r := WithSamples(t, samples).0; var i := |t.profile.sample|;
      TablesValid(r) && Grown(t, r) && |r.profile.sample| == i + 1 && r.profile.sample[..i] == t.profile.sample
  {
    var i := |t.profile.sample|;
    var t3 := BeforeLocations(t, samples);
    BeforeLocationsEffect(t, samples);
    var frames := Reverse(samples[0].frames);
    var r := AddLocations(t3, i, frames, |frames|);
    AddLocationsValid(t3, i, frames, |frames|, AddLocations(t3, i, frames, |frames|));
    AddLocationsGrown(t3, i, frames, |frames|);
    AddLocationsEffect(t3, i, frames, |frames|);
    GrownTrans(t, t3, r);
    PrefixKept(t, t3.profile.sample, r.profile.sample, i);
  }

  /** Two updates at `i` of the samples after `NewSample` leave the
      earlier samples alone. */
  lemma PrefixKept(t: Tables, s: seq<PSample>, s': seq<PSample>, i: nat)
    requires i == |t.profile.sample|
    requires OnlyAt(NewSample(t).profile.sample, s, i) && OnlyAt(s, s', i)
    ensures |s'| == i + 1 && s'[..i] == t.profile.sample
  {
    var s0 := NewSample(t).profile.sample;
    OnlyAtPrefix(s0, s, i);
    OnlyAtPrefix(s, s', i);
    assert s0[..i] == t.profile.sample;
  }

  lemma WithSamplesReads(t: Tables, samples: seq<SourceSample>)
    requires TablesValid(t) && samples != []
    ensures var r := WithSamples(t, samples).0; var i := |t.profile.sample|;
      |r.profile.sample| == i + 1 && SampleReads(r, r.profile.sample[i], samples)
  {
    var i := |t.profile.sample|;
    var t3 := BeforeLocations(t, samples);
    BeforeLocationsEffect(t, samples);
    var frames := Reverse(samples[0].frames);
    var r := AddLocations(t3, i, frames, |frames|);
    AddLocationsValid(t3, i, frames, |frames|, AddLocations(t3, i, frames, |frames|));
    AddLocationsGrown(t3, i, frames, |frames|);
    AddLocationsEffect(t3, i, frames, |frames|);
    ReadsAfterLocations(t3, r, i, samples);
  }

  /** The reading-back part of `WithSamplesReads`, from the facts about
      the state before and after the location loop. */
  lemma ReadsAfterLocations(t3: Tables, r: Tables, i: nat, samples: seq<SourceSample>)
    requires samples != [] && i < |t3.profile.sample| && TablesValid(r) && Grown(t3, r)
    requires t3.profile.sample[i].locationId == [] && t3.profile.sample[i].value == Values(samples)
    requires LabelsRead(t3.profile.sample[i].labels, LabelPairs(samples[0]), t3.profile.stringTable)
    requires LocationsAdded(t3, r, i, Reverse(samples[0].frames), |samples[0].frames|)
    ensures |r.profile.sample| == |t3.profile.sample| && SampleReads(r, r.profile.sample[i], samples)
  {
    var frames := Reverse(samples[0].frames);
    var p := r.profile.sample[i];
    assert forall j :: 0 <= j < |frames| ==> p.locationId[j] == p.locationId[|t3.profile.sample[i].locationId| + j];
    LocationsRead(r, p.locationId, frames);
    LabelsKept(t3.profile.sample[i].labels, LabelPairs(samples[0]), t3.profile.stringTable, r.profile.stringTable);
  }

  /** Each of a run of ids registered for `frames` reads back as its
      frame. */
  lemma LocationsRead(t: Tables, ids: seq<nat>, frames: seq<Frame>)
    requires TablesValid(t) && |ids| == |frames|
    requires forall j :: 0 <= j < |frames| ==> frames[j] in t.locationMap && ids[j] == t.locationMap[frames[j]]
    ensures forall j :: 0 <= j < |frames| ==> LocationReads(t, ids[j], frames[j])
  {
    forall j | 0 <= j < |frames| ensures LocationReads(t, ids[j], frames[j]) {
      LocationDecodes(t, frames[j]);
    }
  }

  /** `PProf`: the generator, whose message and dictionaries grow in
      place. */
  class PProfGenerator {
    var profile: Profile
    var stringMap: map<string, nat>
    var functionMap: map<(string, string), nat>
    var locationMap: map<Frame, nat>
    var mode: Mode

    /** The generator's state as a value. */
    function Model(): Tables
      reads this
    {
      Tables(profile, stringMap, functionMap, locationMap)
    }

    ghost predicate Valid()
      reads this
    {
      TablesValid(Model())
    }

    /** `__init__`: an empty message whose string table holds "", then the
        sample types of the mode. A string mode is turned into a `Mode` by
        `Format.FromMetadata` first. */
    constructor(mode: Mode)
      ensures Model() == Init(mode) && Valid() && this.mode == mode
    {
      profile := Start.profile;
      stringMap := map[];
      functionMap := map[];
      locationMap := map[];
      this.mode := mode;
      new;
      StartValid();
      AddModeSampleTypes();
    }

    /** The mode's branch of `__init__`. */
    method AddModeSampleTypes()
      requires Model() == Start
      modifies this
      ensures Model() == Init(mode) && Valid() && mode == old(mode)
    {
      assert Start == SampleTypesAdded(Start, []);
      if mode == MEMORY {
        AddMemorySampleTypes([]);
        assert SampleTypeNames(mode) == [] + [(MEMORY_ALLOC_TYPE, MEMORY_UNIT), (MEMORY_DEALLOC_TYPE, MEMORY_UNIT)];
      } else if mode == CPU {
        AddSampleTypeAfter([], CPU_TYPE, TIME_UNIT);
        assert SampleTypeNames(mode) == [] + [(CPU_TYPE, TIME_UNIT)];
      } else if mode == WALL {
        AddSampleTypeAfter([], WALL_TYPE, TIME_UNIT);
        assert SampleTypeNames(mode) == [] + [(WALL_TYPE, TIME_UNIT)];
      } else {
        AddSampleTypeAfter([], CPU_TYPE, TIME_UNIT);
        AddSampleTypeAfter([] + [(CPU_TYPE, TIME_UNIT)], WALL_TYPE, TIME_UNIT);
        var time := [(CPU_TYPE, TIME_UNIT), (WALL_TYPE, TIME_UNIT)];
        assert [] + [(CPU_TYPE, TIME_UNIT)] + [(WALL_TYPE, TIME_UNIT)] == time;
        AddMemorySampleTypes(time);
        assert SampleTypeNames(mode) == time + [(MEMORY_ALLOC_TYPE, MEMORY_UNIT), (MEMORY_DEALLOC_TYPE, MEMORY_UNIT)];
      }
      InitEffect(mode);
    }

    /** `_add_memory_sample_types`. */
    method AddMemorySampleTypes(ghost done: seq<(string, string)>)
      requires Model() == SampleTypesAdded(Start, done)
      modifies this
      ensures Model() == SampleTypesAdded(Start, done + [(MEMORY_ALLOC_TYPE, MEMORY_UNIT), (MEMORY_DEALLOC_TYPE, MEMORY_UNIT)])
      ensures mode == old(mode)
    {
      AddSampleTypeAfter(done, MEMORY_ALLOC_TYPE, MEMORY_UNIT);
      AddSampleTypeAfter(done + [(MEMORY_ALLOC_TYPE, MEMORY_UNIT)], MEMORY_DEALLOC_TYPE, MEMORY_UNIT);
      assert done + [(MEMORY_ALLOC_TYPE, MEMORY_UNIT)] + [(MEMORY_DEALLOC_TYPE, MEMORY_UNIT)]
        == done + [(MEMORY_ALLOC_TYPE, MEMORY_UNIT), (MEMORY_DEALLOC_TYPE, MEMORY_UNIT)];
    }

    /** One more entry of the mode's sample types. */
    method AddSampleTypeAfter(ghost done: seq<(string, string)>, kind: string, unit: string)
      requires Model() == SampleTypesAdded(Start, done)
      modifies this
      ensures Model() == SampleTypesAdded(Start, done + [(kind, unit)])
      ensures mode == old(mode)
    {
      AddSampleType(kind, unit);
      assert (done + [(kind, unit)])[..|done|] == done;
    }

    /** `_add_sample_type`: the type string is looked up before the unit,
        and the sample type is appended. */
    method AddSampleType(kind: string, unit: string)
      modifies this
      ensures Model() == SampleTypeAdded(old(Model()), kind, unit) && mode == old(mode)
      ensures old(Valid()) ==> Valid()
    {
      ghost var t := Model();
      var k := GetString(kind);
      var u := GetString(unit);
      profile := profile.(sampleType := profile.sampleType + [ValueType(k, u)]);
    }

    /** `get_string`. */
    method GetString(s: string) returns (index: nat)
      modifies this
      ensures (Model(), index) == InternString(old(Model()), s) && mode == old(mode)
      ensures old(Valid()) ==> Valid()
    {
      if Valid() {
        InternStringValid(Model(), s);
      }
      if s in stringMap {
        return stringMap[s];
      }
      index := |profile.stringTable|;
      stringMap := stringMap[s := index];
      profile := profile.(stringTable := profile.stringTable + [s]);
    }

    /** `add_label_to_sample` on the sample at `i`. */
    method AddLabelToSample(i: nat, key: string, value: string)
      requires i < |profile.sample|
      modifies this
      ensures Model() == AddLabel(old(Model()), i, key, value) && mode == old(mode)
      ensures old(Valid()) ==> Valid()
    {
      var k := GetString(key);
      var v := GetString(value);
      var p := profile.sample[i];
      profile := profile.(sample := profile.sample[i := p.(labels := p.labels + [Label(k, v)])]);
    }

    /** `get_function`. */
    method GetFunction(f: Frame) returns (id: nat)
      modifies this
      ensures (Model(), id) == InternFunction(old(Model()), f) && mode == old(mode)
      ensures old(Valid()) ==> Valid()
    {
      if Valid() {
        InternFunctionEffect(Model(), f);
      }
      var key := (f.func, f.filename);
      if key in functionMap {
        return functionMap[key];
      }
      id := |profile.functions| + 1;
      var name := GetString(f.func);
      var filename := GetString(f.filename);
      profile := profile.(functions := profile.functions + [Function(id, name, filename)]);
      functionMap := functionMap[key := id];
    }

    /** `get_location`. */
    method GetLocation(f: Frame) returns (id: nat)
      modifies this
      ensures (Model(), id) == InternLocation(old(Model()), f) && mode == old(mode)
      ensures old(Valid()) ==> Valid()
    {
      if Valid() {
        InternLocationEffect(Model(), f);
      }
      if f in locationMap {
        return locationMap[f];
      }
      id := |profile.location| + 1;
      var fid := GetFunction(f);
      profile := profile.(location := profile.location + [Location(id, [Line(fid, f.line)])]);
      locationMap := locationMap[f := id];
    }

    /** `add_samples`: an empty list fails with `IndexError` after the
        new sample has been added. */
    method AddSamples(samples: seq<SourceSample>) returns (e: Option<SampleError>)
      modifies this
      ensures (Model(), e) == WithSamples(old(Model()), samples) && mode == old(mode)
      ensures old(Valid()) ==> Valid()
    {
      if Valid() {
        WithSamplesEffect(Model(), samples);
      }
      e := FillSample(samples);
    }

    /** The steps of `add_samples`. */
    method FillSample(samples: seq<SourceSample>) returns (e: Option<SampleError>)
      modifies this
      ensures (Model(), e) == WithSamples(old(Model()), samples) && mode == old(mode)
    {
      var i := |profile.sample|;
      profile := profile.(sample := profile.sample + [PSample([], [], [])]);
      if samples == [] {
        return Some(IndexError);
      }
      AddLabelToSample(i, THREAD_ID_LABEL, samples[0].thread);
      AddLabelToSample(i, PROCESS_ID_LABEL, IntToString(samples[0].pid));
      AddMetrics(i, samples);
      var frames := Reverse(samples[0].frames);
      AddLocationIds(i, frames);
      return None;
    }

    /** The metric loop of `add_samples`. */
    method AddMetrics(i: nat, samples: seq<SourceSample>)
      requires i < |profile.sample|
      modifies this
      ensures Model() == AddValues(old(Model()), i, Values(samples)) && mode == old(mode)
    {
      ghost var t := Model();
      assert t.profile.sample[i].value + [] == t.profile.sample[i].value;
      for j := 0 to |samples|
        invariant |profile.sample| == |t.profile.sample| && mode == old(mode)
        invariant Model() == AddValues(t, i, Values(samples[..j]))
      {
        ValuesStep(samples, j);
        var p := profile.sample[i];
        assert p.value + [samples[j].value] == t.profile.sample[i].value + Values(samples[..j + 1]);
        profile := profile.(sample := profile.sample[i := p.(value := p.value + [samples[j].value])]);
      }
      assert samples[..|samples|] == samples;
    }

    /** The location loop of `add_samples`. */
    method AddLocationIds(i: nat, frames: seq<Frame>)
      requires i < |profile.sample|
      modifies this
      ensures Model() == AddLocations(old(Model()), i, frames, |frames|) && mode == old(mode)
    {
      ghost var t := Model();
      for k := 0 to |frames|
        invariant |profile.sample| == |t.profile.sample| && mode == old(mode)
        invariant Model() == AddLocations(t, i, frames, k)
      {
        var id := GetLocation(frames[k]);
        AppendLocation(i, id);
      }
    }

    /** `pprof_sample.location_id.append(.)`. */
    method AppendLocation(i: nat, id: nat)
      requires i < |profile.sample|
      modifies this
      ensures Model() == AppendLocationId(old(Model()), i, id) && mode == old(mode)
    {
      var p := profile.sample[i];
      profile := profile.(sample := profile.sample[i := p.(locationId := p.locationId + [id])]);
    }
  }
}
