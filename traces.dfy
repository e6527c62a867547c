/** `traces.py`: the order in which the configurations of a target are traced, the
    sequential loop of `compute_traces` that fills the traces of one compiler, and
    `merge_functions`, which reconciles the variable types the traces report. */
module Traces {
  import opened Common
  import opened PyStr
  import opened ODict
  import opened Ordering
  import opened Tracer
  import Debugger

  // ---------------------------------------------------------------------------------
  // sort_by_priority

  /** The body `s` ends with `-O<level>-standard` for a level among 0, 1, 2, 3, g, s, z. */
  predicate LevelStandardSuffix(s: string) {
    |s| >= 12 && s[|s| - 12..|s| - 10] == "-O" && s[|s| - 10] in "0123gsz" && s[|s| - 9..] == "-standard"
  }

  /** `re.search(r"-O(0|1|2|3|g|s|z)-standard$", name)`: `$` matches at the very end and
      also just before a final newline. */
  predicate StandardName(name: string) {
    LevelStandardSuffix(name) || (EndsWith(name, "\n") && LevelStandardSuffix(name[..|name| - 1]))
  }

  /** The first component of `sort_by_priority(path)`. */
  function Priority(name: string): (r: nat)
    ensures r <= 2
  {
    if Contains(name, "-O0-all") then 0 else if StandardName(name) then 1 else 2
  }

  /** The keys `(priority, name)` of the directory entries. */
  function ConfigKeys(names: seq<string>): (r: seq<(nat, string)>)
    ensures |r| == |names| && forall i :: 0 <= i < |names| ==> r[i] == (Priority(names[i]), names[i])
  {
    seq(|names|, i requires 0 <= i < |names| => (Priority(names[i]), names[i]))
  }

  /** `sorted(target_dir.iterdir(), key=sort_by_priority)`, on the entries' names. */
  function ConfigOrder(names: seq<string>): seq<string> {
    RankedLessIsOrder();
    var ks := SortedSet(ConfigKeys(names), RankedLess);
    seq(|ks|, i requires 0 <= i < |ks| => ks[i].1)
  }

  /** The configurations are visited `-O0-all` first, then the `-standard` ones, then the
      others, each group in name order; every entry is visited once. */
  lemma ConfigOrderSpec(names: seq<string>)
    ensures forall x :: x in ConfigOrder(names) <==> x in names
    ensures forall i, j :: 0 <= i < j < |ConfigOrder(names)| ==>
              Priority(ConfigOrder(names)[i]) < Priority(ConfigOrder(names)[j]) ||
              (Priority(ConfigOrder(names)[i]) == Priority(ConfigOrder(names)[j]) &&
               StrLess(ConfigOrder(names)[i], ConfigOrder(names)[j]))
  {
    RankedLessIsOrder();
    var keys := ConfigKeys(names);
    var ks := SortedSet(keys, RankedLess);
    var r := ConfigOrder(names);
    assert r == seq(|ks|, i requires 0 <= i < |ks| => ks[i].1);
    assert forall i :: 0 <= i < |ks| ==> ks[i] == (Priority(r[i]), r[i]) by {
      forall i | 0 <= i < |ks| ensures ks[i] == (Priority(r[i]), r[i]) {
        assert ks[i] in keys;
        var k :| 0 <= k < |keys| && keys[k] == ks[i];
      }
    }
    forall x ensures x in r <==> x in names {
      if x in r {
        var i :| 0 <= i < |r| && r[i] == x;
        assert ks[i] in keys;
        var k :| 0 <= k < |keys| && keys[k] == ks[i];
        assert names[k] == x;
      }
      if x in names {
        var k :| 0 <= k < |names| && names[k] == x;
        assert keys[k] in ks;
        var i :| 0 <= i < |ks| && ks[i] == keys[k];
        assert r[i] == x;
      }
    }
    forall i, j | 0 <= i < j < |r|
      ensures Priority(r[i]) < Priority(r[j]) || (Priority(r[i]) == Priority(r[j]) && StrLess(r[i], r[j]))
    {
      assert RankedLess(ks[i], ks[j]);
    }
  }

  // ---------------------------------------------------------------------------------
  // merge_functions

  /** Variable name to its type, as one trace reports it for one function. */
  type Types = Dict<string, string>

  /** Python's `==` on two dictionaries: the same keys, each with the same value. */
  predicate SameDict(a: Types, b: Types) {
    (forall k | k in Keys(a) :: k in Keys(b) && Get(a, k) == Get(b, k)) &&
    (forall k | k in Keys(b) :: k in Keys(a))
  }

  /** The `for var, t in types.items()` loop: `output[f][var] = t` for each variable
      `output[f]` does not have yet. */
  function AddMissing(m: Types, types: Types): Types {
    if types == [] then m
    else
      var m' := AddMissing(m, types[..|types| - 1]);
      var (v, t) := types[|types| - 1];
      if v in Keys(m') then m' else Put(m', v, t)
  }

  /** Merging adds what is missing and changes nothing already there: a variable gets its
      type in `m` if it has one, else its (first) type in `types`. */
  lemma {:induction false} AddMissingGet(m: Types, types: Types, v: string)
    ensures Get(AddMissing(m, types), v) == if Get(m, v).Some? then Get(m, v) else Get(types, v)
  {
    if types != [] {
      var init := types[..|types| - 1];
      AddMissingGet(m, init, v);
      GetSnoc(init, types[|types| - 1], v);
      assert types == init + [types[|types| - 1]];
      var m' := AddMissing(m, init);
      var (w, t) := types[|types| - 1];
      if w !in Keys(m') {
        PutGet(m', w, t);
      }
    }
  }

  /** The body of the innermost loop of `merge_functions` for one `(f, types)` reported by
      a trace: the first map of `f` is kept; a different later one adds missing variables. */
  function Absorb(out: Functions, f: string, types: Types): Functions {
    match Get(out, f)
    case None => Put(out, f, types)
    case Some(m) => if SameDict(types, m) then out else Put(out, f, AddMissing(m, types))
  }

  /** The effect of a run of `(f, types)` reports, in the order the loops meet them. */
  function AbsorbAll(out: Functions, occ: seq<(string, Types)>): Functions {
    if occ == [] then out
    else
      var (f, types) := occ[|occ| - 1];
      Absorb(AbsorbAll(out, occ[..|occ| - 1]), f, types)
  }

  lemma {:induction false} AbsorbAllAppend(out: Functions, a: seq<(string, Types)>, b: seq<(string, Types)>)
    ensures AbsorbAll(out, a + b) == AbsorbAll(AbsorbAll(out, a), b)
  {
    if b != [] {
      var init := b[..|b| - 1];
      assert (a + b)[..|a + b| - 1] == a + init;
      assert (a + b)[|a + b| - 1] == b[|b| - 1];
      AbsorbAllAppend(out, a, init);
    } else {
      assert a + b == a;
    }
  }

  /** The type of variable `v` in the first report of `f` that has `v`. */
  function FirstType(occ: seq<(string, Types)>, f: string, v: string): Option<string> {
    if occ == [] then None
    else
      var p := FirstType(occ[..|occ| - 1], f, v);
      if p.Some? then p
      else if occ[|occ| - 1].0 == f then Get(occ[|occ| - 1].1, v)
      else None
  }

  lemma {:induction false} FirstTypeAbsent(occ: seq<(string, Types)>, f: string, v: string)
    requires f !in Keys(occ)
    ensures FirstType(occ, f, v) == None
  {
    if occ != [] {
      assert Keys(occ[..|occ| - 1]) == Keys(occ)[..|occ| - 1];
      assert Keys(occ)[|occ| - 1] == occ[|occ| - 1].0;
      FirstTypeAbsent(occ[..|occ| - 1], f, v);
    }
  }

  /** A later report of a function already merged leaves each variable's type alone
      and supplies the types of the missing ones, whether or not the maps are equal. */
  lemma AbsorbValue(m: Types, types: Types, v: string)
    ensures Get(if SameDict(types, m) then m else AddMissing(m, types), v) ==
            if Get(m, v).Some? then Get(m, v) else Get(types, v)
  {
    AddMissingGet(m, types, v);
  }

  /** One report changes only the entry of its own function. */
  lemma AbsorbGet(out: Functions, g: string, types: Types, f: string)
    ensures Get(Absorb(out, g, types), f) ==
            if g != f then Get(out, f)
            else if Get(out, g).None? then Some(types)
            else Some(if SameDict(types, Get(out, g).value) then Get(out, g).value
                      else AddMissing(Get(out, g).value, types))
  {
    match Get(out, g)
    case None => PutGet(out, g, types);
    case Some(m) => PutGet(out, g, AddMissing(m, types));
  }

  /** What `merge_functions` promises: a function is in the result iff some trace reports
      it, and each of its variables keeps the type of the first report that has it. Later
      disagreeing reports only add variables and never overwrite one. */
  lemma {:induction false} AbsorbAllSpec(occ: seq<(string, Types)>, f: string)
    ensures Get(AbsorbAll([], occ), f).None? <==> f !in Keys(occ)
    ensures Get(AbsorbAll([], occ), f).Some? ==>
              forall v :: Get(Get(AbsorbAll([], occ), f).value, v) == FirstType(occ, f, v)
  {
    if occ != [] {
      var init := occ[..|occ| - 1];
      var (g, types) := occ[|occ| - 1];
      AbsorbAllSpec(init, f);
      assert occ == init + [(g, types)];
      KeysSnoc(init, (g, types));
      var out := AbsorbAll([], init);
      assert AbsorbAll([], occ) == Absorb(out, g, types);
      AbsorbGet(out, g, types, f);
      if g == f {
        forall v ensures Get(Get(AbsorbAll([], occ), f).value, v) == FirstType(occ, f, v) {
          if Get(out, f).None? {
            FirstTypeAbsent(init, f, v);
          } else {
            AbsorbValue(Get(out, f).value, types, v);
          }
        }
      }
    }
  }

  /** The records of the traced configurations. `variables` is the string `"standard"`
      of a configuration whose code equals its level's `-standard` one, else a dictionary
      whose `"main"` entry is the trace; `functions` is absent once `compute_traces` has
      deleted it; `.text_hash` is absent only in a record just created. */
  datatype Vars = AsStandard | Runs(runs: Dict<string, Variables>)
  datatype Entry = Entry(variables: Vars, functions: Option<Dict<string, Functions>>, textHash: Option<string>)

  /** `target_info["traces"][compiler]`: optimization level to disabled optimization to
      record. */
  type Level = Dict<string, Entry>
  type Levels = Dict<string, Level>

  /** The reports of `(f, types)` in a sequence of items, each item giving its own, in
      order. */
  function Flatten<T>(xs: seq<T>, each: T -> seq<(string, Types)>): seq<(string, Types)> {
    if xs == [] then [] else Flatten(xs[..|xs| - 1], each) + each(xs[|xs| - 1])
  }

  lemma FlattenTake<T>(xs: seq<T>, each: T -> seq<(string, Types)>, k: nat)
    requires k < |xs|
    ensures Flatten(xs[..k + 1], each) == Flatten(xs[..k], each) + each(xs[k])
  {
    assert xs[..k + 1][..k] == xs[..k];
  }

  function RunsReports(p: (string, Functions)): seq<(string, Types)> { p.1 }

  function EntryReports(p: (string, Entry)): seq<(string, Types)> {
    if p.1.functions.Some? then Flatten(p.1.functions.value, RunsReports) else []
  }

  function LevelReports(p: (string, Level)): seq<(string, Types)> { Flatten(p.1, EntryReports) }

  /** Every `(f, types)` of every trace, in the order of the four nested loops. */
  function Reports(levels: Levels): seq<(string, Types)> { Flatten(levels, LevelReports) }

  /** `{key: output[key] for key in sorted(output.keys())}`. */
  function SortedByKey(d: Functions): (r: Functions) {
    StrLessIsOrder();
    var ks := SortedSet(Keys(d), StrLess);
    seq(|ks|, i requires 0 <= i < |ks| => (ks[i], Get(d, ks[i]).value))
  }

  /** Sorting by key keeps every key with its value and orders the keys. */
  lemma SortedByKeySpec(d: Functions)
    ensures Sorted(Keys(SortedByKey(d)), StrLess)
    ensures forall k :: k in Keys(SortedByKey(d)) <==> k in Keys(d)
    ensures forall k :: Get(SortedByKey(d), k) == Get(d, k)
  {
    StrLessIsOrder();
    var ks := SortedSet(Keys(d), StrLess);
    var r := SortedByKey(d);
    assert Keys(r) == ks;
    forall a, b | 0 <= a < b < |ks| ensures ks[a] != ks[b] {
      SortedDistinct(ks, StrLess, a, b);
    }
    forall k ensures Get(r, k) == Get(d, k) {
      if k in ks {
        var i :| 0 <= i < |ks| && ks[i] == k;
        assert (k, Get(d, k).value) in r;
        GetDistinct(r, i);
      }
    }
  }

  /** `merge_functions(traces)`. */
  function MergedFunctions(levels: Levels): Functions {
    SortedByKey(AbsorbAll([], Reports(levels)))
  }

  /** The merged map has sorted keys: the functions some trace reports, each variable
      with the type of its first report. */
  lemma MergedFunctionsSpec(levels: Levels, f: string)
    ensures Sorted(Keys(MergedFunctions(levels)), StrLess)
    ensures Get(MergedFunctions(levels), f).Some? <==> f in Keys(Reports(levels))
    ensures Get(MergedFunctions(levels), f).Some? ==>
              forall v :: Get(Get(MergedFunctions(levels), f).value, v) == FirstType(Reports(levels), f, v)
  {
    SortedByKeySpec(AbsorbAll([], Reports(levels)));
    AbsorbAllSpec(Reports(levels), f);
  }

  /** The `for var, t in types.items()` loop. */
  method AddMissingLoop(m: Types, types: Types) returns (r: Types)
    ensures r == AddMissing(m, types)
  {
    r := m;
    var i := 0;
    while i < |types|
      invariant 0 <= i <= |types|
      invariant r == AddMissing(m, types[..i])
    {
      assert types[..i + 1][..i] == types[..i];
      var (v, t) := types[i];
      if v !in Keys(r) {
        r := Put(r, v, t);
      }
      i := i + 1;
    }
    assert types[..i] == types;
  }

  /** The `for f, types in data.items()` loop. */
  method MergeData(out: Functions, data: Functions) returns (r: Functions)
    ensures r == AbsorbAll(out, data)
  {
    r := out;
    var i := 0;
    while i < |data|
      invariant 0 <= i <= |data|
      invariant r == AbsorbAll(out, data[..i])
    {
      assert data[..i + 1][..i] == data[..i];
      var (f, types) := data[i];
      match Get(r, f) {
        case None =>
          r := Put(r, f, types);
        case Some(m) =>
          if !SameDict(types, m) {
            var m' := AddMissingLoop(m, types);
            r := Put(r, f, m');
          }
      }
      i := i + 1;
    }
    assert data[..i] == data;
  }

  /** The `for i, data in ...["functions"].items()` loop. */
  method MergeRuns(out: Functions, runs: Dict<string, Functions>) returns (r: Functions)
    ensures r == AbsorbAll(out, Flatten(runs, RunsReports))
  {
    r := out;
    var i := 0;
    while i < |runs|
      invariant 0 <= i <= |runs|
      invariant r == AbsorbAll(out, Flatten(runs[..i], RunsReports))
    {
      FlattenTake(runs, RunsReports, i);
      AbsorbAllAppend(out, Flatten(runs[..i], RunsReports), runs[i].1);
      r := MergeData(r, runs[i].1);
      i := i + 1;
    }
    assert runs[..i] == runs;
  }

  /** The `for disabled_opt in traces[opt_level]` loop. */
  method MergeLevel(out: Functions, level: Level) returns (r: Functions)
    ensures r == AbsorbAll(out, Flatten(level, EntryReports))
  {
    r := out;
    var i := 0;
    while i < |level|
      invariant 0 <= i <= |level|
      invariant r == AbsorbAll(out, Flatten(level[..i], EntryReports))
    {
      FlattenTake(level, EntryReports, i);
      AbsorbAllAppend(out, Flatten(level[..i], EntryReports), EntryReports(level[i]));
      if level[i].1.functions.Some? {
        r := MergeRuns(r, level[i].1.functions.value);
      }
      i := i + 1;
    }
    assert level[..i] == level;
  }

  /** `merge_functions(traces)`. */
  method MergeFunctions(levels: Levels) returns (r: Functions)
    ensures r == MergedFunctions(levels)
  {
    var out: Functions := [];
    var i := 0;
    while i < |levels|
      invariant 0 <= i <= |levels|
      invariant out == AbsorbAll([], Flatten(levels[..i], LevelReports))
    {
      FlattenTake(levels, LevelReports, i);
      AbsorbAllAppend([], Flatten(levels[..i], LevelReports), LevelReports(levels[i]));
      out := MergeLevel(out, levels[i].1);
      i := i + 1;
    }
    assert levels[..i] == levels;
    StrLessIsOrder();
    var ks := SortUnique(Keys(out), StrLess);
    r := seq(|ks|, j requires 0 <= j < |ks| => (ks[j], Get(out, ks[j]).value));
  }

  // ---------------------------------------------------------------------------------
  // compute_traces, sequential path

  /** The opaque inputs of the loop, by directory name: whether the entry is a directory,
      whether it holds the target binary, the SHA-256 of the binary's `.text` section, and
      what `compute_single_trace` (that is, `get_variables`) returns for the binary. */
  datatype Env = Env(isDir: string -> bool, hasBinary: string -> bool, textHash: string -> string,
                     trace: string -> Result<Debugger.Collected>)

  /** `opt_level` and `disabled_opt`: the piece after the first `-O`, up to the next one,
      cut after its first character; nothing after the first `-O` raises IndexError. */
  function NameParts(name: string): Result<(string, string)>
    requires Contains(name, "-O")
  {
    SplitHead(name, "-O");
    var after := Split(name, "-O")[1];
    if after == [] then Fail(IndexError("binary_dir.name.split(\"-O\")[1][0]"))
    else Ok((after[..1], after[1..]))
  }

  /** With `rest` the text after the first `-O`: the name splits exactly when `rest` is
      non-empty and does not start another `-O`; `opt_level` is its first character and
      `opt_level + disabled_opt` runs up to the next `-O` or the end. */
  lemma NamePartsSpec(name: string)
    requires Contains(name, "-O")
    ensures var rest := name[Find(name, "-O").value + 2..];
            (NameParts(name).Ok? <==> rest != [] && !StartsWith(rest, "-O")) &&
            (NameParts(name).Ok? ==>
               var (o, d) := NameParts(name).value;
               var n := |o + d|;
               o == [rest[0]] && o + d == rest[..n] && !Contains(o + d, "-O") &&
               (n == |rest| || OccursAt(rest, "-O", n)))
  {
    var rest := name[Find(name, "-O").value + 2..];
    SplitSecond(name, "-O");
    var p := Split(name, "-O")[1];
    assert p == Split(rest, "-O")[0];
    SplitFirst(rest, "-O");
    if p != [] {
      assert NameParts(name) == Ok((p[..1], p[1..]));
      assert p[..1] + p[1..] == p;
    } else {
      assert NameParts(name).Fail?;
    }
  }

  /** A fresh record: `variables` and `functions` empty, no hash yet. */
  const Created: Entry := Entry(Runs([]), Some([]), None)

  /** Neither `-O0-all` nor a level's `-standard` build: a configuration whose hash may
      equal the `-standard` one. */
  predicate MayShareCode(name: string) {
    !Contains(name, "-O0-all") && !StandardName(name)
  }

  /** `target_info["traces"][compiler][opt_level]["-standard"][".text_hash"]`. */
  function StandardHash(level: Level): Result<string> {
    match Get(level, "-standard")
    case None => Fail(KeyError("-standard"))
    case Some(std) => if std.textHash.None? then Fail(KeyError(".text_hash")) else Ok(std.textHash.value)
  }

  /** The record of `opt_level`/`disabled_opt` replaced by `e`. */
  function SetEntry(t: Levels, opt: string, dis: string, e: Entry): Levels {
    Put(t, opt, Put(Get(t, opt).GetOr([]), dis, e))
  }

  /** The last step for a configuration that is traced unless it already was: the
      trace is stored into `variables["main"]` and `functions["main"]`. A 3-tuple from
      the tracer raises ValueError at the unpacking `variables, functions = ...` inside
      `compute_single_trace` (traces.py:116), which propagates through its call in
      `compute_traces`; a `"standard"` string raises TypeError, and a record without
      `functions` KeyError. */
  function TraceEntry(env: Env, t: Levels, name: string, opt: string, dis: string, e: Entry): Result<Levels> {
    if e.variables.Runs? && "main" in Keys(e.variables.runs) then Ok(t)
    else
      var c :- env.trace(name);
      if c.Triple? then Fail(ValueError("too many values to unpack (expected 2)"))
      else if e.variables.AsStandard? then Fail(TypeError("'str' object does not support item assignment"))
      else if e.functions.None? then Fail(KeyError("functions"))
      else
        Ok(SetEntry(t, opt, dis, e.(variables := Runs(Put(e.variables.runs, "main", c.variables)),
                                    functions := Some(Put(e.functions.value, "main", c.functions)))))
  }

  /** The record once created if missing and given the binary's hash. */
  function Registered(env: Env, t: Levels, name: string, opt: string, dis: string): Entry {
    Get(Get(t, opt).GetOr([]), dis).GetOr(Created).(textHash := Some(env.textHash(name)))
  }

  /** One iteration for a directory with the binary: the record is created if missing, its
      hash stored, then the hash short-circuit, then the trace. */
  function Register(env: Env, t: Levels, name: string, opt: string, dis: string): Result<Levels> {
    var e := Registered(env, t, name, opt, dis);
    var t' := SetEntry(t, opt, dis, e);
    if MayShareCode(name) then
      var h :- StandardHash(Get(t', opt).GetOr([]));
      if e.textHash == Some(h) then Ok(SetEntry(t', opt, dis, e.(variables := AsStandard)))
      else TraceEntry(env, t', name, opt, dis, e)
    else TraceEntry(env, t', name, opt, dis, e)
  }

  /** One iteration of the `for binary_dir in ...` loop. */
  function Visit(env: Env, t: Levels, name: string): Result<Levels> {
    if !(env.isDir(name) && Contains(name, "-O")) then Ok(t)
    else
      var (opt, dis) :- NameParts(name);
      if !env.hasBinary(name) then Ok(t) else Register(env, t, name, opt, dis)
  }

  function VisitOf(env: Env): (Levels, string) -> Result<Levels> {
    (t: Levels, name: string) => Visit(env, t, name)
  }

  /** The loop over the directories in the order given. */
  function VisitAll(env: Env, t: Levels, names: seq<string>): Result<Levels> {
    Steps(t, names, VisitOf(env))
  }

  /** The final `del ...["functions"]` loops. */
  function DropFunctions(t: Levels): (r: Levels) {
    seq(|t|, i requires 0 <= i < |t| =>
      (t[i].0, seq(|t[i].1|, j requires 0 <= j < |t[i].1| => (t[i].1[j].0, t[i].1[j].1.(functions := None)))))
  }

  /** `target_info`: the traces of the compiler and `target_info["functions"]["merged"]`. */
  datatype Target = Target(levels: Levels, merged: Option<Functions>)

  /** `compute_traces(target_info, target_dir, compiler, inputs, target, 1)`, given the names
      of the entries of `target_dir`. */
  function ComputeTracesSpec(env: Env, target: Target, names: seq<string>): Result<Target> {
    var t :- VisitAll(env, target.levels, ConfigOrder(names));
    var merged := if target.merged.Some? then target.merged else Some(MergedFunctions(t));
    Ok(Target(DropFunctions(t), merged))
  }

  /** A directory whose name splits, with the binary: the iterations that do something. */
  predicate Handled(env: Env, name: string) {
    env.isDir(name) && Contains(name, "-O") && NameParts(name).Ok? && env.hasBinary(name)
  }

  /** Entries that are not directories, have no `-O` or no binary are skipped, and a name
      with nothing after its first `-O` raises IndexError. */
  lemma VisitSkips(env: Env, t: Levels, name: string)
    ensures !env.isDir(name) || !Contains(name, "-O") ==> Visit(env, t, name) == Ok(t)
    ensures env.isDir(name) && Contains(name, "-O") && NameParts(name).Fail? ==>
              Visit(env, t, name).Fail? && Visit(env, t, name).fault.IndexError?
    ensures env.isDir(name) && Contains(name, "-O") && NameParts(name).Ok? && !env.hasBinary(name) ==>
              Visit(env, t, name) == Ok(t)
  {
  }

  /** The short-circuit: a configuration that may share code and whose hash equals its
      level's `-standard` hash gets `variables = "standard"` without being traced. */
  lemma VisitShortCircuit(env: Env, t: Levels, name: string, other: string -> Result<Debugger.Collected>)
    requires Handled(env, name) && MayShareCode(name)
    requires var (opt, dis) := NameParts(name).value;
             StandardHash(Get(SetEntry(t, opt, dis, Registered(env, t, name, opt, dis)), opt).GetOr([])) ==
               Ok(env.textHash(name))
    ensures var (opt, dis) := NameParts(name).value;
            Visit(env, t, name) == Ok(SetEntry(t, opt, dis, Registered(env, t, name, opt, dis).(variables := AsStandard)))
    ensures Visit(env, t, name) == Visit(env.(trace := other), t, name)
  {
    var (opt, dis) := NameParts(name).value;
    var e := Registered(env, t, name, opt, dis);
    SetEntryTwice(t, opt, dis, e, e.(variables := AsStandard));
    assert Registered(env.(trace := other), t, name, opt, dis) == e;
  }

  /** A configuration whose `variables` already has `main` is not traced again: only its
      hash is refreshed (or it becomes `"standard"` by the short-circuit). */
  lemma VisitComputed(env: Env, t: Levels, name: string, other: string -> Result<Debugger.Collected>)
    requires Handled(env, name)
    requires var (opt, dis) := NameParts(name).value;
             var e := Get(Get(t, opt).GetOr([]), dis);
             e.Some? && e.value.variables.Runs? && "main" in Keys(e.value.variables.runs)
    ensures Visit(env, t, name) == Visit(env.(trace := other), t, name)
    ensures var (opt, dis) := NameParts(name).value;
            !MayShareCode(name) ==>
              Visit(env, t, name) == Ok(SetEntry(t, opt, dis, Registered(env, t, name, opt, dis)))
  {
    var (opt, dis) := NameParts(name).value;
    assert Registered(env.(trace := other), t, name, opt, dis) == Registered(env, t, name, opt, dis);
  }

  /** The two-versus-three-tuple hazard: when `get_variables` returns the three empty
      dictionaries of a timeout or a crash, the two-target unpacking inside
      `compute_single_trace` (traces.py:116) raises ValueError, which propagates through
      the call in `compute_traces`. */
  lemma VisitTriple(env: Env, t: Levels, name: string)
    requires Handled(env, name) && !MayShareCode(name)
    requires var (opt, dis) := NameParts(name).value;
             var e := Get(Get(t, opt).GetOr([]), dis);
             e.None? || (e.value.variables.Runs? && "main" !in Keys(e.value.variables.runs))
    requires env.trace(name) == Ok(Debugger.Triple)
    ensures Visit(env, t, name).Fail? && Visit(env, t, name).fault.ValueError?
  {
  }

  /** Replacing a record twice keeps the second. */
  lemma SetEntryTwice(t: Levels, opt: string, dis: string, e: Entry, e': Entry)
    ensures SetEntry(SetEntry(t, opt, dis, e), opt, dis, e') == SetEntry(t, opt, dis, e')
  {
    var level := Get(t, opt).GetOr([]);
    PutGet(t, opt, Put(level, dis, e));
    PutTwice(level, dis, e, e');
    PutTwice(t, opt, Put(level, dis, e), Put(level, dis, e'));
  }

  /** Replacing a record leaves every other record as it was. */
  lemma SetEntryFrame(t: Levels, opt: string, dis: string, e: Entry, o: string, d: string)
    ensures Get(SetEntry(t, opt, dis, e), opt).Some?
    ensures Get(Get(SetEntry(t, opt, dis, e), opt).value, dis) == Some(e)
    ensures o != opt ==> Get(SetEntry(t, opt, dis, e), o) == Get(t, o)
    ensures d != dis ==> Get(Get(SetEntry(t, opt, dis, e), opt).value, d) == Get(Get(t, opt).GetOr([]), d)
  {
    var level := Get(t, opt).GetOr([]);
    PutGet(t, opt, Put(level, dis, e));
    PutGet(level, dis, e);
  }

  /** The outcome of the trace step, when it succeeds, is the levels with one record
      replaced. */
  lemma TraceEntryShape(env: Env, t: Levels, name: string, opt: string, dis: string, e: Entry)
    requires TraceEntry(env, SetEntry(t, opt, dis, e), name, opt, dis, e).Ok?
    ensures exists e' :: TraceEntry(env, SetEntry(t, opt, dis, e), name, opt, dis, e).value == SetEntry(t, opt, dis, e')
  {
    var t1 := SetEntry(t, opt, dis, e);
    if e.variables.Runs? && "main" in Keys(e.variables.runs) {
      assert TraceEntry(env, t1, name, opt, dis, e).value == SetEntry(t, opt, dis, e);
    } else {
      var c := env.trace(name).value;
      var e' := e.(variables := Runs(Put(e.variables.runs, "main", c.variables)),
                   functions := Some(Put(e.functions.value, "main", c.functions)));
      SetEntryTwice(t, opt, dis, e, e');
      assert TraceEntry(env, t1, name, opt, dis, e).value == SetEntry(t, opt, dis, e');
    }
  }

  /** The same for the whole iteration of a directory with the binary. */
  lemma RegisterShape(env: Env, t: Levels, name: string, opt: string, dis: string)
    requires Register(env, t, name, opt, dis).Ok?
    ensures exists e' :: Register(env, t, name, opt, dis).value == SetEntry(t, opt, dis, e')
  {
    var e := Registered(env, t, name, opt, dis);
    var t1 := SetEntry(t, opt, dis, e);
    if MayShareCode(name) && StandardHash(Get(t1, opt).GetOr([])) == Ok(env.textHash(name)) {
      SetEntryTwice(t, opt, dis, e, e.(variables := AsStandard));
      assert Register(env, t, name, opt, dis).value == SetEntry(t, opt, dis, e.(variables := AsStandard));
    } else {
      assert Register(env, t, name, opt, dis) == TraceEntry(env, t1, name, opt, dis, e);
      TraceEntryShape(env, t, name, opt, dis, e);
    }
  }

  /** An iteration changes at most the record its directory names: every other level, and
      every other record of its level, is left alone. */
  lemma VisitFrame(env: Env, t: Levels, name: string, o: string, d: string)
    requires Handled(env, name) && Visit(env, t, name).Ok?
    ensures var (opt, dis) := NameParts(name).value;
            var t' := Visit(env, t, name).value;
            (o != opt ==> Get(t', o) == Get(t, o)) &&
            (d != dis ==> Get(Get(t', opt).GetOr([]), d) == Get(Get(t, opt).GetOr([]), d))
  {
    var (opt, dis) := NameParts(name).value;
    assert Visit(env, t, name) == Register(env, t, name, opt, dis);
    RegisterShape(env, t, name, opt, dis);
    var e' :| Register(env, t, name, opt, dis).value == SetEntry(t, opt, dis, e');
    SetEntryFrame(t, opt, dis, e', o, d);
  }

  /** Every configuration that may short-circuit is visited after every `-O0-all` and
      `-standard` one, so the `-standard` hashes it compares with are stored first. */
  lemma HashesFirst(names: seq<string>, i: nat, j: nat)
    requires i < |ConfigOrder(names)| && j < |ConfigOrder(names)|
    requires !MayShareCode(ConfigOrder(names)[i]) && MayShareCode(ConfigOrder(names)[j])
    ensures i < j
  {
    ConfigOrderSpec(names);
  }

  /** The final loops drop `functions` from every record and change nothing else. */
  lemma DropFunctionsSpec(t: Levels)
    ensures Keys(DropFunctions(t)) == Keys(t)
    ensures forall i :: 0 <= i < |t| ==> Keys(DropFunctions(t)[i].1) == Keys(t[i].1)
    ensures forall i, j :: 0 <= i < |t| && 0 <= j < |t[i].1| ==>
              DropFunctions(t)[i].1[j].1.functions.None? &&
              DropFunctions(t)[i].1[j].1.variables == t[i].1[j].1.variables &&
              DropFunctions(t)[i].1[j].1.textHash == t[i].1[j].1.textHash
  {
  }

  /** After `compute_traces` no record keeps `functions`, and `merged` is computed from the
      traces only when it was absent. */
  lemma ComputeTracesDone(env: Env, target: Target, names: seq<string>)
    requires ComputeTracesSpec(env, target, names).Ok?
    ensures var r := ComputeTracesSpec(env, target, names).value;
            (forall i, j :: 0 <= i < |r.levels| && 0 <= j < |r.levels[i].1| ==> r.levels[i].1[j].1.functions.None?) &&
            (target.merged.Some? ==> r.merged == target.merged) &&
            (target.merged.None? ==> r.merged == Some(MergedFunctions(VisitAll(env, target.levels, ConfigOrder(names)).value)))
  {
    DropFunctionsSpec(VisitAll(env, target.levels, ConfigOrder(names)).value);
  }

  /** The `del ...["functions"]` loops. */
  method DropAll(t: Levels) returns (r: Levels)
    ensures r == DropFunctions(t)
  {
    r := t;
    var i := 0;
    while i < |r|
      invariant 0 <= i <= |r| == |t|
      invariant forall k :: 0 <= k < i ==> r[k] == DropFunctions(t)[k]
      invariant forall k :: i <= k < |t| ==> r[k] == t[k]
    {
      var (opt, level) := r[i];
      var lv := level;
      var j := 0;
      while j < |lv|
        invariant 0 <= j <= |lv| == |level|
        invariant forall m :: 0 <= m < j ==> lv[m] == (level[m].0, level[m].1.(functions := None))
        invariant forall m :: j <= m < |level| ==> lv[m] == level[m]
      {
        if lv[j].1.functions.Some? {
          lv := lv[j := (lv[j].0, lv[j].1.(functions := None))];
        }
        j := j + 1;
      }
      assert (opt, level) == t[i];
      var want := DropFunctions(t)[i];
      assert want.0 == opt && |want.1| == |lv|;
      assert forall m :: 0 <= m < |lv| ==> lv[m] == want.1[m];
      assert lv == want.1;
      r := r[i := (opt, lv)];
      i := i + 1;
    }
  }

  /** `compute_traces(target_info, target_dir, compiler, inputs, target, 1)`. */
  method ComputeTraces(env: Env, target: Target, names: seq<string>) returns (r: Result<Target>)
    ensures r == ComputeTracesSpec(env, target, names)
  {
    var order := ConfigOrder(names);
    var visited := StepsLoop(target.levels, order, VisitOf(env));
    if visited.Fail? {
      return Fail(visited.fault);
    }
    var t := visited.value;
    var merged := target.merged;
    if merged.None? {
      var m := MergeFunctions(t);
      merged := Some(m);
    }
    var dropped := DropAll(t);
    r := Ok(Target(dropped, merged));
  }
}
