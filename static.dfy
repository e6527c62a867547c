/** `static.py`: `polish_traces`, which sorts every variable the debugger reports into
    statically live or not live, and its two helpers. */
module Static {
  import opened Common
  import opened PyStr
  import opened ODict
  import opened Ordering
  import opened Statement
  import opened Variables
  import opened Ast
  import Config
  import Tracer
  import Traces

  // ---------------------------------------------------------------------------------
  // remove_strings_and_comments

  /** After the opening quote `q` of a literal: the greedy `(?:\\.|[^q])*` followed by the
      closing `q`, searched with backtracking in the order the regex engine tries it; the
      index just after the closing quote. */
  function QuotedFrom(s: string, q: char, p: nat): (r: Option<nat>)
    requires p <= |s|
    ensures r.Some? ==> p < r.value <= |s|
    decreases |s| - p
  {
    if p == |s| then None
    else
      var escaped := if s[p] == '\\' && p + 1 < |s| then QuotedFrom(s, q, p + 2) else None;
      if escaped.Some? then escaped
      else
        var plain := if s[p] != q then QuotedFrom(s, q, p + 1) else None;
        if plain.Some? then plain
        else if s[p] == q then Some(p + 1)
        else None
  }

  /** A string (`q` is `"`) or character (`q` is `'`) literal starting at `p`. */
  function QuotedAt(s: string, q: char, p: nat): (r: Option<nat>)
    requires p < |s|
    ensures r.Some? ==> p < r.value <= |s|
  {
    if s[p] == q then QuotedFrom(s, q, p + 1) else None
  }

  /** A block comment: from `/` `*` up to the first closing `*` `/` after it. */
  function BlockCommentAt(s: string, p: nat): (r: Option<nat>)
    requires p < |s|
    ensures r.Some? ==> p < r.value <= |s|
  {
    if StartsWith(s[p..], "/*") then
      match FindFrom(s, "*/", p + 2)
      case None => None
      case Some(i) => Some(i + 2)
    else None
  }

  /** A line comment: from `//` up to the next newline, which stays, or the end. */
  function LineCommentAt(s: string, p: nat): (r: Option<nat>)
    requires p < |s|
    ensures r.Some? ==> p < r.value <= |s|
  {
    if StartsWith(s[p..], "//") then
      match FindFrom(s, "\n", p + 2)
      case None => Some(|s|)
      case Some(i) => Some(i)
    else None
  }

  /** A disabled block: from `#if 0` up to the end of the first `#endif` after it. */
  function IfZeroAt(s: string, p: nat): (r: Option<nat>)
    requires p < |s|
    ensures r.Some? ==> p < r.value <= |s|
  {
    if StartsWith(s[p..], "#if 0") then
      match FindFrom(s, "#endif", p + 5)
      case None => None
      case Some(i) => Some(i + 6)
    else None
  }

  /** The pattern's alternatives, tried in order at `p`: the end of the first that matches. */
  function MatchAt(s: string, p: nat): (r: Option<nat>)
    requires p < |s|
    ensures r.Some? ==> p < r.value <= |s|
  {
    var a := QuotedAt(s, '"', p);
    if a.Some? then a
    else
      var b := QuotedAt(s, '\'', p);
      if b.Some? then b
      else
        var c := BlockCommentAt(s, p);
        if c.Some? then c
        else
          var d := LineCommentAt(s, p);
          if d.Some? then d else IfZeroAt(s, p)
  }

  function Newlines(n: nat): (r: string)
    ensures |r| == n && forall k :: 0 <= k < n ==> r[k] == '\n'
  {
    if n == 0 then [] else Newlines(n - 1) + "\n"
  }

  /** `re.sub` from `p` on: leftmost matches, each replaced by its own newlines; the text
      between matches is kept. */
  function Scrub(s: string, p: nat): string
    requires p <= |s|
    decreases |s| - p
  {
    if p == |s| then []
    else
      match MatchAt(s, p)
      case None => [s[p]] + Scrub(s, p + 1)
      case Some(e) => Newlines(CountChar(s[p..e], '\n')) + Scrub(s, e)
  }

  /** `remove_strings_and_comments(source_code)`. */
  function RemoveStringsAndComments(code: string): string {
    Scrub(code, 0)
  }

  lemma {:induction false} NewlinesCount(n: nat)
    ensures CountChar(Newlines(n), '\n') == n
  {
    if n > 0 {
      NewlinesCount(n - 1);
      CountCharAppend(Newlines(n - 1), "\n", '\n');
    }
  }

  lemma {:induction false} ScrubLines(s: string, p: nat)
    requires p <= |s|
    ensures CountChar(Scrub(s, p), '\n') == CountChar(s[p..], '\n')
    decreases |s| - p
  {
    if p < |s| {
      match MatchAt(s, p)
      case None =>
        ScrubLines(s, p + 1);
        assert s[p..] == [s[p]] + s[p + 1..];
        CountCharAppend([s[p]], Scrub(s, p + 1), '\n');
        CountCharAppend([s[p]], s[p + 1..], '\n');
      case Some(e) =>
        ScrubLines(s, e);
        assert s[p..] == s[p..e] + s[e..];
        NewlinesCount(CountChar(s[p..e], '\n'));
        CountCharAppend(Newlines(CountChar(s[p..e], '\n')), Scrub(s, e), '\n');
        CountCharAppend(s[p..e], s[e..], '\n');
    }
  }

  /** Every literal and comment becomes as many newlines as it spanned, so the cleaned code
      has as many lines as the original and every line keeps its number. */
  lemma RemovePreservesLines(code: string)
    ensures CountChar(RemoveStringsAndComments(code), '\n') == CountChar(code, '\n')
  {
    ScrubLines(code, 0);
    assert code[0..] == code;
  }

  /** The characters that can open a literal or a comment. */
  predicate Opener(c: char) { c == '"' || c == '\'' || c == '/' || c == '#' }

  /** Code with no quote, slash or `#` is left as it is. */
  lemma {:induction false} ScrubPlain(s: string, p: nat)
    requires p <= |s| && forall k :: p <= k < |s| ==> !Opener(s[k])
    ensures Scrub(s, p) == s[p..]
    decreases |s| - p
  {
    if p < |s| {
      assert MatchAt(s, p).None? by {
        assert s[p..][0] == s[p];
      }
      ScrubPlain(s, p + 1);
      assert s[p..] == [s[p]] + s[p + 1..];
    }
  }

  // ---------------------------------------------------------------------------------
  // elements_in_at_least_two_lists

  /** The elements of all lists, list after list. */
  function Flat<T>(lists: seq<seq<T>>): seq<T> {
    if lists == [] then [] else Flat(lists[..|lists| - 1]) + lists[|lists| - 1]
  }

  /** The elements occurring at least twice in all the lists together. */
  function AtLeastTwice<T(==)>(lists: seq<seq<T>>): set<T> {
    var m := multiset(Flat(lists));
    set x | x in m && m[x] >= 2
  }

  /** `element_count` holds the number of occurrences of each element of `xs`. */
  ghost predicate Counts<T(!new)>(counts: Dict<T, nat>, xs: seq<T>) {
    Distinct(Keys(counts)) &&
    forall x :: Get(counts, x) == if x in multiset(xs) then Some(multiset(xs)[x]) else None
  }

  /** One more occurrence of `e`: a first one counts 1, a later one adds 1. */
  function Bump<T(==)>(counts: Dict<T, nat>, e: T): Dict<T, nat> {
    match Get(counts, e)
    case None => Put(counts, e, 1)
    case Some(c) => Put(counts, e, c + 1)
  }

  /** Counting one more element keeps the counts right. */
  lemma CountOne<T(!new)>(counts: Dict<T, nat>, xs: seq<T>, e: T)
    requires Counts(counts, xs)
    ensures Counts(Bump(counts, e), xs + [e])
  {
    var n := if Get(counts, e).Some? then Get(counts, e).value + 1 else 1;
    var d := Bump(counts, e);
    assert d == Put(counts, e, n);
    PutDistinct(counts, e, n);
    PutGet(counts, e, n);
    var m, m' := multiset(xs), multiset(xs + [e]);
    assert m' == m + multiset{e};
    forall x ensures Get(d, x) == if x in m' then Some(m'[x]) else None {
      var before := Get(counts, x);
      assert before == if x in m then Some(m[x]) else None;
      if x == e {
        assert Get(d, x) == Some(n);
        assert n == m'[x];
      } else {
        assert Get(d, x) == before;
        assert m'[x] == m[x];
      }
    }
  }

  /** The inner loop of the counting: one list's elements, one at a time. */
  method CountList<T(==,!new)>(counts: Dict<T, nat>, ghost xs: seq<T>, list: seq<T>) returns (r: Dict<T, nat>)
    requires Counts(counts, xs)
    ensures Counts(r, xs + list)
  {
    r := counts;
    var j := 0;
    assert xs + list[..j] == xs;
    while j < |list|
      invariant 0 <= j <= |list|
      invariant Counts(r, xs + list[..j])
    {
      CountNext(r, xs, list, j);
      r := Bump(r, list[j]);
      j := j + 1;
    }
    assert list[..j] == list;
  }

  /** Counting the next element of the list. */
  lemma CountNext<T(!new)>(counts: Dict<T, nat>, xs: seq<T>, list: seq<T>, j: nat)
    requires j < |list| && Counts(counts, xs + list[..j])
    ensures Counts(Bump(counts, list[j]), xs + list[..j + 1])
  {
    CountOne(counts, xs + list[..j], list[j]);
    assert xs + list[..j] + [list[j]] == xs + list[..j + 1];
  }

  /** The elements counted at least twice, read off the entries of the counts. */
  lemma AtLeastTwiceOfCounts<T(!new)>(counts: Dict<T, nat>, lists: seq<seq<T>>, x: T)
    requires Counts(counts, Flat(lists))
    ensures x in AtLeastTwice(lists) <==> exists m :: 0 <= m < |counts| && counts[m].0 == x && counts[m].1 >= 2
  {
    if exists m :: 0 <= m < |counts| && counts[m].0 == x && counts[m].1 >= 2 {
      var n :| 0 <= n < |counts| && counts[n].0 == x && counts[n].1 >= 2;
      GetDistinct(counts, n);
    }
    if x in AtLeastTwice(lists) {
      assert Get(counts, x).Some?;
      var n :| 0 <= n < |counts| && Keys(counts)[n] == x;
      GetDistinct(counts, n);
    }
  }

  /** `elements_in_at_least_two_lists(*lists)`: count every element, then keep those seen
      at least twice. */
  method ElementsInAtLeastTwoLists<T(==,!new)>(lists: seq<seq<T>>) returns (result: set<T>)
    ensures result == AtLeastTwice(lists)
  {
    var counts: Dict<T, nat> := [];
    var i := 0;
    while i < |lists|
      invariant 0 <= i <= |lists|
      invariant Counts(counts, Flat(lists[..i]))
    {
      assert lists[..i + 1][..i] == lists[..i];
      counts := CountList(counts, Flat(lists[..i]), lists[i]);
      i := i + 1;
    }
    assert lists[..i] == lists;
    result := CountedTwice(counts);
    forall x ensures x in result <==> x in AtLeastTwice(lists) {
      AtLeastTwiceOfCounts(counts, lists, x);
    }
  }

  /** The second loop: the keys whose count is at least 2. */
  method CountedTwice<T(==)>(counts: Dict<T, nat>) returns (result: set<T>)
    ensures forall x :: x in result <==> exists m :: 0 <= m < |counts| && counts[m].0 == x && counts[m].1 >= 2
  {
    result := {};
    var k := 0;
    while k < |counts|
      invariant 0 <= k <= |counts|
      invariant forall x :: x in result <==> exists m :: 0 <= m < k && counts[m].0 == x && counts[m].1 >= 2
    {
      if counts[k].1 >= 2 {
        result := result + {counts[k].0};
      }
      k := k + 1;
    }
  }

  /** Every element of the concatenation comes from one of the lists. */
  lemma {:induction false} FlatMember<T>(lists: seq<seq<T>>, x: T)
    ensures x in Flat(lists) <==> exists j :: 0 <= j < |lists| && x in lists[j]
  {
    if lists != [] {
      var init := lists[..|lists| - 1];
      FlatMember(init, x);
      assert forall j :: 0 <= j < |init| ==> init[j] == lists[j];
      if x in Flat(init) {
        var j :| 0 <= j < |init| && x in init[j];
        assert x in lists[j];
      }
    }
  }

  // ---------------------------------------------------------------------------------
  // Line counting: `str.splitlines`

  /** The characters `str.splitlines` breaks at (`\r\n` counts as one break). */
  predicate LineBreak(c: char) {
    c == '\n' || c == '\r' || c == '\U{B}' || c == '\U{C}' || c == '\U{1C}' || c == '\U{1D}' || c == '\U{1E}' ||
    c == '\U{85}' || c == '\U{2028}' || c == '\U{2029}'
  }

  /** The index of the first line break, or the length of `s`. */
  function FirstBreak(s: string): (r: nat)
    ensures r <= |s| && (r < |s| ==> LineBreak(s[r]))
    ensures forall k :: 0 <= k < r ==> !LineBreak(s[k])
  {
    if s == [] || LineBreak(s[0]) then 0 else FirstBreak(s[1..]) + 1
  }

  /** `len(text.splitlines())`: every line ends at a break or at the end of the text,
      and a final break does not open an empty line. */
  function LineCount(s: string): nat
    decreases |s|
  {
    if s == [] then 0
    else
      var e := FirstBreak(s);
      if e == |s| then 1
      else
        var next := if s[e] == '\r' && e + 1 < |s| && s[e + 1] == '\n' then e + 2 else e + 1;
        1 + LineCount(s[next..])
  }

  /** For text whose only breaks are `\n`, the lines are the newlines, plus one for a
      last line that lacks its newline. */
  lemma {:induction false} LineCountNewlines(s: string)
    requires forall k :: 0 <= k < |s| ==> s[k] == '\n' || !LineBreak(s[k])
    ensures LineCount(s) == CountChar(s, '\n') + (if s != [] && s[|s| - 1] != '\n' then 1 else 0)
    decreases |s|
  {
    if s != [] {
      var e := FirstBreak(s);
      if e == |s| {
        NoNewlineBefore(s, e);
        assert s[..e] == s;
      } else {
        var rest := s[e + 1..];
        LineCountNewlines(rest);
        LineCountAtNewline(s, e);
      }
    }
  }

  /** One line up to the first break, which is a newline. */
  lemma LineCountAtNewline(s: string, e: nat)
    requires e == FirstBreak(s) < |s| && s[e] == '\n'
    requires LineCount(s[e + 1..]) == CountChar(s[e + 1..], '\n') + (if s[e + 1..] != [] && s[|s| - 1] != '\n' then 1 else 0)
    ensures LineCount(s) == CountChar(s, '\n') + (if s[|s| - 1] != '\n' then 1 else 0)
  {
    NoNewlineBefore(s, e);
    CountAfterNewline(s, e);
  }

  lemma CountAfterNewline(s: string, e: nat)
    requires e < |s| && s[e] == '\n' && CountChar(s[..e], '\n') == 0
    ensures CountChar(s, '\n') == 1 + CountChar(s[e + 1..], '\n')
  {
    assert s == s[..e] + ([s[e]] + s[e + 1..]);
    CountCharAppend(s[..e], [s[e]] + s[e + 1..], '\n');
    CountCharAppend([s[e]], s[e + 1..], '\n');
  }

  /** No newline before the first break. */
  lemma NoNewlineBefore(s: string, e: nat)
    requires e <= |s| && forall k :: 0 <= k < e ==> !LineBreak(s[k])
    ensures CountChar(s[..e], '\n') == 0
  {
    if e > 0 {
      assert s[..e][1..] == s[1..][..e - 1];
      NoNewlineBefore(s[1..], e - 1);
    }
  }

  // ---------------------------------------------------------------------------------
  // polish_traces

  /** The parsed AST of a source, as the queries see it: the statement and variable
      arenas and the defined functions. */
  datatype SourceTree = SourceTree(stmts: seq<Stmt>, vars: seq<Var>, functions: seq<nat>)

  /** A tree the AST parser can produce: the arenas are consistent and the functions are
      function statements. */
  type AstTree = t: SourceTree | WellFormed(t.stmts, t.vars) && AllFunctions(t.stmts, t.functions)
    witness SourceTree([], [], [])

  /** What looking a source file up on disk gives: not found (or not a regular file), a
      relative name matching several files (`exit(1)`), or the file's text. */
  datatype Located = Missing | Collision | Located(text: string)

  /** The file system and the AST parser, as parameters: whether the path lies under the
      project root, the lookup of a source file, the AST of a found source, and the
      project directory. */
  datatype Env = Env(inProject: string -> bool, locate: string -> Located, astOf: string -> AstTree, projectDir: string)

  /** `source_code` and `source_asts` together: a source is first read, then, unless it
      is blacklisted, replaced by its cleaned lines (only their number matters) while its
      AST is stored. A blacklisted source keeps its raw text and gets no AST. */
  datatype Cached = RawText | Prepared(lines: nat, tree: AstTree)

  /** The three buckets of a configuration, in the order their elements were added. */
  datatype Buckets = Buckets(notlive: seq<string>, total: seq<string>, lines: seq<string>)

  const NoBuckets := Buckets([], [], [])

  /** `f"{n}"` for an integer. */
  function IntStr(n: int): string {
    if n < 0 then "-" + NatToStr(-n) else NatToStr(n)
  }

  /** `f"{source}:{line}"`. */
  function LineKey(src: string, line: int): string {
    src + ":" + IntStr(line)
  }

  /** `f"{source}:{line}:{var}"`. */
  function VarKey(src: string, line: int, v: string): string {
    LineKey(src, line) + ":" + v
  }

  /** At one line, two variables give the same entry only when they are the same. */
  lemma VarKeyInjective(src: string, line: int, v: string, w: string)
    requires VarKey(src, line, v) == VarKey(src, line, w)
    ensures v == w
  {
    var p := LineKey(src, line) + ":";
    assert VarKey(src, line, v) == p + v && VarKey(src, line, w) == p + w;
    assert v == (p + v)[|p|..] && w == (p + w)[|p|..];
  }

  /** The names of the live variables: the keys `var.name` of the dictionary built from
      `find_live_vars_at` (the name of a variable may be `None`). */
  function LiveNames(tree: AstTree, live: set<nat>): set<Option<string>> {
    set v | v in live && v < |tree.vars| :: tree.vars[v].name
  }

  /** One variable of the line: `notlive` when its name is not live, `total` otherwise. */
  function Classify(src: string, line: int, names: set<Option<string>>, b: Buckets, v: string): Buckets {
    if Some(v) !in names then b.(notlive := b.notlive + [VarKey(src, line, v)])
    else b.(total := b.total + [VarKey(src, line, v)])
  }

  /** The loop over the available variables of a line. */
  function ClassifyAll(src: string, line: int, names: set<Option<string>>, b: Buckets, avail: seq<string>): Buckets {
    if avail == [] then b
    else Classify(src, line, names, ClassifyAll(src, line, names, b, avail[..|avail| - 1]), avail[|avail| - 1])
  }

  /** `int(line)`. */
  function ParseLine(line: string): Result<int> {
    match PyInt(line)
    case None => Fail(ValueError("int(line)"))
    case Some(i) => Ok(i)
  }

  /** One traced line of a source whose cleaned text has `count` lines. In order: `int`
      of the line text, the index into the cleaned lines (Python accepts -count..count-1),
      the AST queries, and then, if a function encloses the line, the classification of
      its variables and the line itself. A function without a live set makes the
      membership test on `None` raise once there is a variable to test. */
  function LineStep(src: string, count: nat, tree: AstTree, b: Buckets, e: (string, Tracer.LineInfo)): Result<Buckets> {
    var i :- ParseLine(e.0);
    if !(-(count as int) <= i - 1 < count) then Fail(IndexError("source_code[source][int(line) - 1]"))
    else
      var live :- LiveVarsAt(tree.stmts, tree.vars, tree.functions, i);
      if FunctionAt(tree.stmts, tree.functions, i).None? then Ok(b)
      else if live.None? then
        if e.1.available != [] then Fail(TypeError("var not in None"))
        else Ok(b.(lines := b.lines + [LineKey(src, i)]))
      else
        var c := ClassifyAll(src, i, LiveNames(tree, live.value), b, e.1.available);
        Ok(c.(lines := c.lines + [LineKey(src, i)]))
  }

  function LineStepOf(src: string, count: nat, tree: AstTree): (Buckets, (string, Tracer.LineInfo)) -> Result<Buckets> {
    (b: Buckets, e: (string, Tracer.LineInfo)) => LineStep(src, count, tree, b, e)
  }

  /** `source.split("/")[-1]`. */
  function BaseName(src: string): string {
    var parts := Split(src, "/");
    parts[|parts| - 1]
  }

  /** The first filter of the source loop: fuzzing harnesses and files outside the
      project. */
  predicate Skipped(env: Env, src: string) {
    Contains(AsciiLower(BaseName(src)), "fuzz") || !env.inProject(src)
  }

  /** `traces[...][opt_level]["-standard"]["variables"]["main"]`: indexing the string
      `"standard"` by `"main"` raises TypeError. */
  function StandardMain(level: Traces.Level): Result<Tracer.Variables> {
    match Get(level, "-standard")
    case None => Fail(KeyError("-standard"))
    case Some(std) =>
      match std.variables
      case AsStandard => Fail(TypeError("string indices must be integers"))
      case Runs(runs) =>
        match Get(runs, "main")
        case None => Fail(KeyError("main"))
        case Some(main) => Ok(main)
  }

  /** The `if source not in source_code` block: the new caches and whether the loop goes
      on to the lines (`false` for each `continue`). */
  function Load(env: Env, cache: map<string, Cached>, src: string): (r: Result<(map<string, Cached>, bool)>)
    ensures r.Ok? && r.value.1 ==> src in r.value.0
  {
    if src in cache then Ok((cache, true))
    else
      match env.locate(src)
      case Missing => Ok((cache, false))
      case Collision => Fail(Exit(1))
      case Located(text) =>
        if Config.Blacklisted(BaseName(src), env.projectDir) then Ok((cache[src := RawText], false))
        else Ok((cache[src := Prepared(LineCount(RemoveStringsAndComments(text)), env.astOf(src))], true))
  }

  /** The caches and the buckets, threaded through the source loop. */
  datatype Sweep = Sweep(cache: map<string, Cached>, buckets: Buckets)

  /** One source of a configuration's `main` run. */
  function SourceStep(env: Env, level: Traces.Level, sw: Sweep, e: (string, Tracer.SourceLines)): Result<Sweep> {
    if Skipped(env, e.0) then Ok(sw)
    else
      var std :- StandardMain(level);
      if e.0 !in Keys(std) then Ok(sw)
      else
        var loaded :- Load(env, sw.cache, e.0);
        var cache := loaded.0;
        if !loaded.1 then Ok(Sweep(cache, sw.buckets))
        else
          match cache[e.0]
          case RawText => Fail(KeyError(e.0))
          case Prepared(n, tree) =>
            var b :- Steps(sw.buckets, e.1, LineStepOf(e.0, n, tree));
            Ok(Sweep(cache, b))
  }

  function SourceStepOf(env: Env, level: Traces.Level): (Sweep, (string, Tracer.SourceLines)) -> Result<Sweep> {
    (sw: Sweep, e: (string, Tracer.SourceLines)) => SourceStep(env, level, sw, e)
  }

  /** One configuration: fresh buckets, left empty for a configuration that shares the
      standard build's code. */
  function ConfigStep(env: Env, level: Traces.Level, cache: map<string, Cached>, entry: Traces.Entry): Result<Sweep> {
    match entry.variables
    case AsStandard => Ok(Sweep(cache, NoBuckets))
    case Runs(runs) =>
      match Get(runs, "main")
      case None => Fail(KeyError("main"))
      case Some(main) => Steps(Sweep(cache, NoBuckets), main, SourceStepOf(env, level))
  }

  /** The caches and the buckets of the configurations of one level so far. */
  datatype LevelSweep = LevelSweep(cache: map<string, Cached>, configs: Dict<string, Buckets>)

  function ConfigsStep(env: Env, level: Traces.Level, s: LevelSweep, c: (string, Traces.Entry)): Result<LevelSweep> {
    var sw :- ConfigStep(env, level, s.cache, c.1);
    Ok(LevelSweep(sw.cache, Put(s.configs, c.0, sw.buckets)))
  }

  function ConfigsStepOf(env: Env, level: Traces.Level): (LevelSweep, (string, Traces.Entry)) -> Result<LevelSweep> {
    (s: LevelSweep, c: (string, Traces.Entry)) => ConfigsStep(env, level, s, c)
  }

  /** The caches and every level's buckets so far. */
  datatype Run = Run(cache: map<string, Cached>, levels: Dict<string, Dict<string, Buckets>>)

  function LevelStep(env: Env, s: Run, l: (string, Traces.Level)): Result<Run> {
    var ls :- Steps(LevelSweep(s.cache, []), l.1, ConfigsStepOf(env, l.1));
    Ok(Run(ls.cache, Put(s.levels, l.0, ls.configs)))
  }

  function LevelStepOf(env: Env): (Run, (string, Traces.Level)) -> Result<Run> {
    (s: Run, l: (string, Traces.Level)) => LevelStep(env, s, l)
  }

  /** The buckets of a configuration as emitted. */
  datatype ConfigVars = ConfigVars(notlive: seq<string>, total: seq<string>)

  /** `traces_polished["vars"][opt_level]`: the level's union and its configurations. */
  datatype LevelVars = LevelVars(total: seq<string>, configs: Dict<string, ConfigVars>)

  /** `traces_polished["lines"][opt_level]`. */
  datatype LevelLines = LevelLines(total: seq<string>, configs: Dict<string, seq<string>>)

  datatype Polished = Polished(vars: Dict<string, LevelVars>, lines: Dict<string, LevelLines>)

  /** `sorted(list(bucket))`: the distinct entries in increasing order. */
  function Sorted(xs: seq<string>): (r: seq<string>)
    ensures Ordering.Sorted(r, StrLess)
    ensures forall x :: x in r <==> x in xs
  {
    StrLessIsOrder();
    SortedSet(xs, StrLess)
  }

  /** The per-configuration `total` buckets of a level, and its `lines` buckets. */
  function VarTotals(configs: Dict<string, Buckets>): seq<seq<string>> {
    seq(|configs|, j requires 0 <= j < |configs| => configs[j].1.total)
  }

  function LineTotals(configs: Dict<string, Buckets>): seq<seq<string>> {
    seq(|configs|, j requires 0 <= j < |configs| => configs[j].1.lines)
  }

  function ConfigsVars(configs: Dict<string, Buckets>): Dict<string, ConfigVars> {
    seq(|configs|, j requires 0 <= j < |configs| => (configs[j].0, ConfigVars(Sorted(configs[j].1.notlive), Sorted(configs[j].1.total))))
  }

  function ConfigsLines(configs: Dict<string, Buckets>): Dict<string, seq<string>> {
    seq(|configs|, j requires 0 <= j < |configs| => (configs[j].0, Sorted(configs[j].1.lines)))
  }

  function VarsOf(configs: Dict<string, Buckets>): LevelVars {
    LevelVars(Sorted(Flat(VarTotals(configs))), ConfigsVars(configs))
  }

  function LinesOf(configs: Dict<string, Buckets>): LevelLines {
    LevelLines(Sorted(Flat(LineTotals(configs))), ConfigsLines(configs))
  }

  /** The conversion loops at the end: each level's union, then every bucket sorted. */
  function Convert(levels: Dict<string, Dict<string, Buckets>>): Polished {
    Polished(seq(|levels|, k requires 0 <= k < |levels| => (levels[k].0, VarsOf(levels[k].1))),
             seq(|levels|, k requires 0 <= k < |levels| => (levels[k].0, LinesOf(levels[k].1))))
  }

  /** `polish_traces(traces, compiler, ...)` on `traces["traces"][compiler]`. */
  function PolishSpec(env: Env, levels: Traces.Levels): Result<Polished> {
    var run :- Steps(Run(map[], []), levels, LevelStepOf(env));
    Ok(Convert(run.levels))
  }

  // ---------------------------------------------------------------------------------
  // The loops of polish_traces

  /** The loop over the available variables. */
  method ClassifyLoop(src: string, line: int, names: set<Option<string>>, b: Buckets, avail: seq<string>) returns (r: Buckets)
    ensures r == ClassifyAll(src, line, names, b, avail)
  {
    r := b;
    var i := 0;
    while i < |avail|
      invariant 0 <= i <= |avail|
      invariant r == ClassifyAll(src, line, names, b, avail[..i])
    {
      assert avail[..i + 1][..i] == avail[..i];
      var v := avail[i];
      if Some(v) !in names {
        r := r.(notlive := r.notlive + [VarKey(src, line, v)]);
      } else {
        r := r.(total := r.total + [VarKey(src, line, v)]);
      }
      i := i + 1;
    }
    assert avail[..i] == avail;
  }

  /** The body of the line loop. */
  method PolishLine(src: string, count: nat, tree: AstTree, b: Buckets, e: (string, Tracer.LineInfo)) returns (r: Result<Buckets>)
    ensures r == LineStep(src, count, tree, b, e)
  {
    var parsed := ParseLine(e.0);
    if parsed.Fail? {
      return Fail(parsed.fault);
    }
    var i := parsed.value;
    if !(-(count as int) <= i - 1 < count) {
      return Fail(IndexError("source_code[source][int(line) - 1]"));
    }
    var f := FunctionAt(tree.stmts, tree.functions, i);
    var live := LiveVarsAt(tree.stmts, tree.vars, tree.functions, i);
    if live.Fail? {
      return Fail(live.fault);
    }
    if f.None? {
      return Ok(b);
    }
    if live.value.None? {
      if e.1.available != [] {
        return Fail(TypeError("var not in None"));
      }
      return Ok(b.(lines := b.lines + [LineKey(src, i)]));
    }
    var c := ClassifyLoop(src, i, LiveNames(tree, live.value.value), b, e.1.available);
    r := Ok(c.(lines := c.lines + [LineKey(src, i)]));
  }

  /** The loop over the traced lines of a source. */
  method PolishLines(src: string, count: nat, tree: AstTree, b: Buckets, lines: Tracer.SourceLines) returns (r: Result<Buckets>)
    ensures r == Steps(b, lines, LineStepOf(src, count, tree))
  {
    var cur := b;
    var i := 0;
    while i < |lines|
      invariant 0 <= i <= |lines|
      invariant Steps(b, lines[..i], LineStepOf(src, count, tree)) == Ok(cur)
    {
      StepsNext(b, lines, LineStepOf(src, count, tree), i, cur);
      var next := PolishLine(src, count, tree, cur, lines[i]);
      if next.Fail? {
        StepsFail(b, lines, LineStepOf(src, count, tree), i + 1);
        return Fail(next.fault);
      }
      cur := next.value;
      i := i + 1;
    }
    assert lines[..i] == lines;
    r := Ok(cur);
  }

  /** The body of the source loop, with the file read, the blacklist and the caches. */
  method PolishSource(env: Env, level: Traces.Level, sw: Sweep, e: (string, Tracer.SourceLines)) returns (r: Result<Sweep>)
    ensures r == SourceStep(env, level, sw, e)
  {
    var src := e.0;
    if Skipped(env, src) {
      return Ok(sw);
    }
    var std := StandardMain(level);
    if std.Fail? {
      return Fail(std.fault);
    }
    if src !in Keys(std.value) {
      return Ok(sw);
    }
    var cache := sw.cache;
    if src !in cache {
      match env.locate(src) {
        case Missing =>
          return Ok(sw);
        case Collision =>
          return Fail(Exit(1));
        case Located(text) =>
          if Config.Blacklisted(BaseName(src), env.projectDir) {
            return Ok(Sweep(cache[src := RawText], sw.buckets));
          }
          cache := cache[src := Prepared(LineCount(RemoveStringsAndComments(text)), env.astOf(src))];
      }
    }
    assert Load(env, sw.cache, src) == Ok((cache, true));
    match cache[src] {
      case RawText =>
        return Fail(KeyError(src));
      case Prepared(n, tree) =>
        var b := PolishLines(src, n, tree, sw.buckets, e.1);
        if b.Fail? {
          return Fail(b.fault);
        }
        r := Ok(Sweep(cache, b.value));
    }
  }

  /** The loop over the sources of a configuration's `main` run. */
  method PolishSources(env: Env, level: Traces.Level, sw: Sweep, main: Tracer.Variables) returns (r: Result<Sweep>)
    ensures r == Steps(sw, main, SourceStepOf(env, level))
  {
    var cur := sw;
    var i := 0;
    while i < |main|
      invariant 0 <= i <= |main|
      invariant Steps(sw, main[..i], SourceStepOf(env, level)) == Ok(cur)
    {
      StepsNext(sw, main, SourceStepOf(env, level), i, cur);
      var next := PolishSource(env, level, cur, main[i]);
      if next.Fail? {
        StepsFail(sw, main, SourceStepOf(env, level), i + 1);
        return Fail(next.fault);
      }
      cur := next.value;
      i := i + 1;
    }
    assert main[..i] == main;
    r := Ok(cur);
  }

  /** The body of the configuration loop. */
  method PolishConfig(env: Env, level: Traces.Level, cache: map<string, Cached>, entry: Traces.Entry) returns (r: Result<Sweep>)
    ensures r == ConfigStep(env, level, cache, entry)
  {
    match entry.variables {
      case AsStandard =>
        r := Ok(Sweep(cache, NoBuckets));
      case Runs(runs) =>
        var main := Get(runs, "main");
        if main.None? {
          r := Fail(KeyError("main"));
        } else {
          r := PolishSources(env, level, Sweep(cache, NoBuckets), main.value);
        }
    }
  }

  /** The loop over the configurations of a level, then the level's entry. */
  method PolishLevel(env: Env, s: Run, l: (string, Traces.Level)) returns (r: Result<Run>)
    ensures r == LevelStep(env, s, l)
  {
    var level := l.1;
    var start := LevelSweep(s.cache, []);
    var cur := start;
    var i := 0;
    while i < |level|
      invariant 0 <= i <= |level|
      invariant Steps(start, level[..i], ConfigsStepOf(env, level)) == Ok(cur)
    {
      StepsNext(start, level, ConfigsStepOf(env, level), i, cur);
      var (dis, entry) := level[i];
      var sw := PolishConfig(env, level, cur.cache, entry);
      if sw.Fail? {
        StepsFail(start, level, ConfigsStepOf(env, level), i + 1);
        return Fail(sw.fault);
      }
      cur := LevelSweep(sw.value.cache, Put(cur.configs, dis, sw.value.buckets));
      i := i + 1;
    }
    assert level[..i] == level;
    r := Ok(Run(cur.cache, Put(s.levels, l.0, cur.configs)));
  }

  lemma FlatSnoc<T>(lists: seq<seq<T>>, xs: seq<T>)
    ensures Flat(lists + [xs]) == Flat(lists) + xs
  {
    assert (lists + [xs])[..|lists|] == lists;
  }

  lemma TotalsSnoc(configs: Dict<string, Buckets>, j: nat)
    requires j < |configs|
    ensures Flat(VarTotals(configs[..j + 1])) == Flat(VarTotals(configs[..j])) + configs[j].1.total
    ensures Flat(LineTotals(configs[..j + 1])) == Flat(LineTotals(configs[..j])) + configs[j].1.lines
  {
    assert VarTotals(configs[..j + 1]) == VarTotals(configs[..j]) + [configs[j].1.total];
    assert LineTotals(configs[..j + 1]) == LineTotals(configs[..j]) + [configs[j].1.lines];
    FlatSnoc(VarTotals(configs[..j]), configs[j].1.total);
    FlatSnoc(LineTotals(configs[..j]), configs[j].1.lines);
    assert ConfigsVars(configs[..j + 1]) == ConfigsVars(configs[..j]) + [(configs[j].0, ConfigVars(Sorted(configs[j].1.notlive), Sorted(configs[j].1.total)))];
    assert ConfigsLines(configs[..j + 1]) == ConfigsLines(configs[..j]) + [(configs[j].0, Sorted(configs[j].1.lines))];
  }

  /** The buckets of one configuration, sorted. */
  method ConvertConfig(b: Buckets) returns (c: ConfigVars, lines: seq<string>)
    ensures c == ConfigVars(Sorted(b.notlive), Sorted(b.total)) && lines == Sorted(b.lines)
  {
    StrLessIsOrder();
    var notlive := SortUnique(b.notlive, StrLess);
    var total := SortUnique(b.total, StrLess);
    c := ConfigVars(notlive, total);
    lines := SortUnique(b.lines, StrLess);
  }

  /** The conversion of one level: the union of the buckets, every bucket sorted. */
  method ConvertLevel(configs: Dict<string, Buckets>) returns (lv: LevelVars, ll: LevelLines)
    ensures lv == VarsOf(configs) && ll == LinesOf(configs)
  {
    StrLessIsOrder();
    var vars: seq<string> := [];
    var lines: seq<string> := [];
    var cv: Dict<string, ConfigVars> := [];
    var cl: Dict<string, seq<string>> := [];
    var j := 0;
    assert configs[..0] == [];
    while j < |configs|
      invariant 0 <= j <= |configs|
      invariant vars == Flat(VarTotals(configs[..j])) && lines == Flat(LineTotals(configs[..j]))
      invariant cv == ConfigsVars(configs[..j]) && cl == ConfigsLines(configs[..j])
    {
      var (dis, b) := configs[j];
      TotalsSnoc(configs, j);
      vars := vars + b.total;
      lines := lines + b.lines;
      var c, bl := ConvertConfig(b);
      cv := cv + [(dis, c)];
      cl := cl + [(dis, bl)];
      j := j + 1;
    }
    assert configs[..j] == configs;
    var vt := SortUnique(vars, StrLess);
    var lt := SortUnique(lines, StrLess);
    lv := LevelVars(vt, cv);
    ll := LevelLines(lt, cl);
  }

  /** The conversion loops. */
  method ConvertLevels(levels: Dict<string, Dict<string, Buckets>>) returns (p: Polished)
    ensures p == Convert(levels)
  {
    var vars: Dict<string, LevelVars> := [];
    var lines: Dict<string, LevelLines> := [];
    var k := 0;
    while k < |levels|
      invariant 0 <= k <= |levels|
      invariant |vars| == k && forall m :: 0 <= m < k ==> vars[m] == (levels[m].0, VarsOf(levels[m].1))
      invariant |lines| == k && forall m :: 0 <= m < k ==> lines[m] == (levels[m].0, LinesOf(levels[m].1))
    {
      var lv, ll := ConvertLevel(levels[k].1);
      vars := vars + [(levels[k].0, lv)];
      lines := lines + [(levels[k].0, ll)];
      k := k + 1;
    }
    p := Polished(vars, lines);
  }

  /** `polish_traces`: the level loop, then the conversion. */
  method PolishTraces(env: Env, levels: Traces.Levels) returns (r: Result<Polished>)
    ensures r == PolishSpec(env, levels)
  {
    var start := Run(map[], []);
    var cur := start;
    var i := 0;
    while i < |levels|
      invariant 0 <= i <= |levels|
      invariant Steps(start, levels[..i], LevelStepOf(env)) == Ok(cur)
    {
      StepsNext(start, levels, LevelStepOf(env), i, cur);
      var next := PolishLevel(env, cur, levels[i]);
      if next.Fail? {
        StepsFail(start, levels, LevelStepOf(env), i + 1);
        return Fail(next.fault);
      }
      cur := next.value;
      i := i + 1;
    }
    assert levels[..i] == levels;
    var p := ConvertLevels(cur.levels);
    r := Ok(p);
  }

  // ---------------------------------------------------------------------------------
  // What polish_traces promises

  /** The variable loop puts every available variable into `notlive` when its name is
      not live and into `total` when it is, and adds nothing else. */
  lemma {:induction false} ClassifyAllSpec(src: string, line: int, names: set<Option<string>>, b: Buckets, avail: seq<string>)
    ensures ClassifyAll(src, line, names, b, avail).lines == b.lines
    ensures forall x :: x in ClassifyAll(src, line, names, b, avail).notlive <==>
              x in b.notlive || exists v :: v in avail && Some(v) !in names && x == VarKey(src, line, v)
    ensures forall x :: x in ClassifyAll(src, line, names, b, avail).total <==>
              x in b.total || exists v :: v in avail && Some(v) in names && x == VarKey(src, line, v)
  {
    if avail != [] {
      var init, v := avail[..|avail| - 1], avail[|avail| - 1];
      ClassifyAllSpec(src, line, names, b, init);
      assert avail == init + [v];
      forall w ensures w in avail <==> w in init || w == v { }
    }
  }

  /** Each available variable of a processed line lands in exactly one of the buckets. */
  lemma ClassifyExactlyOne(src: string, line: int, names: set<Option<string>>, b: Buckets, avail: seq<string>, v: string)
    requires v in avail && VarKey(src, line, v) !in b.notlive && VarKey(src, line, v) !in b.total
    ensures VarKey(src, line, v) in ClassifyAll(src, line, names, b, avail).notlive <==> Some(v) !in names
    ensures VarKey(src, line, v) in ClassifyAll(src, line, names, b, avail).total <==> Some(v) in names
  {
    ClassifyAllSpec(src, line, names, b, avail);
    forall w | VarKey(src, line, v) == VarKey(src, line, w) ensures w == v {
      VarKeyInjective(src, line, v, w);
    }
  }

  /** A line raises exactly when its text is not an integer, its number is outside the
      cleaned source, the live-variable query raises, or a function encloses the line
      but has no live set while the line has variables to test. */
  lemma LineFaults(src: string, count: nat, tree: AstTree, b: Buckets, e: (string, Tracer.LineInfo))
    ensures LineStep(src, count, tree, b, e).Fail? <==>
              PyInt(e.0).None? ||
              (var i := PyInt(e.0).value;
               !(-(count as int) <= i - 1 < count) ||
               LiveVarsAt(tree.stmts, tree.vars, tree.functions, i).Fail? ||
               (FunctionAt(tree.stmts, tree.functions, i).Some? &&
                LiveVarsAt(tree.stmts, tree.vars, tree.functions, i) == Ok(None) && e.1.available != []))
  {
  }

  /** A line that no function encloses adds nothing; a mismatch between the traced and
      the enclosing function is not an error. */
  lemma LineNoFunction(src: string, count: nat, tree: AstTree, b: Buckets, e: (string, Tracer.LineInfo), i: int)
    requires PyInt(e.0) == Some(i) && -(count as int) <= i - 1 < count
    requires FunctionAt(tree.stmts, tree.functions, i).None?
    ensures LineStep(src, count, tree, b, e) == Ok(b)
  {
    assert LiveVarsAt(tree.stmts, tree.vars, tree.functions, i) == Ok(None);
  }

  /** A processed line: its entry goes into `lines`, and every available variable into
      `notlive` or `total` by whether its name is live. */
  lemma LineClassified(src: string, count: nat, tree: AstTree, b: Buckets, e: (string, Tracer.LineInfo), i: int, live: set<nat>)
    requires PyInt(e.0) == Some(i) && -(count as int) <= i - 1 < count
    requires FunctionAt(tree.stmts, tree.functions, i).Some?
    requires LiveVarsAt(tree.stmts, tree.vars, tree.functions, i) == Ok(Some(live))
    ensures LineStep(src, count, tree, b, e).Ok?
    ensures LineStep(src, count, tree, b, e).value.lines == b.lines + [LineKey(src, i)]
    ensures forall x :: x in LineStep(src, count, tree, b, e).value.notlive <==>
              x in b.notlive || exists v :: v in e.1.available && Some(v) !in LiveNames(tree, live) && x == VarKey(src, i, v)
    ensures forall x :: x in LineStep(src, count, tree, b, e).value.total <==>
              x in b.total || exists v :: v in e.1.available && Some(v) in LiveNames(tree, live) && x == VarKey(src, i, v)
  {
    ClassifyAllSpec(src, i, LiveNames(tree, live), b, e.1.available);
  }

  /** The second hazard: an enclosing function whose statement lookup finds nothing has
      no live set, and the membership test on `None` raises TypeError at the first
      variable. A line without variables is still counted. */
  lemma LineLiveNone(src: string, count: nat, tree: AstTree, b: Buckets, e: (string, Tracer.LineInfo), i: int)
    requires PyInt(e.0) == Some(i) && -(count as int) <= i - 1 < count
    requires FunctionAt(tree.stmts, tree.functions, i).Some?
    requires LiveVarsAt(tree.stmts, tree.vars, tree.functions, i) == Ok(None)
    ensures e.1.available != [] ==> LineStep(src, count, tree, b, e) == Fail(TypeError("var not in None"))
    ensures e.1.available == [] ==> LineStep(src, count, tree, b, e) == Ok(b.(lines := b.lines + [LineKey(src, i)]))
  {
  }

  /** The lines of a source only ever add to the buckets. */
  lemma {:induction false} LinesGrow(src: string, count: nat, tree: AstTree, b: Buckets, lines: Tracer.SourceLines)
    requires Steps(b, lines, LineStepOf(src, count, tree)).Ok?
    ensures var r := Steps(b, lines, LineStepOf(src, count, tree)).value;
            (forall x :: x in b.notlive ==> x in r.notlive) && (forall x :: x in b.total ==> x in r.total) &&
            (forall x :: x in b.lines ==> x in r.lines)
  {
    if lines != [] {
      var init := lines[..|lines| - 1];
      LinesGrow(src, count, tree, b, init);
      var mid := Steps(b, init, LineStepOf(src, count, tree)).value;
      var e := lines[|lines| - 1];
      var i := PyInt(e.0).value;
      var live := LiveVarsAt(tree.stmts, tree.vars, tree.functions, i).value;
      if FunctionAt(tree.stmts, tree.functions, i).Some? && live.Some? {
        ClassifyAllSpec(src, i, LiveNames(tree, live.value), mid, e.1.available);
      }
    }
  }

  /** A source changes no bucket unless it passes the filters: not a fuzzing harness,
      inside the project, traced by the level's standard build, found, and not
      blacklisted; and then its cleaned text and AST are cached. */
  lemma SourceContributes(env: Env, level: Traces.Level, sw: Sweep, e: (string, Tracer.SourceLines))
    requires SourceStep(env, level, sw, e).Ok?
    requires SourceStep(env, level, sw, e).value.buckets != sw.buckets
    ensures !Skipped(env, e.0)
    ensures StandardMain(level).Ok? && e.0 in Keys(StandardMain(level).value)
    ensures e.0 in SourceStep(env, level, sw, e).value.cache && SourceStep(env, level, sw, e).value.cache[e.0].Prepared?
    ensures e.0 in sw.cache ==> sw.cache[e.0].Prepared?
  {
  }

  /** The first hazard: a blacklisted source is read and cached as raw text and skipped.
      The next configuration of any level that reaches the same source finds it cached
      but has no AST for it, and raises KeyError. */
  lemma BlacklistHazard(env: Env, level: Traces.Level, other: Traces.Level, sw: Sweep, e: (string, Tracer.SourceLines),
                        e': (string, Tracer.SourceLines), b: Buckets)
    requires e'.0 == e.0 && !Skipped(env, e.0) && e.0 !in sw.cache
    requires StandardMain(level).Ok? && e.0 in Keys(StandardMain(level).value)
    requires StandardMain(other).Ok? && e.0 in Keys(StandardMain(other).value)
    requires env.locate(e.0).Located? && Config.Blacklisted(BaseName(e.0), env.projectDir)
    ensures SourceStep(env, level, sw, e) == Ok(Sweep(sw.cache[e.0 := RawText], sw.buckets))
    ensures SourceStep(env, other, Sweep(sw.cache[e.0 := RawText], b), e') == Fail(KeyError(e.0))
  {
  }

  /** Over a configuration loop whose levels' keys are distinct, the result has one entry
      per configuration, in order; a configuration that shares the standard build's code
      has empty buckets. */
  lemma {:induction false} ConfigsFold(env: Env, level: Traces.Level, cache: map<string, Cached>, cs: Traces.Level)
    requires Distinct(Keys(cs))
    requires Steps(LevelSweep(cache, []), cs, ConfigsStepOf(env, level)).Ok?
    ensures var s := Steps(LevelSweep(cache, []), cs, ConfigsStepOf(env, level)).value;
            Keys(s.configs) == Keys(cs) &&
            forall k :: 0 <= k < |cs| && cs[k].1.variables.AsStandard? ==> s.configs[k].1 == NoBuckets
  {
    if cs != [] {
      var init, last := cs[..|cs| - 1], cs[|cs| - 1];
      var step := ConfigsStepOf(env, level);
      StepsSnoc(LevelSweep(cache, []), cs, step);
      LastKeyFresh(cs);
      ConfigsFold(env, level, cache, init);
      var mid := Steps(LevelSweep(cache, []), init, step).value;
      assert step(mid, last) == ConfigsStep(env, level, mid, last);
      var s := ConfigsStep(env, level, mid, last).value;
      ConfigsAppend(env, level, mid, last);
      KeysSnoc(init, last);
      forall k | 0 <= k < |cs| && cs[k].1.variables.AsStandard? ensures s.configs[k].1 == NoBuckets {
        if k < |init| {
          assert cs[k] == init[k] && s.configs[k] == mid.configs[k];
        }
      }
    }
  }

  /** One configuration of a new key appends its buckets. */
  lemma ConfigsAppend(env: Env, level: Traces.Level, mid: LevelSweep, last: (string, Traces.Entry))
    requires last.0 !in Keys(mid.configs) && ConfigsStep(env, level, mid, last).Ok?
    ensures var s := ConfigsStep(env, level, mid, last).value;
            |s.configs| == |mid.configs| + 1 && s.configs[..|mid.configs|] == mid.configs &&
            Keys(s.configs) == Keys(mid.configs) + [last.0] &&
            (last.1.variables.AsStandard? ==> s.configs[|mid.configs|].1 == NoBuckets)
  {
    var sw := ConfigStep(env, level, mid.cache, last.1).value;
    PutNew(mid.configs, last.0, sw.buckets);
    KeysSnoc(mid.configs, (last.0, sw.buckets));
  }

  /** `configs` is what the configuration loop of `level` builds from some cache. */
  ghost predicate ConfigsOutcome(env: Env, level: Traces.Level, configs: Dict<string, Buckets>) {
    exists c: map<string, Cached>, c': map<string, Cached> ::
      Steps(LevelSweep(c, []), level, ConfigsStepOf(env, level)) == Ok(LevelSweep(c', configs))
  }

  /** Over levels with distinct keys, the level loop has one entry per level, in order,
      each built by that level's configuration loop. */
  lemma {:induction false} LevelsFold(env: Env, cache: map<string, Cached>, ls: Traces.Levels)
    requires Distinct(Keys(ls))
    requires Steps(Run(cache, []), ls, LevelStepOf(env)).Ok?
    ensures var r := Steps(Run(cache, []), ls, LevelStepOf(env)).value;
            Keys(r.levels) == Keys(ls) &&
            forall k :: 0 <= k < |ls| ==> ConfigsOutcome(env, ls[k].1, r.levels[k].1)
  {
    if ls != [] {
      var init, last := ls[..|ls| - 1], ls[|ls| - 1];
      var step := LevelStepOf(env);
      StepsSnoc(Run(cache, []), ls, step);
      LastKeyFresh(ls);
      LevelsFold(env, cache, init);
      var mid := Steps(Run(cache, []), init, step).value;
      assert step(mid, last) == LevelStep(env, mid, last);
      var r := LevelStep(env, mid, last).value;
      LevelAppend(env, mid, last);
      KeysSnoc(init, last);
      OutcomesSnoc(env, ls, mid.levels, r.levels);
    }
  }

  /** The outcomes of the earlier levels stay as they were when one more level is appended. */
  lemma OutcomesSnoc(env: Env, ls: Traces.Levels, before: Dict<string, Dict<string, Buckets>>, after: Dict<string, Dict<string, Buckets>>)
    requires ls != [] && |before| == |ls| - 1 && |after| == |ls| && after[..|before|] == before
    requires forall k :: 0 <= k < |before| ==> ConfigsOutcome(env, ls[..|ls| - 1][k].1, before[k].1)
    requires ConfigsOutcome(env, ls[|ls| - 1].1, after[|before|].1)
    ensures forall k :: 0 <= k < |ls| ==> ConfigsOutcome(env, ls[k].1, after[k].1)
  {
    forall k | 0 <= k < |ls| ensures ConfigsOutcome(env, ls[k].1, after[k].1) {
      if k < |before| {
        assert ls[..|ls| - 1][k] == ls[k] && after[k] == before[k];
      }
    }
  }

  /** One level of a new key appends its configurations. */
  lemma LevelAppend(env: Env, mid: Run, last: (string, Traces.Level))
    requires last.0 !in Keys(mid.levels) && LevelStep(env, mid, last).Ok?
    ensures var s := LevelStep(env, mid, last).value;
            |s.levels| == |mid.levels| + 1 && s.levels[..|mid.levels|] == mid.levels &&
            Keys(s.levels) == Keys(mid.levels) + [last.0] &&
            ConfigsOutcome(env, last.1, s.levels[|mid.levels|].1)
  {
    var ls := Steps(LevelSweep(mid.cache, []), last.1, ConfigsStepOf(env, last.1)).value;
    PutNew(mid.levels, last.0, ls.configs);
    KeysSnoc(mid.levels, (last.0, ls.configs));
  }

  /** The emitted buckets: per level, the sorted union of the configurations' `total`
      buckets (a `notlive` entry counts only if some configuration has it in `total`),
      and every configuration's buckets sorted, in the configurations' order. */
  lemma ConvertSpec(levels: Dict<string, Dict<string, Buckets>>, k: nat)
    requires k < |levels|
    ensures var p, configs := Convert(levels), levels[k].1;
            |p.vars| == |p.lines| == |levels| && p.vars[k].0 == p.lines[k].0 == levels[k].0 &&
            Ordering.Sorted(p.vars[k].1.total, StrLess) && Ordering.Sorted(p.lines[k].1.total, StrLess) &&
            (forall x :: x in p.vars[k].1.total <==> exists j :: 0 <= j < |configs| && x in configs[j].1.total) &&
            (forall x :: x in p.lines[k].1.total <==> exists j :: 0 <= j < |configs| && x in configs[j].1.lines) &&
            Keys(p.vars[k].1.configs) == Keys(configs) && Keys(p.lines[k].1.configs) == Keys(configs) &&
            forall j :: 0 <= j < |configs| ==>
              (forall x :: x in p.vars[k].1.configs[j].1.notlive <==> x in configs[j].1.notlive) &&
              (forall x :: x in p.vars[k].1.configs[j].1.total <==> x in configs[j].1.total) &&
              (forall x :: x in p.lines[k].1.configs[j].1 <==> x in configs[j].1.lines)
  {
    FlatVarTotals(levels[k].1);
    FlatLineTotals(levels[k].1);
  }

  /** An element is in some configuration's `total` exactly when it is in their union. */
  lemma FlatVarTotals(configs: Dict<string, Buckets>)
    ensures forall x :: x in Flat(VarTotals(configs)) <==> exists j :: 0 <= j < |configs| && x in configs[j].1.total
  {
    forall x ensures x in Flat(VarTotals(configs)) <==> exists j :: 0 <= j < |configs| && x in configs[j].1.total {
      FlatMember(VarTotals(configs), x);
      if x in Flat(VarTotals(configs)) {
        var j :| 0 <= j < |configs| && x in VarTotals(configs)[j];
        assert x in configs[j].1.total;
      }
      if exists j :: 0 <= j < |configs| && x in configs[j].1.total {
        var j :| 0 <= j < |configs| && x in configs[j].1.total;
        assert x in VarTotals(configs)[j];
      }
    }
  }

  /** A line is in some configuration's `lines` exactly when it is in their union. */
  lemma FlatLineTotals(configs: Dict<string, Buckets>)
    ensures forall x :: x in Flat(LineTotals(configs)) <==> exists j :: 0 <= j < |configs| && x in configs[j].1.lines
  {
    forall x ensures x in Flat(LineTotals(configs)) <==> exists j :: 0 <= j < |configs| && x in configs[j].1.lines {
      FlatMember(LineTotals(configs), x);
      if x in Flat(LineTotals(configs)) {
        var j :| 0 <= j < |configs| && x in LineTotals(configs)[j];
        assert x in configs[j].1.lines;
      }
      if exists j :: 0 <= j < |configs| && x in configs[j].1.lines {
        var j :| 0 <= j < |configs| && x in configs[j].1.lines;
        assert x in LineTotals(configs)[j];
      }
    }
  }

  /** At the end of a run over dictionaries (distinct keys): one emitted entry per level
      and per configuration, in order, and empty buckets for every configuration that
      shares the standard build's code. */
  lemma PolishShape(env: Env, levels: Traces.Levels)
    requires Distinct(Keys(levels)) && forall k :: 0 <= k < |levels| ==> Distinct(Keys(levels[k].1))
    requires PolishSpec(env, levels).Ok?
    ensures var p := PolishSpec(env, levels).value;
            Keys(p.vars) == Keys(levels) && Keys(p.lines) == Keys(levels) &&
            forall k :: 0 <= k < |levels| ==>
              Keys(p.vars[k].1.configs) == Keys(levels[k].1) && Keys(p.lines[k].1.configs) == Keys(levels[k].1) &&
              forall j :: 0 <= j < |levels[k].1| && levels[k].1[j].1.variables.AsStandard? ==>
                p.vars[k].1.configs[j].1 == ConfigVars([], []) && p.lines[k].1.configs[j].1 == []
  {
    LevelsFold(env, map[], levels);
    var run := Steps(Run(map[], []), levels, LevelStepOf(env)).value;
    var p := Convert(run.levels);
    assert Keys(p.vars) == Keys(levels) && Keys(p.lines) == Keys(levels) by {
      assert Keys(p.vars) == Keys(run.levels) && Keys(p.lines) == Keys(run.levels);
    }
    forall k | 0 <= k < |levels|
      ensures Keys(p.vars[k].1.configs) == Keys(levels[k].1) && Keys(p.lines[k].1.configs) == Keys(levels[k].1)
      ensures forall j :: 0 <= j < |levels[k].1| && levels[k].1[j].1.variables.AsStandard? ==>
                p.vars[k].1.configs[j].1 == ConfigVars([], []) && p.lines[k].1.configs[j].1 == []
    {
      assert p.vars[k].1 == VarsOf(run.levels[k].1) && p.lines[k].1 == LinesOf(run.levels[k].1);
      OutcomeBuckets(env, levels[k].1, run.levels[k].1);
      LevelShape(levels[k].1, run.levels[k].1);
    }
  }

  /** A level built by the configuration loop has one entry per configuration, empty for
      those that share the standard build's code. */
  lemma OutcomeBuckets(env: Env, level: Traces.Level, configs: Dict<string, Buckets>)
    requires Distinct(Keys(level)) && ConfigsOutcome(env, level, configs)
    ensures Keys(configs) == Keys(level)
    ensures forall k :: 0 <= k < |level| && level[k].1.variables.AsStandard? ==> configs[k].1 == NoBuckets
  {
    var c, c' :| Steps(LevelSweep(c, []), level, ConfigsStepOf(env, level)) == Ok(LevelSweep(c', configs));
    ConfigsFold(env, level, c, level);
  }

  /** The emitted configurations of one level. */
  lemma LevelShape(level: Traces.Level, configs: Dict<string, Buckets>)
    requires Keys(configs) == Keys(level)
    requires forall k :: 0 <= k < |level| && level[k].1.variables.AsStandard? ==> configs[k].1 == NoBuckets
    ensures Keys(VarsOf(configs).configs) == Keys(level) && Keys(LinesOf(configs).configs) == Keys(level)
    ensures forall j :: 0 <= j < |level| && level[j].1.variables.AsStandard? ==>
              VarsOf(configs).configs[j].1 == ConfigVars([], []) && LinesOf(configs).configs[j].1 == []
  {
    ConfigsKeys(configs);
    forall j | 0 <= j < |level| && level[j].1.variables.AsStandard?
      ensures VarsOf(configs).configs[j].1 == ConfigVars([], []) && LinesOf(configs).configs[j].1 == []
    {
      ConfigsEmpty(configs, j);
    }
  }

  lemma ConfigsEmpty(configs: Dict<string, Buckets>, j: nat)
    requires j < |configs| && configs[j].1 == NoBuckets
    ensures ConfigsVars(configs)[j].1 == ConfigVars([], []) && ConfigsLines(configs)[j].1 == []
  {
    SortedEmpty();
  }

  lemma ConfigsKeys(configs: Dict<string, Buckets>)
    ensures Keys(ConfigsVars(configs)) == Keys(configs) && Keys(ConfigsLines(configs)) == Keys(configs)
  {
    assert forall j :: 0 <= j < |configs| ==> Keys(ConfigsVars(configs))[j] == Keys(configs)[j];
    assert forall j :: 0 <= j < |configs| ==> Keys(ConfigsLines(configs))[j] == Keys(configs)[j];
  }

  lemma SortedEmpty()
    ensures Sorted([]) == []
  {
  }
}
