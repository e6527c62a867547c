/** `parse_trace`: the scanner that turns a gdb or lldb transcript into, per source file
    and line, the variables the debugger showed as available, optimized out or (lldb
    only) not available, followed by a clean-up pass over every entry. */
module Tracer {
  import opened Common
  import opened PyStr
  import opened ODict
  import opened Ordering

  /** The record of one stop: `{"available": [...], "optimized_out": [...],
      "not_available": [...], "function": ...}`; gdb records have no `not_available`. */
  datatype LineInfo = LineInfo(
    available: seq<string>,
    optimizedOut: seq<string>,
    notAvailable: Option<seq<string>>,
    func: string)

  /** Line number (as the text the debugger printed) to record. */
  type SourceLines = Dict<string, LineInfo>

  /** Source path to its lines: the `variables` result. */
  type Variables = Dict<string, SourceLines>

  /** Function to variable types: the `functions` result. */
  type Functions = Dict<string, Dict<string, string>>

  /** What `parse_trace` returns: -1 for a crashed run, or the pair of results. */
  datatype Parsed = Crashed | Parsed(variables: Variables, functions: Functions)

  /** The scanner's locals: the output so far, `current_line` (`None` and `False` are both
      `None` here, the only use of either is as false) and `current_source`. */
  datatype ScanState = ScanState(output: Variables, line: Option<string>, source: Option<string>)

  /** The result of scanning some lines: a crash marker was met, or the state so far. */
  datatype Outcome = Crash | Running(st: ScanState)

  const GdbCrash: string := "Program received signal SIGSEGV, Segmentation fault."
  const LldbCrash: string := "stop reason = signal SIGSEGV"

  /** The bucket a variable line adds to. */
  datatype Bucket = Available | OptimizedOut | NotAvailable

  /** Python truthiness of `current_line`. */
  predicate Truthy(line: Option<string>) {
    line.Some? && line.value != []
  }

  /** `PurePosixPath(p).as_posix()`: empty and `.` components are dropped; a leading `//`
      (exactly two slashes) is kept, any other run of leading slashes becomes `/`; the
      empty relative path is `.`. */
  function AsPosix(p: string): string {
    var root := if StartsWith(p, "//") && !StartsWith(p, "///") then "//"
                else if StartsWith(p, "/") then "/" else "";
    var parts := Components(Split(p, "/"));
    var body := if parts == [] then "" else Join(parts, "/");
    if root == [] && body == [] then "." else root + body
  }

  /** The path components that survive: neither empty nor `.`. */
  function Components(pieces: seq<string>): (r: seq<string>)
    ensures forall k :: 0 <= k < |r| ==> r[k] != "" && r[k] != "."
  {
    if pieces == [] then []
    else (if pieces[0] == "" || pieces[0] == "." then [] else [pieces[0]]) + Components(pieces[1..])
  }

  /** The record for `(src, ln)`, created as `blank` if missing, with its function set. */
  function Touch(out: Variables, src: string, ln: string, blank: LineInfo, f: string): Variables {
    var lines := Get(out, src).GetOr([]);
    var entry := Get(lines, ln).GetOr(blank);
    Put(out, src, Put(lines, ln, entry.(func := f)))
  }

  /** `entry[bucket].append(name)`; with `once`, only when the name is not there yet. */
  function AddTo(e: LineInfo, b: Bucket, name: string, once: bool): Result<LineInfo> {
    match b
    case Available => Ok(if once && name in e.available then e else e.(available := e.available + [name]))
    case OptimizedOut => Ok(e.(optimizedOut := e.optimizedOut + [name]))
    case NotAvailable =>
      if e.notAvailable.None? then Fail(KeyError("not_available"))
      else Ok(e.(notAvailable := Some(e.notAvailable.value + [name])))
  }

  /** `output[current_source][current_line][bucket].append(name)`. */
  function AddVar(st: ScanState, b: Bucket, name: string, once: bool): Result<ScanState>
    requires Truthy(st.line)
  {
    if st.source.None? then Fail(UnboundLocal("current_source"))
    else
      var src := st.source.value;
      var ln := st.line.value;
      match Get(st.output, src)
      case None => Fail(KeyError(src))
      case Some(lines) =>
        match Get(lines, ln)
        case None => Fail(KeyError(ln))
        case Some(e) =>
          var e' :- AddTo(e, b, name, once);
          Ok(st.(output := Put(st.output, src, Put(lines, ln, e'))))
  }

  predicate IsBrace(s: string) {
    s == "{" || s == "}"
  }

  // ---------------------------------------------------------------- gdb

  /** Lines gdb prints that carry nothing for the scanner. */
  predicate GdbNoise(l: string) {
    Contains(l, "No locals") || Contains(l, "Inferior") || Contains(l, "Temporary") ||
    Contains(l, "Reading") || SplitWs(l) == []
  }

  /** The line before line `i`, Python's `trace_lines[i - 1]` (the last line when `i` is 0). */
  function Preceding(lines: seq<string>, i: nat): string
    requires i < |lines|
  {
    if i == 0 then lines[|lines| - 1] else lines[i - 1]
  }

  /** The source named by a stop line: the path before the first `:` of its last token. */
  function GdbSourceOf(prev: string): Result<string> {
    var toks := SplitWs(prev);
    if toks == [] then Fail(IndexError("trace_lines[i - 1].split()[-1]"))
    else Ok(AsPosix(Split(toks[|toks| - 1], ":")[0]))
  }

  /** The function named by a stop line: the first token after its first `, `. */
  function GdbFunctionOf(prev: string): Result<string> {
    var parts := SplitOnce(prev, ", ");
    if |parts| < 2 then Fail(IndexError("trace_lines[i - 1].split(\", \", maxsplit=1)[1]"))
    else
      var toks := SplitWs(parts[1]);
      if toks == [] then Fail(IndexError("split()[0]")) else Ok(toks[0])
  }

  /** A `<line number> <instruction>` line (its first token is numeric). */
  function GdbNumbered(lines: seq<string>, i: nat, st: ScanState, l: string): Result<ScanState>
    requires i < |lines| && |SplitWs(l)| >= 1
  {
    var toks := SplitWs(l);
    if |toks| == 1 then Ok(st)
    else
      SplitWsOnceTwo(l);
      var instruction := SplitWsOnce(l)[1];
      if IsBrace(instruction) then Ok(st.(line := None))
      else
        var src :- GdbSourceOf(Preceding(lines, i));
        var f :- GdbFunctionOf(Preceding(lines, i));
        var blank := LineInfo([], [], None, "");
        Ok(ScanState(Touch(st.output, src, toks[0], blank, f), Some(toks[0]), Some(src)))
  }

  /** A `<name> = <value>` line: split at the first ` = `. */
  function GdbVar(st: ScanState, l: string): Result<ScanState>
    requires Truthy(st.line)
  {
    var parts := SplitOnce(l, " = ");
    var name := parts[0];
    var value := parts[|parts| - 1];
    if value == "<optimized out>" then AddVar(st, OptimizedOut, name, false)
    else AddVar(st, Available, name, true)
  }

  /** One line of a gdb transcript. */
  function GdbStep(lines: seq<string>, i: nat, st: ScanState): Result<ScanState>
    requires i < |lines|
  {
    var l := Strip(lines[i]);
    if GdbNoise(l) then Ok(st)
    else if IsDigits(SplitWs(l)[0]) then GdbNumbered(lines, i, st, l)
    else if Truthy(st.line) && Contains(l, " = ") then GdbVar(st, l)
    else Ok(st)
  }

  // ---------------------------------------------------------------- lldb

  /** Lines lldb prints that carry nothing for the scanner. */
  predicate LldbNoise(l: string) {
    Contains(l, "lldb") || Contains(l, "Current") || Contains(l, "Breakpoint") ||
    Contains(l, "Process") || Contains(l, "Command") || SplitWs(l) == []
  }

  /** Lines starting with `[` or `*` are skipped unless they hold the locals report. */
  predicate LldbBracketed(l: string) {
    (StartsWith(l, "[") || StartsWith(l, "*")) && !Contains(l, "[+] Locals type analysis: ")
  }

  /** `re.match(r"^frame #\d:.*", l)`: `frame #`, one digit, then `:`. */
  predicate IsFrameLine(l: string) {
    |l| >= 9 && l[..7] == "frame #" && IsDigit(l[7]) && l[8] == ':'
  }

  /** `" ".join(s.split()[2:])`: the words after the first two. */
  function WordsFromThird(s: string): string {
    var w := SplitWs(s);
    if |w| <= 2 then "" else Join(w[2..], " ")
  }

  /** The token of a frame line holding `source:line`: token 5, or token 7 when the frame
      is inlined. */
  function FrameToken(l: string): nat {
    if Contains(l, "[inlined]") then 7 else 5
  }

  /** The `(source, line)` of a frame line: the line is the text after the last `:` of its
      location token, the source the piece before that. */
  function FrameLocation(l: string): (r: Result<(string, string)>)
    ensures r.Ok? ==> |SplitWs(l)| > FrameToken(l)
  {
    var toks := SplitWs(l);
    var k := FrameToken(l);
    if |toks| <= k then Fail(IndexError("line.split()[7]"))
    else
      var loc := Split(toks[k], ":");
      if |loc| < 2 then Fail(IndexError("split(\":\")[-2]"))
      else Ok((AsPosix(loc[|loc| - 2]), loc[|loc| - 1]))
  }

  /** The function of a frame line: what follows the first backquote of token 3. */
  function FrameFunction(tok: string): Result<string> {
    var fparts := Split(tok, "`");
    if |fparts| < 2 then Fail(IndexError("split(\"`\")[1]")) else Ok(fparts[1])
  }

  /** A `frame #N: ...` line. A frame that is not inlined and has fewer than six tokens is
      skipped. A frame whose next line shows a `{` or `}` instruction clears the line. */
  function LldbFrame(lines: seq<string>, i: nat, st: ScanState, l: string): Result<ScanState>
    requires i < |lines|
  {
    if !Contains(l, "[inlined]") && |SplitWs(l)| < 6 then Ok(st)
    else
      var loc := FrameLocation(l);
      if loc.Fail? then Fail(loc.fault)
      else
        var f := FrameFunction(SplitWs(l)[3]);
        if f.Fail? then Fail(f.fault)
        else FrameStop(lines, i, st, loc.value.0, loc.value.1, f.value)
  }

  /** The stop a frame line names, unless the next line shows a `{` or `}` instruction. */
  function FrameStop(lines: seq<string>, i: nat, st: ScanState, src: string, ln: string, f: string): Result<ScanState>
  {
    if i + 1 >= |lines| then Fail(IndexError("trace_lines[i + 1]"))
    else
      var next := lines[i + 1];
      if StartsWith(next, "-> ") && IsBrace(WordsFromThird(next)) then
        Ok(ScanState(st.output, None, Some(src)))
      else
        var blank := LineInfo([], [], Some([]), "");
        Ok(ScanState(Touch(st.output, src, ln, blank, f), Some(ln), Some(src)))
  }

  /** The bucket of an lldb value. */
  function LldbBucket(value: string): Bucket {
    if Contains(value, "optimized out") then OptimizedOut
    else if Contains(value, "not available") || Contains(value, "empty constant data") ||
            Contains(value, "could not evaluate") then NotAvailable
    else Available
  }

  /** The variable name of a `(type) name = value` line: the last word before ` = `. */
  function LldbName(l: string): string {
    var head := Split(l, " = ")[0];
    if StartsWith(head, "(") then
      var w := SplitWs(head);
      if w == [] then "" else Strip(w[|w| - 1])
    else head
  }

  /** A `(type) name = value` line. */
  function LldbVar(st: ScanState, l: string): Result<ScanState>
    requires Truthy(st.line)
  {
    var parts := Split(l, " = ");
    AddVar(st, LldbBucket(Strip(parts[|parts| - 1])), LldbName(l), false)
  }

  /** One line of an lldb transcript. */
  function LldbStep(lines: seq<string>, i: nat, st: ScanState): Result<ScanState>
    requires i < |lines|
  {
    var l := Strip(lines[i]);
    if LldbNoise(l) || LldbBracketed(l) then Ok(st)
    else if IsFrameLine(l) then LldbFrame(lines, i, st, l)
    else if Truthy(st.line) && Contains(l, " = ") && StartsWith(l, "(") then LldbVar(st, l)
    else Ok(st)
  }

  // ---------------------------------------------------------------- the scan

  /** One line that is not a crash marker, by the grammar of `dbg` (anything but "gdb"
      is read as lldb). */
  function Step(lines: seq<string>, i: nat, st: ScanState, dbg: string): Result<ScanState>
    requires i < |lines|
  {
    if dbg == "gdb" then GdbStep(lines, i, st) else LldbStep(lines, i, st)
  }

  const Start: ScanState := ScanState([], None, None)

  /** A scan of `n` lines with the given marker test and step: the first marker ends it
      with the crash result, the first fault with that fault. */
  function Run(n: nat, crash: nat -> bool, step: (nat, ScanState) -> Result<ScanState>): Result<Outcome> {
    if n == 0 then Ok(Running(Start))
    else
      var o :- Run(n - 1, crash, step);
      if o.Crash? || crash(n - 1) then Ok(Crash)
      else
        var st :- step(n - 1, o.st);
        Ok(Running(st))
  }

  /** The crash marker of `dbg`, looked for in a stripped line; each grammar tests it
      before anything else. */
  predicate IsCrashLine(l: string, dbg: string) {
    if dbg == "gdb" then l == GdbCrash else Contains(l, LldbCrash)
  }

  /** The marker test of a transcript: line `i` holds the crash marker. */
  function CrashAt(lines: seq<string>, dbg: string): nat -> bool {
    (i: nat) => i < |lines| && IsCrashLine(Strip(lines[i]), dbg)
  }

  /** The step of a transcript at line `i`. */
  function StepAt(lines: seq<string>, dbg: string): (nat, ScanState) -> Result<ScanState> {
    (i: nat, st: ScanState) => if i < |lines| then Step(lines, i, st, dbg) else Ok(st)
  }

  /** The scan of the first `n` lines of a transcript. */
  function Scan(lines: seq<string>, n: nat, dbg: string): Result<Outcome> {
    Run(n, CrashAt(lines, dbg), StepAt(lines, dbg))
  }

  // ---------------------------------------------------------------- clean-up

  /** The clean-up of one record: each bucket sorted and duplicate-free, and no available
      variable left among the optimized-out ones, nor (lldb) among the unavailable ones. */
  function Cleaned(e: LineInfo, dbg: string): LineInfo {
    StrLessIsOrder();
    var av := SortedSet(e.available, StrLess);
    var oo := Without(SortedSet(e.optimizedOut, StrLess), av);
    var na := if dbg == "lldb" && e.notAvailable.Some? then Some(Without(SortedSet(e.notAvailable.value, StrLess), av))
              else e.notAvailable;
    LineInfo(av, oo, na, e.func)
  }

  function CleanedSource(lines: SourceLines, dbg: string): (r: SourceLines)
    ensures Keys(r) == Keys(lines)
  {
    seq(|lines|, k requires 0 <= k < |lines| => (lines[k].0, Cleaned(lines[k].1, dbg)))
  }

  function CleanedTrace(out: Variables, dbg: string): (r: Variables)
    ensures Keys(r) == Keys(out)
  {
    seq(|out|, k requires 0 <= k < |out| => (out[k].0, CleanedSource(out[k].1, dbg)))
  }

  /** `parse_trace(trace, dbg)` as a value. */
  function ParseTraceSpec(trace: string, dbg: string): Result<Parsed> {
    var lines := Split(trace, "\n");
    var o :- Scan(lines, |lines|, dbg);
    if o.Crash? then Ok(Crashed) else Ok(Parsed(CleanedTrace(o.st.output, dbg), []))
  }

  // ---------------------------------------------------------------- the loops

  /** The clean-up of one record: sort each bucket, then drop every available name from
      the others. */
  method CleanEntry(e: LineInfo, dbg: string) returns (r: LineInfo)
    ensures r == Cleaned(e, dbg)
  {
    StrLessIsOrder();
    var av := SortUnique(e.available, StrLess);
    var oo := SortUnique(e.optimizedOut, StrLess);
    var na := e.notAvailable;
    if dbg == "lldb" && e.notAvailable.Some? {
      var sorted := SortUnique(e.notAvailable.value, StrLess);
      var kept := RemoveEach(sorted, av, StrLess);
      na := Some(kept);
    }
    oo := RemoveEach(oo, av, StrLess);
    return LineInfo(av, oo, na, e.func);
  }

  /** `for line in lines: ...` over one source. */
  method CleanSource(lines: SourceLines, dbg: string) returns (r: SourceLines)
    ensures r == CleanedSource(lines, dbg)
  {
    r := [];
    var k := 0;
    while k < |lines|
      invariant 0 <= k <= |lines| && |r| == k
      invariant forall j :: 0 <= j < k ==> r[j] == (lines[j].0, Cleaned(lines[j].1, dbg))
    {
      var e := CleanEntry(lines[k].1, dbg);
      r := r + [(lines[k].0, e)];
      k := k + 1;
    }
  }

  /** `for source, lines in output.items(): ...`. */
  method CleanTrace(out: Variables, dbg: string) returns (r: Variables)
    ensures r == CleanedTrace(out, dbg)
  {
    r := [];
    var k := 0;
    while k < |out|
      invariant 0 <= k <= |out| && |r| == k
      invariant forall j :: 0 <= j < k ==> r[j] == (out[j].0, CleanedSource(out[j].1, dbg))
    {
      var c := CleanSource(out[k].1, dbg);
      r := r + [(out[k].0, c)];
      k := k + 1;
    }
  }

  /** The scan loop of `parse_trace`: line by line, stopping at the first crash marker
      or the first fault. */
  method RunLoop(n: nat, crash: nat -> bool, step: (nat, ScanState) -> Result<ScanState>) returns (r: Result<Outcome>)
    ensures r == Run(n, crash, step)
  {
    var st := Start;
    var i := 0;
    while i < n
      invariant 0 <= i <= n
      invariant Run(i, crash, step) == Ok(Running(st))
    {
      if crash(i) {
        RunCrashSticks(i + 1, n, crash, step);
        return Ok(Crash);
      }
      var o := step(i, st);
      if o.Fail? {
        RunFaultSticks(i + 1, n, crash, step);
        return Fail(o.fault);
      }
      st := o.value;
      i := i + 1;
    }
    return Ok(Running(st));
  }

  /** `parse_trace(trace, dbg)`: the scan, then the clean-up. The function map is never
      filled. */
  method ParseTrace(trace: string, dbg: string) returns (r: Result<Parsed>)
    ensures r == ParseTraceSpec(trace, dbg)
    ensures r.Ok? && r.value.Parsed? ==> r.value.functions == []
  {
    var lines := Split(trace, "\n");
    var o := RunLoop(|lines|, CrashAt(lines, dbg), StepAt(lines, dbg));
    if o.Fail? {
      return Fail(o.fault);
    }
    if o.value.Crash? {
      return Ok(Crashed);
    }
    var out := CleanTrace(o.value.st.output, dbg);
    return Ok(Parsed(out, []));
  }

  // ---------------------------------------------------------------- properties

  /** A fault ends a scan: every longer scan has the same fault. */
  lemma {:induction false} RunFaultSticks(n: nat, m: nat, crash: nat -> bool, step: (nat, ScanState) -> Result<ScanState>)
    requires n <= m && Run(n, crash, step).Fail?
    ensures Run(m, crash, step) == Run(n, crash, step)
    decreases m - n
  {
    if n < m {
      RunFaultSticks(n, m - 1, crash, step);
    }
  }

  /** A crash ends a scan: every longer scan reports the crash. */
  lemma {:induction false} RunCrashSticks(n: nat, m: nat, crash: nat -> bool, step: (nat, ScanState) -> Result<ScanState>)
    requires n <= m && Run(n, crash, step) == Ok(Crash)
    ensures Run(m, crash, step) == Ok(Crash)
    decreases m - n
  {
    if n < m {
      RunCrashSticks(n, m - 1, crash, step);
    }
  }

  /** A scan ends in the crash result exactly when it reaches a marker line without an
      earlier fault; whatever was recorded before is discarded. */
  lemma {:induction false} RunCrash(n: nat, crash: nat -> bool, step: (nat, ScanState) -> Result<ScanState>)
    ensures Run(n, crash, step) == Ok(Crash) <==>
              exists i :: 0 <= i < n && crash(i) && Run(i, crash, step).Ok?
  {
    if n > 0 {
      RunCrash(n - 1, crash, step);
      if exists i :: 0 <= i < n && crash(i) && Run(i, crash, step).Ok? {
        var i :| 0 <= i < n && crash(i) && Run(i, crash, step).Ok?;
        if Run(i, crash, step).value.Running? {
          assert Run(i + 1, crash, step) == Ok(Crash);
        } else {
          assert Run(i, crash, step) == Ok(Crash);
        }
        RunCrashSticks(i + 1, n, crash, step);
      }
      if Run(n, crash, step) == Ok(Crash) && Run(n - 1, crash, step) != Ok(Crash) {
        assert crash(n - 1) && Run(n - 1, crash, step).Ok?;
      }
    }
  }

  /** Some line holds the crash marker and the lines before it scan without a fault. */
  ghost predicate ReachesCrash(lines: seq<string>, dbg: string) {
    exists i :: 0 <= i < |lines| && IsCrashLine(Strip(lines[i]), dbg) && Scan(lines, i, dbg).Ok?
  }

  /** A scan of a whole transcript ends in the crash result exactly when it reaches a
      line holding the crash marker before any fault. */
  lemma ScanCrash(lines: seq<string>, dbg: string)
    ensures Scan(lines, |lines|, dbg) == Ok(Crash) <==> ReachesCrash(lines, dbg)
  {
    var c, f := CrashAt(lines, dbg), StepAt(lines, dbg);
    RunCrash(|lines|, c, f);
    if Scan(lines, |lines|, dbg) == Ok(Crash) {
      var i :| 0 <= i < |lines| && c(i) && Run(i, c, f).Ok?;
      assert IsCrashLine(Strip(lines[i]), dbg) && Scan(lines, i, dbg).Ok?;
    }
    if ReachesCrash(lines, dbg) {
      var i :| 0 <= i < |lines| && IsCrashLine(Strip(lines[i]), dbg) && Scan(lines, i, dbg).Ok?;
      assert c(i) && Run(i, c, f).Ok?;
    }
  }

  /** `parse_trace` returns -1 exactly when a line holding the crash marker is reached
      before any fault: the stops recorded before it are discarded. */
  lemma ParseTraceCrash(trace: string, dbg: string)
    ensures ParseTraceSpec(trace, dbg) == Ok(Crashed) <==> ReachesCrash(Split(trace, "\n"), dbg)
  {
    ScanCrash(Split(trace, "\n"), dbg);
  }

  /** After the clean-up every bucket of every record is strictly increasing (so free of
      duplicates), keeps exactly the names it had minus, for the optimized-out bucket and
      the lldb unavailable bucket, the available names. */
  lemma CleanedSpec(e: LineInfo, dbg: string)
    ensures var c := Cleaned(e, dbg);
      StrictTotalOrder(StrLess) &&
      Sorted(c.available, StrLess) && Sorted(c.optimizedOut, StrLess) &&
      (forall x :: x in c.available <==> x in e.available) &&
      (forall x :: x in c.optimizedOut <==> x in e.optimizedOut && x !in e.available) &&
      c.notAvailable.Some? == e.notAvailable.Some? && c.func == e.func &&
      (dbg == "lldb" && e.notAvailable.Some? ==>
         Sorted(c.notAvailable.value, StrLess) &&
         forall x :: x in c.notAvailable.value <==> x in e.notAvailable.value && x !in e.available) &&
      (dbg != "lldb" ==> c.notAvailable == e.notAvailable)
  {
    StrLessIsOrder();
    WithoutSorted(SortedSet(e.optimizedOut, StrLess), SortedSet(e.available, StrLess), StrLess);
    if e.notAvailable.Some? {
      WithoutSorted(SortedSet(e.notAvailable.value, StrLess), SortedSet(e.available, StrLess), StrLess);
    }
  }

  // ---------------------------------------------------------------- stop records

  /** `output[src][ln]`, when both keys are there. */
  function Record(out: Variables, src: string, ln: string): Option<LineInfo> {
    Get(Get(out, src).GetOr([]), ln)
  }

  /** Touching `(src, ln)` gives it the function `f`, creating it as `blank` when it was
      missing and keeping its buckets otherwise; every other record stays as it was. */
  lemma TouchSpec(out: Variables, src: string, ln: string, blank: LineInfo, f: string)
    ensures Record(Touch(out, src, ln, blank, f), src, ln) == Some(Record(out, src, ln).GetOr(blank).(func := f))
    ensures forall s, l :: (s, l) != (src, ln) ==> Record(Touch(out, src, ln, blank, f), s, l) == Record(out, s, l)
  {
    var lines := Get(out, src).GetOr([]);
    var entry := Get(lines, ln).GetOr(blank);
    PutGet(out, src, Put(lines, ln, entry.(func := f)));
    PutGet(lines, ln, entry.(func := f));
  }

  /** A variable line is recorded only under the current source and line, and only when
      that record exists (otherwise the lookup raises); it changes that record as `AddTo`
      says and nothing else. */
  lemma AddVarSpec(st: ScanState, b: Bucket, name: string, once: bool)
    requires Truthy(st.line)
    ensures AddVar(st, b, name, once).Ok? <==>
              st.source.Some? && Record(st.output, st.source.value, st.line.value).Some? &&
              AddTo(Record(st.output, st.source.value, st.line.value).value, b, name, once).Ok?
    ensures AddVar(st, b, name, once).Ok? ==>
              var st' := AddVar(st, b, name, once).value;
              var src, ln := st.source.value, st.line.value;
              st'.line == st.line && st'.source == st.source &&
              Record(st'.output, src, ln) == Some(AddTo(Record(st.output, src, ln).value, b, name, once).value) &&
              forall s, l :: (s, l) != (src, ln) ==> Record(st'.output, s, l) == Record(st.output, s, l)
  {
    if st.source.Some? && Get(st.output, st.source.value).Some? {
      var src, ln := st.source.value, st.line.value;
      var lines := Get(st.output, src).value;
      if Get(lines, ln).Some? {
        var e := Get(lines, ln).value;
        if AddTo(e, b, name, once).Ok? {
          var e' := AddTo(e, b, name, once).value;
          PutGet(st.output, src, Put(lines, ln, e'));
          PutGet(lines, ln, e');
        }
      }
    }
  }

  /** gdb's `name = value` lines split at the first ` = `: the name holds no ` = `; the
      value `<optimized out>` (exactly) goes to `optimized_out`, any other value to
      `available`, where a name already present is not added again. */
  lemma GdbVarSplit(st: ScanState, l: string)
    requires Truthy(st.line) && Contains(l, " = ")
    ensures exists name, value :: l == name + " = " + value && !Contains(name, " = ") &&
              GdbVar(st, l) == if value == "<optimized out>" then AddVar(st, OptimizedOut, name, false)
                               else AddVar(st, Available, name, true)
  {
    var parts := SplitOnce(l, " = ");
    assert l == parts[0] + " = " + parts[1];
  }

  /** gdb: a numbered line whose instruction is `{` or `}` clears the current line ... */
  lemma GdbBraceClears(lines: seq<string>, i: nat, st: ScanState)
    requires i < |lines|
    requires var l := Strip(lines[i]);
               !GdbNoise(l) && |SplitWs(l)| >= 2 && IsDigits(SplitWs(l)[0]) &&
               (SplitWsOnceTwo(l); IsBrace(SplitWsOnce(l)[1]))
    ensures GdbStep(lines, i, st) == Ok(st.(line := None))
  {
    SplitWsOnceTwo(Strip(lines[i]));
  }

  /** ... and while it is clear, every line but a numbered one leaves the state alone, so
      `name = value` lines are ignored. */
  lemma GdbClearIgnores(lines: seq<string>, i: nat, st: ScanState)
    requires i < |lines| && st.line.None?
    requires var toks := SplitWs(Strip(lines[i])); toks == [] || !IsDigits(toks[0])
    ensures GdbStep(lines, i, st) == Ok(st)
  {
    SplitWsEmpty(Strip(lines[i]));
  }

  /** gdb: a numbered line with an instruction other than a brace names a stop: its
      source and function come from the raw line before it, and the record of that source
      and line number gets that function (created empty, without `not_available`). */
  lemma GdbNumberedStop(lines: seq<string>, i: nat, st: ScanState, l: string)
    requires i < |lines| && |SplitWs(l)| >= 2
    requires (SplitWsOnceTwo(l); !IsBrace(SplitWsOnce(l)[1]))
    ensures GdbNumbered(lines, i, st, l).Ok? <==>
              GdbSourceOf(Preceding(lines, i)).Ok? && GdbFunctionOf(Preceding(lines, i)).Ok?
    ensures GdbNumbered(lines, i, st, l).Ok? ==>
              var st' := GdbNumbered(lines, i, st, l).value;
              var src, ln := GdbSourceOf(Preceding(lines, i)).value, SplitWs(l)[0];
              st'.line == Some(ln) && st'.source == Some(src) &&
              Record(st'.output, src, ln) ==
                Some(Record(st.output, src, ln).GetOr(LineInfo([], [], None, "")).(func := GdbFunctionOf(Preceding(lines, i)).value)) &&
              forall s, n :: (s, n) != (src, ln) ==> Record(st'.output, s, n) == Record(st.output, s, n)
  {
    SplitWsOnceTwo(l);
    var prev := Preceding(lines, i);
    if GdbSourceOf(prev).Ok? && GdbFunctionOf(prev).Ok? {
      TouchSpec(st.output, GdbSourceOf(prev).value, SplitWs(l)[0], LineInfo([], [], None, ""), GdbFunctionOf(prev).value);
    }
  }

  /** lldb: a line that is neither a frame line nor starts with `(` never records a
      variable: it leaves the state alone. */
  lemma LldbNeedsParen(lines: seq<string>, i: nat, st: ScanState)
    requires i < |lines|
    requires var l := Strip(lines[i]); !IsFrameLine(l) && !StartsWith(l, "(")
    ensures LldbStep(lines, i, st) == Ok(st)
  {
  }

  /** lldb: the location of a frame is token 5, or token 7 when the line holds
      `[inlined]`; its line is the text after the last `:` and its source the piece
      before it, as a POSIX path. */
  lemma FrameLocationSpec(l: string)
    ensures var toks := SplitWs(l);
            var k := if Contains(l, "[inlined]") then 7 else 5;
            FrameLocation(l).Ok? <==> k < |toks| && |Split(toks[k], ":")| >= 2
    ensures FrameLocation(l).Ok? ==>
              var loc := Split(SplitWs(l)[if Contains(l, "[inlined]") then 7 else 5], ":");
              FrameLocation(l).value == (AsPosix(loc[|loc| - 2]), loc[|loc| - 1]) &&
              !Contains(FrameLocation(l).value.1, ":")
  {
    var toks := SplitWs(l);
    var k := FrameToken(l);
    if k < |toks| {
      var loc := Split(toks[k], ":");
      assert loc[|loc| - 1] in loc;
    }
  }

  /** lldb: a frame line that records a stop sets the current line and source to its
      location and leaves a record there with the frame's function and a `not_available`
      bucket; every other record stays as it was. */
  lemma LldbFrameStop(lines: seq<string>, i: nat, st: ScanState, l: string)
    requires i < |lines|
    requires LldbFrame(lines, i, st, l).Ok? && LldbFrame(lines, i, st, l).value.line.Some?
    requires Contains(l, "[inlined]") || |SplitWs(l)| >= 6
    ensures FrameLocation(l).Ok? && FrameFunction(SplitWs(l)[3]).Ok?
    ensures var (src, ln) := FrameLocation(l).value;
            var st' := LldbFrame(lines, i, st, l).value;
            st'.line == Some(ln) && st'.source == Some(src) &&
            Record(st'.output, src, ln).Some? &&
            Record(st'.output, src, ln).value.func == FrameFunction(SplitWs(l)[3]).value &&
            Record(st'.output, src, ln).value.notAvailable == Record(st.output, src, ln).GetOr(LineInfo([], [], Some([]), "")).notAvailable &&
            forall s, n :: (s, n) != (src, ln) ==> Record(st'.output, s, n) == Record(st.output, s, n)
  {
    var (src, ln) := FrameLocation(l).value;
    TouchSpec(st.output, src, ln, LineInfo([], [], Some([]), ""), FrameFunction(SplitWs(l)[3]).value);
  }

  // ---------------------------------------------------------------- record shape

  /** Every record has a `not_available` bucket exactly when `lldb` holds. */
  ghost predicate Shaped(out: Variables, lldb: bool) {
    forall s, l :: Record(out, s, l).Some? ==> Record(out, s, l).value.notAvailable.Some? == lldb
  }

  lemma AddVarShaped(st: ScanState, b: Bucket, name: string, once: bool, lldb: bool)
    requires Truthy(st.line) && Shaped(st.output, lldb) && AddVar(st, b, name, once).Ok?
    ensures Shaped(AddVar(st, b, name, once).value.output, lldb)
  {
    AddVarSpec(st, b, name, once);
  }

  lemma GdbStepShaped(lines: seq<string>, i: nat, st: ScanState)
    requires i < |lines| && Shaped(st.output, false) && GdbStep(lines, i, st).Ok?
    ensures Shaped(GdbStep(lines, i, st).value.output, false)
  {
    var l := Strip(lines[i]);
    if !GdbNoise(l) && IsDigits(SplitWs(l)[0]) {
      if |SplitWs(l)| >= 2 {
        SplitWsOnceTwo(l);
        if !IsBrace(SplitWsOnce(l)[1]) {
          GdbNumberedStop(lines, i, st, l);
        }
      }
    } else if !GdbNoise(l) && Truthy(st.line) && Contains(l, " = ") {
      var parts := SplitOnce(l, " = ");
      if parts[|parts| - 1] == "<optimized out>" {
        AddVarShaped(st, OptimizedOut, parts[0], false, false);
      } else {
        AddVarShaped(st, Available, parts[0], true, false);
      }
    }
  }

  lemma FrameStopShaped(lines: seq<string>, i: nat, st: ScanState, src: string, ln: string, f: string)
    requires Shaped(st.output, true) && FrameStop(lines, i, st, src, ln, f).Ok?
    ensures Shaped(FrameStop(lines, i, st, src, ln, f).value.output, true)
  {
    TouchSpec(st.output, src, ln, LineInfo([], [], Some([]), ""), f);
  }

  lemma LldbFrameShaped(lines: seq<string>, i: nat, st: ScanState, l: string)
    requires i < |lines| && Shaped(st.output, true) && LldbFrame(lines, i, st, l).Ok?
    ensures Shaped(LldbFrame(lines, i, st, l).value.output, true)
  {
    if Contains(l, "[inlined]") || |SplitWs(l)| >= 6 {
      var loc := FrameLocation(l).value;
      var f := FrameFunction(SplitWs(l)[3]).value;
      assert LldbFrame(lines, i, st, l) == FrameStop(lines, i, st, loc.0, loc.1, f);
      FrameStopShaped(lines, i, st, loc.0, loc.1, f);
    }
  }

  lemma LldbStepShaped(lines: seq<string>, i: nat, st: ScanState)
    requires i < |lines| && Shaped(st.output, true) && LldbStep(lines, i, st).Ok?
    ensures Shaped(LldbStep(lines, i, st).value.output, true)
  {
    var l := Strip(lines[i]);
    if LldbNoise(l) || LldbBracketed(l) {
    } else if IsFrameLine(l) {
      assert LldbStep(lines, i, st) == LldbFrame(lines, i, st, l);
      LldbFrameShaped(lines, i, st, l);
    } else if Truthy(st.line) && Contains(l, " = ") && StartsWith(l, "(") {
      assert LldbStep(lines, i, st) == LldbVar(st, l);
      LldbVarShaped(st, l);
    }
  }

  lemma LldbVarShaped(st: ScanState, l: string)
    requires Truthy(st.line) && Shaped(st.output, true) && LldbVar(st, l).Ok?
    ensures Shaped(LldbVar(st, l).value.output, true)
  {
    var parts := Split(l, " = ");
    AddVarShaped(st, LldbBucket(Strip(parts[|parts| - 1])), LldbName(l), false, true);
  }

  /** A property of states that the start has and every successful step keeps holds of
      every state a scan reaches. */
  lemma {:induction false} RunKeeps(n: nat, crash: nat -> bool, step: (nat, ScanState) -> Result<ScanState>, p: ScanState -> bool)
    requires p(Start)
    requires forall i, st :: p(st) && step(i, st).Ok? ==> p(step(i, st).value)
    ensures Run(n, crash, step).Ok? && Run(n, crash, step).value.Running? ==> p(Run(n, crash, step).value.st)
  {
    if n > 0 {
      RunKeeps(n - 1, crash, step, p);
    }
  }

  /** The scanner creates gdb records without a `not_available` bucket and lldb records
      with one. */
  lemma ScanShaped(lines: seq<string>, n: nat, dbg: string)
    ensures Scan(lines, n, dbg).Ok? && Scan(lines, n, dbg).value.Running? ==>
              Shaped(Scan(lines, n, dbg).value.st.output, dbg != "gdb")
  {
    var p := (st: ScanState) => Shaped(st.output, dbg != "gdb");
    var step := StepAt(lines, dbg);
    forall i: nat, st: ScanState | p(st) && step(i, st).Ok? ensures p(step(i, st).value) {
      if i < |lines| {
        if dbg == "gdb" {
          GdbStepShaped(lines, i, st);
        } else {
          LldbStepShaped(lines, i, st);
        }
      }
    }
    RunKeeps(n, CrashAt(lines, dbg), step, p);
  }

  // ---------------------------------------------------------------- after the clean-up

  lemma {:induction false} GetCleanedSource(lines: SourceLines, dbg: string, ln: string)
    ensures Get(CleanedSource(lines, dbg), ln) ==
              if Get(lines, ln).Some? then Some(Cleaned(Get(lines, ln).value, dbg)) else None
  {
    if lines != [] {
      assert CleanedSource(lines, dbg)[1..] == CleanedSource(lines[1..], dbg);
      GetCleanedSource(lines[1..], dbg, ln);
    }
  }

  lemma {:induction false} GetCleanedTrace(out: Variables, dbg: string, src: string)
    ensures Get(CleanedTrace(out, dbg), src) ==
              if Get(out, src).Some? then Some(CleanedSource(Get(out, src).value, dbg)) else None
  {
    if out != [] {
      assert CleanedTrace(out, dbg)[1..] == CleanedTrace(out[1..], dbg);
      GetCleanedTrace(out[1..], dbg, src);
    }
  }

  /** The clean-up replaces every record by its cleaned form and adds or removes none. */
  lemma CleanedRecord(out: Variables, dbg: string, src: string, ln: string)
    ensures Record(CleanedTrace(out, dbg), src, ln) ==
              if Record(out, src, ln).Some? then Some(Cleaned(Record(out, src, ln).value, dbg)) else None
  {
    GetCleanedTrace(out, dbg, src);
    if Get(out, src).Some? {
      GetCleanedSource(Get(out, src).value, dbg, ln);
    }
  }

  /** A record as `parse_trace` leaves it: every bucket strictly increasing, and no
      available name among the optimized-out ones nor, for lldb, the unavailable ones. */
  ghost predicate CleanRecord(c: LineInfo, dbg: string) {
    Sorted(c.available, StrLess) && Sorted(c.optimizedOut, StrLess) &&
    (forall x :: x in c.optimizedOut ==> x !in c.available) &&
    (dbg == "lldb" && c.notAvailable.Some? ==>
       Sorted(c.notAvailable.value, StrLess) && forall x :: x in c.notAvailable.value ==> x !in c.available)
  }

  /** Every record `parse_trace` returns is clean, and has a `not_available` bucket
      exactly when the transcript is not gdb's. */
  lemma ParseTraceClean(trace: string, dbg: string, src: string, ln: string)
    requires ParseTraceSpec(trace, dbg).Ok? && ParseTraceSpec(trace, dbg).value.Parsed?
    requires Record(ParseTraceSpec(trace, dbg).value.variables, src, ln).Some?
    ensures var c := Record(ParseTraceSpec(trace, dbg).value.variables, src, ln).value;
            CleanRecord(c, dbg) && c.notAvailable.Some? == (dbg != "gdb")
  {
    var lines := Split(trace, "\n");
    var out := Scan(lines, |lines|, dbg).value.st.output;
    ScanShaped(lines, |lines|, dbg);
    CleanedRecord(out, dbg, src, ln);
    CleanedSpec(Record(out, src, ln).value, dbg);
  }
}
