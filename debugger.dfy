/** `get_variables`: the breakpoint script built from the line table of a binary, run
    under gdb or lldb, and the transcript parsed. Running the debugger is a parameter
    `run` from script text to transcript (`None` when it timed out and returned no text). */
module Debugger {
  import opened Common
  import opened PyStr
  import opened ODict
  import opened Dwarf
  import opened Tracer

  /** The text templates of the script: the gdb and lldb script frames around the
      breakpoints, and the commands each breakpoint runs when it stops. */
  datatype Templates = Templates(gdbHead: string, gdbMiddle: string, gdbTail: string, gdbCommands: string,
                                 lldbHead: string, lldbMiddle: string, lldbTail: string, lldbCommands: string)

  /** `GDB_SCRIPT_TEMPLATE`, `GDB_BP_TEMPLATE`, `LLDB_SCRIPT_TEMPLATE` and `LLDB_BP_TEMPLATE`,
      cut at their `%s`/`%d` holes. */
  const Standard: Templates := Templates(
    "python gdb.events.exited.connect(lambda x : gdb.execute(\"quit\"))\nset pagination off\nset style enabled off\nset filename-display absolute\n\n",
    "\n\nset width unlimited\nrun ",
    "\nquit\n",
    "\ncommands\n    info locals\n    continue\nend\n",
    "\nsettings set frame-format frame #${frame.index}: ${frame.pc}{ ${module.file.basename}{\\`${function.name}}}{ at ${line.file.fullpath}:${line.number}}\nsettings set target.disable-aslr false\nset set stop-line-count-before 1\nset set stop-line-count-after 0\n\n",
    "\n\nrun ",
    "\n\nquit\n",
    "\n    frame select\n    frame var\n\n    script locals = {}\n    script for var in list(lldb.frame.arguments) + list(lldb.frame.variables): locals[var.name] = var.type.is_pointer\n    script import json; print(f\"[+] Locals type analysis: {json.dumps(locals)}\")\n\n    break delete ")

  /** `GDB_BP_TEMPLATE % (kind, source, line)`. */
  function GdbBreakpoint(t: Templates, kind: string, source: string, line: nat): string {
    kind + " " + source + ":" + NatToStr(line) + t.gdbCommands
  }

  /** `LLDB_BP_TEMPLATE % (kind, source, line, id, id)`: the commands of breakpoint `id`
      end by deleting it. */
  function LldbBreakpoint(t: Templates, kind: string, source: string, line: nat, id: nat): string {
    kind + " set --file " + source + " --line " + NatToStr(line) + "\nbreak command add " + NatToStr(id) +
    t.lldbCommands + NatToStr(id) + "\n    continue\nDONE\n"
  }

  /** The breakpoint of the `k`-th stop site overall (counting from 0): gdb sets a
      temporary `tbreak`; lldb sets `break` number `k + 1`. */
  function Breakpoint(t: Templates, site: (string, nat), k: nat, dbg: string): string {
    if dbg == "lldb" then LldbBreakpoint(t, "break", site.0, site.1, k + 1)
    else GdbBreakpoint(t, "tbreak", site.0, site.1)
  }

  /** Every `(source, line)` of the line map, source by source in order. */
  function Sites(d: LineMap): seq<(string, nat)>
  {
    if d == [] then []
    else Sites(d[..|d| - 1]) + seq(|d[|d| - 1].1|, j requires 0 <= j < |d[|d| - 1].1| => (d[|d| - 1].0, d[|d| - 1].1[j]))
  }

  /** The list comprehension of one source: lldb numbers its breakpoints on from `start`,
      which is how many breakpoints the earlier sources made. */
  function Block(t: Templates, source: string, lines: seq<nat>, start: nat, dbg: string): (r: seq<string>)
  {
    if dbg == "lldb" then seq(|lines|, m requires 0 <= m < |lines| => LldbBreakpoint(t, "break", source, lines[m], start + m + 1))
    else seq(|lines|, m requires 0 <= m < |lines| => GdbBreakpoint(t, "tbreak", source, lines[m]))
  }

  /** The breakpoints of the sources, source by source. */
  function Breakpoints(t: Templates, d: LineMap, dbg: string): seq<string>
  {
    if d == [] then []
    else
      var init := Breakpoints(t, d[..|d| - 1], dbg);
      init + Block(t, d[|d| - 1].0, d[|d| - 1].1, |init|, dbg)
  }

  /** The `bps` loop of `get_variables`. */
  method BuildBreakpoints(t: Templates, d: LineMap, dbg: string) returns (bps: seq<string>)
    ensures bps == Breakpoints(t, d, dbg)
  {
    bps := [];
    var k := 0;
    while k < |d|
      invariant 0 <= k <= |d|
      invariant bps == Breakpoints(t, d[..k], dbg)
    {
      var (source, lines) := d[k];
      assert d[..k + 1][..k] == d[..k];
      bps := bps + Block(t, source, lines, |bps|, dbg);
      k := k + 1;
    }
    assert d[..k] == d;
  }

  /** There is one breakpoint per site, and the `k`-th breakpoint is the breakpoint of
      the `k`-th site, numbered by its overall position. */
  lemma {:induction false} BreakpointsSites(t: Templates, d: LineMap, dbg: string)
    ensures |Breakpoints(t, d, dbg)| == |Sites(d)|
    ensures forall k :: 0 <= k < |Sites(d)| ==> Breakpoints(t, d, dbg)[k] == Breakpoint(t, Sites(d)[k], k, dbg)
  {
    if d != [] {
      var init, last := d[..|d| - 1], d[|d| - 1];
      BreakpointsSites(t, init, dbg);
      var n := |Sites(init)|;
      var b := Block(t, last.0, last.1, n, dbg);
      assert Breakpoints(t, d, dbg) == Breakpoints(t, init, dbg) + b;
      var tail := seq(|last.1|, j requires 0 <= j < |last.1| => (last.0, last.1[j]));
      assert Sites(d) == Sites(init) + tail;
      forall k | 0 <= k < |Sites(d)|
        ensures Breakpoints(t, d, dbg)[k] == Breakpoint(t, Sites(d)[k], k, dbg)
      {
        if k >= n {
          assert Sites(d)[k] == tail[k - n];
          assert Breakpoints(t, d, dbg)[k] == b[k - n];
        }
      }
    }
  }

  /** Every site of the line map gets a breakpoint, at its position among all sites. */
  lemma {:induction false} SitesSpec(d: LineMap, src: string, line: nat)
    ensures (src, line) in Sites(d) <==> exists e :: e in d && e.0 == src && line in e.1
    decreases |d|
  {
    if d != [] {
      var init, last := d[..|d| - 1], d[|d| - 1];
      SitesSpec(init, src, line);
      var tail := seq(|last.1|, j requires 0 <= j < |last.1| => (last.0, last.1[j]));
      assert (src, line) in tail <==> src == last.0 && line in last.1 by {
        if src == last.0 && line in last.1 {
          var j :| 0 <= j < |last.1| && last.1[j] == line;
          assert tail[j] == (src, line);
        }
      }
      assert forall e :: e in d <==> e in init || e == last by {
        assert d == init + [last];
      }
    }
  }

  /** `script_template % ("".join(bps), input_filepath)`. */
  function Script(t: Templates, d: LineMap, input: string, dbg: string): string {
    var body := Concat(Breakpoints(t, d, dbg));
    if dbg == "lldb" then t.lldbHead + body + t.lldbMiddle + input + t.lldbTail
    else t.gdbHead + body + t.gdbMiddle + input + t.gdbTail
  }

  /** What `get_variables` returns: the pair from `parse_trace`, or the three empty
      dictionaries of a timeout or a crash. */
  datatype Collected = Pair(variables: Variables, functions: Functions) | Triple

  /** What `get_variables` does once the line table is parsed and the debugger has run. */
  function Collect(trace: Option<string>, dbg: string): Result<Collected> {
    if trace.None? then Ok(Triple)
    else
      var parsed :- ParseTraceSpec(trace.value, dbg);
      if parsed.Crashed? then Ok(Triple) else Ok(Pair(parsed.variables, parsed.functions))
  }

  /** `get_variables(binary, input, dbg)` with templates `t`, given the binary's
      line-table dump and the debugger run. */
  function GetVariablesSpec(t: Templates, dump: string, input: string, dbg: string, run: string -> Option<string>): Result<Collected> {
    var lines :- DwarfSpec(dump);
    Collect(run(Script(t, lines, input, dbg)), dbg)
  }

  /** The script of the line map, joined from the breakpoints the loop builds. */
  method BuildScript(t: Templates, d: LineMap, input: string, dbg: string) returns (script: string)
    ensures script == Script(t, d, input, dbg)
  {
    var bps := BuildBreakpoints(t, d, dbg);
    script := if dbg == "lldb" then t.lldbHead + Concat(bps) + t.lldbMiddle + input + t.lldbTail
              else t.gdbHead + Concat(bps) + t.gdbMiddle + input + t.gdbTail;
  }

  /** The tail of `get_variables`: a timeout or a crash gives the three empty dictionaries. */
  method CollectTrace(trace: Option<string>, dbg: string) returns (r: Result<Collected>)
    ensures r == Collect(trace, dbg)
  {
    if trace.None? {
      return Ok(Triple);
    }
    var parsed := ParseTrace(trace.value, dbg);
    if parsed.Fail? {
      return Fail(parsed.fault);
    }
    if parsed.value.Crashed? {
      return Ok(Triple);
    }
    return Ok(Pair(parsed.value.variables, parsed.value.functions));
  }

  method GetVariablesWith(t: Templates, dump: string, input: string, dbg: string, run: string -> Option<string>)
    returns (r: Result<Collected>)
    ensures r == GetVariablesSpec(t, dump, input, dbg, run)
  {
    var lines := ParseDwarf(dump);
    if lines.Fail? {
      return Fail(lines.fault);
    }
    var script := BuildScript(t, lines.value, input, dbg);
    r := CollectTrace(run(script), dbg);
  }

  /** `get_variables(binary, input, dbg)` with the source's own templates. */
  method GetVariables(dump: string, input: string, dbg: string, run: string -> Option<string>) returns (r: Result<Collected>)
    ensures r == GetVariablesSpec(Standard, dump, input, dbg, run)
  {
    r := GetVariablesWith(Standard, dump, input, dbg, run);
  }

  /** The three empty dictionaries come back exactly on a timeout or when the transcript
      reaches the crash marker; otherwise the function map is empty. */
  lemma CollectTriple(trace: Option<string>, dbg: string)
    requires Collect(trace, dbg).Ok?
    ensures Collect(trace, dbg).value.Triple? <==> trace.None? || ReachesCrash(Split(trace.value, "\n"), dbg)
    ensures Collect(trace, dbg).value.Pair? ==> Collect(trace, dbg).value.functions == []
  {
    if trace.Some? {
      ParseTraceCrash(trace.value, dbg);
    }
  }
}
