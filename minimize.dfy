/** `minimize_traces` of the corpus minimisation: the inputs are ranked by how many lines
    their trace steps on, then chosen greedily, an input being kept when it reaches a
    (source, line) pair that no earlier input reached. */
module Minimize {
  import opened Common
  import opened ODict
  import opened Tracer

  /** Input file name to its `variables` trace. */
  type Traces = Dict<string, Variables>

  /** `main_trace`: source to line to the status first recorded for it. */
  type MainTrace = Dict<string, SourceLines>

  // ---------------------------------------------------------------- ranking

  /** `val`: the number of traced lines, summed over the sources. */
  function LineTotal(vars: Variables): nat {
    if vars == [] then 0 else LineTotal(vars[..|vars| - 1]) + |vars[|vars| - 1].1|
  }

  /** `ordered`: every input with its line total, in the order of the dictionary. */
  function Ranked(traces: Traces): (r: seq<(string, nat)>)
    ensures |r| == |traces| && forall k :: 0 <= k < |traces| ==> r[k] == (traces[k].0, LineTotal(traces[k].1))
  {
    seq(|traces|, k requires 0 <= k < |traces| => (traces[k].0, LineTotal(traces[k].1)))
  }

  /** Insert `x` after every element whose key is at most its own. */
  function InsertStable(s: seq<(string, nat)>, x: (string, nat)): seq<(string, nat)> {
    if s == [] || s[|s| - 1].1 <= x.1 then s + [x]
    else InsertStable(s[..|s| - 1], x) + [s[|s| - 1]]
  }

  /** `sorted(ordered, key=lambda x: x[1])`: Python's sort is stable, so the result is the
      one insertion sort gives. */
  function StableSort(xs: seq<(string, nat)>): seq<(string, nat)> {
    if xs == [] then [] else InsertStable(StableSort(xs[..|xs| - 1]), xs[|xs| - 1])
  }

  /** The elements of key `v`, in order. */
  function WithKey(xs: seq<(string, nat)>, v: nat): seq<(string, nat)> {
    if xs == [] then []
    else WithKey(xs[..|xs| - 1], v) + (if xs[|xs| - 1].1 == v then [xs[|xs| - 1]] else [])
  }

  ghost predicate Ascending(xs: seq<(string, nat)>) {
    forall i, j :: 0 <= i < j < |xs| ==> xs[i].1 <= xs[j].1
  }

  /** `ordered_inputs`. */
  function Names(xs: seq<(string, nat)>): (r: seq<string>)
    ensures |r| == |xs| && forall k :: 0 <= k < |xs| ==> r[k] == xs[k].0
  {
    seq(|xs|, k requires 0 <= k < |xs| => xs[k].0)
  }

  function Order(traces: Traces): seq<string> {
    Names(StableSort(Ranked(traces)))
  }

  lemma {:induction false} InsertPerm(s: seq<(string, nat)>, x: (string, nat))
    ensures multiset(InsertStable(s, x)) == multiset(s) + multiset{x}
    decreases |s|
  {
    if !(s == [] || s[|s| - 1].1 <= x.1) {
      var init, last := s[..|s| - 1], s[|s| - 1];
      InsertPerm(init, x);
      assert s == init + [last];
    }
  }

  lemma {:induction false} InsertAscending(s: seq<(string, nat)>, x: (string, nat))
    requires Ascending(s)
    ensures Ascending(InsertStable(s, x))
    decreases |s|
  {
    if !(s == [] || s[|s| - 1].1 <= x.1) {
      var init, last := s[..|s| - 1], s[|s| - 1];
      assert Ascending(init);
      InsertAscending(init, x);
      InsertPerm(init, x);
      var t := InsertStable(init, x);
      forall i | 0 <= i < |t| ensures t[i].1 <= last.1 {
        assert t[i] in multiset(t);
        assert t[i] in multiset(init) || t[i] == x;
      }
    }
  }

  lemma {:induction false} InsertWithKey(s: seq<(string, nat)>, x: (string, nat), v: nat)
    ensures WithKey(InsertStable(s, x), v) == WithKey(s, v) + (if x.1 == v then [x] else [])
    decreases |s|
  {
    var r := InsertStable(s, x);
    if s == [] || s[|s| - 1].1 <= x.1 {
      assert r[..|r| - 1] == s;
    } else {
      var init, last := s[..|s| - 1], s[|s| - 1];
      InsertWithKey(init, x, v);
      var t := InsertStable(init, x);
      assert r[..|r| - 1] == t;
    }
  }

  /** The sort is a permutation of its input. */
  lemma {:induction false} StableSortPerm(xs: seq<(string, nat)>)
    ensures multiset(StableSort(xs)) == multiset(xs)
  {
    if xs != [] {
      var init, last := xs[..|xs| - 1], xs[|xs| - 1];
      StableSortPerm(init);
      InsertPerm(StableSort(init), last);
      assert xs == init + [last];
    }
  }

  /** The sort ascends by line total. */
  lemma {:induction false} StableSortAscending(xs: seq<(string, nat)>)
    ensures Ascending(StableSort(xs))
  {
    if xs != [] {
      StableSortAscending(xs[..|xs| - 1]);
      InsertAscending(StableSort(xs[..|xs| - 1]), xs[|xs| - 1]);
    }
  }

  /** The sort is stable: the inputs of each line total keep their relative order. */
  lemma {:induction false} StableSortStable(xs: seq<(string, nat)>, v: nat)
    ensures WithKey(StableSort(xs), v) == WithKey(xs, v)
  {
    if xs != [] {
      StableSortStable(xs[..|xs| - 1], v);
      InsertWithKey(StableSort(xs[..|xs| - 1]), xs[|xs| - 1], v);
    }
  }

  /** The processing order holds exactly the inputs (the comment in the source says the
      inputs are sorted by descending line total; the code sorts ascending). */
  lemma OrderMembers(traces: Traces)
    ensures forall i :: i in Order(traces) <==> i in Keys(traces)
  {
    var s, r := StableSort(Ranked(traces)), Ranked(traces);
    StableSortPerm(r);
    forall i ensures i in Order(traces) <==> i in Keys(traces) {
      if i in Order(traces) {
        var k :| 0 <= k < |s| && s[k].0 == i;
        assert s[k] in multiset(r);
        var m :| 0 <= m < |r| && r[m] == s[k];
        assert Keys(traces)[m] == i;
      }
      if i in Keys(traces) {
        var m :| 0 <= m < |traces| && Keys(traces)[m] == i;
        assert r[m] in multiset(s);
        var k :| 0 <= k < |s| && s[k] == r[m];
        assert Order(traces)[k] == i;
      }
    }
  }

  // ---------------------------------------------------------------- greedy cover

  /** A source and line the trace steps on. */
  ghost predicate Has(vars: Variables, s: string, l: string) {
    exists k :: 0 <= k < |vars| && vars[k].0 == s && l in Keys(vars[k].1)
  }

  /** The line is in `main_trace`. */
  predicate Recorded(main: MainTrace, s: string, l: string) {
    s in Keys(main) && l in Keys(Get(main, s).value)
  }

  /** The lines of one source, added to that source's entry: the new entry and whether
      some line was new. */
  function AddLines(m: SourceLines, lines: SourceLines): (SourceLines, bool) {
    if lines == [] then (m, false)
    else
      var r := AddLines(m, lines[..|lines| - 1]);
      var (l, status) := lines[|lines| - 1];
      if l !in Keys(r.0) then (Put(r.0, l, status), true) else r
  }

  /** One input's trace, source by source. */
  function AddSources(main: MainTrace, vars: Variables): (MainTrace, bool) {
    if vars == [] then (main, false)
    else
      var r := AddSources(main, vars[..|vars| - 1]);
      var (src, lines) := vars[|vars| - 1];
      var added := AddLines(Get(r.0, src).GetOr([]), lines);
      (Put(r.0, src, added.0), r.1 || added.1)
  }

  /** The loop over `ordered_inputs`: the trace and the chosen inputs after `order`. */
  function Greedy(traces: Traces, order: seq<string>): (MainTrace, set<string>) {
    if order == [] then ([], {})
    else
      var r := Greedy(traces, order[..|order| - 1]);
      var i := order[|order| - 1];
      match Get(traces, i)
      case None => r
      case Some(vars) =>
        var added := AddSources(r.0, vars);
        (added.0, if added.1 then r.1 + {i} else r.1)
  }

  /** `minimize_traces(traces)`. */
  function MinimizeSpec(traces: Traces): set<string> {
    Greedy(traces, Order(traces)).1
  }

  /** Every line `main` records, `main'` records with the same status. */
  ghost predicate Extends(main: MainTrace, main': MainTrace) {
    forall s, l :: Recorded(main, s, l) ==>
      Recorded(main', s, l) && Get(Get(main', s).value, l) == Get(Get(main, s).value, l)
  }

  /** The lines of a source after adding: those it had and those of the trace. */
  lemma {:induction false} AddLinesKeys(m: SourceLines, lines: SourceLines)
    ensures forall l :: l in Keys(AddLines(m, lines).0) <==> l in Keys(m) || l in Keys(lines)
  {
    if lines != [] {
      var init, last := lines[..|lines| - 1], lines[|lines| - 1];
      AddLinesKeys(m, init);
      PutKeys(AddLines(m, init).0, last.0, last.1);
      KeysSnoc(init, last);
      assert lines == init + [last];
    }
  }

  /** A line already there keeps its status. */
  lemma {:induction false} AddLinesKeeps(m: SourceLines, lines: SourceLines)
    ensures forall l :: l in Keys(m) ==> Get(AddLines(m, lines).0, l) == Get(m, l)
  {
    if lines != [] {
      var init, last := lines[..|lines| - 1], lines[|lines| - 1];
      AddLinesKeeps(m, init);
      AddLinesKeys(m, init);
      PutGet(AddLines(m, init).0, last.0, last.1);
    }
  }

  /** A line's status after adding: the one already recorded, else the first the
      source's trace gives for it. */
  lemma {:induction false} AddLinesStatus(m: SourceLines, lines: SourceLines)
    ensures forall l :: Get(AddLines(m, lines).0, l) == if Get(m, l).Some? then Get(m, l) else Get(lines, l)
  {
    if lines != [] {
      var init, last := lines[..|lines| - 1], lines[|lines| - 1];
      AddLinesStatus(m, init);
      AddLinesKeys(m, init);
      var r := AddLines(m, init).0;
      PutGet(r, last.0, last.1);
      assert lines == init + [last];
      forall l ensures Get(lines, l) == if Get(init, l).Some? then Get(init, l) else if last.0 == l then Some(last.1) else None {
        GetSnoc(init, last, l);
      }
    }
  }

  /** Adding a source's lines reports a new line exactly when one was missing. */
  lemma {:induction false} AddLinesNew(m: SourceLines, lines: SourceLines)
    ensures AddLines(m, lines).1 <==> exists l :: l in Keys(lines) && l !in Keys(m)
  {
    if lines != [] {
      var init, last := lines[..|lines| - 1], lines[|lines| - 1];
      var r := AddLines(m, init);
      AddLinesNew(m, init);
      AddLinesKeys(m, init);
      assert lines == init + [last];
      KeysSnoc(init, last);
      assert AddLines(m, lines) == if last.0 !in Keys(r.0) then (Put(r.0, last.0, last.1), true) else r;
      if last.0 !in Keys(r.0) {
        assert last.0 in Keys(lines) && last.0 !in Keys(m);
      } else if l :| l in Keys(lines) && l !in Keys(m) {
        assert l in Keys(init) || l == last.0;
        if l == last.0 {
          assert l in Keys(init);
        }
      }
    }
  }

  /** One source of `AddSources`: the lines it records. */
  lemma SourceStepKeys(main: MainTrace, src: string, lines: SourceLines)
    ensures var main' := Put(main, src, AddLines(Get(main, src).GetOr([]), lines).0);
            forall s, l :: Recorded(main', s, l) <==> Recorded(main, s, l) || (s == src && l in Keys(lines))
  {
    var base := Get(main, src).GetOr([]);
    AddLinesKeys(base, lines);
    PutGet(main, src, AddLines(base, lines).0);
  }

  /** One source of `AddSources`: the statuses it keeps. */
  lemma SourceStepKeeps(main: MainTrace, src: string, lines: SourceLines)
    ensures Extends(main, Put(main, src, AddLines(Get(main, src).GetOr([]), lines).0))
  {
    var base := Get(main, src).GetOr([]);
    AddLinesKeeps(base, lines);
    SourceStepKeys(main, src, lines);
    PutGet(main, src, AddLines(base, lines).0);
  }

  /** One source of `AddSources`: whether it is new. */
  lemma SourceStepNew(main: MainTrace, src: string, lines: SourceLines)
    ensures AddLines(Get(main, src).GetOr([]), lines).1 <==> exists l :: l in Keys(lines) && !Recorded(main, src, l)
  {
    AddLinesNew(Get(main, src).GetOr([]), lines);
  }

  lemma HasSnoc(init: Variables, last: (string, SourceLines))
    ensures forall s, l :: Has(init + [last], s, l) <==> Has(init, s, l) || (s == last.0 && l in Keys(last.1))
  {
    var vars := init + [last];
    forall s, l ensures Has(vars, s, l) <==> Has(init, s, l) || (s == last.0 && l in Keys(last.1)) {
      if Has(init, s, l) {
        var k :| 0 <= k < |init| && init[k].0 == s && l in Keys(init[k].1);
        assert vars[k] == init[k];
      }
      if s == last.0 && l in Keys(last.1) {
        assert vars[|init|] == last;
      }
      if Has(vars, s, l) {
        var k :| 0 <= k < |vars| && vars[k].0 == s && l in Keys(vars[k].1);
        if k < |init| {
          assert init[k] == vars[k];
        }
      }
    }
  }

  /** One input's trace keeps every status recorded before it. */
  lemma {:induction false} AddSourcesKeeps(main: MainTrace, vars: Variables)
    ensures Extends(main, AddSources(main, vars).0)
  {
    if vars != [] {
      var init, last := vars[..|vars| - 1], vars[|vars| - 1];
      AddSourcesKeeps(main, init);
      SourceStepKeeps(AddSources(main, init).0, last.0, last.1);
    }
  }

  /** One input's trace records every line it steps on. */
  lemma {:induction false} AddSourcesRecords(main: MainTrace, vars: Variables)
    ensures forall s, l :: Has(vars, s, l) ==> Recorded(AddSources(main, vars).0, s, l)
  {
    if vars != [] {
      var init, last := vars[..|vars| - 1], vars[|vars| - 1];
      AddSourcesRecords(main, init);
      var r := AddSources(main, init).0;
      SourceStepKeys(r, last.0, last.1);
      assert AddSources(main, vars).0 == Put(r, last.0, AddLines(Get(r, last.0).GetOr([]), last.1).0);
      assert vars == init + [last];
      HasSnoc(init, last);
    }
  }

  /** One input's trace records nothing but the lines it steps on. */
  lemma {:induction false} AddSourcesOnly(main: MainTrace, vars: Variables)
    ensures forall s, l :: Recorded(AddSources(main, vars).0, s, l) ==> Recorded(main, s, l) || Has(vars, s, l)
  {
    if vars != [] {
      var init, last := vars[..|vars| - 1], vars[|vars| - 1];
      AddSourcesOnly(main, init);
      SourceStepKeys(AddSources(main, init).0, last.0, last.1);
      assert vars == init + [last];
      HasSnoc(init, last);
    }
  }

  /** An input counts as new exactly when it steps on a line not yet recorded. */
  lemma {:induction false} AddSourcesNew(main: MainTrace, vars: Variables)
    ensures AddSources(main, vars).1 <==> exists s, l :: Has(vars, s, l) && !Recorded(main, s, l)
  {
    if vars != [] {
      var init, last := vars[..|vars| - 1], vars[|vars| - 1];
      AddSourcesNew(main, init);
      var r := AddSources(main, init);
      var here := AddLines(Get(r.0, last.0).GetOr([]), last.1).1;
      assert AddSources(main, vars).1 == (r.1 || here);
      assert vars == init + [last];
      HasSnoc(init, last);
      if here {
        SourceStepNew(r.0, last.0, last.1);
        AddSourcesKeeps(main, init);
        var l :| l in Keys(last.1) && !Recorded(r.0, last.0, l);
        assert Has(vars, last.0, l) && !Recorded(main, last.0, l);
      }
      if exists s, l :: Has(vars, s, l) && !Recorded(main, s, l) {
        var s, l :| Has(vars, s, l) && !Recorded(main, s, l);
        if !Has(init, s, l) {
          AddSourcesOnly(main, init);
          SourceStepNew(r.0, last.0, last.1);
          assert s == last.0 && l in Keys(last.1) && !Recorded(r.0, s, l);
        }
      }
    }
  }

  /** The status `main` records for line `l` of source `s`, if any. */
  function StatusOf(main: MainTrace, s: string, l: string): (r: Option<LineInfo>)
    ensures r.Some? <==> Recorded(main, s, l)
  {
    match Get(main, s)
    case None => None
    case Some(lines) => Get(lines, l)
  }

  /** The status the first entry of source `s` that has line `l` gives it, in the order
      of the trace. */
  function FirstStatus(vars: Variables, s: string, l: string): Option<LineInfo> {
    if vars == [] then None
    else
      var r := FirstStatus(vars[..|vars| - 1], s, l);
      if r.Some? then r
      else if vars[|vars| - 1].0 == s then Get(vars[|vars| - 1].1, l)
      else None
  }

  /** An input gives a status exactly for the lines it steps on. */
  lemma {:induction false} FirstStatusHas(vars: Variables, s: string, l: string)
    ensures FirstStatus(vars, s, l).Some? <==> Has(vars, s, l)
  {
    if vars != [] {
      var init, last := vars[..|vars| - 1], vars[|vars| - 1];
      FirstStatusHas(init, s, l);
      assert vars == init + [last];
      HasSnoc(init, last);
    }
  }

  /** When the trace names each source once, as a dictionary does, the first status is
      the one the trace holds for the line. */
  lemma {:induction false} FirstStatusDistinct(vars: Variables, s: string, l: string)
    requires Distinct(Keys(vars))
    ensures FirstStatus(vars, s, l) == StatusOf(vars, s, l)
  {
    if vars != [] {
      var init, last := vars[..|vars| - 1], vars[|vars| - 1];
      LastKeyFresh(vars);
      FirstStatusDistinct(init, s, l);
      assert vars == init + [last];
      GetSnoc(init, last, s);
    }
  }

  /** One source of `AddSources`: an unrecorded line takes the status the source gives. */
  lemma SourceStepStatus(main: MainTrace, src: string, lines: SourceLines, s: string, l: string)
    ensures var main' := Put(main, src, AddLines(Get(main, src).GetOr([]), lines).0);
            StatusOf(main', s, l) ==
              if StatusOf(main, s, l).Some? then StatusOf(main, s, l)
              else if src == s then Get(lines, l) else None
  {
    var base := Get(main, src).GetOr([]);
    AddLinesStatus(base, lines);
    PutGet(main, src, AddLines(base, lines).0);
  }

  /** A line's status after one input: the one recorded before, else the first the
      input gives it. */
  lemma {:induction false} AddSourcesStatus(main: MainTrace, vars: Variables, s: string, l: string)
    ensures StatusOf(AddSources(main, vars).0, s, l) ==
              if StatusOf(main, s, l).Some? then StatusOf(main, s, l) else FirstStatus(vars, s, l)
  {
    if vars != [] {
      var init, last := vars[..|vars| - 1], vars[|vars| - 1];
      AddSourcesStatus(main, init, s, l);
      SourceStepStatus(AddSources(main, init).0, last.0, last.1, s, l);
    }
  }

  /** The status of a line in the first input along `order` that steps on it. */
  function FirstStatusIn(traces: Traces, order: seq<string>, s: string, l: string): Option<LineInfo> {
    if order == [] then None
    else
      var r := FirstStatusIn(traces, order[..|order| - 1], s, l);
      if r.Some? then r
      else match Get(traces, order[|order| - 1])
        case None => None
        case Some(vars) => FirstStatus(vars, s, l)
  }

  /** Input `i` has a trace, which gives line `l` of source `s` a status: it steps on
      that line (`FirstStatusHas`). */
  predicate StepsOn(traces: Traces, i: string, s: string, l: string) {
    Get(traces, i).Some? && FirstStatus(Get(traces, i).value, s, l).Some?
  }

  /** `FirstStatusIn` gives a status exactly when some input along `order` steps on the
      line. */
  lemma {:induction false} FirstStatusInSome(traces: Traces, order: seq<string>, s: string, l: string)
    ensures FirstStatusIn(traces, order, s, l).Some? <==> exists n :: 0 <= n < |order| && StepsOn(traces, order[n], s, l)
  {
    if order != [] {
      var init, i := order[..|order| - 1], order[|order| - 1];
      var r := FirstStatusIn(traces, init, s, l);
      FirstStatusInSome(traces, init, s, l);
      if r.Some? {
        var n :| 0 <= n < |init| && StepsOn(traces, init[n], s, l);
        assert order[n] == init[n];
      }
      if exists n :: 0 <= n < |order| && StepsOn(traces, order[n], s, l) {
        var n :| 0 <= n < |order| && StepsOn(traces, order[n], s, l);
        if n < |init| {
          assert init[n] == order[n];
        }
      }
    }
  }

  /** The status `FirstStatusIn` gives is the one the earliest input along `order` that
      steps on the line gives. */
  lemma {:induction false} FirstStatusInIsFirst(traces: Traces, order: seq<string>, s: string, l: string, n: nat)
    requires n < |order| && StepsOn(traces, order[n], s, l)
    requires forall m :: 0 <= m < n ==> !StepsOn(traces, order[m], s, l)
    ensures FirstStatusIn(traces, order, s, l) == FirstStatus(Get(traces, order[n]).value, s, l)
  {
    var init := order[..|order| - 1];
    if n < |init| {
      assert init[n] == order[n];
      assert forall m :: 0 <= m < n ==> init[m] == order[m];
      FirstStatusInIsFirst(traces, init, s, l, n);
      FirstStatusHas(Get(traces, order[n]).value, s, l);
    } else {
      FirstStatusInSome(traces, init, s, l);
      assert forall m :: 0 <= m < |init| ==> init[m] == order[m];
    }
  }

  /** Every line the greedy loop records carries the status of the first input, in the
      processing order, that steps on it; later inputs never change it. */
  lemma {:induction false} GreedyStatus(traces: Traces, order: seq<string>, s: string, l: string)
    ensures StatusOf(Greedy(traces, order).0, s, l) == FirstStatusIn(traces, order, s, l)
  {
    if order != [] {
      var init, i := order[..|order| - 1], order[|order| - 1];
      GreedyStatus(traces, init, s, l);
      if Get(traces, i).Some? {
        AddSourcesStatus(Greedy(traces, init).0, Get(traces, i).value, s, l);
      }
    }
  }

  /** What the greedy loop keeps, after a prefix of the order: every chosen input is an
      input, every recorded line comes from a chosen input, and every input processed so
      far has all its lines recorded. */
  ghost predicate Covering(traces: Traces, order: seq<string>, main: MainTrace, chosen: set<string>) {
    (forall i :: i in chosen ==> i in order && Get(traces, i).Some?) &&
    (forall s, l :: Recorded(main, s, l) ==> exists j :: j in chosen && Get(traces, j).Some? && Has(Get(traces, j).value, s, l)) &&
    (forall i, s, l :: i in order && Get(traces, i).Some? && Has(Get(traces, i).value, s, l) ==> Recorded(main, s, l))
  }

  lemma CoveringStep(traces: Traces, order: seq<string>, main: MainTrace, chosen: set<string>, i: string, vars: Variables)
    requires Covering(traces, order, main, chosen) && Get(traces, i) == Some(vars)
    ensures var added := AddSources(main, vars);
            Covering(traces, order + [i], added.0, if added.1 then chosen + {i} else chosen)
  {
    var added := AddSources(main, vars);
    var order', chosen' := order + [i], if added.1 then chosen + {i} else chosen;
    assert forall j :: j in chosen' ==> j in order' && Get(traces, j).Some?;
    forall s, l | Recorded(added.0, s, l)
      ensures exists j :: j in chosen' && Get(traces, j).Some? && Has(Get(traces, j).value, s, l)
    {
      AddSourcesOnly(main, vars);
      if !Recorded(main, s, l) {
        AddSourcesNew(main, vars);
        assert i in chosen' && Has(vars, s, l);
      }
    }
    forall j, s, l | j in order' && Get(traces, j).Some? && Has(Get(traces, j).value, s, l)
      ensures Recorded(added.0, s, l)
    {
      if j == i {
        AddSourcesRecords(main, vars);
      } else {
        AddSourcesKeeps(main, vars);
      }
    }
  }

  lemma {:induction false} GreedyCovers(traces: Traces, order: seq<string>)
    ensures Covering(traces, order, Greedy(traces, order).0, Greedy(traces, order).1)
  {
    if order != [] {
      var init, i := order[..|order| - 1], order[|order| - 1];
      GreedyCovers(traces, init);
      assert order == init + [i];
      var r := Greedy(traces, init);
      if Get(traces, i).Some? {
        CoveringStep(traces, init, r.0, r.1, i, Get(traces, i).value);
      }
    }
  }

  /** The chosen inputs are inputs, and together they step on every line any input steps on. */
  lemma MinimizeCovers(traces: Traces)
    ensures forall i :: i in MinimizeSpec(traces) ==> i in Keys(traces)
    ensures forall i, s, l :: i in Keys(traces) && Has(Get(traces, i).value, s, l) ==>
              exists j :: j in MinimizeSpec(traces) && Has(Get(traces, j).value, s, l)
  {
    var order := Order(traces);
    OrderMembers(traces);
    GreedyCovers(traces, order);
    var g := Greedy(traces, order);
    assert Covering(traces, order, g.0, g.1);
    forall i | i in g.1 ensures i in Keys(traces) {
      assert i in order;
    }
    forall i, s, l | i in Keys(traces) && Has(Get(traces, i).value, s, l)
      ensures exists j :: j in g.1 && Has(Get(traces, j).value, s, l)
    {
      assert i in order;
      assert Recorded(g.0, s, l);
    }
  }

  /** A chosen input steps on at least one line. */
  lemma {:induction false} GreedyChosen(traces: Traces, order: seq<string>)
    ensures forall i :: i in Greedy(traces, order).1 ==>
              Get(traces, i).Some? && exists s, l :: Has(Get(traces, i).value, s, l)
  {
    if order != [] {
      var init, i := order[..|order| - 1], order[|order| - 1];
      GreedyChosen(traces, init);
      if Get(traces, i).Some? {
        AddSourcesNew(Greedy(traces, init).0, Get(traces, i).value);
      }
    }
  }

  /** An input whose trace steps on no line is not among the chosen. */
  lemma MinimizeSkipsEmpty(traces: Traces, i: string)
    requires Get(traces, i).Some?
    requires forall k :: 0 <= k < |Get(traces, i).value| ==> Get(traces, i).value[k].1 == []
    ensures i !in MinimizeSpec(traces)
  {
    GreedyChosen(traces, Order(traces));
  }

  /** Each input is chosen exactly when, at its turn, it steps on a line that no earlier
      input recorded; the statuses recorded earlier are kept, whatever later inputs say,
      and each newly recorded line takes the status this input gives it. */
  lemma GreedyStep(traces: Traces, order: seq<string>, i: string)
    requires i !in order && Get(traces, i).Some?
    ensures var before, after := Greedy(traces, order), Greedy(traces, order + [i]);
            var vars := Get(traces, i).value;
            (i in after.1 <==> exists s, l :: Has(vars, s, l) && !Recorded(before.0, s, l)) &&
            (forall j :: j != i ==> (j in after.1 <==> j in before.1)) &&
            Extends(before.0, after.0) &&
            (forall s, l :: !Recorded(before.0, s, l) ==> StatusOf(after.0, s, l) == FirstStatus(vars, s, l))
  {
    assert (order + [i])[..|order|] == order;
    GreedyCovers(traces, order);
    AddSourcesNew(Greedy(traces, order).0, Get(traces, i).value);
    AddSourcesKeeps(Greedy(traces, order).0, Get(traces, i).value);
    forall s, l {
      AddSourcesStatus(Greedy(traces, order).0, Get(traces, i).value, s, l);
    }
  }

  // ---------------------------------------------------------------- the loops

  /** The `val` loop of one input. */
  method CountLines(vars: Variables) returns (val: nat)
    ensures val == LineTotal(vars)
  {
    val := 0;
    var k := 0;
    while k < |vars|
      invariant 0 <= k <= |vars| && val == LineTotal(vars[..k])
    {
      assert vars[..k + 1][..k] == vars[..k];
      val := val + |vars[k].1|;
      k := k + 1;
    }
    assert vars[..k] == vars;
  }

  /** The lines of one source: each new line chooses the input and records its status. */
  method AddLinesLoop(main: MainTrace, src: string, lines: SourceLines, i: string, chosen: set<string>)
    returns (main': MainTrace, chosen': set<string>)
    ensures var added := AddLines(Get(main, src).GetOr([]), lines);
            main' == Put(main, src, added.0) && chosen' == (if added.1 then chosen + {i} else chosen)
  {
    var base := Get(main, src).GetOr([]);
    main' := Put(main, src, base);
    chosen' := chosen;
    var k := 0;
    while k < |lines|
      invariant 0 <= k <= |lines|
      invariant main' == Put(main, src, AddLines(base, lines[..k]).0)
      invariant chosen' == if AddLines(base, lines[..k]).1 then chosen + {i} else chosen
    {
      assert lines[..k + 1][..k] == lines[..k];
      var (line, status) := lines[k];
      var cur := AddLines(base, lines[..k]).0;
      PutGet(main, src, cur);
      var entry := Get(main', src).value;
      if line !in Keys(entry) {
        chosen' := chosen' + {i};
        PutTwice(main, src, cur, Put(cur, line, status));
        main' := Put(main', src, Put(entry, line, status));
      }
      k := k + 1;
    }
    assert lines[..k] == lines;
  }

  /** The sources of one input. */
  method AddSourcesLoop(main: MainTrace, vars: Variables, i: string, chosen: set<string>)
    returns (main': MainTrace, chosen': set<string>)
    ensures var added := AddSources(main, vars);
            main' == added.0 && chosen' == (if added.1 then chosen + {i} else chosen)
  {
    main', chosen' := main, chosen;
    var k := 0;
    while k < |vars|
      invariant 0 <= k <= |vars|
      invariant main' == AddSources(main, vars[..k]).0
      invariant chosen' == if AddSources(main, vars[..k]).1 then chosen + {i} else chosen
    {
      assert vars[..k + 1][..k] == vars[..k];
      var (src, lines) := vars[k];
      main', chosen' := AddLinesLoop(main', src, lines, i, chosen');
      k := k + 1;
    }
    assert vars[..k] == vars;
  }

  /** The `ordered` loop: every input with its line total. */
  method RankInputs(traces: Traces) returns (ordered: seq<(string, nat)>)
    ensures ordered == Ranked(traces)
  {
    ordered := [];
    var k := 0;
    while k < |traces|
      invariant 0 <= k <= |traces| && ordered == Ranked(traces[..k])
    {
      var val := CountLines(traces[k].1);
      ordered := ordered + [(traces[k].0, val)];
      k := k + 1;
    }
    assert traces[..k] == traces;
  }

  /** The `for i in ordered_inputs` loop. */
  method GreedyLoop(traces: Traces, orderedInputs: seq<string>) returns (main: MainTrace, inputsMin: set<string>)
    ensures (main, inputsMin) == Greedy(traces, orderedInputs)
  {
    main, inputsMin := [], {};
    var n := 0;
    while n < |orderedInputs|
      invariant 0 <= n <= |orderedInputs|
      invariant (main, inputsMin) == Greedy(traces, orderedInputs[..n])
    {
      assert orderedInputs[..n + 1][..n] == orderedInputs[..n];
      var i := orderedInputs[n];
      var trace := Get(traces, i);
      if trace.Some? {
        main, inputsMin := AddSourcesLoop(main, trace.value, i, inputsMin);
      }
      n := n + 1;
    }
    assert orderedInputs[..n] == orderedInputs;
  }

  /** `minimize_traces(traces)`. */
  method MinimizeTraces(traces: Traces) returns (inputsMin: set<string>)
    ensures inputsMin == MinimizeSpec(traces)
  {
    var ordered := RankInputs(traces);
    var orderedInputs := Names(StableSort(ordered));
    var main;
    main, inputsMin := GreedyLoop(traces, orderedInputs);
  }
}
