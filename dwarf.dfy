/** `parse_dwarf`: the statement lines of every source file, read from the text that
    `llvm-dwarfdump --debug-line` prints for a binary (the text is the input here; running
    the tool is not modelled). Each regular expression of the original is written out as a
    scanner that tries every start position from the left, as Python's `re` does; every
    repetition in these patterns is followed by a character it cannot take, so none of them
    ever gives characters back. */
module Dwarf {
  import opened Common
  import opened PyStr
  import opened ODict
  import opened Ordering

  // ---------------------------------------------------------------- character runs

  predicate IsBlankChar(c: char) { c == ' ' }

  predicate NotNewline(c: char) { c != '\n' }

  /** The length of the longest run of characters in `cls` from position `p`. */
  function Span(s: string, p: nat, cls: char -> bool): (n: nat)
    requires p <= |s|
    ensures p + n <= |s|
    ensures forall k :: p <= k < p + n ==> cls(s[k])
    ensures p + n == |s| || !cls(s[p + n])
    decreases |s| - p
  {
    if p == |s| || !cls(s[p]) then 0 else 1 + Span(s, p + 1, cls)
  }

  /** `[cls]+` at `p`: the end of the longest non-empty run. */
  function Plus(s: string, p: nat, cls: char -> bool): (r: Option<nat>)
    ensures r.Some? ==> p < r.value <= |s| && forall k :: p <= k < r.value ==> cls(s[k])
    ensures r.Some? ==> r.value == |s| || !cls(s[r.value])
  {
    if p > |s| then None
    else
      var n := Span(s, p, cls);
      if n == 0 then None else Some(p + n)
  }

  /** The literal `lit` at `p`: its end. */
  function Lit(s: string, p: nat, lit: string): (r: Option<nat>)
    ensures r.Some? ==> r.value == p + |lit| <= |s| && s[p..r.value] == lit
  {
    if p <= |s| && StartsWith(s[p..], lit) then Some(p + |lit|) else None
  }

  /** The end of the line holding position `p`: the next newline, or the end of the text. */
  function LineEnd(s: string, p: nat): (r: nat)
    requires p <= |s|
    ensures p <= r <= |s| && (r == |s| || s[r] == '\n')
    ensures forall k :: p <= k < r ==> s[k] != '\n'
  {
    p + Span(s, p, NotNewline)
  }

  /** The last `"` in `s[lo..hi]`. */
  function LastQuote(s: string, lo: nat, hi: nat): (r: Option<nat>)
    requires lo <= hi <= |s|
    ensures r.Some? ==> lo <= r.value < hi && s[r.value] == '"' && forall k :: r.value < k < hi ==> s[k] != '"'
    ensures r.None? ==> forall k :: lo <= k < hi ==> s[k] != '"'
    decreases hi - lo
  {
    if hi == lo then None
    else if s[hi - 1] == '"' then Some(hi - 1)
    else LastQuote(s, lo, hi - 1)
  }

  /** A run of decimal digits, as the patterns capture them. */
  type Digits = s: string | IsDigits(s) witness "0"

  /** `int(d)`. */
  function Number(d: Digits): nat {
    ValueIn(d, 10)
  }

  /** `\d+` at `p`: its end and the digits. */
  function DigitsAt(s: string, p: nat): (r: Option<(nat, Digits)>)
    ensures r.Some? ==> p < r.value.0 <= |s| && r.value.1 == s[p..r.value.0]
  {
    var e :- Plus(s, p, IsDigit);
    assert forall k :: 0 <= k < e - p ==> s[p..e][k] == s[p + k];
    Some((e, s[p..e]))
  }

  // ---------------------------------------------------------------- search and findall

  /** `re.search`: the capture of the leftmost match at or after `p`, where `m(q)` is the
      match at `q` (its end and capture) if there is one. */
  function Search<T>(n: nat, p: nat, m: nat -> Option<(nat, T)>): Option<T>
    decreases n + 1 - p
  {
    if p > n then None
    else if m(p).Some? then Some(m(p).value.1)
    else Search(n, p + 1, m)
  }

  /** `re.findall`: the captures of the successive leftmost matches, each search starting
      where the previous match ended. */
  function FindAll<T>(n: nat, p: nat, m: nat -> Option<(nat, T)>): seq<T>
    decreases n + 1 - p
  {
    if p > n then []
    else if m(p).Some? then
      var e := m(p).value.0;
      [m(p).value.1] + FindAll(n, if p < e then e else p + 1, m)
    else FindAll(n, p + 1, m)
  }

  /** The search finds nothing exactly when no position matches; otherwise it gives the
      capture at the first position that does. */
  lemma {:induction false} SearchSpec<T>(n: nat, p: nat, m: nat -> Option<(nat, T)>)
    ensures Search(n, p, m).None? <==> forall q :: p <= q <= n ==> m(q).None?
    ensures Search(n, p, m).Some? ==>
              exists q :: p <= q <= n && m(q).Some? && m(q).value.1 == Search(n, p, m).value &&
                forall k :: p <= k < q ==> m(k).None?
    decreases n + 1 - p
  {
    if p <= n && m(p).None? {
      SearchSpec(n, p + 1, m);
      if Search(n, p, m).Some? {
        var q :| p + 1 <= q <= n && m(q).Some? && m(q).value.1 == Search(n, p, m).value &&
                 forall k :: p + 1 <= k < q ==> m(k).None?;
        assert forall k :: p <= k < q ==> m(k).None?;
      }
    }
  }

  /** Every capture of `findall` is the capture of a match at some position. */
  lemma {:induction false} FindAllSound<T>(n: nat, p: nat, m: nat -> Option<(nat, T)>, x: T)
    requires x in FindAll(n, p, m)
    ensures exists q :: p <= q <= n && m(q).Some? && m(q).value.1 == x
    decreases n + 1 - p
  {
    if m(p).Some? {
      var e := m(p).value.0;
      if x != m(p).value.1 {
        FindAllSound(n, if p < e then e else p + 1, m, x);
      }
    } else {
      FindAllSound(n, p + 1, m, x);
    }
  }

  // ---------------------------------------------------------------- the patterns

  /** `debug_line\[0x[0-9a-fA-F]+\]` at `p`: its end. */
  function MarkerAt(s: string, p: nat): (r: Option<nat>)
    ensures r.Some? ==> p < r.value <= |s|
  {
    var a :- Lit(s, p, "debug_line[0x");
    var b :- Plus(s, a, IsHexDigit);
    Lit(s, b, "]")
  }

  /** `re.split`: the pieces between successive leftmost matches of `m` (the end of the
      match at a position, if any); the current piece started at `from` and the scan is
      at `p`. */
  function SplitWith(s: string, from: nat, p: nat, m: nat -> Option<nat>): (r: seq<string>)
    requires from <= p <= |s|
    ensures |r| >= 1
    decreases |s| - p
  {
    if p == |s| then [s[from..]]
    else if m(p).Some? && p < m(p).value <= |s| then [s[from..p]] + SplitWith(s, m(p).value, m(p).value, m)
    else SplitWith(s, from, p + 1, m)
  }

  function Marker(dump: string): nat -> Option<nat> {
    (q: nat) => MarkerAt(dump, q)
  }

  /** The line tables: the pieces after the first marker, one per marker. */
  function Tables(dump: string): seq<string> {
    SplitWith(dump, 0, 0, Marker(dump))[1..]
  }

  /** The split has more than one piece exactly when some position matches. */
  lemma {:induction false} SplitWithOne(s: string, from: nat, p: nat, m: nat -> Option<nat>)
    requires from <= p <= |s|
    requires forall q: nat :: m(q).Some? ==> q < m(q).value <= |s|
    ensures |SplitWith(s, from, p, m)| == 1 <==> forall q :: p <= q < |s| ==> m(q).None?
    decreases |s| - p
  {
    if p < |s| {
      if m(p).None? {
        SplitWithOne(s, from, p + 1, m);
      }
    }
  }

  /** There is a line table exactly when the dump holds a `debug_line[0x...]` marker. */
  lemma TablesIff(dump: string)
    ensures Tables(dump) != [] <==> exists q :: 0 <= q < |dump| && MarkerAt(dump, q).Some?
  {
    SplitWithOne(dump, 0, 0, Marker(dump));
    if exists q :: 0 <= q < |dump| && MarkerAt(dump, q).Some? {
      var q :| 0 <= q < |dump| && MarkerAt(dump, q).Some?;
      assert Marker(dump)(q).Some?;
    }
    if Tables(dump) != [] {
      var q :| 0 <= q < |dump| && Marker(dump)(q).Some?;
      assert MarkerAt(dump, q).Some?;
    }
  }

  /** `[vV]ersion:\s+(\d)` at `p`: its end and the digit. */
  function VersionAt(s: string, p: nat): Option<(nat, Digits)> {
    if p < |s| && (s[p] == 'v' || s[p] == 'V') then
      var a :- Lit(s, p + 1, "ersion:");
      var b :- Plus(s, a, IsSpace);
      if b < |s| && IsDigit(s[b]) then Some((b + 1, [s[b]])) else None
    else None
  }

  /** One entry of the file table: `name` and `dir_index`. */
  datatype FileEntry = FileEntry(name: string, dirIndex: Digits)

  /** `file_names\[ *\d+\]:\n +name: "(.*)"\n +dir_index: (\d+)` at `p`. The name runs to
      the end of its line, which must close with the `"`. */
  function FileEntryAt(s: string, p: nat): Option<(nat, FileEntry)> {
    var a :- Lit(s, p, "file_names[");
    var b := a + Span(s, a, IsBlankChar);
    var (c, _) :- DigitsAt(s, b);
    var d :- Lit(s, c, "]:\n");
    var e :- Plus(s, d, IsBlankChar);
    var f :- Lit(s, e, "name: \"");
    var g := LineEnd(s, f);
    if g == |s| || g == f || s[g - 1] != '"' then None
    else
      var h :- Plus(s, g + 1, IsBlankChar);
      var i :- Lit(s, h, "dir_index: ");
      var (j, index) :- DigitsAt(s, i);
      Some((j, FileEntry(s[f..g - 1], index)))
  }

  /** `include_directories\[ *(\d+)\] = "(.*)"` at `p`: the index and the text up to the
      last `"` of the line. */
  function DirectoryAt(s: string, p: nat): Option<(nat, (Digits, string))> {
    var a :- Lit(s, p, "include_directories[");
    var b := a + Span(s, a, IsBlankChar);
    var (c, index) :- DigitsAt(s, b);
    var d :- Lit(s, c, "] = \"");
    var k :- LastQuote(s, d, LineEnd(s, d));
    Some((k + 1, (index, s[d..k])))
  }

  /** One row of the line table: its line number and file index. */
  datatype Row = Row(line: Digits, file: Digits)

  /** ` +\d+` at `p`: its end. */
  function SpacedNumber(s: string, p: nat): Option<nat> {
    var a :- Plus(s, p, IsBlankChar);
    Plus(s, a, IsDigit)
  }

  /** ` +is_stmt` at `p`: its end. */
  function StmtAt(s: string, p: nat): Option<nat> {
    var a :- Plus(s, p, IsBlankChar);
    Lit(s, a, "is_stmt")
  }

  /** `0x[0-9a-fA-F]+ +(\d+) +\d+ +(\d+)(?: +\d+){2,3} +is_stmt` at `p`: three numbers
      after the address, of which the first is the line and the third the file, then two
      or three more, then `is_stmt` (three are tried first). */
  function RowAt(s: string, p: nat): Option<(nat, Row)> {
    var a :- Lit(s, p, "0x");
    var b :- Plus(s, a, IsHexDigit);
    var c :- Plus(s, b, IsBlankChar);
    var (d, line) :- DigitsAt(s, c);
    var e :- SpacedNumber(s, d);
    var f :- Plus(s, e, IsBlankChar);
    var (g, file) :- DigitsAt(s, f);
    var h1 :- SpacedNumber(s, g);
    var h2 :- SpacedNumber(s, h1);
    var h3 := SpacedNumber(s, h2);
    var z :- if h3.Some? && StmtAt(s, h3.value).Some? then StmtAt(s, h3.value) else StmtAt(s, h2);
    Some((z, Row(line, file)))
  }

  // ---------------------------------------------------------------- one table

  /** A line table: its file entries, its `is_stmt` rows and its directories (a later
      entry with the same index overwrites an earlier one). */
  datatype Table = Table(sources: seq<FileEntry>, rows: seq<Row>, dirs: map<nat, string>)

  function DirMap(ds: seq<(Digits, string)>): (r: map<nat, string>)
    ensures forall k :: k in r <==> exists j :: 0 <= j < |ds| && Number(ds[j].0) == k
  {
    if ds == [] then map[]
    else
      var init := DirMap(ds[..|ds| - 1]);
      assert forall j :: 0 <= j < |ds| - 1 ==> ds[..|ds| - 1][j] == ds[j];
      init[Number(ds[|ds| - 1].0) := ds[|ds| - 1].1]
  }

  function ParseTable(t: string): Table {
    Table(FindAll(|t|, 0, q => FileEntryAt(t, q)),
          FindAll(|t|, 0, q => RowAt(t, q)),
          DirMap(FindAll(|t|, 0, q => DirectoryAt(t, q))))
  }

  /** The path of a file entry: `directory/name` when its directory index is in the
      table, else the bare name. */
  function PathOf(e: FileEntry, dirs: map<nat, string>): string {
    var k := Number(e.dirIndex);
    if k in dirs then dirs[k] + "/" + e.name else e.name
  }

  /** `[int(l[0]) for l in lines if l[1] == str(i)]`. */
  function LinesOf(rows: seq<Row>, i: nat): (r: seq<nat>)
    ensures forall x :: x in r <==> exists j :: 0 <= j < |rows| && rows[j].file == NatToStr(i) && Number(rows[j].line) == x
  {
    if rows == [] then []
    else
      var rest := LinesOf(rows[1..], i);
      assert forall j :: 1 <= j < |rows| ==> rows[1..][j - 1] == rows[j];
      (if rows[0].file == NatToStr(i) then [Number(rows[0].line)] else []) + rest
  }

  type LineMap = Dict<string, seq<nat>>

  /** The body of `for i, source in enumerate(sources, start=base)`: each entry, in order,
      assigns its path the rows of its index. */
  function FillSources(out: LineMap, t: Table, base: nat, srcs: seq<FileEntry>): LineMap
    decreases |srcs|
  {
    if srcs == [] then out
    else FillSources(Put(out, PathOf(srcs[0], t.dirs), LinesOf(t.rows, base)), t, base + 1, srcs[1..])
  }

  function FillTable(out: LineMap, t: Table, start: nat): LineMap {
    FillSources(out, t, start, t.sources)
  }

  /** `for table in output: ...`. */
  function FillTables(out: LineMap, ts: seq<Table>, start: nat): LineMap
    decreases |ts|
  {
    if ts == [] then out else FillTables(FillTable(out, ts[0], start), ts[1..], start)
  }

  /** `d.pop(k, None)`: the entry of `k` goes, if there is one. */
  function Discard(d: LineMap, k: string): LineMap {
    if d == [] then []
    else if d[0].0 == k then Discard(d[1..], k)
    else [d[0]] + Discard(d[1..], k)
  }

  predicate NatLess(a: nat, b: nat) { a < b }

  lemma NatLessIsOrder()
    ensures StrictTotalOrder(NatLess)
  {
  }

  /** `dict((s, list(set(ls))) for s, ls in d.items() if ls)`; the set is listed in
      increasing order. */
  function Deduplicated(d: LineMap): LineMap {
    if d == [] then []
    else
      var rest := Deduplicated(d[1..]);
      if d[0].1 == [] then rest
      else
        NatLessIsOrder();
        [(d[0].0, SortedSet(d[0].1, NatLess))] + rest
  }

  /** The last two steps of `parse_dwarf`. */
  function Finish(d: LineMap): LineMap {
    Deduplicated(Discard(d, "<built-in>"))
  }

  /** File numbering: from 1 when the version digit is below 5, else from 0. */
  function StartIndex(version: Digits): nat {
    if Number(version) < 5 then 1 else 0
  }

  function ParseTables(tables: seq<string>): (r: seq<Table>)
    ensures |r| == |tables|
  {
    seq(|tables|, k requires 0 <= k < |tables| => ParseTable(tables[k]))
  }

  /** The version digit of the first table. */
  function Version(table: string): Option<Digits> {
    Search(|table|, 0, (q: nat) => VersionAt(table, q))
  }

  /** `parse_dwarf` on the dump text. With no marker the first table is missing
      (IndexError); with no version line in it the match is None (AttributeError). */
  function DwarfSpec(dump: string): Result<LineMap> {
    var tables := Tables(dump);
    if tables == [] then Fail(IndexError("output[0]"))
    else
      var v := Version(tables[0]);
      if v.None? then Fail(NoneAttribute("re.search(...).group"))
      else Ok(Finish(FillTables([], ParseTables(tables), StartIndex(v.value))))
  }

  /** `parse_dwarf(binary)`, given the text `llvm-dwarfdump --debug-line` prints. */
  method ParseDwarf(dump: string) returns (r: Result<LineMap>)
    ensures r == DwarfSpec(dump)
  {
    var tables := Tables(dump);
    if tables == [] {
      return Fail(IndexError("output[0]"));
    }
    var v := Version(tables[0]);
    if v.None? {
      return Fail(NoneAttribute("re.search(...).group"));
    }
    var start := StartIndex(v.value);
    ghost var parsed := ParseTables(tables);
    var out: LineMap := [];
    var k := 0;
    while k < |tables|
      invariant 0 <= k <= |tables|
      invariant FillTables(out, parsed[k..], start) == FillTables([], parsed, start)
    {
      var t := ParseTable(tables[k]);
      assert parsed[k..][0] == t && parsed[k..][1..] == parsed[k + 1..];
      var i := 0;
      ghost var before := out;
      while i < |t.sources|
        invariant 0 <= i <= |t.sources|
        invariant FillSources(out, t, start + i, t.sources[i..]) == FillTable(before, t, start)
      {
        assert t.sources[i..][1..] == t.sources[i + 1..];
        out := Put(out, PathOf(t.sources[i], t.dirs), LinesOf(t.rows, start + i));
        i := i + 1;
      }
      k := k + 1;
    }
    return Ok(Finish(out));
  }

  // ---------------------------------------------------------------- what the result says

  /** The index of the last entry of `srcs` whose path is `p`. */
  function LastPath(srcs: seq<FileEntry>, dirs: map<nat, string>, p: string): (r: Option<nat>)
    ensures r.Some? ==> r.value < |srcs| && PathOf(srcs[r.value], dirs) == p &&
                          forall k :: r.value < k < |srcs| ==> PathOf(srcs[k], dirs) != p
    ensures r.None? ==> forall k :: 0 <= k < |srcs| ==> PathOf(srcs[k], dirs) != p
  {
    if srcs == [] then None
    else
      var rest := LastPath(srcs[1..], dirs, p);
      assert forall k :: 1 <= k < |srcs| ==> srcs[1..][k - 1] == srcs[k];
      if rest.Some? then Some(rest.value + 1)
      else if PathOf(srcs[0], dirs) == p then Some(0)
      else None
  }

  /** Within a table, the last entry whose path is `p` decides: `p` gets the rows whose
      file index is that entry's number; a path no entry has keeps its old value. */
  lemma {:induction false} FillSourcesSpec(out: LineMap, t: Table, base: nat, srcs: seq<FileEntry>, p: string)
    ensures Get(FillSources(out, t, base, srcs), p) ==
              if LastPath(srcs, t.dirs, p).Some? then Some(LinesOf(t.rows, base + LastPath(srcs, t.dirs, p).value))
              else Get(out, p)
    decreases |srcs|
  {
    if srcs != [] {
      var q, lines := PathOf(srcs[0], t.dirs), LinesOf(t.rows, base);
      var out' := Put(out, q, lines);
      var got := Get(FillSources(out', t, base + 1, srcs[1..]), p);
      assert Get(FillSources(out, t, base, srcs), p) == got;
      FillSourcesSpec(out', t, base + 1, srcs[1..], p);
      PutGet(out, q, lines);
      var rest := LastPath(srcs[1..], t.dirs, p);
      if rest.Some? {
        assert LastPath(srcs, t.dirs, p) == Some(rest.value + 1);
        assert got == Some(LinesOf(t.rows, base + (rest.value + 1)));
      } else if q == p {
        assert LastPath(srcs, t.dirs, p) == Some(0);
        assert got == Some(lines);
      } else {
        assert LastPath(srcs, t.dirs, p) == None;
        assert got == Get(out, p);
      }
    }
  }

  /** The rows a table gives `p`, when one of its entries has that path. */
  function TableLines(t: Table, start: nat, p: string): Option<seq<nat>> {
    var j := LastPath(t.sources, t.dirs, p);
    if j.Some? then Some(LinesOf(t.rows, start + j.value)) else None
  }

  /** The index of the last table with an entry whose path is `p`. */
  function LastTable(ts: seq<Table>, start: nat, p: string): (r: Option<nat>)
    ensures r.Some? ==> r.value < |ts| && TableLines(ts[r.value], start, p).Some? &&
                          forall k :: r.value < k < |ts| ==> TableLines(ts[k], start, p).None?
    ensures r.None? ==> forall k :: 0 <= k < |ts| ==> TableLines(ts[k], start, p).None?
  {
    if ts == [] then None
    else
      var rest := LastTable(ts[1..], start, p);
      assert forall k :: 1 <= k < |ts| ==> ts[1..][k - 1] == ts[k];
      if rest.Some? then Some(rest.value + 1)
      else if TableLines(ts[0], start, p).Some? then Some(0)
      else None
  }

  /** A later table overwrites an earlier one: `p` gets what the last table naming it
      gives it. */
  lemma {:induction false} FillTablesSpec(out: LineMap, ts: seq<Table>, start: nat, p: string)
    ensures Get(FillTables(out, ts, start), p) ==
              if LastTable(ts, start, p).Some? then TableLines(ts[LastTable(ts, start, p).value], start, p)
              else Get(out, p)
    decreases |ts|
  {
    if ts != [] {
      FillSourcesSpec(out, ts[0], start, ts[0].sources, p);
      FillTablesSpec(FillTable(out, ts[0], start), ts[1..], start, p);
    }
  }

  lemma {:induction false} FillSourcesDistinct(out: LineMap, t: Table, base: nat, srcs: seq<FileEntry>)
    requires Distinct(Keys(out))
    ensures Distinct(Keys(FillSources(out, t, base, srcs)))
    decreases |srcs|
  {
    if srcs != [] {
      var out' := Put(out, PathOf(srcs[0], t.dirs), LinesOf(t.rows, base));
      PutDistinct(out, PathOf(srcs[0], t.dirs), LinesOf(t.rows, base));
      FillSourcesDistinct(out', t, base + 1, srcs[1..]);
    }
  }

  lemma {:induction false} FillTablesDistinct(out: LineMap, ts: seq<Table>, start: nat)
    requires Distinct(Keys(out))
    ensures Distinct(Keys(FillTables(out, ts, start)))
    decreases |ts|
  {
    if ts != [] {
      FillSourcesDistinct(out, ts[0], start, ts[0].sources);
      FillTablesDistinct(FillTable(out, ts[0], start), ts[1..], start);
    }
  }

  lemma {:induction false} DiscardGet(d: LineMap, k: string, p: string)
    ensures Get(Discard(d, k), p) == if p == k then None else Get(d, p)
  {
    if d != [] {
      DiscardGet(d[1..], k, p);
    }
  }

  lemma {:induction false} DiscardKeys(d: LineMap, k: string)
    requires Distinct(Keys(d))
    ensures Distinct(Keys(Discard(d, k))) && forall x :: x in Keys(Discard(d, k)) ==> x in Keys(d)
  {
    if d != [] {
      assert Keys(d) == [d[0].0] + Keys(d[1..]);
      DiscardKeys(d[1..], k);
      assert d[0].0 !in Keys(d[1..]);
      if d[0].0 != k {
        assert Keys(Discard(d, k)) == [d[0].0] + Keys(Discard(d[1..], k));
      }
    }
  }

  lemma {:induction false} DeduplicatedGet(d: LineMap, p: string)
    requires Distinct(Keys(d))
    ensures Get(Deduplicated(d), p) ==
              if Get(d, p).Some? && Get(d, p).value != [] then (NatLessIsOrder(); Some(SortedSet(Get(d, p).value, NatLess)))
              else None
  {
    if d != [] {
      assert Keys(d) == [d[0].0] + Keys(d[1..]);
      DeduplicatedGet(d[1..], p);
      if d[0].0 == p {
        assert p !in Keys(d[1..]);
      }
    }
  }

  /** What `parse_dwarf` returns for a path: nothing for `<built-in>` or when the last
      table naming it gives it no rows; otherwise the distinct line numbers, in increasing
      order, of the `is_stmt` rows whose file index is the number of the last entry with
      that path in the last table naming it, entries being numbered from 1 below DWARF 5
      and from 0 from version 5 on. */
  lemma DwarfLines(dump: string, p: string)
    requires DwarfSpec(dump).Ok?
    ensures var tables := Tables(dump);
            var start := StartIndex(Version(tables[0]).value);
            var ts := ParseTables(tables);
            var got := LastTable(ts, start, p);
            var lines := if got.Some? then TableLines(ts[got.value], start, p).value else [];
            (Get(DwarfSpec(dump).value, p).Some? <==> p != "<built-in>" && got.Some? && lines != []) &&
            (Get(DwarfSpec(dump).value, p).Some? ==>
               Sorted(Get(DwarfSpec(dump).value, p).value, NatLess) &&
               forall x :: x in Get(DwarfSpec(dump).value, p).value <==> x in lines)
  {
    var tables := Tables(dump);
    var start := StartIndex(Version(tables[0]).value);
    var ts := ParseTables(tables);
    var filled := FillTables([], ts, start);
    FillTablesSpec([], ts, start, p);
    FillTablesDistinct([], ts, start);
    DiscardGet(filled, "<built-in>", p);
    DiscardKeys(filled, "<built-in>");
    DeduplicatedGet(Discard(filled, "<built-in>"), p);
    NatLessIsOrder();
  }

  /** A table's contribution for `p`: the line numbers of exactly the rows whose file
      index, as written, is the decimal number of the entry (so `01` never matches). */
  lemma TableLinesSpec(t: Table, start: nat, p: string)
    requires TableLines(t, start, p).Some?
    ensures var j := LastPath(t.sources, t.dirs, p).value;
            PathOf(t.sources[j], t.dirs) == p &&
            forall x :: x in TableLines(t, start, p).value <==>
              exists r :: r in t.rows && r.file == NatToStr(start + j) && Number(r.line) == x
  {
    var j := LastPath(t.sources, t.dirs, p).value;
    forall x ensures x in TableLines(t, start, p).value <==>
                       exists r :: r in t.rows && r.file == NatToStr(start + j) && Number(r.line) == x {
      if exists r :: r in t.rows && r.file == NatToStr(start + j) && Number(r.line) == x {
        var r :| r in t.rows && r.file == NatToStr(start + j) && Number(r.line) == x;
        var i :| 0 <= i < |t.rows| && t.rows[i] == r;
      }
    }
  }
}
