/** `parse_includes`: the headers named by the `#include` lines of a C file, given as
    its list of lines. */
module AstParser {
  import opened Common
  import opened PyStr

  /** A line holds `#include` once its space characters (only ' ') are removed. */
  predicate IsIncludeLine(line: string) {
    Contains(RemoveChar(line, ' '), "#include")
  }

  /** The delimiters `sp` of a line: angle brackets when the line holds a `>`, else quotes. */
  function Delimiters(line: string): (char, char) {
    if '>' in line then ('<', '>') else ('"', '"')
  }

  /** What one line contributes: nothing (`None`), a header, or the IndexError that
      `line.split(open)[1]` raises when the opening delimiter is missing. */
  function HeaderOf(line: string): Result<Option<string>> {
    if !IsIncludeLine(line) then Ok(None)
    else if '"' !in line && '<' !in line then Ok(None)
    else
      var (open, close) := Delimiters(line);
      var parts := Split(line, [open]);
      if |parts| < 2 then Fail(IndexError("line.split(sp[0])[1]"))
      else
        var header := Split(parts[1], [close])[0];
        if header == "string.h" then Ok(None) else Ok(Some(header))
  }

  /** The set a loop collects when each line contributes `f(line)`: nothing, one
      element, or a fault that stops the loop. The first line that faults decides. */
  function Collect(lines: seq<string>, f: string -> Result<Option<string>>): Result<set<string>>
  {
    if lines == [] then Ok({})
    else
      var init :- Collect(lines[..|lines| - 1], f);
      var h :- f(lines[|lines| - 1]);
      Ok(if h.Some? then init + {h.value} else init)
  }

  /** `parse_includes(code)`. */
  function Includes(code: seq<string>): Result<set<string>> {
    Collect(code, HeaderOf)
  }

  /** `parse_includes(code)`: collects the headers in a list, then returns its set. */
  method ParseIncludes(code: seq<string>) returns (r: Result<set<string>>)
    ensures r == Includes(code)
  {
    var headers: seq<string> := [];
    var i := 0;
    while i < |code|
      invariant 0 <= i <= |code|
      invariant Collect(code[..i], HeaderOf).Ok?
      invariant forall x :: x in Collect(code[..i], HeaderOf).value <==> x in headers
    {
      assert code[..i + 1][..i] == code[..i];
      var h := HeaderOf(code[i]);
      if h.Fail? {
        assert Collect(code[..i + 1], HeaderOf).Fail?;
        FailureSticks(code, HeaderOf, i + 1);
        return Fail(h.fault);
      }
      if h.value.Some? {
        headers := headers + [h.value.value];
      }
      i := i + 1;
    }
    assert code[..i] == code;
    r := Ok(set h | h in headers);
    assert r.value == Includes(code).value;
  }

  /** Once a prefix of the lines faults, the whole list faults the same way. */
  lemma {:induction false} FailureSticks(lines: seq<string>, f: string -> Result<Option<string>>, n: nat)
    requires n <= |lines| && Collect(lines[..n], f).Fail?
    ensures Collect(lines, f) == Collect(lines[..n], f)
    decreases |lines| - n
  {
    if n == |lines| {
      assert lines[..n] == lines;
    } else {
      assert lines[..n + 1][..n] == lines[..n];
      FailureSticks(lines, f, n + 1);
    }
  }

  /** The collected set holds exactly the contributions of the individual lines, and the
      loop faults exactly when some line does. */
  lemma {:induction false} CollectSpec(lines: seq<string>, f: string -> Result<Option<string>>)
    ensures Collect(lines, f).Ok? <==> forall i :: 0 <= i < |lines| ==> f(lines[i]).Ok?
    ensures Collect(lines, f).Ok? ==>
              forall h :: h in Collect(lines, f).value <==>
                exists i :: 0 <= i < |lines| && f(lines[i]) == Ok(Some(h))
  {
    if lines != [] {
      var init := lines[..|lines| - 1];
      CollectSpec(init, f);
      assert forall i :: 0 <= i < |init| ==> init[i] == lines[i];
      if Collect(lines, f).Ok? {
        var last := f(lines[|lines| - 1]).value;
        forall h ensures h in Collect(lines, f).value <==>
                           exists i :: 0 <= i < |lines| && f(lines[i]) == Ok(Some(h)) {
          if exists i :: 0 <= i < |lines| && f(lines[i]) == Ok(Some(h)) {
            var i :| 0 <= i < |lines| && f(lines[i]) == Ok(Some(h));
            if i < |init| {
              assert f(init[i]) == Ok(Some(h));
            }
          }
          if h in Collect(init, f).value {
            var i :| 0 <= i < |init| && f(init[i]) == Ok(Some(h));
            assert f(lines[i]) == Ok(Some(h));
          }
        }
      }
    }
  }

  /** The result is the set of headers of the individual lines, and it fails exactly
      when some line fails; `string.h` never appears. */
  lemma IncludesSpec(code: seq<string>)
    ensures Includes(code).Ok? <==> forall i :: 0 <= i < |code| ==> HeaderOf(code[i]).Ok?
    ensures Includes(code).Ok? ==>
              forall h :: h in Includes(code).value <==>
                exists i :: 0 <= i < |code| && HeaderOf(code[i]) == Ok(Some(h))
    ensures Includes(code).Ok? ==> "string.h" !in Includes(code).value
  {
    CollectSpec(code, HeaderOf);
  }

  /** The index of the first `c` in `s`. */
  function FirstIndex(s: string, c: char): (r: nat)
    requires c in s
    ensures r < |s| && s[r] == c && c !in s[..r]
  {
    if s[0] == c then 0 else FirstIndex(s[1..], c) + 1
  }

  /** The longest prefix of `s` holding no character of `stops`. */
  function UpTo(s: string, stops: set<char>): (r: string)
    ensures |r| <= |s| && r == s[..|r|]
    ensures forall k :: 0 <= k < |r| ==> r[k] !in stops
    ensures |r| == |s| || s[|r|] in stops
  {
    if s == [] || s[0] in stops then [] else [s[0]] + UpTo(s[1..], stops)
  }

  /** Two prefixes with those three properties are the same prefix. */
  lemma UpToUnique(s: string, stops: set<char>, p: string)
    requires |p| <= |s| && p == s[..|p|]
    requires forall k :: 0 <= k < |p| ==> p[k] !in stops
    requires |p| == |s| || s[|p|] in stops
    ensures p == UpTo(s, stops)
  {
  }

  /** Cutting at `a` and then at `b` cuts at the first of either. */
  lemma UpToTwice(s: string, a: set<char>, b: set<char>)
    ensures UpTo(UpTo(s, a), b) == UpTo(s, a + b)
  {
    var u := UpTo(s, a);
    var h := UpTo(u, b);
    assert h == s[..|h|];
    if |h| < |s| {
      if |h| < |u| {
        assert s[|h|] == u[|h|];
      }
    }
    UpToUnique(s, a + b, h);
  }

  /** `split(c)[0]` is the prefix up to the first `c`. */
  lemma SplitCharFirst(s: string, c: char)
    ensures Split(s, [c])[0] == UpTo(s, {c})
  {
    SplitHead(s, [c]);
    var p := Split(s, [c])[0];
    ContainsChar(p, c);
    if Find(s, [c]).Some? {
      var i := Find(s, [c]).value;
      assert OccursAt(s, [c], i);
      assert s[i..i + 1] == [c];
    }
    UpToUnique(s, {c}, p);
  }

  /** `split(c)[1]` is the text after the first `c`, up to the next `c` or the end. */
  lemma SplitCharSecond(s: string, c: char)
    requires c in s
    ensures |Split(s, [c])| >= 2
    ensures Split(s, [c])[1] == UpTo(s[FirstIndex(s, c) + 1..], {c})
  {
    ContainsChar(s, c);
    var i := Find(s, [c]).value;
    assert s[i..i + 1] == [c];
    assert i == FirstIndex(s, c) by {
      var f := FirstIndex(s, c);
      if f < i {
        assert s[f..f + 1] == [c];
        assert OccursAt(s, [c], f);
      }
    }
    SplitCharFirst(s[i + 1..], c);
  }

  /** `s.split(open)[1].split(close)[0]` is the text after the first `open`, up to the
      next `open` or `close` or the end. */
  lemma BetweenShape(s: string, open: char, close: char)
    requires open in s
    ensures |Split(s, [open])| >= 2
    ensures Split(Split(s, [open])[1], [close])[0] == UpTo(s[FirstIndex(s, open) + 1..], {open, close})
  {
    SplitCharSecond(s, open);
    SplitCharFirst(Split(s, [open])[1], close);
    UpToTwice(s[FirstIndex(s, open) + 1..], {open}, {close});
    assert {open} + {close} == {open, close};
  }

  /** A header comes from an include line; it is the text right after the first opening
      delimiter, running up to the next delimiter of either kind or the end of the line. */
  lemma HeaderShape(line: string, h: string)
    requires HeaderOf(line) == Ok(Some(h))
    ensures IsIncludeLine(line) && h != "string.h"
    ensures Delimiters(line).0 in line
    ensures h == UpTo(line[FirstIndex(line, Delimiters(line).0) + 1..], {Delimiters(line).0, Delimiters(line).1})
  {
    var open := Delimiters(line).0;
    SplitHead(line, [open]);
    ContainsChar(line, open);
    BetweenShape(line, open, Delimiters(line).1);
  }

  /** The IndexError hazard: an include line that holds `>` and `"` but no `<`, or `<`
      but neither `>` nor `"`, raises. Every other line is handled. */
  lemma HeaderFails(line: string)
    ensures HeaderOf(line).Fail? <==>
              IsIncludeLine(line) &&
              (('>' in line && '"' in line && '<' !in line) || ('>' !in line && '"' !in line && '<' in line))
  {
    SplitHead(line, [Delimiters(line).0]);
    ContainsChar(line, Delimiters(line).0);
  }
}
