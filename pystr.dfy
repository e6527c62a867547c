/** The Python `str` operations the analysed code relies on, with the exact semantics of
    CPython for the cases that occur: substring search (`in`, `find`), `split(sep)`,
    `split()`, `split(maxsplit=1)`, `strip()`, `startswith`, `endswith`, `replace(c, "")`,
    `count`, `int(s)` and `int(s, 16)`, and decimal rendering of naturals. */
module PyStr {
  import opened Common

  /** The characters for which Python's `str.isspace()` holds: what `split()` and `strip()`
      treat as blanks. */
  const Blanks: set<char> := {
    ' ', '\t', '\n', '\U{0b}', '\U{0c}', '\r', '\U{1c}', '\U{1d}', '\U{1e}', '\U{1f}', '\U{85}', '\U{a0}',
    '\U{1680}', '\U{2000}', '\U{2001}', '\U{2002}', '\U{2003}', '\U{2004}', '\U{2005}', '\U{2006}',
    '\U{2007}', '\U{2008}', '\U{2009}', '\U{200a}', '\U{2028}', '\U{2029}', '\U{202f}', '\U{205f}', '\U{3000}'}

  predicate IsSpace(c: char) { c in Blanks }

  predicate IsDigit(c: char) { '0' <= c <= '9' }

  predicate IsHexDigit(c: char) { '0' <= c <= '9' || 'a' <= c <= 'f' || 'A' <= c <= 'F' }

  predicate NoSpace(s: string) { forall k :: 0 <= k < |s| ==> !IsSpace(s[k]) }

  predicate StartsWith(s: string, p: string) { |p| <= |s| && s[..|p|] == p }

  predicate EndsWith(s: string, p: string) { |p| <= |s| && s[|s| - |p|..] == p }

  /** `sub` occurs in `s` starting at index `i`. */
  predicate OccursAt(s: string, sub: string, i: int) {
    0 <= i && i + |sub| <= |s| && s[i..i + |sub|] == sub
  }

  /** Leftmost occurrence of `sub` in `s` at or after `i` (Python `s.find(sub, i)`). */
  function FindFrom(s: string, sub: string, i: nat): (r: Option<nat>)
    requires i <= |s|
    ensures r.Some? ==> i <= r.value && OccursAt(s, sub, r.value)
    ensures r.Some? ==> forall j :: i <= j < r.value ==> !OccursAt(s, sub, j)
    ensures r.None? ==> forall j :: i <= j ==> !OccursAt(s, sub, j)
    decreases |s| - i
  {
    if OccursAt(s, sub, i) then Some(i)
    else if i == |s| then None
    else FindFrom(s, sub, i + 1)
  }

  function Find(s: string, sub: string): Option<nat> { FindFrom(s, sub, 0) }

  /** Python's `sub in s`. */
  predicate Contains(s: string, sub: string) { Find(s, sub).Some? }

  lemma ContainsIff(s: string, sub: string)
    ensures Contains(s, sub) <==> exists i :: OccursAt(s, sub, i)
  {
  }

  /** A one-character substring occurs exactly when the character is an element. */
  lemma ContainsChar(s: string, c: char)
    ensures Contains(s, [c]) <==> c in s
  {
    if c in s {
      var i :| 0 <= i < |s| && s[i] == c;
      assert OccursAt(s, [c], i);
    }
    if Contains(s, [c]) {
      var i := Find(s, [c]).value;
      assert s[i..i + 1][0] == s[i];
    }
  }

  lemma ContainsPrefix(s: string, p: string)
    requires StartsWith(s, p)
    ensures Contains(s, p)
  {
    assert OccursAt(s, p, 0);
  }

  /** An occurrence inside a slice is an occurrence in the whole string. */
  lemma OccursInSlice(s: string, sub: string, lo: nat, hi: nat, j: int)
    requires lo <= hi <= |s|
    requires OccursAt(s[lo..hi], sub, j)
    ensures OccursAt(s, sub, lo + j)
  {
    forall k | 0 <= k < |sub|
      ensures s[lo + j..lo + j + |sub|][k] == sub[k]
    {
      assert sub[k] == s[lo..hi][j + k];
    }
  }

  lemma ContainsSlice(s: string, sub: string, lo: nat, hi: nat)
    requires lo <= hi <= |s|
    requires Contains(s[lo..hi], sub)
    ensures Contains(s, sub)
  {
    var j := Find(s[lo..hi], sub).value;
    OccursInSlice(s, sub, lo, hi, j);
  }

  /** Python's `sep.join(pieces)`. */
  function Join(pieces: seq<string>, sep: string): string
    requires |pieces| >= 1
  {
    if |pieces| == 1 then pieces[0] else pieces[0] + sep + Join(pieces[1..], sep)
  }

  /** Python's `s.split(sep)` for a non-empty separator: the pieces between the
      successive leftmost, non-overlapping occurrences of `sep`. */
  function Split(s: string, sep: string): (r: seq<string>)
    requires |sep| > 0
    ensures |r| >= 1
    ensures Join(r, sep) == s
    ensures forall k :: 0 <= k < |r| ==> !Contains(r[k], sep)
    decreases |s|
  {
    match Find(s, sep)
    case None => [s]
    case Some(i) =>
      var rest := Split(s[i + |sep|..], sep);
      assert !Contains(s[..i], sep) by {
        if Contains(s[..i], sep) {
          var j := Find(s[..i], sep).value;
          OccursInSlice(s, sep, 0, i, j);
        }
      }
      var r := [s[..i]] + rest;
      assert r[1..] == rest;
      assert s == s[..i] + sep + s[i + |sep|..];
      r
  }

  /** The first piece of `split(sep)` is the text before the leftmost separator, or the
      whole string when there is none. */
  lemma SplitHead(s: string, sep: string)
    requires |sep| > 0
    ensures Find(s, sep).None? ==> Split(s, sep) == [s]
    ensures Find(s, sep).Some? ==> Split(s, sep)[0] == s[..Find(s, sep).value] && |Split(s, sep)| >= 2
  {
  }

  /** The second piece of `split(sep)` is the first piece of the text after the leftmost
      separator. */
  lemma SplitSecond(s: string, sep: string)
    requires |sep| > 0 && Contains(s, sep)
    ensures |Split(s, sep)| >= 2
    ensures Split(s, sep)[1] == Split(s[Find(s, sep).value + |sep|..], sep)[0]
  {
  }

  /** The first piece of `split(sep)` is the longest prefix without `sep`: it runs to the
      end or to a separator, and is empty exactly when the text is or starts with `sep`. */
  lemma SplitFirst(s: string, sep: string)
    requires |sep| > 0
    ensures var p := Split(s, sep)[0];
            p == s[..|p|] && !Contains(p, sep) && (|p| == |s| || OccursAt(s, sep, |p|)) &&
            (p == [] <==> s == [] || StartsWith(s, sep))
  {
    SplitHead(s, sep);
    if StartsWith(s, sep) {
      assert OccursAt(s, sep, 0);
    }
    if Find(s, sep) == Some(0) {
      assert s[..|sep|] == s[0..|sep|];
    }
  }

  /** Python's `s.split(sep, maxsplit=1)`. */
  function SplitOnce(s: string, sep: string): (r: seq<string>)
    requires |sep| > 0
    ensures 1 <= |r| <= 2 && Join(r, sep) == s
    ensures !Contains(r[0], sep)
    ensures |r| == 1 <==> !Contains(s, sep)
  {
    match Find(s, sep)
    case None => [s]
    case Some(i) =>
      assert !Contains(s[..i], sep) by {
        if Contains(s[..i], sep) {
          var j := Find(s[..i], sep).value;
          OccursInSlice(s, sep, 0, i, j);
        }
      }
      assert s == s[..i] + sep + s[i + |sep|..];
      [s[..i], s[i + |sep|..]]
  }

  /** Length of the leading run of non-blank characters. */
  function TokenLen(s: string): (n: nat)
    ensures n <= |s| && NoSpace(s[..n]) && (n == |s| || IsSpace(s[n]))
  {
    if s == [] || IsSpace(s[0]) then 0
    else
      var m := TokenLen(s[1..]);
      assert s[..m + 1] == [s[0]] + s[1..][..m];
      m + 1
  }

  /** Python's `s.split()`: the maximal runs of non-blank characters, in order. */
  function SplitWs(s: string): (r: seq<string>)
    ensures forall k :: 0 <= k < |r| ==> r[k] != [] && NoSpace(r[k])
    decreases |s|
  {
    if s == [] then []
    else if IsSpace(s[0]) then SplitWs(s[1..])
    else
      var n := TokenLen(s);
      [s[..n]] + SplitWs(s[n..])
  }

  function Concat(ss: seq<string>): string {
    if ss == [] then [] else ss[0] + Concat(ss[1..])
  }

  /** The string with all blanks removed. */
  function DropSpaces(s: string): string {
    if s == [] then [] else (if IsSpace(s[0]) then [] else [s[0]]) + DropSpaces(s[1..])
  }

  lemma DropSpacesAppend(a: string, b: string)
    ensures DropSpaces(a + b) == DropSpaces(a) + DropSpaces(b)
  {
    if a == [] {
      assert a + b == b;
    } else {
      assert (a + b)[0] == a[0] && (a + b)[1..] == a[1..] + b;
      DropSpacesAppend(a[1..], b);
    }
  }

  lemma DropSpacesNoSpace(a: string)
    requires NoSpace(a)
    ensures DropSpaces(a) == a
  {
    if a != [] {
      DropSpacesNoSpace(a[1..]);
    }
  }

  /** `split()` loses exactly the blanks: its tokens concatenate to the non-blank characters. */
  lemma {:induction false} SplitWsConcat(s: string)
    ensures Concat(SplitWs(s)) == DropSpaces(s)
    decreases |s|
  {
    if s == [] {
    } else if IsSpace(s[0]) {
      SplitWsConcat(s[1..]);
    } else {
      var n := TokenLen(s);
      SplitWsConcat(s[n..]);
      var r := SplitWs(s);
      assert r == [s[..n]] + SplitWs(s[n..]);
      assert r[1..] == SplitWs(s[n..]);
      assert s == s[..n] + s[n..];
      DropSpacesAppend(s[..n], s[n..]);
      DropSpacesNoSpace(s[..n]);
    }
  }

  function LStrip(s: string): string {
    if s != [] && IsSpace(s[0]) then LStrip(s[1..]) else s
  }

  function RStrip(s: string): string {
    if s != [] && IsSpace(s[|s| - 1]) then RStrip(s[..|s| - 1]) else s
  }

  /** `lstrip` drops a blank prefix: what is left is a suffix that starts with no blank. */
  lemma LStripSuffix(s: string)
    ensures |LStrip(s)| <= |s| && LStrip(s) == s[|s| - |LStrip(s)|..]
    ensures LStrip(s) == [] || !IsSpace(LStrip(s)[0])
  {
    if s != [] && IsSpace(s[0]) {
      LStripSuffix(s[1..]);
    }
  }

  /** `rstrip` drops a blank suffix: what is left is a prefix that ends with no blank. */
  lemma RStripPrefix(s: string)
    ensures |RStrip(s)| <= |s| && RStrip(s) == s[..|RStrip(s)|]
    ensures RStrip(s) == [] || !IsSpace(RStrip(s)[|RStrip(s)| - 1])
  {
    if s != [] && IsSpace(s[|s| - 1]) {
      RStripPrefix(s[..|s| - 1]);
    }
  }

  /** Python's `s.strip()`. */
  function Strip(s: string): string { RStrip(LStrip(s)) }

  /** Python's `s.split(maxsplit=1)`: the first token and, when anything but blanks
      follows it, the remainder after the blanks that end the token. */
  function SplitWsOnce(s: string): (r: seq<string>)
    ensures |r| <= 2
    ensures |r| >= 1 ==> r[0] != [] && NoSpace(r[0])
  {
    var t := LStrip(s);
    LStripSuffix(s);
    if t == [] then []
    else
      var n := TokenLen(t);
      var rest := LStrip(t[n..]);
      if rest == [] then [t[..n]] else [t[..n], rest]
  }

  /** The first token of `split(maxsplit=1)` is the first token of `split()`. */
  lemma SplitWsOnceHead(s: string)
    ensures |SplitWsOnce(s)| >= 1 <==> |SplitWs(s)| >= 1
    ensures |SplitWsOnce(s)| >= 1 ==> SplitWsOnce(s)[0] == SplitWs(s)[0]
    decreases |s|
  {
    if s != [] && IsSpace(s[0]) {
      SplitWsOnceHead(s[1..]);
    }
  }

  /** `split()` ignores leading blanks. */
  lemma SplitWsLStrip(s: string)
    ensures SplitWs(s) == SplitWs(LStrip(s))
  {
    if s != [] && IsSpace(s[0]) {
      SplitWsLStrip(s[1..]);
    }
  }

  /** `split()` finds no token exactly when only blanks are left after `lstrip()`. */
  lemma SplitWsEmpty(s: string)
    ensures SplitWs(s) == [] <==> LStrip(s) == []
  {
    SplitWsLStrip(s);
    LStripSuffix(s);
  }

  /** `split(maxsplit=1)` has a second piece exactly when `split()` finds two tokens. */
  lemma SplitWsOnceTwo(s: string)
    ensures |SplitWsOnce(s)| == 2 <==> |SplitWs(s)| >= 2
  {
    var t := LStrip(s);
    SplitWsLStrip(s);
    LStripSuffix(s);
    if t != [] {
      var n := TokenLen(t);
      assert SplitWs(t) == [t[..n]] + SplitWs(t[n..]);
      SplitWsEmpty(t[n..]);
    }
  }

  /** Python's `s.replace(c, "")` for a one-character pattern. */
  function RemoveChar(s: string, c: char): (r: string)
    ensures forall k :: 0 <= k < |r| ==> r[k] != c
    ensures |r| <= |s|
  {
    if s == [] then [] else (if s[0] == c then [] else [s[0]]) + RemoveChar(s[1..], c)
  }

  /** Python's `s.count(c)` for a one-character pattern. */
  function CountChar(s: string, c: char): nat {
    if s == [] then 0 else (if s[0] == c then 1 else 0) + CountChar(s[1..], c)
  }

  lemma CountCharAppend(a: string, b: string, c: char)
    ensures CountChar(a + b, c) == CountChar(a, c) + CountChar(b, c)
  {
    if a == [] {
      assert a + b == b;
    } else {
      assert (a + b)[0] == a[0] && (a + b)[1..] == a[1..] + b;
      CountCharAppend(a[1..], b, c);
    }
  }

  /** ASCII lower-casing. Python's `lower()` also maps other scripts, but no non-ASCII
      character lower-cases to an ASCII letter other than `k` and `i`, so a search for an
      ASCII word that avoids those letters gives the same answer. */
  function AsciiLower(s: string): (r: string)
    ensures |r| == |s|
  {
    if s == [] then []
    else [if 'A' <= s[0] <= 'Z' then (s[0] as int + 32) as char else s[0]] + AsciiLower(s[1..])
  }

  /** Non-empty and made of ASCII decimal digits only. */
  predicate IsDigits(s: string) { |s| > 0 && forall k :: 0 <= k < |s| ==> IsDigit(s[k]) }

  predicate IsHexDigits(s: string) { |s| > 0 && forall k :: 0 <= k < |s| ==> IsHexDigit(s[k]) }

  function DigitValue(c: char): nat
    requires IsHexDigit(c)
  {
    if '0' <= c <= '9' then c as int - '0' as int
    else if 'a' <= c <= 'f' then c as int - 'a' as int + 10
    else c as int - 'A' as int + 10
  }

  /** The value of a digit string in base `b` (most significant digit first). */
  function ValueIn(s: string, b: nat): nat
    requires forall k :: 0 <= k < |s| ==> IsHexDigit(s[k])
    decreases |s|
  {
    if s == [] then 0 else ValueIn(s[..|s| - 1], b) * b + DigitValue(s[|s| - 1])
  }

  function DigitChar(d: nat): (c: char)
    requires d < 16
    ensures IsHexDigit(c) && DigitValue(c) == d
    ensures d < 10 ==> IsDigit(c)
  {
    if d < 10 then ('0' as int + d) as char else ('a' as int + d - 10) as char
  }

  /** Decimal `str(n)`. */
  function NatToStr(n: nat): (r: string)
    ensures IsDigits(r)
    decreases n
  {
    if n < 10 then [DigitChar(n)] else NatToStr(n / 10) + [DigitChar(n % 10)]
  }

  /** Lower-case hexadecimal `'%x' % n`. */
  function NatToHex(n: nat): (r: string)
    ensures IsHexDigits(r)
    decreases n
  {
    if n < 16 then [DigitChar(n)] else NatToHex(n / 16) + [DigitChar(n % 16)]
  }

  lemma {:induction false} NatToStrValue(n: nat)
    ensures ValueIn(NatToStr(n), 10) == n
    decreases n
  {
    var r := NatToStr(n);
    if n < 10 {
      assert r[..0] == [];
    } else {
      NatToStrValue(n / 10);
      assert r[..|r| - 1] == NatToStr(n / 10);
    }
  }

  lemma {:induction false} NatToHexValue(n: nat)
    ensures ValueIn(NatToHex(n), 16) == n
    decreases n
  {
    var r := NatToHex(n);
    if n < 16 {
      assert r[..0] == [];
    } else {
      NatToHexValue(n / 16);
      assert r[..|r| - 1] == NatToHex(n / 16);
    }
  }

  /** `str(n)` is injective: two naturals render alike only when equal. */
  lemma NatToStrInjective(m: nat, n: nat)
    requires NatToStr(m) == NatToStr(n)
    ensures m == n
  {
    NatToStrValue(m);
    NatToStrValue(n);
  }

  /** Optional sign in front of a digit run: the digits and whether the sign was `-`. */
  function SignSplit(t: string): (string, bool) {
    if t != [] && t[0] == '-' then (t[1..], true)
    else if t != [] && t[0] == '+' then (t[1..], false)
    else (t, false)
  }

  function Signed(negative: bool, v: nat): int {
    if negative then -(v as int) else v
  }

  /** Python's `int(s)` for base 10: blanks around, an optional sign, ASCII digits. */
  function PyInt(s: string): (r: Option<int>)
    ensures r.Some? ==> IsDigits(SignSplit(Strip(s)).0)
  {
    var (digits, negative) := SignSplit(Strip(s));
    if IsDigits(digits) then Some(Signed(negative, ValueIn(digits, 10))) else None
  }

  /** Python's `int(s, 16)`: blanks on either side are skipped, then an optional sign,
      an optional `0x`/`0X` prefix and at least one hexadecimal digit. */
  function PyHexInt(s: string): Option<int> {
    if s != [] && IsSpace(s[0]) then PyHexInt(s[1..])
    else if s != [] && IsSpace(s[|s| - 1]) then PyHexInt(s[..|s| - 1])
    else
      var (body, negative) := SignSplit(s);
      var digits := if |body| >= 2 && body[0] == '0' && (body[1] == 'x' || body[1] == 'X') then body[2..] else body;
      if IsHexDigits(digits) then Some(Signed(negative, ValueIn(digits, 16))) else None
  }

  lemma StripNoSpace(s: string)
    requires s != [] && !IsSpace(s[0]) && !IsSpace(s[|s| - 1])
    ensures Strip(s) == s
  {
  }

  /** `int(str(n)) == n`. */
  lemma PyIntOfNatToStr(n: nat)
    ensures PyInt(NatToStr(n)) == Some(n)
  {
    var r := NatToStr(n);
    assert IsDigit(r[0]) && IsDigit(r[|r| - 1]);
    StripNoSpace(r);
    NatToStrValue(n);
  }

  /** `int("0x%x" % n, 16) == n`: how clang's node ids are read back. */
  lemma PyHexIntRoundTrip(n: nat)
    ensures PyHexInt("0x" + NatToHex(n)) == Some(n)
  {
    var h := NatToHex(n);
    var s := "0x" + h;
    assert s[0] == '0' && s[1] == 'x' && !IsSpace(s[0]);
    assert s[|s| - 1] == h[|h| - 1] && IsHexDigit(s[|s| - 1]);
    assert SignSplit(s) == (s, false);
    assert s[2..] == h;
    NatToHexValue(n);
  }
}
