/**
 * String helpers shared by the scripts and the Rust example: Python's `str.strip`,
 * line splitting as file iteration and `BufRead::lines` see it, `str.join`,
 * `os.path.join`, `rsplit('/', 1)`, decimal rendering of counters, and ASCII `lower`.
 */
module Text {
  import opened Basics

  /** The ASCII whitespace that `str.strip()` and `str::trim()` remove. */
  predicate IsSpace(c: char) {
    c == ' ' || c == '\t' || c == '\n' || c == '\r' || c == '\U{B}' || c == '\U{C}'
  }

  predicate NoSpace(s: string) {
    forall i :: 0 <= i < |s| ==> !IsSpace(s[i])
  }

  /** Printable ASCII only: no line break of any kind. */
  predicate Printable(s: string) {
    forall i :: 0 <= i < |s| ==> ' ' <= s[i] <= '~'
  }

  lemma PrintableConcat(a: string, b: string)
    requires Printable(a) && Printable(b)
    ensures Printable(a + b)
  {
    forall i | 0 <= i < |a + b|
      ensures ' ' <= (a + b)[i] <= '~'
    {
      if i >= |a| {
        assert (a + b)[i] == b[i - |a|];
      }
    }
  }

  lemma PrintableHasNoLineBreak(s: string)
    requires Printable(s)
    ensures '\n' !in s && '\r' !in s
  {
  }

  predicate AllSpace(s: string) {
    forall i :: 0 <= i < |s| ==> IsSpace(s[i])
  }

  /** Neither end of `s` is whitespace: stripping leaves it as it is. */
  predicate Stripped(s: string) {
    s == [] || (!IsSpace(s[0]) && !IsSpace(s[|s| - 1]))
  }

  /** `s` without its leading whitespace. */
  function TrimStart(s: string): (r: string)
    ensures |r| <= |s|
    decreases |s|
  {
    if s != [] && IsSpace(s[0]) then TrimStart(s[1..]) else s
  }

  lemma {:induction false} TrimStartSpec(s: string)
    ensures var r := TrimStart(s);
      && r == s[|s| - |r|..]
      && (r == [] || !IsSpace(r[0]))
      && forall i :: 0 <= i < |s| - |r| ==> IsSpace(s[i])
    decreases |s|
  {
    if s != [] && IsSpace(s[0]) {
      TrimStartSpec(s[1..]);
    }
  }

  /** `s` without its trailing whitespace. */
  function TrimEnd(s: string): (r: string)
    ensures |r| <= |s|
    decreases |s|
  {
    if s != [] && IsSpace(s[|s| - 1]) then TrimEnd(s[..|s| - 1]) else s
  }

  lemma {:induction false} TrimEndSpec(s: string)
    ensures var r := TrimEnd(s);
      && r == s[..|r|]
      && (r == [] || !IsSpace(r[|r| - 1]))
      && forall i :: |r| <= i < |s| ==> IsSpace(s[i])
    decreases |s|
  {
    if s != [] && IsSpace(s[|s| - 1]) {
      TrimEndSpec(s[..|s| - 1]);
    }
  }

  /** `s.strip()` in Python, `s.trim()` in Rust (ASCII whitespace): the result has no whitespace at either end. */
  function Strip(s: string): (r: string)
    ensures Stripped(r)
    ensures |r| <= |s|
  {
    var t := TrimStart(s);
    var r := TrimEnd(t);
    TrimStartSpec(s);
    TrimEndSpec(t);
    assert r != [] ==> r[0] == t[0];
    r
  }

  /** What `strip` removes is whitespace only: a text already trimmed is kept, an all-blank one becomes empty. */
  lemma StripSpec(s: string)
    ensures Stripped(s) ==> Strip(s) == s
    ensures Strip(s) == [] <==> AllSpace(s)
  {
    var t := TrimStart(s);
    TrimStartSpec(s);
    TrimEndSpec(t);
    assert TrimEnd(t) == [] ==> t == [];
  }

  /**
   * `strip` cuts a slice out of `s` with only whitespace before and after it. With `Stripped`
   * from `Strip`'s contract, this fixes the result: the first and last non-blank characters of
   * `s` and everything between them.
   */
  lemma StripIsSlice(s: string)
    ensures exists a, b :: 0 <= a <= b <= |s| && Strip(s) == s[a..b] && AllSpace(s[..a]) && AllSpace(s[b..])
  {
    var t := TrimStart(s);
    var r := TrimEnd(t);
    TrimStartSpec(s);
    TrimEndSpec(t);
    var a := |s| - |t|;
    var b := a + |r|;
    assert Strip(s) == r;
    assert r == s[a..b];
    assert AllSpace(s[..a]);
    assert s[b..] == t[|r|..];
    assert AllSpace(s[b..]);
  }

  /** Index of the first `c` in `s`, or `|s|` when there is none. */
  function IndexOf(s: string, c: char): (i: nat)
    ensures i <= |s|
    ensures i < |s| ==> s[i] == c
    ensures forall j :: 0 <= j < i ==> s[j] != c
  {
    if s == [] then 0 else if s[0] == c then 0 else 1 + IndexOf(s[1..], c)
  }

  /**
   * The pieces of `s` between occurrences of `c`, the way iterating a text file gives its
   * lines (with `c` the newline): a final separator does not start another, empty, piece,
   * and the empty text has no pieces at all.
   */
  function Split(s: string, c: char): (parts: seq<string>)
    ensures forall i :: 0 <= i < |parts| ==> c !in parts[i]
    ensures s == [] <==> parts == []
    decreases |s|
  {
    if s == [] then []
    else
      var i := IndexOf(s, c);
      if i == |s| then [s] else [s[..i]] + Split(s[i + 1..], c)
  }

  /**
   * The lines of a text split at `'\n'`, terminators dropped: what Rust's `BufRead::lines`
   * yields, up to the `'\r'` it also drops before a `'\n'`.
   */
  function Lines(s: string): (lines: seq<string>)
    ensures forall i :: 0 <= i < |lines| ==> '\n' !in lines[i]
    ensures s == [] <==> lines == []
  {
    Split(s, '\n')
  }

  /**
   * Python's universal newlines: a file opened in text mode reads `"\r\n"` and a lone `'\r'`
   * as `'\n'`, so its lines are `Lines(UniversalNewlines(s))`.
   */
  function UniversalNewlines(s: string): (r: string)
    ensures '\r' !in r
    ensures |r| <= |s|
    ensures s != [] ==> r != [] && (r[0] == '\n' <==> s[0] == '\r' || s[0] == '\n')
    ensures s != [] && s[0] != '\r' ==> r[0] == s[0]
    decreases |s|
  {
    if s == [] then []
    else if s[0] == '\r' then "\n" + UniversalNewlines(if |s| > 1 && s[1] == '\n' then s[2..] else s[1..])
    else [s[0]] + UniversalNewlines(s[1..])
  }

  /** A text without carriage returns reads the same in text mode. */
  lemma {:induction false} UniversalNewlinesPlain(s: string)
    requires '\r' !in s
    ensures UniversalNewlines(s) == s
    decreases |s|
  {
    if s != [] {
      UniversalNewlinesPlain(s[1..]);
      assert [s[0]] + s[1..] == s;
    }
  }

  /** `sep.join(parts)` in Python. */
  function Join(parts: seq<string>, sep: string): string {
    if |parts| == 0 then ""
    else if |parts| == 1 then parts[0]
    else parts[0] + sep + Join(parts[1..], sep)
  }

  lemma {:induction false} JoinSnoc(parts: seq<string>, x: string, sep: string)
    requires parts != []
    ensures Join(parts + [x], sep) == Join(parts, sep) + sep + x
  {
    if |parts| > 1 {
      assert (parts + [x])[1..] == parts[1..] + [x];
      JoinSnoc(parts[1..], x, sep);
    }
  }

  /** A piece without the separator, followed by the separator, splits off as one piece. */
  lemma SplitCons(h: string, c: char, rest: string)
    requires c !in h
    ensures Split(h + [c] + rest, c) == [h] + Split(rest, c)
  {
    var s := h + [c] + rest;
    var i := IndexOf(s, c);
    assert s[|h|] == c;
    assert forall j :: 0 <= j < |h| ==> s[j] == h[j];
    assert i == |h|;
    assert s[..i] == h;
    assert s[i + 1..] == rest;
  }

  /** Round trip: splitting what `Join` made with a one-character separator gives the parts back. */
  lemma {:induction false} SplitJoin(parts: seq<string>, c: char)
    requires forall i :: 0 <= i < |parts| ==> c !in parts[i]
    requires parts == [] || parts[|parts| - 1] != []
    ensures Split(Join(parts, [c]), c) == parts
  {
    if |parts| == 1 {
      var p := parts[0];
      assert Join(parts, [c]) == p;
      assert c !in p && IndexOf(p, c) == |p|;
      assert Split(p, c) == [p];
    } else if |parts| > 1 {
      var rest := Join(parts[1..], [c]);
      assert Join(parts, [c]) == parts[0] + [c] + rest;
      SplitCons(parts[0], c, rest);
      SplitJoin(parts[1..], c);
      assert [parts[0]] + parts[1..] == parts;
    }
  }

  /** A character in neither the parts nor the separator is not in their join. */
  lemma {:induction false} JoinAvoids(parts: seq<string>, sep: string, c: char)
    requires c !in sep && forall i :: 0 <= i < |parts| ==> c !in parts[i]
    ensures c !in Join(parts, sep)
  {
    if |parts| > 1 {
      JoinAvoids(parts[1..], sep, c);
    }
  }

  /** `os.path.join(a, b)` for two components (POSIX). */
  function PathJoin(a: string, b: string): (r: string)
    ensures |b| <= |r| && r[|r| - |b|..] == b
    ensures (b == [] || b[0] != '/') ==> |a| <= |r| && r[..|a|] == a
  {
    if b != [] && b[0] == '/' then b
    else if a == [] || a[|a| - 1] == '/' then a + b
    else a + "/" + b
  }

  /** Joining one base with two relative names gives two different paths. */
  lemma PathJoinInjective(a: string, b1: string, b2: string)
    requires b1 == [] || b1[0] != '/'
    requires b2 == [] || b2[0] != '/'
    requires b1 != b2
    ensures PathJoin(a, b1) != PathJoin(a, b2)
  {
    if a == [] || a[|a| - 1] == '/' {
      assert (a + b1)[|a|..] == b1 && (a + b2)[|a|..] == b2;
    } else {
      assert (a + "/" + b1)[|a| + 1..] == b1 && (a + "/" + b2)[|a| + 1..] == b2;
    }
  }

  function LastIndexOf(s: string, c: char): (i: Option<nat>)
    ensures i.None? <==> c !in s
    ensures i.Some? ==> i.value < |s| && s[i.value] == c && c !in s[i.value + 1..]
    decreases |s|
  {
    if s == [] then None
    else if s[|s| - 1] == c then Some(|s| - 1)
    else
      var i := LastIndexOf(s[..|s| - 1], c);
      assert i.Some? ==> s[i.value + 1..] == s[..|s| - 1][i.value + 1..] + [s[|s| - 1]];
      assert i.None? ==> s == s[..|s| - 1] + [s[|s| - 1]];
      i
  }

  /**
   * `path.rsplit('/', 1)[1]`: the text after the last slash; `None` where Python raises
   * `IndexError` because the path has no slash.
   */
  function AfterLastSlash(p: string): (r: Option<string>)
    ensures r.None? <==> '/' !in p
    ensures r.Some? ==> '/' !in r.value && |r.value| < |p|
    ensures r.Some? ==> p[|p| - |r.value| - 1] == '/' && p[|p| - |r.value|..] == r.value
  {
    match LastIndexOf(p, '/')
    case None => None
    case Some(i) => Some(p[i + 1..])
  }

  predicate IsDigit(c: char) {
    '0' <= c <= '9'
  }

  predicate AllDigits(s: string) {
    forall i :: 0 <= i < |s| ==> IsDigit(s[i])
  }

  function DigitChar(d: nat): (c: char)
    requires d < 10
    ensures IsDigit(c) && c as int - '0' as int == d
  {
    ('0' as int + d) as char
  }

  /** Decimal rendering of a counter, as `format!("{}")` and `str.format` print it. */
  function NatToString(n: nat): (s: string)
    ensures |s| >= 1 && AllDigits(s)
    ensures s[0] == '0' ==> n == 0 && |s| == 1
    decreases n
  {
    if n < 10 then [DigitChar(n)] else NatToString(n / 10) + [DigitChar(n % 10)]
  }

  /** The number a run of decimal digits stands for. */
  function DigitsValue(s: string): nat
    requires AllDigits(s)
    decreases |s|
  {
    if s == [] then 0 else 10 * DigitsValue(s[..|s| - 1]) + (s[|s| - 1] as int - '0' as int)
  }

  lemma {:induction false} DigitsValueOfNatToString(n: nat)
    ensures DigitsValue(NatToString(n)) == n
    decreases n
  {
    if n >= 10 {
      DigitsValueOfNatToString(n / 10);
      var s := NatToString(n);
      assert s[..|s| - 1] == NatToString(n / 10);
    }
  }

  /** Different counters render as different texts. */
  lemma NatToStringInjective(a: nat, b: nat)
    requires a != b
    ensures NatToString(a) != NatToString(b)
  {
    DigitsValueOfNatToString(a);
    DigitsValueOfNatToString(b);
  }

  /** A decimal numeral as `NatToString` writes it: digits, with no leading zero unless it is `0`. */
  predicate Canonical(s: string) {
    s != [] && AllDigits(s) && (s[0] == '0' ==> |s| == 1)
  }

  lemma {:induction false} DigitsValuePositive(s: string)
    requires s != [] && AllDigits(s) && s[0] != '0'
    ensures DigitsValue(s) >= 1
    decreases |s|
  {
    if |s| > 1 {
      DigitsValuePositive(s[..|s| - 1]);
    }
  }

  /** A canonical numeral is the rendering of its own value. */
  lemma {:induction false} NatToStringOfDigits(s: string)
    requires Canonical(s)
    ensures NatToString(DigitsValue(s)) == s
    decreases |s|
  {
    var v := DigitsValue(s);
    if |s| == 1 {
      assert s[..0] == [] && DigitsValue(s[..0]) == 0;
      assert v == s[0] as int - '0' as int && v < 10;
      assert NatToString(v) == [DigitChar(v)] && DigitChar(v) == s[0];
      assert s == [s[0]];
    } else {
      var p := s[..|s| - 1];
      var x := s[|s| - 1] as int - '0' as int;
      assert p[0] == s[0];
      DigitsValuePositive(p);
      NatToStringOfDigits(p);
      assert v == 10 * DigitsValue(p) + x && 0 <= x < 10;
      assert v / 10 == DigitsValue(p) && v % 10 == x;
      assert NatToString(v) == NatToString(v / 10) + [DigitChar(v % 10)];
      assert s == p + [s[|s| - 1]];
    }
  }

  /** Length of the run of digits at the start of `s`. */
  function DigitRun(s: string): (k: nat)
    ensures k <= |s| && AllDigits(s[..k])
    ensures k == |s| || !IsDigit(s[k])
  {
    if s == [] || !IsDigit(s[0]) then 0
    else
      var k := 1 + DigitRun(s[1..]);
      assert s[..k] == [s[0]] + s[1..][..k - 1];
      k
  }

  lemma DigitRunOfDigits(ds: string, t: string)
    requires AllDigits(ds)
    requires t == [] || !IsDigit(t[0])
    ensures DigitRun(ds + t) == |ds|
  {
    var s := ds + t;
    assert forall j :: 0 <= j < |ds| ==> s[j] == ds[j];
    assert |ds| < |s| ==> s[|ds|] == t[0];
  }

  function LowerChar(c: char): char {
    if 'A' <= c <= 'Z' then (c as int + 32) as char else c
  }

  /** `s.lower()` for ASCII letters. */
  function Lower(s: string): (r: string)
    ensures |r| == |s|
    ensures forall i :: 0 <= i < |s| ==> r[i] == LowerChar(s[i])
  {
    if s == [] then [] else [LowerChar(s[0])] + Lower(s[1..])
  }
}
