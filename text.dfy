/** The Python text primitives the converter leans on, restricted to ASCII digits and Latin-1
    whitespace: `int()` on a str, `str()` of an integer, `str.strip`, `str.isdigit`,
    `re.split(r'[\s,]+', ...)` and `re.match(r'-\d', ...)`. */
module Text {
  import opened Wrappers

  predicate IsDigit(c: char) {
    '0' <= c <= '9'
  }

  /** `str.isspace` for the characters up to U+00FF. */
  predicate IsSpace(c: char) {
    c == ' ' || c == '\t' || c == '\n' || c == '\r' || c == '\U{0B}' || c == '\U{0C}'
    || ('\U{1C}' <= c <= '\U{1F}') || c == '\U{85}' || c == '\U{A0}'
  }

  predicate AllDigits(s: string) {
    forall i :: 0 <= i < |s| ==> IsDigit(s[i])
  }

  /** `str.isdigit`: at least one character, and every character a digit. */
  predicate IsDigitString(s: string) {
    |s| > 0 && AllDigits(s)
  }

  function DigitValue(c: char): (d: nat)
    requires IsDigit(c)
    ensures d < 10
  {
    c as int - '0' as int
  }

  function DigitChar(d: nat): (c: char)
    requires d < 10
    ensures IsDigit(c) && DigitValue(c) == d
  {
    ('0' as int + d) as char
  }

  /** The number a string of decimal digits spells (0 for the empty string). */
  function DigitsValue(s: string): nat
    requires AllDigits(s)
  {
    if s == [] then 0 else DigitsValue(s[..|s| - 1]) * 10 + DigitValue(s[|s| - 1])
  }

  /** `str(n)` for a natural number: decimal digits without leading zeros that spell n. */
  function NatToString(n: nat): (s: string)
    ensures IsDigitString(s)
    ensures DigitsValue(s) == n
    ensures |s| > 1 ==> s[0] != '0'
  {
    if n < 10 then [DigitChar(n)]
    else
      var s := NatToString(n / 10) + [DigitChar(n % 10)];
      assert s[..|s| - 1] == NatToString(n / 10);
      s
  }

  /** `str(i)` for any integer: a minus sign before the digits of a negative number. */
  function IntToString(i: int): (s: string)
    ensures |s| > 0 && IsDigit(s[|s| - 1])
    ensures i < 0 <==> s[0] == '-'
  {
    if i < 0 then "-" + NatToString(-i) else NatToString(i)
  }

  predicate AllSpace(s: string) {
    forall k :: 0 <= k < |s| ==> IsSpace(s[k])
  }

  /** `str.lstrip()`: the longest suffix that does not start with whitespace. */
  function StripLeft(s: string): (t: string)
    ensures |t| <= |s| && t == s[|s| - |t|..]
    ensures AllSpace(s[..|s| - |t|])
    ensures t != [] ==> !IsSpace(t[0])
  {
    if s != [] && IsSpace(s[0]) then
      var t := StripLeft(s[1..]);
      assert s[..|s| - |t|] == [s[0]] + s[1..][..|s| - 1 - |t|];
      t
    else s
  }

  /** `str.rstrip()`: the longest prefix that does not end with whitespace. */
  function StripRight(s: string): (t: string)
    ensures |t| <= |s| && t == s[..|t|]
    ensures AllSpace(s[|t|..])
    ensures t != [] ==> !IsSpace(t[|t| - 1])
  {
    if s != [] && IsSpace(s[|s| - 1]) then
      var t := StripRight(s[..|s| - 1]);
      assert s[|t|..] == s[..|s| - 1][|t|..] + [s[|s| - 1]];
      t
    else s
  }

  /** `str.strip()`: the input with its leading and trailing whitespace removed, so that
      what is left neither starts nor ends with whitespace. */
  function Strip(s: string): (t: string)
    ensures exists i :: 0 <= i && i + |t| <= |s| && t == s[i..i + |t|] && AllSpace(s[..i]) && AllSpace(s[i + |t|..])
    ensures t != [] ==> !IsSpace(t[0]) && !IsSpace(t[|t| - 1])
  {
    var l := StripLeft(s);
    var t := StripRight(l);
    StripSlices(s, l, t);
    var i := |s| - |l|;
    assert AllSpace(s[..i]) && AllSpace(s[i + |t|..]);
    t
  }

  /** Where the two halves of `Strip` cut the input. */
  lemma StripSlices(s: string, l: string, t: string)
    requires |l| <= |s| && l == s[|s| - |l|..]
    requires |t| <= |l| && t == l[..|t|]
    ensures t == s[|s| - |l|..|s| - |l| + |t|] && s[|s| - |l| + |t|..] == l[|t|..]
  {
  }

  predicate DigitsAndUnderscores(s: string) {
    forall i :: 0 <= i < |s| ==> IsDigit(s[i]) || s[i] == '_'
  }

  /** What `int()` accepts after the optional sign: digits, with single underscores
      between two digits. */
  predicate IsIntBody(s: string) {
    && |s| > 0
    && IsDigit(s[0])
    && IsDigit(s[|s| - 1])
    && DigitsAndUnderscores(s)
    && forall i :: 0 <= i < |s| - 1 ==> s[i] == '_' ==> IsDigit(s[i + 1])
  }

  function RemoveUnderscores(s: string): (t: string)
    requires DigitsAndUnderscores(s)
    ensures AllDigits(t)
  {
    if s == [] then [] else (if s[0] == '_' then [] else [s[0]]) + RemoveUnderscores(s[1..])
  }

  /** `int(s)` for a str `s`; None where Python raises ValueError. */
  function ParseInt(s: string): Option<int> {
    var t := Strip(s);
    var body := if |t| > 0 && (t[0] == '-' || t[0] == '+') then t[1..] else t;
    if IsIntBody(body) then
      var v := DigitsValue(RemoveUnderscores(body)) as int;
      Some(if t[0] == '-' then -v else v)
    else None
  }

  lemma {:induction false} RemoveUnderscoresOfDigits(s: string)
    requires AllDigits(s)
    ensures RemoveUnderscores(s) == s
  {
    if s != [] {
      RemoveUnderscoresOfDigits(s[1..]);
    }
  }

  lemma StripOfTrimmed(s: string)
    requires s != [] && !IsSpace(s[0]) && !IsSpace(s[|s| - 1])
    ensures Strip(s) == s
  {
  }

  /** A string of digits is an `int()` body without underscores. */
  lemma IntBodyOfDigits(d: string)
    requires IsDigitString(d)
    ensures IsIntBody(d) && RemoveUnderscores(d) == d
  {
    RemoveUnderscoresOfDigits(d);
  }

  /** `int()` of a string with no surrounding whitespace, through its body. */
  lemma ParseIntOfTrimmed(t: string, body: string)
    requires t != [] && !IsSpace(t[0]) && !IsSpace(t[|t| - 1])
    requires body == if t[0] == '-' || t[0] == '+' then t[1..] else t
    requires IsDigitString(body)
    ensures ParseInt(t) == Some(if t[0] == '-' then -(DigitsValue(body) as int) else DigitsValue(body) as int)
  {
    StripOfTrimmed(t);
    IntBodyOfDigits(body);
  }

  /** `int(s)` of a string of digits is the number they spell. */
  lemma ParseIntOfDigits(s: string)
    requires IsDigitString(s)
    ensures ParseInt(s) == Some(DigitsValue(s) as int)
  {
    ParseIntOfTrimmed(s, s);
  }

  /** `int(str(i)) == i`: the printed form of an integer reads back as that integer. */
  lemma ParseIntOfIntToString(i: int)
    ensures ParseInt(IntToString(i)) == Some(i)
  {
    if i < 0 {
      var s := IntToString(i);
      var d := NatToString(-i);
      assert s[1..] == d && s[|s| - 1] == d[|d| - 1];
      ParseIntOfTrimmed(s, d);
    } else {
      ParseIntOfDigits(NatToString(i));
    }
  }

  /** The separators of `re.split(r'[\s,]+', ...)`. */
  predicate IsListSeparator(c: char) {
    IsSpace(c) || c == ','
  }

  function NonSeparators(s: string): string {
    if s == [] then []
    else (if IsListSeparator(s[0]) then [] else [s[0]]) + NonSeparators(s[1..])
  }

  function Concat(parts: seq<string>): string {
    if parts == [] then [] else parts[0] + Concat(parts[1..])
  }

  predicate AllSeparators(s: string) {
    forall k :: 0 <= k < |s| ==> IsListSeparator(s[k])
  }

  /** The run of separators at the start of `s` dropped. */
  function SkipSeparators(s: string): (t: string)
    ensures |t| <= |s|
    ensures t != [] ==> !IsListSeparator(t[0])
    ensures s != [] && IsListSeparator(s[0]) ==> |t| < |s|
  {
    if s != [] && IsListSeparator(s[0]) then SkipSeparators(s[1..]) else s
  }

  /** What `SkipSeparators` drops is a run of separators, and it keeps the rest of `s`
      and so every non-separator. */
  lemma SkipSeparatorsSplits(s: string)
    ensures var t := SkipSeparators(s);
      && t == s[|s| - |t|..]
      && AllSeparators(s[..|s| - |t|])
      && NonSeparators(t) == NonSeparators(s)
  {
    SkipSeparatorsDropsRun(s);
    SkipSeparatorsKeepsNonSeparators(s);
  }

  lemma {:induction false} SkipSeparatorsDropsRun(s: string)
    ensures var t := SkipSeparators(s);
      t == s[|s| - |t|..] && AllSeparators(s[..|s| - |t|])
  {
    if s != [] && IsListSeparator(s[0]) {
      var t := SkipSeparators(s[1..]);
      SkipSeparatorsDropsRun(s[1..]);
      assert s[1..][|s| - 1 - |t|..] == s[|s| - |t|..];
      assert s[..|s| - |t|] == [s[0]] + s[1..][..|s| - 1 - |t|];
    }
  }

  lemma {:induction false} SkipSeparatorsKeepsNonSeparators(s: string)
    ensures NonSeparators(SkipSeparators(s)) == NonSeparators(s)
  {
    if s != [] && IsListSeparator(s[0]) {
      SkipSeparatorsKeepsNonSeparators(s[1..]);
    }
  }

  /** The maximal runs of commas and whitespace in `s`, left to right: what the pattern
      `[\s,]+` matches. */
  function SeparatorRuns(s: string): (runs: seq<string>)
    ensures forall k :: 0 <= k < |runs| ==> runs[k] != [] && AllSeparators(runs[k])
    decreases |s|
  {
    if s == [] then []
    else if IsListSeparator(s[0]) then
      var t := SkipSeparators(s);
      SkipSeparatorsSplits(s);
      [s[..|s| - |t|]] + SeparatorRuns(t)
    else SeparatorRuns(s[1..])
  }

  /** `parts[0] + seps[0] + parts[1] + ... + parts[n]`. */
  function Interleave(parts: seq<string>, seps: seq<string>): string
    requires |parts| == |seps| + 1
  {
    if seps == [] then parts[0] else parts[0] + seps[0] + Interleave(parts[1..], seps[1..])
  }

  /** The pieces of `s` after a piece `current` already begun: one more piece than `s` has
      separator runs, none holding a separator, together `current` and the non-separators
      of `s`. */
  function SplitFrom(s: string, current: string): (parts: seq<string>)
    requires forall j :: 0 <= j < |current| ==> !IsListSeparator(current[j])
    ensures |parts| == |SeparatorRuns(s)| + 1
    ensures forall k, j :: 0 <= k < |parts| && 0 <= j < |parts[k]| ==> !IsListSeparator(parts[k][j])
    ensures Concat(parts) == current + NonSeparators(s)
    decreases |s|
  {
    if s == [] then [current]
    else if IsListSeparator(s[0]) then
      var rest := SplitFrom(SkipSeparators(s), "");
      SkipSeparatorsSplits(s);
      assert Concat([current] + rest) == current + Concat(rest);
      [current] + rest
    else
      var parts := SplitFrom(s[1..], current + [s[0]]);
      assert current + NonSeparators(s) == current + [s[0]] + NonSeparators(s[1..]);
      parts
  }

  /** The pieces `SplitFrom` cuts, put back between the separator runs, give `current + s`. */
  lemma {:induction false} SplitFromInterleaves(s: string, current: string)
    requires forall j :: 0 <= j < |current| ==> !IsListSeparator(current[j])
    ensures Interleave(SplitFrom(s, current), SeparatorRuns(s)) == current + s
    decreases |s|
  {
    if s == [] {
    } else if IsListSeparator(s[0]) {
      SplitFromInterleaves(SkipSeparators(s), "");
      RunStep(s, current);
    } else {
      SplitFromInterleaves(s[1..], current + [s[0]]);
      PieceGrows(s, current);
    }
  }

  /** The first piece extends the piece already begun, by at least the character that
      follows when that is not a separator. */
  lemma {:induction false} FirstPieceGrows(s: string, current: string)
    requires forall j :: 0 <= j < |current| ==> !IsListSeparator(current[j])
    ensures |SplitFrom(s, current)[0]| >= |current|
    ensures s != [] && !IsListSeparator(s[0]) ==> |SplitFrom(s, current)[0]| > |current|
    decreases |s|
  {
    if s != [] && !IsListSeparator(s[0]) {
      FirstPieceGrows(s[1..], current + [s[0]]);
    }
  }

  /** The runs being maximal, no piece between two runs is empty. */
  lemma {:induction false} InnerPiecesNonEmpty(s: string, current: string)
    requires forall j :: 0 <= j < |current| ==> !IsListSeparator(current[j])
    ensures var parts := SplitFrom(s, current);
      forall k :: 0 < k < |parts| - 1 ==> parts[k] != []
    decreases |s|
  {
    if s == [] {
    } else if IsListSeparator(s[0]) {
      var t := SkipSeparators(s);
      var rest := SplitFrom(t, "");
      InnerPiecesNonEmpty(t, "");
      FirstPieceGrows(t, "");
      if |rest| > 1 {
        assert SeparatorRuns(t) != [];
      }
      assert SplitFrom(s, current) == [current] + rest;
    } else {
      InnerPiecesNonEmpty(s[1..], current + [s[0]]);
      SplitFromStep(s, current);
    }
  }

  /** The non-separator step of `SplitFromInterleaves`: the first character joins the
      current piece, and the runs are those of the rest. */
  lemma PieceGrows(s: string, current: string)
    requires forall j :: 0 <= j < |current| ==> !IsListSeparator(current[j])
    requires s != [] && !IsListSeparator(s[0])
    requires Interleave(SplitFrom(s[1..], current + [s[0]]), SeparatorRuns(s[1..])) == current + [s[0]] + s[1..]
    ensures Interleave(SplitFrom(s, current), SeparatorRuns(s)) == current + s
  {
    SplitFromStep(s, current);
    ConsAfter(current, s);
  }

  lemma SplitFromStep(s: string, current: string)
    requires forall j :: 0 <= j < |current| ==> !IsListSeparator(current[j])
    requires s != [] && !IsListSeparator(s[0])
    ensures SplitFrom(s, current) == SplitFrom(s[1..], current + [s[0]])
    ensures SeparatorRuns(s) == SeparatorRuns(s[1..])
  {
  }

  lemma ConsAfter(current: string, s: string)
    requires s != []
    ensures current + s == current + [s[0]] + s[1..]
  {
  }

  /** The separator step of `SplitFromInterleaves`. */
  lemma RunStep(s: string, current: string)
    requires forall j :: 0 <= j < |current| ==> !IsListSeparator(current[j])
    requires s != [] && IsListSeparator(s[0])
    requires Interleave(SplitFrom(SkipSeparators(s), ""), SeparatorRuns(SkipSeparators(s))) == SkipSeparators(s)
    ensures Interleave(SplitFrom(s, current), SeparatorRuns(s)) == current + s
  {
    var t := SkipSeparators(s);
    var run := s[..|s| - |t|];
    SkipSeparatorsSplits(s);
    RunThenRest(s, t);
    InterleaveAtRun(current, run, t, SplitFrom(t, ""));
    calc {
      Interleave(SplitFrom(s, current), SeparatorRuns(s));
      == { assert s == run + t; }
      Interleave([current] + SplitFrom(t, ""), SeparatorRuns(run + t));
      == current + run + t;
      == { ConcatAssoc(current, run, t); }
      current + s;
    }
  }

  lemma RunThenRest(s: string, t: string)
    requires |t| <= |s| && t == s[|s| - |t|..]
    ensures s == s[..|s| - |t|] + t
  {
  }

  lemma ConcatAssoc(a: string, b: string, c: string)
    ensures a + (b + c) == a + b + c
  {
  }

  /** The separator step of `SplitFromInterleaves`: the piece before a run, the run, then
      the pieces of what follows it. */
  lemma InterleaveAtRun(current: string, run: string, t: string, rest: seq<string>)
    requires forall j :: 0 <= j < |current| ==> !IsListSeparator(current[j])
    requires run != [] && AllSeparators(run)
    requires t != [] ==> !IsListSeparator(t[0])
    requires rest == SplitFrom(t, "")
    requires Interleave(rest, SeparatorRuns(t)) == t
    ensures SplitFrom(run + t, current) == [current] + rest
    ensures Interleave([current] + rest, SeparatorRuns(run + t)) == current + run + t
  {
    SkipRun(run, t);
    RunsAtRun(run, t);
    var parts := [current] + rest;
    assert parts[1..] == rest;
    assert ([run] + SeparatorRuns(t))[1..] == SeparatorRuns(t);
  }

  lemma RunsAtRun(run: string, t: string)
    requires run != [] && AllSeparators(run)
    requires SkipSeparators(run + t) == t && (run + t)[..|run + t| - |t|] == run
    ensures SeparatorRuns(run + t) == [run] + SeparatorRuns(t)
  {
    assert (run + t)[0] == run[0];
  }

  /** Skipping the separators of `run + t`, where `t` starts with no separator, leaves `t`. */
  lemma {:induction false} SkipRun(run: string, t: string)
    requires AllSeparators(run)
    requires t != [] ==> !IsListSeparator(t[0])
    ensures SkipSeparators(run + t) == t && (run + t)[..|run + t| - |t|] == run
  {
    if run != [] {
      assert (run + t)[1..] == run[1..] + t;
      SkipRun(run[1..], t);
    }
  }

  /** `re.split(r'[\s,]+', s)`: the pieces between the maximal runs of commas and
      whitespace, so that the pieces and the runs interleaved give back `s`. No piece holds
      a separator and no inner piece is empty; a run at either end leaves an empty first or
      last piece. The pieces together are `s` without its separators. */
  function SplitOnSeparators(s: string): (parts: seq<string>)
    ensures |parts| == |SeparatorRuns(s)| + 1
    ensures Interleave(parts, SeparatorRuns(s)) == s
    ensures forall k, j :: 0 <= k < |parts| && 0 <= j < |parts[k]| ==> !IsListSeparator(parts[k][j])
    ensures forall k :: 0 < k < |parts| - 1 ==> parts[k] != []
    ensures Concat(parts) == NonSeparators(s)
  {
    SplitFromInterleaves(s, "");
    InnerPiecesNonEmpty(s, "");
    SplitFrom(s, "")
  }

  /** `re.match(r'-\d', s)`: a minus sign followed by a digit at the very start. */
  predicate StartsWithMinusDigit(s: string) {
    |s| >= 2 && s[0] == '-' && IsDigit(s[1])
  }

  /** `c * n` in Python: n copies of one character. */
  function Repeat(c: char, n: nat): (s: string)
    ensures |s| == n && forall i :: 0 <= i < n ==> s[i] == c
  {
    if n == 0 then [] else [c] + Repeat(c, n - 1)
  }

  /** `','.join(str(n) for n in ns)`. */
  function JoinWithCommas(ns: seq<int>): string {
    if ns == [] then ""
    else if |ns| == 1 then IntToString(ns[0])
    else IntToString(ns[0]) + "," + JoinWithCommas(ns[1..])
  }

  /** `str.strip` leaves a string without whitespace alone. */
  lemma StripOfSpaceless(s: string)
    requires forall j :: 0 <= j < |s| ==> !IsSpace(s[j])
    ensures Strip(s) == s
  {
    if s != [] {
      StripOfTrimmed(s);
    }
  }
}
