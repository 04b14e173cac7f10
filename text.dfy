/**
 * Character classes and string primitives shared by the tokenisers:
 * Python's whitespace set, the `\w` word class, ASCII lower-casing,
 * splitting into maximal runs, `str.strip`, `str.split(sep)`, the `in`
 * operator on strings and `str.count`.
 */
module Text {

  /** The characters Python's `str.isspace()` accepts; `str.strip()` and `str.split()` use this set. */
  predicate IsSpace(c: char) {
    c == ' ' || c == '\t' || c == '\n' || c == '\r' || c == '\U{B}' || c == '\U{C}'
    || ('\U{1C}' <= c <= '\U{1F}') || c == '\U{85}' || c == '\U{A0}' || c == '\U{1680}'
    || ('\U{2000}' <= c <= '\U{200A}') || c == '\U{2028}' || c == '\U{2029}'
    || c == '\U{202F}' || c == '\U{205F}' || c == '\U{3000}'
  }

  predicate IsAsciiLetter(c: char) {
    'a' <= c <= 'z' || 'A' <= c <= 'Z'
  }

  predicate IsDigit(c: char) {
    '0' <= c <= '9'
  }

  /** The regular-expression class `\w`, restricted to ASCII. */
  predicate IsWordChar(c: char) {
    IsAsciiLetter(c) || IsDigit(c) || c == '_'
  }

  /** The class `[.!?]` that ends a sentence. */
  predicate IsTerminator(c: char) {
    c == '.' || c == '!' || c == '?'
  }

  function LowerChar(c: char): (r: char)
    ensures IsWordChar(r) <==> IsWordChar(c)
    ensures IsAsciiLetter(c) ==> 'a' <= r <= 'z'
    ensures !('A' <= r <= 'Z')
    ensures !('A' <= c <= 'Z') ==> r == c
  {
    if 'A' <= c <= 'Z' then (c as int + 32) as char else c
  }

  /** `str.lower()` on ASCII; other characters are left as they are. */
  function Lower(s: string): (r: string)
    ensures |r| == |s|
    ensures forall i :: 0 <= i < |s| ==> r[i] == LowerChar(s[i])
  {
    seq(|s|, i requires 0 <= i < |s| => LowerChar(s[i]))
  }

  /** The elements of `s` that satisfy `p`, in order (a filtering list comprehension). */
  function Filter<T(!new)>(s: seq<T>, p: T -> bool): (r: seq<T>)
    ensures |r| <= |s|
    ensures forall x :: x in r <==> x in s && p(x)
    ensures forall x :: p(x) ==> multiset(r)[x] == multiset(s)[x]
  {
    if s == [] then []
    else
      var rest := Filter(s[1..], p);
      assert s == [s[0]] + s[1..];
      if p(s[0]) then [s[0]] + rest else rest
  }

  /** Position of the first occurrence of `x` in `s`, or `|s|` when absent (`list.index`). */
  function FirstIndex<T(==)>(s: seq<T>, x: T): (n: nat)
    ensures n <= |s|
    ensures n < |s| <==> x in s
    ensures n < |s| ==> s[n] == x && forall i :: 0 <= i < n ==> s[i] != x
  {
    if s == [] then 0 else if s[0] == x then 0 else 1 + FirstIndex(s[1..], x)
  }

  lemma FirstIndexAppend<T>(s: seq<T>, y: T, x: T)
    ensures x in s ==> FirstIndex(s + [y], x) == FirstIndex(s, x)
    ensures x !in s && x == y ==> FirstIndex(s + [y], x) == |s|
  {
    var n := FirstIndex(s + [y], x);
    if x in s {
      var m := FirstIndex(s, x);
      assert (s + [y])[m] == x;
      assert n <= m;
      assert s[n] == x;
    }
  }

  ghost predicate Distinct<T>(s: seq<T>) {
    forall i, j :: 0 <= i < j < |s| ==> s[i] != s[j]
  }

  /** A sequence without repetitions has as many elements as its set. */
  lemma {:induction false} DistinctCard<T>(s: seq<T>)
    requires Distinct(s)
    ensures |set x | x in s| == |s|
    decreases |s|
  {
    if s != [] {
      var init := s[..|s| - 1];
      DistinctCard(init);
      assert (set x | x in s) == (set x | x in init) + {s[|s| - 1]};
    }
  }

  /** The separator classes the tokenisers split on. */
  datatype Delimiter =
    | Whitespace   // `str.split()` with no argument
    | NonWord      // the complement of `\w`: `re.findall(r'\b\w+\b', ...)` yields the runs between
    | Terminator   // `re.split(r'[.!?]+', ...)`

  predicate IsSep(d: Delimiter, c: char) {
    match d
    case Whitespace => IsSpace(c)
    case NonWord => !IsWordChar(c)
    case Terminator => IsTerminator(c)
  }

  /** Length of the run of non-separators that starts `s`. */
  function RunLength(s: string, d: Delimiter): (n: nat)
    ensures n <= |s|
    ensures forall i :: 0 <= i < n ==> !IsSep(d, s[i])
    ensures n < |s| ==> IsSep(d, s[n])
  {
    if s == [] || IsSep(d, s[0]) then 0 else 1 + RunLength(s[1..], d)
  }

  /** The maximal runs of non-separator characters of `s`, left to right. */
  function Fields(s: string, d: Delimiter): seq<string>
    decreases |s|
  {
    if s == [] then []
    else if IsSep(d, s[0]) then Fields(s[1..], d)
    else
      var n := RunLength(s, d);
      [s[..n]] + Fields(s[n..], d)
  }

  /** `s` with every separator removed. */
  function RemoveSeps(s: string, d: Delimiter): (r: string)
    ensures |r| <= |s|
  {
    if s == [] then [] else (if IsSep(d, s[0]) then [] else [s[0]]) + RemoveSeps(s[1..], d)
  }

  function Concat(ss: seq<string>): string {
    if ss == [] then [] else ss[0] + Concat(ss[1..])
  }

  /** Positions i >= 1 where a separator is followed by a non-separator. */
  function Boundaries(s: string, d: Delimiter): nat {
    if |s| < 2 then 0
    else (if IsSep(d, s[0]) && !IsSep(d, s[1]) then 1 else 0) + Boundaries(s[1..], d)
  }

  /** Number of positions where a run starts: a non-separator at the front or after a separator. */
  function RunStarts(s: string, d: Delimiter): nat {
    if s == [] then 0 else (if IsSep(d, s[0]) then 0 else 1) + Boundaries(s, d)
  }

  lemma {:induction false} RemoveSepsRun(s: string, d: Delimiter, n: nat)
    requires n <= |s|
    requires forall i :: 0 <= i < n ==> !IsSep(d, s[i])
    ensures RemoveSeps(s, d) == s[..n] + RemoveSeps(s[n..], d)
    decreases n
  {
    if n > 0 {
      RemoveSepsRun(s[1..], d, n - 1);
      assert s[1..][n - 1..] == s[n..];
      assert s[..n] == [s[0]] + s[1..][..n - 1];
    }
  }

  lemma {:induction false} BoundariesRun(s: string, d: Delimiter, n: nat)
    requires 0 < n <= |s|
    requires forall i :: 0 <= i < n ==> !IsSep(d, s[i])
    requires n < |s| ==> IsSep(d, s[n])
    ensures Boundaries(s, d) == RunStarts(s[n..], d)
    decreases n
  {
    if n == 1 {
      if |s| >= 2 {
        assert s[1..] == s[n..];
      }
    } else {
      BoundariesRun(s[1..], d, n - 1);
      assert s[1..][n - 1..] == s[n..];
    }
  }

  /** `gaps[0] + fs[0] + gaps[1] + ... + fs[n - 1] + gaps[n]`. */
  function Interleave(gaps: seq<string>, fs: seq<string>): string
    requires |gaps| == |fs| + 1
    decreases |fs|
  {
    if fs == [] then gaps[0] else gaps[0] + fs[0] + Interleave(gaps[1..], fs[1..])
  }

  /** Every gap holds separators only, and every gap between two fields holds at least one. */
  ghost predicate SeparatorGaps(gaps: seq<string>, d: Delimiter) {
    && (forall k, i :: 0 <= k < |gaps| && 0 <= i < |gaps[k]| ==> IsSep(d, gaps[k][i]))
    && (forall k :: 0 < k < |gaps| - 1 ==> gaps[k] != [])
  }

  /**
   * The maximal runs, characterised: every field is a non-empty run without
   * separators, and `s` is the fields laid out in order between gaps of
   * separators, with a non-empty gap between any two fields (so each field
   * is a whole run, bounded by a separator or an end of `s` on both sides).
   * Consequently the fields laid end to end give back `s` minus its
   * separators, and there are as many fields as positions where a run starts.
   */
  lemma FieldsSpec(s: string, d: Delimiter)
    ensures forall k :: 0 <= k < |Fields(s, d)| ==>
      Fields(s, d)[k] != [] && forall i :: 0 <= i < |Fields(s, d)[k]| ==> !IsSep(d, Fields(s, d)[k][i])
    ensures exists gaps :: |gaps| == |Fields(s, d)| + 1 && SeparatorGaps(gaps, d) && Interleave(gaps, Fields(s, d)) == s
    ensures Concat(Fields(s, d)) == RemoveSeps(s, d)
    ensures |Fields(s, d)| == RunStarts(s, d)
  {
    FieldsShape(s, d);
    var gaps := FieldsGaps(s, d);
    FieldsConcat(s, d);
    FieldsCount(s, d);
  }

  /** The gaps between the fields of `s`; the first is non-empty exactly when `s` starts with a separator. */
  lemma {:induction false} FieldsGaps(s: string, d: Delimiter) returns (gaps: seq<string>)
    ensures |gaps| == |Fields(s, d)| + 1
    ensures SeparatorGaps(gaps, d)
    ensures gaps[0] != [] <==> s != [] && IsSep(d, s[0])
    ensures Interleave(gaps, Fields(s, d)) == s
    decreases |s|
  {
    if s == [] {
      gaps := [[]];
    } else if IsSep(d, s[0]) {
      var g := FieldsGaps(s[1..], d);
      gaps := GapsAfterSeparator(s, d, g);
    } else {
      var n := RunLength(s, d);
      var g := FieldsGaps(s[n..], d);
      gaps := GapsAfterRun(s, d, n, g);
    }
  }

  lemma GapsAfterSeparator(s: string, d: Delimiter, g: seq<string>) returns (gaps: seq<string>)
    requires s != [] && IsSep(d, s[0])
    requires |g| == |Fields(s[1..], d)| + 1 && SeparatorGaps(g, d) && Interleave(g, Fields(s[1..], d)) == s[1..]
    ensures |gaps| == |Fields(s, d)| + 1
    ensures SeparatorGaps(gaps, d)
    ensures gaps[0] != []
    ensures Interleave(gaps, Fields(s, d)) == s
  {
    assert Fields(s, d) == Fields(s[1..], d);
    gaps := [[s[0]] + g[0]] + g[1..];
    InterleaveCons(s[0], g, Fields(s[1..], d));
    SeparatorGapsCons(s[0], g, d);
    assert s == [s[0]] + s[1..];
  }

  lemma GapsAfterRun(s: string, d: Delimiter, n: nat, g: seq<string>) returns (gaps: seq<string>)
    requires s != [] && !IsSep(d, s[0]) && n == RunLength(s, d)
    requires |g| == |Fields(s[n..], d)| + 1 && SeparatorGaps(g, d)
    requires g[0] != [] <==> n < |s|
    requires Interleave(g, Fields(s[n..], d)) == s[n..]
    ensures |gaps| == |Fields(s, d)| + 1
    ensures SeparatorGaps(gaps, d)
    ensures gaps[0] == []
    ensures Interleave(gaps, Fields(s, d)) == s
  {
    FieldsRun(s, d);
    gaps := [[]] + g;
    if n == |s| {
      assert s[n..] == [];
    }
    SeparatorGapsFront(g, d);
    InterleaveRun(s[..n], g, Fields(s[n..], d));
    assert s == s[..n] + s[n..];
  }

  /** A separator put in front of the first gap keeps the gaps separator-only. */
  lemma SeparatorGapsCons(c: char, g: seq<string>, d: Delimiter)
    requires IsSep(d, c) && g != [] && SeparatorGaps(g, d)
    ensures SeparatorGaps([[c] + g[0]] + g[1..], d)
  {
    var gaps := [[c] + g[0]] + g[1..];
    forall k, i | 0 <= k < |gaps| && 0 <= i < |gaps[k]| ensures IsSep(d, gaps[k][i]) {
      if k == 0 && i > 0 {
        assert gaps[0][i] == g[0][i - 1];
      } else if k > 0 {
        assert gaps[k] == g[k];
      }
    }
    forall k | 0 < k < |gaps| - 1 ensures gaps[k] != [] {
      assert gaps[k] == g[k];
    }
  }

  /** An empty gap in front of a field keeps the layout valid when the old first gap is inner and non-empty. */
  lemma SeparatorGapsFront(g: seq<string>, d: Delimiter)
    requires SeparatorGaps(g, d)
    requires |g| >= 2 ==> g[0] != []
    ensures SeparatorGaps([[]] + g, d)
  {
    var gaps := [[]] + g;
    forall k, i | 0 <= k < |gaps| && 0 <= i < |gaps[k]| ensures IsSep(d, gaps[k][i]) {
      assert gaps[k] == g[k - 1];
    }
    forall k | 0 < k < |gaps| - 1 ensures gaps[k] != [] {
      assert gaps[k] == g[k - 1];
    }
  }

  /** A field behind an empty first gap is the front of the layout. */
  lemma InterleaveRun(f: string, g: seq<string>, fs: seq<string>)
    requires |g| == |fs| + 1
    ensures Interleave([[]] + g, [f] + fs) == f + Interleave(g, fs)
  {
    var gaps, fs' := [[]] + g, [f] + fs;
    assert gaps[1..] == g;
    assert fs'[1..] == fs;
    calc {
      Interleave(gaps, fs');
      gaps[0] + fs'[0] + Interleave(gaps[1..], fs'[1..]);
      [] + f + Interleave(g, fs);
      { assert [] + f == f; }
      f + Interleave(g, fs);
    }
  }

  /** Putting a character in front of the first gap puts it in front of the whole layout. */
  lemma InterleaveCons(c: char, g: seq<string>, fs: seq<string>)
    requires |g| == |fs| + 1
    ensures Interleave([[c] + g[0]] + g[1..], fs) == [c] + Interleave(g, fs)
  {
    var gaps := [[c] + g[0]] + g[1..];
    assert gaps[1..] == g[1..];
  }

  /** A non-separator at the front starts a field that runs to the next separator. */
  lemma FieldsRun(s: string, d: Delimiter)
    requires s != [] && !IsSep(d, s[0])
    ensures Fields(s, d) == [s[..RunLength(s, d)]] + Fields(s[RunLength(s, d)..], d)
  {
  }

  lemma {:induction false} FieldsShape(s: string, d: Delimiter)
    ensures forall k :: 0 <= k < |Fields(s, d)| ==>
      Fields(s, d)[k] != [] && forall i :: 0 <= i < |Fields(s, d)[k]| ==> !IsSep(d, Fields(s, d)[k][i])
    decreases |s|
  {
    if s != [] {
      if IsSep(d, s[0]) {
        FieldsShape(s[1..], d);
      } else {
        var n := RunLength(s, d);
        var rest := Fields(s[n..], d);
        FieldsShape(s[n..], d);
        FieldsRun(s, d);
        var fs := Fields(s, d);
        forall k | 0 <= k < |fs|
          ensures fs[k] != [] && forall i :: 0 <= i < |fs[k]| ==> !IsSep(d, fs[k][i])
        {
          if k > 0 {
            assert fs[k] == rest[k - 1];
          } else {
            assert fs[0] == s[..n];
          }
        }
      }
    }
  }

  lemma {:induction false} FieldsConcat(s: string, d: Delimiter)
    ensures Concat(Fields(s, d)) == RemoveSeps(s, d)
    decreases |s|
  {
    if s != [] {
      if IsSep(d, s[0]) {
        FieldsConcat(s[1..], d);
      } else {
        var n := RunLength(s, d);
        FieldsConcat(s[n..], d);
        RemoveSepsRun(s, d, n);
        FieldsRun(s, d);
        var fs := Fields(s, d);
        assert fs[1..] == Fields(s[n..], d);
      }
    }
  }

  lemma {:induction false} FieldsCount(s: string, d: Delimiter)
    ensures |Fields(s, d)| == RunStarts(s, d)
    decreases |s|
  {
    if s != [] {
      if IsSep(d, s[0]) {
        FieldsCount(s[1..], d);
      } else {
        var n := RunLength(s, d);
        FieldsCount(s[n..], d);
        BoundariesRun(s, d, n);
        FieldsRun(s, d);
      }
    }
  }

  /** Every character of a field is a character of `s` that is not a separator. */
  lemma {:induction false} FieldChars(s: string, d: Delimiter, k: nat, i: nat)
    requires k < |Fields(s, d)| && i < |Fields(s, d)[k]|
    ensures Fields(s, d)[k][i] in s && !IsSep(d, Fields(s, d)[k][i])
    decreases |s|
  {
    if IsSep(d, s[0]) {
      FieldChars(s[1..], d, k, i);
    } else {
      var n := RunLength(s, d);
      if k > 0 {
        FieldChars(s[n..], d, k - 1, i);
      } else {
        assert Fields(s, d)[0] == s[..n];
      }
    }
  }

  /** A character of `s` that is not a separator lies in some field. */
  lemma {:induction false} CharInSomeField(s: string, d: Delimiter, j: nat)
    requires j < |s| && !IsSep(d, s[j])
    ensures exists k, i :: 0 <= k < |Fields(s, d)| && 0 <= i < |Fields(s, d)[k]| && Fields(s, d)[k][i] == s[j]
    decreases |s|
  {
    var fs := Fields(s, d);
    if IsSep(d, s[0]) {
      CharInSomeField(s[1..], d, j - 1);
    } else {
      var n := RunLength(s, d);
      if j < n {
        assert fs[0] == s[..n] && fs[0][j] == s[j];
      } else {
        CharInSomeField(s[n..], d, j - n);
        var k, i :| 0 <= k < |Fields(s[n..], d)| && 0 <= i < |Fields(s[n..], d)[k]| && Fields(s[n..], d)[k][i] == s[n..][j - n];
        assert fs[k + 1] == Fields(s[n..], d)[k];
      }
    }
  }

  // ---------------------------------------------------------------- universal newlines

  /**
   * What a file opened in text mode reads back (universal newlines): each
   * `\r\n` pair and each lone `\r` becomes `\n`; nothing else changes.
   */
  function UniversalNewlines(s: string): (r: string)
    ensures |r| <= |s|
    ensures '\r' !in r
    decreases |s|
  {
    if s == [] then []
    else if s[0] == '\r' then
      if |s| > 1 && s[1] == '\n' then "\n" + UniversalNewlines(s[2..]) else "\n" + UniversalNewlines(s[1..])
    else [s[0]] + UniversalNewlines(s[1..])
  }

  /** Text without a carriage return reads back unchanged. */
  lemma {:induction false} UniversalNewlinesKeeps(s: string)
    requires '\r' !in s
    ensures UniversalNewlines(s) == s
    decreases |s|
  {
    if s != [] {
      assert '\r' !in s[1..] by {
        forall c | c in s[1..] ensures c != '\r' {
          assert c in s;
        }
      }
      UniversalNewlinesKeeps(s[1..]);
      assert s == [s[0]] + s[1..];
    }
  }

  // ---------------------------------------------------------------- strip

  predicate IsBlank(s: string) {
    forall i :: 0 <= i < |s| ==> IsSpace(s[i])
  }

  function TrimStart(s: string): (r: string)
    ensures |r| <= |s| && r == s[|s| - |r|..]
    ensures r != [] ==> !IsSpace(r[0])
    ensures IsBlank(s[..|s| - |r|])
  {
    if s == [] || !IsSpace(s[0]) then s
    else
      var r := TrimStart(s[1..]);
      var dropped := s[1..][..|s[1..]| - |r|];
      BlankConcat([s[0]], dropped);
      assert s[..|s| - |r|] == [s[0]] + dropped;
      r
  }

  function TrimEnd(s: string): (r: string)
    ensures |r| <= |s| && r == s[..|r|]
    ensures r != [] ==> !IsSpace(r[|r| - 1])
    ensures IsBlank(s[|r|..])
  {
    if s == [] || !IsSpace(s[|s| - 1]) then s
    else
      var r := TrimEnd(s[..|s| - 1]);
      var dropped := s[..|s| - 1][|r|..];
      BlankConcat(dropped, [s[|s| - 1]]);
      assert s[|r|..] == dropped + [s[|s| - 1]];
      r
  }

  /**
   * `str.strip()`: the result neither starts nor ends with whitespace, and
   * it is empty exactly when `s` is blank (see `StripIsInfix` for where it
   * sits inside `s`).
   */
  function Strip(s: string): (r: string)
    ensures r != [] ==> !IsSpace(r[0]) && !IsSpace(r[|r| - 1])
    ensures r == [] <==> IsBlank(s)
  {
    StripBlank(s);
    TrimEnd(TrimStart(s))
  }

  lemma StripBlank(s: string)
    ensures TrimEnd(TrimStart(s)) == [] <==> IsBlank(s)
  {
    var t := TrimStart(s);
    BlankAroundCore(s, |s| - |t|, t, TrimEnd(t));
  }

  /** `s` is blank padding, then `t` whose prefix `r` ends in a non-space: `r` is empty exactly when `s` is blank. */
  lemma BlankAroundCore(s: string, k: nat, t: string, r: string)
    requires k <= |s| && t == s[k..] && IsBlank(s[..k])
    requires |r| <= |t| && r == t[..|r|] && IsBlank(t[|r|..])
    requires r != [] ==> !IsSpace(r[|r| - 1])
    ensures r == [] <==> IsBlank(s)
  {
    if r == [] {
      forall i | 0 <= i < |s| ensures IsSpace(s[i]) {
        if i < k {
          assert s[i] == s[..k][i];
        } else {
          assert s[i] == t[i - k];
        }
      }
    } else {
      assert r[|r| - 1] == s[k + |r| - 1];
    }
  }

  /** `[p.strip() for p in pieces if p.strip()]`. */
  function StrippedNonBlank(pieces: seq<string>): (r: seq<string>)
    ensures |r| <= |pieces|
  {
    if pieces == [] then []
    else (if Strip(pieces[0]) == [] then [] else [Strip(pieces[0])]) + StrippedNonBlank(pieces[1..])
  }

  /** The list of stripped pieces is empty exactly when every piece is blank. */
  lemma {:induction false} StrippedNonBlankEmpty(pieces: seq<string>)
    ensures StrippedNonBlank(pieces) == [] <==> forall k :: 0 <= k < |pieces| ==> IsBlank(pieces[k])
    decreases |pieces|
  {
    if pieces != [] {
      StrippedNonBlankEmpty(pieces[1..]);
      StrippedNonBlankCons(pieces);
      AllBlankCons(pieces);
    }
  }

  lemma StrippedNonBlankCons(pieces: seq<string>)
    requires pieces != []
    ensures StrippedNonBlank(pieces) == [] <==> IsBlank(pieces[0]) && StrippedNonBlank(pieces[1..]) == []
  {
    if !IsBlank(pieces[0]) {
      assert StrippedNonBlank(pieces)[0] == Strip(pieces[0]);
    }
  }

  lemma AllBlankCons(pieces: seq<string>)
    requires pieces != []
    ensures (forall k :: 0 <= k < |pieces| ==> IsBlank(pieces[k]))
      <==> IsBlank(pieces[0]) && (forall k :: 0 <= k < |pieces[1..]| ==> IsBlank(pieces[1..][k]))
  {
    var rest := pieces[1..];
    assert forall k :: 0 <= k < |rest| ==> rest[k] == pieces[k + 1];
  }

  lemma BlankConcat(a: string, b: string)
    ensures IsBlank(a + b) <==> IsBlank(a) && IsBlank(b)
  {
    assert forall i :: 0 <= i < |a| ==> a[i] == (a + b)[i];
    assert forall i :: 0 <= i < |b| ==> b[i] == (a + b)[|a| + i];
    assert forall i :: |a| <= i < |a + b| ==> (a + b)[i] == b[i - |a|];
  }

  /** Joining with a blank separator gives a blank string exactly when every piece is blank. */
  lemma {:induction false} BlankJoin(pieces: seq<string>, sep: string)
    requires IsBlank(sep)
    ensures IsBlank(JoinWith(pieces, sep)) <==> forall k :: 0 <= k < |pieces| ==> IsBlank(pieces[k])
    decreases |pieces|
  {
    if |pieces| > 1 {
      BlankJoin(pieces[1..], sep);
      BlankConcat(pieces[0], sep);
      BlankConcat(pieces[0] + sep, JoinWith(pieces[1..], sep));
      assert forall k :: 1 <= k < |pieces| ==> pieces[k] == pieces[1..][k - 1];
    }
  }

  /** `q` occurs in `s` starting at position `i`. */
  predicate OccursAt(s: string, q: string, i: nat) {
    i + |q| <= |s| && s[i..i + |q|] == q
  }

  /** `s` is blank padding, then `Strip(s)`, then blank padding. */
  lemma StripIsInfix(s: string)
    ensures exists i: nat :: OccursAt(s, Strip(s), i) && IsBlank(s[..i]) && IsBlank(s[i + |Strip(s)|..])
  {
    var t := TrimStart(s);
    var r := TrimEnd(t);
    var i := |s| - |t|;
    assert Strip(s) == r;
    PaddedInfix(s, t, r, i);
    assert OccursAt(s, Strip(s), i) && IsBlank(s[..i]) && IsBlank(s[i + |Strip(s)|..]);
  }

  /** A prefix `r` of the suffix `t == s[i..]`, with blanks before `i` and after `r`, sits in `s` between blanks. */
  lemma PaddedInfix(s: string, t: string, r: string, i: nat)
    requires i <= |s| && t == s[i..] && |r| <= |t| && r == t[..|r|]
    requires IsBlank(s[..i]) && IsBlank(t[|r|..])
    ensures OccursAt(s, r, i) && IsBlank(s[..i]) && IsBlank(s[i + |r|..])
  {
    assert s[i..i + |r|] == r;
    assert s[i + |r|..] == t[|r|..];
  }

  // ---------------------------------------------------------------- str.split(sep)

  /** Index of the first occurrence of `sep` in `s`, if any. */
  function FindFirst(s: string, sep: string): (r: nat)
    requires sep != []
    ensures r <= |s|
    ensures r < |s| ==> OccursAt(s, sep, r)
    ensures forall j: nat :: j < r ==> !OccursAt(s, sep, j)
    decreases |s|
  {
    if |s| < |sep| then |s|
    else if s[..|sep|] == sep then 0
    else
      var r := FindFirst(s[1..], sep);
      assert !OccursAt(s, sep, 0);
      OccursShift(s, sep);
      if r < |s[1..]| then 1 + r else |s|
  }

  /** Occurrences in `s` past its first character are the occurrences in `s[1..]`, one position later. */
  lemma OccursShift(s: string, q: string)
    requires s != []
    ensures forall j: nat :: 1 <= j ==> OccursAt(s, q, j) == OccursAt(s[1..], q, j - 1)
  {
    forall j: nat | 1 <= j ensures OccursAt(s, q, j) == OccursAt(s[1..], q, j - 1) {
      if j + |q| <= |s| {
        assert s[j..j + |q|] == s[1..][j - 1..j - 1 + |q|];
      }
    }
  }

  /** `s.split(sep)` for a non-empty separator: the pieces between non-overlapping occurrences, left to right. */
  function SplitOn(s: string, sep: string): (r: seq<string>)
    requires sep != []
    ensures |r| >= 1
    decreases |s|
  {
    var i := FindFirst(s, sep);
    if i == |s| then [s] else [s[..i]] + SplitOn(s[i + |sep|..], sep)
  }

  /** Joins pieces with `sep` between them, as `sep.join(pieces)`. */
  function JoinWith(pieces: seq<string>, sep: string): string {
    if pieces == [] then []
    else if |pieces| == 1 then pieces[0]
    else pieces[0] + sep + JoinWith(pieces[1..], sep)
  }

  /** Splitting and joining back with the same separator gives the string back. */
  lemma {:induction false} SplitOnJoin(s: string, sep: string)
    requires sep != []
    ensures JoinWith(SplitOn(s, sep), sep) == s
    decreases |s|
  {
    var i := FindFirst(s, sep);
    if i < |s| {
      var rest := s[i + |sep|..];
      SplitOnJoin(rest, sep);
      JoinCons(s[..i], SplitOn(rest, sep), sep);
      SplitAround(s, i, |sep|);
    }
  }

  lemma JoinCons(p: string, tail: seq<string>, sep: string)
    requires tail != []
    ensures JoinWith([p] + tail, sep) == p + sep + JoinWith(tail, sep)
  {
    assert ([p] + tail)[1..] == tail;
  }

  lemma SplitAround(s: string, i: nat, n: nat)
    requires i + n <= |s|
    ensures s == s[..i] + s[i..i + n] + s[i + n..]
  {
  }

  /** The text before the first occurrence of `sep` does not contain `sep`. */
  lemma BeforeFirstHasNone(s: string, sep: string)
    requires sep != []
    ensures !IsSubstring(sep, s[..FindFirst(s, sep)])
  {
    var i := FindFirst(s, sep);
    if IsSubstring(sep, s[..i]) {
      var j: nat :| OccursAt(s[..i], sep, j);
      assert s[j..j + |sep|] == s[..i][j..j + |sep|];
      assert OccursAt(s, sep, j);
    }
  }

  /** No piece of `s.split(sep)` contains the separator. */
  lemma {:induction false} SplitOnPieces(s: string, sep: string)
    requires sep != []
    ensures forall k :: 0 <= k < |SplitOn(s, sep)| ==> !IsSubstring(sep, SplitOn(s, sep)[k])
    decreases |s|
  {
    var i := FindFirst(s, sep);
    var ps := SplitOn(s, sep);
    BeforeFirstHasNone(s, sep);
    if i == |s| {
      assert s[..i] == s;
      assert ps == [s];
    } else {
      var rest := s[i + |sep|..];
      SplitOnPieces(rest, sep);
      assert ps == [s[..i]] + SplitOn(rest, sep);
      forall k | 0 <= k < |ps| ensures !IsSubstring(sep, ps[k]) {
        if k == 0 {
          assert ps[0] == s[..i];
        } else {
          assert ps[k] == SplitOn(rest, sep)[k - 1];
        }
      }
    }
  }

  // ---------------------------------------------------------------- `in` and str.count

  /** Python's `q in s` for strings. */
  function Contains(s: string, q: string): (b: bool)
    decreases |s|
  {
    if |q| > |s| then false
    else if s[..|q|] == q then true
    else Contains(s[1..], q)
  }

  /** The definition of a substring, as a reference for `Contains`. */
  ghost predicate IsSubstring(q: string, s: string) {
    exists i: nat :: OccursAt(s, q, i)
  }

  lemma {:induction false} ContainsIsSubstring(s: string, q: string)
    ensures Contains(s, q) <==> IsSubstring(q, s)
    decreases |s|
  {
    if |q| > |s| {
    } else if s[..|q|] == q {
      assert OccursAt(s, q, 0);
    } else {
      ContainsIsSubstring(s[1..], q);
      OccursShift(s, q);
      if IsSubstring(q, s) {
        var i: nat :| OccursAt(s, q, i);
        assert i > 0;
        assert OccursAt(s[1..], q, i - 1);
      }
      if IsSubstring(q, s[1..]) {
        var i: nat :| OccursAt(s[1..], q, i);
        assert OccursAt(s, q, i + 1);
      }
    }
  }

  /**
   * Python's `s.count(q)`: non-overlapping occurrences scanned from the
   * left; an empty `q` occurs once per position, `|s| + 1` times.
   */
  function CountOccurrences(s: string, q: string): (n: nat)
    decreases |s|
  {
    if q == [] then |s| + 1
    else if |s| < |q| then 0
    else if s[..|q|] == q then 1 + CountOccurrences(s[|q|..], q)
    else CountOccurrences(s[1..], q)
  }

  /** `q in s` holds exactly when `s.count(q)` is positive, and non-overlapping occurrences of a non-empty `q` fit in `s`. */
  lemma CountSpec(s: string, q: string)
    ensures Contains(s, q) <==> CountOccurrences(s, q) >= 1
    ensures q != [] ==> CountOccurrences(s, q) * |q| <= |s|
  {
    CountPositive(s, q);
    if q != [] {
      CountBound(s, q);
    }
  }

  lemma {:induction false} CountPositive(s: string, q: string)
    ensures Contains(s, q) <==> CountOccurrences(s, q) >= 1
    decreases |s|
  {
    if q == [] {
      assert s[..0] == q;
    } else if |s| < |q| {
    } else if s[..|q|] != q {
      CountPositive(s[1..], q);
    }
  }

  lemma {:induction false} CountBound(s: string, q: string)
    requires q != []
    ensures CountOccurrences(s, q) * |q| <= |s|
    decreases |s|
  {
    if |s| >= |q| {
      if s[..|q|] == q {
        CountBound(s[|q|..], q);
        MulSucc(CountOccurrences(s[|q|..], q), |q|);
      } else {
        CountBound(s[1..], q);
      }
    }
  }

  lemma MulSucc(c: nat, m: nat)
    ensures (c + 1) * m == c * m + m
  {
  }
}
