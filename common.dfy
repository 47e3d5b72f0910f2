/** Models of the JavaScript built-ins that the scripts, routes and pages rely on:
    loosely typed values and truthiness, ASCII character classes, `toLowerCase`,
    `trim`, `split`, `indexOf`/`includes`/`endsWith`, global regex replacement of
    character runs, `filter`, `Set` construction, the default string `sort`, and
    `Number.prototype.toString(radix)`. */
module Common {

  datatype Option<T> = None | Some(value: T)

  /** A JSON/JavaScript value as it appears in a parsed record or request body. */
  datatype Value = Absent | Null | Str(s: string) | Num(n: real) | Arr(items: seq<string>) | Other(truthy: bool)

  /** JavaScript truthiness (`!!v`). Every array is truthy, the empty one included;
      `Other` stands for booleans and objects. */
  predicate Truthy(v: Value) {
    match v
    case Absent => false
    case Null => false
    case Str(s) => s != ""
    case Num(n) => n != 0.0
    case Arr(_) => true
    case Other(t) => t
  }

  /** A parsed JSON object or input record: loosely typed values keyed by field name. */
  type Record = map<string, Value>

  /** `record[field]`, `undefined` when the key is missing. */
  function Field(r: Record, k: string): Value {
    if k in r then r[k] else Absent
  }

  /** `a || b` on values. */
  function OrElse(a: Value, b: Value): (r: Value)
    ensures Truthy(a) ==> r == a
    ensures !Truthy(a) ==> r == b
  {
    if Truthy(a) then a else b
  }

  // ---------------------------------------------------------------- characters

  /** The characters of the regex class `\s` (and of `trim`), restricted to ASCII. */
  predicate IsSpace(c: char) {
    c == ' ' || c == '\t' || c == '\n' || c == '\r' || c == '\U{000B}' || c == '\U{000C}'
  }

  predicate IsDigit(c: char) { '0' <= c <= '9' }

  predicate IsLowerAlpha(c: char) { 'a' <= c <= 'z' }

  predicate IsUpperAlpha(c: char) { 'A' <= c <= 'Z' }

  /** The regex class `\w`: `[A-Za-z0-9_]`. */
  predicate IsWordChar(c: char) { IsLowerAlpha(c) || IsUpperAlpha(c) || IsDigit(c) || c == '_' }

  predicate IsHyphen(c: char) { c == '-' }

  predicate NoSpace(s: string) { forall i :: 0 <= i < |s| ==> !IsSpace(s[i]) }

  /** `toLowerCase` on one character, ASCII only. */
  function LowerChar(c: char): (r: char)
    ensures IsUpperAlpha(c) ==> IsLowerAlpha(r)
    ensures !IsUpperAlpha(c) ==> r == c
  {
    if IsUpperAlpha(c) then (c as int + 32) as char else c
  }

  function Lower(s: string): (r: string)
    ensures |r| == |s|
    ensures forall i :: 0 <= i < |s| ==> r[i] == LowerChar(s[i])
  {
    if s == [] then [] else [LowerChar(s[0])] + Lower(s[1..])
  }

  lemma {:induction false} LowerIdempotent(s: string)
    ensures Lower(Lower(s)) == Lower(s)
  {
  }

  // ---------------------------------------------------------------- trim

  function TrimStart(s: string): (r: string)
    ensures |r| <= |s| && r == s[|s| - |r|..]
    ensures r != [] ==> !IsSpace(r[0])
    ensures forall i :: 0 <= i < |s| - |r| ==> IsSpace(s[i])
  {
    if s != [] && IsSpace(s[0]) then TrimStart(s[1..]) else s
  }

  function TrimEnd(s: string): (r: string)
    ensures |r| <= |s| && r == s[..|r|]
    ensures r != [] ==> !IsSpace(r[|r| - 1])
    ensures forall i :: |r| <= i < |s| ==> IsSpace(s[i])
  {
    if s != [] && IsSpace(s[|s| - 1]) then TrimEnd(s[..|s| - 1]) else s
  }

  /** `String.prototype.trim`: drops leading and trailing whitespace. */
  function Trim(s: string): (r: string)
    ensures |r| <= |s|
    ensures r != [] ==> !IsSpace(r[0]) && !IsSpace(r[|r| - 1])
    ensures NoSpace(s) ==> r == s
    ensures forall i :: 0 <= i < |r| ==> r[i] in s
  {
    var t := TrimStart(s);
    assert forall i :: 0 <= i < |t| ==> t[i] == s[|s| - |t| + i];
    TrimEnd(t)
  }

  // ---------------------------------------------------------------- runs

  /** Global replacement of every maximal run of characters satisfying `p` by the
      single character `rep` (`s.replace(/P+/g, rep)`); `inRun` says that the
      character before `s` was part of a run that has already been replaced. */
  function ReplaceRunsFrom(s: string, p: char -> bool, rep: char, inRun: bool): (r: string)
    ensures |r| <= |s|
    ensures forall i :: 0 <= i < |r| ==> r[i] == rep || (!p(r[i]) && r[i] in s)
  {
    if s == [] then []
    else if p(s[0]) then
      if inRun then ReplaceRunsFrom(s[1..], p, rep, true)
      else [rep] + ReplaceRunsFrom(s[1..], p, rep, true)
    else [s[0]] + ReplaceRunsFrom(s[1..], p, rep, false)
  }

  function ReplaceRuns(s: string, p: char -> bool, rep: char): (r: string)
    ensures |r| <= |s|
    ensures forall i :: 0 <= i < |r| ==> r[i] == rep || (!p(r[i]) && r[i] in s)
  {
    ReplaceRunsFrom(s, p, rep, false)
  }

  /** No two neighbouring characters both satisfy `p`. */
  predicate NoAdjacent(s: string, p: char -> bool) {
    forall i :: 0 <= i < |s| - 1 ==> !(p(s[i]) && p(s[i + 1]))
  }

  /** When the replacement itself satisfies `p`, the output never holds two
      neighbouring `p` characters: every run became one character. */
  lemma {:induction false} ReplaceRunsSeparates(s: string, p: char -> bool, rep: char, inRun: bool)
    requires p(rep)
    ensures NoAdjacent(ReplaceRunsFrom(s, p, rep, inRun), p)
    ensures inRun && ReplaceRunsFrom(s, p, rep, inRun) != [] ==> !p(ReplaceRunsFrom(s, p, rep, inRun)[0])
  {
    if s != [] {
      if p(s[0]) {
        ReplaceRunsSeparates(s[1..], p, rep, true);
      } else {
        ReplaceRunsSeparates(s[1..], p, rep, false);
      }
    }
  }

  /** A string that already has no runs (every `p` character is `rep` and no two
      are adjacent) is left unchanged. */
  lemma {:induction false} ReplaceRunsIdentity(s: string, p: char -> bool, rep: char, inRun: bool)
    requires NoAdjacent(s, p)
    requires forall i :: 0 <= i < |s| && p(s[i]) ==> s[i] == rep
    requires inRun && s != [] ==> !p(s[0])
    ensures ReplaceRunsFrom(s, p, rep, inRun) == s
  {
    if s != [] {
      assert NoAdjacent(s[1..], p) by {
        forall i | 0 <= i < |s[1..]| - 1 ensures !(p(s[1..][i]) && p(s[1..][i + 1])) {
          assert s[1..][i] == s[i + 1] && s[1..][i + 1] == s[i + 2];
        }
      }
      ReplaceRunsIdentity(s[1..], p, rep, p(s[0]));
    }
  }

  /** Without any `p` character the replacement changes nothing. */
  lemma {:induction false} ReplaceRunsNone(s: string, p: char -> bool, rep: char, inRun: bool)
    requires forall i :: 0 <= i < |s| ==> !p(s[i])
    ensures ReplaceRunsFrom(s, p, rep, inRun) == s
  {
    if s != [] {
      ReplaceRunsNone(s[1..], p, rep, false);
    }
  }

  // ---------------------------------------------------------------- split / join

  /** `String.prototype.split` with a one-character separator. */
  function Split(s: string, sep: char): (r: seq<string>)
    ensures |r| >= 1
    ensures forall i :: 0 <= i < |r| ==> sep !in r[i]
  {
    if s == [] then [""]
    else
      var rest := Split(s[1..], sep);
      if s[0] == sep then [""] + rest else [[s[0]] + rest[0]] + rest[1..]
  }

  /** `Array.prototype.join` with a one-character separator. */
  function Join(parts: seq<string>, sep: char): string {
    if parts == [] then ""
    else if |parts| == 1 then parts[0]
    else parts[0] + [sep] + Join(parts[1..], sep)
  }

  lemma {:induction false} JoinSplit(s: string, sep: char)
    ensures Join(Split(s, sep), sep) == s
  {
    if s != [] {
      JoinSplit(s[1..], sep);
      var rest := Split(s[1..], sep);
      if s[0] != sep {
        if |rest| == 1 {
        } else {
          assert ([s[0]] + rest[0]) + [sep] + Join(rest[1..], sep)
              == [s[0]] + (rest[0] + [sep] + Join(rest[1..], sep));
        }
      }
    }
  }

  lemma {:induction false} SplitJoin(parts: seq<string>, sep: char)
    requires |parts| >= 1
    requires forall i :: 0 <= i < |parts| ==> sep !in parts[i]
    ensures Split(Join(parts, sep), sep) == parts
  {
    if |parts| == 1 {
      SplitNoSep(parts[0], sep);
    } else {
      SplitJoin(parts[1..], sep);
      SplitPrefix(parts[0], sep, Join(parts[1..], sep));
    }
  }

  lemma {:induction false} SplitNoSep(s: string, sep: char)
    requires sep !in s
    ensures Split(s, sep) == [s]
  {
    if s != [] {
      SplitNoSep(s[1..], sep);
      assert [s[0]] + s[1..] == s;
    }
  }

  lemma {:induction false} SplitPrefix(a: string, sep: char, b: string)
    requires sep !in a
    ensures Split(a + [sep] + b, sep) == [a] + Split(b, sep)
  {
    if a == [] {
      assert a + [sep] + b == [sep] + b;
      assert ([sep] + b)[1..] == b;
    } else {
      assert (a + [sep] + b)[1..] == a[1..] + [sep] + b;
      SplitPrefix(a[1..], sep, b);
      assert [a[0]] + a[1..] == a;
    }
  }

  /** The first part of a split is the text before the first separator. */
  lemma {:induction false} SplitHead(s: string, sep: char)
    ensures |Split(s, sep)[0]| <= |s|
    ensures Split(s, sep)[0] == s[..|Split(s, sep)[0]|]
    ensures |Split(s, sep)[0]| < |s| ==> s[|Split(s, sep)[0]|] == sep
  {
    if s != [] {
      SplitHead(s[1..], sep);
    }
  }

  /** Without a separator in the input there is one part, the input itself; with
      one, the second part follows the text before the first separator. */
  lemma SplitSecond(a: string, sep: char, b: string)
    requires sep !in a
    ensures |Split(a + [sep] + b, sep)| >= 2
    ensures Split(a + [sep] + b, sep)[1] == Split(b, sep)[0]
  {
    SplitPrefix(a, sep, b);
  }

  // ---------------------------------------------------------------- searching

  predicate IsOccurrence(s: string, sub: string, i: int) {
    0 <= i && i + |sub| <= |s| && s[i..i + |sub|] == sub
  }

  function IndexOfFrom(s: string, sub: string, from: nat): (r: int)
    decreases |s| - from
    ensures r == -1 || (from <= r && IsOccurrence(s, sub, r))
    ensures forall j :: from <= j && (r == -1 || j < r) ==> !IsOccurrence(s, sub, j)
  {
    if from + |sub| > |s| then -1
    else if s[from..from + |sub|] == sub then from
    else IndexOfFrom(s, sub, from + 1)
  }

  /** `String.prototype.indexOf`: the first occurrence of `sub`, or -1. */
  function IndexOf(s: string, sub: string): (r: int)
    ensures r == -1 <==> forall j :: !IsOccurrence(s, sub, j)
    ensures r != -1 ==> IsOccurrence(s, sub, r) && forall j :: 0 <= j < r ==> !IsOccurrence(s, sub, j)
  {
    IndexOfFrom(s, sub, 0)
  }

  /** `String.prototype.includes`. */
  predicate Contains(s: string, sub: string) {
    IndexOf(s, sub) != -1
  }

  /** `String.prototype.startsWith`. */
  predicate StartsWith(s: string, prefix: string) {
    |prefix| <= |s| && s[..|prefix|] == prefix
  }

  /** `String.prototype.endsWith`. */
  predicate EndsWith(s: string, suffix: string) {
    |suffix| <= |s| && s[|s| - |suffix|..] == suffix
  }

  /** A string ending with `suffix` contains every part of that suffix. */
  lemma EndsWithContains(s: string, suffix: string, part: string, k: nat)
    requires EndsWith(s, suffix)
    requires k + |part| <= |suffix| && suffix[k..k + |part|] == part
    ensures Contains(s, part)
  {
    var at := |s| - |suffix| + k;
    assert s[at..at + |part|] == suffix[k..k + |part|];
    assert IsOccurrence(s, part, at);
  }

  // ---------------------------------------------------------------- filter

  /** `Array.prototype.filter`. */
  function Filter<T(!new)>(s: seq<T>, p: T -> bool): (r: seq<T>)
    ensures |r| <= |s|
    ensures forall x :: x in r <==> x in s && p(x)
    ensures IsSubsequence(r, s)
  {
    if s == [] then []
    else if p(s[0]) then
      var rest := Filter(s[1..], p);
      assert IsSubsequence([s[0]] + rest, s) by {
        assert ([s[0]] + rest)[1..] == rest;
      }
      [s[0]] + rest
    else Filter(s[1..], p)
  }

  /** `filter` keeps every kept element as often as it occurs, and no other. */
  lemma {:induction false} FilterMultiset<T(!new)>(s: seq<T>, p: T -> bool)
    ensures forall x :: multiset(Filter(s, p))[x] == if p(x) then multiset(s)[x] else 0
  {
    if s != [] {
      FilterMultiset(s[1..], p);
      assert s == [s[0]] + s[1..];
      assert multiset(s) == multiset([s[0]]) + multiset(s[1..]);
      if p(s[0]) {
        assert multiset(Filter(s, p)) == multiset([s[0]]) + multiset(Filter(s[1..], p));
      }
    }
  }

  /** `a` lists some of the elements of `b`, in `b`'s order. */
  ghost predicate IsSubsequence<T>(a: seq<T>, b: seq<T>)
    decreases |b|
  {
    a == [] || (b != [] && ((a[0] == b[0] && IsSubsequence(a[1..], b[1..])) || IsSubsequence(a, b[1..])))
  }

  lemma {:induction false} FilterAll<T(!new)>(s: seq<T>, p: T -> bool)
    requires forall i :: 0 <= i < |s| ==> p(s[i])
    ensures Filter(s, p) == s
  {
    if s != [] {
      FilterAll(s[1..], p);
    }
  }

  lemma {:induction false} FilterConcat<T(!new)>(a: seq<T>, b: seq<T>, p: T -> bool)
    ensures Filter(a + b, p) == Filter(a, p) + Filter(b, p)
  {
    if a != [] {
      assert (a + b)[1..] == a[1..] + b;
      FilterConcat(a[1..], b, p);
    } else {
      assert a + b == b;
    }
  }

  // ---------------------------------------------------------------- distinct, Set

  predicate Distinct<T(==)>(s: seq<T>) {
    forall i, j :: 0 <= i < j < |s| ==> s[i] != s[j]
  }

  /** `Array.from(new Set(xs))`: first occurrences, in order of first appearance. */
  function Dedup<T(==,!new)>(xs: seq<T>): (r: seq<T>)
    ensures Distinct(r)
    ensures forall x :: x in r <==> x in xs
    ensures |r| <= |xs|
  {
    DedupAfter([], xs)
  }

  function DedupAfter<T(==,!new)>(seen: seq<T>, xs: seq<T>): (r: seq<T>)
    requires Distinct(seen)
    ensures Distinct(r)
    ensures forall x :: x in r <==> x in seen || x in xs
    ensures |seen| <= |r| <= |seen| + |xs|
    ensures r[..|seen|] == seen
    decreases |xs|
  {
    if xs == [] then seen
    else if xs[0] in seen then DedupAfter(seen, xs[1..])
    else DedupAfter(seen + [xs[0]], xs[1..])
  }

  // ---------------------------------------------------------------- string order

  /** The order of the default `Array.prototype.sort` on strings: lexicographic by
      character code. */
  predicate StrLess(a: string, b: string) {
    if a == [] then b != []
    else if b == [] then false
    else if a[0] != b[0] then a[0] < b[0]
    else StrLess(a[1..], b[1..])
  }

  lemma {:induction false} StrLessIrreflexive(a: string)
    ensures !StrLess(a, a)
  {
    if a != [] {
      StrLessIrreflexive(a[1..]);
    }
  }

  lemma {:induction false} StrLessTransitive(a: string, b: string, c: string)
    requires StrLess(a, b) && StrLess(b, c)
    ensures StrLess(a, c)
  {
    if a != [] && b != [] && c != [] && a[0] == b[0] && b[0] == c[0] {
      StrLessTransitive(a[1..], b[1..], c[1..]);
    }
  }

  lemma {:induction false} StrLessTotal(a: string, b: string)
    requires a != b
    ensures StrLess(a, b) || StrLess(b, a)
  {
    if a != [] && b != [] && a[0] == b[0] {
      assert a == [a[0]] + a[1..] && b == [b[0]] + b[1..];
      StrLessTotal(a[1..], b[1..]);
    }
  }

  lemma StrLessAsymmetric(a: string, b: string)
    requires StrLess(a, b)
    ensures !StrLess(b, a)
  {
    if StrLess(b, a) {
      StrLessTransitive(a, b, a);
      StrLessIrreflexive(a);
    }
  }

  predicate StrictlySorted(s: seq<string>) {
    forall i, j :: 0 <= i < j < |s| ==> StrLess(s[i], s[j])
  }

  predicate SortedStrings(s: seq<string>) {
    forall i, j :: 0 <= i < j < |s| ==> !StrLess(s[j], s[i])
  }

  function InsertString(x: string, ys: seq<string>): (r: seq<string>)
    ensures multiset(r) == multiset(ys) + multiset{x}
    ensures |r| == |ys| + 1
  {
    if ys == [] then [x]
    else if StrLess(ys[0], x) then
      var rest := InsertString(x, ys[1..]);
      assert ys == [ys[0]] + ys[1..];
      [ys[0]] + rest
    else [x] + ys
  }

  /** The default `Array.prototype.sort()` on strings (an insertion sort). */
  function SortStrings(xs: seq<string>): (r: seq<string>)
    ensures multiset(r) == multiset(xs)
    ensures |r| == |xs|
  {
    if xs == [] then []
    else
      assert xs == [xs[0]] + xs[1..];
      InsertString(xs[0], SortStrings(xs[1..]))
  }

  /** `a <= b` and `b <= c` give `a <= c`. */
  lemma NotLessTransitive(a: string, b: string, c: string)
    requires !StrLess(b, a) && !StrLess(c, b)
    ensures !StrLess(c, a)
  {
    if a != b && b != c {
      StrLessTotal(a, b);
      StrLessTotal(b, c);
      StrLessTransitive(a, b, c);
      StrLessAsymmetric(a, c);
    }
  }

  lemma SortedCons(x: string, ys: seq<string>)
    requires SortedStrings(ys)
    requires forall k :: 0 <= k < |ys| ==> !StrLess(ys[k], x)
    ensures SortedStrings([x] + ys)
  {
    var r := [x] + ys;
    forall i, j | 0 <= i < j < |r| ensures !StrLess(r[j], r[i]) {
      assert r[j] == ys[j - 1];
      if i > 0 {
        assert r[i] == ys[i - 1];
      }
    }
  }

  lemma {:induction false} InsertStringSorted(x: string, ys: seq<string>)
    requires SortedStrings(ys)
    ensures SortedStrings(InsertString(x, ys))
  {
    if ys == [] {
    } else if StrLess(ys[0], x) {
      assert SortedStrings(ys[1..]) by {
        forall i, j | 0 <= i < j < |ys[1..]| ensures !StrLess(ys[1..][j], ys[1..][i]) {
          assert ys[1..][j] == ys[j + 1] && ys[1..][i] == ys[i + 1];
        }
      }
      InsertStringSorted(x, ys[1..]);
      var rest := InsertString(x, ys[1..]);
      forall k | 0 <= k < |rest| ensures !StrLess(rest[k], ys[0]) {
        assert rest[k] in multiset(rest);
        if rest[k] == x {
          StrLessAsymmetric(ys[0], x);
        } else {
          assert rest[k] in multiset(ys[1..]);
          var m :| 0 <= m < |ys[1..]| && ys[1..][m] == rest[k];
          assert ys[m + 1] == rest[k];
        }
      }
      SortedCons(ys[0], rest);
    } else {
      forall k | 0 <= k < |ys| ensures !StrLess(ys[k], x) {
        if k > 0 {
          NotLessTransitive(x, ys[0], ys[k]);
        }
      }
      SortedCons(x, ys);
    }
  }

  lemma {:induction false} SortStringsSorted(xs: seq<string>)
    ensures SortedStrings(SortStrings(xs))
  {
    if xs != [] {
      SortStringsSorted(xs[1..]);
      InsertStringSorted(xs[0], SortStrings(xs[1..]));
    }
  }

  lemma {:induction false} DistinctMultiset<T>(s: seq<T>)
    requires Distinct(s)
    ensures forall x :: multiset(s)[x] <= 1
  {
    if s != [] {
      assert s == [s[0]] + s[1..];
      DistinctMultiset(s[1..]);
      assert s[0] !in s[1..];
    }
  }

  /** A permutation of a list without repetitions has none either. */
  lemma DistinctPermutation<T>(a: seq<T>, b: seq<T>)
    requires Distinct(a) && multiset(a) == multiset(b)
    ensures Distinct(b)
  {
    DistinctMultiset(a);
    forall i, j | 0 <= i < j < |b| ensures b[i] != b[j] {
      assert b == b[..i] + [b[i]] + b[i + 1..j] + [b[j]] + b[j + 1..];
      assert multiset(b)[b[j]] >= multiset([b[i]] + [b[j]])[b[j]];
    }
  }

  /** Sorting a list without repetitions gives a strictly increasing list. */
  lemma SortDistinctStrict(xs: seq<string>)
    requires Distinct(xs)
    ensures StrictlySorted(SortStrings(xs))
  {
    var r := SortStrings(xs);
    SortStringsSorted(xs);
    DistinctPermutation(xs, r);
    forall i, j | 0 <= i < j < |r| ensures StrLess(r[i], r[j]) {
      StrLessTotal(r[i], r[j]);
    }
  }

  /** `Array.from(new Set(xs)).sort()`: strictly increasing, same elements. */
  function SortedUnique(xs: seq<string>): (r: seq<string>)
    ensures StrictlySorted(r)
    ensures Distinct(r)
    ensures forall x :: x in r <==> x in xs
  {
    var d := Dedup(xs);
    var r := SortStrings(d);
    SortDistinctStrict(d);
    assert forall x :: x in r <==> x in multiset(d);
    assert forall i, j :: 0 <= i < j < |r| ==> r[i] != r[j] by {
      forall i, j | 0 <= i < j < |r| ensures r[i] != r[j] {
        StrLessIrreflexive(r[i]);
      }
    }
    r
  }

  // ---------------------------------------------------------------- numbers as text

  /** The digit characters of `toString(radix)`: `0`-`9`, then `a`-`f`. */
  function DigitChar(d: nat): (c: char)
    requires d < 16
    ensures c != '-'
  {
    if d < 10 then ('0' as int + d) as char else ('a' as int + d - 10) as char
  }

  function DigitValue(c: char): (d: nat)
    ensures d < 16
  {
    if '0' <= c <= '9' then c as int - '0' as int
    else if 'a' <= c <= 'f' then c as int - 'a' as int + 10
    else 0
  }

  lemma DigitRoundTrip(d: nat)
    requires d < 16
    ensures DigitValue(DigitChar(d)) == d
    ensures d < 10 ==> IsDigit(DigitChar(d))
  {
  }

  lemma DivModBase(n: nat, base: nat)
    requires 2 <= base <= 16 && n >= base
    ensures 0 < n / base < n && n % base < base
    ensures n == (n / base) * base + n % base
  {
  }

  /** `n.toString(base)` for a non-negative integer. */
  function NatToBase(n: nat, base: nat): (r: string)
    requires 2 <= base <= 16
    ensures |r| >= 1
    ensures forall i :: 0 <= i < |r| ==> DigitValue(r[i]) < base && DigitChar(DigitValue(r[i])) == r[i]
    ensures base == 10 ==> forall i :: 0 <= i < |r| ==> IsDigit(r[i])
    ensures n > 0 ==> r[0] != '0'
  {
    if n < base then
      DigitRoundTrip(n);
      [DigitChar(n)]
    else
      DivModBase(n, base);
      DigitRoundTrip(n % base);
      NatToBase(n / base, base) + [DigitChar(n % base)]
  }

  /** `String(n)` for a non-negative integer. */
  function NatToString(n: nat): (r: string)
    ensures |r| >= 1
    ensures forall i :: 0 <= i < |r| ==> IsDigit(r[i])
  {
    NatToBase(n, 10)
  }

  /** `n.toString(base)` for any integer: a minus sign for negative numbers. */
  function IntToBase(n: int, base: nat): (r: string)
    requires 2 <= base <= 16
    ensures |r| >= 1
  {
    if n < 0 then "-" + NatToBase(-n, base) else NatToBase(n, base)
  }

  /** Reads digits written in `base`; the inverse of `NatToBase`. */
  function ParseBase(s: string, base: nat): nat
    requires 2 <= base <= 16
  {
    if s == [] then 0 else ParseBase(s[..|s| - 1], base) * base + DigitValue(s[|s| - 1])
  }

  /** Reads an optional minus sign and digits; the inverse of `IntToBase`. */
  function ParseIntBase(s: string, base: nat): int
    requires 2 <= base <= 16
  {
    if s != [] && s[0] == '-' then 0 - ParseBase(s[1..], base) as int else ParseBase(s, base)
  }

  lemma {:induction false} ParseNatToBase(n: nat, base: nat)
    requires 2 <= base <= 16
    ensures ParseBase(NatToBase(n, base), base) == n
  {
    var r := NatToBase(n, base);
    if n < base {
      DigitRoundTrip(n);
      assert r[..|r| - 1] == [];
    } else {
      DivModBase(n, base);
      DigitRoundTrip(n % base);
      ParseNatToBase(n / base, base);
      assert r[..|r| - 1] == NatToBase(n / base, base);
      assert r[|r| - 1] == DigitChar(n % base);
    }
  }

  lemma ParseIntToBase(n: int, base: nat)
    requires 2 <= base <= 16
    ensures ParseIntBase(IntToBase(n, base), base) == n
  {
    if n < 0 {
      var digits := NatToBase(-n, base);
      ParseNatToBase(-n, base);
      assert ("-" + digits)[1..] == digits;
    } else {
      var digits := NatToBase(n, base);
      ParseNatToBase(n, base);
      assert digits[0] != '-' by {
        assert DigitChar(DigitValue(digits[0])) == digits[0];
      }
    }
  }
}
