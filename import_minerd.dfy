/** The MINERD import pipeline: slug generation, the three validation layers, the
    Levenshtein similarity that drives the fuzzy-duplicate filter, the comma-separated
    file reader, and the per-record loop that sends every record to exactly one of
    the counters `imported`, `skipped` and `duplicates`. The hosted store and the
    province lookup are oracles passed in by the caller. */
module ImportMinerd {
  import opened Common

  // ================================================================ slugs

  /** Characters that survive `.replace(/[^\w\s-]/g, '')`. */
  predicate KeptBySlug(c: char) {
    IsWordChar(c) || IsSpace(c) || c == '-'
  }

  /** Characters a slug is made of: `[a-z0-9_-]`. */
  predicate IsSlugChar(c: char) {
    IsLowerAlpha(c) || IsDigit(c) || c == '_' || c == '-'
  }

  const SlugMaxLength: nat := 50

  /** A string of slug characters, at most 50 long, with no `--`. */
  predicate IsSlugShaped(s: string) {
    && |s| <= SlugMaxLength
    && (forall i :: 0 <= i < |s| ==> IsSlugChar(s[i]))
    && NoAdjacent(s, IsHyphen)
  }

  /** Neither upper-case letters nor anything outside `[\w\s-]`. */
  predicate SlugOrSpace(s: string) {
    forall i :: 0 <= i < |s| ==> IsSlugChar(s[i]) || IsSpace(s[i])
  }

  lemma KeptAfterLower(name: string)
    ensures SlugOrSpace(Filter(Trim(Lower(name)), KeptBySlug))
  {
    var lowered := Lower(name);
    var trimmed := Trim(lowered);
    var kept := Filter(trimmed, KeptBySlug);
    forall i | 0 <= i < |kept| ensures IsSlugChar(kept[i]) || IsSpace(kept[i]) {
      assert kept[i] in trimmed;
      var j :| 0 <= j < |trimmed| && trimmed[j] == kept[i];
      assert trimmed[j] in lowered;
    }
  }

  lemma DashedIsSlug(kept: string)
    requires SlugOrSpace(kept)
    ensures forall i :: 0 <= i < |ReplaceRuns(kept, IsSpace, '-')| ==> IsSlugChar(ReplaceRuns(kept, IsSpace, '-')[i])
  {
    var dashed := ReplaceRuns(kept, IsSpace, '-');
    forall i | 0 <= i < |dashed| ensures IsSlugChar(dashed[i]) {
      if dashed[i] != '-' {
        assert dashed[i] in kept;
      }
    }
  }

  lemma CollapsedIsSlug(dashed: string)
    requires forall i :: 0 <= i < |dashed| ==> IsSlugChar(dashed[i])
    ensures forall i :: 0 <= i < |ReplaceRuns(dashed, IsHyphen, '-')| ==> IsSlugChar(ReplaceRuns(dashed, IsHyphen, '-')[i])
    ensures NoAdjacent(ReplaceRuns(dashed, IsHyphen, '-'), IsHyphen)
  {
    var collapsed := ReplaceRuns(dashed, IsHyphen, '-');
    forall i | 0 <= i < |collapsed| ensures IsSlugChar(collapsed[i]) {
      if collapsed[i] != '-' {
        assert collapsed[i] in dashed;
      }
    }
    ReplaceRunsSeparates(dashed, IsHyphen, '-', false);
  }

  /** `generateSlug`: lower-case, trim, drop everything outside `[\w\s-]`, turn each
      whitespace run into `-`, collapse runs of `-`, keep the first 50 characters. */
  function GenerateSlug(name: string): (slug: string)
    ensures IsSlugShaped(slug)
  {
    var kept := Filter(Trim(Lower(name)), KeptBySlug);
    var dashed := ReplaceRuns(kept, IsSpace, '-');
    KeptAfterLower(name);
    DashedIsSlug(kept);
    CollapsedIsSlug(dashed);
    SliceShape(ReplaceRuns(dashed, IsHyphen, '-'));
    Slice(ReplaceRuns(dashed, IsHyphen, '-'), SlugMaxLength)
  }

  /** `s.slice(0, n)`. */
  function Slice(s: string, n: nat): (r: string)
    ensures |r| == if |s| <= n then |s| else n
    ensures forall i :: 0 <= i < |r| ==> r[i] == s[i]
  {
    if |s| <= n then s else s[..n]
  }

  lemma SliceShape(s: string)
    requires forall i :: 0 <= i < |s| ==> IsSlugChar(s[i])
    requires NoAdjacent(s, IsHyphen)
    ensures IsSlugShaped(Slice(s, SlugMaxLength))
  {
  }

  lemma SlugPassesLower(s: string)
    requires IsSlugShaped(s)
    ensures Lower(s) == s
  {
    assert forall i :: 0 <= i < |s| ==> !IsUpperAlpha(s[i]);
    assert forall i :: 0 <= i < |s| ==> Lower(s)[i] == s[i];
  }

  lemma SlugPassesTrim(s: string)
    requires IsSlugShaped(s)
    ensures Trim(s) == s
  {
    assert forall i :: 0 <= i < |s| ==> !IsSpace(s[i]);
  }

  /** A slug survives the first three steps: lowering, trimming and the filter. */
  lemma SlugKept(s: string)
    requires IsSlugShaped(s)
    ensures Filter(Trim(Lower(s)), KeptBySlug) == s
  {
    SlugPassesLower(s);
    SlugPassesTrim(s);
    FilterAll(s, KeptBySlug);
  }

  /** A slug has no whitespace and no `--`, so both run replacements keep it. */
  lemma SlugRunsKept(s: string)
    requires IsSlugShaped(s)
    ensures ReplaceRuns(ReplaceRuns(s, IsSpace, '-'), IsHyphen, '-') == s
  {
    ReplaceRunsNone(s, IsSpace, '-', false);
    assert ReplaceRuns(s, IsSpace, '-') == s;
    ReplaceRunsIdentity(s, IsHyphen, '-', false);
  }

  lemma SlugFixpoint(s: string)
    requires IsSlugShaped(s)
    ensures GenerateSlug(s) == s
  {
    SlugKept(s);
    SlugRunsKept(s);
  }

  lemma GenerateSlugIdempotent(name: string)
    ensures GenerateSlug(GenerateSlug(name)) == GenerateSlug(name)
  {
    SlugFixpoint(GenerateSlug(name));
  }

  // ================================================================ records

  const RequiredFields: seq<string> := ["minerd_code", "name", "province", "type"]

  predicate IsNonEmptyString(v: Value) {
    v.Str? && v.s != ""
  }

  /** `typeof v === 'number' && !(v < 0)`. */
  predicate IsNonNegativeNumber(v: Value) {
    v.Num? && v.n >= 0.0
  }

  /** The loop over `requiredFields`: each must be truthy and a string. */
  function AllNonEmptyStrings(r: Record, fields: seq<string>): (ok: bool)
    ensures ok <==> forall i :: 0 <= i < |fields| ==> IsNonEmptyString(Field(r, fields[i]))
  {
    if fields == [] then true
    else (Truthy(Field(r, fields[0])) && Field(r, fields[0]).Str?) && AllNonEmptyStrings(r, fields[1..])
  }

  /** Validation layer 1. */
  function ValidateFormat(r: Record): (ok: bool)
    ensures ok <==>
      && IsNonEmptyString(Field(r, "minerd_code"))
      && IsNonEmptyString(Field(r, "name"))
      && IsNonEmptyString(Field(r, "province"))
      && IsNonEmptyString(Field(r, "type"))
      && IsNonNegativeNumber(Field(r, "students_count"))
      && IsNonNegativeNumber(Field(r, "prueba_nacional"))
  {
    if !AllNonEmptyStrings(r, RequiredFields) then
      assert !IsNonEmptyString(Field(r, RequiredFields[0])) || !IsNonEmptyString(Field(r, RequiredFields[1]))
          || !IsNonEmptyString(Field(r, RequiredFields[2])) || !IsNonEmptyString(Field(r, RequiredFields[3]));
      false
    else
      assert IsNonEmptyString(Field(r, RequiredFields[0])) && IsNonEmptyString(Field(r, RequiredFields[1]))
          && IsNonEmptyString(Field(r, RequiredFields[2])) && IsNonEmptyString(Field(r, RequiredFields[3]));
      if !Field(r, "students_count").Num? || Field(r, "students_count").n < 0.0 then false
    else if !Field(r, "prueba_nacional").Num? || Field(r, "prueba_nacional").n < 0.0 then false
    else true
  }

  const MinStudents: real := 15.0
  const SchoolTypes: seq<string> := ["public", "private"]

  /** Validation layer 2; only ever called on a record that passed layer 1. */
  function ValidateRange(r: Record): (ok: bool)
    requires ValidateFormat(r)
    ensures ok <==>
      && Field(r, "students_count").n >= 15.0
      && Field(r, "prueba_nacional").n > 0.0
      && (Lower(Field(r, "type").s) == "public" || Lower(Field(r, "type").s) == "private")
  {
    if Field(r, "students_count").n < MinStudents then false
    else if Field(r, "prueba_nacional").n == 0.0 then false
    else Lower(Field(r, "type").s) in SchoolTypes
  }

  /** Validation layer 3: no record accepted earlier in this run has the same code. */
  function ValidateHistoricalConsistency(r: Record, previous: seq<Record>): (ok: bool)
    ensures ok <==> forall i :: 0 <= i < |previous| ==> Field(previous[i], "minerd_code") != Field(r, "minerd_code")
  {
    if previous == [] then true
    else
      && Field(previous[0], "minerd_code") != Field(r, "minerd_code")
      && ValidateHistoricalConsistency(r, previous[1..])
  }

  // ================================================================ edit distance

  function Min3(a: nat, b: nat, c: nat): (m: nat)
    ensures m <= a && m <= b && m <= c
    ensures m == a || m == b || m == c
  {
    if a <= b && a <= c then a else if b <= c then b else c
  }

  /** The textbook recursive Levenshtein distance between the first `i` characters
      of `a` and the first `j` characters of `b`, with unit costs for insertion,
      deletion and substitution. */
  function EditDistance(a: string, b: string, i: nat, j: nat): nat
    requires i <= |a| && j <= |b|
    decreases i + j
  {
    if i == 0 then j
    else if j == 0 then i
    else Min3(EditDistance(a, b, i - 1, j) + 1,
              EditDistance(a, b, i, j - 1) + 1,
              EditDistance(a, b, i - 1, j - 1) + (if a[i - 1] == b[j - 1] then 0 else 1))
  }

  function Levenshtein(a: string, b: string): nat {
    EditDistance(a, b, |a|, |b|)
  }

  lemma {:induction false} EditDistanceLowerBound(a: string, b: string, i: nat, j: nat)
    requires i <= |a| && j <= |b|
    ensures EditDistance(a, b, i, j) >= i - j && EditDistance(a, b, i, j) >= j - i
    decreases i + j
  {
    if i > 0 && j > 0 {
      EditDistanceLowerBound(a, b, i - 1, j);
      EditDistanceLowerBound(a, b, i, j - 1);
      EditDistanceLowerBound(a, b, i - 1, j - 1);
    }
  }

  lemma {:induction false} EditDistanceUpperBound(a: string, b: string, i: nat, j: nat)
    requires i <= |a| && j <= |b|
    ensures EditDistance(a, b, i, j) <= if i >= j then i else j
    decreases i + j
  {
    if i > 0 && j > 0 {
      EditDistanceUpperBound(a, b, i - 1, j - 1);
    }
  }

  /** Dropping one more character from either prefix changes the distance by at most one. */
  lemma {:induction false} EditDistanceNeighbours(a: string, b: string, i: nat, j: nat)
    requires i <= |a| && j <= |b|
    ensures i > 0 ==> EditDistance(a, b, i - 1, j) <= EditDistance(a, b, i, j) + 1
    ensures j > 0 ==> EditDistance(a, b, i, j - 1) <= EditDistance(a, b, i, j) + 1
    decreases i + j
  {
    if i > 0 && j > 0 {
      EditDistanceNeighbours(a, b, i - 1, j);
      EditDistanceNeighbours(a, b, i, j - 1);
      if i - 1 > 0 {
        assert EditDistance(a, b, i - 1, j) <= EditDistance(a, b, i - 1, j - 1) + 1;
      }
      if j - 1 > 0 {
        assert EditDistance(a, b, i, j - 1) <= EditDistance(a, b, i - 1, j - 1) + 1;
      }
    } else if i > 0 {
      EditDistanceLowerBound(a, b, i - 1, j);
    } else if j > 0 {
      EditDistanceLowerBound(a, b, i, j - 1);
    }
  }

  /** When the last characters agree the distance is that of the shorter prefixes:
      the shortcut `getEditDistance` takes. */
  lemma EditDistanceMatch(a: string, b: string, i: nat, j: nat)
    requires 0 < i <= |a| && 0 < j <= |b| && a[i - 1] == b[j - 1]
    ensures EditDistance(a, b, i, j) == EditDistance(a, b, i - 1, j - 1)
  {
    EditDistanceNeighbours(a, b, i - 1, j);
    EditDistanceNeighbours(a, b, i, j - 1);
  }

  /** When the last characters differ, the best of the three neighbours plus one:
      the other branch of `getEditDistance`. */
  lemma EditDistanceMismatch(a: string, b: string, i: nat, j: nat)
    requires 0 < i <= |a| && 0 < j <= |b| && a[i - 1] != b[j - 1]
    ensures EditDistance(a, b, i, j)
      == Min3(EditDistance(a, b, i - 1, j - 1), EditDistance(a, b, i, j - 1), EditDistance(a, b, i - 1, j)) + 1
  {
  }

  lemma {:induction false} EditDistanceSymmetric(a: string, b: string, i: nat, j: nat)
    requires i <= |a| && j <= |b|
    ensures EditDistance(a, b, i, j) == EditDistance(b, a, j, i)
    decreases i + j
  {
    if i > 0 && j > 0 {
      EditDistanceSymmetric(a, b, i - 1, j);
      EditDistanceSymmetric(a, b, i, j - 1);
      EditDistanceSymmetric(a, b, i - 1, j - 1);
    }
  }

  /** The distance is zero exactly when the prefixes are equal. */
  lemma {:induction false} EditDistanceZero(a: string, b: string, i: nat, j: nat)
    requires i <= |a| && j <= |b|
    ensures EditDistance(a, b, i, j) == 0 <==> i == j && a[..i] == b[..j]
    decreases i + j
  {
    EditDistanceLowerBound(a, b, i, j);
    if i > 0 && j > 0 {
      EditDistanceZero(a, b, i - 1, j - 1);
      assert a[..i] == a[..i - 1] + [a[i - 1]] && b[..j] == b[..j - 1] + [b[j - 1]];
      if i == j && a[..i] == b[..j] {
        assert a[i - 1] == a[..i][i - 1] == b[..j][j - 1] == b[j - 1];
        assert a[..i - 1] == a[..i][..i - 1];
        assert b[..j - 1] == b[..j][..j - 1];
      }
      if EditDistance(a, b, i, j) == 0 {
        EditDistanceLowerBound(a, b, i - 1, j);
        EditDistanceLowerBound(a, b, i, j - 1);
      }
    }
  }

  lemma LevenshteinProperties(a: string, b: string)
    ensures Levenshtein(a, b) == Levenshtein(b, a)
    ensures Levenshtein(a, b) == 0 <==> a == b
    ensures Levenshtein(a, a) == 0
    ensures Levenshtein(a, b) <= if |a| >= |b| then |a| else |b|
    ensures Levenshtein(a, b) >= |a| - |b| && Levenshtein(a, b) >= |b| - |a|
  {
    EditDistanceSymmetric(a, b, |a|, |b|);
    EditDistanceZero(a, b, |a|, |b|);
    EditDistanceZero(a, a, |a|, |a|);
    EditDistanceUpperBound(a, b, |a|, |b|);
    EditDistanceLowerBound(a, b, |a|, |b|);
    assert a[..|a|] == a && b[..|b|] == b;
  }

  /** One cell of the inner loop: the diagonal value when the characters agree,
      otherwise one more than the best of the three neighbours. */
  method NextCost(s1: string, s2: string, i: nat, j: nat, diagonal: nat, left: nat, up: nat) returns (v: nat)
    requires 0 < i <= |s1| && 0 < j <= |s2|
    requires diagonal == EditDistance(s1, s2, i - 1, j - 1)
    requires left == EditDistance(s1, s2, i, j - 1) && up == EditDistance(s1, s2, i - 1, j)
    ensures v == EditDistance(s1, s2, i, j)
  {
    v := diagonal;
    if s1[i - 1] != s2[j - 1] {
      v := Min3(v, left, up) + 1;
      EditDistanceMismatch(s1, s2, i, j);
    } else {
      EditDistanceMatch(s1, s2, i, j);
    }
  }

  /** One pass of the outer loop of `getEditDistance` for `i > 0`: turns the row of
      distances for `i - 1` characters of `s1` into the row for `i` characters, in
      place, carrying the left neighbour in `lastValue`. */
  method NextRow(s1: string, s2: string, i: nat, costs: array<nat>)
    requires 0 < i <= |s1| && costs.Length == |s2| + 1
    requires forall k {:trigger costs[k]} :: 0 <= k <= |s2| ==> costs[k] == EditDistance(s1, s2, i - 1, k)
    modifies costs
    ensures forall k {:trigger costs[k]} :: 0 <= k <= |s2| ==> costs[k] == EditDistance(s1, s2, i, k)
  {
    var n := |s2|;
    var lastValue: nat := i;
    var j := 1;
    while j <= n
      invariant 1 <= j <= n + 1
      invariant lastValue == EditDistance(s1, s2, i, j - 1)
      invariant forall k {:trigger costs[k]} :: 0 <= k < j - 1 ==> costs[k] == EditDistance(s1, s2, i, k)
      invariant forall k {:trigger costs[k]} :: j - 1 <= k <= n ==> costs[k] == EditDistance(s1, s2, i - 1, k)
    {
      var newValue := NextCost(s1, s2, i, j, costs[j - 1], lastValue, costs[j]);
      costs[j - 1] := lastValue;
      lastValue := newValue;
      j := j + 1;
    }
    costs[n] := lastValue;
  }

  /** `getEditDistance`: a single row of costs, updated in place once per character
      of `s1`; computes the Levenshtein distance. */
  method GetEditDistance(s1: string, s2: string) returns (d: nat)
    ensures d == Levenshtein(s1, s2)
  {
    var n := |s2|;
    var costs := new nat[n + 1];
    var j := 0;
    while j <= n
      invariant 0 <= j <= n + 1
      invariant forall k {:trigger costs[k]} :: 0 <= k < j ==> costs[k] == EditDistance(s1, s2, 0, k)
    {
      costs[j] := j;
      j := j + 1;
    }
    var i := 1;
    while i <= |s1|
      invariant 1 <= i <= |s1| + 1
      invariant forall k {:trigger costs[k]} :: 0 <= k <= n ==> costs[k] == EditDistance(s1, s2, i - 1, k)
    {
      NextRow(s1, s2, i, costs);
      i := i + 1;
    }
    d := costs[n];
  }

  // ================================================================ similarity

  /** `calculateStringSimilarity`: `(longer - distance) / longer`, and 1 when both are empty. */
  function CalculateStringSimilarity(str1: string, str2: string): (sim: real)
    ensures 0.0 <= sim <= 1.0
    ensures sim == 1.0 <==> str1 == str2
  {
    var longer := if |str1| > |str2| then str1 else str2;
    var shorter := if |str1| > |str2| then str2 else str1;
    if |longer| == 0 then 1.0
    else
      LevenshteinProperties(longer, shorter);
      RatioBounds(Levenshtein(longer, shorter), |longer|);
      (|longer| - Levenshtein(longer, shorter)) as real / |longer| as real
  }

  lemma RatioBounds(d: nat, n: nat)
    requires 0 < n && d <= n
    ensures 0.0 <= (n - d) as real / n as real <= 1.0
    ensures (n - d) as real / n as real == 1.0 <==> d == 0
  {
    var r := (n - d) as real / n as real;
    assert r * n as real == (n - d) as real;
  }

  lemma SimilaritySymmetric(a: string, b: string)
    ensures CalculateStringSimilarity(a, b) == CalculateStringSimilarity(b, a)
  {
    LevenshteinProperties(a, b);
  }

  lemma OneCharLongerDistance(a: string, c: char)
    ensures Levenshtein(a + [c], a) == 1
  {
    var b := a + [c];
    EditDistanceLowerBound(b, a, |b|, |a|);
    EditDistanceZero(b, a, |a|, |a|);
    assert b[..|a|] == a[..|a|];
    assert EditDistance(b, a, |b|, |a|) <= EditDistance(b, a, |a|, |a|) + 1;
  }

  lemma RatioAboveThreshold(n: real)
    requires n >= 5.0
    ensures n / (n + 1.0) > 0.8
  {
    assert n > 0.8 * (n + 1.0);
  }

  /** Appending one character to an existing name keeps the similarity at
      `n / (n + 1)`, which is above 0.8 from five characters on. */
  lemma SimilarityOneCharLonger(a: string, c: char)
    ensures CalculateStringSimilarity(a + [c], a) == |a| as real / (|a| + 1) as real
    ensures |a| >= 5 ==> CalculateStringSimilarity(a + [c], a) > 0.8
  {
    OneCharLongerDistance(a, c);
    if |a| >= 5 {
      RatioAboveThreshold(|a| as real);
    }
  }

  // ================================================================ fuzzy duplicates

  /** The part of a stored school that duplicate detection reads. */
  datatype ExistingSchool = ExistingSchool(id: string, name: string, minerdCode: Value)

  const DuplicateThreshold: real := 0.8

  predicate IsNearDuplicate(name: string, school: ExistingSchool, threshold: real) {
    CalculateStringSimilarity(Lower(name), Lower(school.name)) > threshold
  }

  /** `findPotentialDuplicates`: every pool entry whose lower-cased name is more
      similar than `threshold`, in pool order. */
  function FindPotentialDuplicates(record: Record, existing: seq<ExistingSchool>, threshold: real := DuplicateThreshold): (dups: seq<ExistingSchool>)
    requires Field(record, "name").Str?
    ensures forall s :: s in dups <==> s in existing && IsNearDuplicate(Field(record, "name").s, s, threshold)
    ensures IsSubsequence(dups, existing)
  {
    var name := Field(record, "name").s;
    Filter(existing, (s: ExistingSchool) => IsNearDuplicate(name, s, threshold))
  }

  /** The duplicates are exactly the near-duplicate pool entries, each as often as
      it occurs in the pool. */
  lemma DuplicatesCounted(record: Record, existing: seq<ExistingSchool>, threshold: real)
    requires Field(record, "name").Str?
    ensures forall s ::
              multiset(FindPotentialDuplicates(record, existing, threshold))[s]
              == if IsNearDuplicate(Field(record, "name").s, s, threshold) then multiset(existing)[s] else 0
  {
    FilterMultiset(existing, (s: ExistingSchool) => IsNearDuplicate(Field(record, "name").s, s, threshold));
  }

  /** A pool entry with the same name (up to case) always blocks the record. */
  lemma SameNameIsDuplicate(record: Record, existing: seq<ExistingSchool>, k: nat)
    requires Field(record, "name").Str?
    requires k < |existing| && Lower(existing[k].name) == Lower(Field(record, "name").s)
    ensures existing[k] in FindPotentialDuplicates(record, existing)
  {
  }

  // ================================================================ CSV

  /** `values[index]?.trim() || ''`. */
  function Cell(values: seq<string>, index: nat): string {
    if index < |values| then Trim(values[index]) else ""
  }

  /** `header.trim()` for every header. */
  function TrimAll(headers: seq<string>): (keys: seq<string>)
    ensures |keys| == |headers|
    ensures forall k :: 0 <= k < |headers| ==> keys[k] == Trim(headers[k])
  {
    if headers == [] then [] else [Trim(headers[0])] + TrimAll(headers[1..])
  }

  /** No key in `k + 1 .. end` equals key `k`. */
  predicate LastBefore(keys: seq<string>, k: nat, end: nat)
    requires k < end <= |keys|
  {
    forall m :: k < m < end ==> keys[m] != keys[k]
  }

  /** No later header has the same key, so header `k` decides the value. */
  predicate LastWithKey(keys: seq<string>, k: nat) {
    k < |keys| && LastBefore(keys, k, |keys|)
  }

  /** The value of every column of one line, one per header. */
  function Cells(values: seq<string>, n: nat): (cells: seq<string>)
    ensures |cells| == n
    ensures forall k :: 0 <= k < n ==> cells[k] == Cell(values, k)
  {
    seq(n, (k: int) requires 0 <= k => Cell(values, k))
  }

  /** The `forEach` over the (trimmed) headers that fills one record: the keys are
      the headers, every value is a string, and a repeated key keeps its last value. */
  method FillRecord(keys: seq<string>, cells: seq<string>) returns (record: Record)
    requires |cells| == |keys|
    ensures record.Keys == set k | 0 <= k < |keys| :: keys[k]
    ensures forall key :: key in record ==> record[key].Str?
    ensures forall k :: 0 <= k < |keys| && LastWithKey(keys, k) ==> record[keys[k]] == Str(cells[k])
  {
    record := map[];
    var index := 0;
    while index < |keys|
      invariant 0 <= index <= |keys|
      invariant forall k :: 0 <= k < index ==> keys[k] in record
      invariant record.Keys == set k | 0 <= k < index :: keys[k]
      invariant forall key :: key in record ==> record[key].Str?
      invariant forall k :: 0 <= k < index && LastBefore(keys, k, index) ==> record[keys[k]] == Str(cells[k])
    {
      record := record[keys[index] := Str(cells[index])];
      index := index + 1;
    }
  }

  /** What the record built from one data line holds: exactly the header keys,
      only string values, and for each key the cell under its last header. */
  predicate RowRecord(keys: seq<string>, line: string, record: Record) {
    && record.Keys == (set k | 0 <= k < |keys| :: keys[k])
    && (forall key :: key in record ==> record[key].Str?)
    && (forall k :: 0 <= k < |keys| && LastWithKey(keys, k) ==>
          record[keys[k]] == Str(Cell(Split(line, ','), k)))
  }

  /** `parseCSV`: one record per line after the header line, keyed by the trimmed
      header names; every value is a string, so no such record passes layer 1. */
  method ParseCsv(content: string) returns (records: seq<Record>)
    ensures var lines := Split(Trim(content), '\n');
      && |records| == |lines| - 1
      && forall i :: 0 <= i < |records| ==> RowRecord(TrimAll(Split(lines[0], ',')), lines[i + 1], records[i])
    ensures forall i :: 0 <= i < |records| ==> !ValidateFormat(records[i])
  {
    var lines := Split(Trim(content), '\n');
    var keys := TrimAll(Split(lines[0], ','));
    records := ReadLines(keys, lines);
    forall i | 0 <= i < |records| ensures !ValidateFormat(records[i]) {
      CsvRecordsFailFormat(keys, lines[i + 1], records[i]);
    }
  }

  /** One data line: its cells, split on commas and trimmed, under the header keys. */
  method ReadLine(keys: seq<string>, line: string) returns (record: Record)
    ensures RowRecord(keys, line, record)
  {
    record := FillRecord(keys, Cells(Split(line, ','), |keys|));
  }

  lemma AppendRow(keys: seq<string>, lines: seq<string>, records: seq<Record>, record: Record)
    requires |records| + 1 < |lines|
    requires forall i :: 0 <= i < |records| ==> RowRecord(keys, lines[i + 1], records[i])
    requires RowRecord(keys, lines[|records| + 1], record)
    ensures forall i :: 0 <= i < |records| + 1 ==> RowRecord(keys, lines[i + 1], (records + [record])[i])
  {
    forall i | 0 <= i < |records| + 1 ensures RowRecord(keys, lines[i + 1], (records + [record])[i]) {
      if i < |records| {
        assert (records + [record])[i] == records[i];
      } else {
        assert (records + [record])[i] == record;
      }
    }
  }

  /** The loop over the data lines, one record per line after the first. */
  method ReadLines(keys: seq<string>, lines: seq<string>) returns (records: seq<Record>)
    requires |lines| >= 1
    ensures |records| == |lines| - 1
    ensures forall i :: 0 <= i < |records| ==> RowRecord(keys, lines[i + 1], records[i])
  {
    records := [];
    var n := 1;
    while n < |lines|
      invariant 1 <= n <= |lines|
      invariant |records| == n - 1
      invariant forall i :: 0 <= i < |records| ==> RowRecord(keys, lines[i + 1], records[i])
    {
      var record := ReadLine(keys, lines[n]);
      AppendRow(keys, lines, records, record);
      records := records + [record];
      n := n + 1;
    }
  }

  /** Every value read from the file is text, so layer 1 rejects each record. */
  lemma CsvRecordsFailFormat(keys: seq<string>, line: string, record: Record)
    requires RowRecord(keys, line, record)
    ensures !ValidateFormat(record)
  {
    if "students_count" in record {
      assert record["students_count"].Str?;
    }
  }

  // ================================================================ the record loop

  /** The row upserted for an accepted record (keyed by `minerd_code`). */
  datatype SchoolRow = SchoolRow(
    minerdCode: string, name: string, slug: string, schoolType: string,
    address: Value, provinceId: int, studentsCount: int, pruebaNacional: real)

  /** What the province lookup oracle answers: the store's id, no row (the source
      returns null), or a thrown exception. */
  datatype ProvinceLookup = Found(id: int) | NotFound | LookupThrew(message: string)

  /** What the upsert oracle answers; an error result and a thrown exception are
      booked the same way. */
  datatype WriteOutcome = Written | WriteFailed(message: string)

  datatype ImportError = ImportError(record: Value, error: string)

  /** The run summary and the state the loop owns. */
  datatype Summary = Summary(
    imported: nat, skipped: nat, duplicates: nat,
    importedRecords: seq<Record>, errors: seq<ImportError>,
    store: map<string, SchoolRow>)

  /** The row upserted for a record that passed the format layer, once its
      province resolved to `provinceId`. */
  function RowFor(r: Record, provinceId: int): (row: SchoolRow)
    requires ValidateFormat(r)
    ensures row.minerdCode == Field(r, "minerd_code").s && row.name == Field(r, "name").s
    ensures row.slug == GenerateSlug(row.name) && row.schoolType == Lower(Field(r, "type").s)
    ensures row.address == (if Truthy(Field(r, "address")) then Field(r, "address") else Str(""))
    ensures row.provinceId == provinceId
    ensures row.studentsCount == Field(r, "students_count").n.Floor
    ensures row.pruebaNacional == Field(r, "prueba_nacional").n
  {
    SchoolRow(
      Field(r, "minerd_code").s, Field(r, "name").s, GenerateSlug(Field(r, "name").s),
      Lower(Field(r, "type").s), OrElse(Field(r, "address"), Str("")), provinceId,
      Field(r, "students_count").n.Floor, Field(r, "prueba_nacional").n)
  }

  /** How one record is booked. */
  datatype Outcome = SkippedFormat | SkippedRange | SkippedRepeatedCode | FuzzyDuplicate
                   | SkippedNoProvince | SkippedWrite(message: string) | Imported(row: SchoolRow)

  /** The last two steps for a record that passed every check: the province lookup
      (a missing or zero id skips the record) and the upsert. */
  function PersistOutcome(lookup: string -> ProvinceLookup, upsert: SchoolRow -> WriteOutcome,
                          r: Record): (o: Outcome)
    requires ValidateFormat(r)
    ensures o.Imported? || o.SkippedNoProvince? || o.SkippedWrite?
    ensures var p := lookup(Field(r, "province").s);
      o.Imported? <==> p.Found? && p.id != 0 && upsert(RowFor(r, p.id)) == Written
    ensures var p := lookup(Field(r, "province").s);
      o.Imported? ==> o.row == RowFor(r, p.id) && o.row.minerdCode == Field(r, "minerd_code").s
    ensures var p := lookup(Field(r, "province").s);
      o.SkippedNoProvince? <==> p.NotFound? || p == Found(0)
    ensures var p := lookup(Field(r, "province").s);
      o.SkippedWrite? <==> p.LookupThrew? || (p.Found? && p.id != 0 && upsert(RowFor(r, p.id)).WriteFailed?)
    ensures var p := lookup(Field(r, "province").s);
      o.SkippedWrite? ==> o.message == (if p.LookupThrew? then p.message else upsert(RowFor(r, p.id)).message)
  {
    match lookup(Field(r, "province").s)
    case NotFound => SkippedNoProvince
    case LookupThrew(msg) => SkippedWrite(msg)
    case Found(id) =>
      if id == 0 then SkippedNoProvince
      else
        var row := RowFor(r, id);
        match upsert(row)
        case WriteFailed(msg) => SkippedWrite(msg)
        case Written => Imported(row)
  }

  /** The decision chain of the loop body for one record, given the records already
      accepted in this run. */
  function Classify(existing: seq<ExistingSchool>, accepted: seq<Record>,
                    lookup: string -> ProvinceLookup, upsert: SchoolRow -> WriteOutcome,
                    r: Record): (o: Outcome)
    ensures o.Imported? ==>
      && ValidateFormat(r) && ValidateRange(r)
      && ValidateHistoricalConsistency(r, accepted)
      && FindPotentialDuplicates(r, existing) == []
      && o.row.minerdCode == Field(r, "minerd_code").s
      && upsert(o.row) == Written
    ensures (&& ValidateFormat(r) && ValidateRange(r) && ValidateHistoricalConsistency(r, accepted)
             && FindPotentialDuplicates(r, existing) == []) ==> o == PersistOutcome(lookup, upsert, r)
    ensures !ValidateFormat(r) ==> o == SkippedFormat
    ensures ValidateFormat(r) && !ValidateRange(r) ==> o == SkippedRange
    ensures ValidateFormat(r) && ValidateRange(r) && !ValidateHistoricalConsistency(r, accepted) ==> o == SkippedRepeatedCode
    ensures o.FuzzyDuplicate? <==>
      && ValidateFormat(r) && ValidateRange(r) && ValidateHistoricalConsistency(r, accepted)
      && FindPotentialDuplicates(r, existing) != []
  {
    if !ValidateFormat(r) then SkippedFormat
    else if !ValidateRange(r) then SkippedRange
    else if !ValidateHistoricalConsistency(r, accepted) then SkippedRepeatedCode
    else if FindPotentialDuplicates(r, existing) != [] then FuzzyDuplicate
    else PersistOutcome(lookup, upsert, r)
  }

  /** How the loop books one record's outcome: an import raises `imported`,
      appends the record and stores the row under its code; a fuzzy duplicate
      raises `duplicates`; every other outcome raises `skipped`, and a write error
      also lists the record's name with the message. */
  function Book(s: Summary, r: Record, o: Outcome): (t: Summary)
    ensures t.imported == s.imported + (if o.Imported? then 1 else 0)
    ensures t.duplicates == s.duplicates + (if o.FuzzyDuplicate? then 1 else 0)
    ensures t.skipped == s.skipped + (if o.Imported? || o.FuzzyDuplicate? then 0 else 1)
    ensures t.importedRecords == s.importedRecords + (if o.Imported? then [r] else [])
    ensures t.errors == s.errors + (if o.SkippedWrite? then [ImportError(Field(r, "name"), o.message)] else [])
    ensures t.store == (if o.Imported? then s.store[o.row.minerdCode := o.row] else s.store)
  {
    match o
    case Imported(row) =>
      s.(imported := s.imported + 1, importedRecords := s.importedRecords + [r],
         store := s.store[row.minerdCode := row])
    case FuzzyDuplicate => s.(duplicates := s.duplicates + 1)
    case SkippedWrite(msg) =>
      s.(skipped := s.skipped + 1, errors := s.errors + [ImportError(Field(r, "name"), msg)])
    case _ => s.(skipped := s.skipped + 1)
  }

  predicate DistinctCodes(rs: seq<Record>) {
    forall i, j :: 0 <= i < j < |rs| ==> Field(rs[i], "minerd_code") != Field(rs[j], "minerd_code")
  }

  /** What every record accepted from position `from` on satisfies: it passed the
      first two layers, matched no stored school, and the store holds under its code
      a row of that code which the upsert wrote. */
  predicate AcceptedFrom(existing: seq<ExistingSchool>, upsert: SchoolRow -> WriteOutcome, s: Summary, from: nat) {
    forall k :: from <= k < |s.importedRecords| ==> AcceptedRecord(existing, upsert, s.store, s.importedRecords[k])
  }

  predicate AcceptedRecord(existing: seq<ExistingSchool>, upsert: SchoolRow -> WriteOutcome,
                           store: map<string, SchoolRow>, r: Record) {
    && ValidateFormat(r) && ValidateRange(r)
    && FindPotentialDuplicates(r, existing) == []
    && Field(r, "minerd_code").s in store
    && store[Field(r, "minerd_code").s].minerdCode == Field(r, "minerd_code").s
    && upsert(store[Field(r, "minerd_code").s]) == Written
  }

  /** Booking one record moves exactly one counter by one and keeps the books. */
  lemma BookStep(existing: seq<ExistingSchool>, upsert: SchoolRow -> WriteOutcome, prev: Summary,
                 r: Record, o: Outcome, from: nat)
    requires DistinctCodes(prev.importedRecords)
    requires from <= |prev.importedRecords| && AcceptedFrom(existing, upsert, prev, from)
    requires o.Imported? ==>
      && ValidateFormat(r) && ValidateRange(r)
      && ValidateHistoricalConsistency(r, prev.importedRecords)
      && FindPotentialDuplicates(r, existing) == []
      && o.row.minerdCode == Field(r, "minerd_code").s
      && upsert(o.row) == Written
    ensures var s := Book(prev, r, o);
      && s.imported + s.skipped + s.duplicates == prev.imported + prev.skipped + prev.duplicates + 1
      && s.imported >= prev.imported && s.skipped >= prev.skipped && s.duplicates >= prev.duplicates
      && |s.importedRecords| - |prev.importedRecords| == s.imported - prev.imported
      && s.importedRecords[..|prev.importedRecords|] == prev.importedRecords
      && |s.errors| - |prev.errors| <= s.skipped - prev.skipped
      && DistinctCodes(s.importedRecords)
      && prev.store.Keys <= s.store.Keys
      && AcceptedFrom(existing, upsert, s, from)
  {
    var s := Book(prev, r, o);
    if o.Imported? {
      assert s.importedRecords == prev.importedRecords + [r];
      assert s.importedRecords[|prev.importedRecords|] == r;
      forall i, j | 0 <= i < j < |s.importedRecords|
        ensures Field(s.importedRecords[i], "minerd_code") != Field(s.importedRecords[j], "minerd_code")
      {
        if j == |prev.importedRecords| {
          assert s.importedRecords[i] == prev.importedRecords[i];
        }
      }
      forall k | from <= k < |s.importedRecords|
        ensures AcceptedRecord(existing, upsert, s.store, s.importedRecords[k])
      {
        if k < |prev.importedRecords| {
          var q := prev.importedRecords[k];
          assert s.importedRecords[k] == q;
          assert AcceptedRecord(existing, upsert, prev.store, q);
          assert Field(q, "minerd_code") != Field(r, "minerd_code");
          assert Field(q, "minerd_code").s != o.row.minerdCode;
        }
      }
    }
  }

  /** The summary after the loop has processed `batch`, starting from `init`. */
  function ImportRun(existing: seq<ExistingSchool>, lookup: string -> ProvinceLookup,
                     upsert: SchoolRow -> WriteOutcome, init: Summary, batch: seq<Record>): (s: Summary)
    requires DistinctCodes(init.importedRecords)
    ensures s.imported + s.skipped + s.duplicates == init.imported + init.skipped + init.duplicates + |batch|
    ensures s.imported >= init.imported && s.skipped >= init.skipped && s.duplicates >= init.duplicates
    ensures |s.importedRecords| - |init.importedRecords| == s.imported - init.imported
    ensures s.importedRecords[..|init.importedRecords|] == init.importedRecords
    ensures |s.errors| - |init.errors| <= s.skipped - init.skipped
    ensures DistinctCodes(s.importedRecords)
    ensures init.store.Keys <= s.store.Keys
    ensures AcceptedFrom(existing, upsert, s, |init.importedRecords|)
    decreases |batch|
  {
    if batch == [] then init
    else
      var prev := ImportRun(existing, lookup, upsert, init, batch[..|batch| - 1]);
      var r := batch[|batch| - 1];
      var o := Classify(existing, prev.importedRecords, lookup, upsert, r);
      BookStep(existing, upsert, prev, r, o, |init.importedRecords|);
      Book(prev, r, o)
  }

  function EmptySummary(store: map<string, SchoolRow>): Summary {
    Summary(0, 0, 0, [], [], store)
  }

  /** The audit-log row written once per run. */
  datatype ImportLog = ImportLog(source: string, importedCount: nat, skippedCount: nat,
                                 duplicateCount: nat, importDate: string, notes: string)

  /** The log row written at time `now` (`new Date().toISOString()`) carries the
      run's three counters under the source `minerd`, and its note begins with the
      number imported. */
  function LogEntry(s: Summary, now: string): (e: ImportLog)
    ensures e.source == "minerd" && e.importDate == now
    ensures e.importedCount == s.imported && e.skippedCount == s.skipped && e.duplicateCount == s.duplicates
    ensures StartsWith(e.notes, "Imported " + NatToString(s.imported) + " schools")
  {
    ImportLog("minerd", s.imported, s.skipped, s.duplicates, now,
      "Imported " + NatToString(s.imported) + " schools, skipped " + NatToString(s.skipped)
      + ", found " + NatToString(s.duplicates) + " potential duplicates")
  }

  /** A skipped record whose failure message goes to the error list. */
  method BookFailure(s: Summary, record: Record, message: string) returns (t: Summary)
    ensures t == Book(s, record, SkippedWrite(message))
  {
    t := s.(errors := s.errors + [ImportError(Field(record, "name"), message)], skipped := s.skipped + 1);
  }

  /** A written row: the record joins this run's accepted records. */
  method BookImported(s: Summary, record: Record, row: SchoolRow) returns (t: Summary)
    ensures t == Book(s, record, Imported(row))
  {
    t := s.(store := s.store[row.minerdCode := row], importedRecords := s.importedRecords + [record],
            imported := s.imported + 1);
  }

  /** Steps 5 and 6 of the loop body, for a record that passed every check. */
  method PersistRecord(lookup: string -> ProvinceLookup, upsert: SchoolRow -> WriteOutcome,
                       s: Summary, record: Record)
    returns (t: Summary)
    requires ValidateFormat(record)
    ensures t == Book(s, record, PersistOutcome(lookup, upsert, record))
  {
    var provinceId := lookup(Field(record, "province").s);
    if provinceId.LookupThrew? {
      t := BookFailure(s, record, provinceId.message);
    } else if provinceId.NotFound? || provinceId.id == 0 {
      t := s.(skipped := s.skipped + 1);
    } else {
      var row := RowFor(record, provinceId.id);
      var outcome := upsert(row);
      if outcome.WriteFailed? {
        t := BookFailure(s, record, outcome.message);
      } else {
        t := BookImported(s, record, row);
      }
    }
  }

  /** The body of the record loop: the layers in order, the first failing one
      deciding how the record is booked. */
  method ImportRecord(existingSchools: seq<ExistingSchool>, lookup: string -> ProvinceLookup,
                      upsert: SchoolRow -> WriteOutcome, s: Summary, record: Record)
    returns (t: Summary)
    ensures t == Book(s, record, Classify(existingSchools, s.importedRecords, lookup, upsert, record))
  {
    if !ValidateFormat(record) {
      t := s.(skipped := s.skipped + 1);
    } else if !ValidateRange(record) {
      t := s.(skipped := s.skipped + 1);
    } else if !ValidateHistoricalConsistency(record, s.importedRecords) {
      t := s.(skipped := s.skipped + 1);
    } else if FindPotentialDuplicates(record, existingSchools) != [] {
      t := s.(duplicates := s.duplicates + 1);
    } else {
      t := PersistRecord(lookup, upsert, s, record);
    }
  }

  /** Processing one more record of the batch books it on top of the summary so far. */
  lemma RunStep(existing: seq<ExistingSchool>, lookup: string -> ProvinceLookup,
                upsert: SchoolRow -> WriteOutcome, init: Summary, batch: seq<Record>, n: nat)
    requires DistinctCodes(init.importedRecords)
    requires n < |batch|
    ensures var prev := ImportRun(existing, lookup, upsert, init, batch[..n]);
      ImportRun(existing, lookup, upsert, init, batch[..n + 1])
        == Book(prev, batch[n], Classify(existing, prev.importedRecords, lookup, upsert, batch[n]))
  {
    assert batch[..n + 1][..n] == batch[..n];
    assert batch[..n + 1][n] == batch[n];
  }

  /** `importSchools`: a failed snapshot fetch (`None`) is fatal with exit code 1;
      otherwise every record is booked in order and the run exits with 0. */
  method ImportSchools(existingFetch: Option<seq<ExistingSchool>>, batch: seq<Record>,
                       lookup: string -> ProvinceLookup, upsert: SchoolRow -> WriteOutcome,
                       store: map<string, SchoolRow>, now: string)
    returns (exitCode: int, summary: Summary, log: Option<ImportLog>)
    ensures existingFetch.None? ==> exitCode == 1 && summary == EmptySummary(store) && log.None?
    ensures existingFetch.Some? ==>
      && exitCode == 0
      && summary == ImportRun(existingFetch.value, lookup, upsert, EmptySummary(store), batch)
      && summary.imported + summary.skipped + summary.duplicates == |batch|
      && log == Some(LogEntry(summary, now))
  {
    if existingFetch.None? {
      return 1, EmptySummary(store), None;
    }
    var existingSchools := existingFetch.value;
    summary := EmptySummary(store);
    var n := 0;
    while n < |batch|
      invariant 0 <= n <= |batch|
      invariant summary == ImportRun(existingSchools, lookup, upsert, EmptySummary(store), batch[..n])
    {
      RunStep(existingSchools, lookup, upsert, EmptySummary(store), batch, n);
      summary := ImportRecord(existingSchools, lookup, upsert, summary, batch[n]);
      n := n + 1;
    }
    assert batch[..|batch|] == batch;
    return 0, summary, Some(LogEntry(summary, now));
  }

  /** Re-running a batch after it was imported does not import it again: the
      fresh snapshot now holds a school with the same name, so the record is booked
      as a fuzzy duplicate before any write. */
  lemma RerunIsDuplicate(existing: seq<ExistingSchool>, accepted: seq<Record>,
                         lookup: string -> ProvinceLookup, upsert: SchoolRow -> WriteOutcome,
                         r: Record, k: nat)
    requires ValidateFormat(r) && ValidateRange(r) && ValidateHistoricalConsistency(r, accepted)
    requires k < |existing| && existing[k].name == Field(r, "name").s
    ensures Classify(existing, accepted, lookup, upsert, r) == FuzzyDuplicate
  {
    SameNameIsDuplicate(r, existing, k);
  }

  /** A batch read from a file (every value text) is skipped record by record:
      nothing is imported and nothing is flagged as a duplicate. */
  lemma {:induction false} TextBatchAllSkipped(existing: seq<ExistingSchool>, lookup: string -> ProvinceLookup,
                                               upsert: SchoolRow -> WriteOutcome, init: Summary, batch: seq<Record>)
    requires DistinctCodes(init.importedRecords)
    requires forall i :: 0 <= i < |batch| ==> !ValidateFormat(batch[i])
    ensures ImportRun(existing, lookup, upsert, init, batch)
      == init.(skipped := init.skipped + |batch|)
    decreases |batch|
  {
    if batch != [] {
      TextBatchAllSkipped(existing, lookup, upsert, init, batch[..|batch| - 1]);
    }
  }
}
