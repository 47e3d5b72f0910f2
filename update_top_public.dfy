/** The top-public selection: public schools are grouped by province, every bucket
    is sorted by national-test score (best first, stable), the first `min(10, n)`
    are to be flagged `is_top_public` and the rest unflagged, and a write is issued
    only for a school whose flag differs from its target. The store's update call
    is an oracle; on success it sets the flag in an in-memory copy of the store. */
module TopPublic {
  import opened Common

  /** The fields the script fetches; a `null` flag reads as `false`. */
  datatype PublicSchool = PublicSchool(id: string, name: string, provinceId: nat,
                                       pruebaNacional: Option<real>, isTopPublic: bool)

  /** `school.prueba_nacional || 0`. */
  function Score(s: PublicSchool): real {
    if s.pruebaNacional.Some? then s.pruebaNacional.value else 0.0
  }

  const TopCount: nat := 10

  // ================================================================ grouping

  function Bucket(schools: seq<PublicSchool>, p: nat): (b: seq<PublicSchool>)
    ensures forall s :: s in b <==> s in schools && s.provinceId == p
    ensures IsSubsequence(b, schools)
  {
    Filter(schools, (s: PublicSchool) => s.provinceId == p)
  }

  function ProvinceIds(schools: seq<PublicSchool>): set<nat> {
    set s | s in schools :: s.provinceId
  }

  /** The buckets the grouping loop builds: one per province that occurs. */
  function Groups(schools: seq<PublicSchool>): map<nat, seq<PublicSchool>> {
    map p | p in ProvinceIds(schools) :: Bucket(schools, p)
  }

  /** There is a bucket for exactly the provinces that occur; none is empty, and
      each holds exactly the schools of its province. */
  lemma GroupsAreBuckets(schools: seq<PublicSchool>)
    ensures Groups(schools).Keys == ProvinceIds(schools)
    ensures forall p :: p in Groups(schools) ==> Groups(schools)[p] != []
    ensures forall p, s :: p in Groups(schools) ==> (s in Groups(schools)[p] <==> s in schools && s.provinceId == p)
  {
    forall p | p in Groups(schools) ensures Groups(schools)[p] != [] {
      var s :| s in schools && s.provinceId == p;
      assert s in Bucket(schools, p);
    }
  }

  /** One more school lands at the end of its province's bucket, which it opens
      if it is the first of its province. */
  lemma ProvinceIdsSnoc(xs: seq<PublicSchool>, school: PublicSchool)
    ensures ProvinceIds(xs + [school]) == ProvinceIds(xs) + {school.provinceId}
  {
    assert forall s :: s in xs + [school] <==> s in xs || s == school;
  }

  lemma BucketSnoc(xs: seq<PublicSchool>, school: PublicSchool, p: nat)
    ensures Bucket(xs + [school], p) == Bucket(xs, p) + (if school.provinceId == p then [school] else [])
  {
    FilterConcat(xs, [school], (s: PublicSchool) => s.provinceId == p);
  }

  lemma GroupsSnoc(xs: seq<PublicSchool>, school: PublicSchool)
    ensures Groups(xs + [school]) == Groups(xs)[school.provinceId :=
      (if school.provinceId in Groups(xs) then Groups(xs)[school.provinceId] else []) + [school]]
  {
    var q := school.provinceId;
    var before := Groups(xs);
    var after := Groups(xs + [school]);
    var expected := before[q := (if q in before then before[q] else []) + [school]];
    ProvinceIdsSnoc(xs, school);
    assert after.Keys == expected.Keys;
    forall p | p in after ensures after[p] == expected[p] {
      GroupsSnocAt(xs, school, p);
    }
  }

  lemma GroupsSnocAt(xs: seq<PublicSchool>, school: PublicSchool, p: nat)
    requires p in ProvinceIds(xs + [school])
    ensures Bucket(xs + [school], p) ==
      if p == school.provinceId then (if p in ProvinceIds(xs) then Bucket(xs, p) else []) + [school]
      else Bucket(xs, p)
  {
    BucketSnoc(xs, school, p);
    if p !in ProvinceIds(xs) {
      FilterNone(xs, (s: PublicSchool) => s.provinceId == p);
    }
  }

  /** The grouping loop (`schoolsByProvince`). */
  method GroupByProvince(schools: seq<PublicSchool>) returns (groups: map<nat, seq<PublicSchool>>)
    ensures groups == Groups(schools)
  {
    groups := map[];
    var n := 0;
    assert schools[..0] == [];
    while n < |schools|
      invariant 0 <= n <= |schools|
      invariant groups == Groups(schools[..n])
    {
      var school := schools[n];
      assert schools[..n + 1] == schools[..n] + [school];
      GroupsSnoc(schools[..n], school);
      var bucket := if school.provinceId in groups then groups[school.provinceId] else [];
      groups := groups[school.provinceId := bucket + [school]];
      n := n + 1;
    }
    assert schools[..|schools|] == schools;
  }

  /** Every school is in the bucket of its own province and in no other. */
  lemma BucketsPartition(schools: seq<PublicSchool>, s: PublicSchool, p: nat)
    requires s in schools
    ensures s in Bucket(schools, p) <==> p == s.provinceId
  {
  }

  // ================================================================ province order

  /** A set of naturals holding `m` has a least element. */
  lemma {:induction false} HasMinimum(keys: set<nat>, m: nat)
    requires m in keys
    ensures exists r :: r in keys && forall k :: k in keys ==> r <= k
    decreases m
  {
    if !(forall k :: k in keys ==> m <= k) {
      var j :| j in keys && j < m;
      HasMinimum(keys, j);
    }
  }

  function SetMin(keys: set<nat>): (m: nat)
    requires keys != {}
    ensures m in keys && forall k :: k in keys ==> m <= k
  {
    var some :| some in keys;
    HasMinimum(keys, some);
    var m :| m in keys && forall k :: k in keys ==> m <= k;
    m
  }

  /** `Object.entries` visits integer keys in ascending order. */
  function AscendingKeys(keys: set<nat>): (order: seq<nat>)
    ensures forall k :: k in order <==> k in keys
    ensures forall i, j :: 0 <= i < j < |order| ==> order[i] < order[j]
    decreases |keys|
  {
    if keys == {} then []
    else
      var m := SetMin(keys);
      [m] + AscendingKeys(keys - {m})
  }

  // ================================================================ sorting

  /** Inserting `x` into a score-sorted list after every element that scores at
      least as much: the step of a stable descending sort. */
  function InsertByScore(x: PublicSchool, ys: seq<PublicSchool>): (r: seq<PublicSchool>)
    ensures |r| == |ys| + 1
  {
    if ys == [] then [x]
    else if Score(ys[|ys| - 1]) >= Score(x) then ys + [x]
    else InsertByScore(x, ys[..|ys| - 1]) + [ys[|ys| - 1]]
  }

  /** The bucket after `schools.sort((a, b) => (b.prueba_nacional || 0) - (a.prueba_nacional || 0))`. */
  function SortedByScore(xs: seq<PublicSchool>): (r: seq<PublicSchool>)
    ensures |r| == |xs|
  {
    if xs == [] then []
    else InsertByScore(xs[|xs| - 1], SortedByScore(xs[..|xs| - 1]))
  }

  lemma {:induction false} InsertPermutes(x: PublicSchool, ys: seq<PublicSchool>)
    ensures multiset(InsertByScore(x, ys)) == multiset(ys) + multiset{x}
  {
    if ys != [] && Score(ys[|ys| - 1]) < Score(x) {
      InsertPermutes(x, ys[..|ys| - 1]);
      assert ys == ys[..|ys| - 1] + [ys[|ys| - 1]];
    }
  }

  /** The sort is a permutation of the bucket. */
  lemma {:induction false} SortedByScorePermutes(xs: seq<PublicSchool>)
    ensures multiset(SortedByScore(xs)) == multiset(xs)
  {
    if xs != [] {
      SortedByScorePermutes(xs[..|xs| - 1]);
      InsertPermutes(xs[|xs| - 1], SortedByScore(xs[..|xs| - 1]));
      assert xs == xs[..|xs| - 1] + [xs[|xs| - 1]];
    }
  }

  predicate ScoreDescending(s: seq<PublicSchool>) {
    forall i, j :: 0 <= i < j < |s| ==> Score(s[i]) >= Score(s[j])
  }

  lemma {:induction false} InsertKeepsDescending(x: PublicSchool, ys: seq<PublicSchool>)
    requires ScoreDescending(ys)
    ensures ScoreDescending(InsertByScore(x, ys))
  {
    if ys != [] && Score(ys[|ys| - 1]) < Score(x) {
      var init := ys[..|ys| - 1];
      InsertKeepsDescending(x, init);
      var r := InsertByScore(x, init);
      InsertPermutes(x, init);
      forall k | 0 <= k < |r| ensures Score(r[k]) >= Score(ys[|ys| - 1]) {
        assert r[k] in multiset(r);
        if r[k] != x {
          assert r[k] in multiset(init);
          assert r[k] in init;
          var m :| 0 <= m < |init| && init[m] == r[k];
          assert ys[m] == r[k];
        }
      }
    }
  }

  lemma {:induction false} SortedByScoreDescending(xs: seq<PublicSchool>)
    ensures ScoreDescending(SortedByScore(xs))
  {
    if xs != [] {
      SortedByScoreDescending(xs[..|xs| - 1]);
      InsertKeepsDescending(xs[|xs| - 1], SortedByScore(xs[..|xs| - 1]));
    }
  }

  /** The schools of `s` that score exactly `v`, in order. */
  function WithScore(s: seq<PublicSchool>, v: real): seq<PublicSchool> {
    if s == [] then []
    else WithScore(s[..|s| - 1], v) + (if Score(s[|s| - 1]) == v then [s[|s| - 1]] else [])
  }

  lemma {:induction false} InsertStable(x: PublicSchool, ys: seq<PublicSchool>, v: real)
    ensures WithScore(InsertByScore(x, ys), v) == WithScore(ys, v) + (if Score(x) == v then [x] else [])
  {
    if ys == [] {
      WithScoreSnoc([], x, v);
      assert [] + [x] == [x];
    } else if Score(ys[|ys| - 1]) >= Score(x) {
      assert InsertByScore(x, ys) == ys + [x];
      WithScoreSnoc(ys, x, v);
    } else {
      var init := ys[..|ys| - 1];
      var last := ys[|ys| - 1];
      assert InsertByScore(x, ys) == InsertByScore(x, init) + [last];
      InsertStable(x, init, v);
      WithScoreSnoc(InsertByScore(x, init), last, v);
      WithScoreSnoc(init, last, v);
      assert init + [last] == ys;
    }
  }

  lemma WithScoreSnoc(s: seq<PublicSchool>, t: PublicSchool, v: real)
    ensures WithScore(s + [t], v) == WithScore(s, v) + (if Score(t) == v then [t] else [])
  {
    assert (s + [t])[..|s|] == s;
  }

  /** Stability: schools with equal scores keep their fetch order. */
  lemma {:induction false} SortedByScoreStable(xs: seq<PublicSchool>, v: real)
    ensures WithScore(SortedByScore(xs), v) == WithScore(xs, v)
  {
    if xs != [] {
      var init := xs[..|xs| - 1];
      SortedByScoreStable(init, v);
      InsertStable(xs[|xs| - 1], SortedByScore(init), v);
    }
  }

  /** Inserting lands `x` right after the last school that scores at least as
      much, past all the later ones, which score less. */
  lemma {:induction false} InsertLands(x: PublicSchool, p: seq<PublicSchool>, j: nat)
    requires j <= |p|
    requires forall k :: j <= k < |p| ==> Score(p[k]) < Score(x)
    requires j == 0 || Score(p[j - 1]) >= Score(x)
    ensures InsertByScore(x, p) == p[..j] + [x] + p[j..]
    decreases |p|
  {
    if p != [] && j < |p| {
      var init := p[..|p| - 1];
      InsertLands(x, init, j);
      assert init[..j] == p[..j] && init[j..] + [p[|p| - 1]] == p[j..];
    } else if p != [] {
      assert p[..j] == p;
    }
  }

  /** One pass of the insertion sort: `a[i]` moves left past the schools before it
      that score strictly less, and stops at position `j`. */
  method MoveLeft(a: array<PublicSchool>, i: nat) returns (ghost j: nat)
    requires i < a.Length
    modifies a
    ensures j <= i
    ensures forall k :: 0 <= k < j ==> a[k] == old(a[k])
    ensures a[j] == old(a[i])
    ensures forall k :: j < k <= i ==> a[k] == old(a[k - 1])
    ensures forall k :: i < k < a.Length ==> a[k] == old(a[k])
    ensures forall k :: j <= k < i ==> Score(old(a[k])) < Score(old(a[i]))
    ensures j == 0 || Score(old(a[j - 1])) >= Score(old(a[i]))
  {
    var x := a[i];
    var m := i;
    while m > 0 && Score(a[m - 1]) < Score(x)
      invariant 0 <= m <= i
      invariant forall k :: 0 <= k < m ==> a[k] == old(a[k])
      invariant a[m] == x
      invariant forall k :: m < k <= i ==> a[k] == old(a[k - 1])
      invariant forall k :: i < k < a.Length ==> a[k] == old(a[k])
      invariant forall k :: m <= k < i ==> Score(old(a[k])) < Score(x)
    {
      a[m - 1], a[m] := x, a[m - 1];
      m := m - 1;
    }
    j := m;
  }

  method InsertAt(a: array<PublicSchool>, i: nat)
    requires i < a.Length
    modifies a
    ensures a[..i + 1] == InsertByScore(old(a[i]), old(a[..i]))
    ensures a[i + 1..] == old(a[i + 1..])
  {
    ghost var x := a[i];
    ghost var p := a[..i];
    ghost var rest := a[i + 1..];
    ghost var j := MoveLeft(a, i);
    InsertLands(x, p, j);
    assert a[..i + 1] == p[..j] + [x] + p[j..];
    assert a[i + 1..] == rest;
  }

  /** The insertion sort of a bucket, in place. */
  method SortBucket(a: array<PublicSchool>)
    modifies a
    ensures a[..] == SortedByScore(old(a[..]))
  {
    ghost var input := a[..];
    var i := 0;
    while i < a.Length
      invariant 0 <= i <= a.Length
      invariant a[..i] == SortedByScore(input[..i])
      invariant forall k :: i <= k < a.Length ==> a[k] == input[k]
    {
      assert a[..i] == SortedByScore(input[..i]);
      InsertAt(a, i);
      assert input[..i + 1][..i] == input[..i];
      i := i + 1;
    }
    assert input[..a.Length] == input;
  }

  /** The sorted bucket, got through an array as the script sorts its bucket in place. */
  method SortedBucket(bucket: seq<PublicSchool>) returns (sorted: seq<PublicSchool>)
    ensures sorted == SortedByScore(bucket)
  {
    var a := new PublicSchool[|bucket|](i requires 0 <= i < |bucket| => bucket[i]);
    assert a[..] == bucket;
    SortBucket(a);
    sorted := a[..];
  }

  // ================================================================ top / rest

  function TopTenCount(n: nat): (k: nat)
    ensures k <= n && k <= TopCount
    ensures k == n || k == TopCount
  {
    if n <= TopCount then n else TopCount
  }

  /** `slice(0, 10)`: the first ten schools of the sorted bucket, or all of a
      smaller one. */
  function TopTen(sorted: seq<PublicSchool>): (top: seq<PublicSchool>)
    ensures |top| <= TopCount && |top| <= |sorted|
    ensures |sorted| <= TopCount ==> top == sorted
    ensures |sorted| >= TopCount ==> |top| == TopCount
    ensures forall i :: 0 <= i < |top| ==> top[i] == sorted[i]
  {
    sorted[..TopTenCount(|sorted|)]
  }

  /** `slice(10)`: what follows the top schools. */
  function Rest(sorted: seq<PublicSchool>): (rest: seq<PublicSchool>)
    ensures TopTen(sorted) + rest == sorted
  {
    sorted[TopTenCount(|sorted|)..]
  }

  /** `topTen` and `rest` split the sorted bucket; every top school scores at least
      as much as every other one. */
  lemma TopRestSplit(bucket: seq<PublicSchool>)
    ensures TopTen(SortedByScore(bucket)) + Rest(SortedByScore(bucket)) == SortedByScore(bucket)
    ensures |TopTen(SortedByScore(bucket))| == TopTenCount(|bucket|)
    ensures forall t, r :: t in TopTen(SortedByScore(bucket)) && r in Rest(SortedByScore(bucket)) ==> Score(t) >= Score(r)
  {
    var sorted := SortedByScore(bucket);
    SortedByScoreDescending(bucket);
    var k := TopTenCount(|sorted|);
    forall t, r | t in TopTen(sorted) && r in Rest(sorted) ensures Score(t) >= Score(r) {
      var i :| 0 <= i < k && sorted[i] == t;
      var j :| 0 <= j < |sorted[k..]| && sorted[k..][j] == r;
    }
  }

  // ================================================================ writes

  datatype FlagWrite = FlagWrite(id: string, value: bool)
  datatype UpdateError = UpdateError(school: string, action: string, error: string)

  /** The bookkeeping of the write loops and the in-memory copy of the flags. */
  datatype Books = Books(updated: nat, errors: seq<UpdateError>, issued: seq<FlagWrite>,
                         flags: map<string, bool>)

  function Action(target: bool): string {
    if target then "mark as top" else "mark as non-top"
  }

  /** The writes a loop over `list` with the given target issues, in list order:
      one per school whose flag differs. */
  function WritesFor(list: seq<PublicSchool>, target: bool): (ws: seq<FlagWrite>)
    ensures |ws| <= |list|
    ensures forall w :: w in ws ==> w.value == target
  {
    if list == [] then []
    else
      var s := list[|list| - 1];
      WritesFor(list[..|list| - 1], target) + (if s.isTopPublic != target then [FlagWrite(s.id, target)] else [])
  }

  lemma {:induction false} WritesForExactly(list: seq<PublicSchool>, target: bool)
    ensures forall w :: w in WritesFor(list, target) <==>
      exists s :: s in list && s.isTopPublic != target && w == FlagWrite(s.id, target)
  {
    if list != [] {
      WritesForExactly(list[..|list| - 1], target);
      assert list == list[..|list| - 1] + [list[|list| - 1]];
    }
  }

  lemma PrefixOfPrefix<T>(a: seq<T>, b: seq<T>, c: seq<T>)
    requires |a| <= |b| <= |c| && b[..|a|] == a && c[..|b|] == b
    ensures c[..|a|] == a
  {
    assert c[..|a|] == c[..|b|][..|a|];
  }

  /** What one iteration adds to the counters, the error list and the writes. */
  lemma MarkOneCounts(prev: Books, s: PublicSchool, target: bool, write: FlagWrite -> Option<string>)
    ensures var r := MarkOne(prev, s, target, write);
      var extra := if s.isTopPublic != target then [FlagWrite(s.id, target)] else [];
      && r.issued == prev.issued + extra
      && r.updated == prev.updated + Succeeded(extra, write)
      && |r.errors| == |prev.errors| + |extra| - Succeeded(extra, write)
      && r.errors[..|prev.errors|] == prev.errors
      && r.flags.Keys >= prev.flags.Keys
  {
    var r := MarkOne(prev, s, target, write);
    if s.isTopPublic != target {
      assert [FlagWrite(s.id, target)][..0] == [];
    }
    assert r.errors[..|prev.errors|] == prev.errors;
  }

  /** How many of the writes `ws` the store accepts (`write` answers no error). */
  function Succeeded(ws: seq<FlagWrite>, write: FlagWrite -> Option<string>): (n: nat)
    ensures n <= |ws|
  {
    if ws == [] then 0
    else Succeeded(ws[..|ws| - 1], write) + (if write(ws[|ws| - 1]).None? then 1 else 0)
  }

  lemma SucceededSnoc(ws: seq<FlagWrite>, extra: seq<FlagWrite>, write: FlagWrite -> Option<string>)
    requires |extra| <= 1
    ensures Succeeded(ws + extra, write) == Succeeded(ws, write) + Succeeded(extra, write)
  {
    if extra != [] {
      assert (ws + extra)[..|ws + extra| - 1] == ws;
    } else {
      assert ws + extra == ws;
    }
  }

  /** When the store accepts every write, all of them succeed. */
  lemma {:induction false} SucceededAll(ws: seq<FlagWrite>, write: FlagWrite -> Option<string>)
    requires AllSucceed(write)
    ensures Succeeded(ws, write) == |ws|
  {
    if ws != [] {
      SucceededAll(ws[..|ws| - 1], write);
    }
  }

  /** One iteration of a write loop. A school already at the target is left alone;
      otherwise the write is issued, and a success raises `updated` and sets the
      flag while a failure lists the school, the action and the message. */
  function MarkOne(prev: Books, s: PublicSchool, target: bool, write: FlagWrite -> Option<string>): (r: Books)
    ensures s.isTopPublic == target ==> r == prev
    ensures s.isTopPublic != target ==> r.issued == prev.issued + [FlagWrite(s.id, target)]
    ensures s.isTopPublic != target && write(FlagWrite(s.id, target)).None? ==>
      && r.updated == prev.updated + 1 && r.errors == prev.errors
      && r.flags == prev.flags[s.id := target]
    ensures s.isTopPublic != target && write(FlagWrite(s.id, target)).Some? ==>
      && r.updated == prev.updated && r.flags == prev.flags
      && r.errors == prev.errors + [UpdateError(s.name, Action(target), write(FlagWrite(s.id, target)).value)]
  {
    if s.isTopPublic == target then prev
    else
      var w := FlagWrite(s.id, target);
      match write(w)
      case Some(message) =>
        prev.(errors := prev.errors + [UpdateError(s.name, Action(target), message)], issued := prev.issued + [w])
      case None =>
        prev.(updated := prev.updated + 1, issued := prev.issued + [w], flags := prev.flags[s.id := target])
  }

  /** One write loop of the script (`for (const school of list)`), as a fold. */
  function Mark(b: Books, list: seq<PublicSchool>, target: bool, write: FlagWrite -> Option<string>): (r: Books)
    ensures r.issued == b.issued + WritesFor(list, target)
    ensures r.updated == b.updated + Succeeded(WritesFor(list, target), write)
    ensures r.updated + |r.errors| == b.updated + |b.errors| + |WritesFor(list, target)|
    ensures r.updated >= b.updated && |r.errors| >= |b.errors| && r.errors[..|b.errors|] == b.errors
    ensures forall id :: id in b.flags ==> id in r.flags
  {
    if list == [] then b
    else
      var s := list[|list| - 1];
      var prev := Mark(b, list[..|list| - 1], target, write);
      var extra := if s.isTopPublic != target then [FlagWrite(s.id, target)] else [];
      assert WritesFor(list, target) == WritesFor(list[..|list| - 1], target) + extra;
      SucceededSnoc(WritesFor(list[..|list| - 1], target), extra, write);
      MarkOneCounts(prev, s, target, write);
      var r := MarkOne(prev, s, target, write);
      PrefixOfPrefix(b.errors, prev.errors, r.errors);
      r
  }

  /** With every write accepted, a loop lists no error and `updated` counts every
      write it issued. */
  lemma MarkAllSucceed(b: Books, list: seq<PublicSchool>, target: bool, write: FlagWrite -> Option<string>)
    requires AllSucceed(write)
    ensures Mark(b, list, target, write).errors == b.errors
    ensures Mark(b, list, target, write).updated == b.updated + |WritesFor(list, target)|
  {
    SucceededAll(WritesFor(list, target), write);
    var r := Mark(b, list, target, write);
    assert r.errors == r.errors[..|b.errors|];
  }

  /** The body of `for (const school of list)`: a write only when the flag differs. */
  method MarkStep(r: Books, school: PublicSchool, target: bool, write: FlagWrite -> Option<string>)
    returns (r': Books)
    ensures r' == MarkOne(r, school, target, write)
  {
    r' := r;
    if school.isTopPublic != target {
      var w := FlagWrite(school.id, target);
      var error := write(w);
      if error.Some? {
        r' := r.(errors := r.errors + [UpdateError(school.name, Action(target), error.value)], issued := r.issued + [w]);
      } else {
        r' := r.(updated := r.updated + 1, issued := r.issued + [w], flags := r.flags[school.id := target]);
      }
    }
  }

  /** The loop `for (const school of list)`. */
  method MarkAll(b: Books, list: seq<PublicSchool>, target: bool, write: FlagWrite -> Option<string>)
    returns (r: Books)
    ensures r == Mark(b, list, target, write)
  {
    r := b;
    var n := 0;
    while n < |list|
      invariant 0 <= n <= |list|
      invariant r == Mark(b, list[..n], target, write)
    {
      MarkLast(b, list[..n + 1], target, write);
      assert list[..n + 1][..n] == list[..n];
      r := MarkStep(r, list[n], target, write);
      n := n + 1;
    }
    assert list[..|list|] == list;
  }

  /** Both loops for one province. */
  function Province(b: Books, bucket: seq<PublicSchool>, write: FlagWrite -> Option<string>): Books {
    var sorted := SortedByScore(bucket);
    Mark(Mark(b, TopTen(sorted), true, write), Rest(sorted), false, write)
  }

  /** The provinces in `order`, one after another. */
  function Run(b: Books, groups: map<nat, seq<PublicSchool>>, order: seq<nat>, write: FlagWrite -> Option<string>): (r: Books)
    requires forall p :: p in order ==> p in groups
    ensures r.updated + |r.errors| + |b.issued| == b.updated + |b.errors| + |r.issued|
  {
    if order == [] then b
    else
      var prev := Run(b, groups, order[..|order| - 1], write);
      Province(prev, groups[order[|order| - 1]], write)
  }

  /** With every write accepted, the run lists no error and `updated` counts every
      write it issued. */
  lemma {:induction false} RunAllSucceed(b: Books, groups: map<nat, seq<PublicSchool>>, order: seq<nat>,
                                         write: FlagWrite -> Option<string>)
    requires forall p :: p in order ==> p in groups
    requires AllSucceed(write)
    ensures Run(b, groups, order, write).errors == b.errors
    ensures Run(b, groups, order, write).updated + |b.issued| == b.updated + |Run(b, groups, order, write).issued|
  {
    if order != [] {
      var prev := Run(b, groups, order[..|order| - 1], write);
      RunAllSucceed(b, groups, order[..|order| - 1], write);
      var sorted := SortedByScore(groups[order[|order| - 1]]);
      MarkAllSucceed(prev, TopTen(sorted), true, write);
      MarkAllSucceed(Mark(prev, TopTen(sorted), true, write), Rest(sorted), false, write);
    }
  }

  function EmptyBooks(flags: map<string, bool>): Books {
    Books(0, [], [], flags)
  }

  /** One iteration of the province loop: sort, split, then the two write loops. */
  method UpdateProvince(b: Books, bucket: seq<PublicSchool>, write: FlagWrite -> Option<string>)
    returns (r: Books)
    ensures r == Province(b, bucket, write)
  {
    var sorted := SortedBucket(bucket);
    var topTenCount := TopTenCount(|sorted|);
    var topTen := sorted[..topTenCount];
    var rest := sorted[topTenCount..];
    r := MarkAll(b, topTen, true, write);
    r := MarkAll(r, rest, false, write);
  }

  lemma RunSnoc(b: Books, groups: map<nat, seq<PublicSchool>>, order: seq<nat>, n: nat,
                 write: FlagWrite -> Option<string>)
    requires n < |order| && forall p :: p in order ==> p in groups
    ensures Run(b, groups, order[..n + 1], write) == Province(Run(b, groups, order[..n], write), groups[order[n]], write)
  {
    assert order[..n + 1][..n] == order[..n];
  }

  /** The province loop. */
  method RunProvinces(b: Books, groups: map<nat, seq<PublicSchool>>, order: seq<nat>,
                      write: FlagWrite -> Option<string>)
    returns (r: Books)
    requires forall p :: p in order ==> p in groups
    ensures r == Run(b, groups, order, write)
  {
    r := b;
    var n := 0;
    while n < |order|
      invariant 0 <= n <= |order|
      invariant r == Run(b, groups, order[..n], write)
    {
      RunSnoc(b, groups, order, n, write);
      r := UpdateProvince(r, groups[order[n]], write);
      n := n + 1;
    }
    assert order[..|order|] == order;
  }

  /** `updateTopPublicSchools` from the fetched list on: `None` is a failed fetch
      (exit code 1). `flags` is the store's copy of every school's flag. */
  method UpdateTopPublicSchools(fetched: Option<seq<PublicSchool>>, write: FlagWrite -> Option<string>,
                                flags: map<string, bool>)
    returns (exitCode: int, books: Books)
    ensures fetched.None? ==> exitCode == 1 && books == EmptyBooks(flags)
    ensures fetched.Some? ==>
      && exitCode == 0
      && books == Run(EmptyBooks(flags), Groups(fetched.value), AscendingKeys(Groups(fetched.value).Keys), write)
      && books.updated + |books.errors| == |books.issued|
  {
    if fetched.None? {
      return 1, EmptyBooks(flags);
    }
    var groups := GroupByProvince(fetched.value);
    books := RunProvinces(EmptyBooks(flags), groups, AscendingKeys(groups.Keys), write);
    return 0, books;
  }

  // ================================================================ all writes succeed

  predicate DistinctIds(schools: seq<PublicSchool>) {
    forall i, j :: 0 <= i < j < |schools| ==> schools[i].id != schools[j].id
  }

  ghost predicate AllSucceed(write: FlagWrite -> Option<string>) {
    forall w :: write(w).None?
  }

  /** One iteration sets at most the flag of its own school, and only on success. */
  lemma MarkOneFlag(prev: Books, s: PublicSchool, target: bool, write: FlagWrite -> Option<string>, id: string)
    requires id in prev.flags
    ensures id in MarkOne(prev, s, target, write).flags
    ensures MarkOne(prev, s, target, write).flags[id] ==
      if id == s.id && s.isTopPublic != target && write(FlagWrite(s.id, target)).None? then target else prev.flags[id]
  {
  }

  lemma MarkLast(b: Books, list: seq<PublicSchool>, target: bool, write: FlagWrite -> Option<string>)
    requires list != []
    ensures Mark(b, list, target, write) == MarkOne(Mark(b, list[..|list| - 1], target, write), list[|list| - 1], target, write)
  {
  }

  /** A loop leaves the flag of every school it does not list as it was. */
  lemma {:induction false} MarkFrame(b: Books, list: seq<PublicSchool>, target: bool,
                                     write: FlagWrite -> Option<string>, id: string)
    requires id in b.flags && forall s :: s in list ==> s.id != id
    ensures id in Mark(b, list, target, write).flags && Mark(b, list, target, write).flags[id] == b.flags[id]
  {
    if list != [] {
      var init := list[..|list| - 1];
      MarkFrame(b, init, target, write, id);
      MarkLast(b, list, target, write);
      MarkOneFlag(Mark(b, init, target, write), list[|list| - 1], target, write, id);
    }
  }

  /** With every write succeeding, a loop leaves each listed school with the target
      flag, provided the store agreed with the fetched flags. */
  lemma {:induction false} MarkSetsTarget(b: Books, list: seq<PublicSchool>, target: bool,
                                          write: FlagWrite -> Option<string>, k: nat)
    requires AllSucceed(write) && DistinctIds(list) && k < |list|
    requires forall t :: t in list ==> t.id in b.flags && b.flags[t.id] == t.isTopPublic
    ensures list[k].id in Mark(b, list, target, write).flags
    ensures Mark(b, list, target, write).flags[list[k].id] == target
  {
    var init := list[..|list| - 1];
    var last := list[|list| - 1];
    var id := list[k].id;
    assert forall i :: 0 <= i < |init| ==> init[i] == list[i];
    assert DistinctIds(init);
    MarkLast(b, list, target, write);
    if k < |init| {
      MarkSetsTarget(b, init, target, write, k);
      MarkOneFlag(Mark(b, init, target, write), last, target, write, id);
    } else {
      assert forall t :: t in init ==> t.id != id;
      MarkFrame(b, init, target, write, id);
      MarkOneFlag(Mark(b, init, target, write), last, target, write, id);
    }
  }

  /** The schools whose flag is set in `flags`. */
  function Flagged(flags: map<string, bool>): PublicSchool -> bool {
    (s: PublicSchool) => s.id in flags && flags[s.id]
  }

  lemma SortedSameSchools(bucket: seq<PublicSchool>)
    ensures forall s :: s in SortedByScore(bucket) <==> s in bucket
  {
    SortedByScorePermutes(bucket);
    forall s ensures s in SortedByScore(bucket) <==> s in bucket {
      assert s in SortedByScore(bucket) <==> s in multiset(SortedByScore(bucket));
    }
  }

  lemma SortedDistinctIds(bucket: seq<PublicSchool>)
    requires DistinctIds(bucket)
    ensures DistinctIds(SortedByScore(bucket))
  {
    var sorted := SortedByScore(bucket);
    SortedByScorePermutes(bucket);
    assert Distinct(bucket);
    DistinctPermutation(bucket, sorted);
    forall i, j | 0 <= i < j < |sorted| ensures sorted[i].id != sorted[j].id {
      assert sorted[i] in multiset(bucket) && sorted[j] in multiset(bucket);
      var a :| 0 <= a < |bucket| && bucket[a] == sorted[i];
      var c :| 0 <= c < |bucket| && bucket[c] == sorted[j];
      assert a != c;
    }
  }

  lemma TopRestIds(sorted: seq<PublicSchool>)
    requires DistinctIds(sorted)
    ensures DistinctIds(TopTen(sorted)) && DistinctIds(Rest(sorted))
    ensures forall t, r :: t in TopTen(sorted) && r in Rest(sorted) ==> t.id != r.id
  {
    var k := TopTenCount(|sorted|);
    forall t, r | t in TopTen(sorted) && r in Rest(sorted) ensures t.id != r.id {
      var i :| 0 <= i < k && sorted[..k][i] == t;
      var j :| 0 <= j < |sorted[k..]| && sorted[k..][j] == r;
      assert sorted[i] == t && sorted[k + j] == r;
    }
  }

  /** With every write succeeding and a store that agreed with the fetch, a
      province ends with its top ten flagged and the rest unflagged. */
  lemma ProvinceFlags(b: Books, bucket: seq<PublicSchool>, write: FlagWrite -> Option<string>)
    requires AllSucceed(write) && DistinctIds(bucket)
    requires forall s :: s in bucket ==> s.id in b.flags && b.flags[s.id] == s.isTopPublic
    ensures forall s :: s in TopTen(SortedByScore(bucket)) ==> Flagged(Province(b, bucket, write).flags)(s)
    ensures forall s :: s in Rest(SortedByScore(bucket)) ==> !Flagged(Province(b, bucket, write).flags)(s)
  {
    var sorted := SortedByScore(bucket);
    var top := TopTen(sorted);
    var rest := Rest(sorted);
    assert forall s :: s in top ==> s in bucket by {
      SortedSameSchools(bucket);
    }
    assert forall s :: s in rest ==> s in bucket by {
      SortedSameSchools(bucket);
    }
    assert DistinctIds(top) && DistinctIds(rest) && forall t, r :: t in top && r in rest ==> t.id != r.id by {
      SortedDistinctIds(bucket);
      TopRestIds(sorted);
    }
    TopLoopFlags(b, top, rest, write);
    RestLoopFlags(b, top, rest, write);
  }

  /** The "mark as top" loop then the "mark as non-top" loop: the top schools end flagged. */
  lemma TopLoopFlags(b: Books, top: seq<PublicSchool>, rest: seq<PublicSchool>, write: FlagWrite -> Option<string>)
    requires AllSucceed(write) && DistinctIds(top)
    requires forall t, r :: t in top && r in rest ==> t.id != r.id
    requires forall s :: s in top ==> s.id in b.flags && b.flags[s.id] == s.isTopPublic
    ensures forall s :: s in top ==> Flagged(Mark(Mark(b, top, true, write), rest, false, write).flags)(s)
  {
    var mid := Mark(b, top, true, write);
    forall s | s in top ensures Flagged(Mark(mid, rest, false, write).flags)(s) {
      var k :| 0 <= k < |top| && top[k] == s;
      MarkSetsTarget(b, top, true, write, k);
      MarkFrame(mid, rest, false, write, s.id);
    }
  }

  /** ... and the other schools end unflagged. */
  lemma RestLoopFlags(b: Books, top: seq<PublicSchool>, rest: seq<PublicSchool>, write: FlagWrite -> Option<string>)
    requires AllSucceed(write) && DistinctIds(rest)
    requires forall t, r :: t in top && r in rest ==> t.id != r.id
    requires forall s :: s in rest ==> s.id in b.flags && b.flags[s.id] == s.isTopPublic
    ensures forall s :: s in rest ==> !Flagged(Mark(Mark(b, top, true, write), rest, false, write).flags)(s)
  {
    var mid := Mark(b, top, true, write);
    forall s | s in rest ensures s.id in mid.flags && mid.flags[s.id] == s.isTopPublic {
      MarkFrame(b, top, true, write, s.id);
    }
    forall s | s in rest ensures !Flagged(Mark(mid, rest, false, write).flags)(s) {
      var k :| 0 <= k < |rest| && rest[k] == s;
      MarkSetsTarget(mid, rest, false, write, k);
    }
  }

  /** A sorted bucket whose top ten are flagged and whose rest is not has exactly
      `min(10, n)` flagged schools. */
  lemma FlaggedCount(sorted: seq<PublicSchool>, flags: map<string, bool>)
    requires forall s :: s in TopTen(sorted) ==> Flagged(flags)(s)
    requires forall s :: s in Rest(sorted) ==> !Flagged(flags)(s)
    ensures |Filter(sorted, Flagged(flags))| == TopTenCount(|sorted|)
  {
    assert sorted == TopTen(sorted) + Rest(sorted);
    FilterConcat(TopTen(sorted), Rest(sorted), Flagged(flags));
    FilterAll(TopTen(sorted), Flagged(flags));
    FilterNone(Rest(sorted), Flagged(flags));
  }

  /** A province's loops leave the flag of every school outside it as it was. */
  lemma ProvinceFrame(b: Books, bucket: seq<PublicSchool>, write: FlagWrite -> Option<string>, id: string)
    requires id in b.flags && forall s :: s in bucket ==> s.id != id
    ensures id in Province(b, bucket, write).flags && Province(b, bucket, write).flags[id] == b.flags[id]
  {
    var sorted := SortedByScore(bucket);
    SortedSameSchools(bucket);
    MarkFrame(b, TopTen(sorted), true, write, id);
    MarkFrame(Mark(b, TopTen(sorted), true, write), Rest(sorted), false, write, id);
  }

  lemma {:induction false} FilterKeepsDistinctIds(xs: seq<PublicSchool>, f: PublicSchool -> bool)
    requires DistinctIds(xs)
    ensures DistinctIds(Filter(xs, f))
  {
    if xs != [] {
      assert DistinctIds(xs[1..]);
      FilterKeepsDistinctIds(xs[1..], f);
      if f(xs[0]) {
        var r := Filter(xs, f);
        forall j | 0 < j < |r| ensures r[0].id != r[j].id {
          assert r[j] in Filter(xs[1..], f);
          var k :| 0 <= k < |xs[1..]| && xs[1..][k] == r[j];
          assert xs[k + 1] == r[j];
        }
      }
    }
  }

  lemma SameIdSameSchool(schools: seq<PublicSchool>, s: PublicSchool, t: PublicSchool)
    requires DistinctIds(schools) && s in schools && t in schools && s.id == t.id
    ensures s == t
  {
    var i :| 0 <= i < |schools| && schools[i] == s;
    var j :| 0 <= j < |schools| && schools[j] == t;
    assert !(i < j) && !(j < i);
  }

  /** School `s` is among the ten best of its province. */
  predicate IsTop(schools: seq<PublicSchool>, s: PublicSchool) {
    s in TopTen(SortedByScore(Bucket(schools, s.provinceId)))
  }

  /** After visiting the provinces in `visited`, each of their schools is flagged
      exactly when it is among the ten best of its province, and every other
      school keeps its fetched flag. */
  predicate Progress(schools: seq<PublicSchool>, visited: seq<nat>, flags: map<string, bool>) {
    forall s :: s in schools ==>
      s.id in flags && flags[s.id] == (if s.provinceId in visited then IsTop(schools, s) else s.isTopPublic)
  }

  /** Visiting province `q` changes no flag outside its bucket. */
  lemma VisitFrame(schools: seq<PublicSchool>, write: FlagWrite -> Option<string>, prev: Books, q: nat,
                   s: PublicSchool)
    requires DistinctIds(schools) && q in Groups(schools)
    requires s in schools && s.provinceId != q && s.id in prev.flags
    ensures s.id in Province(prev, Groups(schools)[q], write).flags
    ensures Province(prev, Groups(schools)[q], write).flags[s.id] == prev.flags[s.id]
  {
    var bucket := Groups(schools)[q];
    forall t | t in bucket ensures t.id != s.id {
      if t.id == s.id {
        SameIdSameSchool(schools, s, t);
      }
    }
    ProvinceFrame(prev, bucket, write, s.id);
  }

  /** Visiting province `q` flags exactly its ten best. */
  lemma VisitSettles(schools: seq<PublicSchool>, write: FlagWrite -> Option<string>, prev: Books, q: nat,
                     s: PublicSchool)
    requires AllSucceed(write) && DistinctIds(schools) && q in Groups(schools)
    requires forall t :: t in Groups(schools)[q] ==> t.id in prev.flags && prev.flags[t.id] == t.isTopPublic
    requires s in schools && s.provinceId == q
    ensures s.id in Province(prev, Groups(schools)[q], write).flags
    ensures Province(prev, Groups(schools)[q], write).flags[s.id] == IsTop(schools, s)
  {
    FilterKeepsDistinctIds(schools, (t: PublicSchool) => t.provinceId == q);
    BucketSettles(prev, Groups(schools)[q], write, s);
  }

  lemma BucketSettles(prev: Books, bucket: seq<PublicSchool>, write: FlagWrite -> Option<string>, s: PublicSchool)
    requires AllSucceed(write) && DistinctIds(bucket) && s in bucket
    requires forall t :: t in bucket ==> t.id in prev.flags && prev.flags[t.id] == t.isTopPublic
    ensures s.id in Province(prev, bucket, write).flags
    ensures Province(prev, bucket, write).flags[s.id] == (s in TopTen(SortedByScore(bucket)))
  {
    var sorted := SortedByScore(bucket);
    ProvinceFlags(prev, bucket, write);
    SortedSameSchools(bucket);
    SortedDistinctIds(bucket);
    TopRestIds(sorted);
    assert sorted == TopTen(sorted) + Rest(sorted);
    assert s in TopTen(sorted) || s in Rest(sorted);
  }

  lemma RunFlagsStep(schools: seq<PublicSchool>, write: FlagWrite -> Option<string>, prev: Books,
                     visited: seq<nat>, q: nat)
    requires AllSucceed(write) && DistinctIds(schools)
    requires q in Groups(schools) && q !in visited
    requires Progress(schools, visited, prev.flags)
    ensures Progress(schools, visited + [q], Province(prev, Groups(schools)[q], write).flags)
  {
    var groups := Groups(schools);
    var after := Province(prev, groups[q], write).flags;
    forall s | s in schools
      ensures s.id in after && after[s.id] == (if s.provinceId in visited + [q] then IsTop(schools, s) else s.isTopPublic)
    {
      if s.provinceId == q {
        VisitSettles(schools, write, prev, q, s);
      } else {
        VisitFrame(schools, write, prev, q, s);
      }
    }
  }

  /** The province loop over distinct provinces, every write succeeding and the
      store agreeing with the fetch. */
  lemma {:induction false} RunFlags(schools: seq<PublicSchool>, flags: map<string, bool>,
                                    write: FlagWrite -> Option<string>, order: seq<nat>)
    requires AllSucceed(write) && DistinctIds(schools) && Distinct(order)
    requires forall s :: s in schools ==> s.id in flags && flags[s.id] == s.isTopPublic
    requires forall p :: p in order ==> p in Groups(schools)
    ensures Progress(schools, order, Run(EmptyBooks(flags), Groups(schools), order, write).flags)
  {
    if order != [] {
      var init := order[..|order| - 1];
      var q := order[|order| - 1];
      assert order == init + [q];
      assert Distinct(init);
      assert q !in init by {
        forall i | 0 <= i < |init| ensures init[i] != q {
          assert init[i] == order[i];
        }
      }
      RunFlags(schools, flags, write, init);
      RunFlagsStep(schools, write, Run(EmptyBooks(flags), Groups(schools), init, write), init, q);
    }
  }

  /** Every write succeeding and the store agreeing with the fetch, the run leaves
      each school flagged exactly when it is among the ten best of its province. */
  lemma AllWritesSucceed(schools: seq<PublicSchool>, flags: map<string, bool>, write: FlagWrite -> Option<string>)
    requires AllSucceed(write) && DistinctIds(schools)
    requires forall s :: s in schools ==> s.id in flags && flags[s.id] == s.isTopPublic
    ensures forall s :: s in schools ==>
      Flagged(Run(EmptyBooks(flags), Groups(schools), AscendingKeys(Groups(schools).Keys), write).flags)(s)
      == IsTop(schools, s)
  {
    var groups := Groups(schools);
    var order := AscendingKeys(groups.Keys);
    assert forall s :: s in schools ==> s.provinceId in order;
    RunFlags(schools, flags, write, order);
  }

  /** ... and so each province with exactly `min(10, n)` flagged schools. */
  lemma AllWritesSucceedCount(schools: seq<PublicSchool>, flags: map<string, bool>, write: FlagWrite -> Option<string>,
                              p: nat)
    requires AllSucceed(write) && DistinctIds(schools)
    requires forall s :: s in schools ==> s.id in flags && flags[s.id] == s.isTopPublic
    requires p in ProvinceIds(schools)
    ensures |Filter(SortedByScore(Bucket(schools, p)),
                    Flagged(Run(EmptyBooks(flags), Groups(schools), AscendingKeys(Groups(schools).Keys), write).flags))|
      == TopTenCount(|Bucket(schools, p)|)
  {
    var final := Run(EmptyBooks(flags), Groups(schools), AscendingKeys(Groups(schools).Keys), write).flags;
    var bucket := Bucket(schools, p);
    var sorted := SortedByScore(bucket);
    AllWritesSucceed(schools, flags, write);
    SortedSameSchools(bucket);
    FilterKeepsDistinctIds(schools, (t: PublicSchool) => t.provinceId == p);
    SortedDistinctIds(bucket);
    TopRestIds(sorted);
    assert forall s :: s in Rest(sorted) ==> s !in TopTen(sorted);
    FlaggedCount(sorted, final);
  }

  lemma {:induction false} FilterNone<T(!new)>(s: seq<T>, p: T -> bool)
    requires forall i :: 0 <= i < |s| ==> !p(s[i])
    ensures Filter(s, p) == []
  {
    if s != [] {
      FilterNone(s[1..], p);
    }
  }
}
