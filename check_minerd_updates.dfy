/** The data-source monitor: a 32-bit rolling hash of each page's text, the
    keyword hits with their context, and the comparison of a fresh snapshot with
    the previous one. Fetching, HTML stripping, link scraping, the snapshot file
    and the clock are outside the model: every page arrives already reduced to its
    normalised text and its list of download links. */
module ChangeMonitor {
  import opened Common

  // ================================================================ simpleHash

  const TwoTo31: int := 0x8000_0000
  const TwoTo32: int := 0x1_0000_0000

  /** ECMAScript `ToInt32`: reduce modulo 2^32 into [-2^31, 2^31). */
  function Wrap32(x: int): (r: int)
    ensures -TwoTo31 <= r < TwoTo31
    ensures -TwoTo31 <= x < TwoTo31 ==> r == x
  {
    (x + TwoTo31) % TwoTo32 - TwoTo31
  }

  /** Wrapping forgets multiples of 2^32. */
  lemma Wrap32Shift(x: int, k: int)
    ensures Wrap32(x + k * TwoTo32) == Wrap32(x)
  {
    var a := x + TwoTo31;
    assert (a + k * TwoTo32) % TwoTo32 == a % TwoTo32;
  }

  lemma Wrap32Congruent(x: int)
    ensures exists k :: x == Wrap32(x) + k * TwoTo32
  {
    var a := x + TwoTo31;
    assert x == Wrap32(x) + (a / TwoTo32) * TwoTo32;
  }

  /** One step of the loop as written: `hash = ((hash << 5) - hash) + char; hash = hash & hash`.
      The shift works on the 32-bit value and wraps; the subtraction and addition
      are exact; `& hash` wraps again. */
  function HashStep(hash: int, c: char): (h: int)
    ensures -TwoTo31 <= h < TwoTo31
  {
    Wrap32(Wrap32(hash * 32) - hash + c as int)
  }

  /** The step is the recurrence `h * 31 + c` reduced to 32 bits. */
  lemma HashStepIsTimes31(hash: int, c: char)
    ensures HashStep(hash, c) == Wrap32(31 * hash + c as int)
  {
    Wrap32Congruent(hash * 32);
    var k :| hash * 32 == Wrap32(hash * 32) + k * TwoTo32;
    Wrap32Shift(Wrap32(hash * 32) - hash + c as int, k);
    assert Wrap32(hash * 32) - hash + c as int + k * TwoTo32 == 31 * hash + c as int;
  }

  /** The hash of a prefix, folding from 0. */
  function HashValue(s: string): (h: int)
    ensures -TwoTo31 <= h < TwoTo31
  {
    if s == [] then 0 else HashStep(HashValue(s[..|s| - 1]), s[|s| - 1])
  }

  /** The polynomial the recurrence computes, without wrapping. */
  function Polynomial(s: string): int {
    if s == [] then 0 else 31 * Polynomial(s[..|s| - 1]) + s[|s| - 1] as int
  }

  /** The 32-bit hash is the polynomial `sum c_i * 31^(n-1-i)` reduced to 32 bits. */
  lemma {:induction false} HashValueIsPolynomial(s: string)
    ensures HashValue(s) == Wrap32(Polynomial(s))
  {
    if s != [] {
      var init := s[..|s| - 1];
      var c := s[|s| - 1];
      HashValueIsPolynomial(init);
      HashStepIsTimes31(HashValue(init), c);
      Wrap32Congruent(Polynomial(init));
      var k :| Polynomial(init) == Wrap32(Polynomial(init)) + k * TwoTo32;
      Wrap32Shift(31 * HashValue(init) + c as int, 31 * k);
      assert 31 * HashValue(init) + c as int + (31 * k) * TwoTo32 == Polynomial(s);
    }
  }

  /** `hash.toString(16)`. */
  function HashHex(s: string): string {
    IntToBase(HashValue(s), 16)
  }

  /** `simpleHash`. */
  method SimpleHash(str: string) returns (hex: string)
    ensures hex == HashHex(str)
    ensures str == [] ==> hex == "0"
  {
    var hash := 0;
    var i := 0;
    while i < |str|
      invariant 0 <= i <= |str|
      invariant hash == HashValue(str[..i])
    {
      assert str[..i + 1][..i] == str[..i];
      var code := str[i] as int;
      var shifted := Wrap32(hash * 32);
      hash := shifted - hash + code;
      hash := Wrap32(hash);
      i := i + 1;
    }
    assert str[..|str|] == str;
    hex := IntToBase(hash, 16);
  }

  /** The hex text gives back the 32-bit value, so two texts get the same stored
      hash exactly when their 32-bit hashes agree. */
  lemma HashHexDecodes(s: string)
    ensures ParseIntBase(HashHex(s), 16) == HashValue(s)
  {
    ParseIntToBase(HashValue(s), 16);
  }

  lemma HashHexSame(s: string, t: string)
    ensures HashHex(s) == HashHex(t) <==> HashValue(s) == HashValue(t)
  {
    HashHexDecodes(s);
    HashHexDecodes(t);
  }

  // ================================================================ keywords

  const ContextRadius: nat := 100

  datatype KeywordMatch = KeywordMatch(keyword: string, context: string)

  function WindowStart(idx: nat): (start: nat)
    ensures start <= idx
  {
    if idx >= ContextRadius then idx - ContextRadius else 0
  }

  function WindowEnd(length: nat, idx: nat, kwLength: nat): (end: nat)
    requires idx + kwLength <= length
    ensures idx + kwLength <= end <= length
  {
    if idx + kwLength + ContextRadius <= length then idx + kwLength + ContextRadius else length
  }

  /** The match of one keyword: its first occurrence in the text (lowered), with
      up to 100 characters on each side, trimmed. */
  function MatchFor(text: string, keyword: string): Option<KeywordMatch> {
    var kw := Lower(keyword);
    var idx := IndexOf(text, kw);
    if idx == -1 then None
    else Some(KeywordMatch(keyword, Trim(text[WindowStart(idx)..WindowEnd(|text|, idx, |kw|)])))
  }

  /** A match is found exactly when the lowered keyword occurs. */
  lemma MatchForFound(text: string, keyword: string)
    ensures MatchFor(text, keyword).Some? <==> Contains(text, Lower(keyword))
    ensures MatchFor(text, keyword).Some? ==> MatchFor(text, keyword).value.keyword == keyword
  {
  }

  /** The window the context is cut from lies inside the text and holds the first
      occurrence of the keyword, with at most 100 characters on either side. */
  lemma WindowHoldsKeyword(text: string, kw: string)
    requires Contains(text, kw)
    ensures
      var idx := IndexOf(text, kw);
      var start := WindowStart(idx);
      var end := WindowEnd(|text|, idx, |kw|);
      && 0 <= start <= idx && idx + |kw| <= end <= |text|
      && idx - start <= ContextRadius && end - (idx + |kw|) <= ContextRadius
      && text[start..end][idx - start..idx - start + |kw|] == kw
  {
    var idx := IndexOf(text, kw);
    var start := WindowStart(idx);
    var end := WindowEnd(|text|, idx, |kw|);
    var window := text[start..end];
    forall j | 0 <= j < |kw| ensures window[idx - start..idx - start + |kw|][j] == kw[j] {
      assert window[idx - start + j] == text[idx + j] == text[idx..idx + |kw|][j];
    }
  }

  /** What one keyword adds to the list of matches. */
  function MatchList(text: string, keyword: string): seq<KeywordMatch> {
    match MatchFor(text, keyword) case Some(m) => [m] case None => []
  }

  /** The matches the keyword loop collects. */
  function Matches(text: string, keywords: seq<string>): seq<KeywordMatch> {
    if keywords == [] then []
    else Matches(text, keywords[..|keywords| - 1]) + MatchList(text, keywords[|keywords| - 1])
  }

  /** `matches.map(m => m.keyword)`. */
  function KeywordsOf(matches: seq<KeywordMatch>): (ks: seq<string>)
    ensures |ks| == |matches|
    ensures forall i :: 0 <= i < |matches| ==> ks[i] == matches[i].keyword
  {
    if matches == [] then [] else [matches[0].keyword] + KeywordsOf(matches[1..])
  }

  lemma KeywordsOfConcat(a: seq<KeywordMatch>, b: seq<KeywordMatch>)
    ensures KeywordsOf(a + b) == KeywordsOf(a) + KeywordsOf(b)
  {
  }

  function Occurs(text: string): string -> bool {
    (k: string) => Contains(text, Lower(k))
  }

  lemma FilterSingleton<T(!new)>(x: T, p: T -> bool)
    ensures Filter([x], p) == if p(x) then [x] else []
  {
    assert [x][1..] == [];
  }

  lemma MatchListKeyword(text: string, k: string)
    ensures KeywordsOf(MatchList(text, k)) == Filter([k], Occurs(text))
  {
    FilterSingleton(k, Occurs(text));
    MatchForFound(text, k);
    if Contains(text, Lower(k)) {
      assert KeywordsOf(MatchList(text, k)) == [k];
    } else {
      assert MatchList(text, k) == [];
    }
  }

  /** At most one match per keyword, in keyword order: the matched keywords are
      exactly the keywords that occur. */
  lemma {:induction false} MatchesPerKeyword(text: string, keywords: seq<string>)
    ensures KeywordsOf(Matches(text, keywords)) == Filter(keywords, Occurs(text))
  {
    if keywords != [] {
      var init := keywords[..|keywords| - 1];
      var k := keywords[|keywords| - 1];
      assert Filter(keywords, Occurs(text)) == Filter(init, Occurs(text)) + Filter([k], Occurs(text)) by {
        assert keywords == init + [k];
        FilterConcat(init, [k], Occurs(text));
      }
      assert KeywordsOf(Matches(text, keywords)) == KeywordsOf(Matches(text, init)) + KeywordsOf(MatchList(text, k)) by {
        assert Matches(text, keywords) == Matches(text, init) + MatchList(text, k);
        KeywordsOfConcat(Matches(text, init), MatchList(text, k));
      }
      MatchesPerKeyword(text, init);
      MatchListKeyword(text, k);
    }
  }

  /** The matches of one more keyword follow those of the keywords before it. */
  lemma MatchesSnoc(text: string, keywords: seq<string>, n: nat)
    requires n < |keywords|
    ensures Matches(text, keywords[..n + 1]) == Matches(text, keywords[..n]) + MatchList(text, keywords[n])
  {
    assert keywords[..n + 1][..n] == keywords[..n];
  }

  /** The body of the keyword loop: the first occurrence of the lowered keyword,
      with its trimmed context window. */
  method MatchOne(text: string, keyword: string) returns (m: seq<KeywordMatch>)
    ensures m == MatchList(text, keyword)
  {
    var kw := Lower(keyword);
    var idx := IndexOf(text, kw);
    if idx != -1 {
      var start := WindowStart(idx);
      var end := WindowEnd(|text|, idx, |kw|);
      m := [KeywordMatch(keyword, Trim(text[start..end]))];
    } else {
      m := [];
    }
  }

  /** The keyword loop of `extractRelevantContent`. */
  method FindMatches(text: string, keywords: seq<string>) returns (matches: seq<KeywordMatch>)
    ensures matches == Matches(text, keywords)
  {
    matches := [];
    var n := 0;
    while n < |keywords|
      invariant 0 <= n <= |keywords|
      invariant matches == Matches(text, keywords[..n])
    {
      MatchesSnoc(text, keywords, n);
      var m := MatchOne(text, keywords[n]);
      matches := matches + m;
      n := n + 1;
    }
    assert keywords[..|keywords|] == keywords;
  }

  // ================================================================ snapshots

  datatype Source = Source(name: string, url: string, keywords: seq<string>)

  const UrlsToCheck: seq<Source> := [
    Source("Datos.gob.do - MINERD Datasets",
           "https://datos.gob.do/organization/ministerio-de-educacion-minerd",
           ["pruebas nacionales", "centros educativos", "csv", "xlsx", "2025", "2026"]),
    Source("MINERD Transparencia - Datos Abiertos",
           "https://www.ministeriodeeducacion.gob.do/transparencia/datos-abiertos/listados",
           ["pruebas nacionales", "estadísticas", "centros educativos", "csv", "xlsx"]),
    Source("MINERD - Estadísticas Pruebas Nacionales",
           "https://www.minerd.gob.do/transparencia/conjunto-de-datos-abiertos/estadisticas-de-pruebas-nacionales/2024/listados",
           ["primera convocatoria", "segunda convocatoria", "csv", "xlsx", "descargar"]),
    Source("MINERD - Informes Estadísticos",
           "https://www.ministeriodeeducacion.gob.do/sobre-nosotros/areas-institucionales/direccion-de-evaluacion-de-la-calidad/informe-estadistico-pruebas-nacionales",
           ["2025", "2026", "nuevo", "actualizado", "descargar", "pdf"])
  ]

  predicate DistinctNames(sources: seq<Source>) {
    forall i, j :: 0 <= i < j < |sources| ==> sources[i].name != sources[j].name
  }

  lemma UrlsToCheckDistinct()
    ensures DistinctNames(UrlsToCheck)
  {
    assert UrlsToCheck[0].name[9] == '.' && UrlsToCheck[1].name[9] == 'a';
    assert UrlsToCheck[2].name[9] == 'E' && UrlsToCheck[3].name[9] == 'I';
  }

  /** A page as the monitor sees it: its normalised text and its download links. */
  datatype Page = Page(text: string, links: seq<string>)
  datatype Fetch = Fetched(page: Page) | FetchFailed(message: string)

  datatype Entry = Entry(hash: string, links: seq<string>, lastChecked: string)
  datatype Change = Change(source: string, url: string, newLinks: seq<string>, keywords: seq<string>)
  datatype Check = Check(snapshot: map<string, Entry>, changes: seq<Change>)

  /** `result.links.filter(l => !prev.links.includes(l))`. */
  function NewLinks(current: seq<string>, previous: seq<string>): (r: seq<string>)
    ensures forall l :: l in r <==> l in current && l !in previous
    ensures IsSubsequence(r, current)
  {
    Filter(current, (l: string) => l !in previous)
  }

  /** A source counts as changed when its page came back, it had an entry before,
      and the hashes differ. */
  predicate Changed(previous: map<string, Entry>, source: Source, fetched: Fetch) {
    fetched.Fetched? && source.name in previous && previous[source.name].hash != HashHex(fetched.page.text)
  }

  /** The entry the new snapshot holds for a source, if any. */
  function ExpectedEntry(previous: map<string, Entry>, source: Source, fetched: Fetch, now: string): Option<Entry> {
    match fetched
    case Fetched(page) => Some(Entry(HashHex(page.text), page.links, now))
    case FetchFailed(_) => if source.name in previous then Some(previous[source.name]) else None
  }

  /** One iteration of the source loop. */
  function CheckSource(previous: map<string, Entry>, acc: Check, source: Source, fetched: Fetch, now: string): Check {
    match fetched
    case Fetched(page) =>
      var hash := HashHex(page.text);
      var snapshot := acc.snapshot[source.name := Entry(hash, page.links, now)];
      if source.name !in previous then Check(snapshot, acc.changes)
      else if previous[source.name].hash != hash then
        var change := Change(source.name, source.url, NewLinks(page.links, previous[source.name].links),
                             KeywordsOf(Matches(page.text, source.keywords)));
        Check(snapshot, acc.changes + [change])
      else Check(snapshot, acc.changes)
    case FetchFailed(_) =>
      if source.name in previous then Check(acc.snapshot[source.name := previous[source.name]], acc.changes)
      else acc
  }

  /** The loop over the sources, from an empty snapshot and no changes. */
  function CheckAll(previous: map<string, Entry>, sources: seq<Source>, fetch: Source -> Fetch, now: string): Check {
    if sources == [] then Check(map[], [])
    else
      var last := sources[|sources| - 1];
      CheckSource(previous, CheckAll(previous, sources[..|sources| - 1], fetch, now), last, fetch(last), now)
  }

  function SourceNames(sources: seq<Source>): (names: seq<string>)
    ensures |names| == |sources|
    ensures forall i :: 0 <= i < |sources| ==> names[i] == sources[i].name
  {
    if sources == [] then [] else [sources[0].name] + SourceNames(sources[1..])
  }

  function ChangeSources(changes: seq<Change>): (names: seq<string>)
    ensures |names| == |changes|
    ensures forall i :: 0 <= i < |changes| ==> names[i] == changes[i].source
  {
    if changes == [] then [] else [changes[0].source] + ChangeSources(changes[1..])
  }

  lemma SourceNamesConcat(a: seq<Source>, b: seq<Source>)
    ensures SourceNames(a + b) == SourceNames(a) + SourceNames(b)
  {
  }

  lemma ChangeSourcesConcat(a: seq<Change>, b: seq<Change>)
    ensures ChangeSources(a + b) == ChangeSources(a) + ChangeSources(b)
  {
  }

  function ChangedUnder(previous: map<string, Entry>, fetch: Source -> Fetch): Source -> bool {
    (s: Source) => Changed(previous, s, fetch(s))
  }

  /** One iteration adds a change exactly for a changed source. */
  lemma CheckSourceChanges(previous: map<string, Entry>, acc: Check, source: Source, fetched: Fetch, now: string)
    ensures ChangeSources(CheckSource(previous, acc, source, fetched, now).changes)
      == ChangeSources(acc.changes) + (if Changed(previous, source, fetched) then [source.name] else [])
  {
    var after := CheckSource(previous, acc, source, fetched, now).changes;
    if Changed(previous, source, fetched) {
      ChangeSourcesConcat(acc.changes, [after[|after| - 1]]);
    } else {
      assert after == acc.changes;
    }
  }

  /** One change per changed source, in source order, and none for the others:
      a first check or an equal hash records nothing. */
  lemma {:induction false} ChangesAreChangedSources(previous: map<string, Entry>, sources: seq<Source>,
                                                    fetch: Source -> Fetch, now: string)
    ensures ChangeSources(CheckAll(previous, sources, fetch, now).changes)
      == SourceNames(Filter(sources, ChangedUnder(previous, fetch)))
  {
    if sources != [] {
      var init := sources[..|sources| - 1];
      var last := sources[|sources| - 1];
      var p := ChangedUnder(previous, fetch);
      var tail := if Changed(previous, last, fetch(last)) then [last.name] else [];
      assert SourceNames(Filter(sources, p)) == SourceNames(Filter(init, p)) + tail by {
        assert sources == init + [last];
        FilterConcat(init, [last], p);
        FilterSingleton(last, p);
        SourceNamesConcat(Filter(init, p), Filter([last], p));
      }
      assert ChangeSources(CheckAll(previous, sources, fetch, now).changes)
          == ChangeSources(CheckAll(previous, init, fetch, now).changes) + tail by {
        CheckSourceChanges(previous, CheckAll(previous, init, fetch, now), last, fetch(last), now);
      }
      ChangesAreChangedSources(previous, init, fetch, now);
    }
  }

  /** The change recorded for a changed source: the links that are new since the
      previous snapshot, and the keywords that occur on the page. */
  lemma ChangeContents(previous: map<string, Entry>, acc: Check, source: Source, page: Page, now: string)
    requires Changed(previous, source, Fetched(page))
    ensures CheckSource(previous, acc, source, Fetched(page), now).changes == acc.changes + [
      Change(source.name, source.url, NewLinks(page.links, previous[source.name].links),
             Filter(source.keywords, Occurs(page.text)))]
  {
    MatchesPerKeyword(page.text, source.keywords);
  }

  /** One iteration writes the expected entry of its source, if any, and leaves
      every other name alone. */
  lemma CheckSourceEntry(previous: map<string, Entry>, acc: Check, source: Source, fetched: Fetch, now: string)
    ensures
      var snapshot := CheckSource(previous, acc, source, fetched, now).snapshot;
      match ExpectedEntry(previous, source, fetched, now)
      case Some(e) => snapshot == acc.snapshot[source.name := e]
      case None => snapshot == acc.snapshot
  {
  }

  /** `snapshot` holds the expected entry of `source` under its name, or no entry
      when none is expected. */
  predicate HoldsExpected(previous: map<string, Entry>, snapshot: map<string, Entry>, source: Source,
                          fetched: Fetch, now: string) {
    var e := ExpectedEntry(previous, source, fetched, now);
    (source.name in snapshot <==> e.Some?) && (e.Some? ==> snapshot[source.name] == e.value)
  }

  /** The new snapshot holds, for each listed source, the fresh entry when the page
      came back and the previous entry when it did not. */
  lemma {:induction false} SnapshotEntries(previous: map<string, Entry>, sources: seq<Source>,
                                           fetch: Source -> Fetch, now: string)
    requires DistinctNames(sources)
    ensures forall i :: 0 <= i < |sources| ==>
      HoldsExpected(previous, CheckAll(previous, sources, fetch, now).snapshot, sources[i], fetch(sources[i]), now)
  {
    if sources != [] {
      var init := sources[..|sources| - 1];
      var last := sources[|sources| - 1];
      assert DistinctNames(init);
      SnapshotEntries(previous, init, fetch, now);
      var before := CheckAll(previous, init, fetch, now).snapshot;
      var after := CheckAll(previous, sources, fetch, now).snapshot;
      CheckSourceEntry(previous, CheckAll(previous, init, fetch, now), last, fetch(last), now);
      forall i | 0 <= i < |sources|
        ensures HoldsExpected(previous, after, sources[i], fetch(sources[i]), now)
      {
        if i < |init| {
          var name := sources[i].name;
          assert init[i] == sources[i] && name != last.name;
          assert HoldsExpected(previous, before, init[i], fetch(init[i]), now);
          assert name in after <==> name in before;
          assert name in after ==> after[name] == before[name];
        } else {
          assert sources[i] == last;
          assert last.name !in before by {
            SnapshotKeys(previous, init, fetch, now);
          }
        }
      }
    }
  }

  /** Sources that are no longer listed are dropped from the snapshot. */
  lemma {:induction false} SnapshotKeys(previous: map<string, Entry>, sources: seq<Source>,
                                        fetch: Source -> Fetch, now: string)
    ensures forall name :: name in CheckAll(previous, sources, fetch, now).snapshot ==> name in SourceNames(sources)
  {
    if sources != [] {
      var init := sources[..|sources| - 1];
      var last := sources[|sources| - 1];
      SnapshotKeys(previous, init, fetch, now);
      CheckSourceEntry(previous, CheckAll(previous, init, fetch, now), last, fetch(last), now);
      assert sources == init + [last];
      SourceNamesConcat(init, [last]);
    }
  }

  /** The process exit code: 78 when some change was recorded. */
  function ExitCode(changes: seq<Change>): (code: int)
    ensures code == 0 || code == 78
    ensures code == 78 <==> changes != []
  {
    if |changes| > 0 then 78 else 0
  }

  /** The body of the source loop: keyword matches, hash, new entry, and the
      comparison with the previous entry. */
  method CheckOne(previous: map<string, Entry>, acc: Check, source: Source, fetched: Fetch, now: string)
    returns (r: Check)
    ensures r == CheckSource(previous, acc, source, fetched, now)
  {
    var snapshot, changes := acc.snapshot, acc.changes;
    match fetched {
      case Fetched(page) =>
        var matches := FindMatches(page.text, source.keywords);
        var hash := SimpleHash(page.text);
        var entry := Entry(hash, page.links, now);
        snapshot := snapshot[source.name := entry];
        if source.name !in previous {
          // first check of this source: nothing to compare
        } else if previous[source.name].hash != hash {
          var prev := previous[source.name];
          var newLinks := NewLinks(page.links, prev.links);
          changes := changes + [Change(source.name, source.url, newLinks, KeywordsOf(matches))];
        }
      case FetchFailed(_) =>
        if source.name in previous {
          snapshot := snapshot[source.name := previous[source.name]];
        }
    }
    r := Check(snapshot, changes);
  }

  /** The source loop of `checkForUpdates`. */
  method CheckSources(previous: map<string, Entry>, sources: seq<Source>, fetch: Source -> Fetch, now: string)
    returns (snapshot: map<string, Entry>, changes: seq<Change>)
    ensures Check(snapshot, changes) == CheckAll(previous, sources, fetch, now)
  {
    snapshot := map[];
    changes := [];
    var n := 0;
    while n < |sources|
      invariant 0 <= n <= |sources|
      invariant Check(snapshot, changes) == CheckAll(previous, sources[..n], fetch, now)
    {
      assert sources[..n + 1][..n] == sources[..n];
      var source := sources[n];
      var after := CheckOne(previous, Check(snapshot, changes), source, fetch(source), now);
      snapshot, changes := after.snapshot, after.changes;
      n := n + 1;
    }
    assert sources[..|sources|] == sources;
  }

  /** `checkForUpdates`: `fetch` stands for fetching and reducing each page, `now`
      for the timestamp written into fresh entries. */
  method CheckForUpdates(previous: map<string, Entry>, fetch: Source -> Fetch, now: string)
    returns (snapshot: map<string, Entry>, changes: seq<Change>, exitCode: int)
    ensures Check(snapshot, changes) == CheckAll(previous, UrlsToCheck, fetch, now)
    ensures exitCode == 78 <==> changes != []
    ensures exitCode == 0 <==> changes == []
  {
    snapshot, changes := CheckSources(previous, UrlsToCheck, fetch, now);
    exitCode := ExitCode(changes);
  }

  /** With no previous snapshot every source is a first check: nothing changes. */
  lemma FirstRunNoChanges(sources: seq<Source>, fetch: Source -> Fetch, now: string)
    ensures CheckAll(map[], sources, fetch, now).changes == []
  {
    ChangesAreChangedSources(map[], sources, fetch, now);
    FilterNoneChanged(sources, fetch);
  }

  lemma {:induction false} FilterNoneChanged(sources: seq<Source>, fetch: Source -> Fetch)
    ensures Filter(sources, ChangedUnder(map[], fetch)) == []
  {
    if sources != [] {
      FilterNoneChanged(sources[1..], fetch);
    }
  }

  /** The run ends with 78 exactly when some listed source changed. */
  lemma ExitCodeIffChanged(previous: map<string, Entry>, sources: seq<Source>, fetch: Source -> Fetch, now: string)
    ensures ExitCode(CheckAll(previous, sources, fetch, now).changes) == 78
      <==> exists i :: 0 <= i < |sources| && Changed(previous, sources[i], fetch(sources[i]))
  {
    var p := ChangedUnder(previous, fetch);
    var changed := Filter(sources, p);
    ChangesAreChangedSources(previous, sources, fetch, now);
    assert |CheckAll(previous, sources, fetch, now).changes| == |changed|;
    if exists i :: 0 <= i < |sources| && Changed(previous, sources[i], fetch(sources[i])) {
      var i :| 0 <= i < |sources| && Changed(previous, sources[i], fetch(sources[i]));
      assert p(sources[i]);
      assert sources[i] in changed;
    }
  }
}
