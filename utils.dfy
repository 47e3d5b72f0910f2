/** The shared presentation helpers: tuition text, rating bands, the URL slugifier,
    the institutional-email heuristic and truncation. All are pure. */
module Utils {
  import opened Common

  // ================================================================ tuition

  /** A tuition bound: `null` or a number; zero and `null` are both falsy. */
  predicate Given(x: Option<int>) {
    x.Some? && x.value != 0
  }

  /** `formatTuition`; `show` stands for `toLocaleString`. */
  function FormatTuition(min: Option<int>, max: Option<int>, show: int -> string): (r: string)
    ensures !Given(min) && !Given(max) ==> r == "No reportado"
    ensures Given(min) && Given(max) ==> r == "RD$" + show(min.value) + " - RD$" + show(max.value)
    ensures Given(min) && !Given(max) ==> r == "Desde RD$" + show(min.value)
    ensures !Given(min) && Given(max) ==> r == "Hasta RD$" + show(max.value)
  {
    if !Given(min) && !Given(max) then "No reportado"
    else if min == Some(0) && max == Some(0) then "Gratuito"
    else if Given(min) && Given(max) then "RD$" + show(min.value) + " - RD$" + show(max.value)
    else if Given(min) then "Desde RD$" + show(min.value)
    else "Hasta RD$" + show(max.value)
  }

  /** The "Gratuito" branch can never be taken: zero bounds are falsy, so the first
      test already answers "No reportado". */
  lemma FreeTuitionUnreachable(min: Option<int>, max: Option<int>, show: int -> string)
    ensures FormatTuition(min, max, show) != "Gratuito"
    ensures FormatTuition(Some(0), Some(0), show) == "No reportado"
  {
    var r := FormatTuition(min, max, show);
    if Given(min) || Given(max) {
      assert r[0] == 'R' || r[0] == 'D' || r[0] == 'H';
      assert "Gratuito"[0] == 'G';
    }
  }

  /** `formatTuition` with the free-tuition test moved first, where it can answer:
      two zero bounds read "Gratuito", and only missing bounds read "No reportado". */
  function FormatTuitionIntended(min: Option<int>, max: Option<int>, show: int -> string): (r: string)
    ensures min == Some(0) && max == Some(0) ==> r == "Gratuito"
  {
    if min == Some(0) && max == Some(0) then "Gratuito"
    else if !Given(min) && !Given(max) then "No reportado"
    else if Given(min) && Given(max) then "RD$" + show(min.value) + " - RD$" + show(max.value)
    else if Given(min) then "Desde RD$" + show(min.value)
    else "Hasta RD$" + show(max.value)
  }

  /** The corrected order differs from the one written only on two zero bounds. */
  lemma IntendedDiffersOnlyOnFree(min: Option<int>, max: Option<int>, show: int -> string)
    ensures FormatTuitionIntended(min, max, show) != FormatTuition(min, max, show)
        <==> min == Some(0) && max == Some(0)
  {
    if min == Some(0) && max == Some(0) {
      FreeTuitionUnreachable(min, max, show);
    }
  }

  // ================================================================ ratings

  /** The band a rating falls in: 3 for 9 and above, 2 for [8, 9), 1 for [7, 8),
      0 below 7. */
  function RatingBand(rating: real): (b: nat)
    ensures b <= 3
  {
    if rating >= 9.0 then 3 else if rating >= 8.0 then 2 else if rating >= 7.0 then 1 else 0
  }

  lemma RatingBandMonotone(a: real, b: real)
    requires a <= b
    ensures RatingBand(a) <= RatingBand(b)
  {
  }

  const BandColors: seq<string> := ["#ef4444", "#f59e0b", "#3b82f6", "#10b981"]
  const BandLabels: seq<string> := ["En desarrollo", "Bueno", "Muy bueno", "Excelente"]

  /** `getRatingColor`. */
  function GetRatingColor(rating: real): (c: string)
    ensures c == BandColors[RatingBand(rating)]
  {
    if rating >= 9.0 then "#10b981"
    else if rating >= 8.0 then "#3b82f6"
    else if rating >= 7.0 then "#f59e0b"
    else "#ef4444"
  }

  /** `getRatingLabel`. */
  function GetRatingLabel(rating: real): (l: string)
    ensures l == BandLabels[RatingBand(rating)]
  {
    if rating >= 9.0 then "Excelente"
    else if rating >= 8.0 then "Muy bueno"
    else if rating >= 7.0 then "Bueno"
    else "En desarrollo"
  }

  /** Colour and label change at the same thresholds: two ratings get the same
      colour exactly when they get the same label. */
  lemma ColorAndLabelAgree(a: real, b: real)
    ensures GetRatingColor(a) == GetRatingColor(b) <==> GetRatingLabel(a) == GetRatingLabel(b)
    ensures GetRatingColor(a) == GetRatingColor(b) <==> RatingBand(a) == RatingBand(b)
  {
    assert forall i, j :: 0 <= i < 4 && 0 <= j < 4 && i != j ==> BandColors[i][1] != BandColors[j][1] || BandColors[i][2] != BandColors[j][2];
    assert forall i, j :: 0 <= i < 4 && 0 <= j < 4 && i != j ==> BandLabels[i][0] != BandLabels[j][0] || |BandLabels[i]| != |BandLabels[j]|;
  }

  // ================================================================ slugify

  /** Combining diacritical marks, U+0300 to U+036F. */
  predicate IsCombiningMark(c: char) {
    '\U{0300}' <= c <= '\U{036F}'
  }

  predicate IsSlugAlnum(c: char) {
    IsLowerAlpha(c) || IsDigit(c)
  }

  predicate NotCombining(c: char) {
    !IsCombiningMark(c)
  }

  predicate OutsideSlug(c: char) {
    !IsSlugAlnum(c)
  }

  /** `.replace(/(^-|-$)/g, '')`: one leading and one trailing hyphen go. */
  function DropEdgeHyphens(s: string): (r: string)
    ensures |r| <= |s|
  {
    var head := if s != [] && s[0] == '-' then s[1..] else s;
    if head != [] && head[|head| - 1] == '-' then head[..|head| - 1] else head
  }

  predicate IsUrlSlug(s: string) {
    && (forall i :: 0 <= i < |s| ==> IsSlugAlnum(s[i]) || s[i] == '-')
    && NoAdjacent(s, IsHyphen)
    && (s != [] ==> s[0] != '-' && s[|s| - 1] != '-')
  }

  lemma DropEdgeHyphensShape(s: string)
    requires forall i :: 0 <= i < |s| ==> IsSlugAlnum(s[i]) || s[i] == '-'
    requires NoAdjacent(s, IsHyphen)
    ensures IsUrlSlug(DropEdgeHyphens(s))
  {
    var head := if s != [] && s[0] == '-' then s[1..] else s;
    assert forall i :: 0 <= i < |head| - 1 ==> !(IsHyphen(head[i]) && IsHyphen(head[i + 1])) by {
      if s != [] && s[0] == '-' {
        forall i | 0 <= i < |head| - 1 ensures !(IsHyphen(head[i]) && IsHyphen(head[i + 1])) {
          assert head[i] == s[i + 1] && head[i + 1] == s[i + 2];
        }
      }
    }
    assert head != [] ==> head[0] != '-' by {
      if s != [] && s[0] == '-' && |s| >= 2 {
        assert !(IsHyphen(s[0]) && IsHyphen(s[1]));
      }
    }
    var r := DropEdgeHyphens(s);
    assert forall i :: 0 <= i < |r| ==> r[i] == head[i];
    if head != [] && head[|head| - 1] == '-' && |head| >= 2 {
      assert head[|head| - 2] != '-';
    }
  }

  /** `slugify`: lower-case, drop combining marks (what is left of accents after
      canonical decomposition), turn every run outside `[a-z0-9]` into `-`, then drop
      a leading and a trailing `-`. */
  function Slugify(text: string): (slug: string)
    ensures IsUrlSlug(slug)
  {
    var plain := Filter(Lower(text), NotCombining);
    var dashed := ReplaceRuns(plain, OutsideSlug, '-');
    ReplaceRunsSeparates(plain, OutsideSlug, '-', false);
    assert NoAdjacent(dashed, IsHyphen) by {
      forall i | 0 <= i < |dashed| - 1 ensures !(IsHyphen(dashed[i]) && IsHyphen(dashed[i + 1])) {
        assert !(!IsSlugAlnum(dashed[i]) && !IsSlugAlnum(dashed[i + 1]));
      }
    }
    DropEdgeHyphensShape(dashed);
    DropEdgeHyphens(dashed)
  }

  /** The URL slugs are exactly the fixpoints of `Slugify`. */
  lemma SlugifyFixpoint(s: string)
    requires IsUrlSlug(s)
    ensures Slugify(s) == s
  {
    assert Lower(s) == s by {
      assert forall i :: 0 <= i < |s| ==> Lower(s)[i] == s[i];
    }
    assert Filter(s, NotCombining) == s by {
      FilterAll(s, NotCombining);
    }
    assert ReplaceRuns(s, OutsideSlug, '-') == s by {
      ReplaceRunsIdentity(s, OutsideSlug, '-', false);
    }
    assert DropEdgeHyphens(s) == s;
  }

  lemma SlugifyIdempotent(text: string)
    ensures Slugify(Slugify(text)) == Slugify(text)
  {
    SlugifyFixpoint(Slugify(text));
  }

  // ================================================================ e-mail

  const PersonalDomains: seq<string> :=
    ["gmail.com", "hotmail.com", "yahoo.com", "outlook.com", "live.com", "icloud.com", "aol.com"]

  /** `email.split('@')[1]?.toLowerCase()`: absent when there is no `@`. */
  function EmailDomain(email: string): (d: Option<string>)
    ensures '@' !in email ==> d.None?
  {
    var parts := Split(email, '@');
    if '@' !in email then SplitNoSep(email, '@'); None
    else if |parts| >= 2 then Some(Lower(parts[1])) else None
  }

  /** The domain is the text between the first `@` and the next one (or the end). */
  lemma EmailDomainAfterFirstAt(email: string, i: nat)
    requires i < |email| && email[i] == '@' && '@' !in email[..i]
    ensures EmailDomain(email) == Some(Lower(Split(email[i + 1..], '@')[0]))
  {
    assert email == email[..i] + ['@'] + email[i + 1..];
    SplitSecond(email[..i], '@', email[i + 1..]);
  }

  /** `isInstitutionalEmail`. */
  function IsInstitutionalEmail(email: string): (ok: bool)
    ensures EmailDomain(email).None? || EmailDomain(email) == Some("") ==> !ok
    ensures EmailDomain(email).Some? && EmailDomain(email).value != "" ==>
      (ok <==> Contains(EmailDomain(email).value, ".edu.") || EmailDomain(email).value !in PersonalDomains)
  {
    match EmailDomain(email)
    case None => false
    case Some(domain) =>
      if domain == "" then false
      else if Contains(domain, ".edu.") then true
      else if EndsWith(domain, ".edu.do") then
        EndsWithContains(domain, ".edu.do", ".edu.", 0);
        true
      else domain !in PersonalDomains
  }

  /** No text after the first `@` means not institutional. */
  lemma NoDomainNotInstitutional(email: string, i: nat)
    requires i < |email| && email[i] == '@' && '@' !in email[..i]
    requires i + 1 == |email| || email[i + 1] == '@'
    ensures !IsInstitutionalEmail(email)
  {
    EmailDomainAfterFirstAt(email, i);
    var rest := email[i + 1..];
    SplitHead(rest, '@');
  }

  /** The `.edu.do` suffix test adds nothing: such a domain contains `.edu.`. */
  lemma EduDoSubsumed(domain: string)
    requires EndsWith(domain, ".edu.do")
    ensures Contains(domain, ".edu.")
  {
    EndsWithContains(domain, ".edu.do", ".edu.", 0);
  }

  // ================================================================ truncate

  /** The end index `slice(0, n)` uses: a negative `n` counts from the end. */
  function SliceEnd(length: nat, n: int): (e: nat)
    ensures e <= length
    ensures n >= 0 ==> e == if n <= length then n else length
    ensures n < 0 ==> e == if length + n >= 0 then length + n else 0
  {
    if n >= 0 then (if n <= length then n else length)
    else if length + n >= 0 then length + n else 0
  }

  /** `truncate`: the text itself when it fits, otherwise the trimmed first
      `maxLength` characters followed by `...`. */
  function Truncate(text: string, maxLength: int): (r: string)
    ensures |text| <= maxLength ==> r == text
    ensures |text| > maxLength ==>
      && EndsWith(r, "...")
      && |r| <= SliceEnd(|text|, maxLength) + 3
      && r[..|r| - 3] == Trim(text[..SliceEnd(|text|, maxLength)])
    ensures |text| > maxLength >= 0 ==> |r| <= maxLength + 3
  {
    if |text| <= maxLength then text
    else
      var cut := Trim(text[..SliceEnd(|text|, maxLength)]);
      assert (cut + "...")[..|cut|] == cut;
      cut + "..."
  }

  /** With a negative limit the result can be longer than `maxLength + 3`: the
      slice counts from the end of the text. */
  lemma TruncateNegativeLimit()
    ensures |Truncate("abcdefgh", -2)| == 9
  {
    assert "abcdefgh"[..6] == "abcdef";
    assert NoSpace("abcdef");
  }
}
