/** The e-mail shape test `/^[^\s@]+@[^\s@]+\.[^\s@]+$/` shared by the contact and
    newsletter routes: a non-empty local part, one `@`, and a domain that has a `.`
    with text on both sides, with no whitespace and no second `@` anywhere. */
module EmailFormat {
  import opened Common

  /** The class `[^\s@]`. */
  predicate Plain(c: char) {
    !IsSpace(c) && c != '@'
  }

  predicate AllPlain(t: string) {
    forall k :: 0 <= k < |t| ==> Plain(t[k])
  }

  /** The pattern read off the regular expression: `s[..at]` is the first run, `at`
      holds the `@`, `dot` the literal `.`, and the text after the `@` (both runs
      and the dot, which `[^\s@]` also admits) is all `[^\s@]`. */
  predicate MatchesAt(s: string, at: int, dot: int) {
    && 0 < at && at + 1 < dot && dot + 1 < |s|
    && s[at] == '@' && s[dot] == '.'
    && AllPlain(s[..at]) && AllPlain(s[at + 1..])
  }

  /** `emailRegex.test(s)`. */
  predicate MatchesEmailPattern(s: string) {
    exists at, dot | 0 < at < dot < |s| :: MatchesAt(s, at, dot)
  }

  /** The domain has a `.` with text on both sides. */
  predicate HasInnerDot(d: string) {
    exists k | 0 < k < |d| - 1 :: d[k] == '.'
  }

  /** The shape the routes promise, stated without the pattern. */
  predicate EmailShape(s: string) {
    var at := IndexOf(s, "@");
    && NoSpace(s)
    && multiset(s)['@'] == 1
    && at > 0
    && HasInnerDot(s[at + 1..])
  }

  lemma AllPlainNoAt(t: string)
    requires AllPlain(t)
    ensures multiset(t)['@'] == 0
  {
    assert '@' !in t;
  }

  lemma SplitAt(s: string, at: int)
    requires 0 <= at < |s|
    ensures s == s[..at] + [s[at]] + s[at + 1..]
    ensures multiset(s)['@'] == multiset(s[..at])['@'] + multiset([s[at]])['@'] + multiset(s[at + 1..])['@']
  {
    assert s == s[..at] + [s[at]] + s[at + 1..];
  }

  /** The first `@` is where `indexOf` finds it. */
  lemma FirstAt(s: string, at: int)
    requires 0 <= at < |s| && s[at] == '@'
    requires forall k :: 0 <= k < at ==> s[k] != '@'
    ensures IndexOf(s, "@") == at
  {
    assert IsOccurrence(s, "@", at) by {
      assert s[at..at + 1] == [s[at]];
    }
    forall k | 0 <= k < at ensures !IsOccurrence(s, "@", k) {
      assert s[k..k + 1] == [s[k]];
    }
  }

  lemma PatternGivesShape(s: string, at: int, dot: int)
    requires MatchesAt(s, at, dot)
    ensures IndexOf(s, "@") == at
    ensures EmailShape(s)
  {
    assert forall k :: 0 <= k < at ==> s[k] != '@' by {
      forall k | 0 <= k < at ensures s[k] != '@' {
        assert s[..at][k] == s[k];
      }
    }
    FirstAt(s, at);
    assert NoSpace(s) by {
      forall k | 0 <= k < |s| ensures !IsSpace(s[k]) {
        if k < at {
          assert s[..at][k] == s[k];
        } else if k > at {
          assert s[at + 1..][k - at - 1] == s[k];
        }
      }
    }
    SplitAt(s, at);
    AllPlainNoAt(s[..at]);
    AllPlainNoAt(s[at + 1..]);
    assert s[at + 1..][dot - at - 1] == '.';
  }

  lemma ShapeGivesPattern(s: string)
    requires EmailShape(s)
    ensures MatchesEmailPattern(s)
  {
    var at := IndexOf(s, "@");
    var d := s[at + 1..];
    var k :| 0 < k < |d| - 1 && d[k] == '.';
    assert s[at..at + 1] == "@";
    assert s[at] == '@';
    SplitAt(s, at);
    assert AllPlain(s[..at]) by {
      forall j | 0 <= j < at ensures Plain(s[..at][j]) {
        assert s[..at][j] == s[j];
      }
    }
    AllPlainNoAt(s[..at]);
    assert multiset(d)['@'] == 0;
    assert AllPlain(d) by {
      forall j | 0 <= j < |d| ensures Plain(d[j]) {
        assert d[j] == s[at + 1 + j];
        assert d[j] in multiset(d);
      }
    }
    assert MatchesAt(s, at, at + 1 + k);
  }

  /** The pattern accepts exactly the strings of the stated shape. */
  lemma PatternIffShape(s: string)
    ensures MatchesEmailPattern(s) <==> EmailShape(s)
  {
    if MatchesEmailPattern(s) {
      var at, dot :| 0 < at < dot < |s| && MatchesAt(s, at, dot);
      PatternGivesShape(s, at, dot);
    }
    if EmailShape(s) {
      ShapeGivesPattern(s);
    }
  }

  /** A school address passes. */
  lemma AcceptsSchoolAddress()
    ensures MatchesEmailPattern("ana@colegio.edu.do")
  {
    assert MatchesAt("ana@colegio.edu.do", 3, 11);
  }

  /** A domain without a dot fails. */
  lemma RejectsDotlessDomain()
    ensures !MatchesEmailPattern("ana@do")
  {
    forall at, dot | 0 < at < dot < |"ana@do"| ensures !MatchesAt("ana@do", at, dot) {
      if at != 3 {
        assert "ana@do"[at] != '@';
      }
    }
  }

  /** A dot right after the `@` does not count as the domain's dot. */
  lemma RejectsDotAfterAt()
    ensures !MatchesEmailPattern("ana@.do")
  {
    forall at, dot | 0 < at < dot < |"ana@.do"| ensures !MatchesAt("ana@.do", at, dot) {
      if at != 3 {
        assert "ana@.do"[at] != '@';
      } else if dot == 5 {
        assert "ana@.do"[dot] != '.';
      }
    }
  }

  /** A second `@` fails. */
  lemma RejectsTwoAts()
    ensures !MatchesEmailPattern("a@b@c.do")
  {
    PatternIffShape("a@b@c.do");
    assert multiset("a@b@c.do")['@'] == 2;
  }

  /** The text `String(v)` that `regex.test(v)` matches. A string is itself and an
      array is its elements joined by `,`; the model's arrays hold strings only
      (`Value.Arr`). Numbers, booleans, plain objects, `null` and `undefined` print
      without an `@` (`"1.5"`, `"true"`, `"[object Object]"`, `"null"`,
      `"undefined"`); the model gives them the empty text, which the pattern
      rejects just the same. */
  function TestedText(v: Value): (t: string)
    ensures v.Str? ==> t == v.s
    ensures v.Arr? ==> t == Join(v.items, ',')
    ensures !v.Str? && !v.Arr? ==> !MatchesEmailPattern(t)
  {
    match v
    case Str(s) => s
    case Arr(items) => Join(items, ',')
    case _ => ""
  }

  /** `regex.test(value)` on a request-body value. */
  predicate TestValue(v: Value) {
    MatchesEmailPattern(TestedText(v))
  }

  /** The test passes exactly for a string that matches and for an array of strings
      whose `,`-join matches. */
  lemma TestValueCases(v: Value)
    ensures TestValue(v) <==>
      || (v.Str? && MatchesEmailPattern(v.s))
      || (v.Arr? && MatchesEmailPattern(Join(v.items, ',')))
  {
  }

  /** A one-element array holding an address passes, as its text is the address. */
  lemma AcceptsArrayOfOneAddress()
    ensures TestValue(Arr(["ana@colegio.do"]))
  {
    assert MatchesAt("ana@colegio.do", 3, 11);
  }

  /** Two addresses in an array fail: their join has two `@`. */
  lemma RejectsArrayOfTwoAddresses()
    ensures !TestValue(Arr(["a@b.do", "c@d.do"]))
  {
    var s := "a@b.do,c@d.do";
    assert Join(["a@b.do", "c@d.do"], ',') == s by {
      assert ["a@b.do", "c@d.do"][1..] == ["c@d.do"];
    }
    forall at, dot | 0 < at < dot < |s| ensures !MatchesAt(s, at, dot) {
      if at == 1 {
        assert s[at + 1..][6] == '@';
      } else if at == 8 {
        assert s[..at][1] == '@';
      }
    }
  }
}
