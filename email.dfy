/** The email format check `/^[^\s@]+@[^\s@]+\.[^\s@]+$/` used by registration and login,
    on both the server and the browser. */
module Email {
  import opened Strings

  /** A character `[^\s@]` accepts. */
  predicate PlainChar(c: char) {
    !IsWhitespace(c) && c != '@'
  }

  predicate AllPlain(s: string) {
    forall k :: 0 <= k < |s| ==> PlainChar(s[k])
  }

  /** The language of the regular expression: a non-empty run of plain characters, '@',
      a non-empty run, '.', and a non-empty run, with nothing before or after. */
  ghost predicate MatchesEmailPattern(s: string) {
    exists i, j :: 0 < i && i + 1 < j && j + 1 < |s| && s[i] == '@' && s[j] == '.'
      && AllPlain(s[..i]) && AllPlain(s[i + 1..j]) && AllPlain(s[j + 1..])
  }

  predicate NoWhitespace(s: string) {
    forall k :: 0 <= k < |s| ==> !IsWhitespace(s[k])
  }

  /** `d` has a '.' that is neither its first nor its last character. */
  predicate HasInnerDot(d: string) {
    exists j :: 0 < j < |d| - 1 && d[j] == '.'
  }

  /** The check computed directly: no whitespace, exactly one '@', something before it,
      and an inner '.' after it. */
  predicate IsValidEmail(s: string) {
    var parts := Split(s, '@');
    NoWhitespace(s) && |parts| == 2 && parts[0] != "" && HasInnerDot(parts[1])
  }

  /** The direct check accepts exactly the strings the regular expression matches. */
  lemma EmailCheckMatchesPattern(s: string)
    ensures IsValidEmail(s) <==> MatchesEmailPattern(s)
  {
    if IsValidEmail(s) {
      ValidEmailMatches(s);
    }
    if MatchesEmailPattern(s) {
      var i, j :| 0 < i && i + 1 < j && j + 1 < |s| && s[i] == '@' && s[j] == '.'
        && AllPlain(s[..i]) && AllPlain(s[i + 1..j]) && AllPlain(s[j + 1..]);
      PatternIsValid(s, i, j);
    }
  }

  lemma ValidEmailMatches(s: string)
    requires IsValidEmail(s)
    ensures MatchesEmailPattern(s)
  {
    var parts := Split(s, '@');
    SplitJoin(s, '@');
    var a, d := parts[0], parts[1];
    assert parts[1..] == [d];
    assert s == a + ['@'] + d;
    var j' :| 0 < j' < |d| - 1 && d[j'] == '.';
    var i := |a|;
    var j := i + 1 + j';
    assert s[..i] == a;
    assert s[i + 1..j] == d[..j'];
    assert s[j + 1..] == d[j' + 1..];
    forall k | 0 <= k < |s|
      ensures PlainChar(s[k]) || k == i
    {
      if k < i {
        assert s[k] == a[k];
        assert s[k] in a;
      } else if k > i {
        assert s[k] == d[k - i - 1];
        assert s[k] in d;
      }
    }
    assert AllPlain(s[..i]);
    assert AllPlain(s[i + 1..j]);
    assert AllPlain(s[j + 1..]);
    assert s[i] == '@' && s[j] == '.';
  }

  lemma PatternIsValid(s: string, i: int, j: int)
    requires 0 < i && i + 1 < j && j + 1 < |s| && s[i] == '@' && s[j] == '.'
    requires AllPlain(s[..i]) && AllPlain(s[i + 1..j]) && AllPlain(s[j + 1..])
    ensures IsValidEmail(s)
  {
    var a, rest := s[..i], s[i + 1..];
    assert s == a + ['@'] + rest;
    forall k | 0 <= k < |s|
      ensures !IsWhitespace(s[k]) && (k != i ==> s[k] != '@')
    {
      if k < i {
        assert s[k] == s[..i][k];
      } else if i < k < j {
        assert s[k] == s[i + 1..j][k - i - 1];
      } else if k > j {
        assert s[k] == s[j + 1..][k - j - 1];
      }
    }
    assert '@' !in a by {
      forall k | 0 <= k < |a| ensures a[k] != '@' { assert a[k] == s[k]; }
    }
    assert '@' !in rest by {
      forall k | 0 <= k < |rest| ensures rest[k] != '@' { assert rest[k] == s[k + i + 1]; }
    }
    SplitAfterSeparator(a, '@', rest);
    SplitWithoutSeparator(rest, '@');
    assert Split(s, '@') == [a, rest];
    assert rest[j - i - 1] == '.';
    assert HasInnerDot(rest);
  }
}
