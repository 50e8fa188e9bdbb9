/** Python's `str.replace(pat, rep)` for a non-empty pattern: every
    occurrence, scanning left to right, without overlaps. */
module StrReplace {
  import opened Decimal

  function Replace(s: string, pat: string, rep: string): string
    requires |pat| > 0
    decreases |s|
  {
    if |s| == 0 then []
    else if pat <= s then rep + Replace(s[|pat|..], pat, rep)
    else [s[0]] + Replace(s[1..], pat, rep)
  }

  /** `pat` occurs somewhere in `s` (`pat in s`). */
  predicate Occurs(s: string, pat: string)
    decreases |s|
  {
    pat <= s || (|s| > 0 && Occurs(s[1..], pat))
  }

  /** `rep` keeps the first and the last letter of the digit-free word `pat`
      and puts a single digit between them, as in "eight" -> "e8t". */
  predicate Bracketing(pat: string, rep: string) {
    && |pat| >= 2 && NoDigits(pat)
    && |rep| == 3 && rep[0] == pat[0] && IsDigit(rep[1]) && rep[2] == pat[|pat| - 1]
  }

  /** `x` contains the first two letters of `pat` nowhere. */
  predicate AvoidsStartOf(x: string, pat: string)
    requires |pat| >= 2
  {
    forall j :: 0 <= j < |x| - 1 ==> !(x[j] == pat[0] && x[j + 1] == pat[1])
  }

  /** A text without the pattern comes back unchanged. */
  lemma {:induction false} ReplaceAbsent(s: string, pat: string, rep: string)
    requires |pat| > 0 && !Occurs(s, pat)
    ensures Replace(s, pat, rep) == s
    decreases |s|
  {
    if |s| > 0 {
      ReplaceAbsent(s[1..], pat, rep);
      assert [s[0]] + s[1..] == s;
    }
  }

  /** A digit-free prefix of the replaced text was already a prefix of the
      original: bracketing replacement keeps the first letter in place and
      puts a digit right after it. */
  lemma {:induction false} DigitFreePrefixKept(x: string, y: string, pat: string, rep: string)
    requires Bracketing(pat, rep) && NoDigits(x)
    requires x <= Replace(y, pat, rep)
    ensures x <= y
    decreases |y|
  {
    if |y| == 0 || |x| == 0 {
    } else if pat <= y {
      assert IsDigit(Replace(y, pat, rep)[1]);
    } else {
      var r := Replace(y[1..], pat, rep);
      assert x[1..] <= r;
      DigitFreePrefixKept(x[1..], y[1..], pat, rep);
      assert x == [x[0]] + x[1..];
    }
  }

  /** Conversely, a prefix of the original survives the replacement as long
      as it never contains the first two letters of the pattern. */
  lemma {:induction false} AvoidingPrefixKept(x: string, y: string, pat: string, rep: string)
    requires |pat| >= 2 && |rep| > 0 && rep[0] == pat[0]
    requires x <= y && AvoidsStartOf(x, pat)
    ensures x <= Replace(y, pat, rep)
    decreases |y|
  {
    if |y| == 0 || |x| == 0 {
    } else if pat <= y {
      if |x| >= 2 {
        assert false;
      }
    } else {
      AvoidingPrefixKept(x[1..], y[1..], pat, rep);
      assert x == [x[0]] + x[1..];
    }
  }

  /** A digit-free word at the front of `rep + r` is the first letter of
      the match, which `s` starts with. */
  lemma OccurrenceAtMatch(s: string, u: string, pat: string, rep: string, r: string)
    requires Bracketing(pat, rep) && NoDigits(u) && |u| > 0 && pat <= s
    requires u <= rep + r
    ensures Occurs(s, u)
  {
    var t := rep + r;
    assert t[1] == rep[1];
    assert u == [s[0]];
  }

  /** No digit-free word starts at the digit of `rep + r`. */
  lemma NotAtDigit(u: string, pat: string, rep: string, r: string)
    requires Bracketing(pat, rep) && NoDigits(u) && |u| > 0
    ensures !(u <= (rep + r)[1..])
  {
    assert (rep + r)[1..][0] == rep[1];
  }

  /** An occurrence starting inside the replacement text `rep` of a match at
      the front of `s` was already in `s`: it can only start at the copied
      first or last letter of the match. */
  lemma OccurrenceInReplacement(s: string, u: string, pat: string, rep: string)
    requires Bracketing(pat, rep) && NoDigits(u) && |u| > 0 && pat <= s
    requires var t := Replace(s, pat, rep); u <= t || u <= t[1..] || u <= t[2..]
    ensures Occurs(s, u)
  {
    var t := Replace(s, pat, rep);
    var rest := s[|pat|..];
    var r := Replace(rest, pat, rep);
    assert t == rep + r;
    NotAtDigit(u, pat, rep, r);
    if u <= t {
      OccurrenceAtMatch(s, u, pat, rep, r);
    } else {
      assert t[2..] == [pat[|pat| - 1]] + r;
      DigitFreePrefixKept(u[1..], rest, pat, rep);
      assert s[|pat| - 1..] == [pat[|pat| - 1]] + rest;
      assert u <= s[|pat| - 1..];
      OccursInSuffix(s, u, |pat| - 1);
    }
  }

  /** Bracketing replacement creates no occurrence of a digit-free word. */
  lemma {:induction false} NoNewOccurrence(s: string, u: string, pat: string, rep: string)
    requires Bracketing(pat, rep) && NoDigits(u)
    requires Occurs(Replace(s, pat, rep), u)
    ensures Occurs(s, u)
    decreases |s|
  {
    var t := Replace(s, pat, rep);
    if |u| == 0 || |s| == 0 {
      assert u <= s;
    } else if pat <= s {
      if u <= t || u <= t[1..] || u <= t[2..] {
        OccurrenceInReplacement(s, u, pat, rep);
      } else {
        var rest := s[|pat|..];
        var r := Replace(rest, pat, rep);
        assert t[3..] == r;
        OccursFromSuffix(t, u, 3);
        NoNewOccurrence(rest, u, pat, rep);
        OccursInSuffixOccurs(s, u, |pat|);
      }
    } else {
      var r := Replace(s[1..], pat, rep);
      assert t == [s[0]] + r;
      if u <= t {
        DigitFreePrefixKept(u[1..], s[1..], pat, rep);
        assert u == [u[0]] + u[1..];
      } else {
        assert t[1..] == r;
        NoNewOccurrence(s[1..], u, pat, rep);
      }
    }
  }

  /** When the first and last letters of `pat` differ, no occurrence of it
      survives the replacement: `str.replace` removes them all. */
  lemma {:induction false} AllReplaced(s: string, pat: string, rep: string)
    requires Bracketing(pat, rep) && pat[0] != pat[|pat| - 1]
    ensures !Occurs(Replace(s, pat, rep), pat)
    decreases |s|
  {
    var t := Replace(s, pat, rep);
    if |s| == 0 {
    } else if pat <= s {
      var rest := s[|pat|..];
      var r := Replace(rest, pat, rep);
      AllReplaced(rest, pat, rep);
      var t2 := [pat[|pat| - 1]] + r;
      assert t[1..][1..] == t2 && t2[1..] == r;
      assert !(pat <= t2);
      assert !Occurs(t2, pat);
      assert !(pat <= t[1..]);
      assert !(pat <= t);
    } else {
      var r := Replace(s[1..], pat, rep);
      AllReplaced(s[1..], pat, rep);
      assert t[1..] == r;
      if pat[1..] <= r {
        DigitFreePrefixKept(pat[1..], s[1..], pat, rep);
      }
      assert pat == [pat[0]] + pat[1..];
    }
  }

  lemma {:induction false} OccursInSuffix(s: string, u: string, k: nat)
    requires k <= |s| && u <= s[k..]
    ensures Occurs(s, u)
    decreases k
  {
    if k > 0 {
      assert s[1..][k - 1..] == s[k..];
      OccursInSuffix(s[1..], u, k - 1);
    }
  }

  lemma {:induction false} OccursInSuffixOccurs(s: string, u: string, k: nat)
    requires k <= |s| && Occurs(s[k..], u)
    ensures Occurs(s, u)
    decreases k
  {
    if k > 0 {
      assert s[1..][k - 1..] == s[k..];
      OccursInSuffixOccurs(s[1..], u, k - 1);
    }
  }

  lemma {:induction false} OccursFromSuffix(s: string, u: string, k: nat)
    requires k <= |s| && Occurs(s, u)
    requires forall i :: 0 <= i < k ==> !(u <= s[i..])
    ensures Occurs(s[k..], u)
    decreases k
  {
    if k > 0 {
      assert s[0..] == s;
      assert Occurs(s[1..], u);
      assert s[1..][k - 1..] == s[k..];
      forall i | 0 <= i < k - 1
        ensures !(u <= s[1..][i..])
      {
        assert s[1..][i..] == s[i + 1..];
      }
      OccursFromSuffix(s[1..], u, k - 1);
    }
  }
}
