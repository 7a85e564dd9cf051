/**
 * The two Python string operations the example builder relies on:
 * substring membership (`pat in s`) and `str.replace`, which scans
 * left to right and replaces every non-overlapping occurrence.
 */
module Text {

  /** `pat in s`: `pat` occurs somewhere in `s`. */
  predicate Contains(s: string, pat: string)
    decreases |s|
  {
    pat <= s || (s != [] && Contains(s[1..], pat))
  }

  /** `s.replace(pat, rep)` for a non-empty `pat`. */
  function ReplaceAll(s: string, pat: string, rep: string): string
    requires pat != []
    decreases |s|
  {
    if s == [] then []
    else if pat <= s then rep + ReplaceAll(s[|pat|..], pat, rep)
    else [s[0]] + ReplaceAll(s[1..], pat, rep)
  }

  /** `s.count(pat)`: the number of occurrences `ReplaceAll` replaces. */
  function Count(s: string, pat: string): nat
    requires pat != []
    decreases |s|
  {
    if s == [] then 0
    else if pat <= s then 1 + Count(s[|pat|..], pat)
    else Count(s[1..], pat)
  }

  /** Text shorter than the pattern cannot contain it. */
  lemma {:induction false} ShorterThanPattern(s: string, pat: string)
    requires |s| < |pat|
    ensures !Contains(s, pat)
    decreases |s|
  {
    if s != [] {
      ShorterThanPattern(s[1..], pat);
    }
  }

  /** An occurrence at position `i` is an occurrence. */
  lemma {:induction false} ContainsAt(s: string, pat: string, i: nat)
    requires i <= |s| && pat <= s[i..]
    ensures Contains(s, pat)
    decreases i
  {
    if i > 0 {
      assert s[1..][i - 1..] == s[i..];
      ContainsAt(s[1..], pat, i - 1);
    }
  }

  /**
   * When the pattern's first character does not occur among the first `n`
   * characters and fewer than `|pat|` characters follow them, there is no
   * occurrence.
   */
  lemma {:induction false} NoOccurrence(s: string, pat: string, n: nat)
    requires pat != [] && n <= |s| && |s| - n < |pat|
    requires forall i | 0 <= i < n :: s[i] != pat[0]
    ensures !Contains(s, pat)
    decreases n
  {
    if n == 0 {
      ShorterThanPattern(s, pat);
    } else {
      assert s[0] != pat[0];
      NoOccurrence(s[1..], pat, n - 1);
    }
  }

  lemma {:induction false} CountZero(s: string, pat: string)
    requires pat != []
    ensures Count(s, pat) == 0 <==> !Contains(s, pat)
    decreases |s|
  {
    if s == [] {
      assert !(pat <= s);
    } else if pat <= s {
    } else {
      CountZero(s[1..], pat);
    }
  }

  /** Every replaced occurrence changes the length by `|rep| - |pat|`. */
  lemma {:induction false} ReplaceAllLength(s: string, pat: string, rep: string)
    requires pat != []
    ensures |ReplaceAll(s, pat, rep)| == |s| + Count(s, pat) * (|rep| - |pat|)
    decreases |s|
  {
    if s == [] {
    } else if pat <= s {
      ReplaceAllLength(s[|pat|..], pat, rep);
      calc {
        |ReplaceAll(s, pat, rep)|;
        |rep| + |ReplaceAll(s[|pat|..], pat, rep)|;
        |rep| + (|s| - |pat|) + Count(s[|pat|..], pat) * (|rep| - |pat|);
        |s| + (1 + Count(s[|pat|..], pat)) * (|rep| - |pat|);
      }
    } else {
      ReplaceAllLength(s[1..], pat, rep);
    }
  }

  /** When `s` starts with `pat` and `rep` differs from it, replacing changes `s`. */
  lemma LeadingMatchChanges(s: string, pat: string, rep: string)
    requires pat != [] && pat <= s && rep != pat
    ensures ReplaceAll(s, pat, rep) != s
  {
    if |rep| == |pat| {
      assert ReplaceAll(s, pat, rep)[..|pat|] == rep;
      assert s[..|pat|] == pat;
    } else {
      ReplaceAllLength(s, pat, rep);
      assert Count(s, pat) >= 1;
    }
  }

  /**
   * `s.replace(pat, rep)` leaves `s` as it was exactly when `pat` does not
   * occur in `s` or the replacement is the pattern itself.
   */
  lemma {:induction false} ReplaceAllUnchanged(s: string, pat: string, rep: string)
    requires pat != []
    ensures ReplaceAll(s, pat, rep) == s <==> (!Contains(s, pat) || rep == pat)
    decreases |s|
  {
    if s == [] {
      assert !(pat <= s);
    } else if pat <= s {
      var rest := s[|pat|..];
      ReplaceAllUnchanged(rest, pat, rep);
      if rep == pat {
        assert s == pat + rest;
      } else {
        LeadingMatchChanges(s, pat, rep);
      }
    } else {
      ReplaceAllUnchanged(s[1..], pat, rep);
      assert s == [s[0]] + s[1..];
    }
  }
}
