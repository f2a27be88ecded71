/** Python's string operations as the script uses them: `str.replace` (which
    pandas' `.str.replace` applies to every cell of a column), `pat in s`, and
    the facts about a replacement that the column cleanups rely on. */
module PyStrings {
  import opened Sequences

  /** `s.startswith(pat)`. */
  predicate StartsWith(s: string, pat: string) {
    |pat| <= |s| && s[..|pat|] == pat
  }

  /** `pat in s`: the pattern occurs somewhere in `s`. */
  predicate Occurs(s: string, pat: string)
    decreases |s|
  {
    StartsWith(s, pat) || (|s| > 0 && Occurs(s[1..], pat))
  }

  /** `s.replace(pat, rep)`: every non-overlapping occurrence of `pat`, found
      scanning from the left, is replaced by `rep`, in a single pass over
      `s` (text produced by a replacement is never scanned again). */
  function Replace(s: string, pat: string, rep: string): string
    decreases |s|
  {
    if |pat| == 0 then Interleave(s, rep)
    else if s == [] then []
    else if StartsWith(s, pat) then rep + Replace(s[|pat|..], pat, rep)
    else [s[0]] + Replace(s[1..], pat, rep)
  }

  /** `s.replace("", rep)`: Python inserts `rep` before every character and
      once more at the end. */
  function Interleave(s: string, rep: string): (r: string)
    ensures |r| == |s| + (|s| + 1) * |rep|
  {
    if s == [] then rep else rep + [s[0]] + Interleave(s[1..], rep)
  }

  /** The proper suffix of `pat` that starts at `k` is also a prefix of it. */
  predicate Overlaps(pat: string, k: nat) {
    0 < k < |pat| && pat[k..] == pat[..|pat| - k]
  }

  /** No proper suffix of `pat` is also a prefix of it, so two occurrences of
      `pat` can never overlap. */
  predicate BorderFree(pat: string) {
    forall k: nat | k < |pat| :: !Overlaps(pat, k)
  }

  /** A string in which the pattern does not occur comes back unchanged. */
  lemma {:induction false} ReplaceAbsent(s: string, pat: string, rep: string)
    requires |pat| > 0 && !Occurs(s, pat)
    ensures Replace(s, pat, rep) == s
    decreases |s|
  {
    if s != [] {
      ReplaceAbsent(s[1..], pat, rep);
    }
  }

  /** Deleting a border-free pattern from `s + pat`, where `s` does not hold
      the pattern, strips exactly the trailing occurrence: this is how a unit
      suffix such as "BUSD" is cut off a value. */
  lemma {:induction false} DeleteSuffix(s: string, pat: string)
    requires |pat| > 0 && BorderFree(pat) && !Occurs(s, pat)
    ensures Replace(s + pat, pat, "") == s
    decreases |s|
  {
    var t := s + pat;
    if s == [] {
      assert t == pat && StartsWith(t, pat);
      assert t[|pat|..] == [];
    } else if StartsWith(t, pat) {
      if |s| >= |pat| {
        assert false;
      } else {
        var k := |s|;
        assert pat[k..] == t[k..|pat|] == pat[..|pat| - k];
        assert Overlaps(pat, k);
        assert false;
      }
    } else {
      assert t[1..] == s[1..] + pat;
      DeleteSuffix(s[1..], pat);
    }
  }

  /** Deleting one character (`s.replace(c, "")`) leaves no occurrence of it,
      shortens the string by its number of occurrences and keeps every other
      character as often as before. */
  lemma {:induction false} DeleteChar(s: string, c: char)
    ensures c !in Replace(s, [c], "")
    ensures |Replace(s, [c], "")| == |s| - multiset(s)[c]
    ensures multiset(Replace(s, [c], "")) == multiset(s)[c := 0]
    decreases |s|
  {
    if s != [] {
      DeleteChar(s[1..], c);
      assert s == [s[0]] + s[1..];
      var r := Replace(s[1..], [c], "");
      if s[0] == c {
        assert StartsWith(s, [c]);
        assert Replace(s, [c], "") == r;
      } else {
        assert s[..1] == [s[0]];
        assert Replace(s, [c], "") == [s[0]] + r;
      }
    }
  }

  /** Deleting one character keeps the other characters in their order. */
  lemma {:induction false} DeleteCharKeepsOrder(s: string, c: char)
    ensures IsSubsequence(Replace(s, [c], ""), s)
    decreases |s|
  {
    if s != [] {
      DeleteCharKeepsOrder(s[1..], c);
      var r := Replace(s[1..], [c], "");
      if s[0] == c {
        assert StartsWith(s, [c]);
        assert Replace(s, [c], "") == r;
        SubsequenceSkip(r, s);
      } else {
        assert s[..1] == [s[0]];
        assert Replace(s, [c], "") == [s[0]] + r;
        assert ([s[0]] + r)[1..] == r;
      }
    }
  }

  /** Substituting one character for another (`s.replace(c, d)`) keeps the
      length and changes exactly the positions that held `c`. */
  lemma {:induction false} SubstituteChar(s: string, c: char, d: char)
    ensures |Replace(s, [c], [d])| == |s|
    ensures forall i :: 0 <= i < |s| ==> Replace(s, [c], [d])[i] == if s[i] == c then d else s[i]
    decreases |s|
  {
    if s != [] {
      SubstituteChar(s[1..], c, d);
      var r := Replace(s[1..], [c], [d]);
      var head := if s[0] == c then d else s[0];
      if s[0] == c {
        assert StartsWith(s, [c]);
      } else {
        assert !StartsWith(s, [c]);
      }
      assert Replace(s, [c], [d]) == [head] + r;
      forall i | 0 <= i < |s|
        ensures Replace(s, [c], [d])[i] == if s[i] == c then d else s[i]
      {
        if i > 0 {
          assert ([head] + r)[i] == r[i - 1] && s[i] == s[1..][i - 1];
        }
      }
    }
  }

  /** After `s.replace(c, d)` with `c != d` no `c` is left. */
  lemma SubstituteRemoves(s: string, c: char, d: char)
    requires c != d
    ensures c !in Replace(s, [c], [d])
  {
    SubstituteChar(s, c, d);
  }

  /** A replacement never brings in a character that neither the string nor
      the replacement text holds. */
  lemma {:induction false} ReplaceKeepsAbsent(s: string, pat: string, rep: string, x: char)
    requires x !in s && x !in rep
    ensures x !in Replace(s, pat, rep)
    decreases |s|
  {
    if |pat| == 0 {
      InterleaveKeepsAbsent(s, rep, x);
    } else if s == [] {
    } else if StartsWith(s, pat) {
      assert forall y :: y in s[|pat|..] ==> y in s;
      ReplaceKeepsAbsent(s[|pat|..], pat, rep, x);
    } else {
      assert forall y :: y in s[1..] ==> y in s;
      ReplaceKeepsAbsent(s[1..], pat, rep, x);
    }
  }

  lemma {:induction false} InterleaveKeepsAbsent(s: string, rep: string, x: char)
    requires x !in s && x !in rep
    ensures x !in Interleave(s, rep)
    decreases |s|
  {
    if s != [] {
      assert forall y :: y in s[1..] ==> y in s;
      InterleaveKeepsAbsent(s[1..], rep, x);
    }
  }

  /** A character that is in neither the pattern nor the replacement occurs
      as often after `s.replace(pat, rep)` as before: the replacement touches
      nothing but the occurrences of the pattern. */
  lemma {:induction false} ReplaceKeepsCount(s: string, pat: string, rep: string, x: char)
    requires |pat| > 0 && x !in pat && x !in rep
    ensures multiset(Replace(s, pat, rep))[x] == multiset(s)[x]
    decreases |s|
  {
    if s == [] {
    } else if StartsWith(s, pat) {
      ReplaceKeepsCount(s[|pat|..], pat, rep, x);
      assert s == pat + s[|pat|..];
      assert multiset(pat)[x] == 0 && multiset(rep)[x] == 0;
    } else {
      ReplaceKeepsCount(s[1..], pat, rep, x);
      assert s == [s[0]] + s[1..];
    }
  }

  /** A pattern whose first character does not come back later in it is
      border-free. */
  lemma FirstCharBorderFree(pat: string)
    requires forall k :: 0 < k < |pat| ==> pat[k] != pat[0]
    ensures BorderFree(pat)
  {
    forall k: nat | k < |pat|
      ensures !Overlaps(pat, k)
    {
      if 0 < k {
        // the two sides of an overlap would start with pat[k] and pat[0]
        assert pat[k..][0] == pat[k] && pat[..|pat| - k][0] == pat[0];
      }
    }
  }

  /** A pattern cannot occur in a string that lacks its first character. */
  lemma {:induction false} HeadAbsent(s: string, pat: string)
    requires |pat| > 0 && pat[0] !in s
    ensures !Occurs(s, pat)
    decreases |s|
  {
    if s != [] {
      assert s[0] != pat[0];
      assert forall y :: y in s[1..] ==> y in s;
      HeadAbsent(s[1..], pat);
    }
  }

  /** Replacing a single character works character by character: the
      replacement of a concatenation is the concatenation of the
      replacements. */
  lemma {:induction false} ReplaceCharConcat(a: string, b: string, c: char, rep: string)
    ensures Replace(a + b, [c], rep) == Replace(a, [c], rep) + Replace(b, [c], rep)
    decreases |a|
  {
    if a != [] {
      ReplaceCharConcat(a[1..], b, c, rep);
      assert (a + b)[1..] == a[1..] + b;
      assert (a + b)[..1] == a[..1];
    } else {
      assert a + b == b;
    }
  }
}
