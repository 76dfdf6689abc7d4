/** Python string operations the synchroniser relies on: the substring test,
    `str.replace`, and the ordering `<` that `sorted` uses on date strings. */
module Strings {

  predicate StartsWith(s: string, k: string) {
    |k| <= |s| && s[..|k|] == k
  }

  /** Python's `k in s` on strings. */
  predicate Contains(s: string, k: string)
    decreases |s|
  {
    StartsWith(s, k) || (|s| > 0 && Contains(s[1..], k))
  }

  /** Python's `s.replace(k, v)` for a non-empty `k`: scans left to right and
      replaces every non-overlapping occurrence of `k` by `v`. */
  function ReplaceAll(s: string, k: string, v: string): (r: string)
    requires |k| > 0
    ensures !Contains(s, k) ==> r == s
    decreases |s|
  {
    if |s| == 0 then ""
    else if StartsWith(s, k) then v + ReplaceAll(s[|k|..], k, v)
    else [s[0]] + ReplaceAll(s[1..], k, v)
  }

  /** Removing a key never lengthens the string. */
  lemma {:induction false} RemoveShortens(s: string, k: string)
    requires |k| > 0
    ensures |ReplaceAll(s, k, "")| <= |s|
    decreases |s|
  {
    if |s| > 0 {
      if StartsWith(s, k) {
        RemoveShortens(s[|k|..], k);
      } else {
        RemoveShortens(s[1..], k);
      }
    }
  }

  /** The scan does not go back over what a removal joins together: removing "ENGI" from
      "EENGINGI" leaves the "ENGI" formed by the two ends. */
  lemma RemoveDoesNotRescan()
    ensures ReplaceAll("EENGINGI", "ENGI", "") == "ENGI"
  {
    assert "EENGINGI"[..4][1] == 'E' != "ENGI"[1];
    assert "EENGINGI"[0] == 'E' && "EENGINGI"[1..] == "ENGINGI";
    assert "ENGINGI"[..4] == "ENGI" && "ENGINGI"[4..] == "NGI";
    assert "NGI"[0] == 'N' && "NGI"[1..] == "GI";
    assert "GI"[0] == 'G' && "GI"[1..] == "I";
    assert "I"[0] == 'I' && "I"[1..] == "";
    assert ReplaceAll("NGI", "ENGI", "") == "NGI";
  }

  /** Replacing a single character by another one maps every character and removes
      every occurrence of the replaced one. */
  lemma {:induction false} ReplaceCharAt(s: string, c: char, d: char, i: nat)
    requires i < |s|
    ensures |ReplaceAll(s, [c], [d])| == |s|
    ensures ReplaceAll(s, [c], [d])[i] == if s[i] == c then d else s[i]
    decreases |s|
  {
    ReplaceCharLength(s, c, d);
    if i > 0 {
      ReplaceCharAt(s[1..], c, d, i - 1);
    }
  }

  lemma {:induction false} ReplaceCharLength(s: string, c: char, d: char)
    ensures |ReplaceAll(s, [c], [d])| == |s|
    decreases |s|
  {
    if |s| > 0 {
      ReplaceCharLength(s[1..], c, d);
    }
  }

  /** Every character of an occurring key is a character of the string. */
  lemma {:induction false} ContainsChars(s: string, k: string, c: char)
    requires Contains(s, k) && c in k
    ensures c in s
    decreases |s|
  {
    if StartsWith(s, k) {
      assert k == s[..|k|];
    } else {
      ContainsChars(s[1..], k, c);
    }
  }

  /** A key longer than the string does not occur in it. */
  lemma {:induction false} LongKeyAbsent(s: string, k: string)
    requires |k| > |s|
    ensures !Contains(s, k)
    decreases |s|
  {
    if |s| > 0 {
      LongKeyAbsent(s[1..], k);
    }
  }

  /** Python's `a < b` on strings: lexicographic by character, a proper prefix first. */
  predicate Less(a: string, b: string)
    decreases |a|
  {
    if |a| == 0 then |b| > 0
    else if |b| == 0 then false
    else if a[0] != b[0] then a[0] < b[0]
    else Less(a[1..], b[1..])
  }

  lemma {:induction false} LessIrreflexive(a: string)
    ensures !Less(a, a)
    decreases |a|
  {
    if |a| > 0 {
      LessIrreflexive(a[1..]);
    }
  }

  lemma {:induction false} LessTransitive(a: string, b: string, c: string)
    requires Less(a, b) && Less(b, c)
    ensures Less(a, c)
    decreases |a|
  {
    if |a| > 0 && a[0] == b[0] && b[0] == c[0] {
      LessTransitive(a[1..], b[1..], c[1..]);
    }
  }

  lemma {:induction false} LessTotal(a: string, b: string)
    ensures a == b || Less(a, b) || Less(b, a)
    decreases |a|
  {
    if |a| > 0 && |b| > 0 && a[0] == b[0] {
      LessTotal(a[1..], b[1..]);
      if a[1..] == b[1..] {
        assert a == [a[0]] + a[1..] && b == [b[0]] + b[1..];
      }
    }
  }

  lemma LessAsymmetric(a: string, b: string)
    requires Less(a, b)
    ensures !Less(b, a)
  {
    if Less(b, a) {
      LessTransitive(a, b, a);
      LessIrreflexive(a);
    }
  }

  /** Comparing two strings that start with pieces of the same length compares the
      pieces first and the rests only when the pieces agree. */
  lemma {:induction false} LessConcat(a1: string, b1: string, a2: string, b2: string)
    requires |a1| == |a2|
    ensures Less(a1 + b1, a2 + b2) <==> Less(a1, a2) || (a1 == a2 && Less(b1, b2))
    decreases |a1|
  {
    if |a1| == 0 {
      assert a1 + b1 == b1 && a2 + b2 == b2;
    } else {
      assert (a1 + b1)[0] == a1[0] && (a2 + b2)[0] == a2[0];
      assert (a1 + b1)[1..] == a1[1..] + b1 && (a2 + b2)[1..] == a2[1..] + b2;
      LessConcat(a1[1..], b1, a2[1..], b2);
      if a1[0] == a2[0] {
        assert a1 == a2 <==> a1[1..] == a2[1..] by {
          assert a1 == [a1[0]] + a1[1..] && a2 == [a2[0]] + a2[1..];
        }
      } else {
        assert a1 != a2;
      }
    }
  }
}
