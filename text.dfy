/** String helpers for the search box: case lowering and the substring test. */
module Text {

  /** The upper-case letters the model lowers: ASCII A-Z and the Latin-1
      capitals U+00C0..U+00DE, except the multiplication sign U+00D7. */
  predicate IsUpper(c: char) {
    ('A' <= c <= 'Z') || ('\U{00C0}' <= c <= '\U{00DE}' && c != '\U{00D7}')
  }

  /** Lower-casing of one character: a capital becomes its small letter,
      everything else is left alone. */
  function LowerChar(c: char): (r: char)
    ensures !IsUpper(r)
    ensures !IsUpper(c) ==> r == c
  {
    if IsUpper(c) then (c as int + 32) as char else c
  }

  /** `toLowerCase`, applied character by character. */
  function Lower(s: string): (r: string)
    ensures |r| == |s|
    ensures forall i :: 0 <= i < |r| ==> !IsUpper(r[i])
    ensures forall i :: 0 <= i < |s| && !IsUpper(s[i]) ==> r[i] == s[i]
  {
    seq(|s|, i requires 0 <= i < |s| => LowerChar(s[i]))
  }

  /** Lowering keeps the length, has no upper-case letter left, and
      lowering twice is lowering once. */
  lemma LowerIsIdempotent(s: string)
    ensures |Lower(s)| == |s|
    ensures forall i :: 0 <= i < |s| ==> !IsUpper(Lower(s)[i])
    ensures Lower(Lower(s)) == Lower(s)
  {
  }

  /** t starts s, compared one character at a time. */
  predicate IsPrefix(t: string, s: string)
    ensures IsPrefix(t, s) ==> |t| <= |s|
  {
    t == [] || (s != [] && t[0] == s[0] && IsPrefix(t[1..], s[1..]))
  }

  /** The character-by-character comparison agrees with slicing. */
  lemma {:induction false} IsPrefixIff(t: string, s: string)
    ensures IsPrefix(t, s) <==> |t| <= |s| && t == s[..|t|]
    decreases |t|
  {
    if t != [] && s != [] {
      IsPrefixIff(t[1..], s[1..]);
      if |t| <= |s| {
        assert s[..|t|] == [s[0]] + s[1..][..|t| - 1];
        assert t == [t[0]] + t[1..];
      }
    }
  }

  /** `s.includes(t)`: t occurs in s at some starting position, tried from
      the first position on. */
  predicate Contains(s: string, t: string)
    ensures t == [] ==> Contains(s, t)
    ensures Contains(s, t) ==> |t| <= |s|
    decreases |s|
  {
    IsPrefix(t, s) || (|s| > 0 && Contains(s[1..], t))
  }

  /** t occurs in s starting at position i. */
  predicate OccursAt(s: string, t: string, i: nat) {
    i + |t| <= |s| && s[i..i + |t|] == t
  }

  /** Occurrences in s[1..] are the occurrences in s one position later. */
  lemma OccursAtShift(s: string, t: string, i: nat)
    requires |s| > 0
    ensures OccursAt(s, t, i + 1) <==> OccursAt(s[1..], t, i)
  {
    if i + 1 + |t| <= |s| {
      assert s[1..][i..i + |t|] == s[i + 1..i + 1 + |t|];
    }
  }

  /** The search loop of Contains finds t exactly when t occurs somewhere. */
  lemma {:induction false} ContainsIff(s: string, t: string)
    ensures Contains(s, t) <==> exists i: nat :: i <= |s| && OccursAt(s, t, i)
    decreases |s|
  {
    IsPrefixIff(t, s);
    assert IsPrefix(t, s) <==> OccursAt(s, t, 0);
    if IsPrefix(t, s) {
      assert OccursAt(s, t, 0);
    } else if |s| == 0 {
      forall i: nat | i <= |s| ensures !OccursAt(s, t, i) {
        assert i == 0;
      }
    } else {
      ContainsIff(s[1..], t);
      if Contains(s[1..], t) {
        var i: nat :| i <= |s[1..]| && OccursAt(s[1..], t, i);
        OccursAtShift(s, t, i);
        assert OccursAt(s, t, i + 1);
      } else {
        forall i: nat | i <= |s| ensures !OccursAt(s, t, i) {
          if i > 0 {
            OccursAtShift(s, t, i - 1);
          }
        }
      }
    }
  }

  /** Every character of a contained string is a character of the container. */
  lemma ContainsOnlyCharsOf(s: string, t: string)
    requires Contains(s, t)
    ensures forall j :: 0 <= j < |t| ==> t[j] in s
  {
    ContainsIff(s, t);
    var i: nat :| i <= |s| && OccursAt(s, t, i);
    forall j | 0 <= j < |t| ensures t[j] in s {
      assert t[j] == s[i + j];
    }
  }

  /** A string that lacks one of t's characters does not contain t. */
  lemma MissingCharNotContained(s: string, t: string, j: nat)
    requires j < |t| && t[j] !in s
    ensures !Contains(s, t)
  {
    if Contains(s, t) {
      ContainsOnlyCharsOf(s, t);
    }
  }
}
