/**
 The answer check of the console quiz. The player's line is trimmed the way
 Java's `String.trim` does it (every character up to U+0020 dropped at both
 ends) and then lower-cased; the answer is judged correct when the lower-cased
 meaning CONTAINS it, as `String.contains` does. Lower-casing is modelled on
 ASCII letters only.
 */
module Matching {

  /** A character `String.trim` removes: code point at most U+0020. */
  predicate IsBlank(c: char)
    ensures IsBlank(c) ==> LowerChar(c) == c
  {
    c <= ' '
  }

  predicate AllBlank(s: string) {
    forall i :: 0 <= i < |s| ==> IsBlank(s[i])
  }

  /** ASCII lower-casing of one character; every other character is kept. */
  function LowerChar(c: char): (d: char)
    ensures !('A' <= d <= 'Z')
    ensures 'A' <= c <= 'Z' ==> 'a' <= d <= 'z' && d as int - c as int == 'a' as int - 'A' as int
    ensures !('A' <= c <= 'Z') ==> d == c
  {
    if 'A' <= c <= 'Z' then (c as int + ('a' as int - 'A' as int)) as char else c
  }

  /** `toLowerCase`: every character lower-cased, the length unchanged. */
  function Lower(s: string): (r: string)
    ensures |r| == |s|
    ensures forall i :: 0 <= i < |r| ==> !('A' <= r[i] <= 'Z')
  {
    seq(|s|, i requires 0 <= i < |s| => LowerChar(s[i]))
  }

  /** Lower-casing commutes with taking a slice. */
  lemma LowerSlice(s: string, i: nat, j: nat)
    requires i <= j <= |s|
    ensures Lower(s[i..j]) == Lower(s)[i..j]
  {
  }

  /** Lower-casing twice is lower-casing once. */
  lemma LowerIdempotent(s: string)
    ensures Lower(Lower(s)) == Lower(s)
  {
  }

  /** Index of the first non-blank character, or |s| when there is none
      (the `st` that `String.trim` computes). */
  function TrimStart(s: string): (st: nat)
    ensures st <= |s|
    ensures AllBlank(s[..st])
    ensures st < |s| ==> !IsBlank(s[st])
    decreases |s|
  {
    if s != [] && IsBlank(s[0]) then
      var rest := TrimStart(s[1..]);
      assert s[..1 + rest] == [s[0]] + s[1..][..rest];
      1 + rest
    else
      0
  }

  /** End (exclusive) of s once blanks are dropped at the back, never moving
      below st (the `len` that `String.trim` computes). */
  function TrimEnd(s: string, st: nat): (len: nat)
    requires st <= |s|
    ensures st <= len <= |s|
    ensures AllBlank(s[len..])
    ensures st < len ==> !IsBlank(s[len - 1])
    decreases |s|
  {
    if st < |s| && IsBlank(s[|s| - 1]) then
      var len := TrimEnd(s[..|s| - 1], st);
      assert s[len..] == s[..|s| - 1][len..] + [s[|s| - 1]];
      len
    else
      |s|
  }

  /** `String.trim`: s without its leading and trailing blanks. */
  function Trim(s: string): (r: string)
    ensures |r| <= |s|
    ensures r == [] || (!IsBlank(r[0]) && !IsBlank(r[|r| - 1]))
  {
    var st := TrimStart(s);
    s[st..TrimEnd(s, st)]
  }

  /** Trimming removes exactly the blank padding around a core that starts and
      ends with non-blank characters (or around nothing at all). */
  lemma TrimOfPadded(front: string, core: string, back: string)
    requires AllBlank(front) && AllBlank(back)
    requires core == [] || (!IsBlank(core[0]) && !IsBlank(core[|core| - 1]))
    ensures Trim(front + core + back) == core
  {
    var s := front + core + back;
    var st := TrimStart(s);
    var len := TrimEnd(s, st);
    if core == [] {
      assert AllBlank(s) by {
        forall i | 0 <= i < |s| ensures IsBlank(s[i]) {
          if i < |front| { assert s[i] == front[i]; } else { assert s[i] == back[i - |front|]; }
        }
      }
      assert st == |s|;
    } else {
      assert s[|front|] == core[0];
      assert st == |front|;
      var last := |front| + |core| - 1;
      assert s[last] == core[|core| - 1];
      assert len == last + 1;
      assert s[st..len] == core;
    }
  }

  /** A line trims to nothing exactly when it is blank throughout. */
  lemma TrimEmptyIffBlank(s: string)
    ensures Trim(s) == [] <==> AllBlank(s)
  {
    if AllBlank(s) {
      TrimOfPadded(s, [], []);
      assert s + [] + [] == s;
    } else {
      var st := TrimStart(s);
      var len := TrimEnd(s, st);
      assert st != len;
    }
  }

  /** Trimming twice is trimming once. */
  lemma TrimIdempotent(s: string)
    ensures Trim(Trim(s)) == Trim(s)
  {
    var r := Trim(s);
    TrimOfPadded([], r, []);
    assert [] + r + [] == r;
  }

  /** `s.contains(t)` as `String.indexOf` searches it: t is a prefix of s, or
      s is non-empty and t occurs in the rest of s. */
  predicate Contains(s: string, t: string)
    ensures Contains(s, t) ==> |t| <= |s|
    decreases |s|
  {
    t <= s || (s != [] && Contains(s[1..], t))
  }

  /** Reference definition of an occurrence: t is the slice of s at position k. */
  ghost predicate OccursAt(s: string, t: string, k: nat) {
    k + |t| <= |s| && s[k..k + |t|] == t
  }

  /** Slicing a slice is slicing the whole at shifted bounds. */
  lemma SliceOfSlice(s: string, i: nat, j: nat, p: nat, q: nat)
    requires i <= j <= |s| && p <= q <= j - i
    ensures s[i..j][p..q] == s[i + p..i + q]
  {
    var u, v := s[i..j][p..q], s[i + p..i + q];
    assert |u| == |v|;
    forall k | 0 <= k < |u| ensures u[k] == v[k] {
      assert u[k] == s[i + p + k];
    }
  }

  /** When the search succeeds, t occurs in s at the position where it stopped. */
  lemma {:induction false} ContainsWitness(s: string, t: string) returns (k: nat)
    requires Contains(s, t)
    ensures OccursAt(s, t, k)
    decreases |s|
  {
    if t <= s {
      k := 0;
      assert s[..|t|] == t;
    } else {
      var k' := ContainsWitness(s[1..], t);
      SliceOfSlice(s, 1, |s|, k', k' + |t|);
      k := k' + 1;
    }
  }

  /** The search finds every occurrence of t in s (if not an earlier one). */
  lemma {:induction false} OccursContains(s: string, t: string, k: nat)
    requires OccursAt(s, t, k)
    ensures Contains(s, t)
    decreases k
  {
    if k == 0 {
      assert t <= s;
    } else {
      SliceOfSlice(s, 1, |s|, k - 1, k - 1 + |t|);
      OccursContains(s[1..], t, k - 1);
    }
  }

  /** The left-to-right search finds t exactly when t occurs somewhere in s. */
  lemma ContainsIffOccurs(s: string, t: string)
    ensures Contains(s, t) <==> exists k: nat :: OccursAt(s, t, k)
  {
    if Contains(s, t) {
      var k := ContainsWitness(s, t);
    }
    if exists k: nat :: OccursAt(s, t, k) {
      var k: nat :| OccursAt(s, t, k);
      OccursContains(s, t, k);
    }
  }

  /** Every slice of s is contained in s. */
  lemma ContainsSlice(s: string, i: nat, j: nat)
    requires i <= j <= |s|
    ensures Contains(s, s[i..j])
  {
    OccursContains(s, s[i..j], i);
  }

  /** Every character of a contained string is a character of s. */
  lemma ContainedCharOccurs(s: string, t: string, j: nat)
    requires Contains(s, t) && j < |t|
    ensures t[j] in s
  {
    var k := ContainsWitness(s, t);
    assert s[k..k + |t|][j] == s[k + j];
  }

  /** The guess as the quiz compares it: trimmed, then lower-cased. */
  function Normalize(guess: string): (r: string)
    ensures |r| <= |guess|
    ensures r == [] <==> AllBlank(guess)
  {
    TrimEmptyIffBlank(guess);
    Lower(Trim(guess))
  }

  /** A guess without padding is only lower-cased. */
  lemma NormalizeUnpadded(g: string)
    requires g == [] || (!IsBlank(g[0]) && !IsBlank(g[|g| - 1]))
    ensures Normalize(g) == Lower(g)
  {
    TrimOfPadded([], g, []);
    assert [] + g + [] == g;
  }

  /** The answer check: the lower-cased meaning contains the normalized guess. */
  predicate Correct(meaning: string, guess: string)
    ensures Correct(meaning, guess) <==> exists k: nat :: OccursAt(Lower(meaning), Normalize(guess), k)
  {
    ContainsIffOccurs(Lower(meaning), Normalize(guess));
    Contains(Lower(meaning), Normalize(guess))
  }

  /** Trimming a slice of s yields a narrower slice of s. */
  lemma TrimOfSlice(s: string, i: nat, j: nat) returns (a: nat, b: nat)
    requires i <= j <= |s|
    ensures i <= a <= b <= j
    ensures Trim(s[i..j]) == s[a..b]
  {
    var g := s[i..j];
    var st := TrimStart(g);
    var len := TrimEnd(g, st);
    a, b := i + st, i + len;
    SliceOfSlice(s, i, j, st, len);
  }

  /** Every contiguous piece of the meaning, typed as it stands, is accepted. */
  lemma SubstringAccepted(meaning: string, i: nat, j: nat)
    requires i <= j <= |meaning|
    ensures Correct(meaning, meaning[i..j])
  {
    var a, b := TrimOfSlice(meaning, i, j);
    LowerSlice(meaning, a, b);
    ContainsSlice(Lower(meaning), a, b);
  }

  /** Trimming a line made of blank padding around some text keeps a slice of
      that text. */
  lemma TrimWithin(front: string, mid: string, back: string) returns (a: nat, b: nat)
    requires AllBlank(front) && AllBlank(back)
    ensures a <= b <= |mid|
    ensures Trim(front + mid + back) == mid[a..b]
  {
    var x := front + mid + back;
    var st := TrimStart(x);
    var len := TrimEnd(x, st);
    if st < len {
      assert |front| <= st;
      assert len <= |front| + |mid|;
      a, b := st - |front|, len - |front|;
      assert x[|front|..|front| + |mid|] == mid;
      SliceOfSlice(x, |front|, |front| + |mid|, a, b);
    } else {
      a, b := 0, 0;
    }
  }

  /** The meaning itself, typed as it stands, is accepted. */
  lemma WholeMeaningAccepted(meaning: string)
    ensures Correct(meaning, meaning)
  {
    SubstringAccepted(meaning, 0, |meaning|);
    assert meaning[0..|meaning|] == meaning;
  }

  /** Typing the meaning in any letter case, with any blank padding around it,
      is accepted. */
  lemma ExactMeaningAccepted(meaning: string, typed: string, front: string, back: string)
    requires Lower(typed) == Lower(meaning)
    requires AllBlank(front) && AllBlank(back)
    ensures Correct(meaning, front + typed + back)
  {
    var a, b := TrimWithin(front, typed, back);
    LowerSlice(typed, a, b);
    ContainsSlice(Lower(meaning), a, b);
  }

  /** An empty or all-blank line is accepted for every meaning: it normalizes
      to the empty string, which every string contains. */
  lemma BlankGuessAccepted(meaning: string, guess: string)
    requires AllBlank(guess)
    ensures Normalize(guess) == []
    ensures Correct(meaning, guess)
  {
  }

  /** Against an empty meaning, only a blank line is accepted. */
  lemma EmptyMeaningAcceptsOnlyBlank(guess: string)
    ensures Correct("", guess) <==> AllBlank(guess)
  {
  }

  /** A guess whose trimmed form is longer than the meaning is never accepted. */
  lemma LongGuessRejected(meaning: string, guess: string)
    requires |Trim(guess)| > |meaning|
    ensures !Correct(meaning, guess)
  {
  }

  /** The looseness of the check on the meaning "sun/day": either half of it
      is accepted. */
  lemma SunDayHalvesAccepted()
    ensures Correct("sun/day", "sun") && Correct("sun/day", "day")
  {
    var m := "sun/day";
    SubstringAccepted(m, 0, 3);
    assert m[0..3] == "sun";
    SubstringAccepted(m, 4, 7);
    assert m[4..7] == "day";
  }

  /** Pieces across the slash, and a single letter, are accepted too. */
  lemma SunDayPiecesAccepted()
    ensures Correct("sun/day", "un/da") && Correct("sun/day", "s")
  {
    var m := "sun/day";
    SubstringAccepted(m, 1, 6);
    assert m[1..6] == "un/da";
    SubstringAccepted(m, 0, 1);
    assert m[0..1] == "s";
  }

  /** Letter case does not matter on "sun/day". */
  lemma SunDayCaseInsensitive()
    ensures Correct("sun/day", "SUN")
  {
    NormalizeUnpadded("SUN");
    assert Lower("SUN") == "sun";
    assert Lower("sun/day") == "sun/day";
    assert "sun" <= "sun/day";
  }

  /** "sun/day" has no letter 'm', so it does not contain "moon". */
  lemma MoonNotInSunDay()
    ensures !Contains("sun/day", "moon")
  {
    if Contains("sun/day", "moon") {
      ContainedCharOccurs("sun/day", "moon", 0);
    }
  }

  /** A word that does not occur in "sun/day" is rejected. */
  lemma MoonRejected()
    ensures !Correct("sun/day", "moon")
  {
    NormalizeUnpadded("moon");
    assert Lower("moon") == "moon";
    MoonNotInSunDay();
    assert Lower("sun/day") == "sun/day";
  }
}
