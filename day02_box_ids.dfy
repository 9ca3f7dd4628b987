/**
 * Day 2 ("Inventory Management System"): box IDs.
 *
 * The checksum counts the IDs that contain some letter exactly twice and
 * those that contain some letter exactly three times. The two boxes that
 * hold the prototype fabric have IDs whose common letters (the letters at
 * the positions where both IDs agree) are one fewer than the first ID's
 * length; the common letters are the answer.
 */
module BoxIds {
  import opened Wrappers

  // ---------------------------------------------------------------------
  // Common letters
  // ---------------------------------------------------------------------

  /** Walks the two IDs side by side, keeping each letter of `s1` that `s2` has at the same position. */
  function KeepCommonLetters(s1: string, s2: string): (r: string)
    ensures |r| <= |s1| && |r| <= |s2|
  {
    if |s1| == 0 || |s2| == 0 then ""
    else (if s1[0] == s2[0] then [s1[0]] else []) + KeepCommonLetters(s1[1..], s2[1..])
  }

  /** The positions below `n` where the two IDs agree, ascending. */
  function AgreeingPositions(s1: string, s2: string, n: nat): (r: seq<nat>)
    requires n <= |s1| && n <= |s2|
    ensures forall k :: 0 <= k < |r| ==> r[k] < n
  {
    if n == 0 then []
    else AgreeingPositions(s1, s2, n - 1) + if s1[n - 1] == s2[n - 1] then [n - 1] else []
  }

  function Min(a: nat, b: nat): nat { if a < b then a else b }

  /** The letters of `s1` at the given positions, in order. */
  function LettersAt(s1: string, positions: seq<nat>): string
    requires forall k :: 0 <= k < |positions| ==> positions[k] < |s1|
  {
    seq(|positions|, k requires 0 <= k < |positions| => s1[positions[k]])
  }

  /** The positions listed by `AgreeingPositions` are exactly the agreeing ones, in ascending order. */
  lemma {:induction false} AgreeingPositionsExact(s1: string, s2: string, n: nat)
    requires n <= |s1| && n <= |s2|
    ensures var r := AgreeingPositions(s1, s2, n);
            (forall i :: i in r <==> 0 <= i < n && s1[i] == s2[i])
            && (forall a, b :: 0 <= a < b < |r| ==> r[a] < r[b])
  {
    if n > 0 {
      AgreeingPositionsExact(s1, s2, n - 1);
      var prev := AgreeingPositions(s1, s2, n - 1);
      var r := AgreeingPositions(s1, s2, n);
      if s1[n - 1] == s2[n - 1] {
        assert r == prev + [n - 1];
        forall a, b | 0 <= a < b < |r| ensures r[a] < r[b] {
          if b < |prev| {
            assert r[a] == prev[a] && r[b] == prev[b];
          } else {
            assert r[a] == prev[a] && prev[a] < n - 1;
          }
        }
      } else {
        assert r == prev + [];
        assert prev + [] == prev;
      }
    }
  }

  /**
   * The common letters are the letters of `s1` at the positions, below the
   * shorter length, where the two IDs agree, in order.
   */
  lemma {:induction false} KeepCommonLettersAgrees(s1: string, s2: string)
    ensures var positions := AgreeingPositions(s1, s2, Min(|s1|, |s2|));
            KeepCommonLetters(s1, s2) == LettersAt(s1, positions)
  {
    KeepCommonLettersSplit(s1, s2, Min(|s1|, |s2|));
  }

  /** The common letters of the first `n` positions, then of the rest. */
  lemma {:induction false} KeepCommonLettersSplit(s1: string, s2: string, n: nat)
    requires n <= |s1| && n <= |s2|
    ensures KeepCommonLetters(s1, s2)
            == LettersAt(s1, AgreeingPositions(s1, s2, n)) + KeepCommonLetters(s1[n..], s2[n..])
  {
    if n == 0 {
      assert s1[0..] == s1 && s2[0..] == s2;
    } else {
      KeepCommonLettersSplit(s1, s2, n - 1);
      var prev := AgreeingPositions(s1, s2, n - 1);
      var a, b := s1[n - 1..], s2[n - 1..];
      assert a[1..] == s1[n..] && b[1..] == s2[n..];
      assert a[0] == s1[n - 1] && b[0] == s2[n - 1];
      var step: string := if s1[n - 1] == s2[n - 1] then [s1[n - 1]] else [];
      assert KeepCommonLetters(a, b) == step + KeepCommonLetters(s1[n..], s2[n..]);
      assert LettersAt(s1, AgreeingPositions(s1, s2, n)) == LettersAt(s1, prev) + step;
    }
  }

  /** An ID has all its letters in common with itself. */
  lemma {:induction false} KeepCommonLettersSelf(s: string)
    ensures KeepCommonLetters(s, s) == s
  {
    if |s| > 0 {
      KeepCommonLettersSelf(s[1..]);
    }
  }

  /** The common letters do not depend on the order of the two IDs. */
  lemma {:induction false} KeepCommonLettersSymmetric(s1: string, s2: string)
    ensures KeepCommonLetters(s1, s2) == KeepCommonLetters(s2, s1)
  {
    if |s1| > 0 && |s2| > 0 {
      KeepCommonLettersSymmetric(s1[1..], s2[1..]);
    }
  }

  /** Every position of the shorter length agrees exactly when nothing is dropped. */
  lemma {:induction false} KeepCommonLettersFull(s1: string, s2: string)
    ensures var m := Min(|s1|, |s2|);
            |KeepCommonLetters(s1, s2)| == m <==> s1[..m] == s2[..m]
  {
    var m := Min(|s1|, |s2|);
    if m == 0 {
      assert s1[..m] == [] == s2[..m];
    } else if s1[0] == s2[0] {
      KeepCommonLettersFull(s1[1..], s2[1..]);
      PrefixesAfterEqualHeads(s1, s2, m);
    } else {
      assert |KeepCommonLetters(s1, s2)| == |KeepCommonLetters(s1[1..], s2[1..])| <= m - 1;
      assert s1[..m][0] != s2[..m][0];
    }
  }

  lemma PrefixesAfterEqualHeads(s1: string, s2: string, m: nat)
    requires 0 < m <= |s1| && m <= |s2| && s1[0] == s2[0]
    ensures s1[..m] == s2[..m] <==> s1[1..][..m - 1] == s2[1..][..m - 1]
  {
    assert s1[..m] == [s1[0]] + s1[1..][..m - 1];
    assert s2[..m] == [s2[0]] + s2[1..][..m - 1];
  }

  /** "abc" and "azc" have "ac" in common. */
  lemma KeepCommonLettersExample(s1: string, s2: string)
    requires s1 == "abc" && s2 == "azc"
    ensures KeepCommonLetters(s1, s2) == "ac"
    ensures KeepCommonLetters(s1, s1) == "abc"
  {
    assert s1[1..][1..] == "c" && s2[1..][1..] == "c";
    KeepCommonLettersSelf(s1);
  }

  // ---------------------------------------------------------------------
  // The pair of IDs one letter apart
  // ---------------------------------------------------------------------

  /** Line `i` has exactly one letter that line `j` does not share at its position. */
  predicate OneLetterOff(lines: seq<string>, i: int, j: int)
    requires 0 <= i < |lines| && 0 <= j < |lines|
  {
    |lines[i]| - |KeepCommonLetters(lines[i], lines[j])| == 1
  }

  /** No pair (a, b) with a <= b comes before (i, j) in the search order and is one letter off. */
  predicate NoneBefore(lines: seq<string>, i: int, j: int)
    requires 0 <= i <= j <= |lines|
  {
    (forall a, b :: 0 <= a < i && a <= b < |lines| ==> !OneLetterOff(lines, a, b))
    && (forall b :: i <= b < j ==> !OneLetterOff(lines, i, b))
  }

  /**
   * Tries every line against itself and every later line, in order, and
   * returns the common letters of the first pair that is one letter off.
   */
  method FindOneLetterOff(lines: seq<string>) returns (r: Option<string>)
    ensures r.None? <==> forall a, b :: 0 <= a <= b < |lines| ==> !OneLetterOff(lines, a, b)
    ensures r.Some? ==> exists i, j :: 0 <= i <= j < |lines| && NoneBefore(lines, i, j)
                                       && OneLetterOff(lines, i, j) && r.value == KeepCommonLetters(lines[i], lines[j])
  {
    for index := 0 to |lines|
      invariant NoneBefore(lines, index, index)
    {
      for index2 := index to |lines|
        invariant NoneBefore(lines, index, index2)
      {
        var commonLetters := KeepCommonLetters(lines[index], lines[index2]);
        var charDiff := |lines[index]| - |commonLetters|;
        if charDiff == 1 {
          assert OneLetterOff(lines, index, index2);
          return Some(commonLetters);
        }
      }
    }
    return None;
  }

  // ---------------------------------------------------------------------
  // The checksum classification
  // ---------------------------------------------------------------------

  /** Some letter occurs exactly `k` times in the ID. */
  predicate HasExactly(line: string, k: nat)
  {
    exists c :: c in multiset(line) && multiset(line)[c] == k
  }

  /** Counts each letter of the ID, then looks for a count of two and a count of three. */
  method Classify(line: string) returns (hasTwo: bool, hasThree: bool)
    ensures hasTwo <==> HasExactly(line, 2)
    ensures hasThree <==> HasExactly(line, 3)
  {
    var letterQuantity: map<char, nat> := map[];
    for i := 0 to |line|
      invariant forall c :: c in letterQuantity <==> c in multiset(line[..i])
      invariant forall c :: c in letterQuantity ==> letterQuantity[c] == multiset(line[..i])[c]
    {
      var letter := line[i];
      assert line[..i + 1] == line[..i] + [letter];
      if letter in letterQuantity {
        letterQuantity := letterQuantity[letter := letterQuantity[letter] + 1];
      } else {
        letterQuantity := letterQuantity[letter := 1];
      }
    }
    assert line[..|line|] == line;
    hasTwo, hasThree := false, false;
    var unseen := letterQuantity.Keys;
    while unseen != {}
      invariant unseen <= letterQuantity.Keys
      invariant hasTwo <==> exists c :: c in letterQuantity && c !in unseen && letterQuantity[c] == 2
      invariant hasThree <==> exists c :: c in letterQuantity && c !in unseen && letterQuantity[c] == 3
      decreases |unseen|
    {
      var c :| c in unseen;
      var quantity := letterQuantity[c];
      if quantity == 2 { hasTwo := true; }
      if quantity == 3 { hasThree := true; }
      unseen := unseen - {c};
    }
  }

  /** The number of IDs in which some letter occurs exactly `k` times. */
  function CountHaving(lines: seq<string>, k: nat): (n: nat)
    ensures n <= |lines|
  {
    if |lines| == 0 then 0
    else CountHaving(lines[..|lines| - 1], k) + if HasExactly(lines[|lines| - 1], k) then 1 else 0
  }

  /** Classifies every ID and counts those with a double letter and those with a triple letter. */
  method CountTwosAndThrees(lines: seq<string>) returns (hasTwoCount: nat, hasThreeCount: nat)
    ensures hasTwoCount == CountHaving(lines, 2)
    ensures hasThreeCount == CountHaving(lines, 3)
  {
    hasTwoCount, hasThreeCount := 0, 0;
    for i := 0 to |lines|
      invariant hasTwoCount == CountHaving(lines[..i], 2)
      invariant hasThreeCount == CountHaving(lines[..i], 3)
    {
      var hasTwo, hasThree := Classify(lines[i]);
      assert lines[..i + 1][..i] == lines[..i];
      if hasTwo { hasTwoCount := hasTwoCount + 1; }
      if hasThree { hasThreeCount := hasThreeCount + 1; }
    }
    assert lines[..|lines|] == lines;
  }
}
