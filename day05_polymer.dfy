/**
 * Day 5 ("Alchemical Reduction"): polymer reactions.
 *
 * A polymer is a string of units. Two adjacent units react, and both
 * disappear, when they are the same letter in opposite cases. One pass
 * scans the polymer left to right, dropping each reacting pair it meets
 * and keeping every other unit. The chain reaction repeats passes until a
 * pass leaves the length unchanged. A pass over a one-unit polymer returns
 * the empty polymer, because its scan loop never runs; see
 * `ChainDropsLastUnit` for what that does to the chain reaction.
 */
module Polymer {
  import opened Wrappers

  /** Either every letter may react, or only the given letter (either case). */
  datatype ReactionType = Any | Single(letter: char)

  // ---------------------------------------------------------------------
  // Units
  // ---------------------------------------------------------------------

  predicate IsUpper(c: char) { 'A' <= c <= 'Z' }

  predicate IsLower(c: char) { 'a' <= c <= 'z' }

  /** ASCII lower-casing: upper-case letters map to lower case, all else is kept. */
  function ToAsciiLower(c: char): char
  {
    if IsUpper(c) then (c as int + 32) as char else c
  }

  /** Equality ignoring ASCII case. */
  predicate EqIgnoreAsciiCase(c1: char, c2: char)
  {
    ToAsciiLower(c1) == ToAsciiLower(c2)
  }

  /** The same letter in the other case. */
  function OtherCase(c: char): char
    requires IsUpper(c) || IsLower(c)
  {
    if IsUpper(c) then (c as int + 32) as char else (c as int - 32) as char
  }

  /**
   * Whether `c1` followed by `c2` react, under the given reaction type: exactly
   * when the first is an ASCII letter and the second is that letter in the
   * other case (and, for `Single(c)`, the letter is `c` in either case).
   */
  predicate WillReactSingleLetter(c1: char, c2: char, reactionType: ReactionType)
    ensures WillReactSingleLetter(c1, c2, reactionType)
            <==> (IsUpper(c1) || IsLower(c1)) && c2 == OtherCase(c1)
                 && (reactionType.Single? ==> EqIgnoreAsciiCase(c1, reactionType.letter))
  {
    var reactionTypeMatch := match reactionType
      case Any => true
      case Single(c) => EqIgnoreAsciiCase(c1, c);
    EqIgnoreAsciiCase(c1, c2) && c1 != c2 && reactionTypeMatch
  }

  /** Any letter reacts with itself in the other case, and with nothing else. */
  predicate WillReact(c1: char, c2: char)
    ensures WillReact(c1, c2) <==> (IsUpper(c1) || IsLower(c1)) && c2 == OtherCase(c1)
  {
    WillReactSingleLetter(c1, c2, Any)
  }

  /** Reacting does not depend on the order of the two units. */
  lemma WillReactSymmetric(c1: char, c2: char, reactionType: ReactionType)
    ensures WillReactSingleLetter(c1, c2, reactionType) == WillReactSingleLetter(c2, c1, reactionType)
  {
  }

  /** 'A' and 'a' react; 'a' and 'b' do not. */
  lemma WillReactExamples()
    ensures WillReact('A', 'a')
    ensures !WillReact('a', 'b')
  {
  }

  // ---------------------------------------------------------------------
  // One pass
  // ---------------------------------------------------------------------

  /** No two adjacent units of `s` react. */
  predicate Inert(s: string, reactionType: ReactionType)
  {
    forall i :: 0 <= i < |s| - 1 ==> !WillReactSingleLetter(s[i], s[i + 1], reactionType)
  }

  /** `a` is `b` with some units deleted (order kept). */
  predicate SubsequenceOf(a: string, b: string)
    decreases |b|
  {
    |a| == 0 || (|b| > 0 && ((a[0] == b[0] && SubsequenceOf(a[1..], b[1..])) || SubsequenceOf(a, b[1..])))
  }

  /**
   * The left-to-right scan once the loop has started: a reacting pair at
   * the front is dropped, otherwise the front unit is kept; a last unit
   * left on its own is kept.
   */
  function Scan(s: string, reactionType: ReactionType): (r: string)
    ensures |r| <= |s|
  {
    if |s| <= 1 then s
    else if WillReactSingleLetter(s[0], s[1], reactionType) then Scan(s[2..], reactionType)
    else [s[0]] + Scan(s[1..], reactionType)
  }

  /** One pass: nothing survives in a polymer shorter than two units. */
  function Pass(s: string, reactionType: ReactionType): (r: string)
    ensures |r| <= |s|
  {
    if |s| <= 1 then "" else Scan(s, reactionType)
  }

  /** A scan keeps the units it does not drop, in their order. */
  lemma {:induction false} ScanSubsequence(s: string, reactionType: ReactionType)
    ensures SubsequenceOf(Scan(s, reactionType), s)
    decreases |s|
  {
    var r := Scan(s, reactionType);
    if |s| <= 1 {
      SubsequenceRefl(s);
    } else if WillReactSingleLetter(s[0], s[1], reactionType) {
      ScanSubsequence(s[2..], reactionType);
      assert s[2..] == s[1..][1..];
      assert SubsequenceOf(r, s[1..]);
    } else {
      ScanSubsequence(s[1..], reactionType);
      assert r[1..] == Scan(s[1..], reactionType);
    }
  }

  /** A scan drops units in pairs. */
  lemma {:induction false} ScanParity(s: string, reactionType: ReactionType)
    ensures (|s| - |Scan(s, reactionType)|) % 2 == 0
    decreases |s|
  {
    if |s| > 1 {
      if WillReactSingleLetter(s[0], s[1], reactionType) {
        ScanParity(s[2..], reactionType);
        EvenPlusTwo(|s[2..]| - |Scan(s[2..], reactionType)|);
      } else {
        ScanParity(s[1..], reactionType);
      }
    }
  }

  lemma EvenPlusTwo(x: int)
    requires x % 2 == 0
    ensures (x + 2) % 2 == 0
  {
  }

  /** `s` is inert exactly when its tail is and its first two units do not react. */
  lemma InertCons(s: string, reactionType: ReactionType)
    requires |s| > 1
    ensures Inert(s, reactionType)
            <==> !WillReactSingleLetter(s[0], s[1], reactionType) && Inert(s[1..], reactionType)
  {
    if !WillReactSingleLetter(s[0], s[1], reactionType) && Inert(s[1..], reactionType) {
      forall i | 0 <= i < |s| - 1
        ensures !WillReactSingleLetter(s[i], s[i + 1], reactionType)
      {
        if i > 0 {
          assert s[i] == s[1..][i - 1] && s[i + 1] == s[1..][i];
        }
      }
    }
    if Inert(s, reactionType) {
      forall i | 0 <= i < |s[1..]| - 1
        ensures !WillReactSingleLetter(s[1..][i], s[1..][i + 1], reactionType)
      {
        assert s[1..][i] == s[i + 1] && s[1..][i + 1] == s[i + 2];
      }
    }
  }

  /** A scan keeps every unit exactly when nothing can react, and then returns its input. */
  lemma {:induction false} ScanKeepsAll(s: string, reactionType: ReactionType)
    ensures |Scan(s, reactionType)| == |s| <==> Inert(s, reactionType)
    ensures Inert(s, reactionType) ==> Scan(s, reactionType) == s
    decreases |s|
  {
    if |s| > 1 {
      InertCons(s, reactionType);
      if WillReactSingleLetter(s[0], s[1], reactionType) {
        assert |Scan(s, reactionType)| <= |s| - 2;
      } else {
        ScanKeepsAll(s[1..], reactionType);
        if Inert(s, reactionType) {
          assert Scan(s, reactionType) == [s[0]] + s[1..] == s;
        }
      }
    }
  }

  /** The facts above, together. */
  lemma ScanShape(s: string, reactionType: ReactionType)
    ensures SubsequenceOf(Scan(s, reactionType), s)
    ensures (|s| - |Scan(s, reactionType)|) % 2 == 0
    ensures |Scan(s, reactionType)| == |s| <==> Inert(s, reactionType)
    ensures Inert(s, reactionType) ==> Scan(s, reactionType) == s
  {
    ScanSubsequence(s, reactionType);
    ScanParity(s, reactionType);
    ScanKeepsAll(s, reactionType);
  }

  /** A pass keeps a subsequence of the polymer, shorter by an even number of units unless it was one unit long. */
  lemma PassShape(s: string, reactionType: ReactionType)
    ensures SubsequenceOf(Pass(s, reactionType), s)
    ensures |s| != 1 ==> (|s| - |Pass(s, reactionType)|) % 2 == 0
    ensures |Pass(s, reactionType)| == |s| <==> |s| != 1 && Inert(s, reactionType)
    ensures |Pass(s, reactionType)| == |s| ==> Pass(s, reactionType) == s
  {
    ScanShape(s, reactionType);
  }

  lemma {:induction false} SubsequenceRefl(s: string)
    ensures SubsequenceOf(s, s)
    decreases |s|
  {
    if |s| > 0 {
      SubsequenceRefl(s[1..]);
    }
  }

  lemma {:induction false} SubsequenceTrans(a: string, b: string, c: string)
    requires SubsequenceOf(a, b) && SubsequenceOf(b, c)
    ensures SubsequenceOf(a, c)
    decreases |c|
  {
    if |a| > 0 {
      if SubsequenceOf(b, c[1..]) {
        SubsequenceTrans(a, b, c[1..]);
      } else if a[0] == b[0] && SubsequenceOf(a[1..], b[1..]) {
        SubsequenceTrans(a[1..], b[1..], c[1..]);
      } else {
        SubsequenceTrans(a, b[1..], c[1..]);
      }
    }
  }

  /**
   * The pass loop: walks the units with an index, skipping two on a
   * reaction and keeping one otherwise, and keeps the last unit when the
   * index lands on it.
   */
  method ReactSingleLetter(input: string, reactionType: ReactionType) returns (result: string)
    ensures result == Pass(input, reactionType)
  {
    if |input| == 0 {
      return "";
    }
    var chars := input;
    result := "";
    var i := 0;
    while i < |chars| - 1
      invariant 0 <= i <= |chars|
      invariant i < |chars| - 1 ==> result + Scan(chars[i..], reactionType) == Pass(chars, reactionType)
      invariant i >= |chars| - 1 ==> result == Pass(chars, reactionType)
      decreases |chars| - i
    {
      ghost var (i0, result0) := (i, result);
      var c1 := chars[i];
      var c2 := chars[i + 1];
      ghost var reacts := WillReactSingleLetter(c1, c2, reactionType);
      if WillReactSingleLetter(c1, c2, reactionType) {
        i := i + 2;
      } else {
        result := result + [c1];
        i := i + 1;
      }
      var nextCharIsLast := i == |chars| - 1;
      if nextCharIsLast {
        result := result + [chars[i]];
      }
      if reacts {
        PassStepDrop(chars, reactionType, i0, result0, result);
      } else {
        PassStepKeep(chars, reactionType, i0, result0, result);
      }
    }
  }

  /**
   * One iteration of the pass loop that drops a reacting pair keeps its
   * invariant: the output so far followed by the scan of the rest is the
   * whole pass.
   */
  lemma PassStepDrop(chars: string, reactionType: ReactionType, i: nat, result: string, result': string)
    requires i < |chars| - 1 && result + Scan(chars[i..], reactionType) == Pass(chars, reactionType)
    requires WillReactSingleLetter(chars[i], chars[i + 1], reactionType)
    requires result' == if i + 2 == |chars| - 1 then result + [chars[i + 2]] else result
    ensures i + 2 < |chars| - 1 ==> result' + Scan(chars[i + 2..], reactionType) == Pass(chars, reactionType)
    ensures i + 2 >= |chars| - 1 ==> result' == Pass(chars, reactionType)
  {
    ScanSuffix(chars, i, reactionType);
    if i + 2 >= |chars| - 1 {
      ScanShort(chars, i + 2, reactionType);
    }
  }

  /** The same for an iteration that keeps a unit. */
  lemma PassStepKeep(chars: string, reactionType: ReactionType, i: nat, result: string, result': string)
    requires i < |chars| - 1 && result + Scan(chars[i..], reactionType) == Pass(chars, reactionType)
    requires !WillReactSingleLetter(chars[i], chars[i + 1], reactionType)
    requires result' == if i + 1 == |chars| - 1 then result + [chars[i]] + [chars[i + 1]] else result + [chars[i]]
    ensures i + 1 < |chars| - 1 ==> result' + Scan(chars[i + 1..], reactionType) == Pass(chars, reactionType)
    ensures i + 1 >= |chars| - 1 ==> result' == Pass(chars, reactionType)
  {
    ScanSuffix(chars, i, reactionType);
    AppendAssoc(result, [chars[i]], Scan(chars[i + 1..], reactionType));
    if i + 1 >= |chars| - 1 {
      ScanShort(chars, i + 1, reactionType);
    }
  }

  /** One step of the scan, `i` units in. */
  lemma ScanSuffix(s: string, i: nat, reactionType: ReactionType)
    requires i < |s| - 1
    ensures Scan(s[i..], reactionType)
            == if WillReactSingleLetter(s[i], s[i + 1], reactionType) then Scan(s[i + 2..], reactionType)
               else [s[i]] + Scan(s[i + 1..], reactionType)
  {
    assert s[i..][1..] == s[i + 1..];
    assert s[i..][2..] == s[i + 2..];
  }

  /** The scan of the last unit, or of nothing. */
  lemma ScanShort(s: string, i: nat, reactionType: ReactionType)
    requires |s| - 1 <= i <= |s|
    ensures Scan(s[i..], reactionType) == s[i..]
    ensures i == |s| - 1 ==> s[i..] == [s[i]]
  {
  }

  method React(input: string) returns (result: string)
    ensures result == Pass(input, Any)
  {
    result := ReactSingleLetter(input, Any);
  }

  /**
   * A pass is local: cutting the polymer where the units on either side of
   * the cut do not react, the pieces can be scanned separately.
   */
  lemma {:induction false} ScanAppend(a: string, b: string, reactionType: ReactionType)
    requires |a| > 0 && |b| > 0 ==> !WillReactSingleLetter(a[|a| - 1], b[0], reactionType)
    ensures Scan(a + b, reactionType) == Scan(a, reactionType) + Scan(b, reactionType)
    decreases |a|, 1
  {
    if |a| == 0 {
      assert a + b == b;
    } else if |a| == 1 {
      if |b| > 0 {
        assert (a + b)[1..] == b;
      }
    } else if WillReactSingleLetter(a[0], a[1], reactionType) {
      var ab := a + b;
      assert ab[0] == a[0] && ab[1] == a[1];
      assert ab[2..] == a[2..] + b;
      if |a| > 2 {
        assert a[2..][|a[2..]| - 1] == a[|a| - 1];
      }
      ScanAppend(a[2..], b, reactionType);
    } else {
      ScanAppendKeep(a, b, reactionType);
    }
  }

  /** `ScanAppend` when the first unit of `a` is kept. */
  lemma {:induction false} ScanAppendKeep(a: string, b: string, reactionType: ReactionType)
    requires |a| > 1 && !WillReactSingleLetter(a[0], a[1], reactionType)
    requires |b| > 0 ==> !WillReactSingleLetter(a[|a| - 1], b[0], reactionType)
    ensures Scan(a + b, reactionType) == Scan(a, reactionType) + Scan(b, reactionType)
    decreases |a|, 0
  {
    var ab := a + b;
    var t := a[1..];
    assert ab[0] == a[0] && ab[1] == a[1];
    assert ab[1..] == t + b;
    assert t[|t| - 1] == a[|a| - 1];
    ScanAppend(t, b, reactionType);
    assert Scan(ab, reactionType) == [a[0]] + (Scan(t, reactionType) + Scan(b, reactionType));
    AppendAssoc([a[0]], Scan(t, reactionType), Scan(b, reactionType));
  }

  /** The unit tests of a single pass where nothing or everything reacts. */
  lemma PassExamples()
    ensures Pass("", Any) == ""
    ensures Pass("aA", Any) == ""
    ensures Pass("abab", Any) == "abab"
    ensures Pass("ababa", Any) == "ababa"
  {
  }

  /** The unit tests of a single pass where one pair reacts. */
  lemma PassExamplesOnePair()
    ensures Pass("aAb", Any) == "b"
    ensures Pass("baA", Any) == "b"
    ensures Pass("bbaA", Any) == "bb"
    ensures Pass("bbaAb", Any) == "bbb"
  {
  }

  /** A one-unit polymer does not survive a pass. */
  lemma PassOfOneUnit(c: char, reactionType: ReactionType)
    ensures Pass([c], reactionType) == ""
  {
  }

  // ---------------------------------------------------------------------
  // The chain reaction
  // ---------------------------------------------------------------------

  /** Repeats passes until a pass leaves the length unchanged. */
  function Chain(s: string, reactionType: ReactionType): (r: string)
    decreases |s|
  {
    var next := Pass(s, reactionType);
    if |next| == |s| then next else Chain(next, reactionType)
  }

  /** The recursive driver, proved to compute `Chain`. */
  method ChainReactSingleLetter(input: string, reactionType: ReactionType) returns (result: string)
    ensures result == Chain(input, reactionType)
    decreases |input|
  {
    result := ReactSingleLetter(input, reactionType);
    if |result| != |input| {
      result := ChainReactSingleLetter(result, reactionType);
    }
  }

  method ChainReact(input: string) returns (result: string)
    ensures result == Chain(input, Any)
  {
    result := ChainReactSingleLetter(input, Any);
  }

  /**
   * The chain reaction ends on an inert polymer that a further pass leaves
   * as it is, and that polymer is a subsequence of the input.
   */
  lemma {:induction false} ChainSettles(s: string, reactionType: ReactionType)
    ensures Inert(Chain(s, reactionType), reactionType)
    ensures Pass(Chain(s, reactionType), reactionType) == Chain(s, reactionType)
    ensures SubsequenceOf(Chain(s, reactionType), s)
    decreases |s|
  {
    var next := Pass(s, reactionType);
    PassShape(s, reactionType);
    if |next| != |s| {
      ChainSettles(next, reactionType);
      SubsequenceTrans(Chain(next, reactionType), next, s);
    }
  }

  // The two puzzle examples. Each polymer is cut into short pieces with no
  // reaction across the cuts (`ScanAppend`), and each piece is scanned on
  // its own.

  /** The pieces of the first example's first pass, scanned on their own. */
  lemma ScannedPiecesFirst()
    ensures Scan("dab", Any) == "dab"
    ensures Scan("AcCa", Any) == "Aa"
    ensures Scan("CBA", Any) == "CBA"
    ensures Scan("cCca", Any) == "ca"
    ensures Scan("DA", Any) == "DA"
  {
  }

  /** The pieces of the first example's later passes, scanned on their own. */
  lemma ScannedPiecesFirstLater()
    ensures Scan("dab", Any) == "dab"
    ensures Scan("Aa", Any) == ""
    ensures Scan("CBA", Any) == "CBA"
    ensures Scan("caDA", Any) == "caDA"
  {
  }

  /** The pieces of the second example's first pass, scanned on their own. */
  lemma ScannedPiecesSecond()
    ensures Scan("hHsSmM", Any) == ""
    ensures Scan("HhhHwW", Any) == ""
    ensures Scan("lLoj", Any) == "oj"
    ensures Scan("YCc", Any) == "Y"
    ensures Scan("lLy", Any) == "y"
  {
  }

  /** The pieces of the second example's later passes, scanned on their own. */
  lemma ScannedPiecesSecondLater()
    ensures Scan("oj", Any) == "oj"
    ensures Scan("Yy", Any) == ""
  {
  }

  /** Scanning three pieces cut where nothing reacts across the cuts. */
  lemma ScanThree(a: string, b: string, c: string, reactionType: ReactionType)
    requires |a| > 0 && |b| > 0 && |c| > 0
    requires !WillReactSingleLetter(a[|a| - 1], b[0], reactionType)
    requires !WillReactSingleLetter(b[|b| - 1], c[0], reactionType)
    ensures Scan(a + b + c, reactionType) == Scan(a, reactionType) + Scan(b, reactionType) + Scan(c, reactionType)
  {
    ScanAppend(a, b, reactionType);
    ScanAppend(a + b, c, reactionType);
  }

  /** The scanned pieces of each pass, joined up. */
  lemma JoinedPieces()
    ensures "dab" + "Aa" + "CBA" + "ca" + "DA" == "dabAaCBAcaDA"
    ensures "dab" + "" + "CBA" + "caDA" == "dabCBAcaDA"
    ensures "" + "" + "oj" + "Y" + "y" == "ojYy"
  {
  }

  lemma Example1Pass1(s: string, a: string, b: string, c: string, d: string, e: string)
    requires s == "dabAcCaCBAcCcaDA"
    requires a == "dab" && b == "AcCa" && c == "CBA" && d == "cCca" && e == "DA"
    ensures Pass(s, Any) == "dabAaCBAcaDA"
  {
    assert s == (a + b + c) + d + e;
    ScanThree(a, b, c, Any);
    ScanThree(a + b + c, d, e, Any);
    ScannedPiecesFirst();
    JoinedPieces();
  }

  lemma Example1Pass2(s: string, a: string, b: string, c: string, d: string)
    requires s == "dabAaCBAcaDA"
    requires a == "dab" && b == "Aa" && c == "CBA" && d == "caDA"
    ensures Pass(s, Any) == "dabCBAcaDA"
  {
    assert s == (a + b + c) + d;
    ScanThree(a, b, c, Any);
    ScanAppend(a + b + c, d, Any);
    ScannedPiecesFirstLater();
    JoinedPieces();
  }

  lemma Example1Pass3(s: string, a: string, b: string, c: string)
    requires s == "dabCBAcaDA"
    requires a == "dab" && b == "CBA" && c == "caDA"
    ensures Pass(s, Any) == s
  {
    assert s == a + b + c;
    ScanThree(a, b, c, Any);
    ScannedPiecesFirstLater();
  }

  /** The first puzzle example: three passes, the last of which changes nothing. */
  lemma ChainExample(s: string)
    requires s == "dabAcCaCBAcCcaDA"
    ensures Chain(s, Any) == "dabCBAcaDA"
  {
    var dab, cba := "dab", "CBA";
    Example1Pass1(s, dab, "AcCa", cba, "cCca", "DA");
    var p1 := Pass(s, Any);
    Example1Pass2(p1, dab, "Aa", cba, "caDA");
    var p2 := Pass(p1, Any);
    Example1Pass3(p2, dab, cba, "caDA");
    assert Chain(s, Any) == Chain(p1, Any) == Chain(p2, Any) == p2;
  }

  lemma Example2Pass1(s: string, a: string, b: string, c: string, d: string, e: string)
    requires s == "hHsSmMHhhHwWlLojYCclLy"
    requires a == "hHsSmM" && b == "HhhHwW" && c == "lLoj" && d == "YCc" && e == "lLy"
    ensures Pass(s, Any) == "ojYy"
  {
    assert s == (a + b + c) + d + e;
    ScanThree(a, b, c, Any);
    ScanThree(a + b + c, d, e, Any);
    ScannedPiecesSecond();
    JoinedPieces();
  }

  lemma Example2Pass2(s: string, a: string, b: string)
    requires s == "ojYy" && a == "oj" && b == "Yy"
    ensures Pass(s, Any) == "oj"
  {
    assert s == a + b;
    ScanAppend(a, b, Any);
    ScannedPiecesSecondLater();
  }

  /** The second puzzle example. */
  lemma ChainExample2(s: string)
    requires s == "hHsSmMHhhHwWlLojYCclLy"
    ensures Chain(s, Any) == "oj"
  {
    Example2Pass1(s, "hHsSmM", "HhhHwW", "lLoj", "YCc", "lLy");
    var p1 := Pass(s, Any);
    var oj := "oj";
    Example2Pass2(p1, oj, "Yy");
    var p2 := Pass(p1, Any);
    ScannedPiecesSecondLater();
    assert Chain(s, Any) == Chain(p1, Any) == Chain(p2, Any) == p2;
  }

  // ---------------------------------------------------------------------
  // The chain reaction as evidently intended
  // ---------------------------------------------------------------------

  /** Repeats scans (which keep a lone unit) until nothing more reacts. */
  function FullyReacted(s: string, reactionType: ReactionType): (r: string)
    decreases |s|
  {
    var next := Scan(s, reactionType);
    if |next| == |s| then next else FullyReacted(next, reactionType)
  }

  /**
   * The intended result: an inert subsequence of the input, obtained by
   * deleting reacting pairs, so shorter by an even number of units.
   */
  lemma {:induction false} FullyReactedSettles(s: string, reactionType: ReactionType)
    ensures Inert(FullyReacted(s, reactionType), reactionType)
    ensures Scan(FullyReacted(s, reactionType), reactionType) == FullyReacted(s, reactionType)
    ensures SubsequenceOf(FullyReacted(s, reactionType), s)
    ensures (|s| - |FullyReacted(s, reactionType)|) % 2 == 0
    decreases |s|
  {
    var next := Scan(s, reactionType);
    ScanShape(s, reactionType);
    if |next| != |s| {
      FullyReactedSettles(next, reactionType);
      SubsequenceTrans(FullyReacted(next, reactionType), next, s);
    }
  }

  /**
   * The chain reaction as written agrees with the intended one, except
   * that where the intended result is a single unit it returns nothing.
   */
  lemma {:induction false} ChainVersusFullyReacted(s: string, reactionType: ReactionType)
    ensures Chain(s, reactionType)
            == if |FullyReacted(s, reactionType)| == 1 then "" else FullyReacted(s, reactionType)
    decreases |s|
  {
    if |s| == 1 {
      assert Chain("", reactionType) == "";
    } else {
      var next := Scan(s, reactionType);
      if |next| != |s| {
        ChainVersusFullyReacted(next, reactionType);
      }
    }
  }

  /** "aAb" reacts to "b", but the chain reaction as written then passes over "b" and returns "". */
  lemma ChainDropsLastUnit()
    ensures Chain("aAb", Any) == ""
    ensures FullyReacted("aAb", Any) == "b"
  {
    assert Pass("aAb", Any) == "b";
    assert Pass("b", Any) == "";
    assert Scan("b", Any) == "b";
  }
}
