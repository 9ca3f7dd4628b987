/**
 * Day 9 ("Marble Mania"): a circle of marbles that players extend in turn.
 *
 * The circle is a vector read clockwise from index 0. Each turn places the
 * next marble: normally it is inserted two places clockwise of the current
 * marble; a marble whose value is a multiple of 23 is instead kept by the
 * player, who also takes the marble seven places counter-clockwise, and
 * scores both.
 */
module MarbleMania {

  /** A snapshot of the circle: the marbles, the current marble's index and the last value placed. */
  datatype Circle = Circle(marbles: seq<nat>, active: nat, last: nat)

  /** The circle before the first turn: only marble 0, which is current. */
  function NewCircle(): Circle
  {
    Circle([0], 0, 0)
  }

  /** Two places clockwise of `active`, wrapping once around a circle of `len` marbles. */
  function InsertIndex(active: nat, len: nat): nat
  {
    if active + 2 > len then active + 2 - len else active + 2
  }

  /** Seven places counter-clockwise of `active`, wrapping once around a circle of `len` marbles. */
  function RemoveIndex(active: nat, len: nat): int
  {
    if active - 7 < 0 then len + active - 7 else active - 7
  }

  /** No marble value occurs twice. */
  ghost predicate Distinct(s: seq<nat>)
  {
    forall i, j :: 0 <= i < j < |s| ==> s[i] != s[j]
  }

  /** How many of the values 1..`last` are multiples of 23, that is, how many turns scored. */
  function Scored(last: nat): (n: nat)
  {
    if last == 0 then 0
    else Scored(last - 1) + (if last % 23 == 0 then 1 else 0)
  }

  /** `Scored(last)` is the quotient of `last` by 23. */
  lemma {:induction false} ScoredQuotient(last: nat)
    ensures 23 * Scored(last) + last % 23 == last
  {
    if last > 0 {
      ScoredQuotient(last - 1);
    }
  }

  /**
   * The invariant of every circle reachable from `NewCircle`: each placed
   * marble adds one and each scoring turn removes one, so the size is fixed by
   * the last value; the current index stays inside the circle (or just past
   * its end), which keeps both index computations in range; and the marbles
   * are distinct values already placed.
   */
  ghost predicate ValidCircle(c: Circle)
  {
    && |c.marbles| == 1 + c.last - 2 * Scored(c.last)
    && c.active <= |c.marbles|
    && c.active + 2 <= 2 * |c.marbles|
    && Distinct(c.marbles)
    && (forall i :: 0 <= i < |c.marbles| ==> c.marbles[i] <= c.last)
  }

  /** On a scoring turn the circle holds at least 23 marbles. */
  lemma ScoringCircleSize(c: Circle)
    requires ValidCircle(c) && (c.last + 1) % 23 == 0
    ensures |c.marbles| >= 23
  {
    ScoredQuotient(c.last);
  }

  /** `s` with `x` inserted before index `k`, as `Vec::insert` does. */
  function InsertAt(s: seq<nat>, k: nat, x: nat): (r: seq<nat>)
    requires k <= |s|
    ensures |r| == |s| + 1 && r[k] == x
    ensures forall i :: 0 <= i < k ==> r[i] == s[i]
    ensures forall i :: k < i < |r| ==> r[i] == s[i - 1]
  {
    s[..k] + [x] + s[k..]
  }

  /** `s` without its element at index `k`, as `Vec::remove` does. */
  function RemoveAt(s: seq<nat>, k: nat): (r: seq<nat>)
    requires k < |s|
    ensures |r| == |s| - 1
    ensures forall i :: 0 <= i < k ==> r[i] == s[i]
    ensures forall i :: k <= i < |r| ==> r[i] == s[i + 1]
  {
    s[..k] + s[k + 1..]
  }

  /** A quiet turn keeps the invariant. */
  lemma InsertKeepsValid(c: Circle)
    requires ValidCircle(c) && (c.last + 1) % 23 != 0
    ensures var k := InsertIndex(c.active, |c.marbles|);
      k <= |c.marbles| && ValidCircle(Circle(InsertAt(c.marbles, k, c.last + 1), k, c.last + 1))
  {
    var k := InsertIndex(c.active, |c.marbles|);
    var r := InsertAt(c.marbles, k, c.last + 1);
    forall i, j | 0 <= i < j < |r| ensures r[i] != r[j] {
      if i != k && j != k {
        assert r[i] == c.marbles[if i < k then i else i - 1];
        assert r[j] == c.marbles[if j < k then j else j - 1];
      }
    }
  }

  /** A scoring turn keeps the invariant. */
  lemma RemoveKeepsValid(c: Circle)
    requires ValidCircle(c) && (c.last + 1) % 23 == 0
    ensures var k := RemoveIndex(c.active, |c.marbles|);
      0 <= k < |c.marbles| && ValidCircle(Circle(RemoveAt(c.marbles, k), k, c.last + 1))
  {
    ScoringCircleSize(c);
    var k := RemoveIndex(c.active, |c.marbles|);
    var r := RemoveAt(c.marbles, k);
    forall i, j | 0 <= i < j < |r| ensures r[i] != r[j] {
      assert r[i] == c.marbles[if i < k then i else i + 1];
      assert r[j] == c.marbles[if j < k then j else j + 1];
    }
    forall i | 0 <= i < |r| ensures r[i] <= c.last + 1 {
      assert r[i] == c.marbles[if i < k then i else i + 1];
    }
  }

  /**
   * One turn: the next marble is inserted two places clockwise and becomes
   * current, scoring nothing; or, when it is a multiple of 23, the marble
   * seven places counter-clockwise is taken out, its index becomes the
   * current one, and the turn scores both values. An index out of range,
   * where `Vec::insert` or `Vec::remove` would panic, only arises on circles
   * that break `ValidCircle`; there the circle is left as it is.
   */
  function Place(c: Circle): (r: (Circle, nat))
    ensures r.0 == c || r.0.last == c.last + 1
    ensures r.0 != c ==> |r.0.marbles| == if (c.last + 1) % 23 == 0 then |c.marbles| - 1 else |c.marbles| + 1
    ensures r.1 > 0 <==> (c.last + 1) % 23 == 0 && r.0 != c
  {
    var m := c.last + 1;
    if m % 23 == 0 then
      var k := RemoveIndex(c.active, |c.marbles|);
      if 0 <= k < |c.marbles| then (Circle(RemoveAt(c.marbles, k), k, m), m + c.marbles[k])
      else (c, 0)
    else
      var k := InsertIndex(c.active, |c.marbles|);
      if k <= |c.marbles| then (Circle(InsertAt(c.marbles, k, m), k, m), 0)
      else (c, 0)
  }

  /**
   * A turn keeps the invariant, places the next value, and either inserts it
   * two places clockwise scoring nothing, or removes the marble seven places
   * counter-clockwise scoring it together with the value not placed.
   */
  lemma PlaceSpec(c: Circle)
    requires ValidCircle(c)
    ensures var r := Place(c);
      ValidCircle(r.0) && r.0.last == c.last + 1
    ensures var r := Place(c);
      (c.last + 1) % 23 != 0 ==>
      var k := InsertIndex(c.active, |c.marbles|);
      && k <= |c.marbles| && r.0.marbles == InsertAt(c.marbles, k, c.last + 1)
      && |r.0.marbles| == |c.marbles| + 1 && r.0.active == k && r.1 == 0
    ensures var r := Place(c);
      (c.last + 1) % 23 == 0 ==>
      var k := RemoveIndex(c.active, |c.marbles|);
      && 0 <= k < |c.marbles| && r.0.marbles == RemoveAt(c.marbles, k)
      && |r.0.marbles| == |c.marbles| - 1 && r.0.active == k && r.1 == c.last + 1 + c.marbles[k]
  {
    if (c.last + 1) % 23 == 0 {
      RemoveKeepsValid(c);
    } else {
      InsertKeepsValid(c);
    }
  }

  /** The circle after `n` rounds of `turn` from `c`, with the score of each round in order. */
  function Play(turn: Circle -> (Circle, nat), c: Circle, n: nat): (r: (Circle, seq<nat>))
    ensures |r.1| == n
  {
    if n == 0 then (c, [])
    else
      var prev := Play(turn, c, n - 1);
      var next := turn(prev.0);
      (next.0, prev.1 + [next.1])
  }

  /** The score of round i (from 0) is that of `turn` on the circle left by the first i rounds. */
  lemma {:induction false} PlayScore(turn: Circle -> (Circle, nat), c: Circle, n: nat, i: nat)
    requires i < n
    ensures Play(turn, c, n).1[i] == turn(Play(turn, c, i).0).1
  {
    var prev := Play(turn, c, n - 1);
    var score := turn(prev.0).1;
    assert Play(turn, c, n).1 == prev.1 + [score];
    if i < n - 1 {
      PlayScore(turn, c, n - 1, i);
      assert (prev.1 + [score])[i] == prev.1[i];
    }
  }

  /** The circle after `n` turns from `c`, with the score of each turn in order. */
  function PlaceMany(c: Circle, n: nat): (r: (Circle, seq<nat>))
    ensures |r.1| == n
  {
    Play(Place, c, n)
  }

  /** Turns from a valid circle keep it valid and place one value each. */
  lemma {:induction false} PlaceManyValid(c: Circle, n: nat)
    requires ValidCircle(c)
    ensures ValidCircle(PlaceMany(c, n).0) && PlaceMany(c, n).0.last == c.last + n
  {
    if n > 0 {
      PlaceManyValid(c, n - 1);
      PlaceSpec(PlaceMany(c, n - 1).0);
    }
  }

  /** The score of turn i (from 0) is that of the turn played on the circle left by the first i turns. */
  lemma ScoreOfTurn(c: Circle, n: nat, i: nat)
    requires i < n
    ensures PlaceMany(c, n).1[i] == Place(PlaceMany(c, i).0).1
  {
    PlayScore(Place, c, n, i);
  }

  /** The circle object whose fields each turn updates in place. */
  class MarbleCircle {
    var circle: seq<nat>
    var activeMarbleIndex: nat
    var lastMarblePlaced: nat

    function Snapshot(): Circle
      reads this
    {
      Circle(circle, activeMarbleIndex, lastMarblePlaced)
    }

    ghost predicate Valid()
      reads this
    {
      ValidCircle(Snapshot())
    }

    constructor ()
      ensures Valid() && circle == [0] && activeMarbleIndex == 0 && lastMarblePlaced == 0
    {
      circle := [0];
      activeMarbleIndex := 0;
      lastMarblePlaced := 0;
    }

    /** Plays one turn and returns its score. */
    method PlaceNextMarble() returns (score: nat)
      requires Valid()
      modifies this
      ensures Valid()
      ensures Snapshot() == Place(old(Snapshot())).0 && score == Place(old(Snapshot())).1
    {
      ghost var before := Snapshot();
      var marble := lastMarblePlaced + 1;
      if marble % 23 == 0 {
        RemoveKeepsValid(before);
        var removedIndex := activeMarbleIndex - 7;
        if removedIndex < 0 {
          removedIndex := |circle| + removedIndex;
        }
        assert removedIndex == RemoveIndex(before.active, |before.marbles|);
        ScoringTurn(before, RemoveAt(circle, removedIndex));
        var removed := circle[removedIndex];
        circle := RemoveAt(circle, removedIndex);
        activeMarbleIndex := removedIndex;
        score := marble + removed;
      } else {
        InsertKeepsValid(before);
        var nextIndex := activeMarbleIndex + 2;
        if nextIndex > |circle| {
          nextIndex := nextIndex - |circle|;
        }
        assert nextIndex == InsertIndex(before.active, |before.marbles|);
        QuietTurn(before, InsertAt(circle, nextIndex, marble));
        circle := InsertAt(circle, nextIndex, marble);
        activeMarbleIndex := nextIndex;
        score := 0;
      }
      lastMarblePlaced := marble;
    }
  }

  /** The largest value of a non-empty sequence. */
  function Max(s: seq<nat>): (m: nat)
    requires |s| > 0
    ensures m in s && forall i :: 0 <= i < |s| ==> s[i] <= m
  {
    if |s| == 1 then s[0]
    else
      var rest := Max(s[1..]);
      assert forall i :: 1 <= i < |s| ==> s[i] == s[1..][i - 1];
      if s[0] >= rest then s[0] else rest
  }

  /**
   * Each player's total, and the player whose turn is next, after the turns
   * that scored `scores`: the first turn goes to player 0 and each later turn
   * to the next player round the table.
   */
  function Credit(numPlayers: nat, scores: seq<nat>): (r: (seq<nat>, nat))
    requires numPlayers > 0
    ensures |r.0| == numPlayers && r.1 < numPlayers
  {
    if scores == [] then (seq(numPlayers, _ => 0), 0)
    else
      var prev := Credit(numPlayers, scores[..|scores| - 1]);
      var (totals, player) := prev;
      (totals[player := totals[player] + scores[|scores| - 1]], (player + 1) % numPlayers)
  }

  /** Crediting one more score adds it to the total of the player whose turn it was. */
  lemma CreditSnoc(numPlayers: nat, scores: seq<nat>, score: nat)
    requires numPlayers > 0
    ensures var prev := Credit(numPlayers, scores);
      Credit(numPlayers, scores + [score]).0 == prev.0[prev.1 := prev.0[prev.1] + score] &&
      Credit(numPlayers, scores + [score]).1 == (prev.1 + 1) % numPlayers
  {
    assert (scores + [score])[..|scores|] == scores;
  }

  /** The turn after `k` turns goes to player k mod `numPlayers`. */
  lemma {:induction false} CreditPlayer(numPlayers: nat, scores: seq<nat>)
    requires numPlayers > 0
    ensures Credit(numPlayers, scores).1 == |scores| % numPlayers
  {
    if scores != [] {
      var k := |scores| - 1;
      CreditPlayer(numPlayers, scores[..k]);
      NextPlayer(k, numPlayers);
    }
  }

  /** Stepping round the table from player k mod n reaches (k + 1) mod n. */
  lemma NextPlayer(k: nat, n: nat)
    requires n > 0
    ensures (k % n + 1) % n == (k + 1) % n
  {
    var q, r := k / n, k % n;
    assert k == q * n + r;
    if r + 1 < n {
      ModOf(k + 1, n, q, r + 1);
      ModOf(r + 1, n, 0, r + 1);
    } else {
      assert k + 1 == (q + 1) * n;
      ModOf(k + 1, n, q + 1, 0);
      ModOf(r + 1, n, 1, 0);
    }
  }

  /** The remainder of q * n + r is r when 0 <= r < n. */
  lemma ModOf(a: nat, n: nat, q: nat, r: nat)
    requires n > 0 && r < n && a == q * n + r
    ensures a % n == r
  {
    var q', r' := a / n, a % n;
    assert a == q' * n + r';
    if q' < q {
      MulLe(q' + 1, q, n);
    } else if q' > q {
      MulLe(q + 1, q', n);
    }
  }

  /** Multiplying by a natural number keeps the order. */
  lemma {:induction false} MulLe(a: nat, b: nat, n: nat)
    requires a <= b
    ensures a * n <= b * n
    decreases b - a
  {
    if a < b {
      MulLe(a, b - 1, n);
      assert b * n == (b - 1) * n + n;
    }
  }

  /** The sum of a sequence of scores. */
  function Sum(s: seq<nat>): nat
  {
    if s == [] then 0 else Sum(s[..|s| - 1]) + s[|s| - 1]
  }

  /** No element exceeds the sum. */
  lemma {:induction false} ElementAtMostSum(s: seq<nat>, k: nat)
    requires k < |s|
    ensures s[k] <= Sum(s)
  {
    if k < |s| - 1 {
      ElementAtMostSum(s[..|s| - 1], k);
    }
  }

  /** A sequence that is zero except at one index sums to the value there. */
  lemma {:induction false} SumSingle(s: seq<nat>, k: nat)
    requires k < |s| && forall i :: 0 <= i < |s| && i != k ==> s[i] == 0
    ensures Sum(s) == s[k]
  {
    if k < |s| - 1 {
      SumSingle(s[..|s| - 1], k);
    } else {
      SumZero(s[..|s| - 1]);
    }
  }

  /** A sequence of zeros sums to zero. */
  lemma {:induction false} SumZero(s: seq<nat>)
    requires forall i :: 0 <= i < |s| ==> s[i] == 0
    ensures Sum(s) == 0
  {
    if s != [] {
      SumZero(s[..|s| - 1]);
    }
  }

  /** Adding x to one element adds x to the sum. */
  lemma {:induction false} SumAdd(s: seq<nat>, k: nat, x: nat)
    requires k < |s|
    ensures Sum(s[k := s[k] + x]) == Sum(s) + x
  {
    var t := s[k := s[k] + x];
    var n := |s| - 1;
    if k == n {
      assert t[..n] == s[..n];
    } else {
      assert t[..n] == s[..n][k := s[k] + x];
      SumAdd(s[..n], k, x);
    }
  }

  /** Crediting loses and invents no points: the totals add up to the scores. */
  lemma {:induction false} CreditConserves(numPlayers: nat, scores: seq<nat>)
    requires numPlayers > 0
    ensures Sum(Credit(numPlayers, scores).0) == Sum(scores)
  {
    if scores == [] {
      SumZero(Credit(numPlayers, scores).0);
    } else {
      var prev := scores[..|scores| - 1];
      CreditConserves(numPlayers, prev);
      var (totals, player) := Credit(numPlayers, prev);
      SumAdd(totals, player, scores[|scores| - 1]);
    }
  }

  /** The score of turn j counts towards the total of player j mod `numPlayers`. */
  lemma {:induction false} CreditAtLeast(numPlayers: nat, scores: seq<nat>, j: nat)
    requires numPlayers > 0 && j < |scores|
    ensures Credit(numPlayers, scores).0[j % numPlayers] >= scores[j]
  {
    var prev := scores[..|scores| - 1];
    if j == |scores| - 1 {
      CreditPlayer(numPlayers, prev);
    } else {
      CreditAtLeast(numPlayers, prev, j);
    }
  }

  /** Each player's total after `turns` turns of a game with `numPlayers` players. */
  function Totals(numPlayers: nat, turns: nat): (r: seq<nat>)
    requires numPlayers > 0
    ensures |r| == numPlayers
  {
    Credit(numPlayers, PlaceMany(NewCircle(), turns).1).0
  }

  /** Turn `turns` (from 0) adds its score to player `turns` mod `numPlayers`. */
  lemma TotalsStep(numPlayers: nat, turns: nat, players: seq<nat>, activePlayer: nat, score: nat)
    requires numPlayers > 0 && players == Totals(numPlayers, turns) && activePlayer == turns % numPlayers
    requires score == Place(PlaceMany(NewCircle(), turns).0).1
    ensures activePlayer < |players|
    ensures players[activePlayer := players[activePlayer] + score] == Totals(numPlayers, turns + 1)
    ensures (activePlayer + 1) % |players| == (turns + 1) % numPlayers
  {
    var scores := PlaceMany(NewCircle(), turns).1;
    CreditSnoc(numPlayers, scores, score);
    CreditPlayer(numPlayers, scores);
    NextPlayer(turns, numPlayers);
  }

  /**
   * Plays `maxMarbleValue` turns, crediting turn i (from 0) to player
   * i mod `numPlayers`, and returns the best total.
   */
  method Part1(numPlayers: nat, maxMarbleValue: nat) returns (best: nat)
    requires numPlayers > 0
    ensures best in Totals(numPlayers, maxMarbleValue)
    ensures forall i :: 0 <= i < numPlayers ==> Totals(numPlayers, maxMarbleValue)[i] <= best
  {
    var marbleCircle := new MarbleCircle();
    var players: seq<nat> := seq(numPlayers, _ => 0);
    var activePlayer: nat := 0;
    assert players == Totals(numPlayers, 0);
    for i := 0 to maxMarbleValue
      invariant marbleCircle.Valid() && marbleCircle.Snapshot() == PlaceMany(NewCircle(), i).0
      invariant players == Totals(numPlayers, i) && activePlayer == i % numPlayers
    {
      var score := marbleCircle.PlaceNextMarble();
      TotalsStep(numPlayers, i, players, activePlayer, score);
      players := players[activePlayer := players[activePlayer] + score];
      activePlayer := (activePlayer + 1) % |players|;
    }
    best := Max(players);
  }

  /** A quiet turn on a given circle, whose inserted sequence is given. */
  lemma QuietTurn(c: Circle, marbles: seq<nat>)
    requires (c.last + 1) % 23 != 0
    requires var k := InsertIndex(c.active, |c.marbles|);
      k <= |c.marbles| && marbles == InsertAt(c.marbles, k, c.last + 1)
    ensures Place(c).0 == Circle(marbles, InsertIndex(c.active, |c.marbles|), c.last + 1) && Place(c).1 == 0
  {
  }

  /** A scoring turn on a given circle, whose shortened sequence is given. */
  lemma ScoringTurn(c: Circle, marbles: seq<nat>)
    requires (c.last + 1) % 23 == 0
    requires var k := RemoveIndex(c.active, |c.marbles|);
      0 <= k < |c.marbles| && marbles == RemoveAt(c.marbles, k)
    ensures var k := RemoveIndex(c.active, |c.marbles|);
      Place(c).0 == Circle(marbles, k, c.last + 1) && Place(c).1 == c.last + 1 + c.marbles[k]
  {
  }

  /** The circle after a known run of `n` turns and then a known turn. */
  lemma ExtendCircle(c: Circle, n: nat, prev: Circle, next: Circle)
    requires PlaceMany(c, n).0 == prev && Place(prev).0 == next
    ensures PlaceMany(c, n + 1).0 == next
  {
  }

  lemma MarblesAfter1()
    ensures InsertAt([0], 1, 1) == [0, 1]
  {
  }

  lemma Turn1(c: Circle)
    requires c == Circle([0], 0, 0)
    ensures Place(c).0 == Circle([0, 1], 1, 1) && Place(c).1 == 0
  {
    MarblesAfter1();
    QuietTurn(c, [0, 1]);
  }

  lemma MarblesAfter2()
    ensures InsertAt([0, 1], 1, 2) == [0, 2, 1]
  {
  }

  lemma Turn2(c: Circle)
    requires c == Circle([0, 1], 1, 1)
    ensures Place(c).0 == Circle([0, 2, 1], 1, 2) && Place(c).1 == 0
  {
    MarblesAfter2();
    QuietTurn(c, [0, 2, 1]);
  }

  lemma MarblesAfter3()
    ensures InsertAt([0, 2, 1], 3, 3) == [0, 2, 1, 3]
  {
  }

  lemma Turn3(c: Circle)
    requires c == Circle([0, 2, 1], 1, 2)
    ensures Place(c).0 == Circle([0, 2, 1, 3], 3, 3) && Place(c).1 == 0
  {
    MarblesAfter3();
    QuietTurn(c, [0, 2, 1, 3]);
  }

  lemma MarblesAfter4()
    ensures InsertAt([0, 2, 1, 3], 1, 4) == [0, 4, 2, 1, 3]
  {
  }

  lemma Turn4(c: Circle)
    requires c == Circle([0, 2, 1, 3], 3, 3)
    ensures Place(c).0 == Circle([0, 4, 2, 1, 3], 1, 4) && Place(c).1 == 0
  {
    MarblesAfter4();
    QuietTurn(c, [0, 4, 2, 1, 3]);
  }

  lemma MarblesAfter5()
    ensures InsertAt([0, 4, 2, 1, 3], 3, 5) == [0, 4, 2, 5, 1, 3]
  {
  }

  lemma Turn5(c: Circle)
    requires c == Circle([0, 4, 2, 1, 3], 1, 4)
    ensures Place(c).0 == Circle([0, 4, 2, 5, 1, 3], 3, 5) && Place(c).1 == 0
  {
    MarblesAfter5();
    QuietTurn(c, [0, 4, 2, 5, 1, 3]);
  }

  lemma MarblesAfter6()
    ensures InsertAt([0, 4, 2, 5, 1, 3], 5, 6) == [0, 4, 2, 5, 1, 6, 3]
  {
  }

  lemma Turn6(c: Circle)
    requires c == Circle([0, 4, 2, 5, 1, 3], 3, 5)
    ensures Place(c).0 == Circle([0, 4, 2, 5, 1, 6, 3], 5, 6) && Place(c).1 == 0
  {
    MarblesAfter6();
    QuietTurn(c, [0, 4, 2, 5, 1, 6, 3]);
  }

  lemma MarblesAfter7()
    ensures InsertAt([0, 4, 2, 5, 1, 6, 3], 7, 7) == [0, 4, 2, 5, 1, 6, 3, 7]
  {
  }

  lemma Turn7(c: Circle)
    requires c == Circle([0, 4, 2, 5, 1, 6, 3], 5, 6)
    ensures Place(c).0 == Circle([0, 4, 2, 5, 1, 6, 3, 7], 7, 7) && Place(c).1 == 0
  {
    MarblesAfter7();
    QuietTurn(c, [0, 4, 2, 5, 1, 6, 3, 7]);
  }

  lemma MarblesAfter8()
    ensures InsertAt([0, 4, 2, 5, 1, 6, 3, 7], 1, 8) == [0, 8, 4, 2, 5, 1, 6, 3, 7]
  {
  }

  lemma Turn8(c: Circle)
    requires c == Circle([0, 4, 2, 5, 1, 6, 3, 7], 7, 7)
    ensures Place(c).0 == Circle([0, 8, 4, 2, 5, 1, 6, 3, 7], 1, 8) && Place(c).1 == 0
  {
    MarblesAfter8();
    QuietTurn(c, [0, 8, 4, 2, 5, 1, 6, 3, 7]);
  }

  lemma MarblesAfter9()
    ensures InsertAt([0, 8, 4, 2, 5, 1, 6, 3, 7], 3, 9) == [0, 8, 4, 9, 2, 5, 1, 6, 3, 7]
  {
  }

  lemma Turn9(c: Circle)
    requires c == Circle([0, 8, 4, 2, 5, 1, 6, 3, 7], 1, 8)
    ensures Place(c).0 == Circle([0, 8, 4, 9, 2, 5, 1, 6, 3, 7], 3, 9) && Place(c).1 == 0
  {
    MarblesAfter9();
    QuietTurn(c, [0, 8, 4, 9, 2, 5, 1, 6, 3, 7]);
  }

  lemma MarblesAfter10()
    ensures InsertAt([0, 8, 4, 9, 2, 5, 1, 6, 3, 7], 5, 10) == [0, 8, 4, 9, 2, 10, 5, 1, 6, 3, 7]
  {
  }

  lemma Turn10(c: Circle)
    requires c == Circle([0, 8, 4, 9, 2, 5, 1, 6, 3, 7], 3, 9)
    ensures Place(c).0 == Circle([0, 8, 4, 9, 2, 10, 5, 1, 6, 3, 7], 5, 10) && Place(c).1 == 0
  {
    MarblesAfter10();
    QuietTurn(c, [0, 8, 4, 9, 2, 10, 5, 1, 6, 3, 7]);
  }

  lemma MarblesAfter11()
    ensures InsertAt([0, 8, 4, 9, 2, 10, 5, 1, 6, 3, 7], 7, 11) == [0, 8, 4, 9, 2, 10, 5, 11, 1, 6, 3, 7]
  {
  }

  lemma Turn11(c: Circle)
    requires c == Circle([0, 8, 4, 9, 2, 10, 5, 1, 6, 3, 7], 5, 10)
    ensures Place(c).0 == Circle([0, 8, 4, 9, 2, 10, 5, 11, 1, 6, 3, 7], 7, 11) && Place(c).1 == 0
  {
    MarblesAfter11();
    QuietTurn(c, [0, 8, 4, 9, 2, 10, 5, 11, 1, 6, 3, 7]);
  }

  lemma MarblesAfter12()
    ensures InsertAt([0, 8, 4, 9, 2, 10, 5, 11, 1, 6, 3, 7], 9, 12) == [0, 8, 4, 9, 2, 10, 5, 11, 1, 12, 6, 3, 7]
  {
  }

  lemma Turn12(c: Circle)
    requires c == Circle([0, 8, 4, 9, 2, 10, 5, 11, 1, 6, 3, 7], 7, 11)
    ensures Place(c).0 == Circle([0, 8, 4, 9, 2, 10, 5, 11, 1, 12, 6, 3, 7], 9, 12) && Place(c).1 == 0
  {
    MarblesAfter12();
    QuietTurn(c, [0, 8, 4, 9, 2, 10, 5, 11, 1, 12, 6, 3, 7]);
  }

  lemma MarblesAfter13()
    ensures InsertAt([0, 8, 4, 9, 2, 10, 5, 11, 1, 12, 6, 3, 7], 11, 13) == [0, 8, 4, 9, 2, 10, 5, 11, 1, 12, 6, 13, 3, 7]
  {
  }

  lemma Turn13(c: Circle)
    requires c == Circle([0, 8, 4, 9, 2, 10, 5, 11, 1, 12, 6, 3, 7], 9, 12)
    ensures Place(c).0 == Circle([0, 8, 4, 9, 2, 10, 5, 11, 1, 12, 6, 13, 3, 7], 11, 13) && Place(c).1 == 0
  {
    MarblesAfter13();
    QuietTurn(c, [0, 8, 4, 9, 2, 10, 5, 11, 1, 12, 6, 13, 3, 7]);
  }

  lemma MarblesAfter14()
    ensures InsertAt([0, 8, 4, 9, 2, 10, 5, 11, 1, 12, 6, 13, 3, 7], 13, 14) == [0, 8, 4, 9, 2, 10, 5, 11, 1, 12, 6, 13, 3, 14, 7]
  {
  }

  lemma Turn14(c: Circle)
    requires c == Circle([0, 8, 4, 9, 2, 10, 5, 11, 1, 12, 6, 13, 3, 7], 11, 13)
    ensures Place(c).0 == Circle([0, 8, 4, 9, 2, 10, 5, 11, 1, 12, 6, 13, 3, 14, 7], 13, 14) && Place(c).1 == 0
  {
    MarblesAfter14();
    QuietTurn(c, [0, 8, 4, 9, 2, 10, 5, 11, 1, 12, 6, 13, 3, 14, 7]);
  }

  lemma MarblesAfter15()
    ensures InsertAt([0, 8, 4, 9, 2, 10, 5, 11, 1, 12, 6, 13, 3, 14, 7], 15, 15) == [0, 8, 4, 9, 2, 10, 5, 11, 1, 12, 6, 13, 3, 14, 7, 15]
  {
  }

  lemma Turn15(c: Circle)
    requires c == Circle([0, 8, 4, 9, 2, 10, 5, 11, 1, 12, 6, 13, 3, 14, 7], 13, 14)
    ensures Place(c).0 == Circle([0, 8, 4, 9, 2, 10, 5, 11, 1, 12, 6, 13, 3, 14, 7, 15], 15, 15) && Place(c).1 == 0
  {
    MarblesAfter15();
    QuietTurn(c, [0, 8, 4, 9, 2, 10, 5, 11, 1, 12, 6, 13, 3, 14, 7, 15]);
  }

  lemma MarblesAfter16()
    ensures InsertAt([0, 8, 4, 9, 2, 10, 5, 11, 1, 12, 6, 13, 3, 14, 7, 15], 1, 16) == [0, 16, 8, 4, 9, 2, 10, 5, 11, 1, 12, 6, 13, 3, 14, 7, 15]
  {
  }

  lemma Turn16(c: Circle)
    requires c == Circle([0, 8, 4, 9, 2, 10, 5, 11, 1, 12, 6, 13, 3, 14, 7, 15], 15, 15)
    ensures Place(c).0 == Circle([0, 16, 8, 4, 9, 2, 10, 5, 11, 1, 12, 6, 13, 3, 14, 7, 15], 1, 16) && Place(c).1 == 0
  {
    MarblesAfter16();
    QuietTurn(c, [0, 16, 8, 4, 9, 2, 10, 5, 11, 1, 12, 6, 13, 3, 14, 7, 15]);
  }

  lemma MarblesAfter17()
    ensures InsertAt([0, 16, 8, 4, 9, 2, 10, 5, 11, 1, 12, 6, 13, 3, 14, 7, 15], 3, 17) == [0, 16, 8, 17, 4, 9, 2, 10, 5, 11, 1, 12, 6, 13, 3, 14, 7, 15]
  {
  }

  lemma Turn17(c: Circle)
    requires c == Circle([0, 16, 8, 4, 9, 2, 10, 5, 11, 1, 12, 6, 13, 3, 14, 7, 15], 1, 16)
    ensures Place(c).0 == Circle([0, 16, 8, 17, 4, 9, 2, 10, 5, 11, 1, 12, 6, 13, 3, 14, 7, 15], 3, 17) && Place(c).1 == 0
  {
    MarblesAfter17();
    QuietTurn(c, [0, 16, 8, 17, 4, 9, 2, 10, 5, 11, 1, 12, 6, 13, 3, 14, 7, 15]);
  }

  lemma MarblesAfter18()
    ensures InsertAt([0, 16, 8, 17, 4, 9, 2, 10, 5, 11, 1, 12, 6, 13, 3, 14, 7, 15], 5, 18) == [0, 16, 8, 17, 4, 18, 9, 2, 10, 5, 11, 1, 12, 6, 13, 3, 14, 7, 15]
  {
  }

  lemma Turn18(c: Circle)
    requires c == Circle([0, 16, 8, 17, 4, 9, 2, 10, 5, 11, 1, 12, 6, 13, 3, 14, 7, 15], 3, 17)
    ensures Place(c).0 == Circle([0, 16, 8, 17, 4, 18, 9, 2, 10, 5, 11, 1, 12, 6, 13, 3, 14, 7, 15], 5, 18) && Place(c).1 == 0
  {
    MarblesAfter18();
    QuietTurn(c, [0, 16, 8, 17, 4, 18, 9, 2, 10, 5, 11, 1, 12, 6, 13, 3, 14, 7, 15]);
  }

  lemma MarblesAfter19()
    ensures InsertAt([0, 16, 8, 17, 4, 18, 9, 2, 10, 5, 11, 1, 12, 6, 13, 3, 14, 7, 15], 7, 19) == [0, 16, 8, 17, 4, 18, 9, 19, 2, 10, 5, 11, 1, 12, 6, 13, 3, 14, 7, 15]
  {
  }

  lemma Turn19(c: Circle)
    requires c == Circle([0, 16, 8, 17, 4, 18, 9, 2, 10, 5, 11, 1, 12, 6, 13, 3, 14, 7, 15], 5, 18)
    ensures Place(c).0 == Circle([0, 16, 8, 17, 4, 18, 9, 19, 2, 10, 5, 11, 1, 12, 6, 13, 3, 14, 7, 15], 7, 19) && Place(c).1 == 0
  {
    MarblesAfter19();
    QuietTurn(c, [0, 16, 8, 17, 4, 18, 9, 19, 2, 10, 5, 11, 1, 12, 6, 13, 3, 14, 7, 15]);
  }

  lemma MarblesAfter20()
    ensures InsertAt([0, 16, 8, 17, 4, 18, 9, 19, 2, 10, 5, 11, 1, 12, 6, 13, 3, 14, 7, 15], 9, 20) == [0, 16, 8, 17, 4, 18, 9, 19, 2, 20, 10, 5, 11, 1, 12, 6, 13, 3, 14, 7, 15]
  {
  }

  lemma Turn20(c: Circle)
    requires c == Circle([0, 16, 8, 17, 4, 18, 9, 19, 2, 10, 5, 11, 1, 12, 6, 13, 3, 14, 7, 15], 7, 19)
    ensures Place(c).0 == Circle([0, 16, 8, 17, 4, 18, 9, 19, 2, 20, 10, 5, 11, 1, 12, 6, 13, 3, 14, 7, 15], 9, 20) && Place(c).1 == 0
  {
    MarblesAfter20();
    QuietTurn(c, [0, 16, 8, 17, 4, 18, 9, 19, 2, 20, 10, 5, 11, 1, 12, 6, 13, 3, 14, 7, 15]);
  }

  lemma MarblesAfter21()
    ensures InsertAt([0, 16, 8, 17, 4, 18, 9, 19, 2, 20, 10, 5, 11, 1, 12, 6, 13, 3, 14, 7, 15], 11, 21) == [0, 16, 8, 17, 4, 18, 9, 19, 2, 20, 10, 21, 5, 11, 1, 12, 6, 13, 3, 14, 7, 15]
  {
  }

  lemma Turn21(c: Circle)
    requires c == Circle([0, 16, 8, 17, 4, 18, 9, 19, 2, 20, 10, 5, 11, 1, 12, 6, 13, 3, 14, 7, 15], 9, 20)
    ensures Place(c).0 == Circle([0, 16, 8, 17, 4, 18, 9, 19, 2, 20, 10, 21, 5, 11, 1, 12, 6, 13, 3, 14, 7, 15], 11, 21) && Place(c).1 == 0
  {
    MarblesAfter21();
    QuietTurn(c, [0, 16, 8, 17, 4, 18, 9, 19, 2, 20, 10, 21, 5, 11, 1, 12, 6, 13, 3, 14, 7, 15]);
  }

  lemma MarblesAfter22()
    ensures InsertAt([0, 16, 8, 17, 4, 18, 9, 19, 2, 20, 10, 21, 5, 11, 1, 12, 6, 13, 3, 14, 7, 15], 13, 22) == [0, 16, 8, 17, 4, 18, 9, 19, 2, 20, 10, 21, 5, 22, 11, 1, 12, 6, 13, 3, 14, 7, 15]
  {
  }

  lemma Turn22(c: Circle)
    requires c == Circle([0, 16, 8, 17, 4, 18, 9, 19, 2, 20, 10, 21, 5, 11, 1, 12, 6, 13, 3, 14, 7, 15], 11, 21)
    ensures Place(c).0 == Circle([0, 16, 8, 17, 4, 18, 9, 19, 2, 20, 10, 21, 5, 22, 11, 1, 12, 6, 13, 3, 14, 7, 15], 13, 22) && Place(c).1 == 0
  {
    MarblesAfter22();
    QuietTurn(c, [0, 16, 8, 17, 4, 18, 9, 19, 2, 20, 10, 21, 5, 22, 11, 1, 12, 6, 13, 3, 14, 7, 15]);
  }

  lemma MarblesAfter23()
    ensures RemoveAt([0, 16, 8, 17, 4, 18, 9, 19, 2, 20, 10, 21, 5, 22, 11, 1, 12, 6, 13, 3, 14, 7, 15], 6) == [0, 16, 8, 17, 4, 18, 19, 2, 20, 10, 21, 5, 22, 11, 1, 12, 6, 13, 3, 14, 7, 15]
  {
  }

  lemma Turn23(c: Circle)
    requires c == Circle([0, 16, 8, 17, 4, 18, 9, 19, 2, 20, 10, 21, 5, 22, 11, 1, 12, 6, 13, 3, 14, 7, 15], 13, 22)
    ensures Place(c).0 == Circle([0, 16, 8, 17, 4, 18, 19, 2, 20, 10, 21, 5, 22, 11, 1, 12, 6, 13, 3, 14, 7, 15], 6, 23) && Place(c).1 == 32
  {
    MarblesAfter23();
    ScoringTurn(c, [0, 16, 8, 17, 4, 18, 19, 2, 20, 10, 21, 5, 22, 11, 1, 12, 6, 13, 3, 14, 7, 15]);
  }

  lemma MarblesAfter24()
    ensures InsertAt([0, 16, 8, 17, 4, 18, 19, 2, 20, 10, 21, 5, 22, 11, 1, 12, 6, 13, 3, 14, 7, 15], 8, 24) == [0, 16, 8, 17, 4, 18, 19, 2, 24, 20, 10, 21, 5, 22, 11, 1, 12, 6, 13, 3, 14, 7, 15]
  {
  }

  lemma Turn24(c: Circle)
    requires c == Circle([0, 16, 8, 17, 4, 18, 19, 2, 20, 10, 21, 5, 22, 11, 1, 12, 6, 13, 3, 14, 7, 15], 6, 23)
    ensures Place(c).0 == Circle([0, 16, 8, 17, 4, 18, 19, 2, 24, 20, 10, 21, 5, 22, 11, 1, 12, 6, 13, 3, 14, 7, 15], 8, 24) && Place(c).1 == 0
  {
    MarblesAfter24();
    QuietTurn(c, [0, 16, 8, 17, 4, 18, 19, 2, 24, 20, 10, 21, 5, 22, 11, 1, 12, 6, 13, 3, 14, 7, 15]);
  }

  lemma MarblesAfter25()
    ensures InsertAt([0, 16, 8, 17, 4, 18, 19, 2, 24, 20, 10, 21, 5, 22, 11, 1, 12, 6, 13, 3, 14, 7, 15], 10, 25) == [0, 16, 8, 17, 4, 18, 19, 2, 24, 20, 25, 10, 21, 5, 22, 11, 1, 12, 6, 13, 3, 14, 7, 15]
  {
  }

  lemma Turn25(c: Circle)
    requires c == Circle([0, 16, 8, 17, 4, 18, 19, 2, 24, 20, 10, 21, 5, 22, 11, 1, 12, 6, 13, 3, 14, 7, 15], 8, 24)
    ensures Place(c).0 == Circle([0, 16, 8, 17, 4, 18, 19, 2, 24, 20, 25, 10, 21, 5, 22, 11, 1, 12, 6, 13, 3, 14, 7, 15], 10, 25) && Place(c).1 == 0
  {
    MarblesAfter25();
    QuietTurn(c, [0, 16, 8, 17, 4, 18, 19, 2, 24, 20, 25, 10, 21, 5, 22, 11, 1, 12, 6, 13, 3, 14, 7, 15]);
  }

  lemma CircleAfter1(start: Circle)
    requires start == NewCircle()
    ensures PlaceMany(start, 1).0 == Circle([0, 1], 1, 1)
  {
    Turn1(Circle([0], 0, 0));
    ExtendCircle(start, 0, Circle([0], 0, 0), Circle([0, 1], 1, 1));
  }

  lemma CircleAfter2(start: Circle)
    requires start == NewCircle()
    ensures PlaceMany(start, 2).0 == Circle([0, 2, 1], 1, 2)
  {
    CircleAfter1(start);
    Turn2(Circle([0, 1], 1, 1));
    ExtendCircle(start, 1, Circle([0, 1], 1, 1), Circle([0, 2, 1], 1, 2));
  }

  lemma CircleAfter3(start: Circle)
    requires start == NewCircle()
    ensures PlaceMany(start, 3).0 == Circle([0, 2, 1, 3], 3, 3)
  {
    CircleAfter2(start);
    Turn3(Circle([0, 2, 1], 1, 2));
    ExtendCircle(start, 2, Circle([0, 2, 1], 1, 2), Circle([0, 2, 1, 3], 3, 3));
  }

  lemma CircleAfter4(start: Circle)
    requires start == NewCircle()
    ensures PlaceMany(start, 4).0 == Circle([0, 4, 2, 1, 3], 1, 4)
  {
    CircleAfter3(start);
    Turn4(Circle([0, 2, 1, 3], 3, 3));
    ExtendCircle(start, 3, Circle([0, 2, 1, 3], 3, 3), Circle([0, 4, 2, 1, 3], 1, 4));
  }

  lemma CircleAfter5(start: Circle)
    requires start == NewCircle()
    ensures PlaceMany(start, 5).0 == Circle([0, 4, 2, 5, 1, 3], 3, 5)
  {
    CircleAfter4(start);
    Turn5(Circle([0, 4, 2, 1, 3], 1, 4));
    ExtendCircle(start, 4, Circle([0, 4, 2, 1, 3], 1, 4), Circle([0, 4, 2, 5, 1, 3], 3, 5));
  }

  lemma CircleAfter6(start: Circle)
    requires start == NewCircle()
    ensures PlaceMany(start, 6).0 == Circle([0, 4, 2, 5, 1, 6, 3], 5, 6)
  {
    CircleAfter5(start);
    Turn6(Circle([0, 4, 2, 5, 1, 3], 3, 5));
    ExtendCircle(start, 5, Circle([0, 4, 2, 5, 1, 3], 3, 5), Circle([0, 4, 2, 5, 1, 6, 3], 5, 6));
  }

  lemma CircleAfter7(start: Circle)
    requires start == NewCircle()
    ensures PlaceMany(start, 7).0 == Circle([0, 4, 2, 5, 1, 6, 3, 7], 7, 7)
  {
    CircleAfter6(start);
    Turn7(Circle([0, 4, 2, 5, 1, 6, 3], 5, 6));
    ExtendCircle(start, 6, Circle([0, 4, 2, 5, 1, 6, 3], 5, 6), Circle([0, 4, 2, 5, 1, 6, 3, 7], 7, 7));
  }

  lemma CircleAfter8(start: Circle)
    requires start == NewCircle()
    ensures PlaceMany(start, 8).0 == Circle([0, 8, 4, 2, 5, 1, 6, 3, 7], 1, 8)
  {
    CircleAfter7(start);
    Turn8(Circle([0, 4, 2, 5, 1, 6, 3, 7], 7, 7));
    ExtendCircle(start, 7, Circle([0, 4, 2, 5, 1, 6, 3, 7], 7, 7), Circle([0, 8, 4, 2, 5, 1, 6, 3, 7], 1, 8));
  }

  lemma CircleAfter9(start: Circle)
    requires start == NewCircle()
    ensures PlaceMany(start, 9).0 == Circle([0, 8, 4, 9, 2, 5, 1, 6, 3, 7], 3, 9)
  {
    CircleAfter8(start);
    Turn9(Circle([0, 8, 4, 2, 5, 1, 6, 3, 7], 1, 8));
    ExtendCircle(start, 8, Circle([0, 8, 4, 2, 5, 1, 6, 3, 7], 1, 8), Circle([0, 8, 4, 9, 2, 5, 1, 6, 3, 7], 3, 9));
  }

  lemma CircleAfter10(start: Circle)
    requires start == NewCircle()
    ensures PlaceMany(start, 10).0 == Circle([0, 8, 4, 9, 2, 10, 5, 1, 6, 3, 7], 5, 10)
  {
    CircleAfter9(start);
    Turn10(Circle([0, 8, 4, 9, 2, 5, 1, 6, 3, 7], 3, 9));
    ExtendCircle(start, 9, Circle([0, 8, 4, 9, 2, 5, 1, 6, 3, 7], 3, 9), Circle([0, 8, 4, 9, 2, 10, 5, 1, 6, 3, 7], 5, 10));
  }

  lemma CircleAfter11(start: Circle)
    requires start == NewCircle()
    ensures PlaceMany(start, 11).0 == Circle([0, 8, 4, 9, 2, 10, 5, 11, 1, 6, 3, 7], 7, 11)
  {
    CircleAfter10(start);
    Turn11(Circle([0, 8, 4, 9, 2, 10, 5, 1, 6, 3, 7], 5, 10));
    ExtendCircle(start, 10, Circle([0, 8, 4, 9, 2, 10, 5, 1, 6, 3, 7], 5, 10), Circle([0, 8, 4, 9, 2, 10, 5, 11, 1, 6, 3, 7], 7, 11));
  }

  lemma CircleAfter12(start: Circle)
    requires start == NewCircle()
    ensures PlaceMany(start, 12).0 == Circle([0, 8, 4, 9, 2, 10, 5, 11, 1, 12, 6, 3, 7], 9, 12)
  {
    CircleAfter11(start);
    Turn12(Circle([0, 8, 4, 9, 2, 10, 5, 11, 1, 6, 3, 7], 7, 11));
    ExtendCircle(start, 11, Circle([0, 8, 4, 9, 2, 10, 5, 11, 1, 6, 3, 7], 7, 11), Circle([0, 8, 4, 9, 2, 10, 5, 11, 1, 12, 6, 3, 7], 9, 12));
  }

  lemma CircleAfter13(start: Circle)
    requires start == NewCircle()
    ensures PlaceMany(start, 13).0 == Circle([0, 8, 4, 9, 2, 10, 5, 11, 1, 12, 6, 13, 3, 7], 11, 13)
  {
    CircleAfter12(start);
    Turn13(Circle([0, 8, 4, 9, 2, 10, 5, 11, 1, 12, 6, 3, 7], 9, 12));
    ExtendCircle(start, 12, Circle([0, 8, 4, 9, 2, 10, 5, 11, 1, 12, 6, 3, 7], 9, 12), Circle([0, 8, 4, 9, 2, 10, 5, 11, 1, 12, 6, 13, 3, 7], 11, 13));
  }

  lemma CircleAfter14(start: Circle)
    requires start == NewCircle()
    ensures PlaceMany(start, 14).0 == Circle([0, 8, 4, 9, 2, 10, 5, 11, 1, 12, 6, 13, 3, 14, 7], 13, 14)
  {
    CircleAfter13(start);
    Turn14(Circle([0, 8, 4, 9, 2, 10, 5, 11, 1, 12, 6, 13, 3, 7], 11, 13));
    ExtendCircle(start, 13, Circle([0, 8, 4, 9, 2, 10, 5, 11, 1, 12, 6, 13, 3, 7], 11, 13), Circle([0, 8, 4, 9, 2, 10, 5, 11, 1, 12, 6, 13, 3, 14, 7], 13, 14));
  }

  lemma CircleAfter15(start: Circle)
    requires start == NewCircle()
    ensures PlaceMany(start, 15).0 == Circle([0, 8, 4, 9, 2, 10, 5, 11, 1, 12, 6, 13, 3, 14, 7, 15], 15, 15)
  {
    CircleAfter14(start);
    Turn15(Circle([0, 8, 4, 9, 2, 10, 5, 11, 1, 12, 6, 13, 3, 14, 7], 13, 14));
    ExtendCircle(start, 14, Circle([0, 8, 4, 9, 2, 10, 5, 11, 1, 12, 6, 13, 3, 14, 7], 13, 14), Circle([0, 8, 4, 9, 2, 10, 5, 11, 1, 12, 6, 13, 3, 14, 7, 15], 15, 15));
  }

  lemma CircleAfter16(start: Circle)
    requires start == NewCircle()
    ensures PlaceMany(start, 16).0 == Circle([0, 16, 8, 4, 9, 2, 10, 5, 11, 1, 12, 6, 13, 3, 14, 7, 15], 1, 16)
  {
    CircleAfter15(start);
    Turn16(Circle([0, 8, 4, 9, 2, 10, 5, 11, 1, 12, 6, 13, 3, 14, 7, 15], 15, 15));
    ExtendCircle(start, 15, Circle([0, 8, 4, 9, 2, 10, 5, 11, 1, 12, 6, 13, 3, 14, 7, 15], 15, 15), Circle([0, 16, 8, 4, 9, 2, 10, 5, 11, 1, 12, 6, 13, 3, 14, 7, 15], 1, 16));
  }

  lemma CircleAfter17(start: Circle)
    requires start == NewCircle()
    ensures PlaceMany(start, 17).0 == Circle([0, 16, 8, 17, 4, 9, 2, 10, 5, 11, 1, 12, 6, 13, 3, 14, 7, 15], 3, 17)
  {
    CircleAfter16(start);
    Turn17(Circle([0, 16, 8, 4, 9, 2, 10, 5, 11, 1, 12, 6, 13, 3, 14, 7, 15], 1, 16));
    ExtendCircle(start, 16, Circle([0, 16, 8, 4, 9, 2, 10, 5, 11, 1, 12, 6, 13, 3, 14, 7, 15], 1, 16), Circle([0, 16, 8, 17, 4, 9, 2, 10, 5, 11, 1, 12, 6, 13, 3, 14, 7, 15], 3, 17));
  }

  lemma CircleAfter18(start: Circle)
    requires start == NewCircle()
    ensures PlaceMany(start, 18).0 == Circle([0, 16, 8, 17, 4, 18, 9, 2, 10, 5, 11, 1, 12, 6, 13, 3, 14, 7, 15], 5, 18)
  {
    CircleAfter17(start);
    Turn18(Circle([0, 16, 8, 17, 4, 9, 2, 10, 5, 11, 1, 12, 6, 13, 3, 14, 7, 15], 3, 17));
    ExtendCircle(start, 17, Circle([0, 16, 8, 17, 4, 9, 2, 10, 5, 11, 1, 12, 6, 13, 3, 14, 7, 15], 3, 17), Circle([0, 16, 8, 17, 4, 18, 9, 2, 10, 5, 11, 1, 12, 6, 13, 3, 14, 7, 15], 5, 18));
  }

  lemma CircleAfter19(start: Circle)
    requires start == NewCircle()
    ensures PlaceMany(start, 19).0 == Circle([0, 16, 8, 17, 4, 18, 9, 19, 2, 10, 5, 11, 1, 12, 6, 13, 3, 14, 7, 15], 7, 19)
  {
    CircleAfter18(start);
    Turn19(Circle([0, 16, 8, 17, 4, 18, 9, 2, 10, 5, 11, 1, 12, 6, 13, 3, 14, 7, 15], 5, 18));
    ExtendCircle(start, 18, Circle([0, 16, 8, 17, 4, 18, 9, 2, 10, 5, 11, 1, 12, 6, 13, 3, 14, 7, 15], 5, 18), Circle([0, 16, 8, 17, 4, 18, 9, 19, 2, 10, 5, 11, 1, 12, 6, 13, 3, 14, 7, 15], 7, 19));
  }

  lemma CircleAfter20(start: Circle)
    requires start == NewCircle()
    ensures PlaceMany(start, 20).0 == Circle([0, 16, 8, 17, 4, 18, 9, 19, 2, 20, 10, 5, 11, 1, 12, 6, 13, 3, 14, 7, 15], 9, 20)
  {
    CircleAfter19(start);
    Turn20(Circle([0, 16, 8, 17, 4, 18, 9, 19, 2, 10, 5, 11, 1, 12, 6, 13, 3, 14, 7, 15], 7, 19));
    ExtendCircle(start, 19, Circle([0, 16, 8, 17, 4, 18, 9, 19, 2, 10, 5, 11, 1, 12, 6, 13, 3, 14, 7, 15], 7, 19), Circle([0, 16, 8, 17, 4, 18, 9, 19, 2, 20, 10, 5, 11, 1, 12, 6, 13, 3, 14, 7, 15], 9, 20));
  }

  lemma CircleAfter21(start: Circle)
    requires start == NewCircle()
    ensures PlaceMany(start, 21).0 == Circle([0, 16, 8, 17, 4, 18, 9, 19, 2, 20, 10, 21, 5, 11, 1, 12, 6, 13, 3, 14, 7, 15], 11, 21)
  {
    CircleAfter20(start);
    Turn21(Circle([0, 16, 8, 17, 4, 18, 9, 19, 2, 20, 10, 5, 11, 1, 12, 6, 13, 3, 14, 7, 15], 9, 20));
    ExtendCircle(start, 20, Circle([0, 16, 8, 17, 4, 18, 9, 19, 2, 20, 10, 5, 11, 1, 12, 6, 13, 3, 14, 7, 15], 9, 20), Circle([0, 16, 8, 17, 4, 18, 9, 19, 2, 20, 10, 21, 5, 11, 1, 12, 6, 13, 3, 14, 7, 15], 11, 21));
  }

  lemma CircleAfter22(start: Circle)
    requires start == NewCircle()
    ensures PlaceMany(start, 22).0 == Circle([0, 16, 8, 17, 4, 18, 9, 19, 2, 20, 10, 21, 5, 22, 11, 1, 12, 6, 13, 3, 14, 7, 15], 13, 22)
  {
    CircleAfter21(start);
    Turn22(Circle([0, 16, 8, 17, 4, 18, 9, 19, 2, 20, 10, 21, 5, 11, 1, 12, 6, 13, 3, 14, 7, 15], 11, 21));
    ExtendCircle(start, 21, Circle([0, 16, 8, 17, 4, 18, 9, 19, 2, 20, 10, 21, 5, 11, 1, 12, 6, 13, 3, 14, 7, 15], 11, 21), Circle([0, 16, 8, 17, 4, 18, 9, 19, 2, 20, 10, 21, 5, 22, 11, 1, 12, 6, 13, 3, 14, 7, 15], 13, 22));
  }

  lemma CircleAfter23(start: Circle)
    requires start == NewCircle()
    ensures PlaceMany(start, 23).0 == Circle([0, 16, 8, 17, 4, 18, 19, 2, 20, 10, 21, 5, 22, 11, 1, 12, 6, 13, 3, 14, 7, 15], 6, 23)
  {
    CircleAfter22(start);
    Turn23(Circle([0, 16, 8, 17, 4, 18, 9, 19, 2, 20, 10, 21, 5, 22, 11, 1, 12, 6, 13, 3, 14, 7, 15], 13, 22));
    ExtendCircle(start, 22, Circle([0, 16, 8, 17, 4, 18, 9, 19, 2, 20, 10, 21, 5, 22, 11, 1, 12, 6, 13, 3, 14, 7, 15], 13, 22), Circle([0, 16, 8, 17, 4, 18, 19, 2, 20, 10, 21, 5, 22, 11, 1, 12, 6, 13, 3, 14, 7, 15], 6, 23));
  }

  lemma CircleAfter24(start: Circle)
    requires start == NewCircle()
    ensures PlaceMany(start, 24).0 == Circle([0, 16, 8, 17, 4, 18, 19, 2, 24, 20, 10, 21, 5, 22, 11, 1, 12, 6, 13, 3, 14, 7, 15], 8, 24)
  {
    CircleAfter23(start);
    Turn24(Circle([0, 16, 8, 17, 4, 18, 19, 2, 20, 10, 21, 5, 22, 11, 1, 12, 6, 13, 3, 14, 7, 15], 6, 23));
    ExtendCircle(start, 23, Circle([0, 16, 8, 17, 4, 18, 19, 2, 20, 10, 21, 5, 22, 11, 1, 12, 6, 13, 3, 14, 7, 15], 6, 23), Circle([0, 16, 8, 17, 4, 18, 19, 2, 24, 20, 10, 21, 5, 22, 11, 1, 12, 6, 13, 3, 14, 7, 15], 8, 24));
  }

  lemma CircleAfter25(start: Circle)
    requires start == NewCircle()
    ensures PlaceMany(start, 25).0 == Circle([0, 16, 8, 17, 4, 18, 19, 2, 24, 20, 25, 10, 21, 5, 22, 11, 1, 12, 6, 13, 3, 14, 7, 15], 10, 25)
  {
    CircleAfter24(start);
    Turn25(Circle([0, 16, 8, 17, 4, 18, 19, 2, 24, 20, 10, 21, 5, 22, 11, 1, 12, 6, 13, 3, 14, 7, 15], 8, 24));
    ExtendCircle(start, 24, Circle([0, 16, 8, 17, 4, 18, 19, 2, 24, 20, 10, 21, 5, 22, 11, 1, 12, 6, 13, 3, 14, 7, 15], 8, 24), Circle([0, 16, 8, 17, 4, 18, 19, 2, 24, 20, 25, 10, 21, 5, 22, 11, 1, 12, 6, 13, 3, 14, 7, 15], 10, 25));
  }

  /** The first three turns from a new circle give [0, 1], [0, 2, 1] and [0, 2, 1, 3], none scoring. */
  lemma FirstTurns(start: Circle)
    requires start == NewCircle()
    ensures PlaceMany(start, 1).0 == Circle([0, 1], 1, 1)
    ensures PlaceMany(start, 2).0 == Circle([0, 2, 1], 1, 2)
    ensures PlaceMany(start, 3).0.marbles == [0, 2, 1, 3]
    ensures PlaceMany(start, 3).1 == [0, 0, 0]
  {
    CircleAfter3(start);
    var s := PlaceMany(start, 3).1;
    forall i | 0 <= i < 3
      ensures s[i] == 0
    {
      ScoreOfTurn(start, 3, i);
      if i == 0 { Turn1(start); }
      else if i == 1 { CircleAfter1(start); Turn2(Circle([0, 1], 1, 1)); }
      else { CircleAfter2(start); Turn3(Circle([0, 2, 1], 1, 2)); }
    }
  }

  /** The puzzle's 23rd turn: marble 23 scores 23 + 9 and leaves marble 19, at index 6, current. */
  lemma TwentyThirdTurn(start: Circle)
    requires start == NewCircle()
    ensures PlaceMany(start, 23).0.marbles
      == [0, 16, 8, 17, 4, 18, 19, 2, 20, 10, 21, 5, 22, 11, 1, 12, 6, 13, 3, 14, 7, 15]
    ensures PlaceMany(start, 23).0.active == 6 && PlaceMany(start, 23).0.last == 23
    ensures PlaceMany(start, 23).1[22] == 32
  {
    CircleAfter23(start);
    CircleAfter22(start);
    ScoreOfTurn(start, 23, 22);
    Turn23(Circle([0, 16, 8, 17, 4, 18, 9, 19, 2, 20, 10, 21, 5, 22, 11, 1, 12, 6, 13, 3, 14, 7, 15], 13, 22));
  }

  lemma ScoreAfter0(start: Circle)
    requires start == NewCircle()
    ensures Place(PlaceMany(start, 0).0).1 == 0
  {
    Turn1(start);
  }

  lemma ScoreAfter1(start: Circle)
    requires start == NewCircle()
    ensures Place(PlaceMany(start, 1).0).1 == 0
  {
    CircleAfter1(start);
    Turn2(Circle([0, 1], 1, 1));
  }

  lemma ScoreAfter2(start: Circle)
    requires start == NewCircle()
    ensures Place(PlaceMany(start, 2).0).1 == 0
  {
    CircleAfter2(start);
    Turn3(Circle([0, 2, 1], 1, 2));
  }

  lemma ScoreAfter3(start: Circle)
    requires start == NewCircle()
    ensures Place(PlaceMany(start, 3).0).1 == 0
  {
    CircleAfter3(start);
    Turn4(Circle([0, 2, 1, 3], 3, 3));
  }

  lemma ScoreAfter4(start: Circle)
    requires start == NewCircle()
    ensures Place(PlaceMany(start, 4).0).1 == 0
  {
    CircleAfter4(start);
    Turn5(Circle([0, 4, 2, 1, 3], 1, 4));
  }

  lemma ScoreAfter5(start: Circle)
    requires start == NewCircle()
    ensures Place(PlaceMany(start, 5).0).1 == 0
  {
    CircleAfter5(start);
    Turn6(Circle([0, 4, 2, 5, 1, 3], 3, 5));
  }

  lemma ScoreAfter6(start: Circle)
    requires start == NewCircle()
    ensures Place(PlaceMany(start, 6).0).1 == 0
  {
    CircleAfter6(start);
    Turn7(Circle([0, 4, 2, 5, 1, 6, 3], 5, 6));
  }

  lemma ScoreAfter7(start: Circle)
    requires start == NewCircle()
    ensures Place(PlaceMany(start, 7).0).1 == 0
  {
    CircleAfter7(start);
    Turn8(Circle([0, 4, 2, 5, 1, 6, 3, 7], 7, 7));
  }

  lemma ScoreAfter8(start: Circle)
    requires start == NewCircle()
    ensures Place(PlaceMany(start, 8).0).1 == 0
  {
    CircleAfter8(start);
    Turn9(Circle([0, 8, 4, 2, 5, 1, 6, 3, 7], 1, 8));
  }

  lemma ScoreAfter9(start: Circle)
    requires start == NewCircle()
    ensures Place(PlaceMany(start, 9).0).1 == 0
  {
    CircleAfter9(start);
    Turn10(Circle([0, 8, 4, 9, 2, 5, 1, 6, 3, 7], 3, 9));
  }

  lemma ScoreAfter10(start: Circle)
    requires start == NewCircle()
    ensures Place(PlaceMany(start, 10).0).1 == 0
  {
    CircleAfter10(start);
    Turn11(Circle([0, 8, 4, 9, 2, 10, 5, 1, 6, 3, 7], 5, 10));
  }

  lemma ScoreAfter11(start: Circle)
    requires start == NewCircle()
    ensures Place(PlaceMany(start, 11).0).1 == 0
  {
    CircleAfter11(start);
    Turn12(Circle([0, 8, 4, 9, 2, 10, 5, 11, 1, 6, 3, 7], 7, 11));
  }

  lemma ScoreAfter12(start: Circle)
    requires start == NewCircle()
    ensures Place(PlaceMany(start, 12).0).1 == 0
  {
    CircleAfter12(start);
    Turn13(Circle([0, 8, 4, 9, 2, 10, 5, 11, 1, 12, 6, 3, 7], 9, 12));
  }

  lemma ScoreAfter13(start: Circle)
    requires start == NewCircle()
    ensures Place(PlaceMany(start, 13).0).1 == 0
  {
    CircleAfter13(start);
    Turn14(Circle([0, 8, 4, 9, 2, 10, 5, 11, 1, 12, 6, 13, 3, 7], 11, 13));
  }

  lemma ScoreAfter14(start: Circle)
    requires start == NewCircle()
    ensures Place(PlaceMany(start, 14).0).1 == 0
  {
    CircleAfter14(start);
    Turn15(Circle([0, 8, 4, 9, 2, 10, 5, 11, 1, 12, 6, 13, 3, 14, 7], 13, 14));
  }

  lemma ScoreAfter15(start: Circle)
    requires start == NewCircle()
    ensures Place(PlaceMany(start, 15).0).1 == 0
  {
    CircleAfter15(start);
    Turn16(Circle([0, 8, 4, 9, 2, 10, 5, 11, 1, 12, 6, 13, 3, 14, 7, 15], 15, 15));
  }

  lemma ScoreAfter16(start: Circle)
    requires start == NewCircle()
    ensures Place(PlaceMany(start, 16).0).1 == 0
  {
    CircleAfter16(start);
    Turn17(Circle([0, 16, 8, 4, 9, 2, 10, 5, 11, 1, 12, 6, 13, 3, 14, 7, 15], 1, 16));
  }

  lemma ScoreAfter17(start: Circle)
    requires start == NewCircle()
    ensures Place(PlaceMany(start, 17).0).1 == 0
  {
    CircleAfter17(start);
    Turn18(Circle([0, 16, 8, 17, 4, 9, 2, 10, 5, 11, 1, 12, 6, 13, 3, 14, 7, 15], 3, 17));
  }

  lemma ScoreAfter18(start: Circle)
    requires start == NewCircle()
    ensures Place(PlaceMany(start, 18).0).1 == 0
  {
    CircleAfter18(start);
    Turn19(Circle([0, 16, 8, 17, 4, 18, 9, 2, 10, 5, 11, 1, 12, 6, 13, 3, 14, 7, 15], 5, 18));
  }

  lemma ScoreAfter19(start: Circle)
    requires start == NewCircle()
    ensures Place(PlaceMany(start, 19).0).1 == 0
  {
    CircleAfter19(start);
    Turn20(Circle([0, 16, 8, 17, 4, 18, 9, 19, 2, 10, 5, 11, 1, 12, 6, 13, 3, 14, 7, 15], 7, 19));
  }

  lemma ScoreAfter20(start: Circle)
    requires start == NewCircle()
    ensures Place(PlaceMany(start, 20).0).1 == 0
  {
    CircleAfter20(start);
    Turn21(Circle([0, 16, 8, 17, 4, 18, 9, 19, 2, 20, 10, 5, 11, 1, 12, 6, 13, 3, 14, 7, 15], 9, 20));
  }

  lemma ScoreAfter21(start: Circle)
    requires start == NewCircle()
    ensures Place(PlaceMany(start, 21).0).1 == 0
  {
    CircleAfter21(start);
    Turn22(Circle([0, 16, 8, 17, 4, 18, 9, 19, 2, 20, 10, 21, 5, 11, 1, 12, 6, 13, 3, 14, 7, 15], 11, 21));
  }

  lemma ScoreAfter22(start: Circle)
    requires start == NewCircle()
    ensures Place(PlaceMany(start, 22).0).1 == 32
  {
    CircleAfter22(start);
    Turn23(Circle([0, 16, 8, 17, 4, 18, 9, 19, 2, 20, 10, 21, 5, 22, 11, 1, 12, 6, 13, 3, 14, 7, 15], 13, 22));
  }

  lemma ScoreAfter23(start: Circle)
    requires start == NewCircle()
    ensures Place(PlaceMany(start, 23).0).1 == 0
  {
    CircleAfter23(start);
    Turn24(Circle([0, 16, 8, 17, 4, 18, 19, 2, 20, 10, 21, 5, 22, 11, 1, 12, 6, 13, 3, 14, 7, 15], 6, 23));
  }

  lemma ScoreAfter24(start: Circle)
    requires start == NewCircle()
    ensures Place(PlaceMany(start, 24).0).1 == 0
  {
    CircleAfter24(start);
    Turn25(Circle([0, 16, 8, 17, 4, 18, 19, 2, 24, 20, 10, 21, 5, 22, 11, 1, 12, 6, 13, 3, 14, 7, 15], 8, 24));
  }

  /** The scores of the first 25 turns: only the 23rd scores, 32 points. */
  lemma ExampleScores(start: Circle)
    requires start == NewCircle()
    ensures |PlaceMany(start, 25).1| == 25
    ensures forall i :: 0 <= i < 25 ==> PlaceMany(start, 25).1[i] == if i == 22 then 32 else 0
  {
    forall i | 0 <= i < 25
      ensures PlaceMany(start, 25).1[i] == if i == 22 then 32 else 0
    {
      ScoreOfTurn(start, 25, i);
      if i == 0 {
        ScoreAfter0(start);
      } else if i == 1 {
        ScoreAfter1(start);
      } else if i == 2 {
        ScoreAfter2(start);
      } else if i == 3 {
        ScoreAfter3(start);
      } else if i == 4 {
        ScoreAfter4(start);
      } else if i == 5 {
        ScoreAfter5(start);
      } else if i == 6 {
        ScoreAfter6(start);
      } else if i == 7 {
        ScoreAfter7(start);
      } else if i == 8 {
        ScoreAfter8(start);
      } else if i == 9 {
        ScoreAfter9(start);
      } else if i == 10 {
        ScoreAfter10(start);
      } else if i == 11 {
        ScoreAfter11(start);
      } else if i == 12 {
        ScoreAfter12(start);
      } else if i == 13 {
        ScoreAfter13(start);
      } else if i == 14 {
        ScoreAfter14(start);
      } else if i == 15 {
        ScoreAfter15(start);
      } else if i == 16 {
        ScoreAfter16(start);
      } else if i == 17 {
        ScoreAfter17(start);
      } else if i == 18 {
        ScoreAfter18(start);
      } else if i == 19 {
        ScoreAfter19(start);
      } else if i == 20 {
        ScoreAfter20(start);
      } else if i == 21 {
        ScoreAfter21(start);
      } else if i == 22 {
        ScoreAfter22(start);
      } else if i == 23 {
        ScoreAfter23(start);
      } else {
        ScoreAfter24(start);
      }
    }
  }

  /** Nine players, 25 turns: the fifth player, who plays the 23rd turn, holds the best total, 32. */
  lemma Part1Example()
    ensures 32 in Totals(9, 25)
    ensures forall t :: t in Totals(9, 25) ==> t <= 32
  {
    var start := NewCircle();
    var scores := PlaceMany(start, 25).1;
    ExampleScores(start);
    SumSingle(scores, 22);
    var totals := Credit(9, scores).0;
    assert totals == Totals(9, 25);
    CreditConserves(9, scores);
    CreditAtLeast(9, scores, 22);
    forall p | 0 <= p < 9
      ensures totals[p] <= 32
    {
      ElementAtMostSum(totals, p);
    }
    assert totals[4] == 32;
  }
}
