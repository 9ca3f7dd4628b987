/**
 * Day 4 ("Repose Record"): the guard nap log.
 *
 * Log events carry a timestamp and an action (a guard starts a shift,
 * falls asleep, or wakes up). The events are sorted by timestamp and
 * replayed: every wake-up closes a nap, from the minute of the latest
 * falling asleep to the minute of waking, for the guard of the latest
 * shift start. Naps are summed per guard, and a 60-slot histogram finds
 * the minute a guard is most often asleep.
 */
module GuardNaps {
  import opened Wrappers

  type U8 = x: int | 0 <= x < 0x100
  type U16 = x: int | 0 <= x < 0x1_0000
  type GuardId = U16

  // ---------------------------------------------------------------------
  // Timestamps
  // ---------------------------------------------------------------------

  datatype DateTime = DateTime(year: U16, month: U8, day: U8, hour: U8, minute: U8)

  /** The derived ordering: lexicographic on year, month, day, hour, minute. */
  predicate LessEq(a: DateTime, b: DateTime)
  {
    if a.year != b.year then a.year < b.year
    else if a.month != b.month then a.month < b.month
    else if a.day != b.day then a.day < b.day
    else if a.hour != b.hour then a.hour < b.hour
    else a.minute <= b.minute
  }

  /** `LessEq` is a total order. */
  lemma LessEqIsTotalOrder(a: DateTime, b: DateTime, c: DateTime)
    ensures LessEq(a, a)
    ensures LessEq(a, b) && LessEq(b, a) ==> a == b
    ensures LessEq(a, b) && LessEq(b, c) ==> LessEq(a, c)
    ensures LessEq(a, b) || LessEq(b, a)
  {
  }

  // ---------------------------------------------------------------------
  // The fixed-width timestamp grammar "YYYY-MM-DD hh:mm"
  // ---------------------------------------------------------------------

  predicate IsDigit(c: char) { '0' <= c <= '9' }

  function DigitValue(c: char): nat
    requires IsDigit(c)
  {
    c as int - '0' as int
  }

  function Pow10(n: nat): nat
  {
    if n == 0 then 1 else 10 * Pow10(n - 1)
  }

  /** The value of a string of decimal digits: fewer than `n` digits stay below 10^n. */
  function DigitsValue(ds: string): (v: nat)
    requires forall i :: 0 <= i < |ds| ==> IsDigit(ds[i])
    ensures v < Pow10(|ds|)
  {
    if |ds| == 0 then 0
    else DigitsValue(ds[..|ds| - 1]) * 10 + DigitValue(ds[|ds| - 1])
  }

  /**
   * Unsigned integer parsing: an optional '+' sign, then at least one
   * digit and nothing else; values not below `bound` overflow.
   */
  function ParseUnsigned(s: string, bound: nat): (r: Option<nat>)
    ensures r.Some? ==> r.value < bound && r.value < Pow10(|s|)
  {
    var digits := if |s| > 0 && s[0] == '+' then s[1..] else s;
    if |digits| == 0 || exists i :: 0 <= i < |digits| && !IsDigit(digits[i]) then None
    else if DigitsValue(digits) < bound then Some(DigitsValue(digits))
    else None
  }

  /**
   * Parses a timestamp at the start of `s`: a four-character year, then
   * two-character month, day, hour and minute, separated by '-', '-', ' '
   * and ':'. Returns the timestamp and the rest of the input.
   */
  function ParseDateTime(s: string): (r: Option<(DateTime, string)>)
    ensures r.Some? ==> |s| >= 16 && r.value.1 == s[16..] && Printable(r.value.0)
    ensures r.Some? ==> s[4] == '-' && s[7] == '-' && s[10] == ' ' && s[13] == ':'
  {
    if |s| < 16 || s[4] != '-' || s[7] != '-' || s[10] != ' ' || s[13] != ':' then None
    else
      match (ParseUnsigned(s[0..4], 0x1_0000), ParseUnsigned(s[5..7], 0x100), ParseUnsigned(s[8..10], 0x100),
             ParseUnsigned(s[11..13], 0x100), ParseUnsigned(s[14..16], 0x100))
      case (Some(year), Some(month), Some(day), Some(hour), Some(minute)) =>
        Some((DateTime(year, month, day, hour, minute), s[16..]))
      case _ => None
  }

  function Digit(n: nat): char
    requires n < 10
  {
    ('0' as int + n) as char
  }

  /** `n` written with exactly two digits. */
  function Pad2(n: nat): string
    requires n < 100
  {
    [Digit(n / 10), Digit(n % 10)]
  }

  /** `n` written with exactly four digits. */
  function Pad4(n: nat): string
    requires n < 10000
  {
    [Digit(n / 1000), Digit(n / 100 % 10), Digit(n / 10 % 10), Digit(n % 10)]
  }

  /** A timestamp whose fields fit the fixed widths. */
  predicate Printable(dt: DateTime)
  {
    dt.year < 10000 && dt.month < 100 && dt.day < 100 && dt.hour < 100 && dt.minute < 100
  }

  /** The zero-padded text of a timestamp. */
  function Render(dt: DateTime): string
    requires Printable(dt)
  {
    Pad4(dt.year) + "-" + Pad2(dt.month) + "-" + Pad2(dt.day) + " " + Pad2(dt.hour) + ":" + Pad2(dt.minute)
  }

  lemma ParsePad2(n: nat, bound: nat)
    requires n < 100 && 100 <= bound
    ensures ParseUnsigned(Pad2(n), bound) == Some(n)
  {
    var p := Pad2(n);
    assert p[..1][..0] == [];
    assert DigitsValue(p[..1]) == n / 10;
    assert p[..|p| - 1] == p[..1];
    assert DigitsValue(p) == n;
  }

  lemma ParsePad4(n: nat, bound: nat)
    requires n < 10000 && 10000 <= bound
    ensures ParseUnsigned(Pad4(n), bound) == Some(n)
  {
    var p := Pad4(n);
    Pad4Arithmetic(n);
    assert p[..1][..0] == [];
    assert DigitsValue(p[..1]) == n / 1000;
    assert p[..2][..1] == p[..1];
    assert DigitsValue(p[..2]) == n / 100;
    assert p[..3][..2] == p[..2];
    assert DigitsValue(p[..3]) == n / 10;
    assert p[..|p| - 1] == p[..3];
    assert DigitsValue(p) == n;
  }

  lemma Pad4Arithmetic(n: nat)
    requires n < 10000
    ensures n / 1000 * 10 + n / 100 % 10 == n / 100
    ensures n / 100 * 10 + n / 10 % 10 == n / 10
    ensures n / 10 * 10 + n % 10 == n
  {
  }

  /** Every printable timestamp parses back from its text, whatever follows it. */
  lemma ParseRender(dt: DateTime, rest: string)
    requires Printable(dt)
    ensures ParseDateTime(Render(dt) + rest) == Some((dt, rest))
  {
    var s := Render(dt) + rest;
    assert s[0..4] == Pad4(dt.year);
    assert s[5..7] == Pad2(dt.month);
    assert s[8..10] == Pad2(dt.day);
    assert s[11..13] == Pad2(dt.hour);
    assert s[14..16] == Pad2(dt.minute);
    assert s[16..] == rest;
    ParsePad4(dt.year, 0x1_0000);
    ParsePad2(dt.month, 0x100);
    ParsePad2(dt.day, 0x100);
    ParsePad2(dt.hour, 0x100);
    ParsePad2(dt.minute, 0x100);
  }

  /** "1518-07-31 00:54" is 31 July 1518, 00:54. */
  lemma ParseExample(s: string)
    requires s == "1518-07-31 00:54"
    ensures ParseDateTime(s) == Some((DateTime(1518, 7, 31, 0, 54), ""))
  {
    var dt := DateTime(1518, 7, 31, 0, 54);
    ParseRender(dt, "");
    PadExamples(dt.year, dt.month, dt.day, dt.hour, dt.minute);
    ExampleText(s);
    assert Render(dt) + "" == s;
  }

  lemma PadExamples(year: nat, month: nat, day: nat, hour: nat, minute: nat)
    requires year == 1518 && month == 7 && day == 31 && hour == 0 && minute == 54
    ensures Pad4(year) == "1518" && Pad2(month) == "07" && Pad2(day) == "31"
    ensures Pad2(hour) == "00" && Pad2(minute) == "54"
  {
  }

  lemma ExampleText(s: string)
    requires s == "1518-07-31 00:54"
    ensures s == "1518" + "-" + "07" + "-" + "31" + " " + "00" + ":" + "54"
  {
  }

  // ---------------------------------------------------------------------
  // Events and sorting
  // ---------------------------------------------------------------------

  datatype Action = FallsAsleep | WakesUp | StartsShift(guardId: GuardId)

  datatype Event = Event(datetime: DateTime, action: Action)

  /** Events in non-decreasing timestamp order. */
  predicate Sorted(events: seq<Event>)
  {
    forall i, j :: 0 <= i < j < |events| ==> LessEq(events[i].datetime, events[j].datetime)
  }

  /** Inserts `e` after the last event not later than it, scanning from the end. */
  function Insert(sorted: seq<Event>, e: Event): seq<Event>
    decreases |sorted|
  {
    if |sorted| == 0 then [e]
    else if LessEq(sorted[|sorted| - 1].datetime, e.datetime) then sorted + [e]
    else Insert(sorted[..|sorted| - 1], e) + [sorted[|sorted| - 1]]
  }

  /** Inserting adds exactly `e`. */
  lemma {:induction false} InsertAdds(sorted: seq<Event>, e: Event)
    ensures |Insert(sorted, e)| == |sorted| + 1
    ensures multiset(Insert(sorted, e)) == multiset(sorted) + multiset{e}
    decreases |sorted|
  {
    if |sorted| > 0 && !LessEq(sorted[|sorted| - 1].datetime, e.datetime) {
      var init := sorted[..|sorted| - 1];
      InsertAdds(init, e);
      assert sorted == init + [sorted[|sorted| - 1]];
    }
  }

  /** Inserting into a sorted sequence keeps it sorted. */
  lemma {:induction false} InsertKeepsSorted(sorted: seq<Event>, e: Event)
    requires Sorted(sorted)
    ensures Sorted(Insert(sorted, e))
    decreases |sorted|
  {
    if |sorted| == 0 {
    } else {
      var last := sorted[|sorted| - 1];
      if LessEq(last.datetime, e.datetime) {
        AppendAfterLast(sorted, e);
      } else {
        var init := sorted[..|sorted| - 1];
        assert Sorted(init);
        InsertKeepsSorted(init, e);
        InsertAdds(init, e);
        assert sorted == init + [last];
        forall x | x in multiset(Insert(init, e)) ensures LessEq(x.datetime, last.datetime) {
          assert x in multiset(init) || x == e;
          LessEqIsTotalOrder(x.datetime, last.datetime, e.datetime);
        }
        InsertEnds(Insert(init, e), last);
      }
    }
  }

  lemma AppendAfterLast(sorted: seq<Event>, e: Event)
    requires Sorted(sorted) && |sorted| > 0 && LessEq(sorted[|sorted| - 1].datetime, e.datetime)
    ensures Sorted(sorted + [e])
  {
    var last := sorted[|sorted| - 1];
    forall x | x in multiset(sorted) ensures LessEq(x.datetime, e.datetime) {
      var i :| 0 <= i < |sorted| && sorted[i] == x;
      LessEqIsTotalOrder(x.datetime, last.datetime, e.datetime);
    }
    InsertEnds(sorted, e);
  }

  lemma InsertEnds(init: seq<Event>, last: Event)
    requires Sorted(init)
    requires forall x :: x in multiset(init) ==> LessEq(x.datetime, last.datetime)
    ensures Sorted(init + [last])
  {
    forall i | 0 <= i < |init| ensures LessEq(init[i].datetime, last.datetime) {
      assert init[i] in multiset(init);
    }
  }

  /** The stable sort by timestamp: sorted, and a permutation of its input. */
  function SortByDateTime(events: seq<Event>): (r: seq<Event>)
    ensures |r| == |events|
    ensures Sorted(r)
    ensures multiset(r) == multiset(events)
  {
    if |events| == 0 then []
    else
      var init, last := events[..|events| - 1], events[|events| - 1];
      var rest := SortByDateTime(init);
      SortStep(events, rest);
      Insert(rest, last)
  }

  /** Inserting the last event into the sorted prefix sorts the whole sequence. */
  lemma SortStep(events: seq<Event>, rest: seq<Event>)
    requires |events| > 0
    requires var init := events[..|events| - 1];
             |rest| == |init| && Sorted(rest) && multiset(rest) == multiset(init)
    ensures var r := Insert(rest, events[|events| - 1]);
            |r| == |events| && Sorted(r) && multiset(r) == multiset(events)
  {
    var init, last := events[..|events| - 1], events[|events| - 1];
    InsertAdds(rest, last);
    InsertKeepsSorted(rest, last);
    assert events == init + [last];
  }

  lemma SortedPrefix(events: seq<Event>)
    requires Sorted(events) && |events| > 0
    ensures Sorted(events[..|events| - 1])
  {
  }

  /** Sorting events that are already in order leaves them as they are. */
  lemma {:induction false} SortKeepsSorted(events: seq<Event>)
    requires Sorted(events)
    ensures SortByDateTime(events) == events
  {
    if |events| > 0 {
      var init, last := events[..|events| - 1], events[|events| - 1];
      SortedPrefix(events);
      SortKeepsSorted(init);
      assert |init| == 0 || LessEq(init[|init| - 1].datetime, last.datetime);
      assert Insert(init, last) == events;
    }
  }

  // ---------------------------------------------------------------------
  // Naps
  // ---------------------------------------------------------------------

  datatype Nap = Nap(startMin: U8, endMin: U8)
  {
    predicate Valid() { startMin <= endMin }

    /** The length of the nap in minutes; the unsigned subtraction needs a valid nap. */
    function Duration(): (d: U8)
      requires Valid()
      ensures d + startMin == endMin
    {
      endMin - startMin
    }
  }

  /** The guard on duty after the first `k` events: the latest shift start, or the first event's guard. */
  function ActiveGuard(events: seq<Event>, k: nat): GuardId
    requires 0 < |events| && events[0].action.StartsShift? && k <= |events|
  {
    if k == 0 then events[0].action.guardId
    else if events[k - 1].action.StartsShift? then events[k - 1].action.guardId
    else ActiveGuard(events, k - 1)
  }

  /** The minute of the latest falling asleep among the first `k` events, or 0. */
  function NapStart(events: seq<Event>, k: nat): U8
    requires k <= |events|
  {
    if k == 0 then 0
    else if events[k - 1].action == FallsAsleep then events[k - 1].datetime.minute
    else NapStart(events, k - 1)
  }

  /** The naps closed by the wake-ups among the first `k` events while `guard` was on duty, in order. */
  function NapsOf(events: seq<Event>, guard: GuardId, k: nat): seq<Nap>
    requires 0 < |events| && events[0].action.StartsShift? && k <= |events|
  {
    if k == 0 then []
    else
      var e := events[k - 1];
      NapsOf(events, guard, k - 1)
      + if e.action == WakesUp && ActiveGuard(events, k - 1) == guard
        then [Nap(NapStart(events, k - 1), e.datetime.minute)] else []
  }

  /** The indices of the wake-ups among the first `k` events while `guard` was on duty. */
  function WakeUps(events: seq<Event>, guard: GuardId, k: nat): (r: seq<nat>)
    requires 0 < |events| && events[0].action.StartsShift? && k <= |events|
    ensures forall a :: 0 <= a < |r| ==> r[a] < k
  {
    if k == 0 then []
    else WakeUps(events, guard, k - 1)
         + if events[k - 1].action == WakesUp && ActiveGuard(events, k - 1) == guard then [k - 1] else []
  }

  /** `WakeUps` lists exactly the wake-ups during the guard's shifts. */
  lemma {:induction false} WakeUpsMembers(events: seq<Event>, guard: GuardId, k: nat)
    requires 0 < |events| && events[0].action.StartsShift? && k <= |events|
    ensures forall i :: i in WakeUps(events, guard, k) <==>
              0 <= i < k && events[i].action == WakesUp && ActiveGuard(events, i) == guard
  {
    if k > 0 {
      WakeUpsMembers(events, guard, k - 1);
      var prev := WakeUps(events, guard, k - 1);
      var step: seq<nat> := if events[k - 1].action == WakesUp && ActiveGuard(events, k - 1) == guard then [k - 1] else [];
      assert WakeUps(events, guard, k) == prev + step;
      assert forall i :: i in prev + step <==> i in prev || i in step;
    }
  }

  predicate Ascending(r: seq<nat>)
  {
    forall a, b :: 0 <= a < b < |r| ==> r[a] < r[b]
  }

  /** `WakeUps` is strictly ascending. */
  lemma {:induction false} WakeUpsAscending(events: seq<Event>, guard: GuardId, k: nat)
    requires 0 < |events| && events[0].action.StartsShift? && k <= |events|
    ensures Ascending(WakeUps(events, guard, k))
  {
    if k > 0 {
      WakeUpsAscending(events, guard, k - 1);
      var prev := WakeUps(events, guard, k - 1);
      if events[k - 1].action == WakesUp && ActiveGuard(events, k - 1) == guard {
        var r := prev + [k - 1];
        assert WakeUps(events, guard, k) == r;
        forall a, b | 0 <= a < b < |r| ensures r[a] < r[b] {
          if b < |prev| {
            assert r[a] == prev[a] && r[b] == prev[b];
          } else {
            assert r[a] == prev[a] && prev[a] < k - 1;
          }
        }
      } else {
        assert WakeUps(events, guard, k) == prev + [];
        assert prev + [] == prev;
      }
    }
  }

  /** A guard has one nap per wake-up during its shifts, nap `n` closed by wake-up `n`. */
  lemma {:induction false} NapsFromWakeUps(events: seq<Event>, guard: GuardId, k: nat)
    requires 0 < |events| && events[0].action.StartsShift? && k <= |events|
    ensures var naps, wakes := NapsOf(events, guard, k), WakeUps(events, guard, k);
            |naps| == |wakes|
            && forall n :: 0 <= n < |naps| ==>
                 naps[n] == Nap(NapStart(events, wakes[n]), events[wakes[n]].datetime.minute)
  {
    if k > 0 {
      NapsFromWakeUps(events, guard, k - 1);
    }
  }

  /** On sorted events, a guard's naps are stored in chronological order of their wake-ups. */
  lemma NapsChronological(events: seq<Event>, guard: GuardId)
    requires 0 < |events| && events[0].action.StartsShift? && Sorted(events)
    ensures var wakes := WakeUps(events, guard, |events|);
            forall a, b :: 0 <= a < b < |wakes| ==> LessEq(events[wakes[a]].datetime, events[wakes[b]].datetime)
  {
    WakeUpsAscending(events, guard, |events|);
    var wakes := WakeUps(events, guard, |events|);
    forall a, b | 0 <= a < b < |wakes| ensures LessEq(events[wakes[a]].datetime, events[wakes[b]].datetime) {
      assert wakes[a] < wakes[b];
    }
  }

  /** The map that the replay has built after the first `k` events. */
  ghost predicate NapsSoFar(naps: map<GuardId, seq<Nap>>, events: seq<Event>, k: nat)
    requires 0 < |events| && events[0].action.StartsShift? && k <= |events|
  {
    forall g: GuardId ::
      (g in naps <==> NapsOf(events, g, k) != [])
      && (g in naps ==> naps[g] == NapsOf(events, g, k))
  }

  /**
   * Sorts the events and replays them; the first event after sorting must
   * start a shift. A guard is a key exactly when it has a nap.
   */
  method CalcNaps(events: seq<Event>) returns (naps: map<GuardId, seq<Nap>>)
    requires 0 < |events| && SortByDateTime(events)[0].action.StartsShift?
    ensures NapsSoFar(naps, SortByDateTime(events), |events|)
  {
    naps := map[];
    var sorted := SortByDateTime(events);
    var activeGuard := sorted[0].action.guardId;
    var napStartMin: U8 := 0;
    for k := 0 to |sorted|
      invariant activeGuard == ActiveGuard(sorted, k)
      invariant napStartMin == NapStart(sorted, k)
      invariant NapsSoFar(naps, sorted, k)
    {
      var event := sorted[k];
      match event.action {
        case WakesUp =>
          ghost var before := naps;
          var napsForActiveGuard := if activeGuard in naps then naps[activeGuard] else [];
          naps := naps[activeGuard := napsForActiveGuard + [Nap(napStartMin, event.datetime.minute)]];
          ReplayWakeUp(before, naps, sorted, k);
        case FallsAsleep =>
          napStartMin := event.datetime.minute;
          ReplayOther(naps, sorted, k);
        case StartsShift(guardId) =>
          activeGuard := guardId;
          ReplayOther(naps, sorted, k);
      }
    }
  }

  /** A wake-up appends one nap to the list of the guard on duty. */
  lemma ReplayWakeUp(before: map<GuardId, seq<Nap>>, after: map<GuardId, seq<Nap>>, events: seq<Event>, k: nat)
    requires 0 < |events| && events[0].action.StartsShift? && k < |events|
    requires events[k].action == WakesUp
    requires NapsSoFar(before, events, k)
    requires var g := ActiveGuard(events, k);
             after == before[g := (if g in before then before[g] else []) + [Nap(NapStart(events, k), events[k].datetime.minute)]]
    ensures NapsSoFar(after, events, k + 1)
  {
  }

  /** Falling asleep and starting a shift close no nap. */
  lemma ReplayOther(naps: map<GuardId, seq<Nap>>, events: seq<Event>, k: nat)
    requires 0 < |events| && events[0].action.StartsShift? && k < |events|
    requires events[k].action != WakesUp
    requires NapsSoFar(naps, events, k)
    ensures NapsSoFar(naps, events, k + 1)
  {
  }

  predicate AllValid(naps: seq<Nap>)
  {
    forall i :: 0 <= i < |naps| ==> naps[i].Valid()
  }

  /** The sum of the nap durations, accumulated left to right. */
  function TotalNapTime(naps: seq<Nap>): (total: nat)
    requires AllValid(naps)
    ensures forall i :: 0 <= i < |naps| ==> naps[i].Duration() <= total
  {
    if |naps| == 0 then 0
    else
      var init := naps[..|naps| - 1];
      assert forall i :: 0 <= i < |init| ==> init[i] == naps[i];
      TotalNapTime(init) + naps[|naps| - 1].Duration()
  }

  /** A guard has no nap time exactly when every one of its naps is empty. */
  lemma {:induction false} NoNapTimeIffEmptyNaps(naps: seq<Nap>)
    requires AllValid(naps)
    ensures TotalNapTime(naps) == 0 <==> forall i :: 0 <= i < |naps| ==> naps[i].startMin == naps[i].endMin
  {
    if |naps| > 0 {
      var init := naps[..|naps| - 1];
      assert forall i :: 0 <= i < |init| ==> init[i] == naps[i];
      NoNapTimeIffEmptyNaps(init);
    }
  }

  // ---------------------------------------------------------------------
  // The minute histogram
  // ---------------------------------------------------------------------

  /** How many naps cover minute `m`, each nap covering [startMin, endMin). */
  function Coverage(naps: seq<Nap>, m: int): nat
  {
    if |naps| == 0 then 0
    else Coverage(naps[..|naps| - 1], m) + if naps[|naps| - 1].startMin <= m < naps[|naps| - 1].endMin then 1 else 0
  }

  /** `minute` is a minute of the hour that no other minute is covered more often than. */
  predicate MostCovered(naps: seq<Nap>, minute: int)
  {
    0 <= minute < 60 && forall m :: 0 <= m < 60 ==> Coverage(naps, m) <= Coverage(naps, minute)
  }

  /** Every minute a nap covers is a slot of the 60-slot histogram. */
  predicate FitsHour(naps: seq<Nap>)
  {
    forall i :: 0 <= i < |naps| ==> naps[i].endMin <= 60 || naps[i].endMin <= naps[i].startMin
  }

  /**
   * Counts, for each minute of the hour, the naps covering it, and returns
   * the last minute with the largest count.
   */
  method MostCommonMinute(naps: seq<Nap>) returns (minute: nat)
    requires FitsHour(naps)
    ensures minute < 60
    ensures forall m :: 0 <= m < 60 ==> Coverage(naps, m) <= Coverage(naps, minute)
    ensures forall m :: minute < m < 60 ==> Coverage(naps, m) < Coverage(naps, minute)
  {
    var minuteCounts := new nat[60](_ => 0);
    for i := 0 to |naps|
      invariant forall m :: 0 <= m < 60 ==> minuteCounts[m] == Coverage(naps[..i], m)
    {
      var nap := naps[i];
      var min: int := nap.startMin;
      while min < nap.endMin
        invariant nap.startMin <= min
        invariant min == nap.startMin || min <= nap.endMin
        invariant forall m :: 0 <= m < 60 ==>
                    minuteCounts[m] == Coverage(naps[..i], m) + if nap.startMin <= m < min then 1 else 0
        decreases nap.endMin - min
      {
        minuteCounts[min] := minuteCounts[min] + 1;
        min := min + 1;
      }
      assert naps[..i + 1][..i] == naps[..i];
      assert forall m :: Coverage(naps[..i + 1], m)
                         == Coverage(naps[..i], m) + if nap.startMin <= m < nap.endMin then 1 else 0;
    }
    assert naps[..|naps|] == naps;
    minute := 0;
    for m := 1 to 60
      invariant minute < m
      invariant forall k :: 0 <= k < m ==> minuteCounts[k] <= minuteCounts[minute]
      invariant forall k :: minute < k < m ==> minuteCounts[k] < minuteCounts[minute]
    {
      if minuteCounts[m] >= minuteCounts[minute] {
        minute := m;
      }
    }
  }

  /** The number of naps covering each minute below `k`, summed. */
  function SumCoverage(naps: seq<Nap>, k: nat): nat
  {
    if k == 0 then 0 else SumCoverage(naps, k - 1) + Coverage(naps, k - 1)
  }

  /** The number of minutes below `k` that one nap covers. */
  function Covered(nap: Nap, k: nat): nat
  {
    if k == 0 then 0 else Covered(nap, k - 1) + if nap.startMin <= k - 1 < nap.endMin then 1 else 0
  }

  lemma {:induction false} CoveredCount(nap: Nap, k: nat)
    requires nap.Valid()
    ensures Covered(nap, k) == if k <= nap.startMin then 0 else if k <= nap.endMin then k - nap.startMin else nap.Duration()
  {
    if k > 0 {
      CoveredCount(nap, k - 1);
    }
  }

  lemma {:induction false} SumCoverageSnoc(naps: seq<Nap>, k: nat)
    requires |naps| > 0
    ensures SumCoverage(naps, k) == SumCoverage(naps[..|naps| - 1], k) + Covered(naps[|naps| - 1], k)
  {
    if k > 0 {
      SumCoverageSnoc(naps, k - 1);
    }
  }

  lemma {:induction false} NoNapsNoCoverage(naps: seq<Nap>, k: nat)
    requires |naps| == 0
    ensures SumCoverage(naps, k) == 0
  {
    if k > 0 {
      NoNapsNoCoverage(naps, k - 1);
    }
  }

  /**
   * The total nap time is the sum of the 60-slot histogram: every minute
   * of every nap is counted once.
   */
  lemma {:induction false} TotalIsHistogramSum(naps: seq<Nap>)
    requires AllValid(naps) && FitsHour(naps)
    ensures TotalNapTime(naps) == SumCoverage(naps, 60)
  {
    if |naps| == 0 {
      NoNapsNoCoverage(naps, 60);
    } else {
      var init := naps[..|naps| - 1];
      assert AllValid(init) && FitsHour(init) by {
        assert forall i :: 0 <= i < |init| ==> init[i] == naps[i];
      }
      TotalIsHistogramSum(init);
      SumCoverageSnoc(naps, 60);
      var last := naps[|naps| - 1];
      assert last.Valid() && (last.endMin <= 60 || last.endMin <= last.startMin);
      CoveredCount(last, 60);
      assert Covered(last, 60) == last.Duration();
      assert TotalNapTime(naps) == TotalNapTime(init) + last.Duration();
    }
  }

  // ---------------------------------------------------------------------
  // The guard asleep the longest
  // ---------------------------------------------------------------------

  /** Every entry holds valid naps. */
  predicate EntriesValid(entries: seq<(GuardId, seq<Nap>)>)
  {
    forall i :: 0 <= i < |entries| ==> AllValid(entries[i].1)
  }

  /**
   * The guard of the last entry with the largest total nap time, over the
   * entries in iteration order; there must be at least one entry.
   */
  function MostTimeNapping(entries: seq<(GuardId, seq<Nap>)>): (guard: GuardId)
    requires |entries| > 0 && EntriesValid(entries)
    ensures exists i :: 0 <= i < |entries| && entries[i].0 == guard
                        && forall j :: 0 <= j < |entries| ==> TotalNapTime(entries[j].1) <= TotalNapTime(entries[i].1)
  {
    entries[MaxByTotal(entries, |entries|)].0
  }

  /** The index of the last entry below `k` with the largest total. */
  function MaxByTotal(entries: seq<(GuardId, seq<Nap>)>, k: nat): (i: nat)
    requires 0 < k <= |entries| && EntriesValid(entries)
    ensures i < k
    ensures forall j :: 0 <= j < k ==> TotalNapTime(entries[j].1) <= TotalNapTime(entries[i].1)
    ensures forall j :: i < j < k ==> TotalNapTime(entries[j].1) < TotalNapTime(entries[i].1)
  {
    if k == 1 then 0
    else
      var best := MaxByTotal(entries, k - 1);
      if TotalNapTime(entries[k - 1].1) >= TotalNapTime(entries[best].1) then k - 1 else best
  }

  /** `entries` lists the map's entries, each key once, in some order. */
  ghost predicate Enumerates(entries: seq<(GuardId, seq<Nap>)>, naps: map<GuardId, seq<Nap>>)
  {
    (forall i :: 0 <= i < |entries| ==> entries[i].0 in naps && naps[entries[i].0] == entries[i].1)
    && (forall g :: g in naps ==> exists i :: 0 <= i < |entries| && entries[i].0 == g)
  }

  /** Whatever the iteration order, the guard chosen has a maximal total among all guards. */
  lemma MostTimeNappingOfMap(naps: map<GuardId, seq<Nap>>, entries: seq<(GuardId, seq<Nap>)>)
    requires Enumerates(entries, naps) && |entries| > 0
    requires forall g :: g in naps ==> AllValid(naps[g])
    ensures EntriesValid(entries)
    ensures var guard := MostTimeNapping(entries);
            guard in naps && forall g :: g in naps ==> TotalNapTime(naps[g]) <= TotalNapTime(naps[guard])
  {
    var guard := MostTimeNapping(entries);
    var i :| 0 <= i < |entries| && entries[i].0 == guard
             && forall j :: 0 <= j < |entries| ==> TotalNapTime(entries[j].1) <= TotalNapTime(entries[i].1);
    forall g | g in naps ensures TotalNapTime(naps[g]) <= TotalNapTime(naps[guard]) {
      var j :| 0 <= j < |entries| && entries[j].0 == g;
    }
  }

  // ---------------------------------------------------------------------
  // The example log
  // ---------------------------------------------------------------------

  /** Guard 10's naps in the example log: 00:05-00:25, 00:30-00:55 and 00:24-00:29. */
  lemma GuardTenTotal(naps: seq<Nap>)
    requires naps == [Nap(5, 25), Nap(30, 55), Nap(24, 29)]
    ensures AllValid(naps) && TotalNapTime(naps) == 50 && FitsHour(naps)
  {
    assert naps[..2][..1][..0] == [];
    assert naps[..2][..1] == [Nap(5, 25)];
    assert naps[..2] == [Nap(5, 25), Nap(30, 55)];
    assert TotalNapTime(naps[..2][..1]) == 20;
    assert TotalNapTime(naps[..2]) == 45;
  }

  /** Guard 99's naps in the example log: 00:40-00:50, 00:36-00:46 and 00:45-00:55. */
  lemma GuardNinetyNineTotal(naps: seq<Nap>)
    requires naps == [Nap(40, 50), Nap(36, 46), Nap(45, 55)]
    ensures AllValid(naps) && TotalNapTime(naps) == 30
  {
    assert naps[..2][..1][..0] == [];
    assert naps[..2][..1] == [Nap(40, 50)];
    assert naps[..2] == [Nap(40, 50), Nap(36, 46)];
    assert TotalNapTime(naps[..2][..1]) == 10;
    assert TotalNapTime(naps[..2]) == 20;
  }

  /** Minute 24 is the only minute guard 10 is asleep in twice, so it is the answer. */
  lemma GuardTenMinute(naps: seq<Nap>, minute: int)
    requires naps == [Nap(5, 25), Nap(30, 55), Nap(24, 29)]
    requires MostCovered(naps, minute)
    ensures minute == 24
  {
    assert naps[..2][..1][..0] == [];
    assert naps[..2][..1] == [Nap(5, 25)];
    assert naps[..2] == [Nap(5, 25), Nap(30, 55)];
    assert Coverage(naps[..2][..1], 24) == 1;
    assert Coverage(naps[..2], 24) == 1;
    assert Coverage(naps, 24) == 2;
    assert Coverage(naps[..2][..1], minute) == if 5 <= minute < 25 then 1 else 0;
    assert Coverage(naps[..2], minute) == Coverage(naps[..2][..1], minute) + if 30 <= minute < 55 then 1 else 0;
  }

  /** With guard 10 at 50 minutes and guard 99 at 30, guard 10 is chosen in either order. */
  lemma MostTimeNappingExample(naps: map<GuardId, seq<Nap>>, entries: seq<(GuardId, seq<Nap>)>)
    requires naps == map[10 := [Nap(5, 25), Nap(30, 55), Nap(24, 29)], 99 := [Nap(40, 50), Nap(36, 46), Nap(45, 55)]]
    requires Enumerates(entries, naps) && |entries| > 0
    ensures EntriesValid(entries) && MostTimeNapping(entries) == 10
  {
    GuardTenTotal(naps[10]);
    GuardNinetyNineTotal(naps[99]);
    MostTimeNappingOfMap(naps, entries);
  }

  /** The seventeen events of the example log, in order. */
  predicate ExampleLog(events: seq<Event>)
  {
    |events| == 17
    && events[0] == Event(DateTime(1518, 11, 1, 0, 0), StartsShift(10))
    && events[1] == Event(DateTime(1518, 11, 1, 0, 5), FallsAsleep)
    && events[2] == Event(DateTime(1518, 11, 1, 0, 25), WakesUp)
    && events[3] == Event(DateTime(1518, 11, 1, 0, 30), FallsAsleep)
    && events[4] == Event(DateTime(1518, 11, 1, 0, 55), WakesUp)
    && events[5] == Event(DateTime(1518, 11, 1, 23, 58), StartsShift(99))
    && events[6] == Event(DateTime(1518, 11, 2, 0, 40), FallsAsleep)
    && events[7] == Event(DateTime(1518, 11, 2, 0, 50), WakesUp)
    && events[8] == Event(DateTime(1518, 11, 3, 0, 5), StartsShift(10))
    && events[9] == Event(DateTime(1518, 11, 3, 0, 24), FallsAsleep)
    && events[10] == Event(DateTime(1518, 11, 3, 0, 29), WakesUp)
    && events[11] == Event(DateTime(1518, 11, 4, 0, 2), StartsShift(99))
    && events[12] == Event(DateTime(1518, 11, 4, 0, 36), FallsAsleep)
    && events[13] == Event(DateTime(1518, 11, 4, 0, 46), WakesUp)
    && events[14] == Event(DateTime(1518, 11, 5, 0, 3), StartsShift(99))
    && events[15] == Event(DateTime(1518, 11, 5, 0, 45), FallsAsleep)
    && events[16] == Event(DateTime(1518, 11, 5, 0, 55), WakesUp)
  }

  /** Every event is not earlier than the one before it. */
  predicate AdjacentInOrder(events: seq<Event>)
  {
    forall i :: 0 < i < |events| ==> LessEq(events[i - 1].datetime, events[i].datetime)
  }

  /** Order between neighbours gives order between every pair. */
  lemma {:induction false} SortedFromAdjacent(events: seq<Event>)
    requires AdjacentInOrder(events)
    ensures Sorted(events)
  {
    if |events| > 1 {
      var init, last := events[..|events| - 1], events[|events| - 1];
      assert AdjacentInOrder(init) by {
        forall i | 0 < i < |init| ensures LessEq(init[i - 1].datetime, init[i].datetime) {
          assert init[i - 1] == events[i - 1] && init[i] == events[i];
        }
      }
      SortedFromAdjacent(init);
      forall x | x in multiset(init) ensures LessEq(x.datetime, last.datetime) {
        var i :| 0 <= i < |init| && init[i] == x;
        var prev := init[|init| - 1];
        assert LessEq(prev.datetime, last.datetime);
        LessEqIsTotalOrder(x.datetime, prev.datetime, last.datetime);
      }
      InsertEnds(init, last);
      assert events == init + [last];
    }
  }

  /** The example log is already in order, so `CalcNaps` replays it as it is. */
  lemma ExampleLogKeepsOrder(events: seq<Event>)
    requires ExampleLog(events)
    ensures SortByDateTime(events) == events
  {
    forall i | 0 < i < 17 ensures LessEq(events[i - 1].datetime, events[i].datetime) {
      assert i in {1, 2, 3, 4, 5, 6, 7, 8, 9, 10, 11, 12, 13, 14, 15, 16};
    }
    SortedFromAdjacent(events);
    SortKeepsSorted(events);
  }

  /** Replaying the first two nights gives guard 10 two naps and guard 99 one. */
  lemma ExampleLogFirstNaps(events: seq<Event>, g: GuardId)
    requires ExampleLog(events)
    ensures NapsOf(events, g, 8) == if g == 10 then [Nap(5, 25), Nap(30, 55)] else if g == 99 then [Nap(40, 50)] else []
  {
    assert ActiveGuard(events, 2) == 10 && NapStart(events, 2) == 5;
    assert ActiveGuard(events, 4) == 10 && NapStart(events, 4) == 30;
    assert ActiveGuard(events, 7) == 99 && NapStart(events, 7) == 40;
    assert NapsOf(events, g, 1) == [];
    assert NapsOf(events, g, 2) == [];
    assert NapsOf(events, g, 3) == if g == 10 then [Nap(5, 25)] else [];
    assert NapsOf(events, g, 4) == NapsOf(events, g, 3);
    assert NapsOf(events, g, 5) == if g == 10 then [Nap(5, 25), Nap(30, 55)] else [];
    assert NapsOf(events, g, 7) == NapsOf(events, g, 5);
  }

  /** The third night adds guard 10's third nap. */
  lemma ExampleLogThirdNight(events: seq<Event>, g: GuardId)
    requires ExampleLog(events)
    ensures NapsOf(events, g, 11) == NapsOf(events, g, 8) + if g == 10 then [Nap(24, 29)] else []
  {
    assert ActiveGuard(events, 10) == 10 && NapStart(events, 10) == 24;
    assert NapsOf(events, g, 10) == NapsOf(events, g, 8);
  }

  /** The last two nights add guard 99's second and third naps. */
  lemma ExampleLogLastNights(events: seq<Event>, g: GuardId)
    requires ExampleLog(events)
    ensures NapsOf(events, g, 17) == NapsOf(events, g, 11) + if g == 99 then [Nap(36, 46), Nap(45, 55)] else []
  {
    assert ActiveGuard(events, 13) == 99 && NapStart(events, 13) == 36;
    assert ActiveGuard(events, 16) == 99 && NapStart(events, 16) == 45;
    assert NapsOf(events, g, 13) == NapsOf(events, g, 11);
    assert NapsOf(events, g, 14) == NapsOf(events, g, 11) + if g == 99 then [Nap(36, 46)] else [];
    assert NapsOf(events, g, 16) == NapsOf(events, g, 14);
  }

  /** Replaying the whole log gives each of guards 10 and 99 three naps. */
  lemma ExampleLogNaps(events: seq<Event>, g: GuardId)
    requires ExampleLog(events)
    ensures NapsOf(events, g, 17) == if g == 10 then [Nap(5, 25), Nap(30, 55), Nap(24, 29)]
                                     else if g == 99 then [Nap(40, 50), Nap(36, 46), Nap(45, 55)] else []
  {
    ExampleLogFirstNaps(events, g);
    ExampleLogThirdNight(events, g);
    ExampleLogLastNights(events, g);
  }

  /** The map that replaying the example log builds. */
  lemma ReplayExample(events: seq<Event>, naps: map<GuardId, seq<Nap>>)
    requires ExampleLog(events) && NapsSoFar(naps, events, 17)
    ensures naps == map[10 := [Nap(5, 25), Nap(30, 55), Nap(24, 29)], 99 := [Nap(40, 50), Nap(36, 46), Nap(45, 55)]]
  {
    var expected := map[10 := [Nap(5, 25), Nap(30, 55), Nap(24, 29)], 99 := [Nap(40, 50), Nap(36, 46), Nap(45, 55)]];
    forall g: GuardId ensures g in naps <==> g in expected
      ensures g in naps ==> naps[g] == expected[g]
    {
      ExampleLogNaps(events, g);
    }
  }

  /** The map `CalcNaps` builds from the example log. */
  lemma CalcNapsExample(events: seq<Event>, naps: map<GuardId, seq<Nap>>)
    requires ExampleLog(events) && SortByDateTime(events)[0].action.StartsShift?
    requires NapsSoFar(naps, SortByDateTime(events), |events|)
    ensures naps == map[10 := [Nap(5, 25), Nap(30, 55), Nap(24, 29)], 99 := [Nap(40, 50), Nap(36, 46), Nap(45, 55)]]
  {
    ExampleLogKeepsOrder(events);
    ReplayExample(events, naps);
  }

  /** The answers of the worked example, on the map the example log replays to. */
  lemma ExampleAnswers(naps: map<GuardId, seq<Nap>>, entries: seq<(GuardId, seq<Nap>)>)
    requires naps == map[10 := [Nap(5, 25), Nap(30, 55), Nap(24, 29)], 99 := [Nap(40, 50), Nap(36, 46), Nap(45, 55)]]
    requires Enumerates(entries, naps)
    ensures |entries| > 0 && EntriesValid(entries) && MostTimeNapping(entries) == 10
    ensures 10 in naps && AllValid(naps[10]) && TotalNapTime(naps[10]) == 50 && FitsHour(naps[10])
    ensures forall minute :: MostCovered(naps[10], minute) ==> minute == 24
  {
    assert 10 in naps;
    var guardTen := naps[10];
    assert exists i :: 0 <= i < |entries| && entries[i].0 == 10;
    MostTimeNappingExample(naps, entries);
    GuardTenTotal(guardTen);
    forall minute | MostCovered(guardTen, minute)
      ensures minute == 24
    {
      GuardTenMinute(guardTen, minute);
    }
  }

  /**
   * The worked example end to end: on the map `CalcNaps` builds from the
   * log, guard 10 naps the most (in any iteration order), for 50 minutes,
   * and minute 24 is the only minute that can be its most common one.
   */
  lemma Part1Example(events: seq<Event>, naps: map<GuardId, seq<Nap>>, entries: seq<(GuardId, seq<Nap>)>)
    requires ExampleLog(events) && SortByDateTime(events)[0].action.StartsShift?
    requires NapsSoFar(naps, SortByDateTime(events), |events|)
    requires Enumerates(entries, naps)
    ensures |entries| > 0 && EntriesValid(entries) && MostTimeNapping(entries) == 10
    ensures 10 in naps && AllValid(naps[10]) && TotalNapTime(naps[10]) == 50 && FitsHour(naps[10])
    ensures forall minute :: MostCovered(naps[10], minute) ==> minute == 24
  {
    CalcNapsExample(events, naps);
    ExampleAnswers(naps, entries);
  }

  /**
   * The example test's pipeline on the nap side: replay the log, then take
   * guard 10's total nap time and most common minute.
   */
  method ExamplePipeline(events: seq<Event>) returns (total: nat, minute: nat)
    requires ExampleLog(events)
    ensures total == 50 && minute == 24
  {
    ExampleLogKeepsOrder(events);
    var naps := CalcNaps(events);
    CalcNapsExample(events, naps);
    GuardTenTotal(naps[10]);
    total := TotalNapTime(naps[10]);
    minute := MostCommonMinute(naps[10]);
    GuardTenMinute(naps[10], minute);
  }
}
