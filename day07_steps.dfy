/**
 * Day 7 ("The Sum of Its Parts"): a greedy topological scheduler.
 *
 * Constraint lines name a step and one of its prerequisites. The builder
 * turns the pairs into a map from every mentioned step to the list of its
 * prerequisites (duplicates kept, input order). The scheduler repeatedly
 * completes the alphabetically smallest step that is not yet completed and
 * whose prerequisites are all completed, until no step is eligible.
 * There is no cycle detection: on a cyclic graph the schedule simply stops.
 */
module StepScheduler {
  import opened Wrappers

  type Step = char
  type Prerequisite = char
  type Graph = map<Step, seq<Prerequisite>>

  // ---------------------------------------------------------------------
  // The constraint line grammar
  // ---------------------------------------------------------------------

  const StepPrefix: string := "Step "
  const Middle: string := " must be finished before step "
  const Suffix: string := " can begin."

  /** The constraint line that names `prereq` as a prerequisite of `step`. */
  function Render(step: Step, prereq: Prerequisite): string
  {
    StepPrefix + [prereq] + Middle + [step] + Suffix
  }

  /**
   * Parses "Step P must be finished before step S can begin." at the start
   * of `line` into the pair (S, P) -- the step first, its prerequisite
   * second -- and returns the unconsumed rest of the line.
   */
  function ParsePrereq(line: string): (r: Option<((Step, Prerequisite), string)>)
    ensures r.Some? ==> line == Render(r.value.0.0, r.value.0.1) + r.value.1
  {
    var n := |StepPrefix| + 1 + |Middle| + 1 + |Suffix|;
    if |line| >= n
       && line[..|StepPrefix|] == StepPrefix
       && line[|StepPrefix| + 1..|StepPrefix| + 1 + |Middle|] == Middle
       && line[|StepPrefix| + 1 + |Middle| + 1..n] == Suffix
    then
      var prereq := line[|StepPrefix|];
      var step := line[|StepPrefix| + 1 + |Middle|];
      assert line[..n] == Render(step, prereq);
      assert line == line[..n] + line[n..];
      Some(((step, prereq), line[n..]))
    else
      None
  }

  /** Every rendered constraint line parses back to its own pair. */
  lemma ParseRender(step: Step, prereq: Prerequisite, rest: string)
    ensures ParsePrereq(Render(step, prereq) + rest) == Some(((step, prereq), rest))
  {
    var line := Render(step, prereq) + rest;
    var n := |StepPrefix| + 1 + |Middle| + 1 + |Suffix|;
    assert line[..|StepPrefix|] == StepPrefix;
    assert line[|StepPrefix| + 1..|StepPrefix| + 1 + |Middle|] == Middle;
    assert line[|StepPrefix| + 1 + |Middle| + 1..n] == Suffix;
    assert line[n..] == rest;
  }

  /** The first constraint line of the puzzle, "Step C must be finished before step A can begin.": step A waits for step C. */
  lemma ParseExampleLine(line: string)
    requires line == "Step " + "C" + " must be finished before step " + "A" + " can begin."
    ensures ParsePrereq(line) == Some((('A', 'C'), ""))
  {
    ParseRender('A', 'C', "");
    assert Render('A', 'C') + "" == line;
  }

  // ---------------------------------------------------------------------
  // The constraint graph builder
  // ---------------------------------------------------------------------

  /** Every step named in `pairs`, on either side of a pair. */
  function Mentioned(pairs: seq<(Step, Prerequisite)>): set<Step>
  {
    if pairs == [] then {}
    else
      var last := pairs[|pairs| - 1];
      Mentioned(pairs[..|pairs| - 1]) + {last.0, last.1}
  }

  /** The prerequisites of the pairs `(s, p)` in `pairs`, in input order, duplicates kept. */
  function PrereqsOf(pairs: seq<(Step, Prerequisite)>, s: Step): seq<Prerequisite>
  {
    if pairs == [] then []
    else
      var last := pairs[|pairs| - 1];
      PrereqsOf(pairs[..|pairs| - 1], s) + (if last.0 == s then [last.1] else [])
  }

  lemma {:induction false} PrereqsOfCons(head: (Step, Prerequisite), tail: seq<(Step, Prerequisite)>, s: Step)
    ensures PrereqsOf([head] + tail, s) == (if head.0 == s then [head.1] else []) + PrereqsOf(tail, s)
    decreases |tail|
  {
    if tail != [] {
      var front := tail[..|tail| - 1];
      assert ([head] + tail)[..|tail|] == [head] + front;
      PrereqsOfCons(head, front, s);
    }
  }

  lemma {:induction false} MentionedCons(head: (Step, Prerequisite), tail: seq<(Step, Prerequisite)>)
    ensures Mentioned([head] + tail) == {head.0, head.1} + Mentioned(tail)
    decreases |tail|
  {
    if tail != [] {
      var front := tail[..|tail| - 1];
      assert ([head] + tail)[..|tail|] == [head] + front;
      MentionedCons(head, front);
    }
  }

  /** The constraint graph that `GeneratePrereqMap` builds. */
  function PrereqMap(pairs: seq<(Step, Prerequisite)>): Graph
  {
    map s | s in Mentioned(pairs) :: PrereqsOf(pairs, s)
  }

  lemma {:induction false} MentionedIff(pairs: seq<(Step, Prerequisite)>, x: Step)
    ensures x in Mentioned(pairs) <==> exists i :: 0 <= i < |pairs| && (pairs[i].0 == x || pairs[i].1 == x)
  {
    if pairs != [] {
      var front := pairs[..|pairs| - 1];
      MentionedIff(front, x);
      if x in Mentioned(front) {
        var i :| 0 <= i < |front| && (front[i].0 == x || front[i].1 == x);
        assert pairs[i] == front[i];
      }
      if exists i :: 0 <= i < |pairs| && (pairs[i].0 == x || pairs[i].1 == x) {
        var i :| 0 <= i < |pairs| && (pairs[i].0 == x || pairs[i].1 == x);
        if i < |front| {
          assert front[i] == pairs[i];
        }
      }
    }
  }

  /** `p` is listed for `s` exactly when some input pair is `(s, p)`. */
  lemma {:induction false} PrereqsOfIff(pairs: seq<(Step, Prerequisite)>, s: Step, p: Prerequisite)
    ensures p in PrereqsOf(pairs, s) <==> exists i :: 0 <= i < |pairs| && pairs[i] == (s, p)
  {
    if pairs != [] {
      var front := pairs[..|pairs| - 1];
      PrereqsOfIff(front, s, p);
      if p in PrereqsOf(front, s) {
        var i :| 0 <= i < |front| && front[i] == (s, p);
        assert pairs[i] == front[i];
      }
      if exists i :: 0 <= i < |pairs| && pairs[i] == (s, p) {
        var i :| 0 <= i < |pairs| && pairs[i] == (s, p);
        if i < |front| {
          assert front[i] == pairs[i];
        }
      }
    }
  }

  /**
   * A step that never stands first in a pair -- one that is only ever named
   * as a prerequisite, or not named at all -- has no prerequisites.
   */
  lemma {:induction false} PrereqsOfNeverFirst(pairs: seq<(Step, Prerequisite)>, s: Step)
    requires forall i :: 0 <= i < |pairs| ==> pairs[i].0 != s
    ensures PrereqsOf(pairs, s) == []
  {
    if pairs != [] {
      var front := pairs[..|pairs| - 1];
      assert forall i :: 0 <= i < |front| ==> front[i] == pairs[i];
      PrereqsOfNeverFirst(front, s);
    }
  }

  /** Steps not mentioned at all have no prerequisites (the entries the loop leaves alone). */
  lemma PrereqsOfUnmentioned(pairs: seq<(Step, Prerequisite)>, s: Step)
    requires s !in Mentioned(pairs)
    ensures PrereqsOf(pairs, s) == []
  {
    MentionedIff(pairs, s);
    PrereqsOfNeverFirst(pairs, s);
  }

  /**
   * Builds the constraint graph: every step and every prerequisite becomes a
   * key, and the list of a step holds the prerequisites of its pairs in input
   * order, duplicates kept; an existing entry is never overwritten.
   */
  method GeneratePrereqMap(pairs: seq<(Step, Prerequisite)>) returns (m: Graph)
    ensures m.Keys == Mentioned(pairs)
    ensures forall s :: s in m ==> m[s] == PrereqsOf(pairs, s)
  {
    m := map[];
    for i := 0 to |pairs|
      invariant m.Keys == Mentioned(pairs[..i])
      invariant forall s :: s in m ==> m[s] == PrereqsOf(pairs[..i], s)
    {
      assert pairs[..i + 1][..i] == pairs[..i];
      var (step, prereq) := pairs[i];
      if step !in m {
        PrereqsOfUnmentioned(pairs[..i], step);
      }
      var entry := if step in m then m[step] else [];
      m := m[step := entry + [prereq]];
      if prereq !in m {
        PrereqsOfUnmentioned(pairs[..i], prereq);
        m := m[prereq := []];
      }
    }
    assert pairs[..|pairs|] == pairs;
  }

  /** Every prerequisite in the built graph is itself a key of it. */
  lemma PrereqMapClosed(pairs: seq<(Step, Prerequisite)>)
    ensures Closed(PrereqMap(pairs))
  {
    var g := PrereqMap(pairs);
    forall s, p | s in g && p in g[s]
      ensures p in g
    {
      PrereqsOfIff(pairs, s, p);
      var i :| 0 <= i < |pairs| && pairs[i] == (s, p);
      MentionedIff(pairs, p);
    }
  }

  // ---------------------------------------------------------------------
  // The scheduler
  // ---------------------------------------------------------------------

  /** Every prerequisite of a step in the graph is a key of the graph. */
  ghost predicate Closed(graph: Graph)
  {
    forall s, p :: s in graph && p in graph[s] ==> p in graph
  }

  /** Every prerequisite in `prereqs` has been completed. */
  predicate AllCompleted(prereqs: seq<Prerequisite>, completed: set<Step>)
  {
    forall p :: p in prereqs ==> p in completed
  }

  /** The steps that are keys, not completed, and whose prerequisites are all completed. */
  function Eligible(graph: Graph, completed: set<Step>): set<Step>
  {
    set s | s in graph && s !in completed && AllCompleted(graph[s], completed)
  }

  /** Every non-empty set of steps has a least element. */
  lemma {:induction false} LeastOf(s: set<Step>) returns (m: Step)
    requires s != {}
    ensures m in s && forall x :: x in s ==> m <= x
  {
    var y :| y in s;
    if s == {y} {
      m := y;
    } else {
      var rest := LeastOf(s - {y});
      m := if rest <= y then rest else y;
      forall x | x in s ensures m <= x {
        if x != y { assert x in s - {y}; }
      }
    }
  }

  lemma HasLeast(s: set<Step>)
    requires s != {}
    ensures exists m :: m in s && forall x :: x in s ==> m <= x
  {
    var m := LeastOf(s);
  }

  /** The least step of a non-empty set. */
  function Least(s: set<Step>): (m: Step)
    requires s != {}
    ensures m in s && forall x :: x in s ==> m <= x
  {
    HasLeast(s);
    var m :| m in s && forall x :: x in s ==> m <= x; m
  }

  /**
   * The step `perform_step` selects: the least eligible step, or `None`
   * exactly when no step is eligible (in particular on an empty graph).
   */
  function SelectStep(graph: Graph, completed: set<Step>): (r: Option<Step>)
    ensures r.None? <==> forall s :: s in graph && s !in completed ==> !AllCompleted(graph[s], completed)
    ensures r.Some? ==> r.value in graph && r.value !in completed && AllCompleted(graph[r.value], completed)
    ensures r.Some? ==> forall s :: s in graph && s !in completed && AllCompleted(graph[s], completed) ==> r.value <= s
  {
    var eligible := Eligible(graph, completed);
    if eligible == {} then
      assert forall s :: s in graph && s !in completed && AllCompleted(graph[s], completed) ==> s in eligible;
      None
    else
      var m := Least(eligible);
      assert forall s :: s in graph && s !in completed && AllCompleted(graph[s], completed) ==> s in eligible;
      Some(m)
  }

  /** The scheduler state: the fixed graph and the steps completed so far. */
  class Steps {
    var completed: set<Step>
    var prerequisites: Graph

    constructor (prerequisites: Graph)
      ensures this.prerequisites == prerequisites && completed == {}
    {
      this.completed := {};
      this.prerequisites := prerequisites;
    }

    /**
     * Completes the least eligible step and returns it; returns `None`, and
     * changes nothing, when no step is eligible. The graph is never changed
     * and the completed set only grows.
     */
    method PerformStep() returns (r: Option<Step>)
      modifies this`completed
      ensures r == SelectStep(prerequisites, old(completed))
      ensures completed == if r.Some? then old(completed) + {r.value} else old(completed)
      ensures prerequisites == old(prerequisites) && old(completed) <= completed
    {
      r := SelectStep(prerequisites, completed);
      if r.Some? {
        completed := completed + {r.value};
      }
    }
  }

  /** The steps that repeated selection completes, starting from `completed`. */
  function Schedule(graph: Graph, completed: set<Step>): seq<Step>
    decreases graph.Keys - completed
  {
    match SelectStep(graph, completed)
    case None => []
    case Some(s) =>
      assert graph.Keys - (completed + {s}) < graph.Keys - completed;
      [s] + Schedule(graph, completed + {s})
  }

  /** Drives `perform_step` until it returns `None`, collecting the steps in order. */
  method RunSchedule(graph: Graph) returns (order: seq<Step>)
    ensures order == Schedule(graph, {})
  {
    var steps := new Steps(graph);
    order := [];
    while true
      invariant steps.prerequisites == graph
      invariant order + Schedule(graph, steps.completed) == Schedule(graph, {})
      decreases graph.Keys - steps.completed
    {
      var r := steps.PerformStep();
      if r.None? {
        break;
      }
      order := order + [r.value];
    }
  }

  /** The whole of part one on already-parsed pairs: build the graph, then schedule it. */
  method Part1(pairs: seq<(Step, Prerequisite)>) returns (order: seq<Step>)
    ensures order == Schedule(PrereqMap(pairs), {})
  {
    var graph := GeneratePrereqMap(pairs);
    assert graph == PrereqMap(pairs);
    order := RunSchedule(graph);
  }

  // ---------------------------------------------------------------------
  // Properties of the schedule
  // ---------------------------------------------------------------------

  /** The completed set after the steps of `order` were completed on top of `completed`. */
  function Done(completed: set<Step>, order: seq<Step>): set<Step>
  {
    completed + set x | x in order
  }

  lemma DoneCons(completed: set<Step>, s: Step, tail: seq<Step>, i: nat)
    requires i <= |tail|
    ensures Done(completed, ([s] + tail)[..i + 1]) == Done(completed + {s}, tail[..i])
  {
    assert ([s] + tail)[..i + 1] == [s] + tail[..i];
  }

  /** The i-th step of the schedule is what `perform_step` selects once the steps before it are completed. */
  lemma {:induction false} ScheduleSelects(graph: Graph, completed: set<Step>, i: nat)
    requires i < |Schedule(graph, completed)|
    ensures var order := Schedule(graph, completed);
      SelectStep(graph, Done(completed, order[..i])) == Some(order[i])
    decreases i
  {
    var order := Schedule(graph, completed);
    match SelectStep(graph, completed)
    case None =>
      assert false;
    case Some(s) =>
      var next := completed + {s};
      var tail := Schedule(graph, next);
      assert order == [s] + tail;
      if i == 0 {
        assert Done(completed, order[..0]) == completed;
      } else {
        ScheduleSelects(graph, next, i - 1);
        DoneCons(completed, s, tail, i - 1);
        assert order[i] == tail[i - 1];
      }
  }

  /** Once every step of the schedule is completed, `perform_step` selects nothing. */
  lemma {:induction false} ScheduleEnds(graph: Graph, completed: set<Step>)
    ensures SelectStep(graph, Done(completed, Schedule(graph, completed))) == None
    decreases graph.Keys - completed
  {
    var order := Schedule(graph, completed);
    match SelectStep(graph, completed)
    case None =>
      assert Done(completed, order) == completed;
    case Some(s) =>
      var next := completed + {s};
      assert graph.Keys - next < graph.Keys - completed;
      ScheduleEnds(graph, next);
      var tail := Schedule(graph, next);
      assert order == [s] + tail;
      DoneCons(completed, s, tail, |tail|);
      assert order[..|tail| + 1] == order && tail[..|tail|] == tail;
  }

  /**
   * The schedule is the sequence of selections: its i-th step is what
   * `perform_step` selects once the steps before it are completed, and after
   * the last step the selection returns `None`.
   */
  lemma ScheduleRounds(graph: Graph, completed: set<Step>)
    ensures var order := Schedule(graph, completed);
      && (forall i :: 0 <= i < |order| ==> SelectStep(graph, Done(completed, order[..i])) == Some(order[i]))
      && SelectStep(graph, Done(completed, order)) == None
  {
    var order := Schedule(graph, completed);
    forall i | 0 <= i < |order|
      ensures SelectStep(graph, Done(completed, order[..i])) == Some(order[i])
    {
      ScheduleSelects(graph, completed, i);
    }
    ScheduleEnds(graph, completed);
  }

  /**
   * Validity of the schedule: every step in it is a key that was not yet
   * completed, no step appears twice, and every prerequisite of a step was
   * completed before the step itself.
   */
  lemma ScheduleValid(graph: Graph, completed: set<Step>)
    ensures var order := Schedule(graph, completed);
      && (forall i :: 0 <= i < |order| ==> order[i] in graph && order[i] !in completed)
      && (forall i, j :: 0 <= i < j < |order| ==> order[i] != order[j])
      && (forall i, p :: 0 <= i < |order| && p in graph[order[i]] ==> p in completed || p in order[..i])
  {
    var order := Schedule(graph, completed);
    ScheduleRounds(graph, completed);
    forall i | 0 <= i < |order|
      ensures order[i] in graph && order[i] !in Done(completed, order[..i])
      ensures AllCompleted(graph[order[i]], Done(completed, order[..i]))
    {
      assert SelectStep(graph, Done(completed, order[..i])) == Some(order[i]);
    }
    forall i, j | 0 <= i < j < |order|
      ensures order[i] != order[j]
    {
      assert order[i] in order[..j];
    }
  }

  /**
   * The schedule stops only when it is stuck: every key it left out waits on
   * a prerequisite that was never completed.
   */
  lemma ScheduleStops(graph: Graph, completed: set<Step>)
    ensures var done := Done(completed, Schedule(graph, completed));
      forall s :: s in graph && s !in done ==> exists p :: p in graph[s] && p !in done
  {
    ScheduleRounds(graph, completed);
  }

  /** The driver loop runs at most once per step of the graph. */
  lemma {:induction false} ScheduleLength(graph: Graph, completed: set<Step>)
    ensures |Schedule(graph, completed)| <= |graph.Keys - completed|
    decreases graph.Keys - completed
  {
    match SelectStep(graph, completed)
    case None =>
    case Some(s) =>
      var next := completed + {s};
      assert graph.Keys - completed == (graph.Keys - next) + {s};
      ScheduleLength(graph, next);
  }

  /** A rank that every prerequisite undercuts: the graph has no cycle. */
  ghost predicate Ranked(graph: Graph, rank: Step -> nat)
  {
    forall s, p :: s in graph && p in graph[s] ==> rank(p) < rank(s)
  }

  lemma {:induction false} LeastRanked(r: set<Step>, rank: Step -> nat) returns (k: Step)
    requires r != {}
    ensures k in r && forall j :: j in r ==> rank(k) <= rank(j)
  {
    var y :| y in r;
    if r == {y} {
      k := y;
    } else {
      var m := LeastRanked(r - {y}, rank);
      k := if rank(m) <= rank(y) then m else y;
    }
  }

  lemma {:induction false} DistinctCard(order: seq<Step>)
    requires forall i, j :: 0 <= i < j < |order| ==> order[i] != order[j]
    ensures |set x | x in order| == |order|
  {
    if order != [] {
      var front := order[..|order| - 1];
      DistinctCard(front);
      var last := order[|order| - 1];
      assert (set x | x in order) == (set x | x in front) + {last};
      assert last !in (set x | x in front);
    }
  }

  /** A remaining key of least rank has all its prerequisites completed. */
  lemma LeastRankedReady(graph: Graph, rank: Step -> nat, done: set<Step>, s: Step)
    requires Closed(graph) && Ranked(graph, rank) && s in graph && s !in done
    requires forall x :: x in graph - done ==> rank(s) <= rank(x)
    ensures forall p :: p in graph[s] ==> p in done
  {
    forall p | p in graph[s]
      ensures p in done
    {
      assert p in graph && rank(p) < rank(s);
    }
  }

  /**
   * In a closed acyclic graph a completed set that leaves no remaining key
   * eligible has completed every key: a least-ranked remaining key would
   * wait on a remaining prerequisite of lower rank.
   */
  lemma StuckMeansDone(graph: Graph, rank: Step -> nat, done: set<Step>)
    requires Closed(graph) && Ranked(graph, rank)
    requires forall s :: s in graph && s !in done ==> exists p :: p in graph[s] && p !in done
    ensures graph.Keys <= done
  {
    var remaining := graph.Keys - done;
    if remaining != {} {
      var s := LeastRanked(remaining, rank);
      LeastRankedReady(graph, rank, done, s);
      assert false;
    }
    forall x | x in graph ensures x in done {
      assert x !in remaining;
    }
  }

  /**
   * Completeness: on a closed acyclic graph the schedule from scratch lists
   * every key of the graph, each exactly once.
   */
  lemma ScheduleComplete(graph: Graph, rank: Step -> nat)
    requires Closed(graph) && Ranked(graph, rank)
    ensures var order := Schedule(graph, {});
      (set x | x in order) == graph.Keys && |order| == |graph.Keys|
  {
    var order := Schedule(graph, {});
    ScheduleValid(graph, {});
    ScheduleStops(graph, {});
    assert Done({}, order) == set x | x in order;
    StuckMeansDone(graph, rank, Done({}, order));
    DistinctCard(order);
  }

  // ---------------------------------------------------------------------
  // The puzzle's scenarios
  // ---------------------------------------------------------------------

  const ExampleGraph: Graph := map['A' := "C", 'F' := "C", 'B' := "A", 'D' := "A", 'E' := "BDF", 'C' := ""]

  const ExamplePairs: seq<(Step, Prerequisite)> :=
    [('A', 'C'), ('F', 'C'), ('B', 'A'), ('D', 'A'), ('E', 'B'), ('E', 'D'), ('E', 'F')]

  /** Adding one more pair to a prefix mentions both of its steps. */
  lemma MentionedSnoc(pairs: seq<(Step, Prerequisite)>, k: nat)
    requires k < |pairs|
    ensures Mentioned(pairs[..k + 1]) == Mentioned(pairs[..k]) + {pairs[k].0, pairs[k].1}
  {
    assert pairs[..k + 1][..k] == pairs[..k];
  }

  lemma ExampleMentioned()
    ensures Mentioned(ExamplePairs) == {'A', 'B', 'C', 'D', 'E', 'F'}
  {
    var ps := ExamplePairs;
    assert Mentioned(ps[..0]) == {};
    MentionedSnoc(ps, 0);
    MentionedSnoc(ps, 1);
    MentionedSnoc(ps, 2);
    MentionedSnoc(ps, 3);
    MentionedSnoc(ps, 4);
    MentionedSnoc(ps, 5);
    MentionedSnoc(ps, 6);
    assert ps[..7] == ps;
  }

  lemma ExamplePrereqsOf(s: Step)
    ensures PrereqsOf(ExamplePairs, s) ==
      if s == 'E' then "BDF" else if s == 'D' || s == 'B' then "A" else if s == 'F' || s == 'A' then "C" else ""
  {
    var ps := ExamplePairs;
    assert ps[7..] == [];
    assert ps[6..] == [('E', 'F')] + ps[7..];
    assert ps[5..] == [('E', 'D')] + ps[6..];
    assert ps[4..] == [('E', 'B')] + ps[5..];
    assert ps[3..] == [('D', 'A')] + ps[4..];
    assert ps[2..] == [('B', 'A')] + ps[3..];
    assert ps[1..] == [('F', 'C')] + ps[2..];
    assert ps == [('A', 'C')] + ps[1..];
    assert PrereqsOf(ps[7..], s) == [];
    PrereqsOfCons(('E', 'F'), ps[7..], s);
    var e := if s == 'E' then "F" else "";
    assert PrereqsOf(ps[6..], s) == e;
    PrereqsOfCons(('E', 'D'), ps[6..], s);
    e := if s == 'E' then "DF" else "";
    assert PrereqsOf(ps[5..], s) == e;
    PrereqsOfCons(('E', 'B'), ps[5..], s);
    e := if s == 'E' then "BDF" else "";
    assert PrereqsOf(ps[4..], s) == e;
    PrereqsOfCons(('D', 'A'), ps[4..], s);
    e := if s == 'E' then "BDF" else if s == 'D' then "A" else "";
    assert PrereqsOf(ps[3..], s) == e;
    PrereqsOfCons(('B', 'A'), ps[3..], s);
    e := if s == 'E' then "BDF" else if s == 'D' || s == 'B' then "A" else "";
    assert PrereqsOf(ps[2..], s) == e;
    PrereqsOfCons(('F', 'C'), ps[2..], s);
    e := if s == 'E' then "BDF" else if s == 'D' || s == 'B' then "A" else if s == 'F' then "C" else "";
    assert PrereqsOf(ps[1..], s) == e;
    PrereqsOfCons(('A', 'C'), ps[1..], s);
  }

  /**
   * The builder on the puzzle's seven constraints gives the example graph;
   * in particular A waits on C alone and C waits on nothing.
   */
  lemma ExamplePrereqMap()
    ensures PrereqMap(ExamplePairs) == ExampleGraph
  {
    ExampleMentioned();
    forall s | s in ExampleGraph ensures PrereqsOf(ExamplePairs, s) == ExampleGraph[s] {
      ExamplePrereqsOf(s);
    }
  }

  /** One round of the schedule: the least eligible step, then the rest. */
  lemma ScheduleUnfold(graph: Graph, completed: set<Step>, eligible: set<Step>, s: Step, next: set<Step>, rest: seq<Step>)
    requires Eligible(graph, completed) == eligible && s in eligible && forall x :: x in eligible ==> s <= x
    requires next == completed + {s} && Schedule(graph, next) == rest
    ensures Schedule(graph, completed) == [s] + rest
  {
    assert Least(eligible) == s;
  }

  /** After the last round of the worked example nothing is eligible. */
  lemma ExampleRoundDone(g: Graph)
    requires g == ExampleGraph
    ensures Schedule(g, {'C', 'A', 'B', 'D', 'F', 'E'}) == ""
  {
    assert Eligible(g, {'C', 'A', 'B', 'D', 'F', 'E'}) == {};
  }

  /** The steps eligible in round 6 of the worked example. */
  lemma ExampleEligibleE(g: Graph)
    requires g == ExampleGraph
    ensures Eligible(g, {'C', 'A', 'B', 'D', 'F'}) == {'E'}
  {
  }

  /** Round 6 of the worked example: E is the least eligible step. */
  lemma ExampleRoundE(g: Graph)
    requires g == ExampleGraph
    ensures Schedule(g, {'C', 'A', 'B', 'D', 'F'}) == "E"
  {
    assert ['E'] + "" == "E";
    ExampleEligibleE(g);
    ExampleRoundDone(g);
    ScheduleUnfold(g, {'C', 'A', 'B', 'D', 'F'}, {'E'}, 'E', {'C', 'A', 'B', 'D', 'F', 'E'}, "");
  }

  /** The steps eligible in round 5 of the worked example. */
  lemma ExampleEligibleF(g: Graph)
    requires g == ExampleGraph
    ensures Eligible(g, {'C', 'A', 'B', 'D'}) == {'F'}
  {
    assert 'F' in g['E'];
  }

  /** Round 5 of the worked example: F is the least eligible step. */
  lemma ExampleRoundF(g: Graph)
    requires g == ExampleGraph
    ensures Schedule(g, {'C', 'A', 'B', 'D'}) == "FE"
  {
    assert ['F'] + "E" == "FE";
    ExampleEligibleF(g);
    ExampleRoundE(g);
    ScheduleUnfold(g, {'C', 'A', 'B', 'D'}, {'F'}, 'F', {'C', 'A', 'B', 'D', 'F'}, "E");
  }

  /** The steps eligible in round 4 of the worked example. */
  lemma ExampleEligibleD(g: Graph)
    requires g == ExampleGraph
    ensures Eligible(g, {'C', 'A', 'B'}) == {'D', 'F'}
  {
    assert 'D' in g['E'] && 'F' in g['E'];
  }

  /** Round 4 of the worked example: D is the least eligible step. */
  lemma ExampleRoundD(g: Graph)
    requires g == ExampleGraph
    ensures Schedule(g, {'C', 'A', 'B'}) == "DFE"
  {
    assert ['D'] + "FE" == "DFE";
    ExampleEligibleD(g);
    ExampleRoundF(g);
    ScheduleUnfold(g, {'C', 'A', 'B'}, {'D', 'F'}, 'D', {'C', 'A', 'B', 'D'}, "FE");
  }

  /** The steps eligible in round 3 of the worked example. */
  lemma ExampleEligibleB(g: Graph)
    requires g == ExampleGraph
    ensures Eligible(g, {'C', 'A'}) == {'B', 'D', 'F'}
  {
    assert 'B' in g['E'] && 'D' in g['E'];
  }

  /** Round 3 of the worked example: B is the least eligible step. */
  lemma ExampleRoundB(g: Graph)
    requires g == ExampleGraph
    ensures Schedule(g, {'C', 'A'}) == "BDFE"
  {
    assert ['B'] + "DFE" == "BDFE";
    ExampleEligibleB(g);
    ExampleRoundD(g);
    ScheduleUnfold(g, {'C', 'A'}, {'B', 'D', 'F'}, 'B', {'C', 'A', 'B'}, "DFE");
  }

  /** The steps eligible in round 2 of the worked example. */
  lemma ExampleEligibleA(g: Graph)
    requires g == ExampleGraph
    ensures Eligible(g, {'C'}) == {'A', 'F'}
  {
    assert 'A' in g['B'] && 'A' in g['D'] && 'B' in g['E'];
  }

  /** Round 2 of the worked example: A is the least eligible step. */
  lemma ExampleRoundA(g: Graph)
    requires g == ExampleGraph
    ensures Schedule(g, {'C'}) == "ABDFE"
  {
    assert ['A'] + "BDFE" == "ABDFE";
    ExampleEligibleA(g);
    ExampleRoundB(g);
    ScheduleUnfold(g, {'C'}, {'A', 'F'}, 'A', {'C', 'A'}, "BDFE");
  }

  /** The steps eligible in round 1 of the worked example. */
  lemma ExampleEligibleC(g: Graph)
    requires g == ExampleGraph
    ensures Eligible(g, {}) == {'C'}
  {
    assert 'C' in g['A'] && 'C' in g['F'] && 'A' in g['B'] && 'A' in g['D'] && 'B' in g['E'];
  }

  /** Round 1 of the worked example: C is the least eligible step. */
  lemma ExampleRoundC(g: Graph)
    requires g == ExampleGraph
    ensures Schedule(g, {}) == "CABDFE"
  {
    assert ['C'] + "ABDFE" == "CABDFE";
    ExampleEligibleC(g);
    ExampleRoundA(g);
    ScheduleUnfold(g, {}, {'C'}, 'C', {'C'}, "ABDFE");
  }

  /** The worked example: the constraints of the puzzle text schedule as "CABDFE". */
  lemma ExampleSchedule()
    ensures Schedule(ExampleGraph, {}) == "CABDFE"
  {
    ExampleRoundC(ExampleGraph);
  }

  /** Part one on the puzzle's constraints, from the pairs to the order "CABDFE". */
  lemma ExamplePart1()
    ensures Schedule(PrereqMap(ExamplePairs), {}) == "CABDFE"
  {
    ExamplePrereqMap();
    ExampleSchedule();
  }

  /** A step named only as a prerequisite is still scheduled: "B needs A" gives "AB". */
  lemma PrerequisiteOnlyScheduled()
    ensures Schedule(PrereqMap([('B', 'A')]), {}) == "AB"
  {
    var g := PrereqMap([('B', 'A')]);
    MentionedCons(('B', 'A'), []);
    PrereqsOfCons(('B', 'A'), [], 'A');
    PrereqsOfCons(('B', 'A'), [], 'B');
    assert [('B', 'A')] + [] == [('B', 'A')];
    assert Mentioned([('B', 'A')]) == {'A', 'B'};
    assert g.Keys == {'A', 'B'} && g['A'] == "" && g['B'] == "A";
    assert g == map['B' := "A", 'A' := ""];
    assert 'A' in g['B'];
    assert Eligible(g, {'A', 'B'}) == {};
    assert Schedule(g, {'A', 'B'}) == "";
    assert Eligible(g, {'A'}) == {'B'};
    ScheduleUnfold(g, {'A'}, {'B'}, 'B', {'A', 'B'}, "");
    assert Eligible(g, {}) == {'A'};
    ScheduleUnfold(g, {}, {'A'}, 'A', {'A'}, "B");
    assert ['A'] + "B" == "AB";
  }

  /** A two-step cycle: nothing is ever eligible, so the schedule is empty. */
  lemma CycleScheduleEmpty()
    ensures Schedule(map['A' := "B", 'B' := "A"], {}) == []
  {
    var g := map['A' := "B", 'B' := "A"];
    assert 'B' in g['A'] && 'A' in g['B'];
    assert Eligible(g, {}) == {};
  }
}
