/** The read-then-compare-and-swap code, run by any callers with crashes and restarts, refines a machine whose every
    step moves one effect along one edge, or adds one new effect. */
module EffectRefinement {
  import opened Wrappers
  import opened Operations
  import opened EffectRuns
  import opened EffectTheorems

  type Effects = map<Id, Effect>

  // ---- the atomic machine ------------------------------------------------------------------------------

  /** One effect takes one edge of the lifecycle graph. */
  ghost predicate AtomicMove(before: Effects, after: Effects) {
    exists e :: e in before && e in after && after == before[e := after[e]] && Edge(before[e], after[e])
  }

  /** One new effect appears, not moved yet. */
  ghost predicate AddsOne(before: Effects, after: Effects) {
    exists e :: e !in before && e in after && after == before[e := after[e]]
                && after[e].rowVersion == 0 && Rank(after[e].state) == 0
  }

  ghost predicate AtomicStep(before: Effects, after: Effects) {
    AtomicMove(before, after) || AddsOne(before, after)
  }

  ghost predicate IsPath(path: seq<Effects>) {
    forall i :: 0 <= i < |path| - 1 ==> AtomicStep(path[i], path[i + 1])
  }

  /** `n` atomic steps lead from one table to the other. */
  ghost predicate Reaches(before: Effects, after: Effects, n: nat) {
    exists path: seq<Effects> :: |path| == n + 1 && IsPath(path) && path[0] == before && path[n] == after
  }

  lemma Stays(t: Effects)
    ensures Reaches(t, t, 0)
  {
    assert IsPath([t]);
  }

  lemma StepsOn(a: Effects, b: Effects, c: Effects, n: nat)
    requires Reaches(a, b, n) && AtomicStep(b, c)
    ensures Reaches(a, c, n + 1)
  {
    var path: seq<Effects> :| |path| == n + 1 && IsPath(path) && path[0] == a && path[n] == b;
    var longer := path + [c];
    forall i | 0 <= i < |longer| - 1 ensures AtomicStep(longer[i], longer[i + 1]) {
      if i < n {
        assert AtomicStep(path[i], path[i + 1]);
      }
    }
    assert IsPath(longer) && longer[n + 1] == c;
  }

  // ---- each step refines it ----------------------------------------------------------------------------

  lemma UpdateIsAtomic(s: System, c: Id)
    requires Landing(s, c)
    ensures AtomicMove(s.effects, Next(s, Update(c)).effects)
  {
    UpdateLands(s, c);
    var e := s.callers[c].effect;
    assert e in s.effects && Edge(s.effects[e], Next(s, Update(c)).effects[e]);
  }

  lemma InsertAddsOne(s: System, ev: Event)
    requires ev.Insert? && Possible(s, ev) && Next(s, ev).effects != s.effects
    ensures AddsOne(s.effects, Next(s, ev).effects)
  {
    var after := Next(s, ev).effects;
    assert ev.effect !in s.effects && ev.effect in after && after == s.effects[ev.effect := after[ev.effect]];
  }

  /** The effects a restart marks. */
  function Interrupted(effects: Effects, reached: set<Id>): set<Id> {
    set e | e in effects && e in reached && effects[e].state.Dispatched?
  }

  lemma MarkingOneIsAtomic(effects: Effects, some: set<Id>, e: Id)
    requires e in effects && effects[e].state.Dispatched? && e !in some
    ensures AtomicMove(Recovered(effects, some), Recovered(effects, some + {e}))
  {
    var before, after := Recovered(effects, some), Recovered(effects, some + {e});
    assert Guard(MarkOutcomeUnknown, before[e].state) == None;
    assert after == before[e := after[e]] && Edge(before[e], after[e]);
  }

  /** Recovery marks one effect after the other. */
  lemma {:induction false} RecoveryIsAtomicMoves(effects: Effects, ids: set<Id>)
    requires forall e :: e in ids ==> e in effects && effects[e].state.Dispatched?
    ensures Reaches(effects, Recovered(effects, ids), |ids|)
    decreases |ids|
  {
    if ids == {} {
      assert Recovered(effects, ids) == effects;
      Stays(effects);
    } else {
      var e :| e in ids;
      var rest := ids - {e};
      RecoveryIsAtomicMoves(effects, rest);
      MarkingOneIsAtomic(effects, rest, e);
      assert rest + {e} == ids;
      StepsOn(effects, Recovered(effects, rest), Recovered(effects, ids), |rest|);
    }
  }

  /** How many atomic moves a step can be. */
  function Width(s: System, ev: Event): nat {
    if ev.Restart? then |Interrupted(s.effects, ev.reached)| else 1
  }

  lemma OneStepReaches(before: Effects, after: Effects)
    requires AtomicStep(before, after)
    ensures Reaches(before, after, 1)
  {
    Stays(before);
    StepsOn(before, before, after, 0);
  }

  lemma RestartRefines(s: System, reached: set<Id>)
    ensures Reaches(s.effects, Next(s, Restart(reached)).effects, |Interrupted(s.effects, reached)|)
  {
    RecoveryIsAtomicMoves(s.effects, Interrupted(s.effects, reached));
    assert Recovered(s.effects, reached) == Recovered(s.effects, Interrupted(s.effects, reached));
  }

  lemma UpdateRefines(s: System, c: Id)
    requires Body(s) && Next(s, Update(c)).effects != s.effects
    ensures AtomicStep(s.effects, Next(s, Update(c)).effects)
  {
    ChangingUpdateLands(s, c);
    UpdateIsAtomic(s, c);
  }

  /** Seen from the table, a step of any caller is one move, one insertion, or nothing, and a restart is one move for
      each interrupted effect it reaches. */
  lemma StepsRefineAtomicMoves(s: System, ev: Event)
    requires Inv(s)
    ensures Next(s, ev).effects == s.effects || Reaches(s.effects, Next(s, ev).effects, Width(s, ev))
  {
    if Next(s, ev).effects != s.effects {
      OnlyTheseMoveRows(s, ev);
      if ev.Restart? {
        RestartRefines(s, ev.reached);
      } else {
        if ev.Update? { UpdateRefines(s, ev.caller); } else { InsertAddsOne(s, ev); }
        OneStepReaches(s.effects, Next(s, ev).effects);
      }
    }
  }

  /** A path of the atomic machine that goes through every table the run visits, in order: `at` says where. */
  ghost predicate FollowsRun(s: System, events: seq<Event>, path: seq<Effects>, at: seq<nat>) {
    && IsPath(path) && |at| == |events| + 1
    && (forall i :: 0 <= i < |at| ==> at[i] < |path|)
    && (forall i :: 0 <= i < |events| ==> at[i] <= at[i + 1])
    && (forall i :: 0 <= i < |at| ==> path[at[i]] == Run(s, events[..i]).effects)
    && at[0] == 0 && at[|events|] == |path| - 1
  }

  /** Two paths that meet. */
  lemma Meeting(first: seq<Effects>, second: seq<Effects>) returns (path: seq<Effects>)
    requires first != [] && second != [] && IsPath(first) && IsPath(second) && first[|first| - 1] == second[0]
    ensures IsPath(path) && |path| == |first| + |second| - 1
    ensures forall i :: 0 <= i < |first| ==> path[i] == first[i]
    ensures forall i :: 0 <= i < |second| ==> path[|first| - 1 + i] == second[i]
  {
    path := first + second[1..];
    forall i | 0 <= i < |path| - 1 ensures AtomicStep(path[i], path[i + 1]) {
      if i < |first| - 1 {
        assert AtomicStep(first[i], first[i + 1]);
      } else {
        var j := i - (|first| - 1);
        assert AtomicStep(second[j], second[j + 1]);
      }
    }
  }

  ghost predicate Leads(path: seq<Effects>, a: Effects, b: Effects) {
    path != [] && IsPath(path) && path[0] == a && path[|path| - 1] == b
  }

  lemma PathOf(n: nat, a: Effects, b: Effects) returns (path: seq<Effects>)
    requires exists path :: |path| == n + 1 && IsPath(path) && path[0] == a && path[n] == b
    ensures Leads(path, a, b)
  {
    path :| |path| == n + 1 && IsPath(path) && path[0] == a && path[n] == b;
  }

  lemma OneStepFurther(s: System, ev: Event) returns (path: seq<Effects>)
    requires Inv(s)
    ensures Leads(path, s.effects, Next(s, ev).effects)
  {
    StepsRefineAtomicMoves(s, ev);
    if Next(s, ev).effects == s.effects {
      path := [s.effects];
    } else {
      path := PathOf(Width(s, ev), s.effects, Next(s, ev).effects);
    }
  }

  lemma FollowsFurther(s: System, events: seq<Event>, first: seq<Effects>, second: seq<Effects>, later: seq<nat>,
                       path: seq<Effects>, at: seq<nat>)
    requires events != [] && FollowsRun(Next(s, events[0]), events[1..], second, later)
    requires first != [] && first[0] == s.effects && first[|first| - 1] == Next(s, events[0]).effects
    requires IsPath(path) && |path| == |first| + |second| - 1
    requires forall i :: 0 <= i < |first| ==> path[i] == first[i]
    requires forall i :: 0 <= i < |second| ==> path[|first| - 1 + i] == second[i]
    requires |at| == |events| + 1 && at[0] == 0 && forall i :: 0 < i < |at| ==> at[i] == |first| - 1 + later[i - 1]
    ensures FollowsRun(s, events, path, at)
  {
    forall i | 0 <= i < |at| ensures at[i] < |path| && path[at[i]] == Run(s, events[..i]).effects {
      if i > 0 {
        assert events[..i][1..] == events[1..][..i - 1];
        assert second[later[i - 1]] == Run(Next(s, events[0]), events[1..][..i - 1]).effects;
      }
    }
    forall i | 0 <= i < |events| ensures at[i] <= at[i + 1] {
      if i > 0 {
        assert later[i - 1] <= later[i];
      }
    }
  }

  /** Every run of every number of callers, with any crashes and restarts, is a run of the atomic machine: one path of
      atomic steps goes through every table the run visits, in order. */
  lemma {:induction false} RunsRefineAtomicMoves(s: System, events: seq<Event>)
    requires Inv(s)
    ensures exists path, at :: FollowsRun(s, events, path, at)
    decreases |events|
  {
    if events == [] {
      assert FollowsRun(s, events, [s.effects], [0]);
    } else {
      var first := OneStepFurther(s, events[0]);
      NextKeepsInv(s, events[0]);
      RunsRefineAtomicMoves(Next(s, events[0]), events[1..]);
      var second, later :| FollowsRun(Next(s, events[0]), events[1..], second, later);
      assert second[later[0]] == Run(Next(s, events[0]), events[1..][..0]).effects;
      var path := Meeting(first, second);
      var at: seq<nat> := [0] + seq(|later|, i requires 0 <= i < |later| => |first| - 1 + later[i]);
      FollowsFurther(s, events, first, second, later, path, at);
    }
  }
}
