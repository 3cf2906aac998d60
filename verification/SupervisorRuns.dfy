/** The supervisor's restart loop under OneForOne (Run in daemon/supervisor/supervisor.go): one goroutine per
    child instance, one buffered channel of exits with room for one per child, and a loop that takes exits and
    restarts crashed children while the limiter grants it. A run is any interleaving of their steps. */
module SupervisorRuns {
  import opened RestartLimiter

  datatype Phase = Executing | Sending(crashed: bool)

  /** A goroutine runs one instance of a child and then reports its exit. */
  datatype Goroutine = Goroutine(child: nat, phase: Phase)

  datatype Exit = Exit(child: nat, crashed: bool)

  datatype Loop = Looping | Returned | GaveUp

  /** The state of one Run call, with history: the child of every instance started, the child of every crash and
      of every clean exit taken from the channel, and when allowRestart was asked, by this call and by the earlier
      ones on the same supervisor, whose restarts it still remembers. */
  datatype System = System(
    children: nat,
    maxRestarts: int,
    window: int,
    goroutines: map<nat, Goroutine>,
    exits: seq<Exit>,
    loop: Loop,
    cancelled: bool,
    started: seq<nat>,
    crashes: seq<nat>,
    cleanExits: seq<nat>,
    earlier: seq<int>,
    times: seq<int>)

  datatype Event =
    | Finish(g: nat, crashed: bool)     // the child's function returns
    | Send(g: nat)                      // its exit goes into the channel
    | Drop(g: nat)                      // or is given up because the context is done
    | Take(now: int, id: nat)           // the loop takes an exit
    | Cancel                            // the context is cancelled
    | Stop                              // the loop sees that and returns

  /** 0, 1, ..., n - 1. */
  function Upto(n: nat): (s: seq<nat>)
    ensures |s| == n && forall i :: 0 <= i < n ==> s[i] == i
  {
    seq(n, i => i)
  }

  /** Every child has just been started. */
  function Start(children: nat, maxRestarts: int, window: int, earlier: seq<int>): System {
    System(children, maxRestarts, window, map i: nat | i < children :: Goroutine(i, Executing), [], Looping, false,
           Upto(children), [], [], earlier, earlier)
  }

  predicate Possible(s: System, ev: Event) {
    match ev
    case Finish(g, _) => g in s.goroutines && s.goroutines[g].phase.Executing?
    case Send(g) => g in s.goroutines && s.goroutines[g].phase.Sending? && |s.exits| < s.children
    case Drop(g) => g in s.goroutines && s.goroutines[g].phase.Sending? && s.cancelled
    case Take(_, id) => s.loop.Looping? && s.exits != [] && id !in s.goroutines
    case Cancel => true
    case Stop => s.loop.Looping? && s.cancelled
  }

  function Remembered(s: System): seq<int> {
    Calls(s.maxRestarts, s.window, s.times).0
  }

  function Next(s: System, ev: Event): System {
    if !Possible(s, ev) then s
    else
      match ev
      case Finish(g, crashed) => s.(goroutines := s.goroutines[g := s.goroutines[g].(phase := Sending(crashed))])
      case Send(g) =>
        s.(goroutines := s.goroutines - {g},
           exits := s.exits + [Exit(s.goroutines[g].child, s.goroutines[g].phase.crashed)])
      case Drop(g) => s.(goroutines := s.goroutines - {g})
      case Take(now, id) =>
        var e := s.exits[0];
        var rest := s.(exits := s.exits[1..]);
        if !e.crashed then rest.(cleanExits := s.cleanExits + [e.child])
        else
          var asked := rest.(crashes := s.crashes + [e.child], times := s.times + [now]);
          if !Allow(Remembered(s), s.maxRestarts, s.window, now).1 then asked.(loop := GaveUp)
          else asked.(goroutines := s.goroutines[id := Goroutine(e.child, Executing)], started := s.started + [e.child])
      case Cancel => s.(cancelled := true)
      case Stop => s.(loop := Returned)
  }

  function Run(s: System, events: seq<Event>): System
    decreases |events|
  {
    if events == [] then s else Run(Next(s, events[0]), events[1..])
  }

  // ---- the invariant -----------------------------------------------------------------------------------

  /** Each child is in at most one place: one goroutine, or one message in the channel. */
  ghost predicate OnePlaceEach(s: System) {
    && (forall g :: g in s.goroutines ==> s.goroutines[g].child < s.children)
    && (forall i :: 0 <= i < |s.exits| ==> s.exits[i].child < s.children)
    && (forall g, h :: g in s.goroutines && h in s.goroutines && g != h ==> s.goroutines[g].child != s.goroutines[h].child)
    && (forall g, i :: g in s.goroutines && 0 <= i < |s.exits| ==> s.goroutines[g].child != s.exits[i].child)
    && (forall i, j :: 0 <= i < j < |s.exits| ==> s.exits[i].child != s.exits[j].child)
  }

  /** The crashes that got a restart: all of them, or all but the one that made the loop give up. */
  function Answered(s: System): seq<nat> {
    if s.loop.GaveUp? && s.crashes != [] then s.crashes[..|s.crashes| - 1] else s.crashes
  }

  /** Every answered crash got one start of that child; the limiter was asked once for each crash and granted
      exactly the restarts. */
  ghost predicate CrashesAnswered(s: System) {
    && s.earlier <= s.times && |s.times| == |s.earlier| + |s.crashes|
    && (s.loop.GaveUp? ==> s.crashes != [])
    && s.started == Upto(s.children) + Answered(s)
    && |Calls(s.maxRestarts, s.window, s.times).1| ==
       |Calls(s.maxRestarts, s.window, s.earlier).1| + |s.started| - s.children
  }

  ghost predicate HasPlace(s: System, child: nat) {
    || (exists g :: g in s.goroutines && s.goroutines[g].child == child)
    || (exists i :: 0 <= i < |s.exits| && s.exits[i].child == child)
  }

  /** While the loop runs and the context is live, no child is lost: it runs, or its exit is on the way, or it was
      seen to exit cleanly. */
  ghost predicate NoneLost(s: System) {
    s.loop.Looping? && !s.cancelled ==> forall c: nat :: c < s.children && c !in s.cleanExits ==> HasPlace(s, c)
  }

  ghost predicate Inv(s: System) {
    OnePlaceEach(s) && CrashesAnswered(s) && NoneLost(s)
  }

  lemma StartIsOk(children: nat, maxRestarts: int, window: int, earlier: seq<int>)
    ensures Inv(Start(children, maxRestarts, window, earlier))
  {
    var s := Start(children, maxRestarts, window, earlier);
    forall c: nat | c < s.children ensures HasPlace(s, c) {
      assert s.goroutines[c].child == c;
    }
  }

  /** A child that leaves one place may enter the other. */
  lemma LeavingTheGoroutines(s: System, g: nat, after: System, exits: seq<Exit>)
    requires OnePlaceEach(s) && g in s.goroutines
    requires exits == s.exits || exists crashed :: exits == s.exits + [Exit(s.goroutines[g].child, crashed)]
    requires after.goroutines == s.goroutines - {g} && after.exits == exits && after.children == s.children
    ensures OnePlaceEach(after)
  {
  }

  lemma LeavingTheChannel(s: System, after: System, places: map<nat, Goroutine>)
    requires OnePlaceEach(s) && s.exits != []
    requires || places == s.goroutines
             || exists id: nat | id !in s.goroutines ::
                  places == s.goroutines[id := Goroutine(s.exits[0].child, Executing)]
    requires after.goroutines == places && after.exits == s.exits[1..] && after.children == s.children
    ensures OnePlaceEach(after)
  {
  }

  lemma NextKeepsPlaces(s: System, ev: Event)
    requires OnePlaceEach(s)
    ensures OnePlaceEach(Next(s, ev))
  {
    var after := Next(s, ev);
    if Possible(s, ev) {
      match ev
      case Finish(g, crashed) =>
      case Send(g) => LeavingTheGoroutines(s, g, after, after.exits);
      case Drop(g) => LeavingTheGoroutines(s, g, after, after.exits);
      case Take(now, id) => LeavingTheChannel(s, after, after.goroutines);
      case Cancel =>
      case Stop =>
    }
  }

  lemma NextKeepsPlaceOf(s: System, ev: Event, c: nat)
    requires HasPlace(s, c) && !s.cancelled && Next(s, ev).loop.Looping? && c !in Next(s, ev).cleanExits
    ensures HasPlace(Next(s, ev), c)
  {
    var after := Next(s, ev);
    if Possible(s, ev) {
      if g :| g in s.goroutines && s.goroutines[g].child == c {
        if ev == Send(g) {
          assert after.exits[|s.exits|].child == c;
        } else {
          assert g in after.goroutines && after.goroutines[g].child == c;
        }
      } else {
        var i :| 0 <= i < |s.exits| && s.exits[i].child == c;
        if !ev.Take? {
          assert after.exits[i] == s.exits[i];
        } else if i > 0 {
          assert after.exits[i - 1] == s.exits[i];
        } else {
          assert s.exits[0].crashed;
          assert after.goroutines[ev.id].child == c;
        }
      }
    }
  }

  lemma NextLosesNone(s: System, ev: Event)
    requires NoneLost(s)
    ensures NoneLost(Next(s, ev))
  {
    var after := Next(s, ev);
    if after.loop.Looping? && !after.cancelled {
      forall c: nat | c < s.children && c !in after.cleanExits {
        NextKeepsPlaceOf(s, ev, c);
      }
    }
  }

  /** Only the history of crashes and restarts matters here. */
  lemma OneCrashMore(s: System, after: System, child: nat, now: int, granted: bool)
    requires CrashesAnswered(s) && s.loop.Looping? && granted == Allow(Remembered(s), s.maxRestarts, s.window, now).1
    requires after.crashes == s.crashes + [child] && after.times == s.times + [now] && after.earlier == s.earlier
    requires after.children == s.children && after.maxRestarts == s.maxRestarts && after.window == s.window
    requires if granted then after.loop.Looping? && after.started == s.started + [child]
             else after.loop.GaveUp? && after.started == s.started
    ensures CrashesAnswered(after)
  {
    OneMoreCall(s.maxRestarts, s.window, s.times, now);
    assert after.crashes[..|s.crashes|] == s.crashes;
    assert Upto(s.children) + s.crashes + [child] == Upto(s.children) + (s.crashes + [child]);
  }

  lemma TakingACrashAnswersIt(s: System, ev: Event)
    requires CrashesAnswered(s) && Possible(s, ev) && ev.Take? && s.exits[0].crashed
    ensures CrashesAnswered(Next(s, ev))
  {
    var granted := Allow(Remembered(s), s.maxRestarts, s.window, ev.now).1;
    OneCrashMore(s, Next(s, ev), s.exits[0].child, ev.now, granted);
  }

  lemma NextAnswersCrashes(s: System, ev: Event)
    requires CrashesAnswered(s)
    ensures CrashesAnswered(Next(s, ev))
  {
    if Possible(s, ev) && ev.Take? && s.exits[0].crashed {
      TakingACrashAnswersIt(s, ev);
    } else {
      assert Answered(Next(s, ev)) == Answered(s);
    }
  }

  lemma {:induction false} RunKeepsInv(s: System, events: seq<Event>)
    requires Inv(s)
    ensures Inv(Run(s, events))
    decreases |events|
  {
    if events != [] {
      NextKeepsPlaces(s, events[0]);
      NextAnswersCrashes(s, events[0]);
      NextLosesNone(s, events[0]);
      RunKeepsInv(Next(s, events[0]), events[1..]);
    }
  }

  lemma {:induction false} RunKeepsConfiguration(s: System, events: seq<Event>)
    ensures Run(s, events).children == s.children && Run(s, events).maxRestarts == s.maxRestarts
    ensures Run(s, events).window == s.window && Run(s, events).earlier == s.earlier
    decreases |events|
  {
    if events != [] {
      RunKeepsConfiguration(Next(s, events[0]), events[1..]);
    }
  }

  // ---- theorems ----------------------------------------------------------------------------------------

  lemma {:induction false} DistinctAreFew(s: seq<nat>, n: nat)
    requires forall i :: 0 <= i < |s| ==> s[i] < n
    requires forall i, j :: 0 <= i < j < |s| ==> s[i] != s[j]
    ensures |s| <= n
    decreases n
  {
    assert |s| > 0 ==> s[0] < n;
    if n > 0 {
      if i :| 0 <= i < |s| && s[i] == n - 1 {
        var rest := s[..i] + s[i + 1..];
        DistinctAreFew(rest, n - 1);
      } else {
        DistinctAreFew(s, n - 1);
      }
    }
  }

  /** For every number of children and every interleaving: the channel never holds more exits than it has room
      for, and a goroutine that wants to report an exit always finds room, while the loop is running and after it
      has returned or given up. */
  lemma NoSenderBlocks(children: nat, maxRestarts: int, window: int, earlier: seq<int>, events: seq<Event>)
    ensures var s := Run(Start(children, maxRestarts, window, earlier), events);
      && |s.exits| <= children
      && (forall g :: g in s.goroutines && s.goroutines[g].phase.Sending? ==> Possible(s, Send(g)))
  {
    var s := Run(Start(children, maxRestarts, window, earlier), events);
    StartIsOk(children, maxRestarts, window, earlier);
    RunKeepsInv(Start(children, maxRestarts, window, earlier), events);
    RunKeepsConfiguration(Start(children, maxRestarts, window, earlier), events);
    var waiting := seq(|s.exits|, i requires 0 <= i < |s.exits| => s.exits[i].child);
    DistinctAreFew(waiting, children);
    forall g | g in s.goroutines ensures |s.exits| < children {
      DistinctAreFew(waiting + [s.goroutines[g].child], children);
    }
  }

  /** In every run each child has at most one live instance or pending exit, and while the loop runs and the
      context is live exactly one, unless it has exited cleanly. */
  lemma OneInstanceEach(children: nat, maxRestarts: int, window: int, earlier: seq<int>, events: seq<Event>)
    ensures OnePlaceEach(Run(Start(children, maxRestarts, window, earlier), events))
    ensures NoneLost(Run(Start(children, maxRestarts, window, earlier), events))
  {
    StartIsOk(children, maxRestarts, window, earlier);
    RunKeepsInv(Start(children, maxRestarts, window, earlier), events);
  }

  /** In every run, after the first instance of each child the starts are exactly the crashes taken from the
      channel, in order, one start of the crashed child each, with the last crash left over if and only if the
      loop gave up. */
  lemma EachCrashIsAnsweredOnce(children: nat, maxRestarts: int, window: int, earlier: seq<int>, events: seq<Event>)
    ensures var s := Run(Start(children, maxRestarts, window, earlier), events);
      (s.loop.GaveUp? ==> s.crashes != []) && s.started == Upto(children) + Answered(s)
  {
    StartIsOk(children, maxRestarts, window, earlier);
    RunKeepsInv(Start(children, maxRestarts, window, earlier), events);
    RunKeepsConfiguration(Start(children, maxRestarts, window, earlier), events);
  }

  /** The limiter refused the last of these. */
  predicate LastRefused(maxRestarts: int, window: int, times: seq<int>) {
    times != [] && RefusedAfter(maxRestarts, window, times[..|times| - 1], times[|times| - 1])
  }

  predicate RefusedAfter(maxRestarts: int, window: int, times: seq<int>, now: int) {
    !Allow(Calls(maxRestarts, window, times).0, maxRestarts, window, now).1
  }

  lemma RefusalIsLast(maxRestarts: int, window: int, times: seq<int>, now: int)
    requires RefusedAfter(maxRestarts, window, times, now)
    ensures LastRefused(maxRestarts, window, times + [now])
  {
    assert (times + [now])[..|times|] == times;
  }

  lemma LastRefusedMeansMany(maxRestarts: int, window: int, times: seq<int>)
    requires NonDecreasing(times) && LastRefused(maxRestarts, window, times)
    ensures var last := |times| - 1;
      var granted := Calls(maxRestarts, window, times[..last]).1;
      |set i: nat | i < |granted| && times[last] - granted[i] < window| >= maxRestarts
  {
    var last := |times| - 1;
    GrantedIffFewAreRecent(maxRestarts, window, times[..last], times[last]);
  }

  /** The loop has returned only because it was cancelled, and given up only because the last crash was one too many for the
      limiter. */
  predicate EndedForAReason(s: System) {
    && (s.loop.Returned? ==> s.cancelled)
    && (s.loop.GaveUp? ==> LastRefused(s.maxRestarts, s.window, s.times))
  }

  lemma NextEndsForAReason(s: System, ev: Event)
    requires EndedForAReason(s)
    ensures EndedForAReason(Next(s, ev))
  {
    if Possible(s, ev) && ev.Take? && s.exits[0].crashed {
      if RefusedAfter(s.maxRestarts, s.window, s.times, ev.now) {
        RefusalIsLast(s.maxRestarts, s.window, s.times, ev.now);
      }
    } else {
      assert Next(s, ev).times == s.times;
    }
  }

  lemma {:induction false} RunEndsForAReason(s: System, events: seq<Event>)
    requires EndedForAReason(s)
    ensures EndedForAReason(Run(s, events))
    decreases |events|
  {
    if events != [] {
      NextEndsForAReason(s, events[0]);
      RunEndsForAReason(Next(s, events[0]), events[1..]);
    }
  }

  /** In every run the supervisor stops for one of two reasons: its context was cancelled, or, the clock not going back, the
      limit of restarts was reached within the window before the last crash, restarts of earlier calls included. */
  lemma TheLoopEndsForAReason(children: nat, maxRestarts: int, window: int, earlier: seq<int>, events: seq<Event>)
    requires NonDecreasing(Run(Start(children, maxRestarts, window, earlier), events).times)
    ensures var s := Run(Start(children, maxRestarts, window, earlier), events);
      && (s.loop.Returned? ==> s.cancelled)
      && (s.loop.GaveUp? ==>
            && s.times != []
            && var last := |s.times| - 1;
               var granted := Calls(maxRestarts, window, s.times[..last]).1;
               |set i: nat | i < |granted| && s.times[last] - granted[i] < window| >= maxRestarts)
  {
    RunKeepsConfiguration(Start(children, maxRestarts, window, earlier), events);
    RunEndsForAReason(Start(children, maxRestarts, window, earlier), events);
    var s := Run(Start(children, maxRestarts, window, earlier), events);
    if s.loop.GaveUp? {
      LastRefusedMeansMany(maxRestarts, window, s.times);
    }
  }

  lemma RunOfThree(s: System, a: Event, b: Event, c: Event)
    ensures Run(s, [a, b, c]) == Next(Next(Next(s, a), b), c)
  {
    assert [a, b, c][1..] == [b, c] && [b, c][1..] == [c] && [c][1..] == [];
    var s1 := Next(s, a);
    var s2 := Next(s1, b);
    assert Run(s, [a, b, c]) == Run(s1, [b, c]) == Run(s2, [c]) == Run(Next(s2, c), []);
  }

  lemma SendsItsExit(s: System, g: nat, crashed: bool)
    requires s.exits == [] && s.children >= 1 && g in s.goroutines && s.goroutines[g].phase == Executing
    ensures Next(Next(s, Finish(g, crashed)), Send(g)) ==
            s.(goroutines := s.goroutines - {g}, exits := [Exit(s.goroutines[g].child, crashed)])
  {
    assert s.goroutines[g := Goroutine(s.goroutines[g].child, Sending(crashed))] - {g} == s.goroutines - {g};
  }

  /** What becomes of an instance whose exit is the next to be taken: if it crashed and fewer than the limit of restarts lie
      within the window, one new instance of its child is started, and of no other; if it crashed otherwise the loop gives
      up; and if it exited cleanly nothing is started. */
  lemma OneExitIsAnswered(s: System, g: nat, crashed: bool, now: int, id: nat)
    requires s.loop.Looping? && s.exits == [] && s.children >= 1 && id !in s.goroutines
    requires g in s.goroutines && s.goroutines[g].phase == Executing
    requires NonDecreasing(s.times) && (s.times != [] ==> s.times[|s.times| - 1] <= now)
    ensures var t := Run(s, [Finish(g, crashed), Send(g), Take(now, id)]);
      var child := s.goroutines[g].child;
      var granted := Calls(s.maxRestarts, s.window, s.times).1;
      var few := |set i: nat | i < |granted| && now - granted[i] < s.window| < s.maxRestarts;
      && t.exits == []
      && t.loop == (if crashed && !few then GaveUp else Looping)
      && t.started == s.started + (if crashed && few then [child] else [])
      && t.goroutines == if crashed && few then (s.goroutines - {g})[id := Goroutine(child, Executing)] else s.goroutines - {g}
  {
    RunOfThree(s, Finish(g, crashed), Send(g), Take(now, id));
    GrantedIffFewAreRecent(s.maxRestarts, s.window, s.times, now);
    SendsItsExit(s, g, crashed);
  }

  /** A cancelled context ends the loop at its next look, and lets go whoever still wants to report an exit. */
  lemma CancellingEndsIt(s: System, g: nat)
    requires s.loop.Looping?
    ensures Next(Next(s, Cancel), Stop).loop == Returned
    ensures g in s.goroutines && s.goroutines[g].phase.Sending? ==>
      Next(Next(s, Cancel), Drop(g)).goroutines == s.goroutines - {g}
  {
  }

  /** In every run with a clock that does not go back, any maxRestarts + 1 consecutive restarts, whether this call
      granted them or an earlier one on the same supervisor did, were granted at times that span at least the window;
      and this call was granted exactly the restarts it made. */
  lemma RestartsAreSpread(children: nat, maxRestarts: nat, window: int, earlier: seq<int>, events: seq<Event>, i: nat)
    requires maxRestarts >= 1 && NonDecreasing(Run(Start(children, maxRestarts, window, earlier), events).times)
    ensures var s := Run(Start(children, maxRestarts, window, earlier), events);
      var granted := Calls(maxRestarts, window, s.times).1;
      && earlier <= s.times
      && |granted| - |Calls(maxRestarts, window, earlier).1| == |s.started| - children
      && (i + maxRestarts < |granted| ==> granted[i + maxRestarts] - granted[i] >= window)
  {
    var s := Run(Start(children, maxRestarts, window, earlier), events);
    StartIsOk(children, maxRestarts, window, earlier);
    RunKeepsInv(Start(children, maxRestarts, window, earlier), events);
    RunKeepsConfiguration(Start(children, maxRestarts, window, earlier), events);
    if i + maxRestarts < |Calls(maxRestarts, window, s.times).1| {
      GrantedRestartsAreSpread(maxRestarts, window, s.times, i);
    }
  }
}
