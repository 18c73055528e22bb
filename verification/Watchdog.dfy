/** The install watchdog (src/packages.ts, installPackage): one timer, rearmed by each check. */
module Watchdog {
  import opened Basics

  /** The shortest wait a check arms. */
  const FLOOR_MS: nat := 10

  datatype Verdict = Stalled(inSandbox: bool) | CeilingPassed

  /** What the last check saw: when, how long nothing was heard, and how many unwatched runs
      were in flight. */
  datatype Look = Look(at: int, idle: int, unwatched: nat)

  datatype Event =
    | Passes(ms: nat)
    | Touches
    | StartsWatched
    | EndsWatched
    | StartsUnwatched
    | EndsUnwatched

  /** Each run ends before the next one starts, so many being in flight: what the install
      does, which awaits every run it asks for. */
  predicate OneAtATime(events: seq<Event>, watched: nat, unwatched: nat)
    decreases |events|
  {
    if events == [] then true
    else
      match events[0]
      case Passes(_) => OneAtATime(events[1..], watched, unwatched)
      case Touches => OneAtATime(events[1..], watched, unwatched)
      case StartsWatched => watched + unwatched == 0 && OneAtATime(events[1..], 1, 0)
      case StartsUnwatched => watched + unwatched == 0 && OneAtATime(events[1..], 0, 1)
      case EndsWatched => OneAtATime(events[1..], Max(watched - 1, 0), unwatched)
      case EndsUnwatched => OneAtATime(events[1..], watched, Max(unwatched - 1, 0))
  }

  /** The watchdog of one install, on a clock of whole milliseconds whose timers are prompt:
      the clock never passes the pending timer's time before its callback has run. */
  class InstallWatchdog {
    const stallMs: nat
    const ceilingMs: nat
    var now: int
    var last: int
    var runStarted: Option<int>
    var watched: nat
    var unwatched: nat
    var timer: Option<int>
    var verdict: Option<Verdict>
    ghost var look: Look
    /** Whether no two runs were ever in flight together. */
    ghost var alone: bool
    /** Whether the run timed was seen past its ceiling, silent beside an unwatched run. */
    ghost var excused: bool
    /** Whether the last watched run to start or end ended while others were in flight. */
    ghost var leftOthers: bool

    /** Until there is a verdict a timer is pending, no further off than the limits allow. */
    ghost predicate Valid()
      reads this
    {
      && last <= now
      && (runStarted.Some? ==> runStarted.value <= now && watched > 0)
      && (watched > 0 ==> (runStarted.None? <==> leftOthers))
      && (alone ==> watched + unwatched <= 1 && !excused && (watched > 0 ==> !leftOthers))
      && (verdict.None? ==> timer.Some? && Armed(timer.value))
      && (verdict.Some? ==> Deserved())
    }

    ghost predicate Armed(due: int)
      reads this
    {
      && now <= due <= now + stallMs + FLOOR_MS
      && (unwatched == 0 ==> due <= last + stallMs + FLOOR_MS)
      && (runStarted.Some? && !excused ==> due <= runStarted.value + ceilingMs + FLOOR_MS)
    }

    /** A run is called stalled only with no unwatched one in flight, and past its ceiling
        only while it is heard from. */
    ghost predicate Deserved()
      reads this
    {
      verdict.Some? ==>
        match verdict.value
        case Stalled(_) => look.unwatched == 0 && look.idle >= stallMs
        case CeilingPassed => look.idle < stallMs
    }

    constructor (stallMs: nat, ceilingMs: nat, start: int)
      ensures Valid() && verdict.None? && now == last == start && watched == unwatched == 0
      ensures this.stallMs == stallMs && this.ceilingMs == ceilingMs && alone
      ensures runStarted.None? && timer == Some(start + stallMs)
    {
      this.stallMs, this.ceilingMs := stallMs, ceilingMs;
      now, last, runStarted, watched, unwatched := start, start, None, 0, 0;
      timer, verdict := Some(start + stallMs), None;
      look, alone, excused, leftOthers := Look(start, 0, 0), true, false, false;
    }

    /** How long until there could next be a verdict, by the limits alone. */
    function Wait(): int
      reads this
    {
      var untilIdle := if unwatched > 0 then stallMs else stallMs - (now - last);
      Max(if runStarted.None? then untilIdle else Min(untilIdle, ceilingMs - (now - runStarted.value)), FLOOR_MS)
    }

    /** Whether a check now would give a verdict, and which. */
    function Judgement(): Option<Verdict>
      reads this
    {
      if runStarted.Some? && now - runStarted.value >= ceilingMs && now - last < stallMs then Some(CeilingPassed)
      else if unwatched == 0 && now - last >= stallMs then Some(Stalled(watched > 0))
      else None
    }

    /** The guard under which a check past the ceiling gives no verdict: nothing was heard for
        the stall window, but a run nothing can watch is in flight. */
    predicate Excuses()
      reads this
    {
      now - last >= stallMs && unwatched > 0
    }

    /** Past the ceiling a check gives no verdict exactly under that guard. */
    lemma PastCeiling()
      requires runStarted.Some? && now - runStarted.value >= ceilingMs
      ensures Judgement().None? <==> Excuses()
    {
    }

    /** The timer is for the soonest that a limit could be met, silence going on: the stall
        window's end, a whole stall window beside an unwatched run, or the ceiling; and not
        sooner than the floor. */
    lemma WaitsForLimit()
      ensures Wait() >= FLOOR_MS
      ensures unwatched == 0 && now + FLOOR_MS <= last + stallMs ==> now + Wait() <= last + stallMs
      ensures runStarted.Some? && now + FLOOR_MS <= runStarted.value + ceilingMs ==> now + Wait() <= runStarted.value + ceilingMs
      ensures Wait() > FLOOR_MS ==>
                || (unwatched == 0 && now + Wait() == last + stallMs) || (unwatched > 0 && Wait() == stallMs)
                || (runStarted.Some? && now + Wait() == runStarted.value + ceilingMs)
    {
    }

    /** `check`: a verdict, or the timer armed for when there could next be one. */
    method Check()
      requires last <= now && (runStarted.Some? ==> runStarted.value <= now && watched > 0)
      requires verdict.Some? ==> Deserved()
      modifies this`timer, this`verdict, this`look, this`excused
      ensures old(verdict).Some? ==> verdict == old(verdict) && look == old(look) && excused == old(excused)
      ensures old(verdict).None? ==> verdict == Judgement() && look == Look(now, now - last, unwatched)
      ensures old(verdict).None? ==>
                excused == (old(excused) || (runStarted.Some? && now - runStarted.value >= ceilingMs && Excuses()))
      ensures verdict.None? ==> timer == Some(now + Wait()) && Armed(timer.value)
      ensures verdict.Some? ==> Deserved()
    {
      if verdict.Some? {
        return;
      }
      var idle := now - last;
      var running := if runStarted.None? then 0 else now - runStarted.value;
      look := Look(now, idle, unwatched);
      excused := excused || (runStarted.Some? && running >= ceilingMs && Excuses());
      if runStarted.Some? && running >= ceilingMs && idle < stallMs {
        verdict := Some(CeilingPassed);
        return;
      }
      if unwatched == 0 && idle >= stallMs {
        verdict := Some(Stalled(watched > 0));
        return;
      }
      var untilIdle := if unwatched > 0 then stallMs else stallMs - idle;
      var wait := if runStarted.None? then untilIdle else Min(untilIdle, ceilingMs - running);
      timer := Some(now + Max(wait, FLOOR_MS));
    }

    method Touch()
      requires Valid()
      modifies this`last
      ensures Valid() && last == now
    {
      last := now;
    }

    /** The start of a run the host can watch: the ceiling may come before the next idle check. */
    method StartWatched()
      requires Valid()
      modifies this
      ensures Valid() && watched == old(watched) + 1 && runStarted == Some(now)
      ensures now == old(now) && last == old(last) && unwatched == old(unwatched)
      ensures alone <==> old(alone) && old(watched) + old(unwatched) == 0
      ensures old(verdict).None? ==> verdict == Judgement()
      ensures verdict.None? ==> timer == Some(now + Wait())
    {
      alone := alone && watched + unwatched == 0;
      watched := watched + 1;
      runStarted := Some(now);
      excused, leftOthers := false, false;
      Check();
    }

    method EndWatched()
      requires Valid() && watched > 0
      modifies this`watched, this`runStarted, this`excused, this`leftOthers
      ensures Valid() && watched == old(watched) - 1 && runStarted == None && leftOthers == (watched > 0)
    {
      watched := watched - 1;
      runStarted := None;
      excused, leftOthers := false, watched > 0;
    }

    method StartUnwatched()
      requires Valid()
      modifies this`unwatched, this`alone
      ensures Valid() && unwatched == old(unwatched) + 1
      ensures alone <==> old(alone) && watched + old(unwatched) == 0
    {
      alone := alone && watched + unwatched == 0;
      unwatched := unwatched + 1;
    }

    method EndUnwatched()
      requires Valid() && unwatched > 0
      modifies this`unwatched, this`last
      ensures Valid() && unwatched == old(unwatched) - 1 && last == now
    {
      unwatched := unwatched - 1;
      last := now;
    }

    /** Time passes, up to the pending timer's time. */
    method Advance(to: int)
      requires Valid() && now <= to
      requires verdict.None? ==> to <= timer.value
      modifies this`now
      ensures Valid() && now == to
    {
      now := to;
    }

    /** The pending timer's callback. */
    method Fire()
      requires Valid() && verdict.None? && timer == Some(now)
      modifies this`timer, this`verdict, this`look, this`excused
      ensures Valid()
      ensures verdict == Judgement()
      ensures verdict.None? ==> timer == Some(now + Wait()) && timer.value > now
    {
      Check();
    }

    /** Without a verdict the idle limit is never passed by more than the floor, unless a run
        nothing can watch is in flight. */
    lemma IdleBound()
      requires Valid() && verdict.None? && unwatched == 0
      ensures now - last <= stallMs + FLOOR_MS
    {
    }

    /** Nor, with runs one at a time, is the ceiling of a run the host can watch. */
    lemma CeilingBound()
      requires Valid() && verdict.None? && alone && watched > 0
      ensures runStarted.Some? && now - runStarted.value <= ceilingMs + FLOOR_MS
    {
    }

    /** For runs of any mix, the ceiling of the run timed is passed by more than the floor only
        once a check past it met the guard. */
    lemma CeilingUnlessExcused()
      requires Valid() && verdict.None? && runStarted.Some? && !excused
      ensures now - runStarted.value <= ceilingMs + FLOOR_MS
    {
    }

    /** And a watched run is in flight with none timed exactly after another ended beside it. */
    lemma UntimedExactly()
      requires Valid() && watched > 0
      ensures runStarted.None? <==> leftOthers
    {
    }

    // ---- any run ----

    /** What every run leaves true. */
    ghost predicate Promised()
      reads this
    {
      && (verdict.None? ==>
            && timer.Some? && timer.value >= now
            && (unwatched == 0 ==> now - last <= stallMs + FLOOR_MS)
            && (alone && watched > 0 ==> runStarted.Some? && now - runStarted.value <= ceilingMs + FLOOR_MS)
            && (runStarted.Some? && !excused ==> now - runStarted.value <= ceilingMs + FLOOR_MS))
      && Deserved()
    }

    /** Time passes, every timer's callback running when it is due. */
    method Pass(ms: nat)
      requires Valid()
      modifies this`now, this`timer, this`verdict, this`look, this`excused
      ensures Valid() && now == old(now) + ms
    {
      var to := now + ms;
      while verdict.None? && timer.value <= to
        invariant Valid() && now <= to
        decreases verdict.None?, if verdict.None? then to - timer.value else 0
      {
        Advance(timer.value);
        Fire();
      }
      Advance(to);
    }

    method Meet(event: Event)
      requires Valid()
      modifies this
      ensures Valid()
      ensures match event
              case Passes(ms) => now == old(now) + ms && watched == old(watched) && unwatched == old(unwatched) && alone == old(alone)
              case Touches => last == now && watched == old(watched) && unwatched == old(unwatched) && alone == old(alone)
              case StartsWatched => watched == old(watched) + 1 && unwatched == old(unwatched)
                                    && (alone <==> old(alone) && old(watched + unwatched) == 0)
              case StartsUnwatched => unwatched == old(unwatched) + 1 && watched == old(watched)
                                      && (alone <==> old(alone) && old(watched + unwatched) == 0)
              case EndsWatched => watched == Max(old(watched) - 1, 0) && unwatched == old(unwatched) && alone == old(alone)
              case EndsUnwatched => unwatched == Max(old(unwatched) - 1, 0) && watched == old(watched) && alone == old(alone)
    {
      match event {
        case Passes(ms) => Pass(ms);
        case Touches => Touch();
        case StartsWatched => StartWatched();
        case StartsUnwatched => StartUnwatched();
        case EndsWatched => if watched > 0 { EndWatched(); }
        case EndsUnwatched => if unwatched > 0 { EndUnwatched(); }
      }
    }

    /** Any events in any order keep the promises, and runs that come one at a time never
        lose the ceiling. */
    method Run(events: seq<Event>)
      requires Valid()
      modifies this
      ensures Valid() && Promised()
      ensures old(alone) && old(watched + unwatched) == 0 && OneAtATime(events, 0, 0) ==> alone
    {
      ghost var serial := alone && watched + unwatched == 0 && OneAtATime(events, 0, 0);
      assert events[0..] == events;
      for n := 0 to |events|
        invariant Valid()
        invariant serial ==> alone && OneAtATime(events[n..], watched, unwatched)
      {
        hide Valid;
        assert events[n..][0] == events[n] && events[n..][1..] == events[n + 1..];
        Meet(events[n]);
      }
    }
  }

  /** Left to itself with no unwatched run, the install always gets its verdict, and within
      the floor of the idle limit. */
  method Silence(w: InstallWatchdog)
    requires w.Valid() && w.verdict.None? && w.unwatched == 0
    modifies w
    ensures w.Valid() && w.verdict.Some? && w.last == old(w.last)
    ensures w.now <= w.last + w.stallMs + FLOOR_MS
    ensures w.runStarted.None? ==> w.verdict == Some(Stalled(w.watched > 0))
  {
    while w.verdict.None?
      invariant w.Valid() && w.unwatched == 0 && w.last == old(w.last)
      invariant w.watched == old(w.watched) && w.runStarted == old(w.runStarted)
      invariant w.now <= w.last + w.stallMs + FLOOR_MS
      invariant w.verdict.Some? && w.runStarted.None? ==> w.verdict == Some(Stalled(w.watched > 0))
      decreases w.verdict.None?, if w.verdict.None? then w.last + w.stallMs + FLOOR_MS - w.timer.value else 0
    {
      w.Advance(w.timer.value);
      w.Fire();
    }
  }

  /** A run being timed, heard from at every check, gets its verdict within the floor of the
      ceiling, whatever unwatched runs come and go beside it. */
  method HeardThroughout(w: InstallWatchdog)
    requires w.Valid() && w.verdict.None? && w.runStarted.Some? && w.stallMs > 0
    requires w.timer.value <= w.runStarted.value + w.ceilingMs + FLOOR_MS
    modifies w
    ensures w.Valid() && w.verdict == Some(CeilingPassed)
    ensures w.runStarted == old(w.runStarted) && w.now <= w.runStarted.value + w.ceilingMs + FLOOR_MS
  {
    while w.verdict.None?
      invariant w.Valid() && w.runStarted == old(w.runStarted)
      invariant w.now <= w.runStarted.value + w.ceilingMs + FLOOR_MS
      invariant if w.verdict.None? then w.timer.value <= w.runStarted.value + w.ceilingMs + FLOOR_MS
                else w.verdict == Some(CeilingPassed)
      decreases w.verdict.None?, if w.verdict.None? then w.runStarted.value + w.ceilingMs + FLOOR_MS - w.timer.value else 0
    {
      w.Advance(w.timer.value);
      w.Touch();
      var more: bool := *;
      if more {
        w.StartUnwatched();
      } else if w.unwatched > 0 {
        w.EndUnwatched();
      }
      w.Fire();
    }
  }

  /** Two watched runs at once are not covered: the first to end stops the other's clock, and
      the other is then past its ceiling, still running, with no verdict. */
  method OverlapEscapesCeiling() returns (w: InstallWatchdog)
    ensures w.Valid() && w.verdict.None? && w.leftOthers
    ensures w.ceilingMs == 50 && w.watched == 1 && w.now == 100
  {
    w := new InstallWatchdog(100, 50, 0);
    w.StartWatched();
    w.StartWatched();
    w.EndWatched();
    w.Advance(50);
    w.Touch();
    w.Fire();
    w.Advance(100);
  }

  /** A watched run beside an unwatched one, silent for its stall window. */
  method SilentBeside() returns (w: InstallWatchdog)
    ensures fresh(w) && w.Valid() && w.verdict.None? && w.stallMs == 20 && w.ceilingMs == 50
    ensures w.runStarted == Some(0) && w.last == 0 && w.now == 40 && w.unwatched == 1 && w.timer == Some(50)
  {
    w := new InstallWatchdog(20, 50, 0);
    w.StartUnwatched();
    w.StartWatched();
    w.Advance(20);
    w.Fire();
    w.Advance(40);
    w.Fire();
  }

  /** It passes its ceiling with no verdict. */
  method SilenceExcusesCeiling() returns (w: InstallWatchdog)
    ensures w.Valid() && w.verdict.None? && w.excused
    ensures w.ceilingMs == 50 && w.runStarted == Some(0) && w.now == 70
  {
    w := SilentBeside();
    w.Advance(50);
    w.Fire();
    w.Advance(60);
    w.Fire();
    w.Advance(70);
  }
}
