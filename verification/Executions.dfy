/** The registry of commands run for a caller (src/executions.ts): how much of their output is
    kept, how many may run, and what a wait reports, whatever the order of exits, kills,
    polls and waits. Each method of `Registry` is what runs between two `await`s. */
module Executions {
  import opened Basics

  const MAX_ACTIVE_EXECUTIONS: nat := 16

  // ---- captures ----

  /** Everything pushed to a capture, and how much of it is kept. */
  datatype Capture = Capture(limit: nat, pushed: Bytes) {
    function Kept(): Bytes {
      TakeUpTo(pushed, limit)
    }

    predicate Truncated() {
      |pushed| > limit
    }

    function Push(bytes: Bytes): Capture {
      Capture(limit, pushed + bytes)
    }
  }

  /** A capture that stops growing at its limit and remembers that it did. */
  class BoundedCapture {
    const limit: nat
    var chunks: seq<Bytes>
    var length: nat
    var truncated: bool
    ghost var pushed: Bytes

    ghost function View(): Capture
      reads this
    {
      Capture(limit, pushed)
    }

    ghost predicate Valid()
      reads this
    {
      && Join(chunks) == View().Kept()
      && length == |View().Kept()|
      && truncated == View().Truncated()
    }

    constructor (limit: nat)
      ensures Valid() && View() == Capture(limit, [])
    {
      this.limit, chunks, length, truncated, pushed := limit, [], 0, false, [];
    }

    method Push(bytes: Bytes)
      requires Valid()
      modifies this
      ensures Valid() && View() == old(View()).Push(bytes)
    {
      ghost var was := pushed;
      pushed := pushed + bytes;
      if |bytes| == 0 {
        return;
      }
      var room := limit - length;
      if room <= 0 {
        KeptFull(limit, was, bytes);
        truncated := true;
        return;
      }
      if |bytes| > room {
        KeptPartly(limit, was, bytes, room);
        JoinAppend(chunks, [bytes[..room]]);
        JoinOne(bytes[..room]);
        hide Join;
        chunks := chunks + [bytes[..room]];
        length := length + room;
        truncated := true;
        return;
      }
      JoinAppend(chunks, [bytes]);
      JoinOne(bytes);
      hide Join;
      chunks := chunks + [bytes];
      length := length + |bytes|;
    }

    /** The kept bytes, copied chunk after chunk. */
    method ToBytes() returns (all: Bytes)
      requires Valid()
      ensures all == View().Kept()
    {
      var out := new byte[length];
      var at := 0;
      assert chunks[..0] == [];
      assert chunks[..|chunks|] == chunks;
      for i := 0 to |chunks|
        invariant at == |Join(chunks[..i])| <= out.Length && out[..at] == Join(chunks[..i])
        invariant Join(chunks[..i]) <= Join(chunks)
      {
        JoinNext(chunks, i);
        assert chunks == chunks[..i + 1] + chunks[i + 1..];
        JoinAppend(chunks[..i + 1], chunks[i + 1..]);
        hide Join;
        forall k | 0 <= k < |chunks[i]| {
          out[at + k] := chunks[i][k];
        }
        assert out[..at + |chunks[i]|] == Join(chunks[..i]) + chunks[i];
        at := at + |chunks[i]|;
      }
      all := out[..];
    }
  }

  lemma KeptFull(limit: nat, was: Bytes, bytes: Bytes)
    requires |TakeUpTo(was, limit)| == limit && bytes != []
    ensures TakeUpTo(was + bytes, limit) == TakeUpTo(was, limit) && |was + bytes| > limit
  {
  }

  lemma KeptPartly(limit: nat, was: Bytes, bytes: Bytes, room: nat)
    requires room == limit - |TakeUpTo(was, limit)| && 0 < room < |bytes|
    ensures TakeUpTo(was + bytes, limit) == TakeUpTo(was, limit) + bytes[..room] && |was + bytes| > limit
  {
  }

  /** Pushing piece by piece comes to pushing it all at once: what is kept is the first
      `limit` bytes, and the capture is truncated exactly when there were more. */
  lemma {:induction false} PushesJoin(c: Capture, pieces: seq<Bytes>)
    ensures Pushed(c, pieces) == c.Push(Join(pieces))
    decreases |pieces|
  {
    if pieces == [] {
      assert c.pushed + [] == c.pushed;
    } else {
      PushesJoin(c.Push(pieces[0]), pieces[1..]);
      Associative(c.pushed, pieces[0], Join(pieces[1..]));
    }
  }

  function Pushed(c: Capture, pieces: seq<Bytes>): Capture
    decreases |pieces|
  {
    if pieces == [] then c else Pushed(c.Push(pieces[0]), pieces[1..])
  }

  // ---- one execution ----

  datatype Output = Output(bytes: Bytes, truncated: bool)

  datatype Result =
    | Exit(stdout: Output, stderr: Output, timedOut: bool)
    | Stuck(stdout: Output, stderr: Output, timedOut: bool)
    | Failure(stdout: Output, stderr: Output, timedOut: bool)

  datatype RecordState = Running | StuckState | Exited

  /** Where the run is: between polls, at a kill of its own, peeking for a Stuck report,
      watching what it reported Stuck, seeing the kills out, over. */
  datatype Run = Polling | Killing(kill: nat) | Peeking | Watching | Draining | Over

  /** `kills` says of each signal sent whether its signaller has settled; `taken` are all the
      bytes taken from the process's stdout and stderr. */
  datatype Execution = Execution(
    state: RecordState,
    run: Run,
    stdout: Capture,
    stderr: Capture,
    taken: (Bytes, Bytes),
    exited: bool,
    leaderExited: bool,
    timedOut: bool,
    killedAt: bool,
    kills: seq<bool>,
    done: Option<Result>,
    late: Option<Result>,
    read: bool)

  function OutputOf(c: Capture): Output {
    Output(c.Kept(), c.Truncated())
  }

  predicate AllSettled(kills: seq<bool>) {
    forall k :: 0 <= k < |kills| ==> kills[k]
  }

  /** The whole of what an execution never reported Stuck gave, as far as the limit goes. */
  ghost predicate WholeOutput(e: Execution, r: Result) {
    && e.stdout.pushed == e.taken.0 && e.stderr.pushed == e.taken.1
    && r.stdout == OutputOf(e.stdout) && r.stderr == OutputOf(e.stderr)
  }

  ghost predicate ExecutionValid(e: Execution) {
    && (e.state.Running? <==> e.run.Polling? || e.run.Killing? || e.run.Draining?)
    && (e.state.StuckState? <==> e.run.Peeking? || e.run.Watching?)
    && (e.run.Killing? ==> e.run.kill < |e.kills|)
    && (e.run.Draining? ==> e.exited && e.leaderExited)
    && (e.done.Some? <==> e.run.Watching? || e.run.Over?)
    && (e.run.Watching? ==> e.done.value.Stuck?)
    && (e.late.Some? ==> e.late.value.Exit? && e.run.Over?)
    && (e.run.Over? && e.done.value.Stuck? ==> e.late.Some?)
    && (e.state.Running? || e.run.Peeking? ==> e.stdout.pushed == e.taken.0 && e.stderr.pushed == e.taken.1)
    && (e.done.Some? && e.done.value.Exit? ==> AllSettled(e.kills) && WholeOutput(e, e.done.value))
  }

  /** What `wait` reports, once there is something. */
  function Final(e: Execution): Result
    requires e.done.Some? || e.late.Some?
  {
    if e.late.Some? then e.late.value else e.done.value
  }

  predicate Ages(was: RecordState, now: RecordState) {
    was == now || was.Running? || now.Exited?
  }

  /** No execution is gone, and each has only aged: running, then stuck, then exited. */
  ghost predicate Aged(was: map<nat, Execution>, now: map<nat, Execution>) {
    forall id :: id in was ==> id in now && Ages(was[id].state, now[id].state)
  }

  lemma AgedTransitive(a: map<nat, Execution>, b: map<nat, Execution>, c: map<nat, Execution>)
    requires Aged(a, b) && Aged(b, c)
    ensures Aged(a, c)
  {
  }

  lemma AgedItself(a: map<nat, Execution>)
    ensures Aged(a, a)
  {
  }

  // ---- the registry ----

  datatype Wait = Awaiting(id: nat) | Returned(id: nat, result: Result) | Threw

  class Registry {
    /** Every execution there was; those in the map are the `registered` ones. */
    var all: map<nat, Execution>
    var registered: set<nat>
    var starting: nat
    var next: nat
    var waits: seq<Wait>

    /** The spawned processes whose end is not recorded. */
    function Unended(): set<nat>
      reads this`all
    {
      UnendedOf(all)
    }

    static function UnendedOf(all: map<nat, Execution>): set<nat> {
      set id | id in all && !all[id].state.Exited?
    }

    ghost predicate Valid()
      reads this
    {
      && registered <= all.Keys
      && Unended() <= registered
      && starting + |Unended()| <= MAX_ACTIVE_EXECUTIONS
      && (forall id :: id in all ==> id < next && ExecutionValid(all[id]))
      && (forall w :: 0 <= w < |waits| && waits[w].Awaiting? ==> waits[w].id in all)
    }

    constructor ()
      ensures Valid() && all == map[] && registered == {} && starting == 0 && waits == [] && next == 0
    {
      all, registered, starting, next, waits := map[], {}, 0, 0, [];
      new;
      assert Unended() == {};
    }

    /** `active`: what is starting, and what of the map has not exited -- which is every
        process whose end is not recorded. */
    method Active() returns (n: nat)
      requires Valid()
      ensures n == starting + |Unended()|
    {
      n := starting;
      var todo := registered;
      ghost var counted: set<nat> := {};
      while todo != {}
        invariant todo <= registered
        invariant counted == set id | id in registered && id !in todo && !all[id].state.Exited?
        invariant n == starting + |counted|
        decreases |todo|
      {
        var id :| id in todo;
        todo := todo - {id};
        if !all[id].state.Exited? {
          n := n + 1;
          counted := counted + {id};
        }
      }
      assert counted == Unended();
    }

    /** One execution changes, its state only ever aging. */
    method Update(id: nat, e: Execution)
      requires Valid() && id in all && Ages(all[id].state, e.state) && ExecutionValid(e)
      requires e.state.Exited? || id in registered
      modifies this`all
      ensures Valid() && all == old(all)[id := e] && Aged(old(all), all)
    {
      hide ExecutionValid;
      ghost var before := Unended();
      all := all[id := e];
      Fewer(Unended(), before);
    }

    static lemma Fewer(a: set<nat>, b: set<nat>)
      requires a <= b
      ensures |a| <= |b|
    {
      if a != b {
        var x :| x in b && x !in a;
        Fewer(a, b - {x});
      }
    }

    // ---- spawn ----

    /** A spawn begins, unless as many as may be are running, stuck or starting. */
    method Spawn(expired: set<nat>) returns (refused: bool)
      requires Valid()
      modifies this`starting, this`registered
      ensures Valid()
      ensures refused <==> old(starting + |Unended()|) >= 16
      ensures starting == if refused then old(starting) else old(starting) + 1
    {
      Expire(expired);
      var n := Active();
      if n >= MAX_ACTIVE_EXECUTIONS {
        return true;
      }
      starting := starting + 1;
      return false;
    }

    /** The spawner is done: there is a process, or it failed. */
    method Spawned(ok: bool, limit: nat)
      requires Valid() && starting > 0
      modifies this`starting, this`all, this`registered, this`next
      ensures Valid() && Aged(old(all), all) && starting == old(starting) - 1
      ensures if ok then all == old(all)[old(next) := New(limit)] && registered == old(registered) + {old(next)}
              else all == old(all) && registered == old(registered)
    {
      hide ExecutionValid, UnendedOf, New, Aged;
      AgedItself(all);
      starting := starting - 1;
      if ok {
        Register(limit);
      }
    }

    method Register(limit: nat)
      requires Valid() && starting + |Unended()| < MAX_ACTIVE_EXECUTIONS
      modifies this`all, this`registered, this`next
      ensures Valid() && Aged(old(all), all)
      ensures all == old(all)[old(next) := New(limit)] && registered == old(registered) + {old(next)}
    {
      hide ExecutionValid, UnendedOf, New, Aged;
      NewIsValid(limit);
      Added(all, next, New(limit));
      all := all[next := New(limit)];
      registered := registered + {next};
      next := next + 1;
    }

    static lemma Added(all: map<nat, Execution>, id: nat, e: Execution)
      requires id !in all && !e.state.Exited?
      ensures Aged(all, all[id := e])
      ensures UnendedOf(all[id := e]) == UnendedOf(all) + {id} && id !in UnendedOf(all)
    {
      assert UnendedOf(all[id := e]) == UnendedOf(all) + {id};
    }

    static function New(limit: nat): Execution {
      Execution(Running, Polling, Capture(limit, []), Capture(limit, []), ([], []), false, false, false, false, [], None, None, false)
    }

    static lemma NewIsValid(limit: nat)
      ensures ExecutionValid(New(limit)) && New(limit).state.Running?
    {
    }

    // ---- the run ----

    /** The process exits, on its own or of a signal. */
    method Exits(id: nat)
      requires Valid() && id in all
      modifies this`all
      ensures Valid() && Aged(old(all), all) && all == old(all)[id := old(all[id]).(exited := true)]
    {
      Keep(id);
      Update(id, all[id].(exited := true));
    }

    /** An execution that has not exited is in the map. */
    lemma Keep(id: nat)
      requires Valid() && id in all
      ensures ExecutionValid(all[id]) && (all[id].state.Exited? || id in registered)
    {
      if !all[id].state.Exited? {
        assert id in Unended();
      }
    }

    /** What a take of the process's output adds. */
    static function Took(e: Execution, out: Bytes, err: Bytes): (r: Execution)
      ensures r.taken == (e.taken.0 + out, e.taken.1 + err)
      ensures r.stdout.pushed == e.stdout.pushed + out && r.stderr.pushed == e.stderr.pushed + err
      ensures r == e.(stdout := r.stdout, stderr := r.stderr, taken := r.taken)
      ensures r.stdout.limit == e.stdout.limit && r.stderr.limit == e.stderr.limit
    {
      e.(stdout := e.stdout.Push(out), stderr := e.stderr.Push(err), taken := (e.taken.0 + out, e.taken.1 + err))
    }

    /** One poll: the output so far is taken; past the deadline, once, SIGKILL goes out;
        past the grace of a SIGKILL, it is reported stuck. */
    method Poll(id: nat, out: Bytes, err: Bytes, deadline: bool, grace: bool)
      requires Valid() && id in all && all[id].run.Polling? && !all[id].exited
      modifies this`all
      ensures Valid() && Aged(old(all), all)
      ensures var e := Took(old(all[id]), out, err);
              all == old(all)[id := if !e.timedOut && deadline
                                    then e.(timedOut := true, killedAt := true, kills := e.kills + [false], run := Killing(|e.kills|))
                                    else if e.killedAt && grace then e.(state := StuckState, run := Peeking)
                                    else e]
    {
      Keep(id);
      var e := Took(all[id], out, err);
      if !e.timedOut && deadline {
        e := e.(timedOut := true, killedAt := true, kills := e.kills + [false], run := Killing(|e.kills|));
      } else if e.killedAt && grace {
        e := e.(state := StuckState, run := Peeking);
      }
      Update(id, e);
    }

    /** The run's own kill has settled: it polls on, or its failure ends the run. */
    method KillReturns(id: nat, ok: bool)
      requires Valid() && id in all && all[id].run.Killing? && all[id].run.kill < |all[id].kills| && all[id].kills[all[id].run.kill]
      modifies this`all
      ensures Valid() && Aged(old(all), all)
      ensures all == old(all)[id := if ok then old(all[id]).(run := Polling) else Broken(old(all[id]))]
    {
      Keep(id);
      AfterKill(all[id]);
      hide ExecutionValid, Broken;
      Update(id, if ok then all[id].(run := Polling) else Broken(all[id]));
    }

    static lemma AfterKill(e: Execution)
      requires ExecutionValid(e) && (e.run.Killing? || e.run.Peeking?)
      ensures e.run.Killing? ==> ExecutionValid(e.(run := Polling))
      ensures ExecutionValid(Broken(e)) && Broken(e).state.Exited?
      ensures Broken(e).done == Some(Failure(Reported(e.taken.0, e.stdout.limit), Reported(e.taken.1, e.stderr.limit), e.timedOut))
    {
    }

    /** A failure of the machinery ends the run. */
    static function Broken(e: Execution): Execution {
      e.(state := Exited, run := Run.Over, done := Some(Failure(OutputOf(e.stdout), OutputOf(e.stderr), e.timedOut)))
    }

    /** The Stuck report: what was taken, and what a peek shows beyond it. */
    method PeekReturns(id: nat, ok: bool, peeked: Option<(Bytes, Bytes)>)
      requires Valid() && id in all && all[id].run.Peeking?
      modifies this`all
      ensures Valid() && Aged(old(all), all)
      ensures id in all
      ensures var was, shown := old(all[id]), Shown(old(all[id]), peeked);
              if ok then
                && all[id].state.StuckState?
                && all[id].done == Some(Stuck(Reported(was.taken.0 + shown.0, was.stdout.limit),
                                              Reported(was.taken.1 + shown.1, was.stderr.limit), was.timedOut))
              else
                && all[id].state.Exited?
                && all[id].done == Some(Failure(Reported(was.taken.0, was.stdout.limit),
                                                Reported(was.taken.1, was.stderr.limit), was.timedOut))
      ensures all == old(all)[id := if ok then Peeked(old(all[id]), peeked) else Broken(old(all[id]))]
    {
      Keep(id);
      AfterKill(all[id]);
      PeekedValid(all[id], peeked);
      hide ExecutionValid, Broken, Peeked, Shown, Reported;
      Update(id, if ok then Peeked(all[id], peeked) else Broken(all[id]));
    }

    static lemma PeekedValid(e: Execution, peeked: Option<(Bytes, Bytes)>)
      requires ExecutionValid(e) && e.run.Peeking?
      ensures ExecutionValid(Peeked(e, peeked)) && Peeked(e, peeked).state.StuckState?
      ensures var shown := Shown(e, peeked);
              Peeked(e, peeked).done == Some(Stuck(Reported(e.taken.0 + shown.0, e.stdout.limit),
                                                   Reported(e.taken.1 + shown.1, e.stderr.limit), e.timedOut))
    {
      assert e.taken.0 + [] == e.taken.0 && e.taken.1 + [] == e.taken.1;
    }

    static function Peeked(e: Execution, peeked: Option<(Bytes, Bytes)>): Execution {
      var stdout := if peeked.Some? then e.stdout.Push(DropUpTo(peeked.value.0, |e.stdout.Kept()|)) else e.stdout;
      var stderr := if peeked.Some? then e.stderr.Push(DropUpTo(peeked.value.1, |e.stderr.Kept()|)) else e.stderr;
      e.(stdout := stdout, stderr := stderr, run := Watching, done := Some(Stuck(OutputOf(stdout), OutputOf(stderr), e.timedOut)))
    }

    /** A process reported stuck has died after all. */
    method DiesLate(id: nat, out: Bytes, err: Bytes)
      requires Valid() && id in all && all[id].run.Watching? && all[id].exited
      modifies this`all
      ensures Valid() && Aged(old(all), all)
      ensures var e := Took(old(all[id]), out, err);
              all == old(all)[id := e.(state := Exited, run := Run.Over,
                                       late := Some(Exit(OutputOf(e.stdout), OutputOf(e.stderr), e.timedOut)))]
    {
      Keep(id);
      var e := Took(all[id], out, err);
      Update(id, e.(state := Exited, run := Run.Over, late := Some(Exit(OutputOf(e.stdout), OutputOf(e.stderr), e.timedOut))));
    }

    /** The leader has exited: no further signal goes out. */
    method LeaderExits(id: nat)
      requires Valid() && id in all && all[id].run.Polling? && all[id].exited
      modifies this`all
      ensures Valid() && Aged(old(all), all) && all == old(all)[id := old(all[id]).(leaderExited := true, run := Draining)]
    {
      Keep(id);
      Update(id, all[id].(leaderExited := true, run := Draining));
    }

    /** Every kill sent has settled: the rest of the output is taken, and the exit reported. */
    method Drained(id: nat, out: Bytes, err: Bytes)
      requires Valid() && id in all && all[id].run.Draining? && AllSettled(all[id].kills)
      modifies this`all
      ensures Valid() && Aged(old(all), all)
      ensures var e := Took(old(all[id]), out, err);
              all == old(all)[id := e.(state := Exited, run := Run.Over,
                                       done := Some(Exit(OutputOf(e.stdout), OutputOf(e.stderr), e.timedOut)))]
    {
      Keep(id);
      var e := Took(all[id], out, err);
      Update(id, e.(state := Exited, run := Run.Over, done := Some(Exit(OutputOf(e.stdout), OutputOf(e.stderr), e.timedOut))));
    }

    // ---- kills ----

    /** A caller's signal: none to what has exited, or whose leader has. */
    method Kill(id: nat, sigkill: bool) returns (threw: bool)
      requires Valid()
      modifies this`all
      ensures Valid() && Aged(old(all), all) && (threw <==> id !in registered)
      ensures threw ==> all == old(all)
      ensures !threw ==> id in old(all) && all == old(all)[id := Signalled(old(all[id]), sigkill)]
      ensures !threw ==>
                var was := old(all[id]);
                all == if was.state.Exited? || was.leaderExited then old(all)
                       else old(all)[id := was.(kills := was.kills + [false], killedAt := was.killedAt || sigkill)]
    {
      AgedItself(all);
      if id !in registered {
        return true;
      }
      Keep(id);
      assert all[id := all[id]] == all;
      Update(id, Signalled(all[id], sigkill));
      return false;
    }

    static function Signalled(e: Execution, sigkill: bool): Execution {
      if e.state.Exited? || e.leaderExited then e
      else e.(kills := e.kills + [false], killedAt := e.killedAt || sigkill)
    }

    /** A signaller settles. */
    method Settles(id: nat, kill: nat)
      requires Valid() && id in all && kill < |all[id].kills|
      modifies this`all
      ensures Valid() && Aged(old(all), all) && all == old(all)[id := old(all[id]).(kills := old(all[id]).kills[kill := true])]
    {
      Keep(id);
      Update(id, all[id].(kills := all[id].kills[kill := true]));
    }

    // ---- wait ----

    /** A wait on what is in the map; on anything else it throws. */
    method BeginWait(id: nat)
      requires Valid()
      modifies this`waits
      ensures Valid() && waits == old(waits) + [if id in registered then Awaiting(id) else Threw]
    {
      waits := waits + [if id in registered then Awaiting(id) else Threw];
    }

    /** There is an outcome: it is returned, and an execution that has exited is dropped --
        which is one whose returned outcome is not a Stuck report. */
    method EndWait(w: nat)
      requires Valid() && w < |waits| && waits[w].Awaiting? && waits[w].id in all && all[waits[w].id].done.Some?
      modifies this`waits, this`all, this`registered
      ensures Valid() && Aged(old(all), all)
      ensures var id := old(waits[w].id);
              && id in old(all) && old(all[id]).done.Some?
              && waits == old(waits)[w := Returned(id, Final(old(all[id])))]
              && registered == (if old(all[id]).state.Exited? then old(registered) - {id} else old(registered))
              && (id in old(registered) && id !in registered ==> !Final(old(all[id])).Stuck?)
              && (Final(old(all[id])).Stuck? <==> old(all[id]).state.StuckState?)
              && all == old(all)[id := old(all[id]).(read := old(all[id]).read || !Final(old(all[id])).Stuck?)]
    {
      var id := waits[w].id;
      Keep(id);
      var e := all[id];
      var final := Final(e);
      FinalStuck(e);
      assert ExecutionValid(e.(read := e.read || !final.Stuck?));
      hide Valid, ExecutionValid, Final, Aged;
      Update(id, e.(read := e.read || !final.Stuck?));
      Return(w, final, e.state.Exited?);
    }

    /** A wait is over, and with it, maybe, its execution's time in the map. */
    method Return(w: nat, result: Result, drop: bool)
      requires Valid() && w < |waits| && waits[w].Awaiting?
      requires drop ==> waits[w].id in all && all[waits[w].id].state.Exited?
      modifies this`waits, this`registered
      ensures Valid() && waits == old(waits)[w := Returned(old(waits[w].id), result)]
      ensures registered == if drop then old(registered) - {old(waits[w].id)} else old(registered)
    {
      hide ExecutionValid;
      if drop {
        registered := registered - {waits[w].id};
      }
      waits := waits[w := Returned(waits[w].id, result)];
    }

    /** What a wait returns is a Stuck report exactly while the execution is stuck. */
    static lemma FinalStuck(e: Execution)
      requires ExecutionValid(e) && e.done.Some?
      ensures Final(e).Stuck? <==> e.state.StuckState?
    {
    }

    /** Read or old results go. */
    method Expire(expired: set<nat>)
      requires Valid()
      modifies this`registered
      ensures Valid() && registered == Unexpired(old(registered), expired)
      ensures forall id :: id in registered <==>
                id in old(registered) && !(id in all && all[id].state.Exited? && (all[id].read || id in expired))
    {
      registered := Unexpired(registered, expired);
    }

    /** What stays in the map when the results of `expired` are past their time. */
    function Unexpired(ids: set<nat>, expired: set<nat>): set<nat>
      reads this`all
    {
      set id | id in ids && !(id in all && all[id].state.Exited? && (all[id].read || id in expired))
    }

    // ---- what every run keeps ----

    /** An exit reported of an execution never Stuck: every kill sent has settled, and its
        output is the first `limit` bytes of all that was taken, truncated iff there was
        more. */
    ghost predicate Reports(e: Execution) {
      e.done.Some? && e.done.value.Exit? ==>
        && AllSettled(e.kills)
        && e.done.value.stdout == Output(TakeUpTo(e.taken.0, e.stdout.limit), |e.taken.0| > e.stdout.limit)
        && e.done.value.stderr == Output(TakeUpTo(e.taken.1, e.stderr.limit), |e.taken.1| > e.stderr.limit)
    }

    /** At most sixteen are starting, running or stuck; every process whose end is not
        recorded is in the map; and every exit reports as it should. */
    ghost predicate Promised()
      reads this
    {
      && starting + |Unended()| <= 16
      && Unended() <= registered
      && (forall id :: id in all ==> Reports(all[id]))
    }

    lemma ValidIsPromised()
      requires Valid()
      ensures Promised()
    {
      hide UnendedOf;
      forall id | id in all ensures Reports(all[id]) {
        assert ExecutionValid(all[id]);
      }
    }

    method MoveRun(move: Move)
      requires move.Polls? || move.KillReturns? || move.PeekReturns? || move.ProcessExits? || move.Ends? || move.Settles?
      requires Valid() && move.id in all
      modifies this`all
      ensures Valid() && Aged(old(all), all)
    {
      hide *;
      AgedItself(all);
      var id := move.id;
      match move {
        case Polls(_, out, err, deadline, grace) =>
          if all[id].run.Polling? && !all[id].exited { Poll(id, out, err, deadline, grace); }
        case KillReturns(_, ok) =>
          if all[id].run.Killing? && all[id].run.kill < |all[id].kills| && all[id].kills[all[id].run.kill] { KillReturns(id, ok); }
        case PeekReturns(_, ok, peeked) =>
          if all[id].run.Peeking? { PeekReturns(id, ok, peeked); }
        case ProcessExits(_) => Exits(id);
        case Ends(_, out, err) =>
          if all[id].run.Polling? && all[id].exited { LeaderExits(id); }
          else if all[id].run.Draining? && Settled(all[id].kills) { Drained(id, out, err); }
          else if all[id].run.Watching? && all[id].exited { DiesLate(id, out, err); }
        case Settles(_, kill) =>
          if kill < |all[id].kills| { Settles(id, kill); }
        case _ =>
      }
    }

    static predicate Settled(kills: seq<bool>)
      ensures Settled(kills) == AllSettled(kills)
    {
      AllSettled(kills)
    }

    method Act(move: Move)
      requires Valid()
      modifies this
      ensures Valid() && Aged(old(all), all)
    {
      hide *;
      AgedItself(all);
      match move {
        case Spawns(expired) => var _ := Spawn(expired);
        case SpawnReturns(ok, limit) => if starting > 0 { Spawned(ok, limit); }
        case Kills(id, sigkill) => var _ := Kill(id, sigkill);
        case Waits(id) => BeginWait(id);
        case WaitReturns(w) =>
          if w < |waits| && waits[w].Awaiting? && waits[w].id in all && all[waits[w].id].done.Some? { EndWait(w); }
        case Lists(expired) => Expire(expired);
        case _ => if move.id in all { MoveRun(move); }
      }
    }

    /** Any calls and any order of their `await`s: what was promised holds, and executions
        only age. */
    method Perform(moves: seq<Move>)
      requires Valid()
      modifies this
      ensures Valid() && Promised() && Aged(old(all), all)
    {
      hide *;
      AgedItself(all);
      for n := 0 to |moves|
        invariant Valid() && Aged(old(all), all)
      {
        ghost var was := all;
        Act(moves[n]);
        AgedTransitive(old(all), was, all);
      }
      ValidIsPromised();
    }
  }

  datatype Move =
    | Spawns(expired: set<nat>)
    | SpawnReturns(ok: bool, limit: nat)
    | Kills(id: nat, sigkill: bool)
    | Waits(id: nat)
    | WaitReturns(w: nat)
    | Lists(expired: set<nat>)
    | Polls(id: nat, out: Bytes, err: Bytes, deadline: bool, grace: bool)
    | KillReturns(id: nat, ok: bool)
    | PeekReturns(id: nat, ok: bool, peeked: Option<(Bytes, Bytes)>)
    | ProcessExits(id: nat)
    | Ends(id: nat, out: Bytes, err: Bytes)
    | Settles(id: nat, kill: nat)

  /** What a peek shows of stdout, and of stderr, beyond what was kept. */
  function Shown(e: Execution, peeked: Option<(Bytes, Bytes)>): (Bytes, Bytes) {
    if peeked.Some?
    then (DropUpTo(peeked.value.0, |e.stdout.Kept()|), DropUpTo(peeked.value.1, |e.stderr.Kept()|))
    else ([], [])
  }

  /** What an exit should report of these bytes: the first `limit`, and whether there were more. */
  function Reported(bytes: Bytes, limit: nat): Output {
    Output(TakeUpTo(bytes, limit), |bytes| > limit)
  }

  /** Whether bytes shown between the first ones taken and the later ones go unseen: there are
      none; or the taken ones alone pass the limit, and up to it there is no room for the
      shown, or they begin as the later ones do. */
  predicate Unseen(limit: nat, taken: Bytes, shown: Bytes, later: Bytes) {
    shown == [] ||
    (|taken| + |later| > limit && (|taken| >= limit || StartsWith(later, (shown + later)[..limit - |taken|])))
  }

  lemma UnseenExactly(limit: nat, taken: Bytes, shown: Bytes, later: Bytes)
    ensures Reported(taken + shown + later, limit) == Reported(taken + later, limit) <==> Unseen(limit, taken, shown, later)
  {
    var all, own := taken + shown + later, taken + later;
    if shown == [] {
      assert taken + [] == taken;
    } else if |own| > limit {
      if |taken| >= limit {
        assert all[..limit] == taken[..limit] == own[..limit];
      } else {
        var room := limit - |taken|;
        assert all == taken + (shown + later);
        assert all[..limit] == taken + (shown + later)[..room] && own[..limit] == taken + later[..room];
        assert all[..limit][|taken|..] == (shown + later)[..room] && own[..limit][|taken|..] == later[..room];
      }
    } else if |all| <= limit {
      assert |all| != |own|;
    }
  }

  /** After a Stuck report it is another matter: what the peek showed comes before all that is
      taken after it, and the exit that comes late reports what was taken exactly when the
      shown bytes go unseen in it. */
  lemma LateExit(e: Execution, peeked: Option<(Bytes, Bytes)>, out: Bytes, err: Bytes)
    requires ExecutionValid(e) && e.run.Peeking?
    ensures var late, shown := Registry.Took(Registry.Peeked(e, peeked), out, err), Shown(e, peeked);
            && late.taken == (e.taken.0 + out, e.taken.1 + err)
            && OutputOf(late.stdout) == Reported(e.taken.0 + shown.0 + out, e.stdout.limit)
            && OutputOf(late.stderr) == Reported(e.taken.1 + shown.1 + err, e.stderr.limit)
            && (OutputOf(late.stdout) == Reported(late.taken.0, e.stdout.limit) <==> Unseen(e.stdout.limit, e.taken.0, shown.0, out))
            && (OutputOf(late.stderr) == Reported(late.taken.1, e.stderr.limit) <==> Unseen(e.stderr.limit, e.taken.1, shown.1, err))
  {
    assert e.taken.0 + [] == e.taken.0 && e.taken.1 + [] == e.taken.1;
    var shown := Shown(e, peeked);
    UnseenExactly(e.stdout.limit, e.taken.0, shown.0, out);
    UnseenExactly(e.stderr.limit, e.taken.1, shown.1, err);
    hide Unseen;
  }

  /** So a process that dies after its output was peeked at can report it twice. */
  lemma LateExitRepeatsPeek(e: Execution, text: Bytes)
    requires ExecutionValid(e) && e.run.Peeking? && e.taken.0 == [] && text != [] && |text| + |text| <= e.stdout.limit
    ensures var late := Registry.Took(Registry.Peeked(e, Some((text, []))), text, []);
            OutputOf(late.stdout) == Output(text + text, false) && late.taken.0 == text
  {
    LateExit(e, Some((text, [])), text, []);
    assert [] + text + text == text + text;
    hide ExecutionValid;
  }
}
