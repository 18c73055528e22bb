/** Seals of a running notebook (src/notebook_kernel_worker.ts): periodic ticks, Suspend,
    resume, restart and forget, any number of them under way at once, all seeing the same
    variables and one stored image. Each method is what runs between two `await`s. */
module Seals {
  import opened Basics

  /** A stored image, of a Suspend or a tick whose seal began after `kills` restarts had killed
      their guest. */
  datatype Image = OfSuspend(kills: nat) | OfTick(kills: nat)

  /** Tick `no`'s sealOnce, and then its `finally`. */
  datatype Tick =
    | Idle
    | Sealing(no: nat, live: nat, kills: nat)
    | Storing(no: nat, image: Image)
    | Settled(no: nat)
    | Ending(no: nat)

  datatype Suspend =
    | AwaitingTick(no: nat)
    | SealingNow(kills: nat)
    | StoringNow(kills: nat)
    | LandedNow(kills: nat)
    | Over

  /** A restart, with the kills there are once its own is done, and whether a Suspend had its
      image yet to store when it was asked. */
  datatype Restart =
    | AwaitingStore(kills: nat, beside: bool, no: Option<nat>)
    | Clearing(kills: nat, beside: bool)
    | Cleared(kills: nat, beside: bool)
    | Done(kills: nat, beside: bool, cleared: bool)

  /** A forget, with the number of Suspends that had stored when it was asked, and when it
      cleared. */
  datatype Forget =
    | Waiting(suspends: nat, no: nat)
    | Dropping(suspends: nat)
    | Dropped(suspends: nat, cleared: nat)
    | Failed(suspends: nat)

  datatype Resume = Loading | Restoring | Gone

  class Worker {
    /** The identity of the running sandbox, if one runs. */
    var live: Option<nat>
    var sealing: bool
    var tick: Tick
    var sealRequested: bool
    var sealGeneration: nat
    var storeInFlight: Option<nat>
    var forgotten: bool
    var store: Option<Image>

    var ticks: nat
    var lives: nat
    /** How many Suspends have stored. */
    var suspended: nat
    var suspends: seq<Suspend>
    var restarts: seq<Restart>
    var forgets: seq<Forget>
    var resumes: seq<Resume>

    // ---- what always holds ----

    static predicate Seals(suspend: Suspend) {
      suspend.SealingNow? || suspend.StoringNow? || suspend.LandedNow?
    }

    static predicate TickSeals(tick: Tick) {
      tick.Sealing? || tick.Storing? || tick.Settled?
    }

    /** `sealing` is one tick's or one Suspend's, from before its seal until after its store. */
    ghost predicate SealingValid()
      reads this`sealing, this`tick, this`suspends
    {
      && (TickSeals(tick) ==> sealing && forall i :: 0 <= i < |suspends| ==> !Seals(suspends[i]))
      && (forall i :: 0 <= i < |suspends| && Seals(suspends[i]) ==> sealing)
      && (forall i, j :: 0 <= i < j < |suspends| && Seals(suspends[i]) ==> !Seals(suspends[j]))
    }

    ghost predicate TickValid()
      reads this`tick, this`ticks, this`storeInFlight, this`sealRequested, this`sealGeneration, this`forgotten
    {
      && (!tick.Idle? ==> tick.no < ticks)
      && (storeInFlight == if tick.Storing? || tick.Settled? then Some(tick.no) else None)
      && (sealRequested ==> !tick.Idle?)
      && (tick.Sealing? ==> tick.kills <= sealGeneration)
      && (tick.Storing? ==> tick.image.OfTick? && tick.image.kills <= sealGeneration)
    }

    /** A tick of before a restart's kill stores nothing after the restart stopped waiting,
        and what such a tick stored is gone once the restart's clear has landed. */
    ghost predicate RestartsValid()
      reads this`restarts, this`tick, this`store, this`sealGeneration, this`suspends
    {
      forall r :: 0 <= r < |restarts| ==>
        && restarts[r].kills <= sealGeneration
        && (tick.Storing? && tick.image.OfTick? && tick.image.kills < restarts[r].kills ==>
              restarts[r].AwaitingStore? && restarts[r].no == Some(tick.no))
        && (HasCleared(restarts[r]) && store.Some? && (store.value.OfTick? || !restarts[r].beside) ==>
              store.value.kills >= restarts[r].kills)
        && (!restarts[r].beside ==> forall i :: 0 <= i < |suspends| && Stores(suspends[i]) ==> suspends[i].kills >= restarts[r].kills)
    }

    static predicate Stores(suspend: Suspend) {
      suspend.SealingNow? || suspend.StoringNow?
    }

    static predicate HasCleared(restart: Restart) {
      restart.Cleared? || (restart.Done? && restart.cleared)
    }

    /** Until a Suspend has stored since it was asked, a forget keeps the ticks from storing:
        one that stores meanwhile is the one waited for. */
    ghost predicate ForgetsValid()
      reads this`forgets, this`tick, this`store, this`forgotten, this`suspended
    {
      forall f :: 0 <= f < |forgets| ==>
        && forgets[f].suspends <= suspended
        && (forgets[f].suspends == suspended ==>
              && forgotten
              && (tick.Storing? ==> forgets[f].Waiting? && forgets[f].no == tick.no)
              && (forgets[f].Dropped? && store.Some? ==> store.value.OfSuspend?))
    }

    ghost predicate Valid()
      reads this
    {
      SealingValid() && TickValid() && RestartsValid() && ForgetsValid()
    }

    constructor (running: bool, store: Option<Image>)
      requires store.Some? ==> store.value.kills == 0
      ensures Valid() && this.store == store && live == (if running then Some(0) else None)
      ensures suspends == [] && restarts == [] && forgets == [] && resumes == [] && tick == Idle
      ensures !sealing && !forgotten && !sealRequested && sealGeneration == 0 && suspended == 0
    {
      live, lives := if running then Some(0) else None, 1;
      sealing, tick, sealRequested, sealGeneration, storeInFlight, forgotten := false, Idle, false, 0, None, false;
      this.store := store;
      ticks, suspended := 0, 0;
      suspends, restarts, forgets, resumes := [], [], [], [];
    }

    // ---- the ticks ----

    /** A tick is asked for: by the timer, or a cell that is done. */
    method SealTick()
      requires Valid()
      modifies this`tick, this`ticks, this`sealing, this`sealRequested
      ensures Valid()
      ensures !old(tick).Idle? ==> tick == old(tick) && sealRequested && sealing == old(sealing)
      ensures old(tick).Idle? ==>
                tick == if live.None? || old(sealing) || forgotten then Ending(old(ticks))
                        else Sealing(old(ticks), live.value, sealGeneration)
    {
      if !tick.Idle? {
        sealRequested := true;
      } else {
        SealOnce();
      }
    }

    method SealOnce()
      requires Valid() && tick.Idle? && !sealRequested
      modifies this`tick, this`ticks, this`sealing
      ensures Valid() && ticks == old(ticks) + 1
      ensures tick == if live.None? || old(sealing) || forgotten then Ending(old(ticks))
                      else Sealing(old(ticks), live.value, sealGeneration)
    {
      if live.None? || sealing || forgotten {
        tick := Ending(ticks);
      } else {
        sealing := true;
        tick := Sealing(ticks, live.value, sealGeneration);
      }
      ticks := ticks + 1;
    }

    /** The tick's seal returns: its image is stored, unless the sandbox is another one by
        now, forgotten, or restarted. */
    method TickSealed(ok: bool)
      requires Valid() && tick.Sealing?
      modifies this`tick, this`sealing, this`storeInFlight
      ensures Valid()
      ensures var was := old(tick);
              tick == if ok && live == Some(was.live) && !forgotten && sealGeneration == was.kills
                      then Storing(was.no, OfTick(was.kills)) else Ending(was.no)
    {
      if !ok || live != Some(tick.live) || forgotten || tick.kills != sealGeneration {
        sealing := false;
        tick := Ending(tick.no);
      } else {
        storeInFlight := Some(tick.no);
        tick := Storing(tick.no, OfTick(tick.kills));
      }
    }

    /** The tick's store ends, its image in the store unless it failed. */
    method TickStored(ok: bool)
      requires Valid() && tick.Storing?
      modifies this`tick, this`store
      ensures Valid() && tick == Settled(old(tick).no)
      ensures store == if ok then Some(old(tick).image) else old(store)
    {
      if ok {
        store := Some(tick.image);
      }
      tick := Settled(tick.no);
    }

    method TickContinues()
      requires Valid() && tick.Settled?
      modifies this`tick, this`sealing, this`storeInFlight
      ensures Valid() && tick == Ending(old(tick).no) && !sealing
    {
      storeInFlight := None;
      sealing := false;
      tick := Ending(tick.no);
    }

    /** The tick is over: one asked for meanwhile begins. */
    method TickEnds()
      requires Valid() && tick.Ending?
      modifies this`tick, this`ticks, this`sealing, this`sealRequested
      ensures Valid() && !sealRequested
      ensures if old(sealRequested) then !tick.Idle? && tick.no == old(ticks) else tick.Idle?
    {
      tick := Idle;
      if sealRequested {
        sealRequested := false;
        SealOnce();
      }
    }

    // ---- Suspend ----

    method Suspending()
      requires Valid()
      modifies this`suspends, this`sealing
      ensures Valid() && |suspends| == |old(suspends)| + 1
      ensures suspends[..|old(suspends)|] == old(suspends)
      ensures suspends[|old(suspends)|] == if !tick.Idle? then AwaitingTick(tick.no)
                                           else if live.None? || old(sealing) then Over else SealingNow(sealGeneration)
    {
      if !tick.Idle? {
        suspends := suspends + [AwaitingTick(tick.no)];
      } else {
        suspends := suspends + [Over];
        SuspendGoes(|suspends| - 1);
      }
    }

    /** No seal begins while another one is under way. */
    method SuspendGoes(i: nat)
      requires Valid() && i < |suspends| && !Seals(suspends[i])
      modifies this`suspends, this`sealing
      ensures Valid() && suspends == old(suspends)[i := if live.None? || old(sealing) then Over else SealingNow(sealGeneration)]
    {
      if live.None? || sealing {
        suspends := suspends[i := Over];
      } else {
        sealing := true;
        suspends := suspends[i := SealingNow(sealGeneration)];
      }
    }

    /** The tick waited for is over. */
    method SuspendAwaited(i: nat)
      requires Valid() && i < |suspends| && suspends[i].AwaitingTick? && (tick.Idle? || tick.no != suspends[i].no)
      modifies this`suspends, this`sealing
      ensures Valid() && suspends == old(suspends)[i := if live.None? || old(sealing) then Over else SealingNow(sealGeneration)]
    {
      SuspendGoes(i);
    }

    method SuspendSealed(i: nat, ok: bool)
      requires Valid() && i < |suspends| && suspends[i].SealingNow?
      modifies this`suspends, this`sealing
      ensures Valid() && suspends == old(suspends)[i := if ok then StoringNow(old(suspends[i]).kills) else Over] && sealing == ok
    {
      suspends := suspends[i := if ok then StoringNow(suspends[i].kills) else Over];
      sealing := ok;
    }

    method SuspendLands(i: nat)
      requires Valid() && i < |suspends| && suspends[i].StoringNow?
      modifies this`suspends, this`store
      ensures Valid() && suspends == old(suspends)[i := LandedNow(old(suspends[i]).kills)]
      ensures store == Some(OfSuspend(old(suspends[i]).kills))
    {
      store := Some(OfSuspend(suspends[i].kills));
      suspends := suspends[i := LandedNow(suspends[i].kills)];
    }

    /** Its image stored, the sandbox is torn down, and the ticks may store again. */
    method SuspendEnds(i: nat)
      requires Valid() && i < |suspends| && (suspends[i].LandedNow? || suspends[i].StoringNow?)
      modifies this`suspends, this`sealing, this`forgotten, this`live, this`suspended
      ensures Valid() && suspends == old(suspends)[i := Over] && !sealing
      ensures if old(suspends[i]).LandedNow? then !forgotten && live.None? && suspended == old(suspended) + 1
              else forgotten == old(forgotten) && live == old(live) && suspended == old(suspended)
    {
      if suspends[i].LandedNow? {
        forgotten, live, suspended := false, None, suspended + 1;
      }
      suspends := suspends[i := Over];
      sealing := false;
    }

    // ---- forget ----

    method Forgetting()
      requires Valid()
      modifies this`forgotten, this`forgets
      ensures Valid() && forgotten
      ensures forgets == old(forgets) + [if tick.Idle? then Dropping(suspended) else Waiting(suspended, tick.no)]
    {
      forgotten := true;
      forgets := forgets + [if tick.Idle? then Dropping(suspended) else Waiting(suspended, tick.no)];
    }

    method ForgetAwaited(f: nat)
      requires Valid() && f < |forgets| && forgets[f].Waiting? && (tick.Idle? || tick.no != forgets[f].no)
      modifies this`forgets
      ensures Valid() && forgets == old(forgets)[f := Dropping(old(forgets[f].suspends))]
    {
      forgets := forgets[f := Dropping(forgets[f].suspends)];
    }

    method ForgetClears(f: nat, ok: bool)
      requires Valid() && f < |forgets| && forgets[f].Dropping?
      modifies this`forgets, this`store
      ensures Valid()
      ensures forgets == old(forgets)[f := if ok then Dropped(old(forgets[f].suspends), suspended) else Failed(old(forgets[f].suspends))]
      ensures store == if ok then None else old(store)
    {
      if ok {
        store := None;
      }
      forgets := forgets[f := if ok then Dropped(forgets[f].suspends, suspended) else Failed(forgets[f].suspends)];
    }

    // ---- restart ----

    /** Whether a Suspend has its image yet to store: `sealing`, by no tick, its store not
        returned. */
    predicate Beside()
      reads this`suspends
    {
      exists i :: 0 <= i < |suspends| && Stores(suspends[i])
    }

    /** The guest is killed; a tick already storing is waited for. */
    method Restarting()
      requires Valid()
      modifies this`sealGeneration, this`restarts
      ensures Valid()
      ensures if live.None? then restarts == old(restarts) && sealGeneration == old(sealGeneration)
              else sealGeneration == old(sealGeneration) + 1
                   && restarts == old(restarts) + [AwaitingStore(sealGeneration, Beside(), storeInFlight)]
    {
      if live.Some? {
        sealGeneration := sealGeneration + 1;
        restarts := restarts + [AwaitingStore(sealGeneration, Beside(), storeInFlight)];
      }
    }

    method RestartAwaited(r: nat)
      requires Valid() && r < |restarts| && restarts[r].AwaitingStore?
      requires restarts[r].no.None? || !tick.Storing? || tick.no != restarts[r].no.value
      modifies this`restarts
      ensures Valid() && restarts == old(restarts)[r := Clearing(old(restarts[r]).kills, old(restarts[r]).beside)]
    {
      restarts := restarts[r := Clearing(restarts[r].kills, restarts[r].beside)];
    }

    method RestartClears(r: nat, ok: bool)
      requires Valid() && r < |restarts| && restarts[r].Clearing?
      modifies this`restarts, this`store
      ensures Valid() && store == if ok then None else old(store)
      ensures restarts == old(restarts)[r := if ok then Cleared(old(restarts[r]).kills, old(restarts[r]).beside)
                                              else Done(old(restarts[r]).kills, old(restarts[r]).beside, false)]
    {
      if ok {
        store := None;
      }
      restarts := restarts[r := if ok then Cleared(restarts[r].kills, restarts[r].beside) else Done(restarts[r].kills, restarts[r].beside, false)];
    }

    /** The new guest runs, or could not be spawned. */
    method RestartEnds(r: nat, ok: bool)
      requires Valid() && r < |restarts| && restarts[r].Cleared?
      modifies this`restarts, this`live, this`lives
      ensures Valid() && restarts == old(restarts)[r := Done(old(restarts[r]).kills, old(restarts[r]).beside, true)]
      ensures live == if ok then Some(old(lives)) else old(live)
      ensures lives == old(lives) + 1
    {
      if ok {
        live := Some(lives);
      }
      lives := lives + 1;
      restarts := restarts[r := Done(restarts[r].kills, restarts[r].beside, true)];
    }

    // ---- resume ----

    method Resuming()
      requires Valid()
      modifies this`resumes
      ensures Valid() && resumes == if live.Some? then old(resumes) else old(resumes) + [Loading]
    {
      if live.None? {
        resumes := resumes + [Loading];
      }
    }

    method ResumeLoads(i: nat)
      requires Valid() && i < |resumes| && resumes[i].Loading?
      modifies this`resumes
      ensures Valid() && resumes == old(resumes)[i := if store.Some? then Restoring else Gone]
    {
      resumes := resumes[i := if store.Some? then Restoring else Gone];
    }

    method ResumeEnds(i: nat, ok: bool)
      requires Valid() && i < |resumes| && resumes[i].Restoring?
      modifies this`resumes, this`live, this`lives
      ensures Valid() && resumes == old(resumes)[i := Gone]
      ensures live == if ok then Some(old(lives)) else old(live)
      ensures lives == old(lives) + 1
    {
      if ok {
        live := Some(lives);
      }
      lives := lives + 1;
      resumes := resumes[i := Gone];
    }

    // ---- what every run keeps ----

    /** No two seals are ever in flight together. */
    lemma OneSeal(i: nat, j: nat)
      requires Valid() && i < |suspends| && j < |suspends| && suspends[i].SealingNow?
      ensures !tick.Sealing? && (suspends[j].SealingNow? ==> i == j)
    {
    }

    /** Once a restart's clear has landed, no image of a tick whose seal began before its kill
        is in the store, nor on its way there; and no image at all, unless a Suspend had its
        own yet to store when the restart was asked. */
    lemma KilledIsGone(r: nat)
      requires Valid() && r < |restarts| && HasCleared(restarts[r])
      ensures store.Some? && store.value.OfTick? ==> store.value.kills >= restarts[r].kills
      ensures tick.Storing? ==> tick.image.kills >= restarts[r].kills
      ensures !restarts[r].beside ==>
                && (store.Some? ==> store.value.kills >= restarts[r].kills)
                && forall i :: 0 <= i < |suspends| && Stores(suspends[i]) ==> suspends[i].kills >= restarts[r].kills
    {
    }

    /** While no Suspend has stored since a forget was asked, no tick stores, but one the
        forget waits for; and once its clear has landed the store holds no tick's image. */
    lemma ForgottenStays(f: nat)
      requires Valid() && f < |forgets| && forgets[f].suspends == suspended
      ensures tick.Storing? ==> forgets[f].Waiting?
      ensures forgets[f].Dropped? && store.Some? ==> store.value.OfSuspend?
    {
    }

    /** A tick's image is stored after a forget cleared only if a Suspend stored after the
        forget was asked; and if none did before it cleared, only if one did since. */
    lemma StoredAfterForget(f: nat)
      requires Valid() && f < |forgets| && forgets[f].Dropped?
      ensures tick.Storing? || (store.Some? && store.value.OfTick?) ==> forgets[f].suspends < suspended
      ensures forgets[f].suspends == forgets[f].cleared && (tick.Storing? || (store.Some? && store.value.OfTick?)) ==>
                forgets[f].cleared < suspended
    {
    }

    /** What every run leaves true. */
    ghost predicate Promised()
      reads this
    {
      && (forall i, j :: 0 <= i < |suspends| && 0 <= j < |suspends| && suspends[i].SealingNow? ==>
            !tick.Sealing? && (suspends[j].SealingNow? ==> i == j))
      && (forall r :: 0 <= r < |restarts| && HasCleared(restarts[r]) ==>
            && (store.Some? && (store.value.OfTick? || !restarts[r].beside) ==> store.value.kills >= restarts[r].kills)
            && (tick.Storing? ==> tick.image.OfTick? && tick.image.kills >= restarts[r].kills))
      && (forall f :: 0 <= f < |forgets| && forgets[f].Dropped? && forgets[f].suspends == suspended ==>
            !tick.Storing? && (store.Some? ==> store.value.OfSuspend?))
    }

    lemma ValidIsPromised()
      requires Valid()
      ensures Promised()
    {
    }

    method Act(move: Move)
      requires Valid()
      modifies this
      ensures Valid()
    {
      hide *;
      match move {
        case TickAsked => SealTick();
        case TickMoves(ok) =>
          match tick {
            case Idle =>
            case Sealing(_, _, _) => TickSealed(ok);
            case Storing(_, _) => TickStored(ok);
            case Settled(_) => TickContinues();
            case Ending(_) => TickEnds();
          }
        case SuspendAsked => Suspending();
        case SuspendMoves(i, ok) => if i < |suspends| { MoveSuspend(i, ok); }
        case ForgetAsked => Forgetting();
        case ForgetMoves(f, ok) =>
          if f < |forgets| && forgets[f].Waiting? && (tick.Idle? || tick.no != forgets[f].no) { ForgetAwaited(f); }
          else if f < |forgets| && forgets[f].Dropping? { ForgetClears(f, ok); }
        case RestartAsked => Restarting();
        case RestartMoves(r, ok) => if r < |restarts| { MoveRestart(r, ok); }
        case ResumeAsked => Resuming();
        case ResumeMoves(i, ok) =>
          if i < |resumes| && resumes[i].Loading? { ResumeLoads(i); }
          else if i < |resumes| && resumes[i].Restoring? { ResumeEnds(i, ok); }
      }
    }

    method MoveSuspend(i: nat, ok: bool)
      requires Valid() && i < |suspends|
      modifies this
      ensures Valid()
    {
      hide *;
      if suspends[i].AwaitingTick? && (tick.Idle? || tick.no != suspends[i].no) { SuspendAwaited(i); }
      else if suspends[i].SealingNow? { SuspendSealed(i, ok); }
      else if suspends[i].StoringNow? && ok { SuspendLands(i); }
      else if suspends[i].StoringNow? || suspends[i].LandedNow? { SuspendEnds(i); }
    }

    method MoveRestart(r: nat, ok: bool)
      requires Valid() && r < |restarts|
      modifies this
      ensures Valid()
    {
      hide *;
      if restarts[r].AwaitingStore? && (restarts[r].no.None? || !tick.Storing? || tick.no != restarts[r].no.value) {
        RestartAwaited(r);
      } else if restarts[r].Clearing? {
        RestartClears(r, ok);
      } else if restarts[r].Cleared? {
        RestartEnds(r, ok);
      }
    }

    /** Any messages and any order of their `await`s. */
    method Run(moves: seq<Move>)
      requires Valid()
      modifies this
      ensures Valid() && Promised()
    {
      hide *;
      for n := 0 to |moves|
        invariant Valid()
      {
        Act(moves[n]);
      }
      ValidIsPromised();
    }
  }

  datatype Move =
    | TickAsked
    | TickMoves(ok: bool)
    | SuspendAsked
    | SuspendMoves(i: nat, ok: bool)
    | ForgetAsked
    | ForgetMoves(f: nat, ok: bool)
    | RestartAsked
    | RestartMoves(r: nat, ok: bool)
    | ResumeAsked
    | ResumeMoves(i: nat, ok: bool)

  /** A Suspend that is about to store when a forget is asked. */
  method SuspendStoresFirst() returns (w: Worker)
    ensures fresh(w) && w.Valid() && w.forgets == [Dropping(0)] && w.suspends == [Over] && w.suspended == 1
    ensures w.live.None? && w.tick == Idle && !w.sealing && !w.forgotten && w.sealGeneration == 0
    ensures w.store == Some(OfSuspend(0)) && w.resumes == []
  {
    hide *;
    w := new Worker(true, None);
    w.Suspending();
    w.SuspendSealed(0, true);
    w.Forgetting();
    w.SuspendLands(0);
    w.SuspendEnds(0);
  }

  /** A resume loads its image before the forget clears. */
  method ResumeInsideForget() returns (w: Worker)
    ensures fresh(w) && w.Valid() && w.forgets == [Dropped(0, 1)] && w.suspends == [Over] && w.suspended == 1
    ensures w.live.Some? && w.tick == Idle && !w.sealing && !w.forgotten && w.sealGeneration == 0
  {
    hide *;
    w := SuspendStoresFirst();
    w.Resuming();
    w.ResumeLoads(0);
    w.ForgetClears(0, true);
    w.ResumeEnds(0, true);
  }

  /** That Suspend may have stored before the forget's clear, not after it: here the ticks
      store again although no Suspend does once the forget has cleared. */
  method SuspendInsideForget() returns (w: Worker)
    ensures w.Valid() && w.forgets == [Dropped(0, 1)] && w.store == Some(OfTick(0))
    ensures w.suspends == [Over] && w.suspended == 1
  {
    hide *;
    w := ResumeInsideForget();
    w.SealTick();
    w.TickSealed(true);
    w.TickStored(true);
  }

  /** A Suspend whose seal is still out when a restart is asked is not waited for: here the
      seal, begun before the kill, returns after the restart's clear, and its image is stored. */
  method SuspendOutlivesRestart() returns (w: Worker)
    ensures w.Valid() && w.restarts == [Cleared(1, true)] && w.store == Some(OfSuspend(0))
  {
    hide *;
    w := new Worker(true, None);
    w.Suspending();
    assert Worker.Stores(w.suspends[0]) && w.Beside() by { SealingStores(w); }
    w.Restarting();
    w.RestartAwaited(0);
    w.RestartClears(0, true);
    w.SuspendSealed(0, true);
    w.SuspendLands(0);
  }

  lemma SealingStores(w: Worker)
    requires w.suspends == [SealingNow(0)]
    ensures Worker.Stores(w.suspends[0]) && w.Beside()
  {
  }
}
