/** One launcher per user (src/desktop.ts, scripts/desktop.ts): any number of processes race
    for a state file by two file locks, an atomic link and an atomic rename, and any of them
    may die between two system calls. A step of a process is one system call. */
module Launcher {
  import opened Basics

  /** What a state file holds: a launcher's record, or something else. */
  datatype Text = Record(pid: nat, url: Option<nat>) | Garbage(bytes: nat)

  /** The state file, and the names of a process of its own beside it. */
  datatype Name = StateFile | Staged(pid: nat) | Aside(pid: nat)

  /** A file's content, and the process that wrote it. */
  datatype Content = Content(text: Text, writer: nat)

  type Names = map<Name, nat>
  type Files = map<nat, Content>

  datatype Outcome = Won | Lost | Broke

  /** What a process does next. */
  datatype Pc =
    // runningLauncher
    | LockToLook
    | OpenState
    | Read(file: nat)
    | Probe(text: Text)
    | Unprobe(text: Text)
    | Judge(text: Text, held: bool)
    | MoveAside(text: Text)
    | Compare(text: Text)
    | RemoveAside
    | UnlockLook(running: Option<Text>)
    // claimLauncherState
    | LockToClaim
    | TryClaim
    | Stage
    | Link
    | Unstage(outcome: Outcome)
    | CloseClaim(outcome: Outcome)
    | UnlockClaim(outcome: Outcome)
    // the launcher that claimed
    | Boot
    | StageUrl
    | RenameUrl
    | Serve
    | ReadOwn
    | RemoveOwn
    | End
    | Gone

  datatype Process = Process(pid: nat, round: nat, pc: Pc)

  /** A launch gives up when this round's claim is lost. */
  const LAST_ROUND := 5

  predicate HasBooted(pc: Pc) {
    pc.Boot? || pc.StageUrl? || pc.RenameUrl? || pc.Serve? || pc.ReadOwn? || pc.RemoveOwn? || pc.End?
  }

  /** Between taking and releasing the state lock. */
  predicate HasStateLock(pc: Pc) {
    !pc.LockToLook? && !pc.LockToClaim? && !HasBooted(pc) && !pc.Gone?
  }

  /** While it has the claim lock, exclusively. */
  predicate HasClaim(pc: Pc) {
    pc.Stage? || pc.Link? || pc.Unstage? || pc.CloseClaim? || pc == UnlockClaim(Won) || HasBooted(pc)
  }

  /** From its link until its exit removes the record. */
  predicate HasLinked(pc: Pc) {
    pc == Unstage(Won) || pc == UnlockClaim(Won) || (HasBooted(pc) && !pc.End?)
  }

  /** Having seen the claim lock free, under the state lock. */
  predicate HasSeenNone(pc: Pc) {
    (pc.Judge? && !pc.held) || pc.MoveAside? || pc.Compare? || pc.RemoveAside?
  }

  /** And it still is free, unless the probe was blind, or such a probe misled. */
  predicate Sees(pc: Pc, claim: Option<nat>, blind: bool, misled: bool) {
    HasSeenNone(pc) && claim.Some? ==> if pc.Judge? then blind else misled
  }

  /** The locks `p` has are those it has at `pc`. */
  predicate Holds(p: nat, pc: Pc, stateLock: Option<nat>, claim: Option<nat>, shared: set<nat>) {
    && (HasStateLock(pc) <==> stateLock == Some(p))
    && (HasClaim(pc) <==> claim == Some(p))
    && (pc.Unprobe? <==> p in shared)
  }

  /** The name leads to a record that `p` wrote, with its own pid. */
  predicate Owns(p: nat, pid: nat, name: Name, names: Names, files: Files) {
    && name in names && names[name] in files && files[names[name]].writer == p
    && files[names[name]].text.Record? && files[names[name]].text.pid == pid
  }

  /** What the files must be for process `p` to be at `pc`, and what of it no longer need be
      so once a probe was misled. */
  predicate Backed(p: nat, pid: nat, pc: Pc, names: Names, files: Files, claim: Option<nat>, misled: bool) {
    && (pc.Link? || pc.RenameUrl? ==> Owns(p, pid, Staged(pid), names, files))
    && (pc.Read? ==> pc.file in files)
    && (!misled ==>
          && (HasLinked(pc) ==> Owns(p, pid, StateFile, names, files))
          && (pc.End? ==> StateFile !in names)
          && (pc.Read? && claim.Some? ==> files[pc.file].text.Record?)
          && (pc.Probe? && claim.Some? ==> pc.text.Record?)
          && (pc.Judge? && pc.held ==> pc.text.Record?))
  }

  /** The names once `rename(from, to)` was called: nothing, when both are one file. */
  function Renamed(names: Names, from: Name, to: Name): Names
    requires from in names
  {
    if to in names && names[to] == names[from] then names else names[to := names[from]] - {from}
  }

  /** The files once a text was written at `name`: into the file there, else a new one. */
  function Written(names: Names, files: Files, name: Name, file: nat, content: Content): (Names, Files) {
    var at := if name in names then names[name] else file;
    (names[name := at], files[at := content])
  }

  /** Of what a system call does, what is not determined by the state: whether it fails,
      whether a recorded URL answers, the number a new file gets, and the port served at. */
  datatype Luck = Luck(fails: bool, answers: bool, file: nat, url: nat)

  datatype Event =
    | Launches(p: nat, pid: nat)
    | Steps(p: nat, luck: Luck)
    | Exits(p: nat)
    | Dies(p: nat)

  class Desktop {
    var names: Names
    var files: Files
    var stateLock: Option<nat>
    var claim: Option<nat>
    var shared: set<nat>
    var procs: map<nat, Process>
    /** Whether the last probe could not open the claim file while a launcher had the claim,
        and so took it for free. */
    ghost var blind: bool
    /** Whether, since the claim was last taken, its record was judged stale after such a probe. */
    ghost var misled: bool

    // ---- what always holds ----

    ghost predicate LocksValid()
      reads this`stateLock, this`claim, this`shared, this`procs, this`blind, this`misled
    {
      && (stateLock.Some? ==> stateLock.value in procs)
      && (claim.Some? ==> claim.value in procs)
      && (forall p :: p in shared ==> p in procs)
      && (shared != {} ==> claim.None?)
      && (forall p :: p in procs ==>
            && Holds(p, procs[p].pc, stateLock, claim, shared)
            && Sees(procs[p].pc, claim, blind, misled))
    }

    ghost predicate FilesValid()
      reads this`names, this`files, this`claim, this`procs, this`misled
    {
      && (forall n :: n in names ==> names[n] in files)
      && (forall p :: p in procs ==> Backed(p, procs[p].pid, procs[p].pc, names, files, claim, misled))
    }

    ghost predicate Valid()
      reads this
    {
      LocksValid() && FilesValid()
    }

    lemma ProcessIs(p: nat)
      requires Valid() && p in procs
      ensures HasStateLock(procs[p].pc) <==> stateLock == Some(p)
      ensures HasClaim(procs[p].pc) <==> claim == Some(p)
      ensures procs[p].pc.Unprobe? <==> p in shared
      ensures Sees(procs[p].pc, claim, blind, misled)
      ensures Backed(p, procs[p].pid, procs[p].pc, names, files, claim, misled)
    {
      hide HasStateLock, HasClaim, HasLinked, HasSeenNone, HasBooted, Backed;
    }

    /** The state lock is some process's, at a point where it has it. */
    lemma LockHolder()
      requires Valid() && stateLock.Some?
      ensures stateLock.value in procs && HasStateLock(procs[stateLock.value].pc)
    {
      hide FilesValid, HasStateLock, HasClaim, HasSeenNone;
    }

    /** At most one process boots or serves. */
    lemma OneLauncher(p: nat, q: nat)
      requires Valid() && p in procs && q in procs
      requires HasBooted(procs[p].pc) && HasBooted(procs[q].pc)
      ensures p == q
    {
      hide LocksValid, FilesValid;
      ProcessIs(p);
      ProcessIs(q);
    }

    /** From its link until its exit the state file holds a launcher's own record, as long as
        no blind probe had it judged stale. */
    lemma RecordIsItsOwn(p: nat)
      requires Valid() && !misled && p in procs && HasLinked(procs[p].pc)
      ensures Owns(p, procs[p].pid, StateFile, names, files)
    {
      hide LocksValid, FilesValid, Owns;
      ProcessIs(p);
    }

    /** A claim is refused only because another launcher really has it: no probe is in the
        way, its shared lock being taken only under the state lock. */
    lemma ProbesDoNotRefuse(p: nat)
      requires Valid() && p in procs && procs[p].pc.TryClaim?
      ensures shared == {}
    {
      hide FilesValid, HasClaim, HasSeenNone;
    }

    /** And so long a record is taken aside only while nobody has claimed. */
    lemma StaleOnly(p: nat, q: nat)
      requires Valid() && !misled && p in procs && q in procs
      requires procs[p].pc.MoveAside? || procs[p].pc.Compare?
      ensures !HasClaim(procs[q].pc)
    {
      hide LocksValid, FilesValid;
      ProcessIs(p);
      ProcessIs(q);
    }

    // ---- the ways a process goes on ----

    /** The processes with `p` at `pc`. */
    function At(p: nat, pc: Pc): map<nat, Process>
      reads this`procs
      requires p in procs
    {
      procs[p := procs[p].(pc := pc)]
    }

    ghost predicate May(p: nat, pc: Pc)
      reads this`names, this`files, this`claim, this`procs, this`misled
    {
      p in procs && Backed(p, procs[p].pid, pc, names, files, claim, misled)
    }

    constructor ()
      ensures Valid() && procs == map[] && names == map[] && files == map[] && !misled
      ensures stateLock.None? && claim.None? && shared == {}
    {
      names, files, stateLock, claim, shared, procs, blind, misled := map[], map[], None, None, {}, map[], false, false;
    }

    /** A process goes on; no lock or file changes. */
    method Go(p: nat, pc: Pc)
      requires Valid() && May(p, pc)
      requires HasStateLock(pc) == HasStateLock(procs[p].pc) && HasClaim(pc) == HasClaim(procs[p].pc)
      requires !pc.Unprobe? && !procs[p].pc.Unprobe? && Sees(pc, claim, blind, misled)
      modifies this`procs
      ensures Valid() && procs == old(At(p, pc))
    {
      hide HasStateLock, HasClaim, HasLinked, HasSeenNone, HasBooted, Sees, Backed;
      procs := At(p, pc);
    }

    method TakeStateLock(p: nat, pc: Pc)
      requires Valid() && May(p, pc) && stateLock.None?
      requires HasStateLock(pc) && HasClaim(pc) == HasClaim(procs[p].pc)
      requires !pc.Unprobe? && !procs[p].pc.Unprobe? && Sees(pc, claim, blind, misled)
      modifies this`procs, this`stateLock
      ensures Valid() && procs == old(At(p, pc)) && stateLock == Some(p)
    {
      hide HasStateLock, HasClaim, HasLinked, HasSeenNone, HasBooted, Sees, Backed;
      stateLock := Some(p);
      procs := At(p, pc);
    }

    method DropStateLock(p: nat, pc: Pc)
      requires Valid() && May(p, pc) && stateLock == Some(p)
      requires !HasStateLock(pc) && HasClaim(pc) == HasClaim(procs[p].pc)
      requires !pc.Unprobe? && !procs[p].pc.Unprobe? && Sees(pc, claim, blind, misled)
      modifies this`procs, this`stateLock
      ensures Valid() && procs == old(At(p, pc)) && stateLock == None
    {
      hide HasStateLock, HasClaim, HasLinked, HasSeenNone, HasBooted, Sees, Backed;
      stateLock := None;
      procs := At(p, pc);
    }

    /** Files change by the hand of one who has the claim, or while nobody does; one who was
        misled changes no name but the state file's and one of its own. */
    method Change(p: nat, pc: Pc, names': Names, files': Files)
      requires Valid() && p in procs && MayChange(p, names', files')
      requires Backed(p, procs[p].pid, pc, names', files', claim, misled)
      requires HasStateLock(pc) == HasStateLock(procs[p].pc) && HasClaim(pc) == HasClaim(procs[p].pc)
      requires !pc.Unprobe? && !procs[p].pc.Unprobe? && Sees(pc, claim, blind, misled)
      requires forall n :: n in names' ==> names'[n] in files'
      requires forall f :: f in files ==> f in files' && (files'[f] == files[f] || files'[f].text.Record?)
      modifies this`procs, this`names, this`files
      ensures Valid() && procs == old(At(p, pc)) && names == names' && files == files'
    {
      hide HasStateLock, HasClaim, HasLinked, HasSeenNone, HasBooted, Sees, Backed;
      OthersBacked(p, names', files');
      names, files := names', files';
      procs := At(p, pc);
      assert FilesValid() by { hide LocksValid; }
      assert LocksValid() by { hide FilesValid; }
    }

    ghost predicate MayChange(p: nat, names': Names, files': Files)
      reads this
    {
      || claim.None? || claim == Some(p)
      || (misled && files' == files && forall n :: n in names && n.Staged? ==> n in names' && names'[n] == names[n])
    }

    lemma OthersBacked(p: nat, names': Names, files': Files)
      requires Valid() && p in procs && MayChange(p, names', files')
      requires forall f :: f in files ==> f in files' && (files'[f] == files[f] || files'[f].text.Record?)
      ensures forall q :: q in procs && q != p ==> Backed(q, procs[q].pid, procs[q].pc, names', files', claim, misled)
    {
      hide LocksValid, FilesValid;
      forall q | q in procs && q != p ensures Backed(q, procs[q].pid, procs[q].pc, names', files', claim, misled) {
        ProcessIs(q);
      }
    }

    lemma BackedUnclaimed()
      requires Valid()
      ensures forall q :: q in procs ==> Backed(q, procs[q].pid, procs[q].pc, names, files, None, misled)
    {
      hide LocksValid, FilesValid, Owns;
      forall q | q in procs ensures Backed(q, procs[q].pid, procs[q].pc, names, files, None, misled) {
        ProcessIs(q);
      }
    }

    /** The claim lock is free, and taken, under the state lock. Whatever misled before, this
        launcher's record is as safe as any. */
    method TakeClaim(p: nat, pc: Pc)
      requires Valid() && May(p, pc) && claim.None? && shared == {} && stateLock == Some(p)
      requires HasStateLock(pc) && HasClaim(pc) && !HasLinked(pc) && !pc.End?
      requires !pc.Unprobe? && !HasSeenNone(pc) && !pc.Read? && !pc.Probe? && !pc.Judge?
      modifies this`procs, this`claim, this`misled
      ensures Valid() && procs == old(At(p, pc)) && claim == Some(p) && !misled
    {
      forall q | q in procs && q != p
        ensures Backed(q, procs[q].pid, procs[q].pc, names, files, Some(p), false) && !HasSeenNone(procs[q].pc)
      {
        hide LocksValid, FilesValid, Owns;
        ProcessIs(q);
      }
      assert Backed(p, procs[p].pid, pc, names, files, Some(p), false) by { hide LocksValid, FilesValid, Owns; }
      hide HasStateLock, HasClaim, HasLinked, HasSeenNone, HasBooted, Backed;
      claim, misled := Some(p), false;
      procs := At(p, pc);
    }

    method DropClaim(p: nat, pc: Pc)
      requires Valid() && May(p, pc) && claim == Some(p)
      requires HasStateLock(pc) == HasStateLock(procs[p].pc) && !HasClaim(pc) && !pc.Unprobe? && !procs[p].pc.Unprobe?
      modifies this`procs, this`claim
      ensures Valid() && procs == old(At(p, pc)) && claim == None
    {
      BackedUnclaimed();
      assert Backed(p, procs[p].pid, pc, names, files, None, misled) by { hide LocksValid, FilesValid, Owns; }
      hide HasStateLock, HasClaim, HasLinked, HasSeenNone, HasBooted, Backed;
      claim := None;
      procs := At(p, pc);
    }

    // ---- launches and deaths ----

    /** A launch begins; its pid may be a dead one's. */
    method Launch(p: nat, pid: nat)
      requires Valid() && p !in procs
      modifies this`procs
      ensures Valid() && procs == old(procs)[p := Process(pid, 0, LockToLook)]
    {
      assert Backed(p, pid, LockToLook, names, files, claim, misled);
      assert !HasStateLock(LockToLook) && !HasClaim(LockToLook) && Sees(LockToLook, claim, blind, misled);
      hide HasStateLock, HasClaim, HasLinked, HasSeenNone, HasBooted, Sees, Backed;
      procs := procs[p := Process(pid, 0, LockToLook)];
    }

    static lemma NothingOfTheGone(p: nat, pid: nat, names: Names, files: Files, claim: Option<nat>, misled: bool)
      ensures Backed(p, pid, Gone, names, files, None, misled) && Backed(p, pid, Gone, names, files, claim, misled)
      ensures !HasStateLock(Gone) && !HasClaim(Gone) && !HasSeenNone(Gone)
    {
    }

    /** A process ends, however it ends: the system drops its locks, and leaves its files. */
    method Die(p: nat)
      requires Valid() && p in procs
      modifies this`procs, this`stateLock, this`claim, this`shared
      ensures Valid() && procs == old(At(p, Gone))
      ensures stateLock != Some(p) && (old(stateLock) != Some(p) ==> stateLock == old(stateLock))
      ensures claim != Some(p) && (old(claim) != Some(p) ==> claim == old(claim))
      ensures shared == old(shared) - {p}
    {
      hide HasStateLock, HasClaim, HasLinked, HasSeenNone, HasBooted, Backed;
      NothingOfTheGone(p, procs[p].pid, names, files, claim, misled);
      BackedUnclaimed();
      claim := if claim == Some(p) then None else claim;
      stateLock := if stateLock == Some(p) then None else stateLock;
      shared := shared - {p};
      procs := At(p, Gone);
      assert FilesValid() by { hide LocksValid; }
      assert LocksValid() by { hide FilesValid; }
    }

    // ---- looking for a running launcher (runningLauncher) ----

    /** The state lock is waited for; when it fails, there is no directory for it yet. */
    method LockLook(p: nat, fails: bool)
      requires Valid() && p in procs && procs[p].pc.LockToLook?
      modifies this`procs, this`stateLock
      ensures Valid()
      ensures procs == old(At(p, if fails then LockToClaim else if stateLock.None? then OpenState else LockToLook))
      ensures stateLock == if !fails && old(stateLock).None? then Some(p) else old(stateLock)
    {
      hide LocksValid, FilesValid;
      if fails {
        Go(p, LockToClaim);
      } else if stateLock.None? {
        TakeStateLock(p, OpenState);
      }
    }

    method OpenFile(p: nat, fails: bool)
      requires Valid() && p in procs && procs[p].pc.OpenState?
      modifies this`procs
      ensures Valid()
      ensures procs == old(At(p, if fails || StateFile !in names then UnlockLook(None) else Read(names[StateFile])))
    {
      hide LocksValid, FilesValid;
      if fails || StateFile !in names {
        Go(p, UnlockLook(None));
      } else {
        ProcessIs(p);
        StateFileIsRecord(p);
        Go(p, Read(names[StateFile]));
      }
    }

    /** While the claim is held and nobody is claiming, the state file holds a record. */
    lemma StateFileIsRecord(p: nat)
      requires Valid() && p in procs && stateLock == Some(p) && claim != Some(p) && StateFile in names
      ensures names[StateFile] in files && (claim.Some? && !misled ==> files[names[StateFile]].text.Record?)
    {
      if claim.Some? && !misled {
        var q := claim.value;
        ProcessIs(q);
        hide LocksValid, FilesValid;
        assert HasBooted(procs[q].pc);
      }
    }

    method ReadFile(p: nat)
      requires Valid() && p in procs && procs[p].pc.Read?
      modifies this`procs
      ensures Valid()
      ensures old(procs[p].pc.file) in files && procs == old(At(p, Probe(files[procs[p].pc.file].text)))
    {
      hide LocksValid, FilesValid;
      ProcessIs(p);
      Go(p, Probe(files[procs[p].pc.file].text));
    }

    /** `tryLockSync(false)`: refused only while the claim is held. A claim file that cannot be
        opened counts as free, held or not. */
    method TryShared(p: nat, fails: bool)
      requires Valid() && p in procs && procs[p].pc.Probe?
      modifies this`procs, this`shared, this`blind
      ensures Valid() && blind == (fails && claim.Some?)
      ensures var text := old(procs[p].pc.text);
              procs == old(At(p, if fails then Judge(text, false) else if claim.Some? then Judge(text, true) else Unprobe(text)))
      ensures shared == if fails || claim.Some? then old(shared) else old(shared) + {p}
    {
      Blind(p, fails && claim.Some?);
      ProcessIs(p);
      if fails {
        hide LocksValid, FilesValid;
        Go(p, Judge(procs[p].pc.text, false));
      } else if claim.Some? {
        hide LocksValid, FilesValid;
        Go(p, Judge(procs[p].pc.text, true));
      } else {
        TakeShared(p, procs[p].pc.text);
      }
    }

    ghost method Blind(p: nat, now: bool)
      requires Valid() && p in procs && procs[p].pc.Probe?
      modifies this`blind
      ensures Valid() && blind == now
    {
      forall q | q in procs ensures !procs[q].pc.Judge? {
        ProcessIs(p);
        ProcessIs(q);
      }
      hide HasStateLock, HasClaim, HasLinked, HasSeenNone, HasBooted, Backed;
      blind := now;
    }

    ghost method Mislead(now: bool)
      requires Valid()
      modifies this`misled
      ensures Valid() && misled == (old(misled) || now)
    {
      hide HasStateLock, HasClaim, HasLinked, HasSeenNone, HasBooted, Owns;
      misled := misled || now;
    }

    method TakeShared(p: nat, text: Text)
      requires Valid() && p in procs && stateLock == Some(p) && claim.None? && !HasClaim(procs[p].pc)
      modifies this`procs, this`shared
      ensures Valid() && procs == old(At(p, Unprobe(text))) && shared == old(shared) + {p}
    {
      assert May(p, Unprobe(text)) && HasStateLock(Unprobe(text)) && !HasClaim(Unprobe(text)) && Sees(Unprobe(text), claim, blind, misled);
      hide HasStateLock, HasClaim, HasLinked, HasSeenNone, HasBooted, Sees, Backed;
      shared := shared + {p};
      procs := At(p, Unprobe(text));
    }

    method DropShared(p: nat)
      requires Valid() && p in procs && procs[p].pc.Unprobe?
      modifies this`procs, this`shared
      ensures Valid()
      ensures procs == old(At(p, Judge(procs[p].pc.text, false))) && shared == old(shared) - {p}
    {
      var pc := Judge(procs[p].pc.text, false);
      assert May(p, pc) && HasStateLock(pc) && !HasClaim(pc) && claim.None?;
      hide HasClaim, HasLinked, HasSeenNone, HasBooted, Backed;
      shared := shared - {p};
      procs := At(p, pc);
    }

    /** What a record read and probed says: a launcher runs, or it is stale. */
    method JudgeRecord(p: nat, answers: bool)
      requires Valid() && p in procs && procs[p].pc.Judge?
      modifies this`procs, this`misled
      ensures Valid()
      ensures var pc := old(procs[p].pc);
              var runs := pc.text.Record? && (pc.held || (pc.text.url.Some? && answers));
              procs == old(At(p, if runs then UnlockLook(Some(pc.text)) else MoveAside(pc.text)))
              && misled == (old(misled) || (!runs && !pc.held && blind && claim.Some?))
    {
      var pc := procs[p].pc;
      var runs := pc.text.Record? && (pc.held || (pc.text.url.Some? && answers));
      Mislead(!runs && !pc.held && blind && claim.Some?);
      hide LocksValid, FilesValid;
      ProcessIs(p);
      if runs {
        Go(p, UnlockLook(Some(pc.text)));
      } else {
        Go(p, MoveAside(pc.text));
      }
    }

    /** The record is moved aside, so that what is compared is what was taken. */
    method MoveRecord(p: nat, fails: bool)
      requires Valid() && p in procs && procs[p].pc.MoveAside?
      modifies this`procs, this`names, this`files
      ensures Valid() && files == old(files)
      ensures if fails || StateFile !in old(names) then procs == old(At(p, UnlockLook(None))) && names == old(names)
              else procs == old(At(p, Compare(procs[p].pc.text)))
                   && names == old(Renamed(names, StateFile, Aside(procs[p].pid)))
    {
      ProcessIs(p);
      if fails || StateFile !in names {
        hide LocksValid, FilesValid;
        Go(p, UnlockLook(None));
      } else {
        RenamedStay(StateFile, Aside(procs[p].pid));
        hide LocksValid, FilesValid, Renamed;
        var names' := Renamed(names, StateFile, Aside(procs[p].pid));
        Change(p, Compare(procs[p].pc.text), names', files);
      }
    }

    lemma NamesStay(names': Names)
      requires Valid() && forall n :: n in names' ==> exists m :: m in names && names[m] == names'[n]
      ensures forall n :: n in names' ==> names'[n] in files
    {
    }

    lemma RenamedStay(from: Name, to: Name)
      requires Valid() && from in names
      ensures forall n :: n in Renamed(names, from, to) ==> Renamed(names, from, to)[n] in files
    {
      hide LocksValid, Backed;
    }

    /** Another text than the one judged goes back. */
    method CompareAside(p: nat, fails: bool)
      requires Valid() && p in procs && procs[p].pc.Compare?
      modifies this`procs, this`names, this`files
      ensures Valid() && files == old(files) && procs == old(At(p, RemoveAside))
      ensures var aside := Aside(old(procs[p].pid));
              var differs := aside in old(names) && old(names[aside]) in files
                             && files[old(names[aside])].text != old(procs[p].pc.text);
              names == if differs && !fails && StateFile !in old(names) then old(names)[StateFile := old(names)[aside]]
                       else old(names)
    {
      ProcessIs(p);
      var aside := Aside(procs[p].pid);
      if aside in names && names[aside] in files && files[names[aside]].text != procs[p].pc.text
         && !fails && StateFile !in names {
        NamesStay(names[StateFile := names[aside]]);
        hide LocksValid, FilesValid;
        Change(p, RemoveAside, names[StateFile := names[aside]], files);
      } else {
        hide LocksValid, FilesValid;
        Go(p, RemoveAside);
      }
    }

    method RemoveAsideFile(p: nat, fails: bool)
      requires Valid() && p in procs && procs[p].pc.RemoveAside?
      modifies this`procs, this`names, this`files
      ensures Valid() && files == old(files) && procs == old(At(p, UnlockLook(None)))
      ensures names == if fails then old(names) else old(names) - {Aside(old(procs[p].pid))}
    {
      ProcessIs(p);
      if fails {
        hide LocksValid, FilesValid;
        Go(p, UnlockLook(None));
      } else {
        var names' := names - {Aside(procs[p].pid)};
        NamesStay(names');
        hide LocksValid, FilesValid;
        Change(p, UnlockLook(None), names', files);
      }
    }

    /** With what was found: a launcher that runs ends this launch, else it claims. */
    method UnlockLooked(p: nat)
      requires Valid() && p in procs && procs[p].pc.UnlockLook?
      modifies this`procs, this`stateLock
      ensures Valid() && stateLock == None
      ensures procs == old(At(p, if procs[p].pc.running.Some? then Gone else LockToClaim))
    {
      hide LocksValid, FilesValid;
      ProcessIs(p);
      if procs[p].pc.running.Some? {
        DropStateLock(p, Gone);
      } else {
        DropStateLock(p, LockToClaim);
      }
    }

    // ---- claiming (claimLauncherState) ----

    method LockClaim(p: nat, fails: bool)
      requires Valid() && p in procs && procs[p].pc.LockToClaim?
      modifies this`procs, this`stateLock
      ensures Valid()
      ensures procs == old(At(p, if fails then Gone else if stateLock.None? then TryClaim else LockToClaim))
      ensures stateLock == if !fails && old(stateLock).None? then Some(p) else old(stateLock)
    {
      hide LocksValid, FilesValid;
      if fails {
        Go(p, Gone);
      } else if stateLock.None? {
        TakeStateLock(p, TryClaim);
      }
    }

    /** `tryLockSync(true)`: refused exactly while another launcher has the claim. A claim file
        that cannot be opened breaks the launch. */
    method TryExclusive(p: nat, fails: bool)
      requires Valid() && p in procs && procs[p].pc.TryClaim?
      modifies this`procs, this`claim, this`misled
      ensures Valid()
      ensures fails ==> claim == old(claim) && procs == old(At(p, UnlockClaim(Broke)))
      ensures !fails && old(claim).Some? ==> claim == old(claim) != Some(p) && procs == old(At(p, UnlockClaim(Lost)))
      ensures !fails && old(claim).None? ==> claim == Some(p) && procs == old(At(p, Stage))
      ensures misled == (old(misled) && (fails || old(claim).Some?))
    {
      ProcessIs(p);
      ProbesDoNotRefuse(p);
      hide LocksValid, FilesValid;
      if fails {
        Go(p, UnlockClaim(Broke));
      } else if claim.None? && shared == {} {
        TakeClaim(p, Stage);
      } else {
        Go(p, UnlockClaim(Lost));
      }
    }

    /** The booting record, in a file of its own. */
    method StageRecord(p: nat, file: nat, fails: bool)
      requires Valid() && p in procs && procs[p].pc.Stage? && file !in files
      modifies this`procs, this`names, this`files
      ensures Valid()
      ensures if fails then procs == old(At(p, CloseClaim(Broke))) && names == old(names) && files == old(files)
              else procs == old(At(p, Link))
                   && (names, files) == old(Written(names, files, Staged(procs[p].pid), file, Content(Record(procs[p].pid, None), p)))
      ensures forall f :: f in files ==> f in old(files) || f == file
    {
      ProcessIs(p);
      if fails {
        hide LocksValid, FilesValid;
        Go(p, CloseClaim(Broke));
      } else {
        Write(p, Link, Record(procs[p].pid, None), file);
      }
    }

    /** `p` writes its record beside the state file, and goes on. */
    method Write(p: nat, pc: Pc, text: Text, file: nat)
      requires Valid() && p in procs && claim == Some(p) && file !in files && text.Record? && text.pid == procs[p].pid
      requires (pc.Link? && procs[p].pc.Stage?) || (pc.RenameUrl? && procs[p].pc.StageUrl?)
      modifies this`procs, this`names, this`files
      ensures Valid() && procs == old(At(p, pc))
      ensures (names, files) == old(Written(names, files, Staged(procs[p].pid), file, Content(text, p)))
      ensures forall f :: f in files ==> f in old(files) || f == file
    {
      ProcessIs(p);
      var name := Staged(procs[p].pid);
      var (names', files') := Written(names, files, name, file, Content(text, p));
      WrittenStays(name, file, Content(text, p));
      assert Backed(p, procs[p].pid, pc, names', files', claim, misled);
      hide LocksValid, FilesValid, Backed;
      Change(p, pc, names', files');
    }

    lemma WrittenStays(name: Name, file: nat, content: Content)
      requires Valid() && content.text.Record? && file !in files
      ensures var (names', files') := Written(names, files, name, file, content);
              && (forall n :: n in names' ==> names'[n] in files')
              && (forall f :: f in files ==> f in files' && (files'[f] == files[f] || files'[f].text.Record?))
              && (forall f :: f in files' ==> f in files || f == file)
    {
      hide LocksValid, Backed;
    }

    /** The link appears whole, and only where no state file is. */
    method LinkRecord(p: nat, fails: bool)
      requires Valid() && p in procs && procs[p].pc.Link?
      modifies this`procs, this`names, this`files
      ensures Valid() && files == old(files)
      ensures procs == old(At(p, Unstage(if fails then Broke else if StateFile in names then Lost else Won)))
      ensures if fails || StateFile in old(names) then names == old(names)
              else Staged(old(procs[p].pid)) in old(names) && names == old(names[StateFile := names[Staged(procs[p].pid)]])
                   && Owns(p, old(procs[p].pid), StateFile, names, files)
    {
      ProcessIs(p);
      if fails || StateFile in names {
        hide LocksValid, FilesValid;
        Go(p, Unstage(if fails then Broke else Lost));
      } else {
        var names' := names[StateFile := names[Staged(procs[p].pid)]];
        NamesStay(names');
        hide LocksValid, FilesValid;
        Change(p, Unstage(Won), names', files);
      }
    }

    method RemoveStaged(p: nat, fails: bool)
      requires Valid() && p in procs && procs[p].pc.Unstage?
      modifies this`procs, this`names, this`files
      ensures Valid() && files == old(files)
      ensures var outcome := old(procs[p].pc.outcome);
              procs == old(At(p, if outcome.Won? then UnlockClaim(Won) else CloseClaim(outcome)))
      ensures names == if fails then old(names) else old(names) - {Staged(old(procs[p].pid))}
    {
      hide LocksValid, FilesValid, Backed;
      ProcessIs(p);
      var outcome := procs[p].pc.outcome;
      var pc := if outcome.Won? then UnlockClaim(Won) else CloseClaim(outcome);
      var names' := if fails then names else names - {Staged(procs[p].pid)};
      UnstagedBacked(p, pc, names');
      Change(p, pc, names', files);
    }

    lemma UnstagedBacked(p: nat, pc: Pc, names': Names)
      requires Valid() && p in procs && procs[p].pc.Unstage?
      requires pc == if procs[p].pc.outcome.Won? then UnlockClaim(Won) else CloseClaim(procs[p].pc.outcome)
      requires names' == names || names' == names - {Staged(procs[p].pid)}
      ensures Backed(p, procs[p].pid, pc, names', files, claim, misled)
      ensures forall n :: n in names' ==> names'[n] in files
    {
      hide LocksValid;
    }

    method CloseClaimFile(p: nat)
      requires Valid() && p in procs && procs[p].pc.CloseClaim? && !procs[p].pc.outcome.Won?
      modifies this`procs, this`claim
      ensures Valid() && claim == None
      ensures procs == old(At(p, UnlockClaim(procs[p].pc.outcome)))
    {
      hide LocksValid, FilesValid;
      ProcessIs(p);
      DropClaim(p, UnlockClaim(procs[p].pc.outcome));
    }

    /** Claimed, the launch boots; lost, it looks again for some rounds; broken, it ends. */
    method UnlockClaimed(p: nat)
      requires Valid() && p in procs && procs[p].pc.UnlockClaim?
      modifies this`procs, this`stateLock
      ensures Valid() && stateLock == None
      ensures procs == old(procs)[p := AfterClaim(old(procs[p]))]
      ensures var was, now := old(procs[p]), procs[p];
              && now.pid == was.pid
              && match was.pc.outcome
                 case Won => now.pc.Boot? && now.round == was.round
                 case Broke => now.pc.Gone?
                 case Lost => if was.round < LAST_ROUND then now.pc.LockToLook? && now.round == was.round + 1 else now.pc.Gone?
    {
      hide LocksValid, FilesValid;
      ProcessIs(p);
      match procs[p].pc.outcome {
        case Won => DropStateLock(p, Boot);
        case Lost =>
          if procs[p].round < LAST_ROUND {
            DropStateLock(p, LockToLook);
            Again(p);
          } else {
            DropStateLock(p, Gone);
          }
        case Broke => DropStateLock(p, Gone);
      }
    }

    static function AfterClaim(was: Process): Process
      requires was.pc.UnlockClaim?
    {
      if was.pc.outcome.Won? then was.(pc := Boot)
      else if was.pc.outcome.Lost? && was.round < LAST_ROUND then Process(was.pid, was.round + 1, LockToLook)
      else was.(pc := Gone)
    }

    method Again(p: nat)
      requires Valid() && p in procs
      modifies this`procs
      ensures Valid() && procs == old(procs)[p := old(procs[p]).(round := old(procs[p].round) + 1)]
    {
      hide HasStateLock, HasClaim, HasLinked, HasSeenNone, HasBooted, Backed;
      procs := procs[p := procs[p].(round := procs[p].round + 1)];
    }

    // ---- booting, serving, leaving ----

    /** The boot is done, or failed: then the process exits. */
    method Booted(p: nat, fails: bool)
      requires Valid() && p in procs && procs[p].pc.Boot?
      modifies this`procs
      ensures Valid() && procs == old(At(p, if fails then ReadOwn else StageUrl))
    {
      hide LocksValid, FilesValid;
      ProcessIs(p);
      Go(p, if fails then ReadOwn else StageUrl);
    }

    /** The serving record, in a file of its own; without it the launcher serves all the same. */
    method StageServing(p: nat, url: nat, file: nat, fails: bool)
      requires Valid() && p in procs && procs[p].pc.StageUrl? && file !in files
      modifies this`procs, this`names, this`files
      ensures Valid()
      ensures if fails then procs == old(At(p, Serve)) && names == old(names) && files == old(files)
              else procs == old(At(p, RenameUrl))
                   && (names, files) == old(Written(names, files, Staged(procs[p].pid), file, Content(Record(procs[p].pid, Some(url)), p)))
    {
      ProcessIs(p);
      if fails {
        hide LocksValid, FilesValid;
        Go(p, Serve);
      } else {
        Write(p, RenameUrl, Record(procs[p].pid, Some(url)), file);
      }
    }

    method RenameServing(p: nat, fails: bool)
      requires Valid() && p in procs && procs[p].pc.RenameUrl?
      modifies this`procs, this`names, this`files
      ensures Valid() && files == old(files) && procs == old(At(p, Serve))
      ensures var staged := Staged(old(procs[p].pid));
              staged in old(names)
              && names == if fails then old(names) - {staged} else Renamed(old(names), staged, StateFile)
    {
      ProcessIs(p);
      var staged := Staged(procs[p].pid);
      RenamedStay(staged, StateFile);
      var names' := if fails then names - {staged} else Renamed(names, staged, StateFile);
      assert Backed(p, procs[p].pid, Serve, names', files, claim, misled);
      hide LocksValid, FilesValid, Backed, Renamed;
      Change(p, Serve, names', files);
    }

    /** A signal, a failed listen: the process exits, and its `unload` runs. */
    method Exit(p: nat)
      requires Valid() && p in procs
      requires procs[p].pc.Boot? || procs[p].pc.StageUrl? || procs[p].pc.RenameUrl? || procs[p].pc.Serve?
      modifies this`procs
      ensures Valid() && procs == old(At(p, ReadOwn))
    {
      hide LocksValid, FilesValid;
      ProcessIs(p);
      Go(p, ReadOwn);
    }

    /** The exiting launcher removes the record it finds there when it is of its own pid: which
        it is, unless a probe was misled. */
    method ReadOwnRecord(p: nat, fails: bool)
      requires Valid() && p in procs && procs[p].pc.ReadOwn?
      modifies this`procs, this`stateLock, this`claim, this`shared
      ensures Valid()
      ensures !fails && !misled ==> procs == old(At(p, RemoveOwn))
      ensures fails ==> procs == old(At(p, Gone))
      ensures !fails && misled ==>
                var own := StateFile in names && names[StateFile] in files
                           && files[names[StateFile]].text.Record? && files[names[StateFile]].text.pid == old(procs[p].pid);
                procs == old(At(p, if own then RemoveOwn else End))
    {
      ProcessIs(p);
      var own := StateFile in names && names[StateFile] in files
                 && files[names[StateFile]].text.Record? && files[names[StateFile]].text.pid == procs[p].pid;
      hide LocksValid, FilesValid;
      if fails {
        Die(p);
      } else if own {
        Go(p, RemoveOwn);
      } else {
        Go(p, End);
      }
    }

    method RemoveOwnRecord(p: nat, fails: bool)
      requires Valid() && p in procs && procs[p].pc.RemoveOwn?
      modifies this
      ensures Valid() && files == old(files) && procs == old(At(p, if fails then Gone else End))
      ensures names == if fails then old(names) else old(names) - {StateFile}
    {
      ProcessIs(p);
      if fails {
        Die(p);
      } else {
        NamesStay(names - {StateFile});
        hide LocksValid, FilesValid;
        Change(p, End, names - {StateFile}, files);
      }
    }

    // ---- any run ----

    method StepLooking(p: nat, luck: Luck)
      requires Valid() && p in procs
      modifies this
      ensures Valid()
    {
      hide LocksValid, FilesValid;
      match procs[p].pc {
        case LockToLook => LockLook(p, luck.fails);
        case OpenState => OpenFile(p, luck.fails);
        case Read(_) => ReadFile(p);
        case Probe(_) => TryShared(p, luck.fails);
        case Unprobe(_) => DropShared(p);
        case Judge(_, _) => JudgeRecord(p, luck.answers);
        case MoveAside(_) => MoveRecord(p, luck.fails);
        case Compare(_) => CompareAside(p, luck.fails);
        case RemoveAside => RemoveAsideFile(p, luck.fails);
        case UnlockLook(_) => UnlockLooked(p);
        case _ =>
      }
    }

    method StepClaiming(p: nat, luck: Luck)
      requires Valid() && p in procs && luck.file !in files
      modifies this
      ensures Valid()
    {
      hide LocksValid, FilesValid;
      match procs[p].pc {
        case LockToClaim => LockClaim(p, luck.fails);
        case TryClaim => TryExclusive(p, luck.fails);
        case Stage => StageRecord(p, luck.file, luck.fails);
        case Link => LinkRecord(p, luck.fails);
        case Unstage(_) => RemoveStaged(p, luck.fails);
        case CloseClaim(outcome) => if !outcome.Won? { CloseClaimFile(p); }
        case UnlockClaim(_) => UnlockClaimed(p);
        case _ =>
      }
    }

    method StepServing(p: nat, luck: Luck)
      requires Valid() && p in procs && luck.file !in files
      modifies this
      ensures Valid()
    {
      hide LocksValid, FilesValid;
      match procs[p].pc {
        case Boot => Booted(p, luck.fails);
        case StageUrl => StageServing(p, luck.url, luck.file, luck.fails);
        case RenameUrl => RenameServing(p, luck.fails);
        case ReadOwn => ReadOwnRecord(p, luck.fails);
        case RemoveOwn => RemoveOwnRecord(p, luck.fails);
        case End => Die(p);
        case _ =>
      }
    }

    method Do(event: Event)
      requires Valid()
      modifies this
      ensures Valid()
    {
      hide LocksValid, FilesValid;
      match event {
        case Launches(p, pid) => if p !in procs { Launch(p, pid); }
        case Steps(p, luck) =>
          if p in procs && luck.file !in files {
            var pc := procs[p].pc;
            if HasBooted(pc) {
              StepServing(p, luck);
            } else if pc.LockToClaim? || pc.TryClaim? || pc.Stage? || pc.Link? || pc.Unstage? || pc.CloseClaim? || pc.UnlockClaim? {
              StepClaiming(p, luck);
            } else {
              StepLooking(p, luck);
            }
          }
        case Exits(p) =>
          if p in procs && (procs[p].pc.Boot? || procs[p].pc.StageUrl? || procs[p].pc.RenameUrl? || procs[p].pc.Serve?) {
            Exit(p);
          }
        case Dies(p) => if p in procs { Die(p); }
      }
    }

    /** What every run leaves true: at most one launch boots or serves; a claim is never
        refused for a probe's sake; and unless a probe was misled, from its link until its exit
        the state file holds a launch's own record, and a record is taken aside only while
        nobody has the claim. */
    ghost predicate Safe()
      reads this
    {
      && (forall p, q :: p in procs && q in procs && HasBooted(procs[p].pc) && HasBooted(procs[q].pc) ==> p == q)
      && (!misled ==> forall p :: p in procs && HasLinked(procs[p].pc) ==> Owns(p, procs[p].pid, StateFile, names, files))
      && (forall p :: p in procs && procs[p].pc.TryClaim? ==> shared == {})
      && (!misled ==> forall p, q :: p in procs && q in procs && (procs[p].pc.MoveAside? || procs[p].pc.Compare?) ==>
            !HasClaim(procs[q].pc))
    }

    lemma ValidIsSafe()
      requires Valid()
      ensures Safe()
    {
      hide LocksValid, FilesValid, HasBooted, HasLinked, HasClaim, Owns;
      forall p, q | p in procs && q in procs && HasBooted(procs[p].pc) && HasBooted(procs[q].pc) ensures p == q {
        OneLauncher(p, q);
      }
      forall p | !misled && p in procs && HasLinked(procs[p].pc) ensures Owns(p, procs[p].pid, StateFile, names, files) {
        RecordIsItsOwn(p);
      }
      forall p | p in procs && procs[p].pc.TryClaim? ensures shared == {} {
        ProbesDoNotRefuse(p);
      }
      forall p, q | !misled && p in procs && q in procs && (procs[p].pc.MoveAside? || procs[p].pc.Compare?)
        ensures !HasClaim(procs[q].pc)
      {
        StaleOnly(p, q);
      }
    }

    /** Any events, of any processes, in any order. */
    method Run(events: seq<Event>)
      requires Valid()
      modifies this
      ensures Valid() && Safe()
    {
      hide LocksValid, FilesValid;
      for n := 0 to |events|
        invariant Valid()
      {
        Do(events[n]);
      }
      ValidIsSafe();
    }

    // ---- a launch running alone ----

    /** Every other process is dead, however it died. */
    predicate Alone(p: nat)
      reads this`procs
    {
      p in procs && forall q :: q in procs && q != p ==> procs[q].pc.Gone?
    }

    lemma NothingHeld(p: nat)
      requires Valid() && Alone(p) && (procs[p].pc.LockToLook? || procs[p].pc.LockToClaim?)
      ensures stateLock.None? && claim.None? && shared == {}
    {
      if stateLock.Some? { ProcessIs(stateLock.value); }
      if claim.Some? { ProcessIs(claim.value); }
      forall q ensures q !in shared {
        if q in procs { ProcessIs(q); }
      }
    }

    /** The state file and the name `p` would move it to lead to one file: a dead process of
        its pid left the record under both. */
    predicate UnderBoth(p: nat)
      reads this`procs, this`names
      requires p in procs
    {
      var aside := Aside(procs[p].pid);
      StateFile in names && aside in names && names[StateFile] == names[aside]
    }

    /** Looking alone, with dead URLs that do not answer: the record is removed, unless it is
        under both names; then one name goes. */
    method LookAlone(p: nat)
      requires Valid() && Alone(p) && procs[p].pc.LockToLook?
      modifies this`procs, this`names, this`files, this`stateLock, this`shared, this`blind, this`misled
      ensures StateFile !in old(names) ==> names == old(names)
      ensures misled == old(misled)
      ensures Valid() && procs == old(At(p, LockToClaim)) && files == old(files)
      ensures StateFile in names <==> old(UnderBoth(p))
      ensures StateFile in names ==> Aside(procs[p].pid) !in names
    {
      hide LocksValid, FilesValid, HasClaim, HasStateLock, HasSeenNone, HasLinked, HasBooted;
      NothingHeld(p);
      LockLook(p, false);
      OpenFile(p, false);
      if procs[p].pc.Read? {
        LookAtRecord(p);
      }
      UnlockLooked(p);
    }

    method LookAtRecord(p: nat)
      requires Valid() && p in procs && claim.None? && StateFile in names && procs[p].pc == Read(names[StateFile])
      modifies this`procs, this`names, this`files, this`shared, this`blind, this`misled
      ensures misled == old(misled)
      ensures Valid() && procs == old(At(p, UnlockLook(None))) && files == old(files)
      ensures StateFile in names <==> old(UnderBoth(p))
      ensures Aside(procs[p].pid) !in names
    {
      hide LocksValid, FilesValid, HasClaim, HasStateLock, HasSeenNone, HasLinked, HasBooted;
      ReadFile(p);
      TryShared(p, false);
      DropShared(p);
      JudgeRecord(p, false);
      RemoveAlone(p);
    }

    /** A look whose probe cannot open the claim file of a running launcher, and that no URL
        answers: the record is moved aside. */
    method LookBlindly(p: nat)
      requires Valid() && p in procs && procs[p].pc.LockToLook? && stateLock.None? && claim.Some? && StateFile in names
      modifies this`procs, this`names, this`files, this`stateLock, this`shared, this`blind, this`misled
      ensures Valid() && misled && claim == old(claim)
      ensures exists text :: procs == old(At(p, Compare(text)))
      ensures names == old(Renamed(names, StateFile, Aside(procs[p].pid)))
    {
      hide LocksValid, FilesValid, HasClaim, HasStateLock, HasSeenNone, HasLinked, HasBooted, Renamed;
      LockLook(p, false);
      OpenFile(p, false);
      ReadFile(p);
      TryShared(p, true);
      JudgeRecord(p, false);
      MoveRecord(p, false);
    }

    /** `removeStale` of a record nobody changed meanwhile. */
    method RemoveAlone(p: nat)
      requires Valid() && p in procs && procs[p].pc.MoveAside? && StateFile in names
      requires names[StateFile] in files && files[names[StateFile]].text == procs[p].pc.text
      modifies this`procs, this`names, this`files
      ensures Valid() && procs == old(At(p, UnlockLook(None))) && files == old(files)
      ensures StateFile in names <==> old(UnderBoth(p))
      ensures Aside(procs[p].pid) !in names
    {
      hide LocksValid, FilesValid, HasClaim, HasStateLock, HasSeenNone, HasLinked, HasBooted;
      MoveRecord(p, false);
      CompareAside(p, false);
      RemoveAsideFile(p, false);
    }

    method ClaimAlone(p: nat, file: nat)
      requires Valid() && Alone(p) && procs[p].pc.LockToClaim? && file !in files
      modifies this`procs, this`names, this`files, this`stateLock, this`claim, this`misled
      ensures forall n :: n in names ==> n in old(names) || n == StateFile || n == Staged(old(procs[p].pid))
      ensures Valid() && !misled
      ensures StateFile !in old(names) ==> procs == old(At(p, Boot)) && Owns(p, procs[p].pid, StateFile, names, files)
      ensures StateFile in old(names) && old(procs[p].round) < LAST_ROUND ==>
                && procs == old(procs)[p := old(procs[p]).(round := old(procs[p].round) + 1, pc := LockToLook)]
                && (forall f :: f in files ==> f in old(files) || f == file)
                && (Aside(procs[p].pid) in names ==> Aside(procs[p].pid) in old(names))
    {
      hide LocksValid, FilesValid, HasClaim, HasStateLock, HasSeenNone, HasLinked, HasBooted;
      NothingHeld(p);
      LockClaim(p, false);
      TryExclusive(p, false);
      StageRecord(p, file, false);
      LinkAlone(p);
      UnlockClaimed(p);
    }

    method LinkAlone(p: nat)
      requires Valid() && p in procs && procs[p].pc.Link?
      modifies this`procs, this`names, this`files, this`claim
      ensures forall n :: n in names ==> n in old(names) || n == StateFile
      ensures Valid() && files == old(files)
      ensures procs == old(At(p, UnlockClaim(if StateFile in names then Lost else Won)))
      ensures StateFile !in old(names) ==> Owns(p, procs[p].pid, StateFile, names, files)
      ensures Aside(procs[p].pid) in names ==> Aside(procs[p].pid) in old(names)
    {
      hide LocksValid, FilesValid, HasClaim, HasStateLock, HasSeenNone, HasLinked, HasBooted;
      LinkRecord(p, false);
      RemoveStaged(p, false);
      if procs[p].pc.CloseClaim? {
        CloseClaimFile(p);
      }
    }

    /** A launch alone, whatever the dead left, boots in this round or the next, and in the
        next exactly when the record is under both names. */
    method Solo(p: nat, file: nat, another: nat)
      requires Valid() && Alone(p) && procs[p].pc.LockToLook? && procs[p].round < LAST_ROUND
      requires file !in files && another !in files && file != another
      modifies this
      ensures Valid() && p in procs && procs[p].pc.Boot?
      ensures procs[p].round == old(procs[p].round) + if old(UnderBoth(p)) then 1 else 0
      ensures !misled
      ensures Owns(p, procs[p].pid, StateFile, names, files)
    {
      hide LocksValid, FilesValid, HasClaim, HasStateLock, HasSeenNone, HasBooted;
      LookAlone(p);
      ClaimAlone(p, file);
      if procs[p].pc.LockToLook? {
        LookAlone(p);
        ClaimAlone(p, another);
      }
    }
  }

  /** A launch that boots alone. */
  method BootedAlone() returns (d: Desktop)
    ensures fresh(d) && d.Valid() && !d.misled && d.stateLock.None?
    ensures d.procs == map[0 := Process(100, 0, Boot)] && d.claim == Some(0) && Owns(0, 100, StateFile, d.names, d.files)
    ensures Aside(101) !in d.names
  {
    hide Desktop.LocksValid, Desktop.FilesValid, Owns;
    d := new Desktop();
    d.Launch(0, 100);
    d.LookAlone(0);
    d.ClaimAlone(0, 0);
    d.ProcessIs(0);
    if d.stateLock.Some? {
      d.LockHolder();
    }
  }

  /** And that loses its record: the probe of a second launch cannot open the claim file, and
      takes the record for a dead launch's. */
  method MisledProbeTakesRecord() returns (d: Desktop)
    ensures d.Valid() && d.misled
    ensures 0 in d.procs && HasLinked(d.procs[0].pc) && d.claim == Some(0) && StateFile !in d.names
  {
    hide Desktop.LocksValid, Desktop.FilesValid;
    d := BootedAlone();
    d.Launch(1, 101);
    d.LookBlindly(1);
  }
}
