/** The cell queue of the notebook kernel (src/notebook_kernel_worker.ts): requests queue
    behind the guest, which runs one at a time, and a reopened notebook takes over the cell a
    restored sandbox never stopped running. The functions on `State` say what each handler
    does; class `Notebook` does it, field by field. */
module Cells {
  import opened Basics
  import opened Texts

  const NEWLINE: Unit := 10
  const OUTPUT_TAIL_LIMIT: nat := 256 * 1024

  /** An execute_request: its header's id, and what of its content matters. */
  datatype Request = Request(id: nat, code: Text, silent: bool, storeHistory: bool)

  datatype Trouble = Trouble(ename: Text, evalue: Text, traceback: seq<Text>)

  datatype Std = Stdout | Stderr

  datatype Chunk = Stream(name: Std, text: Text) | Outcome(text: Text) | Failure(trouble: Trouble)

  /** What the guest says of its cell. */
  datatype Frame = Ready | Says(chunk: Chunk) | Done(count: int) | Unknown

  /** What the worker posts. */
  datatype Posted =
    | Busy(parent: nat)
    | Idle(parent: nat)
    | Input(parent: nat, code: Text, count: int)
    | Output(parent: nat, chunk: Chunk, count: int)
    | Reply(parent: nat, error: Option<Trouble>, count: int)
    | PendingCleared(answerable: bool)
    | Note(text: Text)

  /** A restored cell that finished before anyone re-ran it. */
  datatype Finished = Finished(code: Text, count: int, outputTail: seq<Chunk>, error: Option<Trouble>)

  /** Everything the handlers read and write. `orphan` is the request of a restored cell
      until a re-run is bound to it; `frames` are the exec frames the guest got, `dones` how
      many of its done frames ended a cell, `writes` how often its pty was written. */
  datatype State = State(
    live: bool,
    executionCount: int,
    current: Option<Request>,
    queued: seq<Request>,
    partialLine: Text,
    outputTail: seq<Chunk>,
    error: Option<Trouble>,
    rebindPending: bool,
    completed: Option<Finished>,
    ticking: bool,
    posted: seq<Posted>,
    orphan: Option<nat>,
    frames: seq<Text>,
    dones: nat,
    writes: nat)

  // ---- the output tail ----

  function TotalLength(lines: seq<Text>): nat {
    if lines == [] then 0 else |lines[0]| + TotalLength(lines[1..])
  }

  function ChunkSize(chunk: Chunk): nat {
    match chunk
    case Stream(_, text) => |text|
    case Outcome(text) => |text|
    case Failure(trouble) => TotalLength(trouble.traceback)
  }

  function TailSize(tail: seq<Chunk>): nat {
    if tail == [] then 0 else ChunkSize(tail[0]) + TailSize(tail[1..])
  }

  /** The chunk goes on the last one when both are of one stream. */
  function Appended(tail: seq<Chunk>, chunk: Chunk): seq<Chunk> {
    if tail != [] && chunk.Stream? && tail[|tail| - 1].Stream? && tail[|tail| - 1].name == chunk.name then
      tail[..|tail| - 1] + [Stream(chunk.name, tail[|tail| - 1].text + chunk.text)]
    else
      tail + [chunk]
  }

  /** `tail` cut from the front until it fits `limit`. */
  function Fitted(tail: seq<Chunk>, limit: nat): (r: seq<Chunk>)
    decreases |tail|
  {
    var total := TailSize(tail);
    if total <= limit || tail == [] then tail
    else
      var excess := total - limit;
      if !tail[0].Stream? || |tail[0].text| <= excess then Fitted(tail[1..], limit)
      else [Stream(tail[0].name, tail[0].text[excess..])] + tail[1..]
  }

  /** `short` is the end of `long`: whole chunks, and at most one stream cut at its front. */
  ghost predicate EndOf(short: seq<Chunk>, long: seq<Chunk>) {
    || (exists k :: 0 <= k <= |long| && short == long[k..])
    || (exists k, cut ::
          && 0 <= k < |long| && long[k].Stream? && 0 < cut < |long[k].text|
          && short == [Stream(long[k].name, long[k].text[cut..])] + long[k + 1..])
  }

  /** What is kept of the output is its end, at most the limit, all of it when it fits; and
      where a stream is cut, exactly the limit. */
  lemma {:induction false} FittedIsEnd(tail: seq<Chunk>, limit: nat)
    ensures EndOf(Fitted(tail, limit), tail)
    ensures TailSize(Fitted(tail, limit)) <= limit
    ensures TailSize(tail) <= limit ==> Fitted(tail, limit) == tail
    ensures (forall k :: 0 <= k <= |tail| ==> Fitted(tail, limit) != tail[k..]) ==> TailSize(Fitted(tail, limit)) == limit
    decreases |tail|
  {
    var total := TailSize(tail);
    if total <= limit || tail == [] {
      assert tail[0..] == tail;
    } else {
      var excess := total - limit;
      if !tail[0].Stream? || |tail[0].text| <= excess {
        FittedIsEnd(tail[1..], limit);
        EndOfTail(Fitted(tail[1..], limit), tail);
      } else {
        var r := [Stream(tail[0].name, tail[0].text[excess..])] + tail[1..];
        assert r[1..] == tail[1..];
        assert r == [Stream(tail[0].name, tail[0].text[excess..])] + tail[0 + 1..];
      }
    }
  }

  lemma EndOfTail(short: seq<Chunk>, long: seq<Chunk>)
    requires long != [] && EndOf(short, long[1..])
    ensures EndOf(short, long)
    ensures (forall k :: 0 <= k <= |long| ==> short != long[k..]) ==> forall k :: 0 <= k <= |long[1..]| ==> short != long[1..][k..]
  {
    forall k | 0 <= k <= |long[1..]| ensures long[1..][k..] == long[k + 1..] {
    }
    if k :| 0 <= k <= |long[1..]| && short == long[1..][k..] {
      assert short == long[k + 1..];
    } else {
      var k, cut :|
        && 0 <= k < |long[1..]| && long[1..][k].Stream? && 0 < cut < |long[1..][k].text|
        && short == [Stream(long[1..][k].name, long[1..][k].text[cut..])] + long[1..][k + 1..];
      assert long[1..][k] == long[k + 1] && long[1..][k + 1..] == long[k + 2..];
      assert short == [Stream(long[k + 1].name, long[k + 1].text[cut..])] + long[k + 1 + 1..];
    }
  }

  function Remembered(tail: seq<Chunk>, chunk: Chunk): seq<Chunk> {
    Fitted(Appended(tail, chunk), OUTPUT_TAIL_LIMIT)
  }

  // ---- what the handlers do ----

  function Sent(s: State, messages: seq<Posted>): State {
    s.(posted := s.posted + messages)
  }

  function Inputs(request: Request, count: int): seq<Posted> {
    if !request.silent && request.storeHistory then [Input(request.id, request.code, count)] else []
  }

  /** The recorded output of a cell, in order. */
  function Replayed(parent: nat, tail: seq<Chunk>, count: int): (r: seq<Posted>)
    ensures |r| == |tail| && forall m :: m in r ==> m.Output?
    ensures forall i :: 0 <= i < |tail| ==> r[i] == Output(parent, tail[i], count)
  {
    seq(|tail|, i requires 0 <= i < |tail| => Output(parent, tail[i], count))
  }

  function Unreachable(): Trouble {
    Trouble(Literal("KernelGone"), Literal("the guest could not be reached"), [])
  }

  /** `clearRebind`, a cell having finished with `finished` or not at all. */
  function ClearedRebind(s: State, finished: Option<Finished>): State {
    if !s.rebindPending then s
    else
      var completed := if finished.Some? then finished else s.completed;
      Sent(s.(rebindPending := false, completed := completed), [PendingCleared(completed.Some?)])
  }

  /** The cell produced something. */
  function Said(s: State, chunk: Chunk): State {
    match s.current
    case None => s
    case Some(cell) =>
      var noted := s.(outputTail := Remembered(s.outputTail, chunk),
                      error := if chunk.Failure? then Some(chunk.trouble) else s.error);
      if cell.silent then noted else Sent(noted, [Output(cell.id, chunk, s.executionCount + 1)])
  }

  /** The cell is done, as far as its own answer goes. */
  function Answered(s: State, count: int): (r: State)
    ensures r.current.None? && r.queued == s.queued && (s.current.Some? ==> !r.ticking)
  {
    match s.current
    case None => s
    case Some(cell) =>
      var replied := Sent(s.(executionCount := count, error := None), [Reply(cell.id, s.error, count), Idle(cell.id)]);
      ClearedRebind(replied, Some(Finished(cell.code, count, s.outputTail, s.error))).(
        current := None, outputTail := [], ticking := false)
  }

  /** The next queued cell begins: its frame is not written yet. */
  function Begun(s: State): (r: State)
    requires s.queued != []
    ensures r.current == Some(s.queued[0]) && r.queued == s.queued[1..]
  {
    var next := s.queued[0];
    Sent(s.(current := Some(next), queued := s.queued[1..], outputTail := [], error := None, ticking := true),
         [Busy(next.id)] + Inputs(next, s.executionCount + 1))
  }

  /** Its frame reaches the guest. */
  function Given(s: State): State
    requires s.queued != []
  {
    Begun(s).(writes := s.writes + 1, frames := s.frames + [s.queued[0].code])
  }

  /** Its frame does not, and the cell fails. */
  function Unreached(s: State): (r: State)
    requires s.queued != []
    ensures r.queued == s.queued[1..]
  {
    var failed := Said(Begun(s).(writes := s.writes + 1), Failure(Unreachable()));
    Answered(failed, failed.executionCount + 1)
  }

  /** `runNextCell`: the pty takes the `n`th write when `reaches(n)`; a cell that does not
      reach the guest fails, and the next one is tried. */
  function RunNext(s: State, reaches: nat -> bool): State
    decreases |s.queued|
  {
    if !s.live || s.current.Some? || s.queued == [] then s
    else if reaches(s.writes) then Given(s)
    else RunNext(Unreached(s), reaches)
  }

  /** `finishCell`, of a frame the guest sent. */
  function Handled(s: State, frame: Frame, reaches: nat -> bool): State {
    match frame
    case Ready => s
    case Unknown => s
    case Says(chunk) => Said(s, chunk)
    case Done(count) => if s.current.None? then s else RunNext(Answered(s, count).(dones := s.dones + 1), reaches)
  }

  /** A reopened notebook re-runs the cell the guest never stopped running. */
  predicate Rebinds(s: State, request: Request) {
    s.rebindPending && s.current.Some? && s.current.value.code == request.code
  }

  function Rebound(s: State, request: Request): State
    requires Rebinds(s, request)
  {
    Sent(s.(rebindPending := false, orphan := None, current := Some(request)),
         [Busy(request.id)] + Inputs(request, s.executionCount + 1)
         + if request.silent then [] else Replayed(request.id, s.outputTail, s.executionCount + 1))
  }

  /** A re-run of the cell that finished meanwhile is answered from the record. */
  predicate Replays(s: State, request: Request) {
    s.completed.Some? && s.completed.value.code == request.code
  }

  function FromRecord(s: State, request: Request): State
    requires Replays(s, request)
  {
    var done := s.completed.value;
    Sent(s.(completed := None),
         [Busy(request.id)] + Inputs(request, done.count)
         + (if request.silent then [] else Replayed(request.id, done.outputTail, done.count))
         + [Reply(request.id, done.error, done.count), Idle(request.id)])
  }

  /** Any other request waits its turn, and the restored cell is nobody's any more. */
  function Queued(s: State, request: Request): State {
    s.(completed := None, rebindPending := false, queued := s.queued + [request])
  }

  function Enqueued(s: State, request: Request, reaches: nat -> bool): State {
    if Rebinds(s, request) then Rebound(s, request)
    else if Replays(s, request) then FromRecord(s, request)
    else RunNext(Queued(s, request), reaches)
  }

  /** One line of the guest's, whose frame `parse` finds, if it is one. */
  function LineHandled(s: State, line: Text, parse: Text -> Option<Frame>, reaches: nat -> bool): State {
    if Trim(line) == [] then s
    else if parse(line).Some? then Handled(s, parse(line).value, reaches)
    else if s.current.Some? then Said(s, Stream(Stderr, line + [NEWLINE]))
    else Sent(s, [Note(line)])
  }

  /** The whole lines of what the guest said so far. */
  function LinesHandled(s: State, parse: Text -> Option<Frame>, reaches: nat -> bool): State
    decreases |s.partialLine|
  {
    var at := IndexOf(s.partialLine, NEWLINE);
    if at == |s.partialLine| then s
    else
      var rest := s.partialLine[at + 1..];
      LinesHandled(LineHandled(s.(partialLine := rest), s.partialLine[..at], parse, reaches).(partialLine := rest), parse, reaches)
  }

  function Heard(s: State, text: Text, parse: Text -> Option<Frame>, reaches: nat -> bool): State {
    LinesHandled(s.(partialLine := s.partialLine + text), parse, reaches)
  }

  function Restarting(): Text {
    Literal("KernelRestarted")
  }

  function Refusals(cells: seq<Request>, reason: Text, count: int): seq<Posted> {
    if cells == [] then []
    else
      [Reply(cells[0].id, Some(Trouble(Restarting(), reason, [])), count), Idle(cells[0].id)]
      + Refusals(cells[1..], reason, count)
  }

  function InFlight(s: State): seq<Request> {
    (if s.current.Some? then [s.current.value] else []) + s.queued
  }

  /** Every cell in flight fails: the guest is being replaced. */
  function AllFailed(s: State, reason: Text): State {
    var cleared := ClearedRebind(s.(current := None, queued := [], partialLine := [], outputTail := [], error := None), None);
    Sent(cleared.(ticking := false), Refusals(InFlight(s), reason, s.executionCount))
  }

  // ---- every request is answered once, in order ----

  /** The requests replied to, in order. */
  function Replies(posted: seq<Posted>): seq<nat> {
    if posted == [] then []
    else (if posted[0].Reply? then [posted[0].parent] else []) + Replies(posted[1..])
  }

  function Ids(requests: seq<Request>): (ids: seq<nat>)
    ensures |ids| == |requests|
  {
    seq(|requests|, i requires 0 <= i < |requests| => requests[i].id)
  }

  /** The request nobody of this page made, of a cell it restored. */
  function Lead(s: State): seq<nat> {
    if s.orphan.Some? then [s.orphan.value] else []
  }

  /** The requests replied to, then the current one, then the queued ones. */
  function Line(s: State): seq<nat> {
    Replies(s.posted) + Ids(InFlight(s))
  }

  /** Exec frames the guest has not answered, beyond the current cell's. */
  function Unanswered(s: State): int {
    |s.frames| - s.dones - if s.current.Some? then 1 else 0
  }

  /** The restored cell runs and nobody of this page asked for it. */
  predicate OrphanRuns(s: State) {
    s.orphan.Some? && s.current.Some? && s.current.value.id == s.orphan.value
  }

  /** A cell waits to be taken over only while nothing else is queued, and a finished one to
      be asked for only while nothing but the orphan is in flight; seal ticks run while a
      cell does. */
  predicate Sound(s: State) {
    && (s.rebindPending ==> OrphanRuns(s) && s.completed.None? && s.queued == [])
    && (s.completed.Some? ==> s.queued == [] && (s.current.Some? ==> OrphanRuns(s)))
    && s.ticking == s.current.Some?
  }

  /** A finished cell waits to be asked for although a cell runs: a resume brought it back. */
  predicate Crossed(s: State) {
    s.completed.Some? && s.current.Some?
  }

  /** What every step but an accepted request leaves as it was. */
  ghost predicate Keeps(a: State, b: State) {
    && Line(b) == Line(a) && b.orphan == a.orphan
    && (b.rebindPending ==> a.rebindPending)
    && (Sound(a) ==> Sound(b) && (Crossed(b) ==> Crossed(a) && b.completed == a.completed))
  }

  lemma {:induction false} RepliesAppend(a: seq<Posted>, b: seq<Posted>)
    ensures Replies(a + b) == Replies(a) + Replies(b)
  {
    if a == [] {
      assert a + b == b;
    } else {
      assert (a + b)[1..] == a[1..] + b && (a + b)[0] == a[0];
      RepliesAppend(a[1..], b);
      Associative(if a[0].Reply? then [a[0].parent] else [], Replies(a[1..]), Replies(b));
    }
  }

  lemma {:induction false} NoReplies(posted: seq<Posted>)
    requires forall m :: m in posted ==> !m.Reply?
    ensures Replies(posted) == []
  {
    if posted != [] {
      assert posted[0] in posted && forall m :: m in posted[1..] ==> m in posted;
      NoReplies(posted[1..]);
    }
  }

  lemma Quiet(s: State, messages: seq<Posted>)
    requires forall m :: m in messages ==> !m.Reply?
    ensures Replies(Sent(s, messages).posted) == Replies(s.posted)
  {
    RepliesAppend(s.posted, messages);
    NoReplies(messages);
  }

  lemma OneReply(s: State, before: seq<Posted>, reply: Posted, after: Posted)
    requires reply.Reply? && !after.Reply? && forall m :: m in before ==> !m.Reply?
    ensures Replies(Sent(s, before + [reply, after]).posted) == Replies(s.posted) + [reply.parent]
  {
    RepliesAppend(s.posted, before + [reply, after]);
    RepliesAppend(before, [reply, after]);
    NoReplies(before);
    assert [reply, after][1..] == [after] && [after][1..] == [];
    assert Replies([after]) == [];
  }

  lemma SaidKeeps(s: State, chunk: Chunk)
    ensures Keeps(s, Said(s, chunk)) && Unanswered(Said(s, chunk)) == Unanswered(s)
  {
    hide Remembered, Replies, Ids;
    if s.current.Some? && !s.current.value.silent {
      Quiet(s, [Output(s.current.value.id, chunk, s.executionCount + 1)]);
    }
  }

  lemma AnsweredKeeps(s: State, count: int)
    requires s.current.Some?
    ensures Keeps(s, Answered(s, count)) && Unanswered(Answered(s, count)) == Unanswered(s) + 1
  {
    hide Replies, Ids;
    var cell := s.current.value;
    var replied := Sent(s.(executionCount := count, error := None), [Reply(cell.id, s.error, count), Idle(cell.id)]);
    OneReply(s, [], Reply(cell.id, s.error, count), Idle(cell.id));
    assert [] + [Reply(cell.id, s.error, count), Idle(cell.id)] == [Reply(cell.id, s.error, count), Idle(cell.id)];
    Quiet(replied, [PendingCleared(true)]);
    IdsFirst(cell, s.queued);
    assert InFlight(Answered(s, count)) == s.queued;
    Associative(Replies(s.posted), [cell.id], Ids(s.queued));
  }

  lemma IdsFirst(cell: Request, queued: seq<Request>)
    ensures Ids([cell] + queued) == [cell.id] + Ids(queued)
  {
  }

  lemma BegunKeeps(s: State)
    requires s.current.None? && s.queued != []
    ensures Keeps(s, Begun(s)) && Unanswered(Begun(s)) == Unanswered(s) - 1
  {
    hide Replies, Ids;
    var next := s.queued[0];
    Quiet(s, [Busy(next.id)] + Inputs(next, s.executionCount + 1));
    assert InFlight(Begun(s)) == InFlight(s);
  }

  /** None of it depends on how often the pty was written, or on what the guest got. */
  lemma KeepsAside(a: State, b: State, frames: seq<Text>, dones: nat, writes: nat)
    ensures Keeps(a, b.(frames := frames, dones := dones, writes := writes)) == Keeps(a, b)
    ensures Keeps(b.(frames := frames, dones := dones, writes := writes), a) == Keeps(b, a)
  {
  }

  lemma KeepsTransitive(a: State, b: State, c: State)
    requires Keeps(a, b) && Keeps(b, c)
    ensures Keeps(a, c)
  {
    hide Line, Sound;
  }

  lemma GivenKeeps(s: State)
    requires s.current.None? && s.queued != []
    ensures Keeps(s, Given(s)) && Unanswered(Given(s)) == Unanswered(s)
  {
    BegunKeeps(s);
    KeepsAside(s, Begun(s), s.frames + [s.queued[0].code], s.dones, s.writes + 1);
    hide Keeps;
  }

  lemma UnreachedKeeps(s: State)
    requires s.current.None? && s.queued != []
    ensures Keeps(s, Unreached(s)) && Unanswered(Unreached(s)) == Unanswered(s)
  {
    hide Keeps, Remembered;
    var begun := Begun(s).(writes := s.writes + 1);
    BegunKeeps(s);
    KeepsAside(s, Begun(s), s.frames, s.dones, s.writes + 1);
    var failed := Said(begun, Failure(Unreachable()));
    SaidKeeps(begun, Failure(Unreachable()));
    AnsweredKeeps(failed, failed.executionCount + 1);
    KeepsTransitive(s, begun, failed);
    KeepsTransitive(s, failed, Unreached(s));
  }

  /** Running the next cell, through any number that do not reach the guest, answers each of
      those in turn and leaves the line as it was. */
  lemma {:induction false} RunNextKeeps(s: State, reaches: nat -> bool)
    ensures Keeps(s, RunNext(s, reaches)) && Unanswered(RunNext(s, reaches)) == Unanswered(s)
    decreases |s.queued|
  {
    KeepsItself(s);
    hide Keeps, Given, Unreached, Unanswered;
    if s.live && s.current.None? && s.queued != [] {
      GivenKeeps(s);
      if !reaches(s.writes) {
        UnreachedKeeps(s);
        RunNextKeeps(Unreached(s), reaches);
        KeepsTransitive(s, Unreached(s), RunNext(s, reaches));
      }
    }
  }

  lemma KeepsItself(s: State)
    ensures Keeps(s, s)
  {
  }

  lemma HandledKeeps(s: State, frame: Frame, reaches: nat -> bool)
    ensures Keeps(s, Handled(s, frame, reaches)) && Unanswered(Handled(s, frame, reaches)) == Unanswered(s)
  {
    KeepsItself(s);
    hide Keeps, Remembered;
    match frame
    case Ready =>
    case Unknown =>
    case Says(chunk) => SaidKeeps(s, chunk);
    case Done(count) =>
      if s.current.Some? {
        AnsweredKeeps(s, count);
        var answered := Answered(s, count).(dones := s.dones + 1);
        KeepsAside(s, Answered(s, count), s.frames, s.dones + 1, s.writes);
        RunNextKeeps(answered, reaches);
        KeepsTransitive(s, answered, RunNext(answered, reaches));
      }
  }

  lemma LineKeeps(s: State, line: Text, parse: Text -> Option<Frame>, reaches: nat -> bool)
    ensures var now := LineHandled(s, line, parse, reaches);
            Keeps(s, now) && Unanswered(now) == Unanswered(s)
  {
    if Trim(line) != [] {
      if parse(line).Some? {
        HandledKeeps(s, parse(line).value, reaches);
      } else if s.current.Some? {
        SaidKeeps(s, Stream(Stderr, line + [NEWLINE]));
      } else {
        Quiet(s, [Note(line)]);
        hide Replies;
      }
    }
  }

  lemma TextAside(a: State, b: State, text: Text)
    ensures Keeps(a, b.(partialLine := text)) == Keeps(a, b)
    ensures Keeps(b.(partialLine := text), a) == Keeps(b, a)
    ensures Unanswered(b.(partialLine := text)) == Unanswered(b)
  {
  }

  lemma {:induction false} LinesKeep(s: State, parse: Text -> Option<Frame>, reaches: nat -> bool)
    ensures var now := LinesHandled(s, parse, reaches);
            Keeps(s, now) && Unanswered(now) == Unanswered(s)
    decreases |s.partialLine|
  {
    KeepsItself(s);
    var at := IndexOf(s.partialLine, NEWLINE);
    if at < |s.partialLine| {
      hide LineHandled, Keeps, Unanswered, IndexOf;
      var rest := s.partialLine[at + 1..];
      var cut := s.(partialLine := rest);
      var next := LineHandled(cut, s.partialLine[..at], parse, reaches);
      LineKeeps(cut, s.partialLine[..at], parse, reaches);
      TextAside(s, s, rest);
      TextAside(next, s, rest);
      TextAside(s, next, rest);
      LinesKeep(next.(partialLine := rest), parse, reaches);
      KeepsTransitive(s, next.(partialLine := rest), LinesHandled(s, parse, reaches));
    }
  }

  lemma HeardKeeps(s: State, text: Text, parse: Text -> Option<Frame>, reaches: nat -> bool)
    ensures var now := Heard(s, text, parse, reaches);
            Keeps(s, now) && Unanswered(now) == Unanswered(s)
  {
    hide LinesHandled, Keeps, Unanswered;
    TextAside(Heard(s, text, parse, reaches), s, s.partialLine + text);
    LinesKeep(s.(partialLine := s.partialLine + text), parse, reaches);
  }

  // ---- an accepted request ----

  /** A re-run takes the current cell's place. */
  lemma ReboundLine(s: State, request: Request)
    requires Rebinds(s, request)
    ensures Line(Rebound(s, request)) == Replies(s.posted) + ([request.id] + Ids(s.queued))
    ensures Unanswered(Rebound(s, request)) == Unanswered(s)
    ensures Sound(s) ==> Sound(Rebound(s, request)) && !Crossed(Rebound(s, request))
  {
    hide Replies, Replayed, Ids;
    Quiet(s, [Busy(request.id)] + Inputs(request, s.executionCount + 1)
             + if request.silent then [] else Replayed(request.id, s.outputTail, s.executionCount + 1));
    IdsFirst(request, s.queued);
  }

  /** One answered from the record is replied to at once. */
  lemma FromRecordLine(s: State, request: Request)
    requires Replays(s, request)
    ensures Line(FromRecord(s, request)) == Replies(s.posted) + [request.id] + Ids(InFlight(s))
    ensures Unanswered(FromRecord(s, request)) == Unanswered(s)
    ensures Sound(s) ==> Sound(FromRecord(s, request)) && !Crossed(FromRecord(s, request))
  {
    var done := s.completed.value;
    var before := [Busy(request.id)] + Inputs(request, done.count)
                  + (if request.silent then [] else Replayed(request.id, done.outputTail, done.count));
    OneReply(s, before, Reply(request.id, done.error, done.count), Idle(request.id));
    hide Replies, Replayed, Ids;
  }

  /** Any other joins the end of the line. */
  lemma QueuedLine(s: State, request: Request)
    ensures Line(Queued(s, request)) == Line(s) + [request.id]
    ensures Unanswered(Queued(s, request)) == Unanswered(s)
    ensures Sound(s) ==> Sound(Queued(s, request)) && !Crossed(Queued(s, request))
  {
    hide Replies;
    var after := Queued(s, request);
    assert InFlight(after) == InFlight(s) + [request];
    assert Ids(InFlight(s) + [request]) == Ids(InFlight(s)) + [request.id];
    Associative(Replies(s.posted), Ids(InFlight(s)), [request.id]);
  }

  /** Whose place a request takes, if it is a re-run that is bound to the current cell. */
  function Replaces(s: State, request: Request): multiset<nat> {
    if Rebinds(s, request) then multiset{s.current.value.id} else multiset{}
  }

  lemma EnqueuedOnce(s: State, request: Request, reaches: nat -> bool)
    ensures var now := Enqueued(s, request, reaches);
            && multiset(Line(now)) + Replaces(s, request) == multiset(Line(s)) + multiset{request.id}
            && Unanswered(now) == Unanswered(s)
  {
    hide Replies, Ids, RunNext, Unanswered, Rebound, FromRecord, Queued;
    if Rebinds(s, request) {
      ReboundLine(s, request);
      IdsFirst(s.current.value, s.queued);
    } else if Replays(s, request) {
      FromRecordLine(s, request);
    } else {
      QueuedLine(s, request);
      RunNextKeeps(Queued(s, request), reaches);
    }
  }

  /** The orphan, if there is one, after the first `k` of these. */
  function Placed(ids: seq<nat>, k: nat, orphan: seq<nat>): seq<nat>
    requires k <= |ids|
  {
    ids[..k] + orphan + ids[k..]
  }

  lemma PlacedThen(ids: seq<nat>, k: nat, orphan: seq<nat>, more: seq<nat>)
    requires k <= |ids|
    ensures Placed(ids, k, orphan) + more == Placed(ids + more, k, orphan)
  {
    assert (ids + more)[..k] == ids[..k] && (ids + more)[k..] == ids[k..] + more;
  }

  /** Each accepted request is exactly one of replied, current or queued, in the order of
      acceptance, `k` of them before the restored cell nobody took over. */
  ghost predicate Ordered(s: State, accepted: seq<nat>, k: nat) {
    && k <= |accepted| && Line(s) == Placed(accepted, k, Lead(s)) && Sound(s)
    && (s.rebindPending || Crossed(s) ==> accepted == [])
  }

  lemma KeptOrdered(a: State, b: State, accepted: seq<nat>, k: nat)
    requires Ordered(a, accepted, k) && Keeps(a, b)
    ensures Ordered(b, accepted, k) && (Crossed(b) ==> Crossed(a) && b.completed == a.completed)
  {
    hide Line, Sound, Placed;
  }

  /** Whether a request is answered from the record while the orphan runs, and so before it. */
  predicate Overtakes(s: State, request: Request) {
    Crossed(s) && Replays(s, request)
  }

  lemma EnqueuedOrdered(s: State, request: Request, reaches: nat -> bool, accepted: seq<nat>, k: nat)
    requires Ordered(s, accepted, k)
    ensures var now := Enqueued(s, request, reaches);
            Ordered(now, accepted + [request.id], if Overtakes(s, request) then 1 else k) && !Crossed(now)
  {
    hide Replies, Ids, RunNext, Keeps, Placed;
    PlacedThen(accepted, k, Lead(s), [request.id]);
    if Rebinds(s, request) {
      ReboundLine(s, request);
      NothingBefore(s, k);
      Unplaced(request.id, []);
      assert accepted + [request.id] == [request.id];
    } else if Replays(s, request) {
      FromRecordLine(s, request);
      NoIds();
      if s.current.Some? {
        NothingBefore(s, k);
        Unplaced(request.id, Lead(s));
        assert Line(FromRecord(s, request)) == [request.id] + Lead(s);
        assert accepted + [request.id] == [request.id];
      } else {
        assert InFlight(s) == [] && Replies(s.posted) + [request.id] + [] == Line(s) + [request.id];
      }
    } else {
      QueuedLine(s, request);
      var queued := Queued(s, request);
      assert Ordered(queued, accepted + [request.id], k);
      RunNextKeeps(queued, reaches);
      hide *;
      KeptOrdered(queued, RunNext(queued, reaches), accepted + [request.id], k);
      EnqueuedIs(s, request, reaches);
      QueuedIs(s, request);
    }
  }

  lemma Unplaced(id: nat, orphan: seq<nat>)
    ensures Placed([id], 1, orphan) == [id] + orphan && Placed([id], 0, []) == [id] && [] + [id] == [id]
  {
  }

  lemma QueuedIs(s: State, request: Request)
    ensures !Crossed(Queued(s, request))
    ensures Overtakes(s, request) ==> Replays(s, request)
  {
  }

  lemma EnqueuedIs(s: State, request: Request, reaches: nat -> bool)
    ensures !Rebinds(s, request) && !Replays(s, request) ==> Enqueued(s, request, reaches) == RunNext(Queued(s, request), reaches)
  {
  }

  lemma NoIds()
    ensures Ids([]) == []
  {
  }

  /** While the restored cell waits, nothing has been replied to. */
  lemma NothingBefore(s: State, k: nat)
    requires Ordered(s, [], k) && s.current.Some? && OrphanRuns(s) && s.queued == []
    ensures k == 0 && Replies(s.posted) == [] && Ids(s.queued) == [] && Ids(InFlight(s)) == Lead(s)
  {
    hide Replies;
    IdsFirst(s.current.value, []);
    NoIds();
    assert InFlight(s) == [s.current.value] + [];
    assert |Line(s)| == 1;
  }

  // ---- whole epochs ----

  /** A request, output of the guest's, or a `runNextCell` of its own, which a resume makes. */
  datatype Event = Asks(request: Request) | Hears(text: Text) | Resumes

  function Next(s: State, event: Event, parse: Text -> Option<Frame>, reaches: nat -> bool): State {
    match event
    case Asks(request) => Enqueued(s, request, reaches)
    case Hears(text) => Heard(s, text, parse, reaches)
    case Resumes => RunNext(s, reaches)
  }

  function After(s: State, events: seq<Event>, parse: Text -> Option<Frame>, reaches: nat -> bool): State
    decreases |events|
  {
    if events == [] then s else After(Next(s, events[0], parse, reaches), events[1..], parse, reaches)
  }

  /** The requests accepted, in order. */
  function Accepted(events: seq<Event>): seq<nat> {
    if events == [] then []
    else (if events[0].Asks? then [events[0].request.id] else []) + Accepted(events[1..])
  }

  /** The requests whose place a re-run took. */
  function Replaced(s: State, events: seq<Event>, parse: Text -> Option<Frame>, reaches: nat -> bool): multiset<nat>
    decreases |events|
  {
    if events == [] then multiset{}
    else
      (if events[0].Asks? then Replaces(s, events[0].request) else multiset{})
      + Replaced(Next(s, events[0], parse, reaches), events[1..], parse, reaches)
  }

  lemma NextOnce(s: State, event: Event, parse: Text -> Option<Frame>, reaches: nat -> bool)
    ensures var now := Next(s, event, parse, reaches);
            && Unanswered(now) == Unanswered(s)
            && (match event
                case Asks(request) => multiset(Line(now)) + Replaces(s, request) == multiset(Line(s)) + multiset{request.id}
                case Hears(_) => Line(now) == Line(s)
                case Resumes => Line(now) == Line(s))
  {
    hide Enqueued, Heard, RunNext, Line, Unanswered, Replaces;
    match event
    case Asks(request) => EnqueuedOnce(s, request, reaches);
    case Hears(text) => HeardKeeps(s, text, parse, reaches);
    case Resumes => RunNextKeeps(s, reaches);
  }

  /** From any state whatever: of the requests there were and those accepted since, each is
      exactly once replied to, current or queued, but for one whose place a re-run took; and
      the guest has as many unanswered frames beyond the current cell's as it had. */
  lemma {:induction false} AnsweredOnce(s: State, events: seq<Event>, parse: Text -> Option<Frame>, reaches: nat -> bool)
    ensures var now := After(s, events, parse, reaches);
            && multiset(Line(now)) + Replaced(s, events, parse, reaches) == multiset(Line(s)) + multiset(Accepted(events))
            && Unanswered(now) == Unanswered(s)
    decreases |events|
  {
    if events != [] {
      hide Next, Line, Unanswered, Replaces, Replies;
      var next := Next(s, events[0], parse, reaches);
      var first := if events[0].Asks? then [events[0].request.id] else [];
      var taken := if events[0].Asks? then Replaces(s, events[0].request) else multiset{};
      NextOnce(s, events[0], parse, reaches);
      AnsweredOnce(next, events[1..], parse, reaches);
      Balanced(multiset(Line(s)), multiset(Line(next)), multiset(Line(After(next, events[1..], parse, reaches))),
               taken, multiset(first), Replaced(next, events[1..], parse, reaches), multiset(Accepted(events[1..])));
    }
  }

  lemma Balanced(a: multiset<nat>, b: multiset<nat>, c: multiset<nat>, taken: multiset<nat>, came: multiset<nat>,
                 takenLater: multiset<nat>, cameLater: multiset<nat>)
    requires b + taken == a + came && c + takenLater == b + cameLater
    ensures c + (taken + takenLater) == a + (came + cameLater)
  {
    forall x ensures (c + (taken + takenLater))[x] == (a + (came + cameLater))[x] {
      assert (b + taken)[x] == (a + came)[x] && (c + takenLater)[x] == (b + cameLater)[x];
    }
  }

  /** How an epoch begins. Booted, with or without cells queued meanwhile; restored into a new
      page, with the cell the guest is running, if any, waiting to be taken over; or resumed
      on the page it was suspended on, with the cell it was running and those queued, and
      whatever this page still remembers of a cell to be taken over, or of one that finished
      since and is brought back running. */
  ghost predicate Begins(s: State) {
    && s.live && s.posted == [] && s.frames == [] && s.dones == 0 && Sound(s)
    && (s.orphan.Some? ==> OrphanRuns(s))
  }

  /** The requests an epoch begins with, but for the orphan. */
  function Waiting(s: State): seq<nat> {
    if s.orphan.Some? then Ids(s.queued) else Ids(InFlight(s))
  }

  function Restored(s: State): nat {
    if s.current.Some? then 1 else 0
  }

  lemma BeginsOrdered(s: State)
    requires Begins(s)
    ensures Ordered(s, Waiting(s), 0)
  {
    assert Replies(s.posted) == [];
    assert [] + Ids(InFlight(s)) == Ids(InFlight(s));
    if s.orphan.Some? {
      IdsFirst(s.current.value, s.queued);
    } else {
      assert [] + Waiting(s) == Waiting(s);
    }
    hide Replies;
  }

  lemma NextOrdered(s: State, event: Event, parse: Text -> Option<Frame>, reaches: nat -> bool, accepted: seq<nat>, k: nat)
    requires Ordered(s, accepted, k)
    ensures var now := Next(s, event, parse, reaches);
            && Ordered(now, accepted + (if event.Asks? then [event.request.id] else []),
                       if event.Asks? && Overtakes(s, event.request) then 1 else k)
            && (Crossed(now) ==> !event.Asks? && Crossed(s) && now.completed == s.completed)
  {
    hide Ordered, Enqueued, Heard, RunNext, Keeps, Crossed, Overtakes;
    assert accepted + [] == accepted;
    match event
    case Asks(request) => EnqueuedOrdered(s, request, reaches, accepted, k);
    case Hears(text) =>
      HeardKeeps(s, text, parse, reaches);
      KeptOrdered(s, Heard(s, text, parse, reaches), accepted, k);
    case Resumes =>
      RunNextKeeps(s, reaches);
      KeptOrdered(s, RunNext(s, reaches), accepted, k);
  }

  /** The code the first accepted request asks to run. */
  function FirstCode(events: seq<Event>): Option<Text> {
    if events == [] then None
    else if events[0].Asks? then Some(events[0].request.code)
    else FirstCode(events[1..])
  }

  /** A resume brought back, running, a cell this page has on record as finished, and the
      first request is for that record. */
  predicate Crosses(s: State, events: seq<Event>) {
    Crossed(s) && FirstCode(events) == Some(s.completed.value.code)
  }

  lemma {:induction false} AfterOrdered(
      s: State, events: seq<Event>, parse: Text -> Option<Frame>, reaches: nat -> bool, accepted: seq<nat>, k: nat)
    returns (at: nat)
    requires Ordered(s, accepted, k)
    ensures Ordered(After(s, events, parse, reaches), accepted + Accepted(events), at)
    ensures at == k || (at == 1 && Crosses(s, events))
    decreases |events|
  {
    if events == [] {
      assert accepted + [] == accepted;
      at := k;
    } else {
      hide Ordered, Next;
      NextOrdered(s, events[0], parse, reaches, accepted, k);
      var first := if events[0].Asks? then [events[0].request.id] else [];
      at := AfterOrdered(Next(s, events[0], parse, reaches), events[1..], parse, reaches, accepted + first,
                         if events[0].Asks? && Overtakes(s, events[0].request) then 1 else k);
      Associative(accepted, first, Accepted(events[1..]));
    }
  }

  /** In every epoch, at every point: the requests replied to, the current one and the queued
      ones are, in this order, those the epoch began with and then the accepted ones, each
      once. The orphan, if nobody took it over, comes before all of them, or after the first
      one when that was answered from the record of a cell that finished before the resume
      brought it back. And the guest has at most one exec frame it has not answered. */
  lemma AnsweredOnceInOrder(s: State, events: seq<Event>, parse: Text -> Option<Frame>, reaches: nat -> bool)
    requires Begins(s)
    ensures var now := After(s, events, parse, reaches);
            var asked := Waiting(s) + Accepted(events);
            && (exists k :: 0 <= k <= |asked| && (k == 0 || (k == 1 && Crosses(s, events))) &&
                  Replies(now.posted) + Ids(InFlight(now)) == Placed(asked, k, Lead(now)))
            && 0 <= |now.frames| + Restored(s) - now.dones <= 1
            && now.ticking == now.current.Some?
  {
    hide After, Replies, Ids, Accepted, Placed;
    BeginsOrdered(s);
    var k := AfterOrdered(s, events, parse, reaches, Waiting(s), 0);
    AnsweredOnce(s, events, parse, reaches);
  }

  /** When the guest is replaced, everything the epoch began with or accepted has been replied
      to, in that order. */
  lemma AllFailedAnswersAll(s: State, events: seq<Event>, parse: Text -> Option<Frame>, reaches: nat -> bool, reason: Text)
    requires Begins(s)
    ensures var now := After(s, events, parse, reaches);
            var failed := AllFailed(now, reason);
            var asked := Waiting(s) + Accepted(events);
            && (exists k :: 0 <= k <= |asked| && (k == 0 || (k == 1 && Crosses(s, events))) &&
                  Replies(failed.posted) == Placed(asked, k, Lead(now)))
            && InFlight(failed) == [] && !failed.ticking && !failed.rebindPending
  {
    var now := After(s, events, parse, reaches);
    AnsweredOnceInOrder(s, events, parse, reaches);
    hide After, Placed, Crosses;
    var emptied := now.(current := None, queued := [], partialLine := [], outputTail := [], error := None);
    var cleared := ClearedRebind(emptied, None);
    Quiet(emptied, [PendingCleared(now.completed.Some?)]);
    hide Replies;
    RefusalReplies(InFlight(now), reason, now.executionCount);
    RepliesAppend(cleared.posted, Refusals(InFlight(now), reason, now.executionCount));
  }

  /** What is posted when the guest is replaced is, to each cell in flight, in order, that the
      kernel restarted, and why. */
  lemma AllFailedSays(s: State, reason: Text) returns (cleared: seq<Posted>, refusals: seq<Posted>)
    ensures AllFailed(s, reason).posted == s.posted + (cleared + refusals)
    ensures forall m :: m in cleared ==> m.PendingCleared?
    ensures |refusals| == 2 * |InFlight(s)|
    ensures forall i :: 0 <= i < |InFlight(s)| ==>
              && refusals[2 * i] == Reply(InFlight(s)[i].id, Some(Trouble(Literal("KernelRestarted"), reason, [])), s.executionCount)
              && refusals[2 * i + 1] == Idle(InFlight(s)[i].id)
  {
    refusals := Refusals(InFlight(s), reason, s.executionCount);
    cleared := if s.rebindPending then [PendingCleared(s.completed.Some?)] else [];
    RefusedWhy(InFlight(s), reason, s.executionCount);
    hide Refusals, Literal;
    Associative(s.posted, cleared, refusals);
    assert s.posted + [] == s.posted;
  }

  lemma {:induction false} RefusedWhy(cells: seq<Request>, reason: Text, count: int)
    ensures |Refusals(cells, reason, count)| == 2 * |cells|
    ensures forall i :: 0 <= i < |cells| ==>
              && Refusals(cells, reason, count)[2 * i] == Reply(cells[i].id, Some(Trouble(Literal("KernelRestarted"), reason, [])), count)
              && Refusals(cells, reason, count)[2 * i + 1] == Idle(cells[i].id)
  {
    hide Literal;
    if cells != [] {
      RefusedWhy(cells[1..], reason, count);
      var rest := Refusals(cells[1..], reason, count);
      assert Refusals(cells, reason, count)[2..] == rest;
      forall i | 0 < i < |cells|
        ensures Refusals(cells, reason, count)[2 * i] == rest[2 * (i - 1)]
        ensures Refusals(cells, reason, count)[2 * i + 1] == rest[2 * (i - 1) + 1]
      {
      }
    }
  }

  lemma RecordOvertakes(s: State, request: Request, parse: Text -> Option<Frame>, reaches: nat -> bool)
    requires Begins(s) && Overtakes(s, request)
    ensures Crosses(s, [Asks(request)])
    ensures s.orphan.Some? && Line(After(s, [Asks(request)], parse, reaches)) == [request.id, s.orphan.value]
  {
    var events := [Asks(request)];
    assert events[1..] == [] && After(s, events, parse, reaches) == FromRecord(s, request);
    FromRecordLine(s, request);
    hide FromRecord;
    IdsFirst(s.current.value, []);
    NoIds();
    assert InFlight(s) == [s.current.value] + [];
  }

  lemma {:induction false} RefusalReplies(cells: seq<Request>, reason: Text, count: int)
    ensures Replies(Refusals(cells, reason, count)) == Ids(cells)
  {
    if cells != [] {
      RefusalReplies(cells[1..], reason, count);
      var two := [Reply(cells[0].id, Some(Trouble(Restarting(), reason, [])), count), Idle(cells[0].id)];
      RepliesAppend(two, Refusals(cells[1..], reason, count));
      assert two[1..] == [Idle(cells[0].id)] && two[1..][1..] == [];
      assert Replies(two) == [cells[0].id];
      assert cells == [cells[0]] + cells[1..];
      IdsFirst(cells[0], cells[1..]);
    }
  }

  // ---- the restored cell ----

  /** The restored cell still runs and waits to be taken over, or has ended and waits to be
      asked for; the guest got nothing since. */
  ghost predicate Waits(s: State, cell: Request) {
    && s.frames == [] && s.queued == []
    && ((s.rebindPending && s.completed.None? && s.current == Some(cell))
        || (!s.rebindPending && s.completed.Some? && s.completed.value.code == cell.code))
  }

  lemma LineWaits(s: State, line: Text, parse: Text -> Option<Frame>, reaches: nat -> bool, cell: Request)
    requires Waits(s, cell)
    ensures Waits(LineHandled(s, line, parse, reaches), cell)
  {
    hide Trim, Remembered;
  }

  lemma WaitsAside(s: State, text: Text, cell: Request)
    ensures Waits(s.(partialLine := text), cell) == Waits(s, cell)
  {
  }

  lemma {:induction false} LinesWait(s: State, parse: Text -> Option<Frame>, reaches: nat -> bool, cell: Request)
    requires Waits(s, cell)
    ensures Waits(LinesHandled(s, parse, reaches), cell)
    decreases |s.partialLine|
  {
    hide LineHandled, Waits;
    var at := IndexOf(s.partialLine, NEWLINE);
    if at < |s.partialLine| {
      var rest := s.partialLine[at + 1..];
      var next := LineHandled(s.(partialLine := rest), s.partialLine[..at], parse, reaches);
      WaitsAside(s, rest, cell);
      LineWaits(s.(partialLine := rest), s.partialLine[..at], parse, reaches, cell);
      WaitsAside(next, rest, cell);
      LinesWait(next.(partialLine := rest), parse, reaches, cell);
    }
  }

  lemma {:induction false} TextsWait(s: State, texts: seq<Text>, parse: Text -> Option<Frame>, reaches: nat -> bool, cell: Request)
    requires Waits(s, cell)
    ensures Waits(After(s, Hearing(texts), parse, reaches), cell)
    decreases |texts|
  {
    hide Heard, LinesHandled;
    if texts != [] {
      HeardWaits(s, texts[0], parse, reaches, cell);
      assert Hearing(texts)[1..] == Hearing(texts[1..]);
      TextsWait(Heard(s, texts[0], parse, reaches), texts[1..], parse, reaches, cell);
    }
  }

  lemma HeardWaits(s: State, text: Text, parse: Text -> Option<Frame>, reaches: nat -> bool, cell: Request)
    requires Waits(s, cell)
    ensures Waits(Heard(s, text, parse, reaches), cell)
  {
    hide LinesHandled, Waits;
    WaitsAside(s, s.partialLine + text, cell);
    LinesWait(s.(partialLine := s.partialLine + text), parse, reaches, cell);
  }

  function Hearing(texts: seq<Text>): (events: seq<Event>)
    ensures |events| == |texts|
  {
    seq(|texts|, i requires 0 <= i < |texts| => Hears(texts[i]))
  }

  /** The page waits for a re-run of this code: of a cell still running, or of a finished one. */
  predicate Awaits(s: State, code: Text) {
    (s.rebindPending && s.current.Some? && s.current.value.code == code) || (s.completed.Some? && s.completed.value.code == code)
  }

  /** Whatever the guest says before, a re-run of the restored cell that comes first is
      bound to it, while it runs, or else answered once from the record; either way the
      guest is not asked to run it again. */
  lemma RerunIsNotRunAgain(
      s: State, texts: seq<Text>, request: Request, parse: Text -> Option<Frame>, reaches: nat -> bool)
    requires Begins(s) && Awaits(s, request.code)
    ensures var before := After(s, Hearing(texts), parse, reaches);
            var now := Enqueued(before, request, reaches);
            && now.frames == [] && now.queued == []
            && (before.rebindPending ==> now.current == Some(request) && Replies(now.posted) == Replies(before.posted))
            && (!before.rebindPending ==> now.current == before.current && Replies(now.posted) == Replies(before.posted) + [request.id])
            && !now.rebindPending && now.completed.None?
  {
    var cell := if s.rebindPending then s.current.value else request;
    assert Waits(s, cell);
    hide *;
    TextsWait(s, texts, parse, reaches, cell);
    RerunTaken(After(s, Hearing(texts), parse, reaches), cell, request, reaches);
  }

  lemma RerunTaken(before: State, cell: Request, request: Request, reaches: nat -> bool)
    requires Waits(before, cell) && request.code == cell.code
    ensures var now := Enqueued(before, request, reaches);
            && now.frames == [] && now.queued == []
            && (before.rebindPending ==> now.current == Some(request) && Replies(now.posted) == Replies(before.posted))
            && (!before.rebindPending ==> now.current == before.current && Replies(now.posted) == Replies(before.posted) + [request.id])
            && !now.rebindPending && now.completed.None?
  {
    hide Replies, Replayed, RunNext;
    if Rebinds(before, request) {
      Quiet(before, [Busy(request.id)] + Inputs(request, before.executionCount + 1)
                    + if request.silent then [] else Replayed(request.id, before.outputTail, before.executionCount + 1));
    } else {
      var done := before.completed.value;
      OneReply(before, [Busy(request.id)] + Inputs(request, done.count)
                       + (if request.silent then [] else Replayed(request.id, done.outputTail, done.count)),
               Reply(request.id, done.error, done.count), Idle(request.id));
    }
  }

  // ---- the guest's output in any chunks ----

  lemma SaidHeedless(s: State, chunk: Chunk, text: Text)
    ensures Said(s.(partialLine := text), chunk) == Said(s, chunk).(partialLine := text)
  {
    hide Remembered;
  }

  lemma AnsweredHeedless(s: State, count: int, text: Text)
    ensures Answered(s.(partialLine := text), count) == Answered(s, count).(partialLine := text)
  {
  }

  lemma UnreachedHeedless(s: State, text: Text)
    requires s.queued != []
    ensures Unreached(s.(partialLine := text)) == Unreached(s).(partialLine := text)
    ensures Given(s.(partialLine := text)) == Given(s).(partialLine := text)
  {
    hide Said, Answered, Inputs;
    var begun := Begun(s).(writes := s.writes + 1);
    SaidHeedless(begun, Failure(Unreachable()), text);
    var failed := Said(begun, Failure(Unreachable()));
    AnsweredHeedless(failed, failed.executionCount + 1, text);
  }

  lemma {:induction false} RunNextHeedless(s: State, reaches: nat -> bool, text: Text)
    ensures RunNext(s.(partialLine := text), reaches) == RunNext(s, reaches).(partialLine := text)
    decreases |s.queued|
  {
    hide Given, Unreached;
    if s.live && s.current.None? && s.queued != [] {
      UnreachedHeedless(s, text);
      if !reaches(s.writes) {
        RunNextHeedless(Unreached(s), reaches, text);
      }
    }
  }

  lemma HandledHeedless(s: State, frame: Frame, reaches: nat -> bool, text: Text)
    ensures Handled(s.(partialLine := text), frame, reaches) == Handled(s, frame, reaches).(partialLine := text)
  {
    hide RunNext, Said, Answered;
    match frame
    case Ready =>
    case Unknown =>
    case Says(chunk) => SaidHeedless(s, chunk, text);
    case Done(count) =>
      AnsweredHeedless(s, count, text);
      RunNextHeedless(Answered(s, count).(dones := s.dones + 1), reaches, text);
  }

  /** What a line does has nothing to do with what of the next one is there. */
  lemma LineHeedless(s: State, line: Text, parse: Text -> Option<Frame>, reaches: nat -> bool, text: Text)
    ensures LineHandled(s.(partialLine := text), line, parse, reaches)
         == LineHandled(s, line, parse, reaches).(partialLine := text)
  {
    hide Trim, Handled, Said;
    if parse(line).Some? {
      HandledHeedless(s, parse(line).value, reaches, text);
    } else {
      SaidHeedless(s, Stream(Stderr, line + [NEWLINE]), text);
    }
  }

  /** The first whole line is handled, and then the rest. */
  lemma LinesFirst(s: State, line: Text, rest: Text, parse: Text -> Option<Frame>, reaches: nat -> bool)
    requires s.partialLine == line + [NEWLINE] + rest && NEWLINE !in line
    ensures LinesHandled(s, parse, reaches) == LinesHandled(LineHandled(s, line, parse, reaches).(partialLine := rest), parse, reaches)
  {
    hide LineHandled, IndexOf;
    assert s.partialLine[..|line|] == line && s.partialLine[|line| + 1..] == rest;
    IndexOfIs(s.partialLine, NEWLINE, |line|);
    LineHeedless(s, line, parse, reaches, rest);
  }

  lemma {:induction false} LinesThenMore(s: State, more: Text, parse: Text -> Option<Frame>, reaches: nat -> bool)
    ensures Heard(LinesHandled(s, parse, reaches), more, parse, reaches) == Heard(s, more, parse, reaches)
    decreases |s.partialLine|
  {
    var text := s.partialLine;
    if NEWLINE in text {
      var line, rest := SplitFirst(text, NEWLINE);
      var longer := s.(partialLine := text + more);
      var next := LineHandled(s, line, parse, reaches).(partialLine := rest);
      assert text + more == line + [NEWLINE] + (rest + more);
      LinesFirst(s, line, rest, parse, reaches);
      LinesFirst(longer, line, rest + more, parse, reaches);
      LineHeedless(s, line, parse, reaches, text + more);
      hide LineHandled, LinesHandled;
      LinesThenMore(next, more, parse, reaches);
    }
  }

  /** However the guest's output is cut into chunks, it comes to the same. */
  lemma AnyChunks(s: State, a: Text, b: Text, parse: Text -> Option<Frame>, reaches: nat -> bool)
    ensures Heard(Heard(s, a, parse, reaches), b, parse, reaches) == Heard(s, a + b, parse, reaches)
  {
    LinesThenMore(s.(partialLine := s.partialLine + a), b, parse, reaches);
    Associative(s.partialLine, a, b);
    hide LinesHandled;
  }

  // ---- what a cell's notebook sees ----

  /** What a line that ends no cell adds to the running cell's output: its chunk, when it is
      a frame of one; or the line itself, when it is no frame. */
  function ChunksOf(line: Text, parse: Text -> Option<Frame>): seq<Chunk> {
    if Trim(line) == [] then []
    else
      match parse(line)
      case None => [Stream(Stderr, line + [NEWLINE])]
      case Some(Says(chunk)) => [chunk]
      case Some(_) => []
  }

  predicate EndsCell(line: Text, parse: Text -> Option<Frame>) {
    Trim(line) != [] && parse(line).Some? && parse(line).value.Done?
  }

  function Chunks(lines: seq<Text>, parse: Text -> Option<Frame>): seq<Chunk> {
    if lines == [] then [] else ChunksOf(lines[0], parse) + Chunks(lines[1..], parse)
  }

  /** The lines as the guest writes them. */
  function Terminated(lines: seq<Text>): Text {
    if lines == [] then [] else lines[0] + [NEWLINE] + Terminated(lines[1..])
  }

  /** Whole lines that do not end the running cell. */
  predicate Running(lines: seq<Text>, parse: Text -> Option<Frame>) {
    forall i :: 0 <= i < |lines| ==> NEWLINE !in lines[i] && !EndsCell(lines[i], parse)
  }

  /** The last trouble among these chunks, or, of none, the one there was. */
  ghost predicate LastTrouble(before: Option<Trouble>, chunks: seq<Chunk>, trouble: Option<Trouble>) {
    || (trouble == before && forall i :: 0 <= i < |chunks| ==> !chunks[i].Failure?)
    || (exists i :: 0 <= i < |chunks| && chunks[i].Failure? && trouble == Some(chunks[i].trouble)
                    && forall j :: i < j < |chunks| ==> !chunks[j].Failure?)
  }

  /** What a cell's notebook sees first: that it is busy, and its input, unless it is silent
      or not to be stored. */
  function Opening(cell: Request, count: int): seq<Posted> {
    [Busy(cell.id)] + if cell.silent || !cell.storeHistory then [] else [Input(cell.id, cell.code, count)]
  }

  /** Its output, chunk by chunk, unless it is silent. */
  function Shown(cell: Request, chunks: seq<Chunk>, count: int): (r: seq<Posted>)
    ensures |r| == if cell.silent then 0 else |chunks|
    ensures !cell.silent ==> forall i :: 0 <= i < |chunks| ==> r[i] == Output(cell.id, chunks[i], count)
  {
    if cell.silent then [] else Replayed(cell.id, chunks, count)
  }

  /** What is kept of the output when these chunks come after it. */
  function Kept(tail: seq<Chunk>, chunks: seq<Chunk>): seq<Chunk>
    decreases |chunks|
  {
    if chunks == [] then tail else Kept(Remembered(tail, chunks[0]), chunks[1..])
  }

  /** Posted for one of these requests. */
  predicate ForOne(m: Posted, ids: seq<nat>) {
    !m.PendingCleared? && !m.Note? && m.parent in ids
  }

  function LinesAfter(s: State, lines: seq<Text>, parse: Text -> Option<Frame>, reaches: nat -> bool): State
    decreases |lines|
  {
    if lines == [] then s else LinesAfter(LineHandled(s, lines[0], parse, reaches), lines[1..], parse, reaches)
  }

  /** Text of whole lines comes to those lines, one after the other. */
  lemma {:induction false} WholeLines(s: State, lines: seq<Text>, parse: Text -> Option<Frame>, reaches: nat -> bool)
    requires s.partialLine == Terminated(lines) && forall i :: 0 <= i < |lines| ==> NEWLINE !in lines[i]
    ensures LinesHandled(s, parse, reaches) == LinesAfter(s.(partialLine := []), lines, parse, reaches)
    decreases |lines|
  {
    if lines != [] {
      var rest := Terminated(lines[1..]);
      LinesFirst(s, lines[0], rest, parse, reaches);
      LineHeedless(s, lines[0], parse, reaches, []);
      hide LineHandled, LinesHandled, Terminated;
      WholeLines(LineHandled(s, lines[0], parse, reaches).(partialLine := rest), lines[1..], parse, reaches);
    }
  }

  lemma LineShows(s: State, line: Text, parse: Text -> Option<Frame>, reaches: nat -> bool)
    requires s.current.Some? && !EndsCell(line, parse)
    ensures var chunks := ChunksOf(line, parse);
            var now := LineHandled(s, line, parse, reaches);
            now == Heeded(s, chunks, now.error) && LastTrouble(s.error, chunks, now.error)
  {
    hide Trim, Said, Heeded, LastTrouble;
    var chunks := ChunksOf(line, parse);
    if chunks == [] {
      HeededNothing(s);
    } else {
      SaidHeeded(s, chunks[0]);
    }
  }

  lemma SaidHeeded(s: State, chunk: Chunk)
    requires s.current.Some?
    ensures var now := Said(s, chunk);
            now == Heeded(s, [chunk], now.error) && LastTrouble(s.error, [chunk], now.error)
  {
    hide Remembered;
    assert [chunk][1..] == [] && [chunk][0] == chunk;
    assert Kept(s.outputTail, [chunk]) == Remembered(s.outputTail, chunk);
    assert Replayed(s.current.value.id, [chunk], s.executionCount + 1) == [Output(s.current.value.id, chunk, s.executionCount + 1)];
    assert s.posted + [] == s.posted;
  }

  lemma {:induction false} KeptThen(tail: seq<Chunk>, a: seq<Chunk>, b: seq<Chunk>)
    ensures Kept(tail, a + b) == Kept(Kept(tail, a), b)
    decreases |a|
  {
    hide Remembered;
    if a == [] {
      assert a + b == b;
    } else {
      assert (a + b)[0] == a[0] && (a + b)[1..] == a[1..] + b;
      KeptThen(Remembered(tail, a[0]), a[1..], b);
    }
  }

  lemma ShownThen(cell: Request, a: seq<Chunk>, b: seq<Chunk>, count: int)
    ensures Shown(cell, a + b, count) == Shown(cell, a, count) + Shown(cell, b, count)
  {
    hide Replayed;
  }

  lemma TroubleThen(before: Option<Trouble>, a: seq<Chunk>, b: seq<Chunk>, between: Option<Trouble>, trouble: Option<Trouble>)
    requires LastTrouble(before, a, between) && LastTrouble(between, b, trouble)
    ensures LastTrouble(before, a + b, trouble)
  {
    var all := a + b;
    if i :| 0 <= i < |b| && b[i].Failure? && trouble == Some(b[i].trouble) && forall j :: i < j < |b| ==> !b[j].Failure? {
      assert all[|a| + i] == b[i];
    } else if i :| 0 <= i < |a| && a[i].Failure? && between == Some(a[i].trouble) && forall j :: i < j < |a| ==> !a[j].Failure? {
      assert all[i] == a[i];
    }
  }

  /** The state once the running cell has put out these chunks, the last trouble being this. */
  function Heeded(s: State, chunks: seq<Chunk>, trouble: Option<Trouble>): State
    requires s.current.Some?
  {
    s.(posted := s.posted + Shown(s.current.value, chunks, s.executionCount + 1),
       outputTail := Kept(s.outputTail, chunks), error := trouble)
  }

  lemma HeededThen(s: State, a: seq<Chunk>, b: seq<Chunk>, between: Option<Trouble>, trouble: Option<Trouble>)
    requires s.current.Some?
    ensures Heeded(Heeded(s, a, between), b, trouble) == Heeded(s, a + b, trouble)
  {
    hide Kept, Shown;
    KeptThen(s.outputTail, a, b);
    ShownThen(s.current.value, a, b, s.executionCount + 1);
    Associative(s.posted, Shown(s.current.value, a, s.executionCount + 1), Shown(s.current.value, b, s.executionCount + 1));
  }

  lemma HeededNothing(s: State)
    requires s.current.Some?
    ensures Heeded(s, [], s.error) == s && LastTrouble(s.error, [], s.error)
  {
    assert s.posted + [] == s.posted;
  }

  /** While a cell runs, its notebook sees exactly what the guest says of it, in order; the
      output's end is kept, and the last trouble. */
  lemma {:induction false} LinesShow(s: State, lines: seq<Text>, parse: Text -> Option<Frame>, reaches: nat -> bool)
    requires s.current.Some? && Running(lines, parse)
    ensures var now := LinesAfter(s, lines, parse, reaches);
            now == Heeded(s, Chunks(lines, parse), now.error) && LastTrouble(s.error, Chunks(lines, parse), now.error)
    decreases |lines|
  {
    hide LineHandled, LastTrouble, EndsCell, ChunksOf, Heeded;
    if lines == [] {
      HeededNothing(s);
    } else {
      var next := LineHandled(s, lines[0], parse, reaches);
      var a, b := ChunksOf(lines[0], parse), Chunks(lines[1..], parse);
      LineShows(s, lines[0], parse, reaches);
      HeededRuns(s, a, next.error);
      LinesShow(next, lines[1..], parse, reaches);
      var now := LinesAfter(s, lines, parse, reaches);
      HeededThen(s, a, b, next.error, now.error);
      TroubleThen(s.error, a, b, next.error, now.error);
    }
  }

  lemma HeededRuns(s: State, chunks: seq<Chunk>, trouble: Option<Trouble>)
    requires s.current.Some?
    ensures var now := Heeded(s, chunks, trouble);
            && now.current == s.current && now.error == trouble && now.executionCount == s.executionCount
            && now.posted == s.posted + Shown(s.current.value, chunks, s.executionCount + 1)
            && now.outputTail == Kept(s.outputTail, chunks) && now.queued == s.queued
            && now.rebindPending == s.rebindPending && now.completed == s.completed && now.partialLine == s.partialLine
  {
    hide Shown, Kept;
  }

  lemma {:induction false} AfterThen(s: State, a: seq<Text>, b: seq<Text>, parse: Text -> Option<Frame>, reaches: nat -> bool)
    ensures LinesAfter(s, a + b, parse, reaches) == LinesAfter(LinesAfter(s, a, parse, reaches), b, parse, reaches)
    decreases |a|
  {
    hide LineHandled;
    if a == [] {
      assert a + b == b;
    } else {
      assert (a + b)[0] == a[0] && (a + b)[1..] == a[1..] + b;
      AfterThen(LineHandled(s, a[0], parse, reaches), a[1..], b, parse, reaches);
    }
  }

  lemma SaidPosts(s: State, chunk: Chunk)
    requires s.current.Some?
    ensures var r := Said(s, chunk);
            && r.posted == s.posted + Shown(s.current.value, [chunk], s.executionCount + 1)
            && r == s.(posted := r.posted, outputTail := r.outputTail, error := r.error)
            && (chunk.Failure? ==> r.error == Some(chunk.trouble))
  {
    hide Remembered;
    assert Replayed(s.current.value.id, [chunk], s.executionCount + 1) == [Output(s.current.value.id, chunk, s.executionCount + 1)];
    assert s.posted + [] == s.posted;
  }

  /** What a cell's notebook sees once it has begun: its output; then one reply, with this
      count and the trouble, if any; and that the kernel is idle. */
  function Told(cell: Request, number: int, chunks: seq<Chunk>, trouble: Option<Trouble>, count: int): seq<Posted> {
    Shown(cell, chunks, number) + [Reply(cell.id, trouble, count), Idle(cell.id)]
  }

  /** All that it sees of it. */
  function Story(cell: Request, number: int, chunks: seq<Chunk>, trouble: Option<Trouble>, count: int): seq<Posted> {
    Opening(cell, number) + Told(cell, number, chunks, trouble, count)
  }

  /** Of a cell that the guest never gets: its failure, and the answer that it failed. */
  function Lost(cell: Request, number: int): seq<Posted> {
    Story(cell, number, [Failure(Unreachable())], Some(Unreachable()), number)
  }

  lemma UnreachedPosts(s: State)
    requires s.queued != [] && !s.rebindPending
    ensures Unreached(s).posted == s.posted + Lost(s.queued[0], s.executionCount + 1)
    ensures !Unreached(s).rebindPending && Unreached(s).executionCount == s.executionCount + 1
  {
    var cell := s.queued[0];
    var begun := Begun(s).(writes := s.writes + 1);
    var failed := Said(begun, Failure(Unreachable()));
    SaidPosts(begun, Failure(Unreachable()));
    hide Said, Shown, Unreachable;
    var shown := Shown(cell, [Failure(Unreachable())], s.executionCount + 1);
    var reply := [Reply(cell.id, Some(Unreachable()), s.executionCount + 1), Idle(cell.id)];
    assert begun.posted == s.posted + Opening(cell, s.executionCount + 1);
    hide Opening;
    Associative(s.posted, Opening(cell, s.executionCount + 1), shown);
    Associative(s.posted, Opening(cell, s.executionCount + 1) + shown, reply);
  }

  lemma LostForOne(cell: Request, count: int, ids: seq<nat>)
    requires cell.id in ids
    ensures forall m :: m in Lost(cell, count) ==> ForOne(m, ids)
  {
    hide Unreachable, Replayed;
  }

  /** What running the next cells posts is posted for them. */
  lemma {:induction false} RunNextPosts(s: State, reaches: nat -> bool) returns (later: seq<Posted>)
    requires !s.rebindPending
    ensures RunNext(s, reaches).posted == s.posted + later
    ensures forall m :: m in later ==> ForOne(m, Ids(s.queued))
    decreases |s.queued|
  {
    hide Unreached, Begun, Opening, Lost;
    later := [];
    if s.live && s.current.None? && s.queued != [] {
      var cell := s.queued[0];
      assert Ids(s.queued)[0] == cell.id;
      if reaches(s.writes) {
        later := Opening(cell, s.executionCount + 1);
        BegunPosts(s);
      } else {
        UnreachedPosts(s);
        LostForOne(cell, s.executionCount + 1, Ids(s.queued));
        var rest := RunNextPosts(Unreached(s), reaches);
        Associative(s.posted, Lost(cell, s.executionCount + 1), rest);
        assert forall id :: id in Ids(s.queued[1..]) ==> id in Ids(s.queued) by { IdsOfRest(s.queued); }
        later := Lost(cell, s.executionCount + 1) + rest;
      }
    }
  }

  lemma IdsOfRest(queued: seq<Request>)
    requires queued != []
    ensures forall id :: id in Ids(queued[1..]) ==> id in Ids(queued)
  {
    assert forall i :: 0 <= i < |queued| - 1 ==> Ids(queued[1..])[i] == Ids(queued)[i + 1];
  }

  lemma BegunPosts(s: State)
    requires s.queued != []
    ensures Begun(s).posted == s.posted + Opening(s.queued[0], s.executionCount + 1)
    ensures forall m :: m in Opening(s.queued[0], s.executionCount + 1) ==> ForOne(m, Ids(s.queued))
  {
    assert Ids(s.queued)[0] == s.queued[0].id;
  }

  /** The guest is idle and will get the next cell. */
  predicate Gives(s: State, reaches: nat -> bool) {
    s.live && s.current.None? && s.queued != [] && Sound(s) && s.partialLine == [] && reaches(s.writes)
  }

  /** The line of a done frame. */
  predicate IsDone(done: Text, count: int, parse: Text -> Option<Frame>) {
    NEWLINE !in done && Trim(done) != [] && parse(done) == Some(Done(count))
  }

  /** A cell the guest gets, from its beginning to its done frame, whatever the guest says in
      between: its notebook sees it begin; then, unless it is silent, exactly its output, in
      order; then one reply, with the count of the done frame and the last trouble since it
      began, if there was any. What is posted after that is for the cells behind it. */
  lemma CellAnswered(s: State, cell: Request, behind: seq<Request>, lines: seq<Text>, done: Text, count: int,
                     parse: Text -> Option<Frame>, reaches: nat -> bool)
    returns (trouble: Option<Trouble>, later: seq<Posted>)
    requires s.queued == [cell] + behind && Gives(s, reaches) && Running(lines, parse) && IsDone(done, count, parse)
    ensures RunNext(s, reaches).current == Some(cell) && RunNext(s, reaches).frames == s.frames + [cell.code]
    ensures LastTrouble(None, Chunks(lines, parse), trouble)
    ensures Heard(RunNext(s, reaches), Terminated(lines + [done]), parse, reaches).posted
         == s.posted + (Story(cell, s.executionCount + 1, Chunks(lines, parse), trouble, count) + later)
    ensures forall m :: m in later ==> ForOne(m, Ids(behind))
  {
    hide *;
    var begun := RunNext(s, reaches);
    GivenIs(s, reaches);
    assert s.queued[1..] == behind;
    trouble, later := RunningAnswered(begun, lines, done, count, parse, reaches);
    StoryIs(s.posted, cell, s.executionCount + 1, Chunks(lines, parse), trouble, count, later);
  }

  lemma StoryIs(before: seq<Posted>, cell: Request, number: int, chunks: seq<Chunk>, trouble: Option<Trouble>, count: int,
                later: seq<Posted>)
    ensures before + Opening(cell, number) + (Told(cell, number, chunks, trouble, count) + later)
         == before + (Story(cell, number, chunks, trouble, count) + later)
  {
    hide Opening, Told;
    Associative(before, Opening(cell, number), Told(cell, number, chunks, trouble, count) + later);
    Associative(Opening(cell, number), Told(cell, number, chunks, trouble, count), later);
  }

  /** What a cell the guest gets begins with. */
  lemma GivenIs(s: State, reaches: nat -> bool)
    requires Gives(s, reaches)
    ensures s.queued != []
    ensures var begun := RunNext(s, reaches);
            && begun.current == Some(s.queued[0]) && begun.queued == s.queued[1..] && begun.frames == s.frames + [s.queued[0].code]
            && begun.error.None? && begun.partialLine == [] && !begun.rebindPending
            && begun.executionCount == s.executionCount
            && begun.posted == s.posted + Opening(s.queued[0], s.executionCount + 1)
  {
    BegunPosts(s);
    hide Opening;
  }

  /** A running cell that nobody waits to take over, to its done frame. */
  lemma RunningAnswered(s: State, lines: seq<Text>, done: Text, count: int, parse: Text -> Option<Frame>, reaches: nat -> bool)
    returns (trouble: Option<Trouble>, later: seq<Posted>)
    requires s.current.Some? && !s.rebindPending && s.partialLine == []
    requires Running(lines, parse) && IsDone(done, count, parse)
    ensures LastTrouble(s.error, Chunks(lines, parse), trouble)
    ensures Heard(s, Terminated(lines + [done]), parse, reaches).posted
         == s.posted + (Told(s.current.value, s.executionCount + 1, Chunks(lines, parse), trouble, count) + later)
    ensures forall m :: m in later ==> ForOne(m, Ids(s.queued))
  {
    var all := lines + [done];
    hide Shown, LastTrouble, Chunks;
    assert s.partialLine + Terminated(all) == Terminated(all);
    WholeLines(s.(partialLine := Terminated(all)), all, parse, reaches);
    AfterThen(s, lines, [done], parse, reaches);
    LinesShow(s, lines, parse, reaches);
    var heard := LinesAfter(s, lines, parse, reaches);
    HeededRuns(s, Chunks(lines, parse), heard.error);
    assert [done][1..] == [];
    trouble := heard.error;
    later := DonePosts(heard, done, count, parse, reaches);
    assert LinesAfter(heard, [done], parse, reaches) == LineHandled(heard, done, parse, reaches);
    hide LinesAfter, LineHandled, Terminated, Heard;
    Associative(s.posted, Shown(s.current.value, Chunks(lines, parse), s.executionCount + 1),
                [Reply(s.current.value.id, trouble, count), Idle(s.current.value.id)] + later);
    Associative(Shown(s.current.value, Chunks(lines, parse), s.executionCount + 1),
                [Reply(s.current.value.id, trouble, count), Idle(s.current.value.id)], later);
  }

  lemma DonePosts(s: State, done: Text, count: int, parse: Text -> Option<Frame>, reaches: nat -> bool) returns (later: seq<Posted>)
    requires s.current.Some? && !s.rebindPending && IsDone(done, count, parse)
    ensures LineHandled(s, done, parse, reaches).posted
         == s.posted + ([Reply(s.current.value.id, s.error, count), Idle(s.current.value.id)] + later)
    ensures forall m :: m in later ==> ForOne(m, Ids(s.queued))
  {
    var answered := Answered(s, count).(dones := s.dones + 1);
    AnsweredPosts(s, count);
    DoneIs(s, done, count, parse, reaches);
    hide *;
    later := RunNextPosts(answered, reaches);
    Associative(s.posted, [Reply(s.current.value.id, s.error, count), Idle(s.current.value.id)], later);
  }

  lemma DoneIs(s: State, done: Text, count: int, parse: Text -> Option<Frame>, reaches: nat -> bool)
    requires s.current.Some? && IsDone(done, count, parse)
    ensures LineHandled(s, done, parse, reaches) == RunNext(Answered(s, count).(dones := s.dones + 1), reaches)
  {
    hide Trim, Answered, RunNext;
  }

  lemma AnsweredPosts(s: State, count: int)
    requires s.current.Some? && !s.rebindPending
    ensures var now := Answered(s, count);
            && now.posted == s.posted + [Reply(s.current.value.id, s.error, count), Idle(s.current.value.id)]
            && !now.rebindPending && now.queued == s.queued
  {
  }

  /** A cell the guest cannot be given is told so: its failure is its output and its answer. */
  lemma CellUnreached(s: State, cell: Request, behind: seq<Request>, reaches: nat -> bool) returns (later: seq<Posted>)
    requires s.queued == [cell] + behind && s.live && s.current.None? && Sound(s) && !reaches(s.writes)
    ensures RunNext(s, reaches).posted
         == s.posted + (Story(cell, s.executionCount + 1, [Failure(Unreachable())], Some(Unreachable()), s.executionCount + 1) + later)
    ensures forall m :: m in later ==> ForOne(m, Ids(behind))
  {
    UnreachedPosts(s);
    assert s.queued[1..] == behind;
    later := RunNextPosts(Unreached(s), reaches);
    hide Unreached, Story;
    Associative(s.posted, Lost(cell, s.executionCount + 1), later);
  }

  /** A restored cell that finishes before anyone asked for it is on record with what it is
      answered with: the count, the last trouble, and the kept end of its output. A re-run of
      its code that comes then sees just that. */
  lemma RecordAnswers(s: State, lines: seq<Text>, done: Text, count: int, request: Request,
                      parse: Text -> Option<Frame>, reaches: nat -> bool)
    returns (trouble: Option<Trouble>)
    requires s.current.Some? && s.rebindPending && s.queued == [] && s.partialLine == []
    requires Running(lines, parse) && IsDone(done, count, parse)
    requires request.code == s.current.value.code
    ensures LastTrouble(s.error, Chunks(lines, parse), trouble)
    ensures var before := Heard(s, Terminated(lines + [done]), parse, reaches);
            Enqueued(before, request, reaches).posted
            == before.posted + Story(request, count, Kept(s.outputTail, Chunks(lines, parse)), trouble, count)
  {
    var all := lines + [done];
    assert s.partialLine + Terminated(all) == Terminated(all);
    WholeLines(s.(partialLine := Terminated(all)), all, parse, reaches);
    AfterThen(s, lines, [done], parse, reaches);
    LinesShow(s, lines, parse, reaches);
    hide LastTrouble, Chunks, Kept;
    var heard := LinesAfter(s, lines, parse, reaches);
    HeededRuns(s, Chunks(lines, parse), heard.error);
    assert [done][1..] == [];
    trouble := heard.error;
    assert LinesAfter(heard, [done], parse, reaches) == LineHandled(heard, done, parse, reaches);
    hide LinesAfter, Terminated;
    DoneRecords(heard, done, count, parse, reaches);
    FromRecordPosts(LineHandled(heard, done, parse, reaches), request);
    hide LineHandled, Story, FromRecord;
  }

  lemma DoneRecords(s: State, done: Text, count: int, parse: Text -> Option<Frame>, reaches: nat -> bool)
    requires s.current.Some? && s.rebindPending && s.queued == [] && IsDone(done, count, parse)
    ensures var now := LineHandled(s, done, parse, reaches);
            && now.completed == Some(Finished(s.current.value.code, count, s.outputTail, s.error))
            && now.current.None? && !now.rebindPending
  {
  }

  lemma FromRecordPosts(s: State, request: Request)
    requires Replays(s, request)
    ensures var done := s.completed.value;
            FromRecord(s, request).posted == s.posted + Story(request, done.count, done.outputTail, done.error, done.count)
  {
    hide Replayed;
  }

  /** A re-run bound to the running cell sees it begin, and the output kept of it so far. */
  lemma RebindShows(s: State, request: Request, reaches: nat -> bool)
    requires Rebinds(s, request)
    ensures Enqueued(s, request, reaches).posted
         == s.posted + (Opening(request, s.executionCount + 1) + Shown(request, s.outputTail, s.executionCount + 1))
  {
    hide Replayed;
  }

  // ---- what is kept of the output ----

  /** Output unit by unit: a character of a stream, or a whole result or trouble. */
  datatype Piece = Char(name: Std, unit: Unit) | Whole(chunk: Chunk)

  function Pieces(chunk: Chunk): seq<Piece> {
    if chunk.Stream? then seq(|chunk.text|, i requires 0 <= i < |chunk.text| => Char(chunk.name, chunk.text[i])) else [Whole(chunk)]
  }

  function AllPieces(chunks: seq<Chunk>): seq<Piece> {
    if chunks == [] then [] else Pieces(chunks[0]) + AllPieces(chunks[1..])
  }

  lemma {:induction false} PiecesThen(a: seq<Chunk>, b: seq<Chunk>)
    ensures AllPieces(a + b) == AllPieces(a) + AllPieces(b)
  {
    if a == [] {
      assert a + b == b;
    } else {
      assert (a + b)[0] == a[0] && (a + b)[1..] == a[1..] + b;
      PiecesThen(a[1..], b);
      Associative(Pieces(a[0]), AllPieces(a[1..]), AllPieces(b));
    }
  }

  lemma PiecesOne(chunk: Chunk)
    ensures AllPieces([chunk]) == Pieces(chunk)
  {
    assert [chunk][1..] == [];
  }

  lemma PiecesLast(init: seq<Chunk>, last: Chunk)
    ensures AllPieces(init + [last]) == AllPieces(init) + Pieces(last)
  {
    PiecesThen(init, [last]);
    PiecesOne(last);
  }

  /** Joining chunks of one stream changes nothing of what was said. */
  lemma AppendedPieces(tail: seq<Chunk>, chunk: Chunk)
    ensures AllPieces(Appended(tail, chunk)) == AllPieces(tail) + Pieces(chunk)
  {
    hide AllPieces;
    PiecesLast(tail, chunk);
    if tail != [] {
      var init, last := tail[..|tail| - 1], tail[|tail| - 1];
      assert tail == init + [last];
      PiecesLast(init, last);
      if chunk.Stream? && last.Stream? && last.name == chunk.name {
        var joined := Stream(chunk.name, last.text + chunk.text);
        PiecesLast(init, joined);
        PiecesJoined(last, chunk);
        hide Pieces;
        Associative(AllPieces(init), Pieces(last), Pieces(chunk));
      }
    }
  }

  lemma PiecesJoined(a: Chunk, b: Chunk)
    requires a.Stream? && b.Stream? && a.name == b.name
    ensures Pieces(Stream(b.name, a.text + b.text)) == Pieces(a) + Pieces(b)
  {
  }

  /** `b` ends in `a`. */
  predicate Suffix(a: seq<Piece>, b: seq<Piece>) {
    |a| <= |b| && b[|b| - |a|..] == a
  }

  lemma EndPieces(short: seq<Chunk>, long: seq<Chunk>)
    requires EndOf(short, long)
    ensures Suffix(AllPieces(short), AllPieces(long))
  {
    hide AllPieces, Pieces;
    if k :| 0 <= k <= |long| && short == long[k..] {
      assert long == long[..k] + long[k..];
      PiecesThen(long[..k], long[k..]);
    } else {
      var k, cut :|
        && 0 <= k < |long| && long[k].Stream? && 0 < cut < |long[k].text|
        && short == [Stream(long[k].name, long[k].text[cut..])] + long[k + 1..];
      CutPieces(long[..k], long[k], long[k + 1..], cut);
      assert long == long[..k] + ([long[k]] + long[k + 1..]);
    }
  }

  lemma CutPieces(before: seq<Chunk>, chunk: Chunk, after: seq<Chunk>, cut: nat)
    requires chunk.Stream? && cut <= |chunk.text|
    ensures Suffix(AllPieces([Stream(chunk.name, chunk.text[cut..])] + after), AllPieces(before + ([chunk] + after)))
  {
    var rest := Stream(chunk.name, chunk.text[cut..]);
    assert Pieces(chunk)[cut..] == Pieces(rest);
    PiecesThen(before, [chunk] + after);
    PiecesThen([chunk], after);
    PiecesThen([rest], after);
    PiecesOne(chunk);
    PiecesOne(rest);
    SuffixThen(Pieces(rest), Pieces(chunk), AllPieces(after));
    hide AllPieces, Pieces;
    SuffixAfter(AllPieces(before), AllPieces([chunk] + after), AllPieces([rest] + after));
  }

  lemma SuffixThen(a: seq<Piece>, b: seq<Piece>, more: seq<Piece>)
    requires Suffix(a, b)
    ensures Suffix(a + more, b + more)
  {
    assert b == b[..|b| - |a|] + a;
  }

  lemma SuffixAfter(before: seq<Piece>, b: seq<Piece>, a: seq<Piece>)
    requires Suffix(a, b)
    ensures Suffix(a, before + b)
  {
  }

  /** What is kept is the end of all that was said, in order. */
  lemma {:induction false} KeptIsEnd(tail: seq<Chunk>, chunks: seq<Chunk>)
    ensures Suffix(AllPieces(Kept(tail, chunks)), AllPieces(tail) + AllPieces(chunks))
    decreases |chunks|
  {
    if chunks == [] {
      assert AllPieces(tail) + [] == AllPieces(tail);
    } else {
      var next := Remembered(tail, chunks[0]);
      AppendedPieces(tail, chunks[0]);
      FittedIsEnd(Appended(tail, chunks[0]), OUTPUT_TAIL_LIMIT);
      EndPieces(next, Appended(tail, chunks[0]));
      KeptIsEnd(next, chunks[1..]);
      hide AllPieces, Pieces, Kept, Remembered;
      SuffixThen(AllPieces(next), AllPieces(tail) + Pieces(chunks[0]), AllPieces(chunks[1..]));
      Associative(AllPieces(tail), Pieces(chunks[0]), AllPieces(chunks[1..]));
      SuffixOf(AllPieces(Kept(tail, chunks)), AllPieces(next) + AllPieces(chunks[1..]),
               AllPieces(tail) + (Pieces(chunks[0]) + AllPieces(chunks[1..])));
    }
  }

  lemma SuffixOf(a: seq<Piece>, b: seq<Piece>, c: seq<Piece>)
    requires Suffix(a, b) && Suffix(b, c)
    ensures Suffix(a, c)
  {
  }

  // ---- the handlers ----

  class Notebook {
    const parse: Text -> Option<Frame>
    const reaches: nat -> bool

    var live: bool
    var executionCount: int
    var current: Option<Request>
    var queued: seq<Request>
    var partialLine: Text
    var outputTail: seq<Chunk>
    var error: Option<Trouble>
    var rebindPending: bool
    var completedPending: Option<Finished>
    var ticking: bool
    var posted: seq<Posted>
    var orphan: Option<nat>
    var frames: seq<Text>
    var dones: nat
    var writes: nat

    function View(): State
      reads this
    {
      State(live, executionCount, current, queued, partialLine, outputTail, error, rebindPending, completedPending, ticking,
            posted, orphan, frames, dones, writes)
    }

    /** The variables as an epoch finds them. */
    constructor (parse: Text -> Option<Frame>, reaches: nat -> bool, s: State)
      ensures View() == s && this.parse == parse && this.reaches == reaches
    {
      this.parse, this.reaches := parse, reaches;
      live, executionCount, current, queued, partialLine := s.live, s.executionCount, s.current, s.queued, s.partialLine;
      outputTail, error, rebindPending, completedPending := s.outputTail, s.error, s.rebindPending, s.completed;
      ticking, posted, orphan, frames, dones, writes := s.ticking, s.posted, s.orphan, s.frames, s.dones, s.writes;
    }

    method Send(message: Posted)
      modifies this`posted
      ensures posted == old(posted) + [message]
    {
      posted := posted + [message];
    }

    method ClearRebind(finished: Option<Finished>)
      modifies this`rebindPending, this`completedPending, this`posted
      ensures View() == ClearedRebind(old(View()), finished)
    {
      if !rebindPending {
        return;
      }
      rebindPending := false;
      if finished.Some? {
        completedPending := finished;
      }
      Send(PendingCleared(completedPending.Some?));
    }

    method Replay(parent: nat, chunks: seq<Chunk>, count: int)
      modifies this`posted
      ensures posted == old(posted) + Replayed(parent, chunks, count)
    {
      for i := 0 to |chunks|
        invariant posted == old(posted) + Replayed(parent, chunks[..i], count)
      {
        assert Replayed(parent, chunks[..i + 1], count) == Replayed(parent, chunks[..i], count) + [Output(parent, chunks[i], count)];
        Send(Output(parent, chunks[i], count));
      }
      assert chunks[..|chunks|] == chunks;
    }

    method SendInput(request: Request, count: int)
      modifies this`posted
      ensures posted == old(posted) + Inputs(request, count)
    {
      if !request.silent && request.storeHistory {
        Send(Input(request.id, request.code, count));
      } else {
        assert old(posted) + [] == old(posted);
      }
    }

    /** What a cell's notebook sees first. */
    method SendStart(request: Request, count: int)
      modifies this`posted
      ensures posted == old(posted) + ([Busy(request.id)] + Inputs(request, count))
    {
      Associative(posted, [Busy(request.id)], Inputs(request, count));
      Send(Busy(request.id));
      SendInput(request, count);
    }

    /** What the notebook of a re-run sees of its cell so far. */
    method SendRerun(request: Request, tail: seq<Chunk>, count: int)
      modifies this`posted
      ensures posted == old(posted) + ([Busy(request.id)] + Inputs(request, count)
                                       + if request.silent then [] else Replayed(request.id, tail, count))
    {
      hide Inputs, Replayed;
      ghost var start := [Busy(request.id)] + Inputs(request, count);
      SendStart(request, count);
      if request.silent {
        assert start + [] == start;
      } else {
        Associative(old(posted), start, Replayed(request.id, tail, count));
        Replay(request.id, tail, count);
      }
    }

    /** A cell's answer, and that the kernel is idle again. */
    method SendReply(id: nat, raised: Option<Trouble>, count: int)
      modifies this`posted
      ensures posted == old(posted) + [Reply(id, raised, count), Idle(id)]
    {
      Send(Reply(id, raised, count));
      Send(Idle(id));
    }

    method Rebind(message: Request) returns (taken: bool)
      modifies this`rebindPending, this`orphan, this`current, this`posted
      ensures taken == Rebinds(old(View()), message)
      ensures View() == if taken then Rebound(old(View()), message) else old(View())
    {
      if !rebindPending || current.None? || current.value.code != message.code {
        return false;
      }
      rebindPending, orphan, current := false, None, Some(message);
      hide Inputs, Replayed;
      SendRerun(message, outputTail, executionCount + 1);
      return true;
    }

    method AnswerCompleted(message: Request) returns (answered: bool)
      modifies this`completedPending, this`posted
      ensures answered == Replays(old(View()), message)
      ensures View() == if answered then FromRecord(old(View()), message) else old(View()).(completed := None)
    {
      var done := completedPending;
      completedPending := None;
      if done.None? || message.code != done.value.code {
        return false;
      }
      hide Inputs, Replayed;
      SendRerun(message, done.value.outputTail, done.value.count);
      ghost var shown := posted;
      SendReply(message.id, done.value.error, done.value.count);
      assert posted == shown + [Reply(message.id, done.value.error, done.value.count), Idle(message.id)];
      return true;
    }

    method EnqueueExecute(message: Request)
      modifies this
      ensures View() == Enqueued(old(View()), message, reaches)
    {
      var taken := Rebind(message);
      if taken {
        return;
      }
      var answered := AnswerCompleted(message);
      if answered {
        return;
      }
      rebindPending := false;
      queued := queued + [message];
      RunNextCell();
    }

    method RememberOutput(chunk: Chunk)
      modifies this`outputTail
      ensures outputTail == Remembered(old(outputTail), chunk)
    {
      var last := |outputTail| - 1;
      if chunk.Stream? && last >= 0 && outputTail[last].Stream? && outputTail[last].name == chunk.name {
        outputTail := outputTail[..last] + [Stream(chunk.name, outputTail[last].text + chunk.text)];
      } else {
        outputTail := outputTail + [chunk];
      }
      var total := TailSize(outputTail);
      while total > OUTPUT_TAIL_LIMIT && outputTail != []
        invariant total == TailSize(outputTail)
        invariant Fitted(outputTail, OUTPUT_TAIL_LIMIT) == Remembered(old(outputTail), chunk)
        decreases |outputTail|, total
      {
        var excess := total - OUTPUT_TAIL_LIMIT;
        var first := outputTail[0];
        if !first.Stream? || |first.text| <= excess {
          outputTail := outputTail[1..];
          total := total - ChunkSize(first);
        } else {
          outputTail := [Stream(first.name, first.text[excess..])] + outputTail[1..];
          total := total - excess;
        }
      }
    }

    method Say(chunk: Chunk)
      modifies this`outputTail, this`error, this`posted
      ensures View() == Said(old(View()), chunk)
    {
      if current.None? {
        return;
      }
      if chunk.Failure? {
        error := Some(chunk.trouble);
      }
      RememberOutput(chunk);
      if !current.value.silent {
        Send(Output(current.value.id, chunk, executionCount + 1));
      }
    }

    /** The answer of a cell that is done. */
    method Answer(count: int)
      requires current.Some?
      modifies this`executionCount, this`error, this`posted, this`rebindPending, this`completedPending, this`current,
               this`outputTail, this`ticking
      ensures View() == Answered(old(View()), count)
    {
      var cell := current.value;
      executionCount := count;
      var raised := error;
      error := None;
      SendReply(cell.id, raised, count);
      ClearRebind(Some(Finished(cell.code, count, outputTail, raised)));
      current := None;
      outputTail := [];
      ticking := false;
    }

    method RunNextCell()
      modifies this
      ensures View() == RunNext(old(View()), reaches)
      decreases |queued|
    {
      hide Said, Answered, Begun, Unreachable;
      if !live || current.Some? || queued == [] {
        return;
      }
      Begin();
      writes := writes + 1;
      if reaches(writes - 1) {
        frames := frames + [current.value.code];
        return;
      }
      Say(Failure(Unreachable()));
      Answer(executionCount + 1);
      assert View() == Unreached(old(View()));
      RunNextCell();
    }

    method Begin()
      requires queued != []
      modifies this`current, this`queued, this`outputTail, this`error, this`ticking, this`posted
      ensures View() == Begun(old(View()))
    {
      hide Inputs;
      var next := queued[0];
      queued := queued[1..];
      current := Some(next);
      outputTail := [];
      error := None;
      ticking := true;
      SendStart(next, executionCount + 1);
    }

    method HandleFrame(frame: Frame)
      modifies this
      ensures View() == Handled(old(View()), frame, reaches)
    {
      hide Said, Answered, RunNext;
      if frame.Says? {
        Say(frame.chunk);
      } else if frame.Done? && current.Some? {
        Answer(frame.count);
        dones := dones + 1;
        RunNextCell();
      }
    }

    method HandleLine(line: Text)
      modifies this
      ensures View() == LineHandled(old(View()), line, parse, reaches)
    {
      if Trim(line) == [] {
        return;
      }
      var frame := parse(line);
      if frame.Some? {
        HandleFrame(frame.value);
      } else if current.Some? {
        Say(Stream(Stderr, line + [NEWLINE]));
      } else {
        Send(Note(line));
      }
    }

    method OnGuestOutput(text: Text)
      modifies this
      ensures View() == Heard(old(View()), text, parse, reaches)
    {
      partialLine := partialLine + text;
      var newline := IndexOf(partialLine, NEWLINE);
      while newline < |partialLine|
        invariant newline == IndexOf(partialLine, NEWLINE)
        invariant LinesHandled(View(), parse, reaches) == Heard(old(View()), text, parse, reaches)
        decreases |partialLine|
      {
        hide LineHandled;
        var line := partialLine[..newline];
        partialLine := partialLine[newline + 1..];
        ghost var rest := partialLine;
        LineHeedless(View(), line, parse, reaches, partialLine);
        HandleLine(line);
        assert partialLine == rest;
        newline := IndexOf(partialLine, NEWLINE);
      }
    }

    method FailAllCells(reason: Text)
      modifies this
      ensures View() == AllFailed(old(View()), reason)
    {
      hide ClearedRebind, Refusals, InFlight;
      var inFlight := InFlight(View());
      DropCells();
      ClearRebind(None);
      ticking := false;
      RefuseAll(inFlight, reason);
    }

    method DropCells()
      modifies this`current, this`queued, this`partialLine, this`outputTail, this`error
      ensures View() == old(View()).(current := None, queued := [], partialLine := [], outputTail := [], error := None)
    {
      current, queued, partialLine, outputTail, error := None, [], [], [], None;
    }

    method RefuseAll(cells: seq<Request>, reason: Text)
      modifies this`posted
      ensures posted == old(posted) + Refusals(cells, reason, executionCount)
    {
      hide Refusals;
      assert cells[0..] == cells;
      for i := 0 to |cells|
        invariant posted + Refusals(cells[i..], reason, executionCount) == old(posted) + Refusals(cells, reason, executionCount)
      {
        RefusalsFirst(cells, i, reason, executionCount);
        Associative(posted, [Reply(cells[i].id, Some(Trouble(Restarting(), reason, [])), executionCount), Idle(cells[i].id)],
                    Refusals(cells[i + 1..], reason, executionCount));
        Send(Reply(cells[i].id, Some(Trouble(Restarting(), reason, [])), executionCount));
        Send(Idle(cells[i].id));
      }
      RefusalsFirst(cells, |cells|, reason, executionCount);
      assert posted + [] == posted;
    }
  }

  lemma RefusalsFirst(cells: seq<Request>, i: nat, reason: Text, count: int)
    requires i <= |cells|
    ensures Refusals(cells[i..], reason, count)
         == if i == |cells| then []
            else [Reply(cells[i].id, Some(Trouble(Restarting(), reason, [])), count), Idle(cells[i].id)]
                 + Refusals(cells[i + 1..], reason, count)
  {
    if i < |cells| {
      assert cells[i..][0] == cells[i] && cells[i..][1..] == cells[i + 1..];
    }
  }
}
