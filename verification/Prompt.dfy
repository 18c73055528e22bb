/** The agent's prompt under its context budget, and the loop that builds it (src/agent.ts). */
module Prompt {
  import opened Basics
  import opened Numerals

  /** The longest string the language has. */
  const MAX_STRING: nat := 0x1F_FFFF_FFFF_FFFF
  /** The longest suffix `clip` is given room for. */
  const CLIP_SUFFIX_MAX: nat := 40

  datatype Turn = Turn(reply: string, result: string)

  function Head(task: string): string {
    "Task: " + task
  }

  function Rendered(index: nat, turn: Turn): string {
    "Step " + Decimal(index + 1) + ": you replied " + turn.reply + "\nResult:\n" + turn.result
  }

  function Note(n: nat): string {
    "(Steps 1-" + Decimal(n) + " are omitted to fit the context.)"
  }

  function ClipSuffix(cut: nat): string {
    "\n[… " + Decimal(cut) + " more characters]"
  }

  function Clip(text: string, max: nat): string {
    if |text| <= max then text else text[..max] + ClipSuffix(|text| - max)
  }

  /** `join("\n\n")`. */
  function Paragraphs(parts: seq<string>): string {
    if parts == [] then "" else if |parts| == 1 then parts[0] else parts[0] + "\n\n" + Paragraphs(parts[1..])
  }

  /** What parts take of the budget: each with the break before it. */
  function Cost(parts: seq<string>): nat {
    if parts == [] then 0 else |parts[0]| + 2 + Cost(parts[1..])
  }

  function RenderAll(turns: seq<Turn>): (r: seq<string>)
    ensures |r| == |turns|
    ensures forall i :: 0 <= i < |turns| ==> r[i] == Rendered(i, turns[i])
  {
    seq(|turns|, i requires 0 <= i < |turns| => Rendered(i, turns[i]))
  }

  /** How many of the latest turns the budget allows. */
  function Fitting(rendered: seq<string>, budget: int): (k: nat)
    ensures k <= |rendered|
    decreases |rendered|
  {
    if rendered == [] then 0
    else
      var last := rendered[|rendered| - 1];
      if |last| + 2 <= budget then 1 + Fitting(rendered[..|rendered| - 1], budget - |last| - 2) else 0
  }

  function Suffix(rendered: seq<string>, k: nat): seq<string>
    requires k <= |rendered|
  {
    rendered[|rendered| - k..]
  }

  /** What the prompt leaves for turns. */
  function Budget(task: string, turns: seq<Turn>, maxPrompt: int): int {
    maxPrompt - |Head(task)| - (|Note(|turns|)| + 2)
  }

  /** The turns shown: as many of the latest as fit, or the start of the latest alone. */
  function Kept(rendered: seq<string>, budget: int): (kept: seq<string>)
    ensures |kept| <= |rendered|
  {
    var k := Fitting(rendered, budget);
    var room := budget - 2 - CLIP_SUFFIX_MAX;
    if k == 0 && rendered != [] && room > 0 then [Clip(rendered[|rendered| - 1], room)]
    else Suffix(rendered, k)
  }

  function PromptOf(task: string, turns: seq<Turn>, maxPrompt: int): string {
    var rendered := RenderAll(turns);
    var kept := Kept(rendered, Budget(task, turns, maxPrompt));
    var omitted := |rendered| - |kept|;
    Paragraphs([Head(task)] + (if omitted > 0 then [Note(omitted)] else []) + kept)
  }

  /** The loop of `buildPrompt`: from the latest turn back, until one does not fit. */
  method KeepLatest(rendered: seq<string>, whole: int) returns (kept: seq<string>)
    ensures kept == Kept(rendered, whole)
  {
    hide Clip;
    var budget := whole;
    kept := [];
    var i := |rendered| - 1;
    assert rendered[..|rendered|] == rendered;
    while i >= 0
      invariant -1 <= i < |rendered|
      invariant kept == rendered[i + 1..]
      invariant Fitting(rendered, whole) == |kept| + Fitting(rendered[..i + 1], budget)
      invariant kept == [] ==> budget == whole
    {
      assert rendered[..i + 1][..i] == rendered[..i];
      var cost := |rendered[i]| + 2;
      if cost <= budget {
        kept := [rendered[i]] + kept;
        budget := budget - cost;
        i := i - 1;
        continue;
      }
      var room := budget - 2 - CLIP_SUFFIX_MAX;
      if kept == [] && room > 0 {
        kept := [Clip(rendered[i], room)];
      }
      return;
    }
  }

  /** `buildPrompt`. */
  method BuildPrompt(task: string, turns: seq<Turn>, maxPrompt: int) returns (prompt: string)
    ensures prompt == PromptOf(task, turns, maxPrompt)
  {
    hide Kept, Paragraphs, Note;
    var head := Head(task);
    var rendered := RenderAll(turns);
    var kept := KeepLatest(rendered, maxPrompt - |head| - (|Note(|turns|)| + 2));
    var omitted := |rendered| - |kept|;
    return Paragraphs([head] + (if omitted > 0 then [Note(omitted)] else []) + kept);
  }

  // ---- what is kept ----

  lemma {:induction false} CostAppend(parts: seq<string>, last: string)
    ensures Cost(parts + [last]) == Cost(parts) + |last| + 2
  {
    if parts == [] {
      assert parts + [last] == [last];
    } else {
      CostAppend(parts[1..], last);
      assert (parts + [last])[1..] == parts[1..] + [last];
    }
  }

  /** The suffix kept is the longest the budget allows: shorter ones fit, longer do not. */
  lemma {:induction false} LongestSuffix(rendered: seq<string>, budget: int, k: nat)
    requires k <= |rendered|
    ensures k == 0 || Cost(Suffix(rendered, k)) <= budget <==> k <= Fitting(rendered, budget)
    decreases |rendered|
  {
    if k > 0 {
      var init, last := rendered[..|rendered| - 1], rendered[|rendered| - 1];
      LongestSuffix(init, budget - |last| - 2, k - 1);
      assert Suffix(rendered, k) == Suffix(init, k - 1) + [last];
      CostAppend(Suffix(init, k - 1), last);
    }
  }

  /** `k` is as many of the latest as the budget allows: they fit, and one more does not. */
  predicate Longest(rendered: seq<string>, budget: int, k: nat)
    requires k <= |rendered|
  {
    (k > 0 ==> Cost(Suffix(rendered, k)) <= budget) && (k < |rendered| ==> Cost(Suffix(rendered, k + 1)) > budget)
  }

  lemma FittingIsLongest(rendered: seq<string>, budget: int)
    ensures Longest(rendered, budget, Fitting(rendered, budget))
  {
    var k := Fitting(rendered, budget);
    LongestSuffix(rendered, budget, k);
    if k < |rendered| {
      LongestSuffix(rendered, budget, k + 1);
    }
  }

  /** The paragraphs, a blank line before each but the first. */
  lemma {:induction false} ParagraphsAre(parts: seq<string>)
    requires parts != []
    ensures Paragraphs(parts) == parts[0] + Join(seq(|parts| - 1, i requires 0 <= i < |parts| - 1 => "\n\n" + parts[i + 1]))
  {
    var breaks := seq(|parts| - 1, i requires 0 <= i < |parts| - 1 => "\n\n" + parts[i + 1]);
    if |parts| == 1 {
      assert breaks == [];
    } else {
      ParagraphsAre(parts[1..]);
      var rest := seq(|parts[1..]| - 1, i requires 0 <= i < |parts[1..]| - 1 => "\n\n" + parts[1..][i + 1]);
      assert breaks[1..] == rest && breaks[0] == "\n\n" + parts[1];
    }
  }

  /** The turns shown are the latest ones whole, as many as the budget allows; or when not
      even the latest fits, its start, with the count of what was cut, if there is room. */
  lemma KeptIsLongestSuffix(task: string, turns: seq<Turn>, maxPrompt: int)
    ensures var rendered, budget := RenderAll(turns), Budget(task, turns, maxPrompt);
            var kept := Kept(rendered, budget);
            || (exists k :: 0 <= k <= |rendered| && kept == Suffix(rendered, k) && Longest(rendered, budget, k))
            || (rendered != [] && |rendered[|rendered| - 1]| + 2 > budget > 2 + CLIP_SUFFIX_MAX &&
                var last, room := rendered[|rendered| - 1], budget - 2 - CLIP_SUFFIX_MAX;
                kept == [last[..room] + ClipSuffix(|last| - room)])
  {
    var rendered, budget := RenderAll(turns), Budget(task, turns, maxPrompt);
    var k := Fitting(rendered, budget);
    FittingIsLongest(rendered, budget);
    if Kept(rendered, budget) != Suffix(rendered, k) {
      assert |Suffix(rendered, 1)| == 1 && Suffix(rendered, 1)[0] == rendered[|rendered| - 1];
    }
  }

  /** What the prompt begins with when so many turns are not shown. */
  function Opening(task: string, omitted: nat): seq<string> {
    if omitted > 0 then [Head(task), Note(omitted)] else [Head(task)]
  }

  /** The whole prompt: the task, a note that names exactly the turns not shown, if there are
      any, and the latest turns, as many as the budget allows; or, when it allows none but has
      room for it, the start of the latest. */
  lemma NoteCountsOmitted(task: string, turns: seq<Turn>, maxPrompt: int)
    ensures var rendered, budget := RenderAll(turns), Budget(task, turns, maxPrompt);
            var room := budget - 2 - CLIP_SUFFIX_MAX;
            && (forall i :: 0 <= i < |turns| ==>
                  rendered[i] == "Step " + Decimal(i + 1) + ": you replied " + turns[i].reply + "\nResult:\n" + turns[i].result)
            && (exists k :: 0 <= k <= |turns| && Longest(rendered, budget, k) &&
                  PromptOf(task, turns, maxPrompt)
                  == if k == 0 < |turns| && room > 0
                     then Paragraphs(Opening(task, |turns| - 1) + [Clip(rendered[|turns| - 1], room)])
                     else Paragraphs(Opening(task, |turns| - k) + Suffix(rendered, k)))
  {
    var rendered, budget := RenderAll(turns), Budget(task, turns, maxPrompt);
    RenderedAre(turns);
    hide Paragraphs, Note, Head, Budget, Clip, Suffix, RenderAll, PromptOf, Cost, Fitting, Decimal;
    PromptParts(task, turns, maxPrompt);
    var k := Fitting(rendered, budget);
    FittingIsLongest(rendered, budget);
    SuffixLength(rendered, k);
    hide Longest;
  }

  lemma RenderedAre(turns: seq<Turn>)
    ensures forall i :: 0 <= i < |turns| ==>
              RenderAll(turns)[i] == "Step " + Decimal(i + 1) + ": you replied " + turns[i].reply + "\nResult:\n" + turns[i].result
  {
    hide Decimal;
  }

  lemma SuffixLength(rendered: seq<string>, k: nat)
    requires k <= |rendered|
    ensures |Suffix(rendered, k)| == k
  {
  }

  lemma PromptParts(task: string, turns: seq<Turn>, maxPrompt: int)
    ensures var kept := Kept(RenderAll(turns), Budget(task, turns, maxPrompt));
            (PromptOf(task, turns, maxPrompt)
             == if |kept| == |turns| then Paragraphs([Head(task)] + kept)
                else Paragraphs([Head(task), Note(|turns| - |kept|)] + kept))
  {
    var kept := Kept(RenderAll(turns), Budget(task, turns, maxPrompt));
    assert [Head(task)] + [] + kept == [Head(task)] + kept;
    assert [Head(task)] + [Note(|turns| - |kept|)] == [Head(task), Note(|turns| - |kept|)];
  }

  // ---- how long it is ----

  lemma {:induction false} ParagraphsLength(first: string, rest: seq<string>)
    ensures |Paragraphs([first] + rest)| == |first| + Cost(rest)
    decreases |rest|
  {
    assert ([first] + rest)[1..] == rest;
    if rest != [] {
      ParagraphsLength(rest[0], rest[1..]);
      assert [rest[0]] + rest[1..] == rest;
    }
  }

  lemma NoteGrows(m: nat, n: nat)
    requires m <= n
    ensures |Note(m)| <= |Note(n)|
  {
    DigitsMonotone(m, n, 10);
  }

  lemma SixteenDigits(n: nat)
    requires n <= MAX_STRING
    ensures |ClipSuffix(n)| < CLIP_SUFFIX_MAX
  {
    var p4 := Pow(10, 4);
    assert p4 == 10000 by {
      assert Pow(10, 1) == 10 && Pow(10, 2) == 100 && Pow(10, 3) == 1000;
    }
    assert Pow(10, 8) == 1_0000_0000 by {
      assert Pow(10, 5) == 10_0000 && Pow(10, 6) == 100_0000 && Pow(10, 7) == 1000_0000;
    }
    assert Pow(10, 12) == 1_0000_0000_0000 by {
      assert Pow(10, 9) == 10_0000_0000 && Pow(10, 10) == 100_0000_0000 && Pow(10, 11) == 1000_0000_0000;
    }
    assert Pow(10, 16) == 1_0000_0000_0000_0000 by {
      assert Pow(10, 13) == 10_0000_0000_0000 && Pow(10, 14) == 100_0000_0000_0000;
      assert Pow(10, 15) == 1000_0000_0000_0000;
    }
    DigitsFit(n, 10, 16);
  }

  lemma ClippedFits(text: string, room: nat)
    requires |text| <= MAX_STRING
    ensures |Clip(text, room)| <= room + CLIP_SUFFIX_MAX
  {
    if |text| > room {
      SixteenDigits(|text| - room);
    }
  }

  predicate Writable(turns: seq<Turn>) {
    forall i :: 0 <= i < |turns| ==> |Rendered(i, turns[i])| <= MAX_STRING
  }

  lemma KeptFits(rendered: seq<string>, budget: int)
    requires forall i :: 0 <= i < |rendered| ==> |rendered[i]| <= MAX_STRING
    ensures budget >= 0 ==> Cost(Kept(rendered, budget)) <= budget
    ensures budget < 0 ==> Kept(rendered, budget) == []
  {
    var k := Fitting(rendered, budget);
    LongestSuffix(rendered, budget, k);
    var kept := Kept(rendered, budget);
    if kept != Suffix(rendered, k) {
      ClippedFits(rendered[|rendered| - 1], budget - 2 - CLIP_SUFFIX_MAX);
      assert Cost(kept) == |kept[0]| + 2;
    }
  }

  /** The prompt is never longer than it may be, exactly when the task line and the
      reserved omission note fit (or, with no turn yet, the task line alone). */
  lemma PromptFitsExactly(task: string, turns: seq<Turn>, maxPrompt: int)
    requires Writable(turns)
    ensures |PromptOf(task, turns, maxPrompt)| <= maxPrompt
            <==> if turns == [] then |Head(task)| <= maxPrompt
                 else |Head(task)| + |Note(|turns|)| + 2 <= maxPrompt
  {
    var rendered, budget := RenderAll(turns), Budget(task, turns, maxPrompt);
    var kept := Kept(rendered, budget);
    hide Note, Head, Rendered, Kept, RenderAll;
    KeptFits(rendered, budget);
    NoteGrows(|rendered| - |kept|, |turns|);
    PromptLength(task, turns, maxPrompt);
  }

  lemma PromptLength(task: string, turns: seq<Turn>, maxPrompt: int)
    ensures var kept := Kept(RenderAll(turns), Budget(task, turns, maxPrompt));
            (|PromptOf(task, turns, maxPrompt)|
             == |Head(task)| + Cost(kept) + if |kept| < |turns| then |Note(|turns| - |kept|)| + 2 else 0)
  {
    hide Note, Head, Rendered, Kept, RenderAll, Budget, Paragraphs;
    var kept := Kept(RenderAll(turns), Budget(task, turns, maxPrompt));
    PromptParts(task, turns, maxPrompt);
    if |kept| < |turns| {
      var note := Note(|turns| - |kept|);
      assert [Head(task), note] + kept == [Head(task)] + ([note] + kept);
      ParagraphsLength(Head(task), [note] + kept);
      assert ([note] + kept)[1..] == kept;
    } else {
      ParagraphsLength(Head(task), kept);
    }
  }

  // ---- the agent's loop ----

  datatype Limits = Limits(maxSteps: nat, maxInvalid: nat, maxObservation: nat, maxTask: nat, maxPrompt: nat)

  const DEFAULT_LIMITS := Limits(8, 2, 1500, 2000, 9000)

  datatype Reason = Cancelled | Steps | Invalid | Task

  datatype Event =
    | Step(step: nat, promptChars: nat)
    | Act(step: nat)
    | BadReply(step: nat)
    | Observation(step: nat)
    | Answer
    | Stopped(reason: Reason)
    | Failed

  predicate Final(e: Event) {
    e.Answer? || e.Stopped? || e.Failed?
  }

  /** What a model call comes to: an abort, an error, or a reply that is no action, an
      answer, or a tool call with its outcome. */
  datatype Reply = Aborted | Broke | NoAction(text: string) | Answered | Called(shown: string, raw: string, aborted: bool)

  /** Limits under which every prompt of a run has room for its task and its note. */
  predicate Roomy(limits: Limits) {
    6 + limits.maxTask + |Note(limits.maxSteps)| + 2 <= limits.maxPrompt
  }

  function StepsIn(events: seq<Event>): nat {
    if events == [] then 0
    else StepsIn(events[..|events| - 1]) + if events[|events| - 1].Step? then 1 else 0
  }

  /** No step's prompt passes the limit. */
  predicate PromptsFit(events: seq<Event>, limits: Limits) {
    forall i :: 0 <= i < |events| && events[i].Step? ==> events[i].promptChars <= limits.maxPrompt
  }

  predicate NoneFinal(events: seq<Event>) {
    forall i :: 0 <= i < |events| ==> !Final(events[i])
  }

  const REFUSAL := "That is not one of the three JSON actions. Reply with exactly one."

  lemma DefaultLimitsAreRoomy()
    ensures Roomy(DEFAULT_LIMITS)
  {
    assert Digits(8, 10) == [8];
    assert |Decimal(8)| == 1;
  }

  lemma PromptFits(task: string, turns: seq<Turn>, limits: Limits)
    requires Roomy(limits) && |task| <= limits.maxTask && |turns| <= limits.maxSteps && Writable(turns)
    ensures |PromptOf(task, turns, limits.maxPrompt)| <= limits.maxPrompt
  {
    PromptFitsExactly(task, turns, limits.maxPrompt);
    NoteGrows(|turns|, limits.maxSteps);
  }

  lemma NextEvent(events: seq<Event>, e: Event, limits: Limits)
    ensures StepsIn(events + [e]) == StepsIn(events) + if e.Step? then 1 else 0
    ensures NoneFinal(events) && !Final(e) ==> NoneFinal(events + [e])
    ensures PromptsFit(events, limits) && (e.Step? ==> e.promptChars <= limits.maxPrompt) ==>
              PromptsFit(events + [e], limits)
    ensures (events + [e])[..|events|] == events
  {
    assert (events + [e])[..|events + [e]| - 1] == events;
  }

  lemma NextTurn(turns: seq<Turn>, turn: Turn)
    requires Writable(turns) && |turns| < MAX_STRING
    requires |turn.reply| + |turn.result| <= 0x3_0000_0000
    ensures Writable(turns + [turn])
  {
    hide Decimal, ClipSuffix;
    SixteenDigits(|turns| + 1);
    SuffixCarriesNumber(|turns| + 1);
    RenderedLength(|turns|, turn);
    hide Rendered;
  }

  lemma SuffixCarriesNumber(n: nat)
    ensures |Decimal(n)| < |ClipSuffix(n)|
  {
  }

  lemma RenderedLength(index: nat, turn: Turn)
    ensures |Rendered(index, turn)| <= |Decimal(index + 1)| + |turn.reply| + |turn.result| + 40
  {
    hide Decimal;
  }

  /** Replies `from` up to `to` were no actions. */
  predicate AllInvalid(replies: seq<Reply>, from: int, to: int)
    requires to <= |replies|
  {
    forall j :: Max(0, from) <= j < to ==> replies[j].NoAction?
  }

  /** `onEvent`. */
  method Emit(events: seq<Event>, e: Event, limits: Limits) returns (r: seq<Event>)
    ensures r == events + [e]
    ensures StepsIn(r) == StepsIn(events) + if e.Step? then 1 else 0
    ensures NoneFinal(events) && !Final(e) ==> NoneFinal(r)
    ensures PromptsFit(events, limits) && (e.Step? ==> e.promptChars <= limits.maxPrompt) ==> PromptsFit(r, limits)
    ensures NoneFinal(events) && Final(e) ==> Ended(r)
    ensures r[|r| - 1] == e
  {
    NextEvent(events, e, limits);
    r := events + [e];
  }

  /** One final event, at the end. */
  predicate Ended(events: seq<Event>) {
    events != [] && Final(events[|events| - 1]) && NoneFinal(events[..|events| - 1])
  }

  /** The run so far: whole steps, each with its turn, and how many of the last were invalid. */
  predicate Going(events: seq<Event>, turns: seq<Turn>, invalid: nat, step: nat, replies: seq<Reply>, limits: Limits)
    requires step <= |replies|
  {
    && NoneFinal(events) && StepsIn(events) == step == |turns|
    && invalid <= step && invalid <= limits.maxInvalid && AllInvalid(replies, step - invalid, step)
  }

  /** Why a run stopped as invalid: the last replies, one more than allowed, were no actions. */
  predicate InvalidExplained(events: seq<Event>, replies: seq<Reply>, limits: Limits) {
    events != [] && events[|events| - 1] == Stopped(Invalid) ==>
      limits.maxInvalid < StepsIn(events) <= |replies| &&
      AllInvalid(replies, StepsIn(events) - limits.maxInvalid - 1, StepsIn(events))
  }

  // ---- what a run comes to ----

  /** The turns the first `k` replies leave: a refused one as it is quoted, with the refusal;
      a tool call as it is shown, with the start of its outcome. */
  function TurnsOf(replies: seq<Reply>, quoted: string -> string, limits: Limits, k: nat): (turns: seq<Turn>)
    requires k <= |replies|
  {
    if k == 0 then []
    else
      var reply := replies[k - 1];
      TurnsOf(replies, quoted, limits, k - 1)
      + match reply
        case NoAction(text) => [Turn(quoted(TakeUpTo(text, 200)), REFUSAL)]
        case Called(shown, raw, _) => [Turn(shown, Clip(raw, limits.maxObservation))]
        case _ => []
  }

  /** A step's first event: its number, and how long its prompt is. */
  function Asked(task: string, replies: seq<Reply>, quoted: string -> string, limits: Limits, k: nat): Event
    requires k <= |replies|
  {
    Step(k + 1, |PromptOf(task, TurnsOf(replies, quoted, limits, k), limits.maxPrompt)|)
  }

  /** The events of the first `k` steps, none of which ends the run. */
  function Steady(task: string, replies: seq<Reply>, quoted: string -> string, limits: Limits, k: nat): seq<Event>
    requires k <= |replies|
  {
    if k == 0 then []
    else
      Steady(task, replies, quoted, limits, k - 1) + [Asked(task, replies, quoted, limits, k - 1)]
      + if replies[k - 1].NoAction? then [BadReply(k)] else [Act(k), Observation(k)]
  }

  /** Reply `i` is the last of more than `maxInvalid` in a row that are no actions. */
  predicate TooManyInvalid(replies: seq<Reply>, i: nat, limits: Limits)
    requires i < |replies|
  {
    i >= limits.maxInvalid && forall j :: i - limits.maxInvalid <= j <= i ==> replies[j].NoAction?
  }

  /** Whether reply `i` ends a run that comes to it. */
  predicate Ends(replies: seq<Reply>, i: nat, limits: Limits)
    requires i < |replies|
  {
    match replies[i]
    case Aborted => true
    case Broke => true
    case Answered => true
    case Called(_, _, aborted) => aborted
    case NoAction(_) => TooManyInvalid(replies, i, limits)
  }

  predicate NoneEnds(replies: seq<Reply>, k: nat, limits: Limits)
    requires k <= |replies|
  {
    forall i :: 0 <= i < k ==> !Ends(replies, i, limits)
  }

  /** The first of the replies to end the run. */
  predicate FirstToEnd(replies: seq<Reply>, i: nat, limits: Limits)
    requires i < |replies|
  {
    NoneEnds(replies, i, limits) && Ends(replies, i, limits)
  }

  /** What reply `k` that ends the run adds to its step. */
  function Ending(reply: Reply, k: nat): seq<Event> {
    match reply
    case Aborted => [Stopped(Cancelled)]
    case Broke => [Failed]
    case Answered => [Act(k + 1), Answer]
    case Called(_, _, _) => [Act(k + 1), Stopped(Cancelled)]
    case NoAction(_) => [BadReply(k + 1), Stopped(Invalid)]
  }

  /** The events of a run that `k` steps did not end: it was cancelled before the next, the
      next one's reply ends it, or there is none. */
  predicate Ran(task: string, replies: seq<Reply>, quoted: string -> string, limits: Limits, events: seq<Event>, k: nat)
    requires k <= |replies|
  {
    && NoneEnds(replies, k, limits)
    && var steady := Steady(task, replies, quoted, limits, k);
       || (k < |replies| && events == steady + [Stopped(Cancelled)])
       || (k < |replies| && Ends(replies, k, limits) &&
           events == steady + ([Asked(task, replies, quoted, limits, k)] + Ending(replies[k], k)))
       || (k == |replies| && events == steady + [Stopped(Steps)])
  }

  /** Where a run is after `k` steps: its events and turns, and how many of the last replies
      were no actions. */
  predicate At(task: string, replies: seq<Reply>, quoted: string -> string, limits: Limits,
               events: seq<Event>, turns: seq<Turn>, invalid: nat, k: nat)
    requires k <= |replies|
  {
    && NoneEnds(replies, k, limits)
    && events == Steady(task, replies, quoted, limits, k) && turns == TurnsOf(replies, quoted, limits, k)
    && invalid <= k && AllInvalid(replies, k - invalid, k) && (invalid < k ==> !replies[k - invalid - 1].NoAction?)
  }

  /** One invalid reply too many, exactly when as many as allowed stand before it. */
  lemma InvalidCounts(replies: seq<Reply>, invalid: nat, k: nat, limits: Limits)
    requires k < |replies| && invalid <= k && invalid <= limits.maxInvalid && replies[k].NoAction?
    requires AllInvalid(replies, k - invalid, k) && (invalid < k ==> !replies[k - invalid - 1].NoAction?)
    ensures Ends(replies, k, limits) <==> invalid + 1 > limits.maxInvalid
  {
  }

  lemma AskedNow(task: string, replies: seq<Reply>, quoted: string -> string, limits: Limits,
                 events: seq<Event>, turns: seq<Turn>, invalid: nat, k: nat)
    requires k <= |replies| && At(task, replies, quoted, limits, events, turns, invalid, k)
    ensures Asked(task, replies, quoted, limits, k) == Step(k + 1, |PromptOf(task, turns, limits.maxPrompt)|)
  {
    hide PromptOf, TurnsOf, Steady, AllInvalid, NoneEnds;
  }

  lemma EndsHere(task: string, replies: seq<Reply>, quoted: string -> string, limits: Limits,
                 before: seq<Event>, turns: seq<Turn>, invalid: nat, k: nat, more: seq<Event>)
    requires k < |replies| && At(task, replies, quoted, limits, before, turns, invalid, k)
    requires more == [Stopped(Cancelled)] ||
             (Ends(replies, k, limits) && more == [Asked(task, replies, quoted, limits, k)] + Ending(replies[k], k))
    ensures Ran(task, replies, quoted, limits, before + more, k)
  {
    hide Asked, Ending, Ends, TurnsOf, Steady, AllInvalid, NoneEnds;
  }

  lemma GoesOn(task: string, replies: seq<Reply>, quoted: string -> string, limits: Limits,
               before: seq<Event>, turns: seq<Turn>, invalid: nat, k: nat, turn: Turn)
    requires k < |replies| && At(task, replies, quoted, limits, before, turns, invalid, k) && !Ends(replies, k, limits)
    requires replies[k].NoAction? ==> turn == Turn(quoted(TakeUpTo(replies[k].text, 200)), REFUSAL)
    requires replies[k].Called? ==> turn == Turn(replies[k].shown, Clip(replies[k].raw, limits.maxObservation))
    ensures replies[k].NoAction? || replies[k].Called?
    ensures At(task, replies, quoted, limits,
               before + ([Asked(task, replies, quoted, limits, k)]
                         + if replies[k].NoAction? then [BadReply(k + 1)] else [Act(k + 1), Observation(k + 1)]),
               turns + [turn], if replies[k].NoAction? then invalid + 1 else 0, k + 1)
  {
    hide Asked, Clip, TakeUpTo, REFUSAL;
    assert replies[k].NoAction? || replies[k].Called?;
    hide Ends;
    var asked := [Asked(task, replies, quoted, limits, k)];
    Associative(before, asked, if replies[k].NoAction? then [BadReply(k + 1)] else [Act(k + 1), Observation(k + 1)]);
  }

  /** A run that is not cancelled answers, fails, gives up or runs out of steps exactly as the
      first reply that ends it is an answer, an error or one invalid reply too many, or there
      is none. */
  lemma EndsAsReplied(task: string, replies: seq<Reply>, quoted: string -> string, limits: Limits, events: seq<Event>, k: nat)
    requires k <= |replies| && Ran(task, replies, quoted, limits, events, k) && events[|events| - 1] != Stopped(Cancelled)
    ensures var last := events[|events| - 1];
            && (last == Answer <==> exists i: nat :: i < |replies| && FirstToEnd(replies, i, limits) && replies[i].Answered?)
            && (last == Failed <==> exists i: nat :: i < |replies| && FirstToEnd(replies, i, limits) && replies[i].Broke?)
            && (last == Stopped(Invalid) <==> exists i: nat :: i < |replies| && FirstToEnd(replies, i, limits) && replies[i].NoAction?)
            && (last == Stopped(Steps) <==> NoneEnds(replies, |replies|, limits))
  {
    hide Steady, Asked, TooManyInvalid;
    forall i: nat | i < |replies| && FirstToEnd(replies, i, limits)
      ensures i >= k && (k < |replies| && Ends(replies, k, limits) ==> i == k)
    {
    }
    if k < |replies| {
      assert FirstToEnd(replies, k, limits);
    }
  }

  /** One turn of the loop: the step's events, and whether the run has ended. */
  method OneStep(task: string, replies: seq<Reply>, quoted: string -> string, limits: Limits,
                 before: seq<Event>, turns: seq<Turn>, invalid: nat, step: nat)
    returns (events: seq<Event>, turn: Turn, nowInvalid: nat, ended: bool)
    requires step < |replies| == limits.maxSteps <= MAX_STRING
    requires Going(before, turns, invalid, step, replies, limits)
    requires At(task, replies, quoted, limits, before, turns, invalid, step)
    ensures if ended then Ran(task, replies, quoted, limits, events, step)
            else At(task, replies, quoted, limits, events, turns + [turn], nowInvalid, step + 1)
    ensures StepsIn(events) <= step + 1
    ensures ended ==> Ended(events) && InvalidExplained(events, replies, limits)
    ensures !ended ==> Going(events, turns + [turn], nowInvalid, step + 1, replies, limits)
    ensures Roomy(limits) && AllShort(replies, quoted, limits) && |task| <= limits.maxTask &&
            Writable(turns) && PromptsFit(before, limits) ==>
              PromptsFit(events, limits) && (!ended ==> Writable(turns + [turn]))
  {
    hide Clip, REFUSAL, TakeUpTo, PromptOf, AllShort, Roomy, Note, StepsIn, NoneFinal, PromptsFit, Writable, Ended;
    hide At, Ran, Ends, Asked, NoneEnds;
    turn, nowInvalid, ended := Turn("", ""), 0, true;
    var aborted: bool := *;
    if aborted {
      EndsHere(task, replies, quoted, limits, before, turns, invalid, step, [Stopped(Cancelled)]);
      events := Emit(before, Stopped(Cancelled), limits);
      return;
    }
    var prompt := BuildPrompt(task, turns, limits.maxPrompt);
    ghost var short := Roomy(limits) && AllShort(replies, quoted, limits) && |task| <= limits.maxTask && Writable(turns);
    if short {
      PromptFits(task, turns, limits);
    }
    AskedNow(task, replies, quoted, limits, before, turns, invalid, step);
    EndsOnItsOwn(replies, step, limits);
    events := Emit(before, Step(step + 1, |prompt|), limits);
    ghost var asked := [Step(step + 1, |prompt|)];
    var reply := replies[step];
    match reply
    case Aborted =>
      EndsHere(task, replies, quoted, limits, before, turns, invalid, step, asked + [Stopped(Cancelled)]);
      Associative(before, asked, [Stopped(Cancelled)]);
      events := Emit(events, Stopped(Cancelled), limits);
    case Broke =>
      EndsHere(task, replies, quoted, limits, before, turns, invalid, step, asked + [Failed]);
      Associative(before, asked, [Failed]);
      events := Emit(events, Failed, limits);
    case NoAction(text) =>
      events := Emit(events, BadReply(step + 1), limits);
      nowInvalid := invalid + 1;
      InvalidAt(task, replies, quoted, limits, before, turns, invalid, step);
      if nowInvalid > limits.maxInvalid {
        EndsHere(task, replies, quoted, limits, before, turns, invalid, step, asked + [BadReply(step + 1), Stopped(Invalid)]);
        TwoMore(before, asked, BadReply(step + 1), Stopped(Invalid));
        events := Emit(events, Stopped(Invalid), limits);
      } else {
        turn, ended := Turn(quoted(TakeUpTo(text, 200)), REFUSAL), false;
        GoesOn(task, replies, quoted, limits, before, turns, invalid, step, turn);
        Associative(before, asked, [BadReply(step + 1)]);
        if short {
          ShortTurn(replies, step, quoted, limits);
          NextTurn(turns, turn);
        }
      }
    case Answered =>
      EndsHere(task, replies, quoted, limits, before, turns, invalid, step, asked + [Act(step + 1), Answer]);
      TwoMore(before, asked, Act(step + 1), Answer);
      events := Emit(events, Act(step + 1), limits);
      events := Emit(events, Answer, limits);
    case Called(shown, raw, toolAborted) =>
      events := Emit(events, Act(step + 1), limits);
      if toolAborted {
        EndsHere(task, replies, quoted, limits, before, turns, invalid, step, asked + [Act(step + 1), Stopped(Cancelled)]);
        TwoMore(before, asked, Act(step + 1), Stopped(Cancelled));
        events := Emit(events, Stopped(Cancelled), limits);
      } else {
        TwoMore(before, asked, Act(step + 1), Observation(step + 1));
        events := Emit(events, Observation(step + 1), limits);
        turn, ended := Turn(shown, Clip(raw, limits.maxObservation)), false;
        GoesOn(task, replies, quoted, limits, before, turns, invalid, step, turn);
        if short {
          ShortTurn(replies, step, quoted, limits);
          NextTurn(turns, turn);
        }
      }
  }

  lemma TwoMore(before: seq<Event>, asked: seq<Event>, a: Event, b: Event)
    ensures before + asked + [a] + [b] == before + (asked + [a, b])
  {
  }

  /** Replies that end or do not end a run wherever they stand. */
  lemma EndsOnItsOwn(replies: seq<Reply>, k: nat, limits: Limits)
    requires k < |replies|
    ensures replies[k].Aborted? || replies[k].Broke? || replies[k].Answered? ==> Ends(replies, k, limits)
    ensures replies[k].Called? ==> (Ends(replies, k, limits) <==> replies[k].aborted)
  {
  }

  lemma InvalidAt(task: string, replies: seq<Reply>, quoted: string -> string, limits: Limits,
                  before: seq<Event>, turns: seq<Turn>, invalid: nat, k: nat)
    requires k < |replies| && At(task, replies, quoted, limits, before, turns, invalid, k)
    requires invalid <= limits.maxInvalid && replies[k].NoAction?
    ensures Ends(replies, k, limits) <==> invalid + 1 > limits.maxInvalid
  {
    InvalidCounts(replies, invalid, k, limits);
  }

  /** `runAgent` against a model and tools that do `replies`, one per step; `quoted` is what
      a refused reply is shown as. */
  method RunAgent(task: string, replies: seq<Reply>, quoted: string -> string, limits: Limits)
    returns (events: seq<Event>)
    requires |replies| == limits.maxSteps <= MAX_STRING
    ensures |task| <= limits.maxTask ==> exists k :: 0 <= k <= |replies| && Ran(task, replies, quoted, limits, events, k)
    ensures Ended(events)
    ensures StepsIn(events) <= limits.maxSteps
    ensures |task| > limits.maxTask ==> events == [Stopped(Task)]
    ensures (Roomy(limits) || limits == DEFAULT_LIMITS) && AllShort(replies, quoted, limits) ==> PromptsFit(events, limits)
    ensures InvalidExplained(events, replies, limits)
  {
    DefaultLimitsAreRoomy();
    hide *;
    events := [];
    Beginning(replies, limits);
    BeginsAt(task, replies, quoted, limits);
    if |task| > limits.maxTask {
      events := Emit(events, Stopped(Task), limits);
      LastWas(events, replies, limits);
      return;
    }
    var turns: seq<Turn> := [];
    var invalid: nat := 0;
    ghost var short := Roomy(limits) && AllShort(replies, quoted, limits);
    for step := 0 to limits.maxSteps
      invariant Going(events, turns, invalid, step, replies, limits)
      invariant At(task, replies, quoted, limits, events, turns, invalid, step)
      invariant short ==> PromptsFit(events, limits) && Writable(turns)
    {
      var turn, ended;
      events, turn, invalid, ended := OneStep(task, replies, quoted, limits, events, turns, invalid, step);
      if ended {
        return;
      }
      turns := turns + [turn];
    }
    GoingSays(events, turns, invalid, limits.maxSteps, replies, limits);
    RanOut(task, replies, quoted, limits, events, turns, invalid);
    events := Emit(events, Stopped(Steps), limits);
    LastWas(events, replies, limits);
  }

  lemma Beginning(replies: seq<Reply>, limits: Limits)
    ensures Going([], [], 0, 0, replies, limits) && NoneFinal([]) && StepsIn([]) == 0
    ensures PromptsFit([], limits) && Writable([])
    ensures Final(Stopped(Task)) && Final(Stopped(Steps))
  {
  }

  lemma BeginsAt(task: string, replies: seq<Reply>, quoted: string -> string, limits: Limits)
    ensures At(task, replies, quoted, limits, [], [], 0, 0)
  {
  }

  lemma RanOut(task: string, replies: seq<Reply>, quoted: string -> string, limits: Limits,
               events: seq<Event>, turns: seq<Turn>, invalid: nat)
    requires At(task, replies, quoted, limits, events, turns, invalid, |replies|)
    ensures Ran(task, replies, quoted, limits, events + [Stopped(Steps)], |replies|)
  {
  }

  lemma GoingSays(events: seq<Event>, turns: seq<Turn>, invalid: nat, step: nat, replies: seq<Reply>, limits: Limits)
    requires step <= |replies| && Going(events, turns, invalid, step, replies, limits)
    ensures NoneFinal(events) && StepsIn(events) == step
  {
  }

  lemma LastWas(events: seq<Event>, replies: seq<Reply>, limits: Limits)
    requires events != [] && events[|events| - 1] != Stopped(Invalid)
    ensures InvalidExplained(events, replies, limits)
  {
  }

  lemma ShortTurn(replies: seq<Reply>, step: nat, quoted: string -> string, limits: Limits)
    requires step < |replies| && AllShort(replies, quoted, limits)
    ensures var reply := replies[step];
            reply.NoAction? ==> |quoted(TakeUpTo(reply.text, 200))| + |REFUSAL| <= 0x3_0000_0000
    ensures var reply := replies[step];
            reply.Called? ==> |reply.shown| + |Clip(reply.raw, limits.maxObservation)| <= 0x3_0000_0000
  {
    var reply := replies[step];
    assert Short(reply, quoted, limits);
    if reply.Called? && |reply.raw| > limits.maxObservation {
      SixteenDigits(|reply.raw| - limits.maxObservation);
    }
  }

  predicate AllShort(replies: seq<Reply>, quoted: string -> string, limits: Limits) {
    forall i :: 0 <= i < |replies| ==> Short(replies[i], quoted, limits)
  }

  /** Replies whose turn the language can write out as a string. */
  predicate Short(reply: Reply, quoted: string -> string, limits: Limits) {
    match reply
    case NoAction(text) => |quoted(TakeUpTo(text, 200))| <= 0x1_0000_0000
    case Called(shown, raw, _) => |shown| <= 0x1_0000_0000 && |raw| <= 0x1_0000_0000
    case _ => true
  }
}
