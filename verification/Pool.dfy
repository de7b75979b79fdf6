/**
 runPool as an interleaving of its own goroutine (the select loop and fill),
 one goroutine per job, and the cancellation of its context. One event is one
 channel operation, one call, or one step of a deferred function.
 */
module Pool {
  import opened Common

  /** Where the pool's own goroutine stands. */
  datatype FillerPc =
    | AtSelect
    | LoopHead
    | TrySlot
    | CallingNext
    | GivingBack
    | Spawning(job: string)
    | Draining
    | Returned

  /** Where a job's goroutine stands: the two deferred functions run after handle. */
  datatype HandlerPc = Handling | Releasing | Waking | MarkingDone | Finished

  datatype Handler = Handler(job: string, pc: HandlerPc)

  /** Why the last fill returned. */
  datatype Stop = NotYet | SlotsBusy | NoJob | SawCancel

  /** delivered and lateClaims are bookkeeping: the jobs next has returned, and how many after the cancel. */
  datatype State = State(
    limit: nat,
    sem: nat,
    wake: bool,
    cancelled: bool,
    filler: FillerPc,
    handlers: seq<Handler>,
    wg: int,
    lastStop: Stop,
    delivered: seq<string>,
    lateClaims: nat)

  /** concurrency, but at least one. */
  function Width(concurrency: int): nat {
    if concurrency < 1 then 1 else concurrency
  }

  function Start(concurrency: int): State {
    State(Width(concurrency), 0, false, false, AtSelect, [], 0, NotYet, [], 0)
  }

  datatype Event =
    | Cancel
    | TickFires
    | WakeReceived
    | DoneSeen
    | HeadChecked
    | SlotTried
    | NextReturns(job: Option<string>)
    | GivesBack
    | Spawns
    | HandleReturns(h: nat)
    | SlotReleased(h: nat)
    | WakeSent(h: nat)
    | DoneMarked(h: nat)
    | WaitOver

  predicate At(s: State, h: nat, pc: HandlerPc) {
    h < |s.handlers| && s.handlers[h].pc == pc
  }

  predicate Enabled(s: State, e: Event) {
    match e
    case Cancel => true
    case TickFires => s.filler.AtSelect?
    case WakeReceived => s.filler.AtSelect? && s.wake
    case DoneSeen => s.filler.AtSelect? && s.cancelled
    case HeadChecked => s.filler.LoopHead?
    case SlotTried => s.filler.TrySlot?
    case NextReturns(_) => s.filler.CallingNext?
    case GivesBack => s.filler.GivingBack? && s.sem > 0
    case Spawns => s.filler.Spawning?
    case HandleReturns(h) => At(s, h, Handling)
    case SlotReleased(h) => At(s, h, Releasing) && s.sem > 0
    case WakeSent(h) => At(s, h, Waking)
    case DoneMarked(h) => At(s, h, MarkingDone)
    case WaitOver => s.filler.Draining? && s.wg == 0
  }

  function Moved(s: State, h: nat, pc: HandlerPc): State
    requires h < |s.handlers|
  {
    s.(handlers := s.handlers[h := s.handlers[h].(pc := pc)])
  }

  function Next(s: State, e: Event): State
    requires Enabled(s, e)
  {
    match e
    case Cancel => s.(cancelled := true)
    case TickFires => s.(filler := LoopHead)
    case WakeReceived => s.(filler := LoopHead, wake := false)
    case DoneSeen => s.(filler := Draining)
    case HeadChecked => if s.cancelled then s.(filler := AtSelect, lastStop := SawCancel) else s.(filler := TrySlot)
    case SlotTried =>
      if s.sem < s.limit then s.(filler := CallingNext, sem := s.sem + 1)
      else s.(filler := AtSelect, lastStop := SlotsBusy)
    case NextReturns(Some(job)) =>
      s.(filler := Spawning(job), delivered := s.delivered + [job],
         lateClaims := s.lateClaims + if s.cancelled then 1 else 0)
    case NextReturns(None) => s.(filler := GivingBack)
    case GivesBack => s.(filler := AtSelect, sem := s.sem - 1, lastStop := NoJob)
    case Spawns => s.(filler := LoopHead, wg := s.wg + 1, handlers := s.handlers + [Handler(s.filler.job, Handling)])
    case HandleReturns(h) => Moved(s, h, Releasing)
    case SlotReleased(h) => Moved(s, h, Waking).(sem := s.sem - 1)
    case WakeSent(h) => Moved(s, h, MarkingDone).(wake := true)
    case DoneMarked(h) => Moved(s, h, Finished).(wg := s.wg - 1)
    case WaitOver => s.(filler := Returned)
  }

  // ---------- Runs ----------

  predicate IsRun(s: State, es: seq<Event>)
    decreases |es|, 0
  {
    es == [] || (IsRun(s, es[..|es| - 1]) && Enabled(After(s, es[..|es| - 1]), es[|es| - 1]))
  }

  function After(s: State, es: seq<Event>): State
    requires IsRun(s, es)
    decreases |es|, 1
  {
    if es == [] then s else Next(After(s, es[..|es| - 1]), es[|es| - 1])
  }

  // ---------- Counting goroutines ----------

  function Total(hs: seq<Handler>, weight: HandlerPc -> nat): nat {
    if hs == [] then 0 else Total(hs[..|hs| - 1], weight) + weight(hs[|hs| - 1].pc)
  }

  lemma {:induction false} TotalAfterMove(hs: seq<Handler>, h: nat, pc: HandlerPc, weight: HandlerPc -> nat)
    requires h < |hs|
    ensures Total(hs[h := hs[h].(pc := pc)], weight) == Total(hs, weight) - weight(hs[h].pc) + weight(pc)
    ensures weight(hs[h].pc) <= Total(hs, weight)
  {
    var hs' := hs[h := hs[h].(pc := pc)];
    if h == |hs| - 1 {
      assert hs'[..|hs| - 1] == hs[..|hs| - 1];
    } else {
      TotalAfterMove(hs[..|hs| - 1], h, pc, weight);
      assert hs'[..|hs| - 1] == hs[..|hs| - 1][h := hs[h].(pc := pc)];
    }
  }

  lemma TotalAfterSpawn(hs: seq<Handler>, new': Handler, weight: HandlerPc -> nat)
    ensures Total(hs + [new'], weight) == Total(hs, weight) + weight(new'.pc)
  {
    assert (hs + [new'])[..|hs|] == hs;
  }

  /** A handler holds its slot until it has received from the semaphore. */
  function Holds(pc: HandlerPc): nat {
    if pc.Handling? || pc.Releasing? then 1 else 0
  }

  /** A handler counts in the wait group until it has called Done. */
  function Counts(pc: HandlerPc): nat {
    if pc.Finished? then 0 else 1
  }

  /** The filler holds a slot from taking it until it gives it back or hands it over. */
  function Probe(f: FillerPc): nat {
    if f.CallingNext? || f.GivingBack? || f.Spawning? then 1 else 0
  }

  function Jobs(hs: seq<Handler>): seq<string> {
    seq(|hs|, i requires 0 <= i < |hs| => hs[i].job)
  }

  // ---------- The invariant ----------

  /** The semaphore holds one token per working handler, plus the filler's own. */
  ghost predicate Slots(s: State) {
    s.sem == Total(s.handlers, Holds) + Probe(s.filler) && s.sem <= s.limit
  }

  ghost predicate Waits(s: State) {
    s.wg == Total(s.handlers, Counts)
  }

  /** Every job next returned has its one handler, in that order, or is about to get it. */
  ghost predicate Handed(s: State) {
    s.delivered == Jobs(s.handlers) + if s.filler.Spawning? then [s.filler.job] else []
  }

  /** No lost wake-up, for a fill that stopped on busy slots. */
  ghost predicate Awake(s: State) {
    s.filler.AtSelect? && s.lastStop.SlotsBusy? && !s.wake ==> s.sem == s.limit || exists h :: At(s, h, Waking)
  }

  ghost predicate Winding(s: State) {
    && (s.filler.Draining? || s.filler.Returned? ==> s.cancelled)
    && (s.filler.Returned? ==> s.wg == 0)
    && (!s.cancelled ==> s.lateClaims == 0)
    && s.lateClaims + (if s.filler.TrySlot? || s.filler.CallingNext? then 1 else 0) <= 1
  }

  ghost predicate Inv(s: State) {
    Slots(s) && Waits(s) && Handed(s) && Awake(s) && Winding(s)
  }

  /** Where an event leaves the handler it names. */
  function Target(e: Event): HandlerPc
    requires e.HandleReturns? || e.SlotReleased? || e.WakeSent? || e.DoneMarked?
  {
    if e.HandleReturns? then Releasing
    else if e.SlotReleased? then Waking
    else if e.WakeSent? then MarkingDone
    else Finished
  }

  predicate IsHandlers(e: Event) {
    e.HandleReturns? || e.SlotReleased? || e.WakeSent? || e.DoneMarked?
  }

  /** How one event moves the sum of any weight over the handlers. */
  lemma StepMovesTotal(s: State, e: Event, weight: HandlerPc -> nat)
    requires Enabled(s, e)
    ensures IsHandlers(e) ==>
              && Total(Next(s, e).handlers, weight)
                 == Total(s.handlers, weight) - weight(s.handlers[e.h].pc) + weight(Target(e))
              && weight(s.handlers[e.h].pc) <= Total(s.handlers, weight)
    ensures e.Spawns? ==> Total(Next(s, e).handlers, weight) == Total(s.handlers, weight) + weight(Handling)
    ensures !IsHandlers(e) && !e.Spawns? ==> Next(s, e).handlers == s.handlers
  {
    if IsHandlers(e) {
      TotalAfterMove(s.handlers, e.h, Target(e), weight);
    } else if e.Spawns? {
      TotalAfterSpawn(s.handlers, Handler(s.filler.job, Handling), weight);
    }
  }

  lemma StepKeepsSlots(s: State, e: Event)
    requires Slots(s) && Enabled(s, e)
    ensures Slots(Next(s, e))
  {
    StepMovesTotal(s, e, Holds);
    StepMovesTokens(s, e);
  }

  /** How one event moves the tokens that are not its handler's. */
  lemma StepMovesTokens(s: State, e: Event)
    requires Enabled(s, e)
    ensures Next(s, e).limit == s.limit
    ensures IsHandlers(e) ==>
              && Probe(Next(s, e).filler) == Probe(s.filler)
              && Next(s, e).sem - s.sem == Holds(Target(e)) - Holds(s.handlers[e.h].pc)
    ensures e.Spawns? ==> Next(s, e).sem - s.sem == Probe(Next(s, e).filler) - Probe(s.filler) + 1
    ensures !IsHandlers(e) && !e.Spawns? ==> Next(s, e).sem - s.sem == Probe(Next(s, e).filler) - Probe(s.filler)
    ensures Next(s, e).sem <= s.sem || Next(s, e).sem <= s.limit
  {
  }

  lemma StepKeepsWaits(s: State, e: Event)
    requires Waits(s) && Enabled(s, e)
    ensures Waits(Next(s, e))
  {
    StepMovesTotal(s, e, Counts);
  }

  lemma StepKeepsHanded(s: State, e: Event)
    requires Handed(s) && Enabled(s, e)
    ensures Handed(Next(s, e))
  {
    var s' := Next(s, e);
    if e.Spawns? {
      assert Jobs(s'.handlers) == Jobs(s.handlers) + [s.filler.job];
    } else {
      assert Jobs(s'.handlers) == Jobs(s.handlers);
    }
  }

  lemma StepKeepsAwake(s: State, e: Event)
    requires Awake(s) && Slots(s) && Enabled(s, e)
    ensures Awake(Next(s, e))
  {
    var s' := Next(s, e);
    if e.SlotReleased? {
      assert At(s', e.h, Waking);
    } else if s'.filler.AtSelect? && s.filler.AtSelect? && !s'.wake {
      if h :| At(s, h, Waking) {
        assert At(s', h, Waking);
      }
    }
  }

  lemma StepKeepsWinding(s: State, e: Event)
    requires Winding(s) && Waits(s) && Enabled(s, e)
    ensures Winding(Next(s, e))
  {
    if e.DoneMarked? {
      TotalAfterMove(s.handlers, e.h, Finished, Counts);
    }
  }

  // ---------- What holds in every run ----------

  lemma StepKeepsInv(s: State, e: Event)
    requires Inv(s) && Enabled(s, e)
    ensures Inv(Next(s, e))
  {
    StepKeepsSlots(s, e);
    StepKeepsWaits(s, e);
    StepKeepsHanded(s, e);
    StepKeepsAwake(s, e);
    StepKeepsWinding(s, e);
  }

  lemma {:induction false} RunsKeepInv(s: State, es: seq<Event>)
    requires Inv(s) && IsRun(s, es)
    ensures Inv(After(s, es)) && After(s, es).limit == s.limit
    decreases |es|
  {
    if es != [] {
      RunsKeepInv(s, es[..|es| - 1]);
      StepKeepsInv(After(s, es[..|es| - 1]), es[|es| - 1]);
    }
  }

  function InHandle(pc: HandlerPc): nat {
    if pc.Handling? then 1 else 0
  }

  lemma {:induction false} TotalIsMonotone(hs: seq<Handler>, v: HandlerPc -> nat, w: HandlerPc -> nat)
    requires forall pc :: v(pc) <= w(pc)
    ensures Total(hs, v) <= Total(hs, w)
  {
    if hs != [] {
      TotalIsMonotone(hs[..|hs| - 1], v, w);
    }
  }

  /** At most Width jobs are in handle at once, and a token is held for each job that has not released its slot. */
  lemma {:induction false} SlotsAreConserved(concurrency: int, es: seq<Event>)
    requires IsRun(Start(concurrency), es)
    ensures var s := After(Start(concurrency), es);
      && s.sem == Total(s.handlers, Holds) + Probe(s.filler)
      && (concurrency >= 1 ==> s.limit == concurrency) && (concurrency < 1 ==> s.limit == 1)
      && s.sem <= s.limit
      && s.sem <= Width(concurrency)
      && Total(s.handlers, InHandle) <= Width(concurrency)
      && s.wg == Total(s.handlers, Counts)
  {
    RunsKeepInv(Start(concurrency), es);
    TotalIsMonotone(After(Start(concurrency), es).handlers, InHandle, Holds);
  }

  /** A receive from the semaphore never blocks: whoever reaches one finds a token. */
  lemma {:induction false} ReceivesNeverBlock(concurrency: int, es: seq<Event>, h: nat)
    requires IsRun(Start(concurrency), es)
    ensures var s := After(Start(concurrency), es);
      && (s.filler.GivingBack? ==> Enabled(s, GivesBack))
      && (At(s, h, Releasing) ==> Enabled(s, SlotReleased(h)))
  {
    RunsKeepInv(Start(concurrency), es);
    var s := After(Start(concurrency), es);
    if At(s, h, Releasing) {
      TotalAfterMove(s.handlers, h, Waking, Holds);
    }
  }

  /**
   No lost wake-up: a pool waiting with an empty wake channel, whose last fill
   found every slot busy, still has every slot busy or a handler about to wake it.
   */
  lemma {:induction false} NoLostWakeUp(concurrency: int, es: seq<Event>)
    requires IsRun(Start(concurrency), es)
    ensures var s := After(Start(concurrency), es);
      s.filler.AtSelect? && s.lastStop.SlotsBusy? && !s.wake ==>
        s.sem == s.limit || exists h :: At(s, h, Waking)
  {
    RunsKeepInv(Start(concurrency), es);
  }

  /** After the cancel next returns at most one more job. */
  lemma {:induction false} AtMostOneLateClaim(concurrency: int, es: seq<Event>)
    requires IsRun(Start(concurrency), es)
    ensures After(Start(concurrency), es).lateClaims <= 1
  {
    RunsKeepInv(Start(concurrency), es);
  }

  /** The filler is past its check of the context, on its way to next or inside it. */
  predicate IsClaiming(f: FillerPc) {
    f.TrySlot? || f.CallingNext?
  }

  /** What next first answers in a run, if it is called at all: Some(job) or None. */
  function FirstReply(es: seq<Event>): Option<Option<string>> {
    if es == [] then None
    else if FirstReply(es[..|es| - 1]).Some? || !es[|es| - 1].NextReturns? then FirstReply(es[..|es| - 1])
    else Some(es[|es| - 1].job)
  }

  /** What a pool does about a claim under way when it was cancelled: n is the number of late claims before. */
  ghost predicate LateSoFar(claiming: bool, n: nat, s: State, post: seq<Event>) {
    && s.cancelled
    && (IsClaiming(s.filler) ==> claiming && FirstReply(post).None?)
    && (!claiming ==> FirstReply(post).None?)
    && s.lateClaims == n + if FirstReply(post).Some? && FirstReply(post).value.Some? then 1 else 0
  }

  lemma StepKeepsLate(claiming: bool, n: nat, s: State, post: seq<Event>, e: Event)
    requires Enabled(s, e) && LateSoFar(claiming, n, s, post)
    ensures LateSoFar(claiming, n, Next(s, e), post + [e])
  {
    assert (post + [e])[..|post|] == post;
  }

  lemma {:induction false} LateClaimsAfter(s: State, post: seq<Event>)
    requires s.cancelled && IsRun(s, post)
    ensures LateSoFar(IsClaiming(s.filler), s.lateClaims, After(s, post), post)
    decreases |post|
  {
    if post != [] {
      var front, e := post[..|post| - 1], post[|post| - 1];
      LateClaimsAfter(s, front);
      StepKeepsLate(IsClaiming(s.filler), s.lateClaims, After(s, front), front, e);
      assert post == front + [e];
    }
  }

  lemma {:induction false} RunAfterRun(s: State, pre: seq<Event>, post: seq<Event>)
    requires IsRun(s, pre + post)
    ensures IsRun(s, pre) && IsRun(After(s, pre), post) && After(s, pre + post) == After(After(s, pre), post)
    decreases |post|
  {
    if post == [] {
      assert pre + post == pre;
    } else {
      assert (pre + post)[..|pre + post| - 1] == pre + post[..|post| - 1];
      RunAfterRun(s, pre, post[..|post| - 1]);
    }
  }

  /**
   When there is a late claim: exactly when the cancel met the filler between its
   check of the context and the answer of next, and that answer was a job.
   */
  lemma LateClaimWhen(concurrency: int, pre: seq<Event>, post: seq<Event>)
    requires IsRun(Start(concurrency), pre + [Cancel] + post) && Cancel !in pre
    ensures IsRun(Start(concurrency), pre)
    ensures After(Start(concurrency), pre + [Cancel] + post).lateClaims == 1 <==>
              && IsClaiming(After(Start(concurrency), pre).filler)
              && FirstReply(post).Some? && FirstReply(post).value.Some?
    ensures !IsClaiming(After(Start(concurrency), pre).filler) ==> FirstReply(post).None?
  {
    var start := Start(concurrency);
    RunAfterRun(start, pre + [Cancel], post);
    RunAfterRun(start, pre, [Cancel]);
    RunsKeepInv(start, pre);
    NotCancelled(start, pre);
    assert (pre + [Cancel])[..|pre|] == pre;
    LateClaimsAfter(After(start, pre + [Cancel]), post);
  }

  lemma {:induction false} NotCancelled(s: State, es: seq<Event>)
    requires !s.cancelled && IsRun(s, es) && Cancel !in es
    ensures !After(s, es).cancelled
    decreases |es|
  {
    if es != [] {
      NotCancelled(s, es[..|es| - 1]);
    }
  }

  /** There are late claims: a cancel while next is being called, which then returns a job. */
  lemma LateClaimHappens(concurrency: int, job: string) returns (es: seq<Event>)
    ensures IsRun(Start(concurrency), es) && After(Start(concurrency), es).lateClaims == 1
    ensures es == [TickFires, HeadChecked, SlotTried, Cancel, NextReturns(Some(job))]
  {
    var s := Start(concurrency);
    es := [];
    es := Grow(s, es, TickFires);
    es := Grow(s, es, HeadChecked);
    es := Grow(s, es, SlotTried);
    es := Grow(s, es, Cancel);
    es := Grow(s, es, NextReturns(Some(job)));
  }

  lemma Grow(s: State, es: seq<Event>, e: Event) returns (longer: seq<Event>)
    requires IsRun(s, es) && Enabled(After(s, es), e)
    ensures longer == es + [e] && IsRun(s, longer) && After(s, longer) == Next(After(s, es), e)
  {
    longer := es + [e];
    assert longer[..|es|] == es;
  }

  lemma {:induction false} TotalZeroMeansFinished(hs: seq<Handler>)
    requires Total(hs, Counts) == 0
    ensures forall h :: 0 <= h < |hs| ==> hs[h].pc == Finished
  {
    forall h | 0 <= h < |hs| ensures hs[h].pc == Finished {
      TotalAfterMove(hs, h, Finished, Counts);
    }
  }

  /** How often handle has returned for one handler. */
  function Returns(es: seq<Event>, h: nat): nat {
    if es == [] then 0 else Returns(es[..|es| - 1], h) + if es[|es| - 1] == HandleReturns(h) then 1 else 0
  }

  function Past(s: State, h: nat): nat {
    if h < |s.handlers| && s.handlers[h].pc != Handling then 1 else 0
  }

  lemma StepCountsReturn(s: State, e: Event, h: nat)
    requires Enabled(s, e)
    ensures Past(Next(s, e), h) == Past(s, h) + if e == HandleReturns(h) then 1 else 0
  {
  }

  /** A job's handle returns once, and has returned exactly when its goroutine is past it. */
  lemma {:induction false} HandledExactlyOnce(concurrency: int, es: seq<Event>, h: nat)
    requires IsRun(Start(concurrency), es)
    ensures var s := After(Start(concurrency), es);
      Returns(es, h) == if h < |s.handlers| && s.handlers[h].pc != Handling then 1 else 0
    decreases |es|
  {
    if es != [] {
      HandledExactlyOnce(concurrency, es[..|es| - 1], h);
      StepCountsReturn(After(Start(concurrency), es[..|es| - 1]), es[|es| - 1], h);
    }
  }

  /**
   When runPool has returned, every job next ever gave it has been handled to
   the end, all slots are free, and the pool can take no step but a further cancel.
   */
  lemma {:induction false} ReturnMeansDrained(concurrency: int, es: seq<Event>, e: Event)
    requires IsRun(Start(concurrency), es)
    requires After(Start(concurrency), es).filler.Returned?
    ensures var s := After(Start(concurrency), es);
      && s.cancelled && s.sem == 0
      && s.delivered == Jobs(s.handlers)
      && (forall h :: 0 <= h < |s.handlers| ==> s.handlers[h].pc == Finished && Returns(es, h) == 1)
      && (Enabled(s, e) ==> e == Cancel)
  {
    RunsKeepInv(Start(concurrency), es);
    var s := After(Start(concurrency), es);
    TotalZeroMeansFinished(s.handlers);
    TotalIsMonotone(s.handlers, Holds, Counts);
    assert forall h :: 0 <= h < |s.handlers| ==> s.handlers[h].pc == Finished;
    forall h | 0 <= h < |s.handlers| ensures Returns(es, h) == 1 {
      HandledExactlyOnce(concurrency, es, h);
    }
  }

  // ---------- When a fill ends ----------

  /** A step of the pool's own goroutine. */
  predicate OfFiller(e: Event) {
    !e.Cancel? && !IsHandlers(e)
  }

  /** Since step j only handlers moved, or the context was cancelled. */
  predicate QuietAfter(es: seq<Event>, j: nat) {
    forall i :: j < i < |es| ==> !OfFiller(es[i])
  }

  /** At step j next answered that there is no job, or failed. */
  predicate AnswersNone(es: seq<Event>, j: nat) {
    j < |es| && es[j] == NextReturns(None) && QuietAfter(es, j)
  }

  /** Step j ended a fill, for the reason on record. */
  ghost predicate EndsFill(s0: State, es: seq<Event>, j: nat, why: Stop) {
    && j < |es| && IsRun(s0, es[..j]) && QuietAfter(es, j)
    && (why.SlotsBusy? ==> es[j] == SlotTried && After(s0, es[..j]).sem == After(s0, es[..j]).limit)
    && (why.NoJob? ==> es[j] == GivesBack && exists i :: AnswersNone(es[..j], i))
    && (why.SawCancel? ==> es[j] == HeadChecked && After(s0, es[..j]).cancelled)
    && !why.NotYet?
  }

  /** A waiting pool has not filled yet, or its last step ended a fill for the reason it gives. */
  ghost predicate FillsToTheEnd(s0: State, es: seq<Event>, s: State) {
    && (s.filler.GivingBack? ==> exists i :: AnswersNone(es, i))
    && (s.filler.AtSelect? && s.lastStop.NotYet? ==> QuietAfter(es, 0) && (es != [] ==> !OfFiller(es[0])))
    && (s.filler.AtSelect? && !s.lastStop.NotYet? ==> exists j :: EndsFill(s0, es, j, s.lastStop))
  }

  lemma QuietGoesOn(s0: State, es: seq<Event>, e: Event, j: nat, why: Stop)
    requires !OfFiller(e)
    ensures QuietAfter(es, j) ==> QuietAfter(es + [e], j)
    ensures AnswersNone(es, j) ==> AnswersNone(es + [e], j)
    ensures EndsFill(s0, es, j, why) ==> EndsFill(s0, es + [e], j, why)
  {
    if j < |es| {
      assert (es + [e])[..j] == es[..j];
    }
  }

  lemma OthersLeaveFiller(s: State, e: Event)
    requires Enabled(s, e) && !OfFiller(e)
    ensures Next(s, e).filler == s.filler && Next(s, e).lastStop == s.lastStop
  {
  }

  lemma FillerEndsFill(s0: State, es: seq<Event>, e: Event)
    requires IsRun(s0, es) && OfFiller(e) && Enabled(After(s0, es), e) && Slots(After(s0, es))
    requires FillsToTheEnd(s0, es, After(s0, es))
    ensures FillsToTheEnd(s0, es + [e], Next(After(s0, es), e))
  {
    var s, s' := After(s0, es), Next(After(s0, es), e);
    assert (es + [e])[..|es|] == es;
    if s'.filler.GivingBack? {
      assert AnswersNone(es + [e], |es|);
    }
    if s'.filler.AtSelect? {
      assert EndsFill(s0, es + [e], |es|, s'.lastStop);
    }
  }

  lemma OtherKeepsFill(s0: State, es: seq<Event>, e: Event)
    requires IsRun(s0, es) && !OfFiller(e) && Enabled(After(s0, es), e) && FillsToTheEnd(s0, es, After(s0, es))
    ensures FillsToTheEnd(s0, es + [e], Next(After(s0, es), e))
  {
    var s := After(s0, es);
    OthersLeaveFiller(s, e);
    QuietGoesOn(s0, es, e, 0, s.lastStop);
    if s.filler.GivingBack? {
      var i :| AnswersNone(es, i);
      QuietGoesOn(s0, es, e, i, s.lastStop);
    }
    if s.filler.AtSelect? && !s.lastStop.NotYet? {
      var j :| EndsFill(s0, es, j, s.lastStop);
      QuietGoesOn(s0, es, e, j, s.lastStop);
    }
  }

  /**
   A fill never stops early: whenever the pool waits after a tick or a wake-up, its
   last own step found every slot taken, or gave a slot back because next had
   answered that there is no job, or found the context cancelled.
   */
  lemma {:induction false} FillsGoToTheEnd(concurrency: int, es: seq<Event>)
    requires IsRun(Start(concurrency), es)
    ensures FillsToTheEnd(Start(concurrency), es, After(Start(concurrency), es))
    decreases |es|
  {
    if es != [] {
      var front, e := es[..|es| - 1], es[|es| - 1];
      FillsGoToTheEnd(concurrency, front);
      RunsKeepInv(Start(concurrency), front);
      LastStepFillsToTheEnd(Start(concurrency), es);
    }
  }

  lemma LastStepFillsToTheEnd(s0: State, es: seq<Event>)
    requires es != [] && IsRun(s0, es)
    requires var front := es[..|es| - 1]; Inv(After(s0, front)) && FillsToTheEnd(s0, front, After(s0, front))
    ensures FillsToTheEnd(s0, es, After(s0, es))
  {
    var front, e := es[..|es| - 1], es[|es| - 1];
    if OfFiller(e) {
      FillerEndsFill(s0, front, e);
    } else {
      OtherKeepsFill(s0, front, e);
    }
    assert es == front + [e];
  }

  // ---------- The drain ends ----------

  function HandlerWork(pc: HandlerPc): nat {
    match pc
    case Handling => 40
    case Releasing => 30
    case Waking => 20
    case MarkingDone => 10
    case Finished => 0
  }

  function FillerWork(f: FillerPc): nat {
    match f
    case TrySlot => 46
    case CallingNext => 45
    case Spawning(_) => 44
    case GivingBack => 3
    case LoopHead => 3
    case AtSelect => 2
    case Draining => 1
    case Returned => 0
  }

  /** A bound on the steps a cancelled pool still has to take. */
  function Work(s: State): nat {
    Total(s.handlers, HandlerWork) + FillerWork(s.filler) + if s.wake then 5 else 0
  }

  lemma DrainStepWorks(s: State, e: Event)
    requires s.cancelled && Enabled(s, e) && !e.Cancel?
    ensures Work(Next(s, e)) <= if e.TickFires? then Work(s) + 1 else Work(s) - 1
  {
    StepMovesTotal(s, e, HandlerWork);
  }

  function Ticks(es: seq<Event>): (n: nat)
    ensures n <= |es|
  {
    if es == [] then 0 else Ticks(es[..|es| - 1]) + if es[|es| - 1].TickFires? then 1 else 0
  }

  /** Once cancelled, a pool takes no more steps than its remaining work, but for two a tick. */
  lemma {:induction false} DrainIsBounded(s: State, es: seq<Event>)
    requires s.cancelled && IsRun(s, es) && Cancel !in es
    ensures After(s, es).cancelled
    ensures |es| + Work(After(s, es)) <= Work(s) + 2 * Ticks(es)
    decreases |es|
  {
    if es != [] {
      var prefix := es[..|es| - 1];
      DrainIsBounded(s, prefix);
      DrainStepWorks(After(s, prefix), es[|es| - 1]);
    }
  }

  lemma {:induction false} SomeoneCounts(hs: seq<Handler>) returns (h: nat)
    requires Total(hs, Counts) > 0
    ensures h < |hs| && hs[h].pc != Finished
  {
    h := |hs| - 1;
    if hs[h].pc == Finished {
      h := SomeoneCounts(hs[..|hs| - 1]);
    }
  }

  /** A cancelled pool never hangs: until it has returned, some step other than a tick can be taken. */
  lemma {:induction false} DrainNeverStalls(concurrency: int, es: seq<Event>)
    requires IsRun(Start(concurrency), es)
    requires var s := After(Start(concurrency), es); s.cancelled && !s.filler.Returned?
    ensures exists e :: Enabled(After(Start(concurrency), es), e) && !e.TickFires? && !e.Cancel?
  {
    RunsKeepInv(Start(concurrency), es);
    var s := After(Start(concurrency), es);
    var e :=
      match s.filler
      case AtSelect => DoneSeen
      case LoopHead => HeadChecked
      case TrySlot => SlotTried
      case CallingNext => NextReturns(None)
      case GivingBack => GivesBack
      case Spawning(_) => Spawns
      case _ => WaitOver;
    if s.filler.Draining? && s.wg > 0 {
      var h := SomeoneCounts(s.handlers);
      TotalAfterMove(s.handlers, h, Waking, Holds);
      e := match s.handlers[h].pc
           case Handling => HandleReturns(h)
           case Releasing => SlotReleased(h)
           case Waking => WakeSent(h)
           case _ => DoneMarked(h);
    }
    assert Enabled(s, e);
  }
}
