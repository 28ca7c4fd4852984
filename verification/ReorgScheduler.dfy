/**
 `scheduleReorgLoop`: collects reset and promotion requests, runs at most one
 background reorg at a time, and hands every requester the channel that the
 run serving it closes.  Channels are numbered in the order they are made; the
 state keeps the history the claims speak about.
 */
module ReorgScheduler {
  import opened Prelude
  import opened Transactions

  type Channel = nat
  type HeadId = nat

  datatype ResetRequest = ResetRequest(oldHead: HeadId, newHead: HeadId)

  /** What a requester asked for: the `k`-th head change, or the promotion of some accounts. */
  datatype Ask = Reset(k: nat) | Promote(accounts: set<Address>)

  datatype Ticket = Ticket(ask: Ask, done: Channel)

  /** A launched reorg: its channel, its work, and the head changes `from..to` its reset stands for. */
  datatype Launched = Launched(done: Channel, reset: Option<ResetRequest>, dirty: Option<set<Address>>,
                               events: seq<Tx>, from: nat, to: nat)

  datatype State = State(
    curDone: Option<Channel>, nextDone: Channel, launchNextRun: bool,
    reset: Option<ResetRequest>, dirty: Option<set<Address>>, queued: seq<Tx>, returned: bool,
    heads: seq<HeadId>, served: nat, runs: seq<Launched>, closed: set<Channel>, tickets: seq<Ticket>)

  datatype Event =
    | ChainHead(head: HeadId)
    | PromoteRequest(accounts: set<Address>)
    | QueueEvent(tx: Tx)
    | RunEnds
    | SeeDone
    | Shutdown

  function Init(head: HeadId): State {
    State(None, 0, false, None, None, [], false, [head], 0, [], {}, [])
  }

  /** The top of the loop: starts the next run when none is active and one is due. */
  function Launch(s: State): State
    requires s.heads != []
  {
    if s.curDone.None? && s.launchNextRun && !s.returned then
      s.(curDone := Some(s.nextDone), nextDone := s.nextDone + 1, launchNextRun := false,
         reset := None, dirty := None, queued := [],
         runs := s.runs + [Launched(s.nextDone, s.reset, s.dirty, s.queued, s.served, |s.heads| - 1)],
         served := |s.heads| - 1)
      else s
  }

  /** One case of the select; a case that cannot fire changes nothing. */
  function Handle(s: State, e: Event): State
    requires s.heads != []
  {
    if s.returned then s else
    match e
    case ChainHead(head) =>
      // The pool's main loop asks for a reset from the head it last saw.
      var req := ResetRequest(s.heads[|s.heads| - 1], head);
      s.(reset := Some(if s.reset.None? then req else s.reset.value.(newHead := req.newHead)),
         launchNextRun := true, heads := s.heads + [head],
         tickets := s.tickets + [Ticket(Reset(|s.heads| - 1), s.nextDone)])
    case PromoteRequest(accounts) =>
      s.(dirty := Some(if s.dirty.None? then accounts else s.dirty.value + accounts),
         launchNextRun := true, tickets := s.tickets + [Ticket(Promote(accounts), s.nextDone)])
    case QueueEvent(tx) =>
      s.(queued := s.queued + [tx])
    case RunEnds =>
      if s.curDone.Some? then s.(closed := s.closed + {s.curDone.value}) else s
    case SeeDone =>
      if s.curDone.Some? && s.curDone.value in s.closed then s.(curDone := None) else s
    case Shutdown =>
      // Waits for the active run, then lets go of everybody still waiting.
      var ended := if s.curDone.Some? then s.closed + {s.curDone.value} else s.closed;
      s.(closed := ended + {s.nextDone}, returned := true)
  }

  function Step(s: State, e: Event): State
    requires s.heads != []
  {
    Launch(Handle(s, e))
  }

  function Run(head: HeadId, events: seq<Event>): (s: State)
    ensures s.heads != []
  {
    if events == [] then Init(head) else Step(Run(head, events[..|events| - 1]), events[|events| - 1])
  }

  /** The loop, over the events it sees. */
  method ScheduleReorgLoop(head: HeadId, events: seq<Event>) returns (s: State)
    ensures s == Run(head, events)
  {
    hide Launch, Handle;
    s := Init(head);
    for i := 0 to |events|
      invariant s == Run(head, events[..i])
    {
      assert events[..i + 1][..i] == events[..i];
      s := SelectCase(s, events[i]);
      s := LaunchIfDue(s);
    }
    assert events[..|events|] == events;
  }

  method LaunchIfDue(s: State) returns (r: State)
    requires s.heads != []
    ensures r == Launch(s)
  {
    r := s;
    if r.curDone.None? && r.launchNextRun && !r.returned {
      r := r.(runs := r.runs + [Launched(r.nextDone, r.reset, r.dirty, r.queued, r.served, |r.heads| - 1)]);
      r := r.(curDone := Some(r.nextDone), nextDone := r.nextDone + 1);
      r := r.(launchNextRun := false, served := |r.heads| - 1);
      r := r.(reset := None, dirty := None, queued := []);
    }
  }

  method SelectCase(s: State, e: Event) returns (r: State)
    requires s.heads != []
    ensures r == Handle(s, e) && r.heads != []
  {
    r := s;
    if r.returned {
      return;
    }
    match e {
      case ChainHead(h) =>
        var req := ResetRequest(r.heads[|r.heads| - 1], h);
        if r.reset.None? {
          r := r.(reset := Some(req));
        } else {
          r := r.(reset := Some(r.reset.value.(newHead := req.newHead)));
        }
        r := r.(launchNextRun := true, tickets := r.tickets + [Ticket(Reset(|r.heads| - 1), r.nextDone)]);
        r := r.(heads := r.heads + [h]);
      case PromoteRequest(accounts) =>
        if r.dirty.None? {
          r := r.(dirty := Some(accounts));
        } else {
          r := r.(dirty := Some(r.dirty.value + accounts));
        }
        r := r.(launchNextRun := true, tickets := r.tickets + [Ticket(Promote(accounts), r.nextDone)]);
      case QueueEvent(tx) =>
        r := r.(queued := r.queued + [tx]);
      case RunEnds =>
        if r.curDone.Some? {
          r := r.(closed := r.closed + {r.curDone.value});
        }
      case SeeDone =>
        if r.curDone.Some? && r.curDone.value in r.closed {
          r := r.(curDone := None);
        }
      case Shutdown =>
        if r.curDone.Some? {
          r := r.(closed := r.closed + {r.curDone.value});
        }
        r := r.(closed := r.closed + {r.nextDone}, returned := true);
    }
  }

  /** Whether a run with this reset, these dirty accounts and these head changes does what was asked. */
  predicate Serves(ask: Ask, reset: Option<ResetRequest>, dirty: Option<set<Address>>, from: nat, to: nat) {
    match ask
    case Reset(k) => reset.Some? && from <= k < to
    case Promote(accounts) => dirty.Some? && accounts <= dirty.value
  }

  /** A reset stands for the head changes `from..to`: it leads from the first old head to the last new one. */
  predicate Spans(heads: seq<HeadId>, reset: Option<ResetRequest>, from: nat, to: nat) {
    && from <= to < |heads|
    && (reset.None? <==> from == to)
    && (reset.Some? ==> reset.value == ResetRequest(heads[from], heads[to]))
  }

  /** Runs take channels in order, and only the last can still be active. */
  ghost predicate RunsInOrder(s: State) {
    && |s.runs| == s.nextDone
    && (forall i :: 0 <= i < |s.runs| ==> s.runs[i].done == i)
    && (forall i :: 0 <= i < |s.runs| - 1 ==> i in s.closed)
    && (match s.curDone
        case Some(c) => |s.runs| > 0 && c == |s.runs| - 1
        case None => |s.runs| > 0 ==> |s.runs| - 1 in s.closed)
    && (forall c :: c in s.closed ==> c < s.nextDone || (s.returned && c == s.nextDone))
  }

  /** How many head changes the runs before the `i`-th stand for. */
  function EndBefore(runs: seq<Launched>, i: nat): nat
    requires i <= |runs|
  {
    if i == 0 then 0 else runs[i - 1].to
  }

  /** The resets of successive runs, and then the pending one, tile the head changes without gap or overlap. */
  ghost predicate Tiled(s: State) {
    && s.heads != [] && Spans(s.heads, s.reset, s.served, |s.heads| - 1)
    && (forall i :: 0 <= i < |s.runs| ==> Spans(s.heads, s.runs[i].reset, s.runs[i].from, s.runs[i].to))
    && (forall i :: 0 <= i < |s.runs| ==> s.runs[i].from == EndBefore(s.runs, i))
    && s.served == EndBefore(s.runs, |s.runs|)
  }

  /** Every ticket is for a launched run that serves it, or for the next one, which will. */
  ghost predicate Promised(s: State)
    requires s.heads != []
  {
    forall j :: 0 <= j < |s.tickets| ==>
      var t := s.tickets[j];
      && t.done <= |s.runs|
      && if t.done < |s.runs| then
           var r := s.runs[t.done];
           Serves(t.ask, r.reset, r.dirty, r.from, r.to)
         else Serves(t.ask, s.reset, s.dirty, s.served, |s.heads| - 1) && (s.launchNextRun || s.returned)
  }

  ghost predicate Safe(s: State) {
    RunsInOrder(s) && Tiled(s) && Promised(s)
  }

  lemma HandleKeepsSafe(s: State, e: Event)
    requires Safe(s)
    ensures Safe(Handle(s, e))
  {
    hide Tiled, Promised;
    HandleKeepsTiled(s, e);
    HandleKeepsPromised(s, e);
  }

  lemma HandleKeepsTiled(s: State, e: Event)
    requires Tiled(s)
    ensures Tiled(Handle(s, e))
  {
    hide Spans;
    var r := Handle(s, e);
    if r.heads == s.heads {
      assert r.reset == s.reset && r.runs == s.runs && r.served == s.served;
    } else {
      var head := r.heads[|s.heads|];
      assert r.heads == s.heads + [head];
      forall i | 0 <= i < |r.runs|
        ensures Spans(r.heads, r.runs[i].reset, r.runs[i].from, r.runs[i].to)
      {
        SpansStill(s.heads, head, s.runs[i].reset, s.runs[i].from, s.runs[i].to);
      }
      SpansMore(s.heads, head, s.reset, s.served);
    }
  }

  lemma SpansStill(heads: seq<HeadId>, head: HeadId, reset: Option<ResetRequest>, from: nat, to: nat)
    requires Spans(heads, reset, from, to)
    ensures Spans(heads + [head], reset, from, to)
  {
  }

  /** A new head extends the pending reset, or starts one. */
  lemma SpansMore(heads: seq<HeadId>, head: HeadId, reset: Option<ResetRequest>, from: nat)
    requires heads != [] && Spans(heads, reset, from, |heads| - 1)
    ensures var req := ResetRequest(heads[|heads| - 1], head);
      Spans(heads + [head], Some(if reset.None? then req else reset.value.(newHead := head)), from, |heads|)
  {
  }

  lemma HandleKeepsPromised(s: State, e: Event)
    requires Tiled(s) && RunsInOrder(s) && Promised(s)
    ensures s.heads != [] && Handle(s, e).heads != [] && Promised(Handle(s, e))
  {
    hide Tiled;
    TiledHeads(s);
    var r := Handle(s, e);
    forall j | 0 <= j < |r.tickets|
      ensures var t := r.tickets[j];
        && t.done <= |r.runs|
        && (t.done == |r.runs| ==> Serves(t.ask, r.reset, r.dirty, r.served, |r.heads| - 1))
    {
      if j < |s.tickets| {
        assert r.tickets[j] == s.tickets[j];
      }
    }
  }

  lemma TiledHeads(s: State)
    requires Tiled(s)
    ensures s.heads != [] && s.served <= |s.heads| - 1 && (s.reset.None? <==> s.served == |s.heads| - 1)
  {
  }

  lemma LaunchKeepsSafe(s: State)
    requires Safe(s)
    ensures Safe(Launch(s))
  {
    hide Tiled, Promised;
    TiledHeads(s);
    LaunchKeepsTiled(s);
    LaunchKeepsPromised(s);
  }

  lemma SpansNothing(heads: seq<HeadId>, at: nat)
    requires at < |heads|
    ensures Spans(heads, None, at, at)
  {
  }

  lemma LaunchKeepsTiled(s: State)
    requires Tiled(s)
    ensures Tiled(Launch(s))
  {
    hide Spans;
    var r := Launch(s);
    SpansNothing(s.heads, |s.heads| - 1);
    forall i | 0 <= i < |r.runs|
      ensures Spans(r.heads, r.runs[i].reset, r.runs[i].from, r.runs[i].to) && r.runs[i].from == EndBefore(r.runs, i)
    {
      if i < |s.runs| {
        assert r.runs[i] == s.runs[i] && EndBefore(r.runs, i) == EndBefore(s.runs, i);
      }
    }
  }

  lemma LaunchKeepsPromised(s: State)
    requires Tiled(s) && RunsInOrder(s) && Promised(s)
    ensures s.heads != [] && Launch(s).heads != [] && Promised(Launch(s))
  {
    hide Tiled;
    TiledHeads(s);
    var r := Launch(s);
    forall j | 0 <= j < |r.tickets|
      ensures r.tickets[j].done <= |s.runs|
    {
    }
  }

  lemma {:induction false} RunIsSafe(head: HeadId, events: seq<Event>)
    ensures Safe(Run(head, events))
  {
    if events != [] {
      var s := Run(head, events[..|events| - 1]);
      RunIsSafe(head, events[..|events| - 1]);
      HandleKeepsSafe(s, events[|events| - 1]);
      LaunchKeepsSafe(Handle(s, events[|events| - 1]));
    }
  }

  /** A run is active while its channel is open. */
  predicate Active(s: State, i: nat)
    requires i < |s.runs|
  {
    s.runs[i].done !in s.closed
  }

  /** At no time are two runs active. */
  lemma OneRunAtATime(head: HeadId, events: seq<Event>, i: nat, j: nat)
    requires i < j < |Run(head, events).runs|
    ensures !(Active(Run(head, events), i) && Active(Run(head, events), j))
  {
    RunIsSafe(head, events);
  }

  /** A requester is released only by a finished run that did what it asked, or by the shutdown. */
  lemma ReleasedOnlyWhenServed(head: HeadId, events: seq<Event>, j: nat)
    requires j < |Run(head, events).tickets| && Run(head, events).tickets[j].done in Run(head, events).closed
    ensures var s := Run(head, events); var t := s.tickets[j];
      || (t.done < |s.runs| && !Active(s, t.done)
          && Serves(t.ask, s.runs[t.done].reset, s.runs[t.done].dirty, s.runs[t.done].from, s.runs[t.done].to))
      || (s.returned && t.done == s.nextDone)
  {
    RunIsSafe(head, events);
  }

  /** Runs `i` and `j` reset the pool, and none between them does. */
  ghost predicate ResetsBetween(s: State, i: nat, j: nat)
    requires i < j < |s.runs|
  {
    s.runs[i].reset.Some? && s.runs[j].reset.Some? && forall k :: i < k < j ==> s.runs[k].reset.None?
  }

  /** Of two successive resets the second starts at the head where the first ended. */
  lemma ResetsTelescope(head: HeadId, events: seq<Event>, i: nat, j: nat)
    requires i < j < |Run(head, events).runs| && ResetsBetween(Run(head, events), i, j)
    ensures var s := Run(head, events); s.runs[j].reset.value.oldHead == s.runs[i].reset.value.newHead
  {
    RunIsSafe(head, events);
    var s := Run(head, events);
    NoResetNoMove(s, i, j);
  }

  lemma {:induction false} NoResetNoMove(s: State, i: nat, j: nat)
    requires Tiled(s) && i < j < |s.runs| && forall k :: i < k < j ==> s.runs[k].reset.None?
    ensures s.runs[j].from == s.runs[i].to
    decreases j
  {
    hide Tiled;
    StartsWhereEnded(s, j);
    if j > i + 1 {
      StaysWithoutReset(s, j - 1);
      NoResetNoMove(s, i, j - 1);
    }
  }

  lemma StartsWhereEnded(s: State, j: nat)
    requires Tiled(s) && 0 < j < |s.runs|
    ensures s.runs[j].from == s.runs[j - 1].to
  {
    assert s.runs[j].from == EndBefore(s.runs, j);
  }

  lemma StaysWithoutReset(s: State, j: nat)
    requires Tiled(s) && j < |s.runs| && s.runs[j].reset.None?
    ensures s.runs[j].from == s.runs[j].to
  {
    assert Spans(s.heads, s.runs[j].reset, s.runs[j].from, s.runs[j].to);
  }

  /** The transaction events handed to runs and those still waiting, in order. */
  ghost function Delivered(runs: seq<Launched>): seq<Tx> {
    if runs == [] then [] else Delivered(runs[..|runs| - 1]) + runs[|runs| - 1].events
  }

  /** The events queued before the loop returned. */
  ghost function Queued(head: HeadId, events: seq<Event>): seq<Tx> {
    if events == [] then []
    else
      var init := events[..|events| - 1];
      var e := events[|events| - 1];
      if e.QueueEvent? && !Run(head, init).returned then Queued(head, init) + [e.tx] else Queued(head, init)
  }

  /** No queued event is lost, repeated or reordered between the loop and its runs. */
  lemma {:induction false} EventsConserved(head: HeadId, events: seq<Event>)
    ensures var s := Run(head, events); Delivered(s.runs) + s.queued == Queued(head, events)
  {
    if events != [] {
      var init := events[..|events| - 1];
      EventsConserved(head, init);
      var s := Run(head, init);
      var e := events[|events| - 1];
      assert Run(head, events) == Step(s, e);
      HandleQueues(s, e);
      LaunchDelivers(Handle(s, e));
    }
  }

  lemma HandleQueues(s: State, e: Event)
    requires s.heads != []
    ensures var h := Handle(s, e);
      Delivered(h.runs) + h.queued
        == Delivered(s.runs) + s.queued + (if e.QueueEvent? && !s.returned then [e.tx] else [])
  {
  }

  lemma LaunchDelivers(s: State)
    requires s.heads != []
    ensures Delivered(Launch(s).runs) + Launch(s).queued == Delivered(s.runs) + s.queued
  {
    var r := Launch(s);
    if s.curDone.None? && s.launchNextRun && !s.returned {
      assert r.runs[..|r.runs| - 1] == s.runs;
    }
  }

  // ---------------------------------------------------------------- progress

  /** When no run is active none is due, and everybody's run has been launched. */
  lemma NobodyWaitsIdle(head: HeadId, events: seq<Event>)
    ensures var s := Run(head, events);
      !s.returned && s.curDone.None? ==>
        !s.launchNextRun && forall j :: 0 <= j < |s.tickets| ==> s.tickets[j].done < |s.runs|
  {
    RunIsSafe(head, events);
    LaunchedIfIdle(head, events);
  }

  lemma LaunchedIfIdle(head: HeadId, events: seq<Event>)
    ensures var s := Run(head, events); !s.returned && s.curDone.None? ==> !s.launchNextRun
  {
  }

  /** How far the requester with channel `d` has come: behind a run, behind an ended one, in a run, released. */
  datatype Stage = Behind | Next | Underway | Released

  ghost predicate Reached(s: State, d: Channel, stage: Stage) {
    && d <= |s.runs| && (d == |s.runs| ==> s.launchNextRun || s.returned) && (s.returned ==> d in s.closed)
    && match stage
       case Behind => true
       case Next => s.returned || d < |s.runs| || s.curDone.None? || s.curDone.value in s.closed
       case Underway => s.returned || d < |s.runs|
       case Released => d in s.closed
  }

  /** The end of a run brings a requester on, and so does its being seen; nothing takes one back. */
  function Onward(stage: Stage, e: Event): Stage {
    match stage
    case Behind => if e.RunEnds? then Next else Behind
    case Next => if e.SeeDone? then Underway else Next
    case Underway => if e.RunEnds? then Released else Underway
    case Released => Released
  }

  lemma StepsOnward(s: State, e: Event, d: Channel, stage: Stage)
    requires s.heads != [] && RunsInOrder(s) && Reached(s, d, stage)
    ensures Reached(Step(s, e), d, Onward(stage, e))
  {
    assert d < |s.runs| - 1 ==> d in s.closed;
    assert d == |s.runs| - 1 ==> s.curDone.None? ==> d in s.closed;
  }

  /** Where the events from the `i`-th on bring a requester who stands at `stage` before them. */
  function Passed(events: seq<Event>, i: nat, stage: Stage): Stage
    requires i <= |events|
  {
    if i == |events| then stage
    else Onward(Passed(events[..|events| - 1], i, stage), events[|events| - 1])
  }

  lemma {:induction false} ComesOn(head: HeadId, events: seq<Event>, i: nat, d: Channel)
    requires i <= |events| && Reached(Run(head, events[..i]), d, Behind)
    ensures Reached(Run(head, events), d, Passed(events, i, Behind))
  {
    if i == |events| {
      assert events[..i] == events;
    } else {
      var front := events[..|events| - 1];
      assert front[..i] == events[..i];
      ComesOn(head, front, i, d);
      RunIsSafe(head, front);
      StepsOnward(Run(head, front), events[|events| - 1], d, Passed(front, i, Behind));
    }
  }

  lemma {:induction false} PassedAll(events: seq<Event>, i: nat, ends: nat, seen: nat, again: nat)
    requires i <= |events| && i <= ends && ends < seen < again
    ensures |events| > ends && events[ends].RunEnds? ==> Passed(events, i, Behind) != Behind
    ensures |events| > seen && events[ends].RunEnds? && events[seen].SeeDone? ==>
      Passed(events, i, Behind) !in {Behind, Next}
    ensures |events| > again && events[ends].RunEnds? && events[seen].SeeDone? && events[again].RunEnds? ==>
      Passed(events, i, Behind) == Released
  {
    if i < |events| {
      PassedAll(events[..|events| - 1], i, ends, seen, again);
    }
  }

  /**
   Whatever else happens in between, a requester is released once a run has
   ended, this has been seen, and another run has ended.
   */
  lemma EverybodyIsReleased(head: HeadId, events: seq<Event>, i: nat, j: nat, ends: nat, seen: nat, again: nat)
    requires i <= ends < seen < again < |events| && j < |Run(head, events[..i]).tickets|
    requires events[ends].RunEnds? && events[seen].SeeDone? && events[again].RunEnds?
    ensures Run(head, events[..i]).tickets[j].done in Run(head, events).closed
  {
    var s := Run(head, events[..i]);
    RunIsSafe(head, events[..i]);
    if s.returned {
      ReturnedAreReleased(head, events[..i], j);
    }
    assert Promised(s);
    ComesOn(head, events, i, s.tickets[j].done);
    PassedAll(events, i, ends, seen, again);
  }

  /** The shutdown lets go of everybody. */
  lemma {:induction false} ReturnedAreReleased(head: HeadId, events: seq<Event>, j: nat)
    requires j < |Run(head, events).tickets| && Run(head, events).returned
    ensures Run(head, events).tickets[j].done in Run(head, events).closed
  {
    hide Safe, Step;
    if events != [] {
      var front := events[..|events| - 1];
      RunIsSafe(head, front);
      if Run(head, front).returned {
        StaysReturned(Run(head, front), events[|events| - 1]);
        ReturnedAreReleased(head, front, j);
      } else {
        LetsGo(Run(head, front), events[|events| - 1], j);
      }
    }
  }

  lemma StaysReturned(s: State, e: Event)
    requires s.heads != [] && s.returned
    ensures Step(s, e) == s
  {
  }

  lemma LetsGo(s: State, e: Event, j: nat)
    requires s.heads != [] && Safe(s) && !s.returned && Step(s, e).returned && j < |Step(s, e).tickets|
    ensures Step(s, e).tickets[j].done in Step(s, e).closed
  {
    hide Tiled;
    assert Step(s, e).tickets == s.tickets && Promised(s);
    var d := s.tickets[j].done;
    assert d < |s.runs| - 1 ==> d in s.closed;
  }

  /** The heads the loop was told of, and what it was asked for, before it returned. */
  ghost function Told(head: HeadId, events: seq<Event>): (heads: seq<HeadId>)
    ensures heads != []
  {
    if events == [] then [head]
    else
      var front, e := events[..|events| - 1], events[|events| - 1];
      Told(head, front) + if e.ChainHead? && Shutdown !in front then [e.head] else []
  }

  ghost function Asked(head: HeadId, events: seq<Event>): seq<Ask> {
    if events == [] then []
    else
      var front, e := events[..|events| - 1], events[|events| - 1];
      Asked(head, front) +
      if Shutdown in front then []
      else if e.ChainHead? then [Reset(|Told(head, front)| - 1)]
      else if e.PromoteRequest? then [Promote(e.accounts)]
      else []
  }

  lemma StepTickets(s: State, e: Event)
    requires s.heads != []
    ensures var r := Step(s, e);
      && (r.returned <==> s.returned || e.Shutdown?)
      && r.heads == s.heads + (if e.ChainHead? && !s.returned then [e.head] else [])
      && |r.tickets| == |s.tickets| + (if (e.ChainHead? || e.PromoteRequest?) && !s.returned then 1 else 0)
      && s.tickets <= r.tickets
      && (e.ChainHead? && !s.returned ==> r.tickets[|s.tickets|].ask == Reset(|s.heads| - 1))
      && (e.PromoteRequest? && !s.returned ==> r.tickets[|s.tickets|].ask == Promote(e.accounts))
  {
  }

  /** Every request up to the shutdown gets a ticket of its own, in order. */
  lemma {:induction false} EverybodyHasTicket(head: HeadId, events: seq<Event>)
    ensures var s := Run(head, events);
      && (s.returned <==> Shutdown in events) && s.heads == Told(head, events)
      && |s.tickets| == |Asked(head, events)|
      && forall j :: 0 <= j < |s.tickets| ==> s.tickets[j].ask == Asked(head, events)[j]
  {
    if events != [] {
      var front, e := events[..|events| - 1], events[|events| - 1];
      EverybodyHasTicket(head, front);
      assert events == front + [e] && Run(head, events) == Step(Run(head, front), e);
      StepTickets(Run(head, front), e);
    }
  }

  /** Somebody with channel `d` asked for the promotion of `a`. */
  ghost predicate Wanted(tickets: seq<Ticket>, d: Channel, a: Address) {
    exists j :: 0 <= j < |tickets| && tickets[j].done == d && tickets[j].ask.Promote? && a in tickets[j].ask.accounts
  }

  /** Runs promote only accounts asked for of them. */
  ghost predicate OnlyWanted(s: State) {
    && (forall i, a :: 0 <= i < |s.runs| && s.runs[i].dirty.Some? && a in s.runs[i].dirty.value ==>
          Wanted(s.tickets, i, a))
    && (forall a :: s.dirty.Some? && a in s.dirty.value ==> Wanted(s.tickets, |s.runs|, a))
  }

  lemma StillWanted(tickets: seq<Ticket>, t: Ticket, d: Channel, a: Address)
    ensures Wanted(tickets, d, a) ==> Wanted(tickets + [t], d, a)
    ensures t.done == d && t.ask.Promote? && a in t.ask.accounts ==> Wanted(tickets + [t], d, a)
  {
    var more := tickets + [t];
    assert more[|tickets|] == t && forall j :: 0 <= j < |tickets| ==> more[j] == tickets[j];
  }

  lemma HandleWanted(s: State, e: Event)
    requires s.heads != [] && OnlyWanted(s) && s.nextDone == |s.runs|
    ensures OnlyWanted(Handle(s, e))
  {
    hide Wanted;
    var r := Handle(s, e);
    if r.tickets != s.tickets {
      var t := r.tickets[|s.tickets|];
      assert r.tickets == s.tickets + [t] && t.done == |s.runs|;
      forall d, a ensures Wanted(s.tickets, d, a) ==> Wanted(r.tickets, d, a) {
        StillWanted(s.tickets, t, d, a);
      }
      forall a ensures t.ask.Promote? && a in t.ask.accounts ==> Wanted(r.tickets, |s.runs|, a) {
        StillWanted(s.tickets, t, |s.runs|, a);
      }
    }
  }

  lemma LaunchWanted(s: State)
    requires s.heads != [] && OnlyWanted(s)
    ensures OnlyWanted(Launch(s))
  {
    hide Wanted;
  }

  /** A run promotes exactly the accounts asked for of it. */
  lemma {:induction false} PromotesWhatWasAsked(head: HeadId, events: seq<Event>)
    ensures OnlyWanted(Run(head, events))
    ensures var s := Run(head, events);
      forall i, a :: 0 <= i < |s.runs| && Wanted(s.tickets, i, a) ==>
        s.runs[i].dirty.Some? && a in s.runs[i].dirty.value
  {
    hide Wanted;
    RunIsSafe(head, events);
    var s := Run(head, events);
    forall i, a | 0 <= i < |s.runs| && Wanted(s.tickets, i, a)
      ensures s.runs[i].dirty.Some? && a in s.runs[i].dirty.value
    {
      AskedAreRun(s, i, a);
    }
    if events != [] {
      var front, e := events[..|events| - 1], events[|events| - 1];
      PromotesWhatWasAsked(head, front);
      RunIsSafe(head, front);
      HandleWanted(Run(head, front), e);
      LaunchWanted(Handle(Run(head, front), e));
    }
  }

  lemma AskedAreRun(s: State, i: nat, a: Address)
    requires Safe(s) && i < |s.runs| && Wanted(s.tickets, i, a)
    ensures s.runs[i].dirty.Some? && a in s.runs[i].dirty.value
  {
    var j :|
      0 <= j < |s.tickets| && s.tickets[j].done == i && s.tickets[j].ask.Promote? && a in s.tickets[j].ask.accounts;
    assert Promised(s);
  }
}
