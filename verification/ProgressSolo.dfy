/** One synchronizer alone on its store, never disposed, no save failing and no reply lost: the last
    position navigated to is what the store ends up with. */
module ProgressSolo {
  import opened Wrappers
  import opened Publication
  import opened Locations
  import opened Persistence
  import opened ProgressSync
  import opened ProgressSystem

  /** The only reader, which loaded what the store holds. */
  ghost predicate SoloInitial(s: System) {
    Initial(s) && s.clients == [NewClient(s.stored)]
  }

  /** The user navigates or flushes, timers fire, and saves come and go. */
  predicate Benign(step: Step) {
    step.UserNavigates? || step.UserFlushes? || step.DebounceTimer? || step.StoreProcesses? || step.ReplyArrives?
  }

  /** The last position navigated to, `last` before these steps. */
  function LastNavigated(last: Option<ReaderLocation>, steps: seq<Step>): Option<ReaderLocation>
    decreases |steps|
  {
    if steps == [] then last
    else LastNavigated(if steps[0].UserNavigates? then Some(steps[0].location) else last, steps[1..])
  }

  // ---------- the invariant ----------

  /** Nothing travels while nothing is in flight; a save in flight is on its way to the store, which
      holds what the client knows, or on its way back, accepted. */
  ghost predicate Traffic(document: ReaderDocument, s: System, c: Client) {
    match c.inFlight
    case None => s.requests == {} && s.replies == {} && c.progress == s.stored
    case Some(send) =>
      && send in c.sends && c.sends[send].Sending?
      && var a := c.sends[send];
         || (&& s.requests == {Request(0, Save(send, a.retry, MutationFor(c, a.location), c.progress))}
             && s.replies == {} && c.progress == s.stored)
         || (&& s.requests == {} && s.stored.Some?
             && s.replies == {Reply(0, send, a.retry, Saved(s.stored.value))}
             && Some(s.stored.value.location) == ClampLocation(document, a.location))
  }

  /** What has become of the last position navigated to: pending, in flight, or stored and synced. */
  ghost predicate LastIsKept(document: ReaderDocument, s: System, c: Client, last: Option<ReaderLocation>) {
    match last
    case None => c.pending.None? && c.inFlight.None?
    case Some(location) =>
      if c.pending.Some? then c.pending == last
      else if c.inFlight.Some? then c.inFlight.value in c.sends && c.sends[c.inFlight.value].location == location
      else
        && c.status == Synced && s.stored.Some?
        && Some(s.stored.value.location) == ClampLocation(document, location)
  }

  ghost predicate SoloInv(document: ReaderDocument, s: System, last: Option<ReaderLocation>) {
    && |s.clients| == 1 && Consistent(s.clients[0]) && !s.clients[0].disposed
    && Traffic(document, s, s.clients[0]) && LastIsKept(document, s, s.clients[0], last)
  }

  /** A document with a first position has one for every request. */
  lemma ClampFinds(document: ReaderDocument, location: ReaderLocation)
    requires FirstDocumentLocation(document).Some?
    ensures ClampLocation(document, location).Some?
  {
  }

  lemma BecomeQuietly(s: System, d: Client)
    requires |s.clients| == 1 && d.sent == s.clients[0].sent
    ensures Become(s, 0, d) == s.(clients := [d])
  {
  }

  lemma BecomeSending(s: System, d: Client, x: Outgoing)
    requires |s.clients| == 1 && d.sent == s.clients[0].sent + [x]
    ensures Become(s, 0, d) == s.(clients := [d], requests := s.requests + {Request(0, x)})
  {
    var c := s.clients[0];
    assert forall k | |c.sent| <= k < |d.sent| :: d.sent[k] == x;
    assert d.sent[|c.sent|] == x;
  }

  // ---------- steps ----------

  /** A `send` begins while nothing is in flight. */
  lemma BeginKeeps(document: ReaderDocument, s: System, c: Client, d: Client, last: Option<ReaderLocation>)
    requires |s.clients| == 1 && s.requests == {} && s.replies == {} && c.progress == s.stored
    requires c.pending.Some? && c.pending == last && c.sent == s.clients[0].sent
    requires d == Begin(c).(waiters := d.waiters)
    ensures var t := Become(s, 0, d); t.clients == [d] && Traffic(document, t, d) && LastIsKept(document, t, d, last)
  {
    BecomeSending(s, d, Save(c.started, 0, MutationFor(c, c.pending.value), c.progress));
  }

  lemma NavigateKeeps(document: ReaderDocument, revisionId: string, s: System, location: ReaderLocation,
                      last: Option<ReaderLocation>)
    requires SoloInv(document, s, last)
    ensures SoloInv(document, Next(document, revisionId, s, UserNavigates(0, location)), Some(location))
  {
    NavigateConsistent(s.clients[0], location);
    BecomeQuietly(s, Navigate(s.clients[0], location));
  }

  /** A flush or the timer: the pending position is sent, or waits for the save in flight. */
  lemma TimersKeep(document: ReaderDocument, revisionId: string, s: System, step: Step, last: Option<ReaderLocation>)
    requires SoloInv(document, s, last) && Enabled(s, step) && (step.UserFlushes? || step.DebounceTimer?)
    ensures SoloInv(document, Next(document, revisionId, s, step), last)
  {
    var c := s.clients[0];
    var d := if step.UserFlushes? then Flush(c) else DebounceFires(c);
    FlushConsistent(c);
    if step.DebounceTimer? {
      DebounceConsistent(c);
    }
    if c.inFlight.None? && c.pending.Some? {
      BeginKeeps(document, s, c.(debounce := false), d, last);
    } else {
      BecomeQuietly(s, d);
    }
  }

  /** Every save succeeds: the request carries the version the store holds. */
  lemma EverySaveSucceeds(document: ReaderDocument, revisionId: string, s: System, request: Request, now: string,
                          last: Option<ReaderLocation>)
    requires FirstDocumentLocation(document).Some? && SoloInv(document, s, last) && request in s.requests
    ensures PersistProgress(document, revisionId, s.stored, request.sent.input, now).Saved?
  {
    ClampFinds(document, request.sent.input.location);
  }

  lemma StoreKeeps(document: ReaderDocument, revisionId: string, s: System, request: Request, now: string,
                   last: Option<ReaderLocation>)
    requires FirstDocumentLocation(document).Some? && SoloInv(document, s, last) && request in s.requests
    ensures SoloInv(document, Next(document, revisionId, s, StoreProcesses(request, now)), last)
  {
    hide Consistent;
    EverySaveSucceeds(document, revisionId, s, request, now, last);
  }

  /** The reply is the store's value: it is adopted, and what is pending goes next. */
  lemma ReplyKeeps(document: ReaderDocument, revisionId: string, s: System, reply: Reply, last: Option<ReaderLocation>)
    requires SoloInv(document, s, last) && Enabled(s, ReplyArrives(reply))
    ensures SoloInv(document, Next(document, revisionId, s, ReplyArrives(reply)), last)
  {
    var c, progress := s.clients[0], reply.outcome.progress;
    var landed := c.(status := Synced, progress := Some(progress), inFlight := None, sends := map[], waiters := map[]);
    var d := SaveSucceeded(c, reply.send, progress);
    SuccessConsistent(c, reply.send, progress);
    SettleFacts(c.(status := Synced, progress := Some(progress)), reply.send);
    var rest := s.(replies := s.replies - {reply});
    if d.inFlight.Some? {
      BeginKeeps(document, rest, landed, d, last);
    } else {
      BecomeQuietly(rest, d);
    }
  }

  lemma SoloNext(document: ReaderDocument, revisionId: string, s: System, step: Step, last: Option<ReaderLocation>)
    requires FirstDocumentLocation(document).Some? && SoloInv(document, s, last) && Enabled(s, step) && Benign(step)
    ensures SoloInv(document, Next(document, revisionId, s, step), LastNavigated(last, [step]))
  {
    hide SoloInv, Next;
    assert [step][1..] == [];
    match step
    case UserNavigates(i, location) =>
      OnlyClient(document, s, last, i);
      NavigateKeeps(document, revisionId, s, location, last);
    case UserFlushes(i) =>
      TimersKeep(document, revisionId, s, step, last);
    case DebounceTimer(i) =>
      TimersKeep(document, revisionId, s, step, last);
    case StoreProcesses(request, now) =>
      StoreKeeps(document, revisionId, s, request, now, last);
    case ReplyArrives(reply) =>
      ReplyKeeps(document, revisionId, s, reply, last);
    case _ =>
  }

  lemma OnlyClient(document: ReaderDocument, s: System, last: Option<ReaderLocation>, i: nat)
    requires SoloInv(document, s, last) && i < |s.clients|
    ensures i == 0
  {
  }

  lemma {:induction false} SoloRun(document: ReaderDocument, revisionId: string, s: System, steps: seq<Step>,
                                   t: System, last: Option<ReaderLocation>)
    requires FirstDocumentLocation(document).Some? && SoloInv(document, s, last)
    requires IsRun(document, revisionId, s, steps, t) && forall k | 0 <= k < |steps| :: Benign(steps[k])
    ensures SoloInv(document, t, LastNavigated(last, steps))
    decreases |steps|
  {
    hide SoloInv, Next, Benign;
    if steps == [] {
    } else {
      SoloNext(document, revisionId, s, steps[0], last);
      assert [steps[0]][1..] == [];
      var next := Next(document, revisionId, s, steps[0]);
      SoloRun(document, revisionId, next, steps[1..], t, LastNavigated(last, [steps[0]]));
    }
  }

  /** Whenever no timer runs and no save is in flight after a navigation, nothing travels any more, the
      store holds the last position navigated to, and the status is synced. */
  lemma QuiescentIsSynced(document: ReaderDocument, revisionId: string, s: System, steps: seq<Step>, t: System)
    requires FirstDocumentLocation(document).Some? && SoloInitial(s) && IsRun(document, revisionId, s, steps, t)
    requires forall k | 0 <= k < |steps| :: Benign(steps[k])
    requires LastNavigated(None, steps).Some?
    ensures |t.clients| == 1
    ensures var c := t.clients[0];
      !c.debounce && c.inFlight.None? ==>
        && t.requests == {} && t.replies == {} && c.status == Synced && c.progress == t.stored && t.stored.Some?
        && Some(t.stored.value.location) == ClampLocation(document, LastNavigated(None, steps).value)
  {
    SoloRun(document, revisionId, s, steps, t, None);
  }

  /** In every such run every save the store gets succeeds. */
  lemma EverySaveOfARunSucceeds(document: ReaderDocument, revisionId: string, s: System, steps: seq<Step>, t: System,
                                request: Request, now: string)
    requires FirstDocumentLocation(document).Some? && SoloInitial(s) && IsRun(document, revisionId, s, steps, t)
    requires forall k | 0 <= k < |steps| :: Benign(steps[k])
    requires request in t.requests
    ensures PersistProgress(document, revisionId, t.stored, request.sent.input, now).Saved?
  {
    SoloRun(document, revisionId, s, steps, t, None);
    EverySaveSucceeds(document, revisionId, t, request, now, LastNavigated(None, steps));
  }

  /** A pending position is sent: by its timer if nothing is in flight, and otherwise when the flight
      lands, at once if no timer runs or a timer or a flush has come to wait. */
  lemma PendingIsSent(c: Client, send: nat, progress: Progress)
    requires Consistent(c) && WillRun(c)
    ensures c.debounce || c.inFlight.Some?
    ensures c.debounce && c.inFlight.None? ==>
      var d := DebounceFires(c); Awaits(d, c.started, 0) && d.sends[c.started].location == c.pending.value
    ensures c.debounce && c.inFlight == Some(send) ==>
      WaitersOf(DebounceFires(c), send) != [] && DebounceFires(c).pending == c.pending
    ensures send in c.sends && c.sends[send].Sending? && (!c.debounce || WaitersOf(c, send) != []) ==>
      var d := SaveSucceeded(c, send, progress);
      Awaits(d, c.started, 0) && d.sends[c.started].location == c.pending.value
  {
    if send in c.sends {
      SettleFacts(c.(status := Synced, progress := Some(progress)), send);
    }
  }

  // ---------- runs in which saves fail, replies are lost and requests are late ----------

  /** Nothing is pending or in flight, and the last thing that happened was a success. */
  predicate Settled(c: Client) {
    c.status == Synced && c.pending.None? && c.inFlight.None?
  }

  /** What is pending is the last position navigated to; if nothing is, that position is the one in flight. */
  ghost predicate Tracks(c: Client, last: Option<ReaderLocation>) {
    && (c.pending.Some? ==> c.pending == last)
    && (c.pending.None? && c.inFlight.Some? ==>
          c.inFlight.value in c.sends && last == Some(c.sends[c.inFlight.value].location))
  }

  /** An awaited acceptance carries what the store still holds: the position in flight. */
  ghost predicate StillStored(document: ReaderDocument, s: System, c: Client, r: Reply) {
    r.outcome.Saved? && Awaits(c, r.send, r.retry) ==>
      && s.stored == Some(r.outcome.progress)
      && ClampLocation(document, c.sends[r.send].location) == Some(r.outcome.progress.location)
  }

  /** Every request on its way, however late, expects a version no newer than its client's. */
  ghost predicate Channels(document: ReaderDocument, s: System) {
    && Inv(s) && |s.clients| == 1
    && (forall r | r in s.requests :: r.sent.input.expectedVersion <= VersionOf(s.clients[0].progress))
    && (forall r | r in s.replies :: StillStored(document, s, s.clients[0], r))
  }

  /** A settled client knows what the store holds, the last position navigated to, and every request still
      on its way expects an older version. */
  ghost predicate Safe(document: ReaderDocument, s: System, last: Option<ReaderLocation>)
    requires |s.clients| == 1
  {
    Settled(s.clients[0]) ==>
      && last.Some? && s.stored.Some? && s.clients[0].progress == s.stored
      && Some(s.stored.value.location) == ClampLocation(document, last.value)
      && forall r | r in s.requests :: r.sent.input.expectedVersion < VersionOf(s.stored)
  }

  ghost predicate LoneInv(document: ReaderDocument, s: System, last: Option<ReaderLocation>) {
    && Channels(document, s) && !s.clients[0].disposed
    && Tracks(s.clients[0], last) && Safe(document, s, last)
  }

  lemma ChannelsKept(document: ReaderDocument, s: System, d: Client)
    requires Channels(document, s) && Consistent(d) && Advances(s.clients[0], d) && WasStored(s, d.progress)
    requires VersionOf(s.clients[0].progress) <= VersionOf(d.progress)
    ensures Channels(document, Become(s, 0, d))
  {
    BecomeInv(s, 0, d);
    hide Inv, Consistent, Awaits, Made, ClampLocation;
    var t := Become(s, 0, d);
    forall r | r in s.replies ensures StillStored(document, t, d, r) {
      ReplyMade(s, r);
      assert StillStored(document, s, s.clients[0], r);
    }
  }

  lemma ReplyMade(s: System, r: Reply)
    requires Inv(s) && |s.clients| == 1 && r in s.replies
    ensures Made(s.clients[0], r.send, r.retry)
    ensures r.outcome.Saved? && Awaits(s.clients[0], r.send, r.retry) ==>
      r.outcome.progress.version > VersionOf(s.clients[0].progress)
  {
    assert ReplyInv(s, r);
  }

  /** A step after which the client is not settled, or is as settled as before. */
  lemma LoneStep(document: ReaderDocument, s: System, d: Client, last: Option<ReaderLocation>,
                 last': Option<ReaderLocation>)
    requires LoneInv(document, s, last) && Consistent(d) && !d.disposed
    requires Advances(s.clients[0], d) && d.progress == s.clients[0].progress
    requires Tracks(d, last')
    requires Settled(d) ==> Settled(s.clients[0]) && last' == last && d.sent == s.clients[0].sent
    ensures LoneInv(document, Become(s, 0, d), last')
  {
    ClientKnowsStored(s);
    ChannelsKept(document, s, d);
    hide Channels, Consistent, Advances, Tracks, ClampLocation;
    if d.sent == s.clients[0].sent {
      BecomeQuietly(s, d);
    }
  }

  lemma ClientKnowsStored(s: System)
    requires Inv(s) && |s.clients| == 1
    ensures Consistent(s.clients[0]) && WasStored(s, s.clients[0].progress)
  {
  }

  lemma LoneNavigates(document: ReaderDocument, s: System, location: ReaderLocation, last: Option<ReaderLocation>)
    requires LoneInv(document, s, last)
    ensures LoneInv(document, Become(s, 0, Navigate(s.clients[0], location)), Some(location))
  {
    ClientKnowsStored(s);
    NavigateConsistent(s.clients[0], location);
    LoneStep(document, s, Navigate(s.clients[0], location), last, Some(location));
  }

  lemma LoneFlushes(document: ReaderDocument, s: System, last: Option<ReaderLocation>)
    requires LoneInv(document, s, last)
    ensures LoneInv(document, Become(s, 0, Flush(s.clients[0])), last)
  {
    ClientKnowsStored(s);
    FlushConsistent(s.clients[0]);
    hide Channels, Safe, Advances;
    LoneStep(document, s, Flush(s.clients[0]), last, last);
  }

  lemma LoneDebounces(document: ReaderDocument, s: System, last: Option<ReaderLocation>)
    requires LoneInv(document, s, last) && s.clients[0].debounce
    ensures LoneInv(document, Become(s, 0, DebounceFires(s.clients[0])), last)
  {
    ClientKnowsStored(s);
    DebounceConsistent(s.clients[0]);
    hide Channels, Safe, Advances;
    LoneStep(document, s, DebounceFires(s.clients[0]), last, last);
  }

  lemma LoneRetries(document: ReaderDocument, s: System, send: nat, last: Option<ReaderLocation>)
    requires LoneInv(document, s, last) && send in s.clients[0].sends && s.clients[0].sends[send].Waiting?
    ensures LoneInv(document, Become(s, 0, RetryFires(s.clients[0], send)), last)
  {
    ClientKnowsStored(s);
    RetryConsistent(s.clients[0], send);
    hide Channels, Safe, Advances;
    LoneStep(document, s, RetryFires(s.clients[0], send), last, last);
  }

  lemma LoneErrs(document: ReaderDocument, s: System, send: nat, retryable: bool, last: Option<ReaderLocation>)
    requires LoneInv(document, s, last) && send in s.clients[0].sends && s.clients[0].sends[send].Sending?
    ensures LoneInv(document, Become(s, 0, SaveFailed(s.clients[0], send, retryable)), last)
  {
    var c := s.clients[0];
    ClientKnowsStored(s);
    FailureConsistent(c, send, retryable);
    SettleFacts(c.(status := Failed), send);
    hide Channels, Safe, Advances;
    LoneStep(document, s, SaveFailed(c, send, retryable), last, last);
  }

  /** The store refuses every request that expects an older version than it holds. */
  lemma StaleIsRefused(document: ReaderDocument, revisionId: string, stored: Option<Progress>, input: ProgressInput,
                       now: string)
    requires stored.Some? && input.expectedVersion < VersionOf(stored)
    ensures !PersistProgress(document, revisionId, stored, input, now).Saved?
  {
  }

  lemma LoneStore(document: ReaderDocument, revisionId: string, s: System, request: Request, now: string,
                  last: Option<ReaderLocation>)
    requires LoneInv(document, s, last) && request in s.requests
    ensures LoneInv(document, Process(document, revisionId, s, request, now), last)
  {
    var c, t := s.clients[0], Process(document, revisionId, s, request, now);
    var input := request.sent.input;
    ProcessInv(document, revisionId, s, request, now);
    if s.stored.Some? && input.expectedVersion < VersionOf(s.stored) {
      StaleIsRefused(document, revisionId, s.stored, input, now);
    }
    RequestAwaited(s, request);
    forall r | r in t.replies ensures StillStored(document, t, c, r) {
      if r in s.replies {
        ReplyMade(s, r);
        assert StillStored(document, s, c, r);
      }
    }
    hide Inv, Consistent, Tracks, ClampLocation, StillStored;
  }

  lemma RequestAwaited(s: System, r: Request)
    requires Inv(s) && |s.clients| == 1 && r in s.requests
    ensures r.client == 0
    ensures r.sent.Save? && Awaits(s.clients[0], r.sent.send, r.sent.retry) ==>
      r.sent.input.location == s.clients[0].sends[r.sent.send].location
  {
    assert RequestInv(s, r);
  }

  /** An awaited acceptance is adopted: the client then knows what the store holds, and is settled if
      nothing is pending. */
  lemma LoneSucceeds(document: ReaderDocument, s: System, reply: Reply, last: Option<ReaderLocation>)
    requires LoneInv(document, s, last) && reply in s.replies && reply.outcome.Saved?
    requires Awaits(s.clients[0], reply.send, reply.retry)
    ensures var d := SaveSucceeded(s.clients[0], reply.send, reply.outcome.progress);
      LoneInv(document, Become(s.(replies := s.replies - {reply}), 0, d), last)
  {
    var c, rest := s.clients[0], s.(replies := s.replies - {reply});
    var d := SaveSucceeded(c, reply.send, reply.outcome.progress);
    assert ReplyInv(s, reply) && StillStored(document, s, c, reply);
    ReplyMade(s, reply);
    FewerChannels(document, s, reply);
    ClientKnowsStored(s);
    SuccessConsistent(c, reply.send, reply.outcome.progress);
    SettleFacts(c.(status := Synced, progress := Some(reply.outcome.progress)), reply.send);
    ChannelsKept(document, rest, d);
    hide Inv, Advances, ClampLocation, StillStored;
    if d.inFlight.None? {
      BecomeQuietly(rest, d);
    }
  }

  lemma FewerChannels(document: ReaderDocument, s: System, reply: Reply)
    requires Channels(document, s)
    ensures Channels(document, s.(replies := s.replies - {reply}))
  {
    FewerReplies(s, reply);
    hide Inv, StillStored;
    var t := s.(replies := s.replies - {reply});
    forall r | r in t.replies ensures StillStored(document, t, t.clients[0], r) {
      SameStored(document, s, t, t.clients[0], r);
    }
  }

  lemma SameStored(document: ReaderDocument, s: System, t: System, c: Client, r: Reply)
    requires s.stored == t.stored && StillStored(document, s, c, r)
    ensures StillStored(document, t, c, r)
  {
  }

  /** A reply after which the client has nothing pending and is not synced. */
  lemma LoneConflicts(document: ReaderDocument, s: System, reply: Reply, last: Option<ReaderLocation>)
    requires LoneInv(document, s, last) && reply in s.replies && reply.outcome.Conflict?
    requires Awaits(s.clients[0], reply.send, reply.retry)
    ensures var d := SaveConflicted(s.clients[0], reply.send, reply.outcome.current);
      LoneInv(document, Become(s.(replies := s.replies - {reply}), 0, d), last)
  {
    var c, rest := s.clients[0], s.(replies := s.replies - {reply});
    var d := SaveConflicted(c, reply.send, reply.outcome.current);
    ConflictAbove(s, reply);
    FewerChannels(document, s, reply);
    ClientKnowsStored(s);
    ConflictConsistent(c, reply.send, reply.outcome.current);
    SettleFacts(c.(status := Conflicted, progress := Some(reply.outcome.current), pending := None), reply.send);
    ChannelsKept(document, rest, d);
    hide Channels, Inv, Advances, ClampLocation, StillStored, SaveConflicted;
  }

  lemma ConflictAbove(s: System, r: Reply)
    requires Inv(s) && |s.clients| == 1 && r in s.replies && r.outcome.Conflict?
    requires Awaits(s.clients[0], r.send, r.retry)
    ensures r.outcome.current.version > VersionOf(s.clients[0].progress) && WasStored(s, Some(r.outcome.current))
  {
    assert ReplyInv(s, r);
  }

  /** A reply that the document has no position: the save has failed for good. */
  lemma LoneGivesUp(document: ReaderDocument, s: System, reply: Reply, last: Option<ReaderLocation>)
    requires LoneInv(document, s, last) && Awaits(s.clients[0], reply.send, reply.retry)
    ensures var d := SaveFailed(s.clients[0], reply.send, false);
      LoneInv(document, Become(s.(replies := s.replies - {reply}), 0, d), last)
  {
    var rest := s.(replies := s.replies - {reply});
    FewerChannels(document, s, reply);
    assert LoneInv(document, rest, last);
    hide LoneInv, SaveFailed, Become;
    LoneErrs(document, rest, reply.send, false, last);
  }

  lemma LoneNext(document: ReaderDocument, revisionId: string, s: System, step: Step, last: Option<ReaderLocation>)
    requires LoneInv(document, s, last) && Enabled(s, step) && !step.ClientDisposed?
    ensures LoneInv(document, Next(document, revisionId, s, step), LastNavigated(last, [step]))
  {
    OneClient(document, s, last);
    hide LoneInv, Become, Process, Receive, SaveFailed, RetryFires, Flush, DebounceFires, Navigate;
    assert [step][1..] == [];
    match step
    case UserNavigates(i, location) => LoneNavigates(document, s, location, last);
    case UserFlushes(i) => LoneFlushes(document, s, last);
    case DebounceTimer(i) => LoneDebounces(document, s, last);
    case RetryTimer(i, send) => LoneRetries(document, s, send, last);
    case StoreProcesses(request, now) => LoneStore(document, revisionId, s, request, now, last);
    case SaveErrs(i, send, retryable) => LoneErrs(document, s, send, retryable, last);
    case ReplyArrives(reply) => LoneReply(document, s, reply, last);
    case _ =>
  }

  lemma LoneReply(document: ReaderDocument, s: System, reply: Reply, last: Option<ReaderLocation>)
    requires LoneInv(document, s, last) && Enabled(s, ReplyArrives(reply))
    ensures reply.client == 0
    ensures LoneInv(document,
              Become(s.(replies := s.replies - {reply}), 0, Receive(s.clients[0], reply.send, reply.outcome)), last)
  {
    OneClient(document, s, last);
    hide LoneInv, Become, SaveSucceeded, SaveConflicted, SaveFailed;
    match reply.outcome
    case Saved(_) => LoneSucceeds(document, s, reply, last);
    case Conflict(_) => LoneConflicts(document, s, reply, last);
    case NoLocation => LoneGivesUp(document, s, reply, last);
  }

  lemma OneClient(document: ReaderDocument, s: System, last: Option<ReaderLocation>)
    requires LoneInv(document, s, last)
    ensures |s.clients| == 1
  {
  }

  lemma {:induction false} LoneRun(document: ReaderDocument, revisionId: string, s: System, steps: seq<Step>,
                                   t: System, last: Option<ReaderLocation>)
    requires LoneInv(document, s, last)
    requires IsRun(document, revisionId, s, steps, t) && forall k | 0 <= k < |steps| :: !steps[k].ClientDisposed?
    ensures LoneInv(document, t, LastNavigated(last, steps))
    decreases |steps|
  {
    hide LoneInv, Next;
    if steps == [] {
    } else {
      LoneNext(document, revisionId, s, steps[0], last);
      assert [steps[0]][1..] == [];
      var next := Next(document, revisionId, s, steps[0]);
      LoneRun(document, revisionId, next, steps[1..], t, LastNavigated(last, [steps[0]]));
    }
  }

  /** One client alone on its store, whatever it knew at the start, saves failing, replies lost and requests
      late: whenever nothing is pending or in flight and the status is synced, the store holds the last
      position navigated to, the client knows it, and the store will refuse every request still on its way. */
  lemma SyncedIsStored(document: ReaderDocument, revisionId: string, s: System, steps: seq<Step>, t: System)
    requires Initial(s) && |s.clients| == 1 && IsRun(document, revisionId, s, steps, t)
    requires forall k | 0 <= k < |steps| :: !steps[k].ClientDisposed?
    ensures |t.clients| == 1
    ensures var c, last := t.clients[0], LastNavigated(None, steps);
      c.status == Synced && c.pending.None? && c.inFlight.None? ==>
        && last.Some? && t.stored.Some? && c.progress == t.stored
        && Some(t.stored.value.location) == ClampLocation(document, last.value)
        && forall r, now | r in t.requests :: !PersistProgress(document, revisionId, t.stored, r.sent.input, now).Saved?
  {
    InitialInv(s);
    LoneRun(document, revisionId, s, steps, t, None);
    if Settled(t.clients[0]) {
      forall r, now | r in t.requests
        ensures !PersistProgress(document, revisionId, t.stored, r.sent.input, now).Saved?
      {
        StaleIsRefused(document, revisionId, t.stored, r.sent.input, now);
      }
    }
  }
}
