/** Any number of synchronizers on one versioned store. Requests and replies travel separately: a
    request may be processed late, or after its sender gave up, and a reply may never arrive. */
module ProgressSystem {
  import opened Wrappers
  import opened Publication
  import opened Locations
  import opened Persistence
  import opened ProgressSync

  // ---------- the system ----------

  /** What a client sent, on its way to the store. */
  datatype Request = Request(client: nat, sent: Outgoing)

  /** The store's answer to a save, addressed to the try that made it. */
  datatype Reply = Reply(client: nat, send: nat, retry: nat, outcome: SaveOutcome)

  datatype System = System(
    stored: Option<Progress>,
    history: map<nat, Progress>,
    clients: seq<Client>,
    requests: set<Request>,
    replies: set<Reply>)

  /** A reply, a failure or a retry concerns any `send` it can concern: nothing here says there is one. */
  datatype Step =
    | UserNavigates(i: nat, location: ReaderLocation)
    | UserFlushes(i: nat)
    | DebounceTimer(i: nat)
    | RetryTimer(i: nat, send: nat)
    | ClientDisposed(i: nat)
    | StoreProcesses(request: Request, now: string)
    | ReplyArrives(reply: Reply)
    | SaveErrs(i: nat, send: nat, retryable: bool)

  /** Client `i` becomes `c`, and everything it has sent since sets out for the store. */
  function Become(s: System, i: nat, c: Client): System
    requires i < |s.clients|
  {
    var before := |s.clients[i].sent|;
    s.(clients := s.clients[i := c],
       requests := s.requests + set k | before <= k < |c.sent| :: Request(i, c.sent[k]))
  }

  predicate Enabled(s: System, step: Step) {
    match step
    case UserNavigates(i, _) => i < |s.clients|
    case UserFlushes(i) => i < |s.clients|
    case DebounceTimer(i) => i < |s.clients| && s.clients[i].debounce
    case RetryTimer(i, send) => i < |s.clients| && send in s.clients[i].sends && s.clients[i].sends[send].Waiting?
    case ClientDisposed(i) => i < |s.clients|
    case StoreProcesses(request, _) => request in s.requests
    case ReplyArrives(reply) =>
      reply in s.replies && reply.client < |s.clients| && Awaits(s.clients[reply.client], reply.send, reply.retry)
    case SaveErrs(i, send, _) => i < |s.clients| && send in s.clients[i].sends && s.clients[i].sends[send].Sending?
  }

  function Process(document: ReaderDocument, revisionId: string, s: System, request: Request, now: string): System {
    var outcome := PersistProgress(document, revisionId, s.stored, request.sent.input, now);
    s.(stored := After(s.stored, outcome),
       history := if outcome.Saved? then s.history[outcome.progress.version := outcome.progress] else s.history,
       requests := s.requests - {request},
       replies := match request.sent
         case Save(send, retry, _, _) => s.replies + {Reply(request.client, send, retry, outcome)}
         case Keepalive(_, _) => s.replies)
  }

  /** What a client makes of the reply to a save. */
  function Receive(c: Client, send: nat, outcome: SaveOutcome): Client
    requires send in c.sends && c.sends[send].Sending?
  {
    match outcome
    case Saved(progress) => SaveSucceeded(c, send, progress)
    case Conflict(current) => SaveConflicted(c, send, current)
    case NoLocation => SaveFailed(c, send, false)
  }

  function Next(document: ReaderDocument, revisionId: string, s: System, step: Step): System
    requires Enabled(s, step)
  {
    match step
    case UserNavigates(i, location) => Become(s, i, Navigate(s.clients[i], location))
    case UserFlushes(i) => Become(s, i, Flush(s.clients[i]))
    case DebounceTimer(i) => Become(s, i, DebounceFires(s.clients[i]))
    case RetryTimer(i, send) => Become(s, i, RetryFires(s.clients[i], send))
    case ClientDisposed(i) => Become(s, i, Dispose(s.clients[i]))
    case StoreProcesses(request, now) => Process(document, revisionId, s, request, now)
    case ReplyArrives(reply) =>
      var c := Receive(s.clients[reply.client], reply.send, reply.outcome);
      Become(s.(replies := s.replies - {reply}), reply.client, c)
    case SaveErrs(i, send, retryable) => Become(s, i, SaveFailed(s.clients[i], send, retryable))
  }

  /** The run of some steps, each enabled when it is taken. */
  ghost predicate IsRun(document: ReaderDocument, revisionId: string, s: System, steps: seq<Step>, t: System)
    decreases |steps|
  {
    if steps == [] then s == t
    else Enabled(s, steps[0]) && IsRun(document, revisionId, Next(document, revisionId, s, steps[0]), steps[1..], t)
  }

  // ---------- the invariant ----------

  ghost predicate WasStored(s: System, progress: Option<Progress>) {
    progress.Some? ==> progress.value.version in s.history && s.history[progress.value.version] == progress.value
  }

  /** The store holds the newest version of its history, and versions start at one. */
  ghost predicate StoreInv(s: System) {
    && WasStored(s, s.stored)
    && (s.stored.None? ==> s.history == map[])
    && forall v | v in s.history :: 1 <= v <= VersionOf(s.stored) && s.history[v].version == v
  }

  /** Each client is consistent, and what it knows the store once held. */
  ghost predicate ClientsInv(s: System) {
    forall i | 0 <= i < |s.clients| :: Consistent(s.clients[i]) && WasStored(s, s.clients[i].progress)
  }

  /** A request expects the version of the progress its client knew; while its client awaits the answer,
      that is still what the client knows, and the location is the one being sent. */
  ghost predicate RequestInv(s: System, r: Request) {
    && r.client < |s.clients|
    && r.sent.input.expectedVersion == VersionOf(r.sent.seen) && WasStored(s, r.sent.seen)
    && (r.sent.Save? ==>
          var c := s.clients[r.client];
          && Made(c, r.sent.send, r.sent.retry)
          && (Awaits(c, r.sent.send, r.sent.retry) ==>
                r.sent.seen == c.progress && r.sent.input.location == c.sends[r.sent.send].location))
  }

  /** A reply that is still awaited carries a version above the client's. */
  ghost predicate ReplyInv(s: System, r: Reply) {
    && r.client < |s.clients|
    && var c := s.clients[r.client];
       && Made(c, r.send, r.retry)
       && match r.outcome
          case Saved(p) =>
            WasStored(s, Some(p)) && (Awaits(c, r.send, r.retry) ==> p.version > VersionOf(c.progress))
          case Conflict(p) =>
            WasStored(s, Some(p)) && (Awaits(c, r.send, r.retry) ==> p.version > VersionOf(c.progress))
          case NoLocation => true
  }

  ghost predicate Inv(s: System) {
    && StoreInv(s) && ClientsInv(s)
    && (forall r | r in s.requests :: RequestInv(s, r))
    && (forall r | r in s.replies :: ReplyInv(s, r))
  }

  /** A start: the store's own history, and readers that loaded nothing or something it held. */
  ghost predicate Initial(s: System) {
    && StoreInv(s) && s.requests == {} && s.replies == {}
    && forall i | 0 <= i < |s.clients| :: exists p :: WasStored(s, p) && s.clients[i] == NewClient(p)
  }

  lemma InitialInv(s: System)
    requires Initial(s)
    ensures Inv(s)
  {
    forall i | 0 <= i < |s.clients| ensures Consistent(s.clients[i]) && WasStored(s, s.clients[i].progress) {
      var p :| WasStored(s, p) && s.clients[i] == NewClient(p);
    }
  }

  // ---------- steps of one client ----------

  /** A client that advances keeps the invariant of the whole system. */
  lemma BecomeInv(s: System, i: nat, d: Client)
    requires Inv(s) && i < |s.clients|
    requires Consistent(d) && Advances(s.clients[i], d) && WasStored(s, d.progress)
    ensures Inv(Become(s, i, d))
  {
    hide Consistent, Awaits, Made, WasStored;
    var t := Become(s, i, d);
    SameHistory(s, t);
    forall r | r in t.requests ensures RequestInv(t, r) {
      if r in s.requests {
        assert RequestInv(s, r);
      }
    }
    forall r | r in t.replies ensures ReplyInv(t, r) {
      assert ReplyInv(s, r);
    }
  }

  lemma SameHistory(s: System, t: System)
    requires s.history == t.history
    ensures forall p :: WasStored(t, p) <==> WasStored(s, p)
  {
  }

  // ---------- the store's step ----------

  /** An accepted write replaces exactly what its client had seen when it sent it. */
  lemma AcceptedWasSeen(document: ReaderDocument, revisionId: string, s: System, r: Request, now: string)
    requires Inv(s) && r in s.requests
    requires PersistProgress(document, revisionId, s.stored, r.sent.input, now).Saved?
    ensures r.sent.seen == s.stored
  {
    assert RequestInv(s, r);
  }

  /** The reply the store makes is above what the client knew at the time of sending. */
  lemma OutcomeAbove(document: ReaderDocument, revisionId: string, s: System, r: Request, now: string)
    requires Inv(s) && r in s.requests
    ensures var outcome := PersistProgress(document, revisionId, s.stored, r.sent.input, now);
      && (outcome.Saved? ==> outcome.progress.version == VersionOf(s.stored) + 1 > VersionOf(r.sent.seen))
      && (outcome.Conflict? ==> Some(outcome.current) == s.stored && outcome.current.version > VersionOf(r.sent.seen))
  {
    assert RequestInv(s, r);
  }

  lemma ProcessInv(document: ReaderDocument, revisionId: string, s: System, request: Request, now: string)
    requires Inv(s) && request in s.requests
    ensures Inv(Process(document, revisionId, s, request, now))
  {
    hide Consistent, PersistProgress, Awaits, Made;
    OutcomeAbove(document, revisionId, s, request, now);
    var outcome := PersistProgress(document, revisionId, s.stored, request.sent.input, now);
    var t := Process(document, revisionId, s, request, now);
    forall p | WasStored(s, p) ensures WasStored(t, p) {
    }
    forall r | r in t.requests ensures RequestInv(t, r) {
      assert RequestInv(s, r);
    }
    assert RequestInv(s, request);
    forall r | r in t.replies ensures ReplyInv(t, r) {
      if r in s.replies {
        assert ReplyInv(s, r);
      }
    }
  }

  lemma ReceiveFacts(c: Client, send: nat, outcome: SaveOutcome)
    requires Consistent(c) && send in c.sends && c.sends[send].Sending?
    ensures var d := Receive(c, send, outcome);
      && Consistent(d) && Advances(c, d)
      && d.progress == match outcome
         case Saved(p) => Some(p)
         case Conflict(p) => Some(p)
         case NoLocation => c.progress
  {
    hide Consistent, Advances, SaveSucceeded, SaveConflicted, SaveFailed;
    match outcome
    case Saved(p) => SuccessConsistent(c, send, p);
    case Conflict(p) => ConflictConsistent(c, send, p);
    case NoLocation => FailureConsistent(c, send, false);
  }

  lemma FewerReplies(s: System, reply: Reply)
    requires Inv(s)
    ensures Inv(s.(replies := s.replies - {reply}))
  {
    hide Consistent, Awaits, Made;
    var t := s.(replies := s.replies - {reply});
    forall r | r in t.requests ensures RequestInv(t, r) {
      assert RequestInv(s, r);
    }
    forall r | r in t.replies ensures ReplyInv(t, r) {
      assert ReplyInv(s, r);
    }
  }

  /** Every enabled step keeps the invariant. */
  lemma NextInv(document: ReaderDocument, revisionId: string, s: System, step: Step)
    requires Inv(s) && Enabled(s, step)
    ensures Inv(Next(document, revisionId, s, step))
  {
    hide Consistent, Advances, Become, Process, Receive, SaveFailed, RetryFires, Dispose, Flush, DebounceFires,
      Navigate;
    match step
    case UserNavigates(i, location) =>
      NavigateConsistent(s.clients[i], location);
      BecomeInv(s, i, Navigate(s.clients[i], location));
    case UserFlushes(i) =>
      FlushConsistent(s.clients[i]);
      BecomeInv(s, i, Flush(s.clients[i]));
    case DebounceTimer(i) =>
      DebounceConsistent(s.clients[i]);
      BecomeInv(s, i, DebounceFires(s.clients[i]));
    case RetryTimer(i, send) =>
      RetryConsistent(s.clients[i], send);
      BecomeInv(s, i, RetryFires(s.clients[i], send));
    case ClientDisposed(i) =>
      DisposeConsistent(s.clients[i]);
      BecomeInv(s, i, Dispose(s.clients[i]));
    case StoreProcesses(request, now) =>
      ProcessInv(document, revisionId, s, request, now);
    case ReplyArrives(reply) =>
      assert ReplyInv(s, reply);
      FewerReplies(s, reply);
      ReceiveFacts(s.clients[reply.client], reply.send, reply.outcome);
      var c := Receive(s.clients[reply.client], reply.send, reply.outcome);
      BecomeInv(s.(replies := s.replies - {reply}), reply.client, c);
    case SaveErrs(i, send, retryable) =>
      FailureConsistent(s.clients[i], send, retryable);
      BecomeInv(s, i, SaveFailed(s.clients[i], send, retryable));
  }

  // ---------- over whole runs ----------

  lemma {:induction false} RunInv(document: ReaderDocument, revisionId: string, s: System, steps: seq<Step>, t: System)
    requires Inv(s) && IsRun(document, revisionId, s, steps, t)
    ensures Inv(t)
    decreases |steps|
  {
    if steps == [] {
    } else {
      NextInv(document, revisionId, s, steps[0]);
      RunInv(document, revisionId, Next(document, revisionId, s, steps[0]), steps[1..], t);
    }
  }

  /** In every run no client has two unanswered saves: the one there may be is of the `send` in flight,
      and has been tried at most four times. */
  lemma OneSaveOutstanding(document: ReaderDocument, revisionId: string, s: System, steps: seq<Step>, t: System, i: nat,
                           send: nat, retry: nat, send': nat, retry': nat)
    requires Initial(s) && IsRun(document, revisionId, s, steps, t) && i < |t.clients|
    requires Awaits(t.clients[i], send, retry) && Awaits(t.clients[i], send', retry')
    ensures send == send' && retry == retry' && t.clients[i].inFlight == Some(send) && retry <= RETRIES
  {
    InitialInv(s);
    RunInv(document, revisionId, s, steps, t);
    SingleFlight(t.clients[i], send, retry, send', retry');
  }

  /** Of the requests on their way to the store at most one from each client is awaited by it. */
  lemma OneRequestAwaited(document: ReaderDocument, revisionId: string, s: System, steps: seq<Step>, t: System,
                          q: Request, r: Request)
    requires Initial(s) && IsRun(document, revisionId, s, steps, t)
    requires q in t.requests && r in t.requests && q.client == r.client < |t.clients| && q.sent.Save? && r.sent.Save?
    requires Awaits(t.clients[q.client], q.sent.send, q.sent.retry)
    requires Awaits(t.clients[r.client], r.sent.send, r.sent.retry)
    ensures q == r
  {
    InitialInv(s);
    RunInv(document, revisionId, s, steps, t);
    SingleFlight(t.clients[q.client], q.sent.send, q.sent.retry, r.sent.send, r.sent.retry);
    assert RequestInv(t, q) && RequestInv(t, r);
  }

  /** In every run each client knows only what the store really held at that version. */
  lemma KnownProgressWasStored(document: ReaderDocument, revisionId: string, s: System, steps: seq<Step>, t: System,
                               i: nat)
    requires Initial(s) && IsRun(document, revisionId, s, steps, t) && i < |t.clients| && t.clients[i].progress.Some?
    ensures var p := t.clients[i].progress.value;
      p.version in t.history && t.history[p.version] == p && p.version <= VersionOf(t.stored)
  {
    InitialInv(s);
    RunInv(document, revisionId, s, steps, t);
    assert WasStored(t, t.clients[i].progress);
  }

  /** In every run, the success or conflict reply a client processes strictly raises its version. */
  lemma RepliesRaiseVersion(document: ReaderDocument, revisionId: string, s: System, steps: seq<Step>, t: System,
                            reply: Reply)
    requires Initial(s) && IsRun(document, revisionId, s, steps, t)
    requires Enabled(t, ReplyArrives(reply)) && !reply.outcome.NoLocation?
    ensures var u := Next(document, revisionId, t, ReplyArrives(reply));
      VersionOf(u.clients[reply.client].progress) > VersionOf(t.clients[reply.client].progress)
  {
    InitialInv(s);
    RunInv(document, revisionId, s, steps, t);
    assert ReplyInv(t, reply);
    ReceiveFacts(t.clients[reply.client], reply.send, reply.outcome);
  }

  /** In every run, a write the store accepts replaces exactly what its client had seen, and adds one
      version; everything held before stays in the history. */
  lemma NoBlindOverwrite(document: ReaderDocument, revisionId: string, s: System, steps: seq<Step>, t: System,
                         request: Request, now: string)
    requires Initial(s) && IsRun(document, revisionId, s, steps, t)
    requires Enabled(t, StoreProcesses(request, now))
    ensures var u := Next(document, revisionId, t, StoreProcesses(request, now));
      && (u.stored != t.stored ==> request.sent.seen == t.stored && VersionOf(u.stored) == VersionOf(t.stored) + 1)
      && (forall v | v in t.history :: v in u.history && u.history[v] == t.history[v])
  {
    InitialInv(s);
    RunInv(document, revisionId, s, steps, t);
    var outcome := PersistProgress(document, revisionId, t.stored, request.sent.input, now);
    if outcome.Saved? {
      AcceptedWasSeen(document, revisionId, t, request, now);
    }
  }

  /** In every run a client that is not disposed and has a pending position has a timer running or a
      `send` in flight after which it goes on. */
  lemma PendingHasATurn(document: ReaderDocument, revisionId: string, s: System, steps: seq<Step>, t: System, i: nat)
    requires Initial(s) && IsRun(document, revisionId, s, steps, t) && i < |t.clients|
    requires WillRun(t.clients[i]) && !t.clients[i].debounce
    ensures t.clients[i].inFlight.Some? && t.clients[i].inFlight.value in t.clients[i].sends
    ensures !t.clients[i].sends[t.clients[i].inFlight.value].Interrupted?
  {
    InitialInv(s);
    RunInv(document, revisionId, s, steps, t);
    var c := t.clients[i];
    assert Consistent(c);
    assert c.inFlight.value in c.sends;
  }

  /** In every run a retryable failure of a live client, before the fourth try, leaves the send waiting for its
      timer with the same location; its retry is then enabled, and asks the store for that location again at
      the version the client knows by then. */
  lemma FailureIsRetried(document: ReaderDocument, revisionId: string, s: System, steps: seq<Step>, t: System,
                         i: nat, send: nat)
    requires Initial(s) && IsRun(document, revisionId, s, steps, t)
    requires Enabled(t, SaveErrs(i, send, true)) && !t.clients[i].disposed && t.clients[i].sends[send].retry < 3
    ensures var u := Next(document, revisionId, t, SaveErrs(i, send, true));
      && u.clients[i].status == Retrying && u.requests == t.requests && Enabled(u, RetryTimer(i, send))
      && var v, a := Next(document, revisionId, u, RetryTimer(i, send)), t.clients[i].sends[send];
         && Awaits(v.clients[i], send, a.retry + 1)
         && v.requests == u.requests
              + {Request(i, Save(send, a.retry + 1, ProgressInput(a.location, VersionOf(t.clients[i].progress)),
                   t.clients[i].progress))}
  {
    InitialInv(s);
    RunInv(document, revisionId, s, steps, t);
    WaitsAndRetries(document, revisionId, t, i, send);
  }

  lemma WaitsAndRetries(document: ReaderDocument, revisionId: string, t: System, i: nat, send: nat)
    requires i < |t.clients| && Consistent(t.clients[i])
    requires Enabled(t, SaveErrs(i, send, true)) && !t.clients[i].disposed && t.clients[i].sends[send].retry < 3
    ensures var u := Next(document, revisionId, t, SaveErrs(i, send, true));
      && u.clients[i].status == Retrying && u.requests == t.requests && Enabled(u, RetryTimer(i, send))
      && var v, a := Next(document, revisionId, u, RetryTimer(i, send)), t.clients[i].sends[send];
         && Awaits(v.clients[i], send, a.retry + 1)
         && v.requests == u.requests
              + {Request(i, Save(send, a.retry + 1, ProgressInput(a.location, VersionOf(t.clients[i].progress)),
                   t.clients[i].progress))}
  {
    hide SaveFailed, RetryFires, Consistent, Become;
    var c := t.clients[i];
    var d := SaveFailed(c, send, true);
    FailureDoes(c, send, true);
    FailureConsistent(c, send, true);
    BecomeSame(t, i, d);
    RetryDoes(d, send);
    var e := RetryFires(d, send);
    BecomeMore(Become(t, i, d), i, e, e.sent[|d.sent|]);
  }

  lemma BecomeSame(s: System, i: nat, d: Client)
    requires i < |s.clients| && d.sent == s.clients[i].sent
    ensures Become(s, i, d) == s.(clients := s.clients[i := d])
  {
  }

  lemma BecomeMore(s: System, i: nat, d: Client, x: Outgoing)
    requires i < |s.clients| && d.sent == s.clients[i].sent + [x]
    ensures Become(s, i, d) == s.(clients := s.clients[i := d], requests := s.requests + {Request(i, x)})
  {
    var c := s.clients[i];
    assert forall k | |c.sent| <= k < |d.sent| :: d.sent[k] == x;
    assert d.sent[|c.sent|] == x;
  }

  /** In every run any other failure ends that send. */
  lemma FinalFailureEnds(document: ReaderDocument, revisionId: string, s: System, steps: seq<Step>, t: System,
                         i: nat, send: nat, retryable: bool)
    requires Initial(s) && IsRun(document, revisionId, s, steps, t) && Enabled(t, SaveErrs(i, send, retryable))
    requires !retryable || t.clients[i].disposed || t.clients[i].sends[send].retry == 3
    ensures var c := Next(document, revisionId, t, SaveErrs(i, send, retryable)).clients[i];
      send !in c.sends && c.status == Failed
  {
    InitialInv(s);
    RunInv(document, revisionId, s, steps, t);
    assert Consistent(t.clients[i]);
    FailureDoes(t.clients[i], send, retryable);
  }

  /** From its disposal on a client sends nothing in any run, whatever the others do. */
  lemma {:induction false} DisposedStaysSilent(document: ReaderDocument, revisionId: string,
                                               s: System, steps: seq<Step>, t: System, i: nat)
    requires Inv(s) && IsRun(document, revisionId, s, steps, t) && i < |s.clients| && s.clients[i].disposed
    ensures i < |t.clients| && t.clients[i].disposed && t.clients[i].sent == s.clients[i].sent
    decreases |steps|
  {
    hide Next, Inv;
    if steps == [] {
    } else {
      SilentStep(document, revisionId, s, steps[0], i);
      NextInv(document, revisionId, s, steps[0]);
      DisposedStaysSilent(document, revisionId, Next(document, revisionId, s, steps[0]), steps[1..], t, i);
    }
  }

  lemma SilentStep(document: ReaderDocument, revisionId: string, s: System, step: Step, i: nat)
    requires Inv(s) && Enabled(s, step) && i < |s.clients| && s.clients[i].disposed
    ensures var t := Next(document, revisionId, s, step);
      i < |t.clients| && t.clients[i].disposed && t.clients[i].sent == s.clients[i].sent
  {
    hide SaveSucceeded, SaveConflicted, SaveFailed, PersistProgress, Inv, RetryFires, Navigate, Flush, Dispose,
      DebounceFires, Consistent, After;
    IsConsistent(s, i);
    var c := s.clients[i];
    DisposedDoesNothing(c, if step.UserNavigates? then step.location else ComicLocation("", None));
    match step
    case ReplyArrives(reply) =>
      if reply.client == i {
        SilentReply(c, reply.send, reply.outcome);
      }
    case SaveErrs(j, send, retryable) =>
      if j == i {
        DisposedGivesUp(c, send, retryable);
      }
    case _ =>
  }

  lemma SilentReply(c: Client, send: nat, outcome: SaveOutcome)
    requires Consistent(c) && c.disposed && send in c.sends && c.sends[send].Sending?
    ensures Receive(c, send, outcome).sent == c.sent && Receive(c, send, outcome).disposed
  {
    hide SaveSucceeded, SaveConflicted, SaveFailed, Consistent;
    match outcome
    case Saved(p) => DisposedAdopts(c, send, p);
    case Conflict(p) => DisposedAdopts(c, send, p);
    case NoLocation => DisposedGivesUp(c, send, false);
  }

  lemma IsConsistent(s: System, i: nat)
    requires Inv(s) && i < |s.clients|
    ensures Consistent(s.clients[i])
  {
  }
}
