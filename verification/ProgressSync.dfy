/** The progress synchronizer of one reader: debounce, one save in flight, bounded retry, adoption of
    a conflicting value, and disposal. Each function is one event together with everything the source
    runs before the next event. Nothing in the state keeps a second `send` from running beside the
    first: that none ever does is what `Consistent` says and every event keeps. */
module ProgressSync {
  import opened Wrappers
  import opened Locations
  import opened Persistence

  const RETRIES := 3

  datatype Status = Idle | Pending | Synced | Retrying | Failed | Conflicted

  /** A running `send`: a save is unanswered, or the next try waits for its timer, or disposal
      cleared that timer. */
  datatype Activity =
    | Sending(location: ReaderLocation, retry: nat)
    | Waiting(location: ReaderLocation, retry: nat)
    | Interrupted(location: ReaderLocation, retry: nat)

  /** Who awaits the promise of a `send`: a `runPending` call, or a `flush`. */
  datatype Waiter = Runner | Flusher

  /** What leaves a client, and the progress it knew then: a save of some `send`, or the keepalive. */
  datatype Outgoing =
    | Save(send: nat, retry: nat, input: ProgressInput, seen: Option<Progress>)
    | Keepalive(input: ProgressInput, seen: Option<Progress>)

  /** The closure variables, and the calls of `send` that are running: `started` counts them, `sends`
      holds those not settled yet, `inFlight` names one, and `waiters` holds who awaits which, in order. */
  datatype Client = Client(
    status: Status, progress: Option<Progress>, pending: Option<ReaderLocation>,
    debounce: bool, retryTimer: Option<nat>, inFlight: Option<nat>,
    sends: map<nat, Activity>, started: nat, waiters: map<nat, seq<Waiter>>,
    disposed: bool, sent: seq<Outgoing>)

  function NewClient(initial: Option<Progress>): Client {
    Client(Idle, initial, None, false, None, None, map[], 0, map[], false, [])
  }

  function MutationFor(c: Client, location: ReaderLocation): ProgressInput {
    ProgressInput(location, VersionOf(c.progress))
  }

  function WaitersOf(c: Client, send: nat): seq<Waiter> {
    if send in c.waiters then c.waiters[send] else []
  }

  // ---------- send, runPending and their continuations ----------

  /** One turn of the send loop, up to the reply. */
  function Ask(c: Client, send: nat, location: ReaderLocation, retry: nat): Client {
    c.(sends := c.sends[send := Sending(location, retry)],
       sent := c.sent + [Save(send, retry, MutationFor(c, location), c.progress)])
  }

  predicate WillRun(c: Client) {
    c.pending.Some? && !c.disposed
  }

  /** A new `send` of what is pending becomes the one in flight. */
  function Begin(c: Client): Client
    requires c.pending.Some?
  {
    Ask(c.(pending := None, inFlight := Some(c.started), started := c.started + 1), c.started, c.pending.value, 0)
  }

  function Join(c: Client, w: Waiter): Client
    requires c.inFlight.Some?
  {
    c.(waiters := c.waiters[c.inFlight.value := WaitersOf(c, c.inFlight.value) + [w]])
  }

  /** `runPending`: wait for the save in flight, or send what is pending. */
  function RunPending(c: Client): Client {
    if c.inFlight.Some? then Join(c, Runner)
    else if !WillRun(c) then c
    else Begin(c)
  }

  function Resume(c: Client, w: Waiter): Client {
    if w.Runner? && !WillRun(c) then c else RunPending(c)
  }

  function ResumeAll(c: Client, waiters: seq<Waiter>): Client {
    if waiters == [] then c else Resume(ResumeAll(c, waiters[..|waiters| - 1]), waiters[|waiters| - 1])
  }

  lemma ResumeNext(c: Client, waiters: seq<Waiter>, i: nat)
    requires i < |waiters|
    ensures ResumeAll(c, waiters[..i + 1]) == Resume(ResumeAll(c, waiters[..i]), waiters[i])
  {
    assert waiters[..i + 1][..i] == waiters[..i];
  }

  /** A `send` is over: nothing is in flight, and its owner is the first to go on. */
  function Landed(c: Client, send: nat): Client {
    var landed := c.(inFlight := None, sends := c.sends - {send}, waiters := c.waiters - {send});
    if WillRun(landed) && !landed.debounce then RunPending(landed) else landed
  }

  /** After the owner everyone who awaited that `send` goes on. */
  function Settle(c: Client, send: nat): Client {
    ResumeAll(Landed(c, send), WaitersOf(c, send))
  }

  // ---------- events ----------

  /** A save of that `send`, its try `retry`, has been made and not answered. */
  predicate Awaits(c: Client, send: nat, retry: nat) {
    send in c.sends && c.sends[send].Sending? && c.sends[send].retry == retry
  }

  function Navigate(c: Client, location: ReaderLocation): Client {
    if c.disposed then c else c.(pending := Some(location), debounce := true, status := Pending)
  }

  function DebounceFires(c: Client): Client
    requires c.debounce
  {
    RunPending(c.(debounce := false))
  }

  function Flush(c: Client): Client {
    var d := c.(debounce := false);
    if d.inFlight.Some? then Join(d, Flusher) else RunPending(d)
  }

  function SaveSucceeded(c: Client, send: nat, progress: Progress): Client {
    Settle(c.(status := Synced, progress := Some(progress)), send)
  }

  function SaveConflicted(c: Client, send: nat, current: Progress): Client {
    Settle(c.(status := Conflicted, progress := Some(current), pending := None), send)
  }

  function SaveFailed(c: Client, send: nat, retryable: bool): Client
    requires send in c.sends && c.sends[send].Sending?
  {
    var a := c.sends[send];
    if !retryable || a.retry == RETRIES || c.disposed then Settle(c.(status := Failed), send)
    else c.(status := Retrying, sends := c.sends[send := Waiting(a.location, a.retry)], retryTimer := Some(send))
  }

  function RetryFires(c: Client, send: nat): Client
    requires send in c.sends && c.sends[send].Waiting?
  {
    Ask(c.(retryTimer := None), send, c.sends[send].location, c.sends[send].retry + 1)
  }

  /** Clearing the timers: the `send` that waits for the last one set never resumes. */
  function ClearTimers(c: Client): Client {
    var d := c.(debounce := false, retryTimer := None);
    if c.retryTimer.Some? && c.retryTimer.value in c.sends then
      var a := c.sends[c.retryTimer.value];
      d.(sends := c.sends[c.retryTimer.value := Interrupted(a.location, a.retry)])
    else d
  }

  /** What is pending goes to the keepalive. */
  function Dispose(c: Client): Client {
    if c.disposed then c
    else
      var d := ClearTimers(c);
      d.(disposed := true,
         sent := d.sent + if d.pending.Some? then [Keepalive(MutationFor(d, d.pending.value), d.progress)] else [])
  }

  // ---------- what every event keeps ----------

  /** At most one `send` runs, the one in flight; retries are bounded; only a running `send` is
      awaited; and a pending location has a timer or a flight after which it is sent. */
  predicate Consistent(c: Client) {
    && c.sends.Keys == (if c.inFlight.Some? then {c.inFlight.value} else {})
    && (forall send | send in c.sends :: send < c.started && Bounded(c, send))
    && c.waiters.Keys <= c.sends.Keys
    && (c.retryTimer.Some? ==> c.retryTimer.value in c.sends && c.sends[c.retryTimer.value].Waiting?)
    && (WillRun(c) ==> c.debounce || c.inFlight.Some?)
    && (c.disposed ==> !c.debounce)
  }

  predicate Bounded(c: Client, send: nat)
    requires send in c.sends
  {
    match c.sends[send]
    case Sending(_, retry) => retry <= RETRIES
    case Waiting(_, retry) => retry < RETRIES && c.retryTimer == Some(send) && !c.disposed
    case Interrupted(_, retry) => retry < RETRIES && c.disposed
  }

  /** A consistent client has at most one unanswered save, and nothing is in flight beside it. */
  lemma SingleFlight(c: Client, send: nat, retry: nat, send': nat, retry': nat)
    requires Consistent(c) && Awaits(c, send, retry) && Awaits(c, send', retry')
    ensures send == send' && retry == retry' && c.inFlight == Some(send) && retry <= RETRIES
  {
  }

  /** The try was made: its `send` has settled, or has come at least as far. */
  predicate Made(c: Client, send: nat, retry: nat) {
    send < c.started && (send in c.sends ==> retry <= c.sends[send].retry)
  }

  /** From `c` to `d` at most one thing is sent, and it is a try not made before or the keepalive; no
      try is forgotten; and while an earlier save is unanswered the client learns nothing. */
  ghost predicate Advances(c: Client, d: Client) {
    && c.started <= d.started
    && (forall send, retry :: Made(c, send, retry) ==> Made(d, send, retry))
    && (forall send, retry :: Awaits(d, send, retry) ==>
          || !Made(c, send, retry)
          || (Awaits(c, send, retry) && d.sends[send] == c.sends[send] && d.progress == c.progress))
    && (d.sent == c.sent || (|d.sent| == |c.sent| + 1 && d.sent[..|c.sent|] == c.sent && Fresh(c, d, d.sent[|c.sent|])))
  }

  predicate Fresh(c: Client, d: Client, x: Outgoing) {
    && x.seen == d.progress && x.input.expectedVersion == VersionOf(x.seen)
    && (x.Save? ==>
          && !Made(c, x.send, x.retry) && Made(d, x.send, x.retry)
          && Awaits(d, x.send, x.retry) && x.input.location == d.sends[x.send].location)
  }

  lemma {:induction false} ResumeAllFacts(c: Client, waiters: seq<Waiter>)
    requires c.inFlight.None? || c.pending.None?
    ensures var d := ResumeAll(c, waiters);
      var e := if c.inFlight.None? && waiters != [] && WillRun(c) then Begin(c) else c;
      && d == e.(waiters := d.waiters)
      && (if e.inFlight.Some? then d.waiters.Keys <= c.waiters.Keys + {e.inFlight.value} else d.waiters == c.waiters)
  {
    if waiters == [] {
    } else {
      ResumeAllFacts(c, waiters[..|waiters| - 1]);
    }
  }

  /** When a `send` lands, at most one new one begins, however many awaited it: exactly when something is
      pending and either no timer runs or someone waited. A location that is not sent keeps its timer. */
  lemma SettleFacts(c: Client, send: nat)
    requires c.sends.Keys == {send} && c.waiters.Keys <= {send}
    ensures var d := Settle(c, send);
      var landed := c.(inFlight := None, sends := map[], waiters := map[]);
      if WillRun(c) && (!c.debounce || WaitersOf(c, send) != [])
      then d == Begin(landed).(waiters := d.waiters) && d.waiters.Keys <= {c.started}
      else d == landed
  {
    assert c.sends - {send} == map[] && c.waiters - {send} == map[];
    ResumeAllFacts(Landed(c, send), WaitersOf(c, send));
  }

  lemma NavigateConsistent(c: Client, location: ReaderLocation)
    requires Consistent(c)
    ensures var d := Navigate(c, location); Consistent(d) && Advances(c, d) && d.progress == c.progress
  {
  }

  lemma DebounceConsistent(c: Client)
    requires Consistent(c) && c.debounce
    ensures var d := DebounceFires(c); Consistent(d) && Advances(c, d) && d.progress == c.progress
  {
  }

  lemma FlushConsistent(c: Client)
    requires Consistent(c)
    ensures var d := Flush(c); Consistent(d) && Advances(c, d) && d.progress == c.progress
  {
  }

  lemma RetryConsistent(c: Client, send: nat)
    requires Consistent(c) && send in c.sends && c.sends[send].Waiting?
    ensures var d := RetryFires(c, send); Consistent(d) && Advances(c, d) && d.progress == c.progress
  {
  }

  lemma DisposeConsistent(c: Client)
    requires Consistent(c)
    ensures var d := Dispose(c); Consistent(d) && Advances(c, d) && d.progress == c.progress
  {
  }

  /** A reply with a value keeps a client consistent, and the value is what it knows from then on. */
  lemma SuccessConsistent(c: Client, send: nat, progress: Progress)
    requires Consistent(c) && send in c.sends && c.sends[send].Sending?
    ensures var d := SaveSucceeded(c, send, progress);
      Consistent(d) && Advances(c, d) && d.progress == Some(progress)
  {
    SettleFacts(c.(status := Synced, progress := Some(progress)), send);
  }

  lemma ConflictConsistent(c: Client, send: nat, current: Progress)
    requires Consistent(c) && send in c.sends && c.sends[send].Sending?
    ensures var d := SaveConflicted(c, send, current);
      Consistent(d) && Advances(c, d) && d.progress == Some(current)
  {
    SettleFacts(c.(status := Conflicted, progress := Some(current), pending := None), send);
  }

  /** A failed save keeps a client consistent, and what it knows. */
  lemma FailureConsistent(c: Client, send: nat, retryable: bool)
    requires Consistent(c) && send in c.sends && c.sends[send].Sending?
    ensures var d := SaveFailed(c, send, retryable);
      Consistent(d) && Advances(c, d) && d.progress == c.progress
  {
    SettleFacts(c.(status := Failed), send);
  }

  // ---------- what each event does ----------

  /** Navigating makes the location the pending one and starts the timer; nothing is sent. Once disposed it
      does nothing. */
  lemma NavigateDoes(c: Client, location: ReaderLocation)
    ensures var d := Navigate(c, location);
      if c.disposed then d == c
      else
        && d.pending == Some(location) && d.debounce && d.status == Pending
        && d.progress == c.progress && d.sent == c.sent && d.sends == c.sends && d.inFlight == c.inFlight
  {
  }

  /** One save of the location, the first try of a new send, with the version known then. */
  ghost predicate SendsNow(c: Client, d: Client, location: ReaderLocation) {
    && Awaits(d, c.started, 0) && d.sends[c.started].location == location && d.pending == None
    && d.sent == c.sent + [Save(c.started, 0, ProgressInput(location, VersionOf(d.progress)), d.progress)]
  }

  /** With nothing in flight the timer and a flush send what is pending, and otherwise nothing; with a send in
      flight they wait for it behind those who already do. Either way the timer is off and nothing is lost. */
  ghost predicate SendsOrWaits(c: Client, d: Client, w: Waiter) {
    && !d.debounce && d.status == c.status && d.progress == c.progress && d.disposed == c.disposed
    && match c.inFlight
       case None =>
         if c.pending.Some? && !c.disposed then SendsNow(c, d, c.pending.value)
         else d.pending == c.pending && d.sent == c.sent && d.sends == c.sends
       case Some(send) =>
         && d.pending == c.pending && d.sent == c.sent && d.sends == c.sends
         && WaitersOf(d, send) == WaitersOf(c, send) + [w]
  }

  lemma DebounceDoes(c: Client)
    requires c.debounce
    ensures SendsOrWaits(c, DebounceFires(c), Runner)
  {
  }

  lemma FlushDoes(c: Client)
    ensures SendsOrWaits(c, Flush(c), Flusher)
  {
  }

  /** Nothing runs any more, and nothing more was sent. */
  ghost predicate Rests(c: Client, d: Client) {
    d.sends == map[] && d.inFlight == None && d.sent == c.sent
  }

  /** After a success the value is adopted and the status synced. What is pending goes at once if no timer
      runs or someone waited, and is otherwise left to its timer. */
  lemma SuccessDoes(c: Client, send: nat, progress: Progress)
    requires Consistent(c) && send in c.sends && c.sends[send].Sending?
    ensures var d := SaveSucceeded(c, send, progress);
      && d.status == Synced && d.progress == Some(progress) && d.debounce == c.debounce && d.disposed == c.disposed
      && (if WillRun(c) && (!c.debounce || WaitersOf(c, send) != []) then SendsNow(c, d, c.pending.value)
          else Rests(c, d) && d.pending == c.pending)
  {
    SettleFacts(c.(status := Synced, progress := Some(progress)), send);
  }

  /** A conflict is adopted, drops what is pending, and sends nothing. */
  lemma ConflictDoes(c: Client, send: nat, current: Progress)
    requires Consistent(c) && send in c.sends && c.sends[send].Sending?
    ensures var d := SaveConflicted(c, send, current);
      && d.status == Conflicted && d.progress == Some(current) && d.pending == None
      && Rests(c, d) && d.debounce == c.debounce && d.disposed == c.disposed
  {
    SettleFacts(c.(status := Conflicted, progress := Some(current), pending := None), send);
  }

  /** A retryable failure of a client that is not disposed, before the fourth try, leaves that send waiting
      with its location and try, its timer set. In every other case the send is over and the status failed;
      what is pending goes next as after a success. */
  lemma FailureDoes(c: Client, send: nat, retryable: bool)
    requires Consistent(c) && send in c.sends && c.sends[send].Sending?
    ensures var d := SaveFailed(c, send, retryable);
      && d.progress == c.progress && d.debounce == c.debounce && d.disposed == c.disposed
      && if retryable && c.sends[send].retry < 3 && !c.disposed
         then
           && d.status == Retrying && d.pending == c.pending && d.sent == c.sent && d.inFlight == Some(send)
           && d.sends == map[send := Waiting(c.sends[send].location, c.sends[send].retry)]
           && d.retryTimer == Some(send)
         else
           && d.status == Failed && send !in d.sends
           && (if WillRun(c) && (!c.debounce || WaitersOf(c, send) != []) then SendsNow(c, d, c.pending.value)
               else Rests(c, d) && d.pending == c.pending)
  {
    SettleFacts(c.(status := Failed), send);
  }

  /** The retry sends the same location again, as the next try, with the version known by then. */
  lemma RetryDoes(c: Client, send: nat)
    requires Consistent(c) && send in c.sends && c.sends[send].Waiting?
    ensures var d, a := RetryFires(c, send), c.sends[send];
      && Awaits(d, send, a.retry + 1) && d.sends[send].location == a.location
      && d.sent == c.sent + [Save(send, a.retry + 1, ProgressInput(a.location, VersionOf(c.progress)), c.progress)]
      && d.pending == c.pending && d.debounce == c.debounce && d.status == c.status
  {
  }

  /** Disposal hands what is pending to the keepalive, at the version known, and nothing if nothing is; no timer
      is left, so a send that waits for one never resumes; a save already made may still be answered. */
  lemma DisposeDoes(c: Client)
    requires Consistent(c) && !c.disposed
    ensures var d := Dispose(c);
      && d.disposed && !d.debounce && d.retryTimer == None
      && (match c.pending
          case Some(location) =>
            d.sent == c.sent + [Keepalive(ProgressInput(location, VersionOf(c.progress)), c.progress)]
          case None => d.sent == c.sent)
      && d.sends.Keys == c.sends.Keys
      && forall send | send in c.sends ::
           if c.sends[send].Waiting? then d.sends[send].Interrupted? else d.sends[send] == c.sends[send]
  {
  }

  /** A disposed client sends nothing when it is used, and has no timer. */
  lemma DisposedDoesNothing(c: Client, location: ReaderLocation)
    requires Consistent(c) && c.disposed
    ensures Navigate(c, location) == c && Dispose(c) == c && Flush(c).sent == c.sent && Flush(c).disposed
    ensures !c.debounce && forall send | send in c.sends :: !c.sends[send].Waiting?
  {
  }

  /** Nor does it when its last save is answered. */
  lemma DisposedAdopts(c: Client, send: nat, progress: Progress)
    requires Consistent(c) && c.disposed && send in c.sends && c.sends[send].Sending?
    ensures SaveSucceeded(c, send, progress).sent == c.sent && SaveSucceeded(c, send, progress).disposed
    ensures SaveConflicted(c, send, progress).sent == c.sent && SaveConflicted(c, send, progress).disposed
  {
    SuccessDoes(c, send, progress);
    ConflictDoes(c, send, progress);
  }

  lemma DisposedGivesUp(c: Client, send: nat, retryable: bool)
    requires Consistent(c) && c.disposed && send in c.sends && c.sends[send].Sending?
    ensures SaveFailed(c, send, retryable).sent == c.sent && SaveFailed(c, send, retryable).disposed
  {
    FailureDoes(c, send, retryable);
  }
}
