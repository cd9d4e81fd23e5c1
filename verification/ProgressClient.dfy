/** The synchronizer as the source runs it: variables updated by every method and timer callback,
    proved against the event functions. */
module ProgressClient {
  import opened Wrappers
  import opened Locations
  import opened Persistence
  import Sync = ProgressSync

  class ProgressSynchronizer {
    var status: Sync.Status
    var progress: Option<Progress>
    var pending: Option<ReaderLocation>
    var debounceTimer: bool
    var retryTimer: Option<nat>
    var inFlight: Option<nat>
    var disposed: bool
    /** The calls of `send` that have not settled, and who awaits their promises. */
    var sends: map<nat, Sync.Activity>
    var started: nat
    var waiters: map<nat, seq<Sync.Waiter>>
    /** What was asked of the persistence and of the keepalive so far. */
    var sent: seq<Sync.Outgoing>

    ghost function View(): Sync.Client
      reads this
    {
      Sync.Client(status, progress, pending, debounceTimer, retryTimer, inFlight,
        sends, started, waiters, disposed, sent)
    }

    constructor (initialProgress: Option<Progress>)
      ensures View() == Sync.NewClient(initialProgress)
    {
      status, progress, pending := Sync.Idle, initialProgress, None;
      debounceTimer, retryTimer, inFlight, disposed := false, None, None, false;
      sends, started, waiters, sent := map[], 0, map[], [];
    }

    function MutationFor(location: ReaderLocation): ProgressInput
      reads this
    {
      ProgressInput(location, if progress.Some? then progress.value.version else 0)
    }

    /** One turn of the send loop, up to the reply. */
    method Ask(send: nat, location: ReaderLocation, retry: nat)
      modifies this`sends, this`sent
      ensures View() == Sync.Ask(old(View()), send, location, retry)
    {
      sent := sent + [Sync.Save(send, retry, MutationFor(location), progress)];
      sends := sends[send := Sync.Sending(location, retry)];
    }

    /** Awaiting the promise in flight. */
    method Join(w: Sync.Waiter)
      requires inFlight.Some?
      modifies this`waiters
      ensures View() == Sync.Join(old(View()), w)
    {
      var promise := inFlight.value;
      waiters := waiters[promise := (if promise in waiters then waiters[promise] else []) + [w]];
    }

    method RunPending()
      modifies this`pending, this`inFlight, this`sends, this`started, this`waiters, this`sent
      ensures View() == Sync.RunPending(old(View()))
    {
      if inFlight.Some? {
        Join(Sync.Runner);
        return;
      }
      if pending.None? || disposed {
        return;
      }
      var location := pending.value;
      pending := None;
      var send := started;
      started := started + 1;
      inFlight := Some(send);
      Ask(send, location, 0);
    }

    method Resume(w: Sync.Waiter)
      modifies this`pending, this`inFlight, this`sends, this`started, this`waiters, this`sent
      ensures View() == Sync.Resume(old(View()), w)
    {
      if w == Sync.Flusher || (pending.Some? && !disposed) {
        RunPending();
      }
    }

    /** The promise of a `send` settles: its owner goes on, then those who awaited it, as they came. */
    method Settle(send: nat)
      modifies this`pending, this`inFlight, this`sends, this`started, this`waiters, this`sent
      ensures View() == Sync.Settle(old(View()), send)
    {
      var resumed := if send in waiters then waiters[send] else [];
      inFlight, sends, waiters := None, sends - {send}, waiters - {send};
      if pending.Some? && !disposed && !debounceTimer {
        RunPending();
      }
      ghost var landed := View();
      assert Sync.ResumeAll(landed, resumed[..0]) == landed;
      hide Sync.ResumeAll, Sync.Resume, Sync.RunPending;
      for i := 0 to |resumed|
        invariant View() == Sync.ResumeAll(landed, resumed[..i])
      {
        Sync.ResumeNext(landed, resumed, i);
        Resume(resumed[i]);
      }
      assert resumed[..|resumed|] == resumed;
    }

    method Navigate(location: ReaderLocation)
      modifies this
      ensures View() == Sync.Navigate(old(View()), location)
    {
      if disposed {
        return;
      }
      pending := Some(location);
      status := Sync.Pending;
      debounceTimer := true;
    }

    method DebounceFires()
      requires debounceTimer
      modifies this
      ensures View() == Sync.DebounceFires(old(View()))
    {
      debounceTimer := false;
      RunPending();
    }

    method Flush()
      modifies this
      ensures View() == Sync.Flush(old(View()))
    {
      debounceTimer := false;
      if inFlight.Some? {
        Join(Sync.Flusher);
      } else {
        RunPending();
      }
    }

    method SaveSucceeded(send: nat, saved: Progress)
      requires send in sends && sends[send].Sending?
      modifies this
      ensures View() == Sync.SaveSucceeded(old(View()), send, saved)
    {
      status, progress := Sync.Synced, Some(saved);
      Settle(send);
    }

    method SaveConflicted(send: nat, current: Progress)
      requires send in sends && sends[send].Sending?
      modifies this
      ensures View() == Sync.SaveConflicted(old(View()), send, current)
    {
      status, progress := Sync.Conflicted, Some(current);
      pending := None;
      Settle(send);
    }

    method SaveFailed(send: nat, retryable: bool)
      requires send in sends && sends[send].Sending?
      modifies this
      ensures View() == Sync.SaveFailed(old(View()), send, retryable)
    {
      var location, retry := sends[send].location, sends[send].retry;
      if !retryable || retry == Sync.RETRIES || disposed {
        status := Sync.Failed;
        Settle(send);
        return;
      }
      status := Sync.Retrying;
      sends := sends[send := Sync.Waiting(location, retry)];
      retryTimer := Some(send);
    }

    method RetryFires(send: nat)
      requires send in sends && sends[send].Waiting?
      modifies this
      ensures View() == Sync.RetryFires(old(View()), send)
    {
      retryTimer := None;
      Ask(send, sends[send].location, sends[send].retry + 1);
    }

    method ClearTimers()
      modifies this`debounceTimer, this`retryTimer, this`sends
      ensures View() == Sync.ClearTimers(old(View()))
    {
      if retryTimer.Some? && retryTimer.value in sends {
        var interrupted := sends[retryTimer.value];
        sends := sends[retryTimer.value := Sync.Interrupted(interrupted.location, interrupted.retry)];
      }
      debounceTimer, retryTimer := false, None;
    }

    method Dispose()
      modifies this
      ensures View() == Sync.Dispose(old(View()))
    {
      if disposed {
        return;
      }
      ClearTimers();
      if pending.Some? {
        sent := sent + [Sync.Keepalive(MutationFor(pending.value), progress)];
      }
      disposed := true;
    }
  }
}
