/** The preference queue as the source runs it: two closure variables and a retrying mutation, proved
    against the event functions. */
module PreferenceClient {
  import opened Wrappers
  import Q = PreferenceQueue

  class PreferenceMutationQueue {
    var desired: Option<Q.Desired>
    var running: bool
    /** What the page has adopted. */
    var current: Q.Preferences
    var stamp: nat
    var aborted: bool
    /** The mutations that have not ended, of `started` ones, and the saves they asked for so far. */
    var mutations: map<nat, Q.Phase>
    var started: nat
    var saves: seq<Q.Save>

    ghost function View(): Q.Queue
      reads this
    {
      Q.Queue(desired, running, current, stamp, aborted, mutations, started, saves)
    }

    constructor (initial: Q.Preferences)
      ensures View() == Q.NewQueue(initial)
    {
      desired, running, current, stamp, aborted := None, false, initial, 0, false;
      mutations, started, saves := map[], 0, [];
    }

    /** The mutation is over, and with it the run. */
    method Stop(mutation: nat)
      modifies this`mutations, this`running
      ensures View() == Q.Stop(old(View()), mutation)
    {
      mutations, running := mutations - {mutation}, false;
    }

    /** The `work` loop up to the next save, or to its end. */
    method Work(mutation: nat, attempt: nat)
      modifies this`mutations, this`running, this`saves
      ensures View() == Q.Work(old(View()), mutation, attempt)
    {
      if desired.None? {
        Stop(mutation);
        return;
      }
      var target := desired.value;
      mutations := mutations[mutation := Q.Saving(|saves|, target, attempt)];
      saves := saves + [Q.Save(mutation, target.values, current.version)];
    }

    method Update(update: Q.Partial)
      modifies this
      ensures View() == Q.Update(old(View()), update)
    {
      var base := if desired.Some? then desired.value.values else current.values;
      var fontSize := if update.fontSize.Some? then update.fontSize.value else base.fontSize;
      var typeface := if update.typeface.Some? then update.typeface.value else base.typeface;
      var paper := if update.paper.Some? then update.paper.value else base.paper;
      desired := Some(Q.Desired(stamp, Q.Values(fontSize, typeface, paper)));
      stamp := stamp + 1;
      if running {
        return;
      }
      if aborted {
        return;
      }
      running := true;
      var mutation := started;
      started := started + 1;
      Work(mutation, 0);
    }

    method SaveSucceeded(mutation: nat, saved: Q.Preferences)
      requires mutation in mutations && mutations[mutation].Saving?
      modifies this
      ensures View() == Q.SaveSucceeded(old(View()), mutation, saved)
    {
      var target, attempt := mutations[mutation].target, mutations[mutation].attempt;
      current := saved;
      if desired == Some(target) {
        desired := None;
      }
      Work(mutation, attempt);
    }

    method SaveConflicted(mutation: nat, value: Q.Preferences)
      requires mutation in mutations && mutations[mutation].Saving?
      modifies this
      ensures View() == Q.SaveConflicted(old(View()), mutation, value)
    {
      if !aborted {
        desired := None;
        current := value;
      }
      Stop(mutation);
    }

    method SaveFailed(mutation: nat, retryable: bool)
      requires mutation in mutations && mutations[mutation].Saving?
      modifies this
      ensures View() == Q.SaveFailed(old(View()), mutation, retryable)
    {
      var attempt := mutations[mutation].attempt;
      if !aborted && retryable && attempt < Q.RETRY_DELAYS {
        mutations := mutations[mutation := Q.Waiting(attempt)];
        return;
      }
      if !aborted {
        desired := None;
      }
      Stop(mutation);
    }

    method WaitEnds(mutation: nat)
      requires mutation in mutations && mutations[mutation].Waiting?
      modifies this
      ensures View() == Q.WaitEnds(old(View()), mutation)
    {
      if aborted {
        Stop(mutation);
        return;
      }
      Work(mutation, mutations[mutation].attempt + 1);
    }

    /** The abort event reaches every waiting mutation; each resumes and stops. */
    method Abort()
      modifies this
      ensures View() == Q.Abort(old(View()))
    {
      aborted := true;
      ghost var was := View();
      var woken := set m | m in mutations && mutations[m].Waiting?;
      var todo := woken;
      while todo != {}
        invariant todo <= woken && View() == was.(mutations := mutations, running := running)
        invariant mutations == was.mutations - (woken - todo) && running == (was.running && todo == woken)
        decreases |todo|
      {
        var m :| m in todo;
        WaitEnds(m);
        todo := todo - {m};
      }
    }
  }
}
