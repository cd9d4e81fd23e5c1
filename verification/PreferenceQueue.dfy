/** The preference queue: updates merged into one desired value, saved one at a time by a retrying
    mutation. Each function is one event together with everything the source runs before the next.
    Nothing in the state keeps a second mutation from running beside the first: that none ever does is
    what `Consistent` says and every event keeps. */
module PreferenceQueue {
  import opened Wrappers

  const RETRY_DELAYS := 3

  datatype Values = Values(fontSize: int, typeface: string, paper: string)

  datatype Partial = Partial(fontSize: Option<int>, typeface: Option<string>, paper: Option<string>)

  /** What the store holds, and what every save returns. */
  datatype Preferences = Preferences(values: Values, version: nat)

  /** A save some mutation asked for. */
  datatype Save = Save(mutation: nat, values: Values, expectedVersion: nat)

  /** A desired value is an object: a later update makes another one, even with equal fields. */
  datatype Desired = Desired(stamp: nat, values: Values)

  /** A running mutation: its save, the given one of all saves, is unanswered, or it waits to try again. */
  datatype Phase = Saving(save: nat, target: Desired, attempt: nat) | Waiting(attempt: nat)

  /** The closure variables, what the page has adopted (`current`), the number of updates so far
      (`stamp`), the mutations that are running, of `started` ones, and the saves asked for so far. */
  datatype Queue = Queue(
    desired: Option<Desired>, running: bool, current: Preferences, stamp: nat, aborted: bool,
    mutations: map<nat, Phase>, started: nat, saves: seq<Save>)

  function NewQueue(current: Preferences): Queue {
    Queue(None, false, current, 0, false, map[], 0, [])
  }

  function Or<T>(value: Option<T>, fallback: T): T {
    if value.Some? then value.value else fallback
  }

  function Merge(values: Values, update: Partial): Values {
    Values(Or(update.fontSize, values.fontSize), Or(update.typeface, values.typeface), Or(update.paper, values.paper))
  }

  /** What the next update is merged into. */
  function Wanted(q: Queue): Values {
    if q.desired.Some? then q.desired.value.values else q.current.values
  }

  // ---------- events ----------

  /** A mutation ends; whatever is desired then is left alone. */
  function Stop(q: Queue, mutation: nat): Queue {
    q.(running := false, mutations := q.mutations - {mutation})
  }

  /** `work`: save what is desired, expecting the adopted version, or finish. */
  function Work(q: Queue, mutation: nat, attempt: nat): Queue {
    if q.desired.Some? then
      q.(mutations := q.mutations[mutation := Saving(|q.saves|, q.desired.value, attempt)],
         saves := q.saves + [Save(mutation, q.desired.value.values, q.current.version)])
    else Stop(q, mutation)
  }

  function Update(q: Queue, update: Partial): Queue {
    var p := q.(desired := Some(Desired(q.stamp, Merge(Wanted(q), update))), stamp := q.stamp + 1);
    if p.running then p
    else if p.aborted then p
    else Work(p.(running := true, started := p.started + 1), p.started, 0)
  }

  predicate IsSaving(q: Queue, mutation: nat) {
    mutation in q.mutations && q.mutations[mutation].Saving?
  }

  predicate IsWaiting(q: Queue, mutation: nat) {
    mutation in q.mutations && q.mutations[mutation].Waiting?
  }

  function SaveSucceeded(q: Queue, mutation: nat, saved: Preferences): Queue
    requires IsSaving(q, mutation)
  {
    var phase := q.mutations[mutation];
    var left := if q.desired == Some(phase.target) then None else q.desired;
    Work(q.(current := saved, desired := left), mutation, phase.attempt)
  }

  function SaveConflicted(q: Queue, mutation: nat, current: Preferences): Queue
    requires IsSaving(q, mutation)
  {
    if q.aborted then Stop(q, mutation) else Stop(q.(desired := None, current := current), mutation)
  }

  function SaveFailed(q: Queue, mutation: nat, retryable: bool): Queue
    requires IsSaving(q, mutation)
  {
    var attempt := q.mutations[mutation].attempt;
    if q.aborted then Stop(q, mutation)
    else if retryable && attempt < RETRY_DELAYS then q.(mutations := q.mutations[mutation := Waiting(attempt)])
    else Stop(q.(desired := None), mutation)
  }

  function WaitEnds(q: Queue, mutation: nat): Queue
    requires IsWaiting(q, mutation)
  {
    if q.aborted then Stop(q, mutation) else Work(q, mutation, q.mutations[mutation].attempt + 1)
  }

  /** Aborting wakes every mutation that waits, and each of them stops. */
  function Abort(q: Queue): Queue {
    var woken := set m | m in q.mutations && q.mutations[m].Waiting?;
    q.(aborted := true, running := q.running && woken == {}, mutations := q.mutations - woken)
  }

  // ---------- what every event keeps ----------

  /** At most one mutation runs, the last one started, and exactly while the queue is running. If it
      has a save unanswered, that is the last one asked for; what is desired is being saved unless the
      signal aborted. */
  predicate Consistent(q: Queue) {
    && (if q.running then q.started > 0 && q.mutations.Keys == {q.started - 1} else q.mutations == map[])
    && (q.running ==> q.desired.Some? && Sound(q, q.started - 1))
    && (q.desired.Some? ==> (q.running || q.aborted) && q.desired.value.stamp < q.stamp)
  }

  /** The last save asked for is the unanswered one: it carries its target and expects the adopted version. */
  predicate Sound(q: Queue, mutation: nat)
    requires mutation in q.mutations && q.desired.Some?
  {
    match q.mutations[mutation]
    case Saving(save, target, attempt) =>
      && save + 1 == |q.saves| && q.saves[save] == Save(mutation, target.values, q.current.version)
      && attempt <= RETRY_DELAYS
      && target.stamp <= q.desired.value.stamp
      && (target.stamp == q.desired.value.stamp ==> target == q.desired.value)
    case Waiting(attempt) => attempt < RETRY_DELAYS && !q.aborted
  }

  datatype Event =
    | Updates(update: Partial)
    | Succeeds(mutation: nat, saved: Preferences)
    | Conflicts(mutation: nat, current: Preferences)
    | Fails(mutation: nat, retryable: bool)
    | Timer(mutation: nat)
    | Aborts

  /** An answer or a timer concerns any mutation it can concern: nothing here says there is one. */
  predicate Enabled(q: Queue, e: Event) {
    match e
    case Updates(_) => true
    case Succeeds(mutation, _) => IsSaving(q, mutation)
    case Conflicts(mutation, _) => IsSaving(q, mutation)
    case Fails(mutation, _) => IsSaving(q, mutation)
    case Timer(mutation) => IsWaiting(q, mutation)
    case Aborts => true
  }

  function Next(q: Queue, e: Event): Queue
    requires Enabled(q, e)
  {
    match e
    case Updates(update) => Update(q, update)
    case Succeeds(mutation, saved) => SaveSucceeded(q, mutation, saved)
    case Conflicts(mutation, current) => SaveConflicted(q, mutation, current)
    case Fails(mutation, retryable) => SaveFailed(q, mutation, retryable)
    case Timer(mutation) => WaitEnds(q, mutation)
    case Aborts => Abort(q)
  }

  ghost predicate IsRun(q: Queue, events: seq<Event>, r: Queue)
    decreases |events|
  {
    if events == [] then q == r else Enabled(q, events[0]) && IsRun(Next(q, events[0]), events[1..], r)
  }

  lemma AbortConsistent(q: Queue)
    requires Consistent(q)
    ensures Consistent(Abort(q))
  {
    if q.running && IsWaiting(q, q.started - 1) {
      assert (set m | m in q.mutations && q.mutations[m].Waiting?) == {q.started - 1};
    } else {
      assert (set m | m in q.mutations && q.mutations[m].Waiting?) == {};
    }
  }

  lemma StopConsistent(q: Queue, mutation: nat)
    requires q.mutations.Keys == {mutation} && (q.desired.Some? ==> q.aborted && q.desired.value.stamp < q.stamp)
    ensures Consistent(Stop(q, mutation))
  {
    assert q.mutations - {mutation} == map[];
  }

  /** Every event keeps a queue consistent, and asks for at most one save. */
  lemma NextConsistent(q: Queue, e: Event)
    requires Consistent(q) && Enabled(q, e)
    ensures Consistent(Next(q, e))
    ensures q.saves <= Next(q, e).saves && |Next(q, e).saves| <= |q.saves| + 1
  {
    match e
    case Updates(update) =>
    case Succeeds(mutation, saved) =>
      if q.desired == Some(q.mutations[mutation].target) {
        StopConsistent(q.(current := saved, desired := None), mutation);
      }
    case Conflicts(mutation, current) =>
      StopConsistent(if q.aborted then q else q.(desired := None, current := current), mutation);
    case Fails(mutation, retryable) =>
      StopConsistent(if q.aborted then q else q.(desired := None), mutation);
    case Timer(mutation) =>
    case Aborts =>
      AbortConsistent(q);
  }

  lemma {:induction false} RunConsistent(q: Queue, events: seq<Event>, r: Queue)
    requires Consistent(q) && IsRun(q, events, r)
    ensures Consistent(r)
    decreases |events|
  {
    if events == [] {
    } else {
      NextConsistent(q, events[0]);
      RunConsistent(Next(q, events[0]), events[1..], r);
    }
  }

  /** In every run no two saves are unanswered: the one there may be is the last one asked for, expects
      the last adopted version, and has been tried at most four times. */
  lemma OneSaveOutstanding(current: Preferences, events: seq<Event>, q: Queue, mutation: nat, mutation': nat)
    requires IsRun(NewQueue(current), events, q) && IsSaving(q, mutation) && IsSaving(q, mutation')
    ensures mutation == mutation' && q.running
    ensures q.mutations[mutation].save == |q.saves| - 1
    ensures q.saves[|q.saves| - 1].expectedVersion == q.current.version && q.mutations[mutation].attempt <= RETRY_DELAYS
  {
    RunConsistent(NewQueue(current), events, q);
  }

  /** In every run what is desired is being saved, or waits to be tried again, unless the signal aborted. */
  lemma DesiredIsServed(current: Preferences, events: seq<Event>, q: Queue)
    requires IsRun(NewQueue(current), events, q) && q.desired.Some? && !q.aborted
    ensures q.running && q.started > 0 && (IsSaving(q, q.started - 1) || IsWaiting(q, q.started - 1))
  {
    RunConsistent(NewQueue(current), events, q);
  }

  // ---------- runs in which the user updates and saves return ----------

  /** The store's rule for preferences. */
  function Store(stored: Preferences, save: Save): Option<Preferences> {
    if save.expectedVersion != stored.version then None else Some(Preferences(save.values, stored.version + 1))
  }

  lemma StoreExactly(stored: Preferences, save: Save, saved: Preferences)
    ensures Store(stored, save) == Some(saved) <==>
      save.expectedVersion == stored.version && saved.values == save.values && saved.version == stored.version + 1
    ensures Store(stored, save) == None <==> save.expectedVersion != stored.version
  {
  }

  /** Every update folded over the initial values, in order. */
  function Fold(values: Values, updates: seq<Partial>): Values {
    if updates == [] then values else Merge(Fold(values, updates[..|updates| - 1]), updates[|updates| - 1])
  }

  /** The store's answer to a save: the value saved, or the one that stands against it. */
  datatype Answer = Accepted(saved: Preferences) | Refused(current: Preferences)

  /** A queue, the store it saves to, the updates made so far, and the saves on their way to the store
      and back, by their number. */
  datatype Session = Session(
    queue: Queue, stored: Preferences, updates: seq<Partial>, requests: set<nat>, replies: map<nat, Answer>)

  function NewSession(stored: Preferences): Session {
    Session(NewQueue(stored), stored, [], {}, map[])
  }

  /** The store takes the saves that have reached it in any order, and their answers arrive in any order. */
  datatype Turn = UserUpdates(update: Partial) | StoreTakes(save: nat) | AnswerArrives(save: nat)

  predicate Unanswered(q: Queue, save: nat) {
    save < |q.saves| && IsSaving(q, q.saves[save].mutation) && q.mutations[q.saves[save].mutation].save == save
  }

  predicate CanTake(s: Session, t: Turn) {
    match t
    case UserUpdates(_) => true
    case StoreTakes(save) => save in s.requests && save < |s.queue.saves|
    case AnswerArrives(save) => save in s.replies && Unanswered(s.queue, save)
  }

  /** The numbers from `a` up to but not including `b`. */
  function Numbers(a: nat, b: nat): set<nat>
    decreases b - a
  {
    if a >= b then {} else {a} + Numbers(a + 1, b)
  }

  /** The queue becomes `q`, and every save it has asked for since sets out for the store. */
  function Become(s: Session, q: Queue): Session {
    s.(queue := q, requests := s.requests + Numbers(|s.queue.saves|, |q.saves|))
  }

  function Take(s: Session, t: Turn): Session
    requires CanTake(s, t)
  {
    match t
    case UserUpdates(update) => Become(s.(updates := s.updates + [update]), Update(s.queue, update))
    case StoreTakes(save) =>
      var saved := Store(s.stored, s.queue.saves[save]);
      s.(stored := if saved.Some? then saved.value else s.stored, requests := s.requests - {save},
         replies := s.replies[save := if saved.Some? then Accepted(saved.value) else Refused(s.stored)])
    case AnswerArrives(save) =>
      var mutation := s.queue.saves[save].mutation;
      Become(s.(replies := s.replies - {save}),
        match s.replies[save]
        case Accepted(saved) => SaveSucceeded(s.queue, mutation, saved)
        case Refused(current) => SaveConflicted(s.queue, mutation, current))
  }

  ghost predicate IsSession(s: Session, turns: seq<Turn>, t: Session)
    decreases |turns|
  {
    if turns == [] then s == t else CanTake(s, turns[0]) && IsSession(Take(s, turns[0]), turns[1..], t)
  }

  /** While the queue runs its one save is on its way to the store, which holds what is adopted, or on its
      way back, accepted; otherwise nothing travels. What is wanted is always the fold of all updates. */
  ghost predicate SessionInv(initial: Values, s: Session) {
    && Consistent(s.queue) && !s.queue.aborted
    && Wanted(s.queue) == Fold(initial, s.updates)
    && if !s.queue.running then s.requests == {} && s.replies == map[] && s.queue.current == s.stored
       else
         && IsSaving(s.queue, s.queue.started - 1)
         && var phase := s.queue.mutations[s.queue.started - 1];
            || (s.requests == {phase.save} && s.replies == map[] && s.queue.current == s.stored)
            || (&& s.requests == {} && s.replies == map[phase.save := Accepted(s.stored)]
                && s.stored.values == phase.target.values)
  }

  lemma BecomeSaves(s: Session, q: Queue)
    ensures |q.saves| == |s.queue.saves| ==> Become(s, q) == s.(queue := q)
    ensures |q.saves| == |s.queue.saves| + 1 ==>
      Become(s, q) == s.(queue := q, requests := s.requests + {|s.queue.saves|})
  {
    var n := |s.queue.saves|;
    assert Numbers(n, n) == {} && Numbers(n, n + 1) == {n} + Numbers(n + 1, n + 1);
  }

  lemma UpdateKeeps(initial: Values, s: Session, update: Partial)
    requires SessionInv(initial, s)
    ensures SessionInv(initial, Take(s, UserUpdates(update)))
  {
    NextConsistent(s.queue, Updates(update));
    BecomeSaves(s.(updates := s.updates + [update]), Update(s.queue, update));
    assert (s.updates + [update])[..|s.updates|] == s.updates;
    hide Become, Numbers;
    if s.queue.running {
      assert Update(s.queue, update).saves == s.queue.saves;
    } else {
      assert |Update(s.queue, update).saves| == |s.queue.saves| + 1;
    }
  }

  /** The store accepts whatever reaches it, and its version goes up by one. */
  lemma StoreKeeps(initial: Values, s: Session, save: nat)
    requires SessionInv(initial, s) && CanTake(s, StoreTakes(save))
    ensures SessionInv(initial, Take(s, StoreTakes(save)))
    ensures Take(s, StoreTakes(save)).stored == Preferences(s.queue.saves[save].values, s.stored.version + 1)
  {
  }

  lemma AnswerKeeps(initial: Values, s: Session, save: nat)
    requires SessionInv(initial, s) && CanTake(s, AnswerArrives(save))
    ensures SessionInv(initial, Take(s, AnswerArrives(save)))
  {
    var m := s.queue.started - 1;
    NextConsistent(s.queue, Succeeds(m, s.stored));
    BecomeSaves(s.(replies := s.replies - {save}), SaveSucceeded(s.queue, m, s.stored));
    assert s.replies - {save} == map[];
  }

  lemma TakeInv(initial: Values, s: Session, t: Turn)
    requires SessionInv(initial, s) && CanTake(s, t)
    ensures SessionInv(initial, Take(s, t))
  {
    match t
    case UserUpdates(update) => UpdateKeeps(initial, s, update);
    case StoreTakes(save) => StoreKeeps(initial, s, save);
    case AnswerArrives(save) => AnswerKeeps(initial, s, save);
  }

  lemma {:induction false} SessionKeepsInv(initial: Values, s: Session, turns: seq<Turn>, t: Session)
    requires SessionInv(initial, s) && IsSession(s, turns, t)
    ensures SessionInv(initial, t)
    decreases |turns|
  {
    if turns == [] {
    } else {
      TakeInv(initial, s, turns[0]);
      SessionKeepsInv(initial, Take(s, turns[0]), turns[1..], t);
    }
  }

  /** At idle nothing travels and the store holds all updates folded over the initial values. */
  lemma IdleStoresFold(stored: Preferences, turns: seq<Turn>, t: Session)
    requires IsSession(NewSession(stored), turns, t) && !t.queue.running
    ensures t.stored.values == Fold(stored.values, t.updates) && t.queue.current == t.stored
    ensures t.requests == {} && t.replies == map[]
  {
    SessionKeepsInv(stored.values, NewSession(stored), turns, t);
  }

  /** No save of such a run is ever refused. */
  lemma NoSaveIsRefused(stored: Preferences, turns: seq<Turn>, t: Session, save: nat)
    requires IsSession(NewSession(stored), turns, t) && save in t.requests
    ensures save < |t.queue.saves| && Store(t.stored, t.queue.saves[save]).Some?
  {
    SessionKeepsInv(stored.values, NewSession(stored), turns, t);
  }

  // ---------- what is stored, field by field ----------

  /** The value is what the last of these that says anything says, or the initial one if none does. */
  ghost predicate LastSays<T(!new)>(initial: T, said: seq<Option<T>>, value: T) {
    || (exists i :: SaysLast(said, i, value))
    || (value == initial && forall j | 0 <= j < |said| :: said[j] == None)
  }

  ghost predicate SaysLast<T(!new)>(said: seq<Option<T>>, i: int, value: T) {
    0 <= i < |said| && said[i] == Some(value) && forall j | i < j < |said| :: said[j] == None
  }

  lemma LastSaysNext<T(!new)>(initial: T, said: seq<Option<T>>, value: T, next: Option<T>)
    requires LastSays(initial, said, value)
    ensures LastSays(initial, said + [next], if next.Some? then next.value else value)
  {
    var all := said + [next];
    if next.Some? {
      assert SaysLast(all, |said|, next.value);
    } else if exists i :: SaysLast(said, i, value) {
      var i :| SaysLast(said, i, value);
      assert SaysLast(all, i, value);
    }
  }

  function FontSizes(updates: seq<Partial>): (said: seq<Option<int>>)
    ensures |said| == |updates| && forall i | 0 <= i < |said| :: said[i] == updates[i].fontSize
  {
    seq(|updates|, i requires 0 <= i < |updates| => updates[i].fontSize)
  }

  function Typefaces(updates: seq<Partial>): (said: seq<Option<string>>)
    ensures |said| == |updates| && forall i | 0 <= i < |said| :: said[i] == updates[i].typeface
  {
    seq(|updates|, i requires 0 <= i < |updates| => updates[i].typeface)
  }

  function Papers(updates: seq<Partial>): (said: seq<Option<string>>)
    ensures |said| == |updates| && forall i | 0 <= i < |said| :: said[i] == updates[i].paper
  {
    seq(|updates|, i requires 0 <= i < |updates| => updates[i].paper)
  }

  ghost predicate IsLastWord(initial: Values, updates: seq<Partial>, values: Values) {
    && LastSays(initial.fontSize, FontSizes(updates), values.fontSize)
    && LastSays(initial.typeface, Typefaces(updates), values.typeface)
    && LastSays(initial.paper, Papers(updates), values.paper)
  }

  lemma {:induction false} FoldIsLastWord(initial: Values, updates: seq<Partial>)
    ensures IsLastWord(initial, updates, Fold(initial, updates))
  {
    if updates == [] {
    } else {
      var n := |updates| - 1;
      var before, last := Fold(initial, updates[..n]), updates[n];
      FoldIsLastWord(initial, updates[..n]);
      assert FontSizes(updates) == FontSizes(updates[..n]) + [last.fontSize];
      assert Typefaces(updates) == Typefaces(updates[..n]) + [last.typeface];
      assert Papers(updates) == Papers(updates[..n]) + [last.paper];
      hide LastSays;
      LastSaysNext(initial.fontSize, FontSizes(updates[..n]), before.fontSize, last.fontSize);
      LastSaysNext(initial.typeface, Typefaces(updates[..n]), before.typeface, last.typeface);
      LastSaysNext(initial.paper, Papers(updates[..n]), before.paper, last.paper);
    }
  }

  /** At idle of every run in which the user updates and saves return, each stored field is what the last
      update that names it says, or its initial value if none does. */
  lemma IdleStoresLastWord(stored: Preferences, turns: seq<Turn>, t: Session)
    requires IsSession(NewSession(stored), turns, t) && !t.queue.running
    ensures IsLastWord(stored.values, t.updates, t.stored.values)
  {
    IdleStoresFold(stored, turns, t);
    FoldIsLastWord(stored.values, t.updates);
  }

  // ---------- what each event does ----------

  /** The values carry what the update names, and otherwise what was there. */
  predicate Carries(values: Values, update: Partial, base: Values) {
    && (match update.fontSize case Some(v) => values.fontSize == v case None => values.fontSize == base.fontSize)
    && (match update.typeface case Some(v) => values.typeface == v case None => values.typeface == base.typeface)
    && (match update.paper case Some(v) => values.paper == v case None => values.paper == base.paper)
  }

  /** An update of a queue at rest asks for one save, which carries everything the update names and, for
      the rest, what the page has adopted, at the adopted version. While a mutation runs, or after an abort,
      no save is asked for, and what is desired from then on carries it over what was desired before. */
  lemma UpdateDoes(q: Queue, update: Partial)
    requires Consistent(q)
    ensures var p := Update(q, update);
      && p.current == q.current && p.desired.Some?
      && Carries(p.desired.value.values, update, match q.desired case Some(d) => d.values case None => q.current.values)
      && (q.running || q.aborted ==> p.saves == q.saves && p.running == q.running && p.mutations == q.mutations)
      && (!q.running && !q.aborted ==>
            && p.running && IsSaving(p, q.started) && |p.saves| == |q.saves| + 1 && p.saves[..|q.saves|] == q.saves
            && p.saves[|q.saves|].mutation == q.started && p.saves[|q.saves|].expectedVersion == q.current.version
            && Carries(p.saves[|q.saves|].values, update, q.current.values))
  {
  }

  /** A success is adopted. What was desired meanwhile is saved next, at the new version; with nothing
      newer the queue is at rest. */
  lemma SuccessDoes(q: Queue, mutation: nat, saved: Preferences)
    requires Consistent(q) && IsSaving(q, mutation)
    ensures var p := SaveSucceeded(q, mutation, saved);
      && p.current == saved && p.aborted == q.aborted
      && (if q.desired.value.stamp == q.mutations[mutation].target.stamp
          then p.desired == None && !p.running && p.saves == q.saves
          else
            && p.desired == q.desired && p.running && IsSaving(p, mutation)
            && p.saves == q.saves + [Save(mutation, q.desired.value.values, saved.version)]
            && p.mutations[mutation].attempt == q.mutations[mutation].attempt)
  {
  }

  /** A conflict ends the mutation without a further save; unless aborted, the given value is adopted and
      what was desired is dropped. */
  lemma ConflictDoes(q: Queue, mutation: nat, current: Preferences)
    requires Consistent(q) && IsSaving(q, mutation)
    ensures var p := SaveConflicted(q, mutation, current);
      && !p.running && p.mutations == map[] && p.saves == q.saves
      && (if q.aborted then p.current == q.current && p.desired == q.desired
          else p.current == current && p.desired == None)
  {
    assert q.mutations - {mutation} == map[];
  }

  /** A retryable failure before the fourth try of a queue that is not aborted waits, with what is desired
      kept; any other failure ends the mutation, and drops what is desired unless aborted. */
  lemma FailureDoes(q: Queue, mutation: nat, retryable: bool)
    requires Consistent(q) && IsSaving(q, mutation)
    ensures var p := SaveFailed(q, mutation, retryable);
      && p.current == q.current && p.saves == q.saves
      && (if !q.aborted && retryable && q.mutations[mutation].attempt < 3
          then
            && p.running && IsWaiting(p, mutation) && p.desired == q.desired
            && p.mutations[mutation].attempt == q.mutations[mutation].attempt
          else !p.running && p.mutations == map[] && p.desired == if q.aborted then q.desired else None)
  {
    assert q.mutations - {mutation} == map[];
  }

  /** When the wait is over, what is desired by then is saved at the version adopted by then, as the next try. */
  lemma WaitDoes(q: Queue, mutation: nat)
    requires Consistent(q) && IsWaiting(q, mutation)
    ensures var p := WaitEnds(q, mutation);
      && q.desired.Some? && p.desired == q.desired && p.running && IsSaving(p, mutation)
      && p.mutations[mutation].attempt == q.mutations[mutation].attempt + 1
      && p.saves == q.saves + [Save(mutation, q.desired.value.values, q.current.version)]
  {
  }

  /** Aborting stops a waiting mutation without a save and leaves an unanswered save to be answered. */
  lemma AbortDoes(q: Queue)
    requires Consistent(q)
    ensures var p := Abort(q);
      && p.aborted && p.saves == q.saves && p.current == q.current && p.desired == q.desired
      && (forall m :: IsSaving(p, m) <==> IsSaving(q, m)) && (forall m :: !IsWaiting(p, m))
      && (p.running <==> exists m :: IsSaving(q, m))
  {
    var woken := set m | m in q.mutations && q.mutations[m].Waiting?;
    if !q.running {
      assert woken == {};
    } else if IsWaiting(q, q.started - 1) {
      assert woken == {q.started - 1} && q.mutations - woken == map[];
      assert forall m :: !IsSaving(q, m);
    } else {
      assert woken == {} && q.mutations - woken == q.mutations;
      assert IsSaving(q, q.started - 1);
    }
  }
}
