/**
 Accepting and revoking a pending invitation under optimistic concurrency, over
 every interleaving of any number of callers. Each atomic store access is one
 step; a run is a sequence of steps, and the step's arguments carry every choice.
 */
module Invitations {
  import opened Options

  /** A user row: its version, and the invitation fields next to everything else (`rest`). */
  datatype Row = Row(version: nat, pending: bool, nonce: Option<string>, rest: nat)

  /** Attempts of one compare-and-set cycle: the first try and one retry. */
  const MAX_ATTEMPTS := 2

  /** Where a call to `acceptInvitation` or `revokeInvitation` stands. */
  datatype Caller =
    | Accepting(id: string, given: Option<string>, attempt: nat)
    | AcceptDecided(id: string, given: Option<string>, attempt: nat, seen: Row)
    | AcceptReturned(id: string, accepted: bool)
    | Revoking(id: string, rotated: string, attempt: nat)
    | RevokeDecided(id: string, rotated: string, attempt: nat, seen: Row)
    | RevokeClaimed(id: string, rotated: string)
    | RevokeDeleting(id: string, seen: Row)
    | RevokeReturned(id: string, deleted: bool)
    | Thrown(id: string)

  /** What a run did that matters: accepts that returned true, and rows a revoke deleted. */
  datatype Event =
    | Accept(id: string, period: nat, given: Option<string>, row: Row)
    | RevokeDelete(id: string, period: nat, row: Row)

  /**
   The store, every id ever created, the number of pending periods each id has
   begun, the callers and the history.
   */
  datatype State = State(
    store: map<string, Row>,
    created: set<string>,
    periods: map<string, nat>,
    callers: map<nat, Caller>,
    log: seq<Event>)

  const INITIAL := State(map[], {}, map[], map[], [])

  datatype Step =
    | StartAccept(pid: nat, id: string, given: Option<string>)
    | AcceptReads(pid: nat)
    | AcceptWrites(pid: nat)
    | StartRevoke(pid: nat, id: string, rotated: string)
    | RevokeReads(pid: nat)
    | RevokeWrites(pid: nat)
    | RevokeChecks(pid: nat)
    | RevokeDeletes(pid: nat)
    | Create(id: string, pending: bool, nonce: Option<string>, rest: nat)
    | OtherWrite(id: string, pending: bool, nonce: Option<string>, rest: nat)
    | OtherDelete(id: string)

  function Period(s: State, id: string): nat {
    if id in s.periods then s.periods[id] else 0
  }

  /** The store after any version-bumping write; a row turning pending begins a new period. */
  function Written(s: State, id: string, pending: bool, nonce: Option<string>, rest: nat): State
    requires id in s.store
  {
    var row := s.store[id];
    var periods := if pending && !row.pending then s.periods[id := Period(s, id) + 1] else s.periods;
    s.(store := s.store[id := Row(row.version + 1, pending, nonce, rest)], periods := periods)
  }

  function Became(s: State, pid: nat, c: Caller): State {
    s.(callers := s.callers[pid := c])
  }

  /** The CAS of a patch decided against `seen` applies: the row still has that version. */
  predicate Unchanged(s: State, id: string, seen: Row) {
    id in s.store && s.store[id].version == seen.version
  }

  /** One atomic step; `None` when it is not enabled. */
  function Do(s: State, step: Step): Option<State> {
    match step
    case StartAccept(pid, id, given) =>
      if pid in s.callers then None else Some(Became(s, pid, Accepting(id, given, 0)))
    case AcceptReads(pid) =>
      if pid !in s.callers || !s.callers[pid].Accepting? then None else Some(DoAcceptReads(s, pid))
    case AcceptWrites(pid) =>
      if pid !in s.callers || !s.callers[pid].AcceptDecided? then None else Some(DoAcceptWrites(s, pid))
    case StartRevoke(pid, id, rotated) =>
      if pid in s.callers then None else Some(Became(s, pid, Revoking(id, rotated, 0)))
    case RevokeReads(pid) =>
      if pid !in s.callers || !s.callers[pid].Revoking? then None else Some(DoRevokeReads(s, pid))
    case RevokeWrites(pid) =>
      if pid !in s.callers || !s.callers[pid].RevokeDecided? then None else Some(DoRevokeWrites(s, pid))
    case RevokeChecks(pid) =>
      if pid !in s.callers || !s.callers[pid].RevokeClaimed? then None else Some(DoRevokeChecks(s, pid))
    case RevokeDeletes(pid) =>
      if pid !in s.callers || !s.callers[pid].RevokeDeleting? then None else Some(DoRevokeDeletes(s, pid))
    case Create(id, pending, nonce, rest) =>
      if id in s.created then None
      else
        Some(s.(store := s.store[id := Row(0, pending, nonce, rest)], created := s.created + {id},
                periods := if pending then s.periods[id := Period(s, id) + 1] else s.periods))
    case OtherWrite(id, pending, nonce, rest) =>
      if id !in s.store then None else Some(Written(s, id, pending, nonce, rest))
    case OtherDelete(id) =>
      if id !in s.store then None else Some(s.(store := s.store - {id}))
  }

  /** Read the row and run the accept mutator on it: not pending or another nonce returns false. */
  function DoAcceptReads(s: State, pid: nat): State
    requires pid in s.callers && s.callers[pid].Accepting?
  {
    var c := s.callers[pid];
    if c.id !in s.store then Became(s, pid, Thrown(c.id))
    else
      var row := s.store[c.id];
      if !row.pending || (row.nonce.Some? && row.nonce != c.given) then Became(s, pid, AcceptReturned(c.id, false))
      else Became(s, pid, AcceptDecided(c.id, c.given, c.attempt, row))
  }

  /** Apply `pendingInvitation := false` if the version still stands, else retry or throw. */
  function DoAcceptWrites(s: State, pid: nat): State
    requires pid in s.callers && s.callers[pid].AcceptDecided?
  {
    var c := s.callers[pid];
    if Unchanged(s, c.id, c.seen) then
      var row := s.store[c.id];
      Became(Written(s, c.id, false, row.nonce, row.rest), pid, AcceptReturned(c.id, true))
        .(log := s.log + [Accept(c.id, Period(s, c.id), c.given, row)])
    else if c.attempt + 1 < MAX_ATTEMPTS then Became(s, pid, Accepting(c.id, c.given, c.attempt + 1))
    else Became(s, pid, Thrown(c.id))
  }

  function DoRevokeReads(s: State, pid: nat): State
    requires pid in s.callers && s.callers[pid].Revoking?
  {
    var c := s.callers[pid];
    if c.id !in s.store then Became(s, pid, Thrown(c.id))
    else if !s.store[c.id].pending then Became(s, pid, RevokeReturned(c.id, false))
    else Became(s, pid, RevokeDecided(c.id, c.rotated, c.attempt, s.store[c.id]))
  }

  /** Rotate the nonce if the version still stands, else retry or throw. */
  function DoRevokeWrites(s: State, pid: nat): State
    requires pid in s.callers && s.callers[pid].RevokeDecided?
  {
    var c := s.callers[pid];
    if Unchanged(s, c.id, c.seen) then
      var row := s.store[c.id];
      Became(Written(s, c.id, row.pending, Some(c.rotated), row.rest), pid, RevokeClaimed(c.id, c.rotated))
    else if c.attempt + 1 < MAX_ATTEMPTS then Became(s, pid, Revoking(c.id, c.rotated, c.attempt + 1))
    else Became(s, pid, Thrown(c.id))
  }

  /** Re-read: only a row still pending under this revoke's nonce is deleted. */
  function DoRevokeChecks(s: State, pid: nat): State
    requires pid in s.callers && s.callers[pid].RevokeClaimed?
  {
    var c := s.callers[pid];
    if c.id !in s.store || !s.store[c.id].pending || s.store[c.id].nonce != Some(c.rotated)
    then Became(s, pid, RevokeReturned(c.id, false))
    else Became(s, pid, RevokeDeleting(c.id, s.store[c.id]))
  }

  /** The conditional delete: only while the version is the one re-read. */
  function DoRevokeDeletes(s: State, pid: nat): State
    requires pid in s.callers && s.callers[pid].RevokeDeleting?
  {
    var c := s.callers[pid];
    if Unchanged(s, c.id, c.seen) then
      Became(s, pid, RevokeReturned(c.id, true))
        .(store := s.store - {c.id}, log := s.log + [RevokeDelete(c.id, Period(s, c.id), s.store[c.id])])
    else Became(s, pid, RevokeReturned(c.id, false))
  }

  /** The state after a run; `None` when some step was not enabled. */
  function After(steps: seq<Step>): Option<State> {
    if steps == [] then Some(INITIAL)
    else
      var before := After(steps[..|steps| - 1]);
      if before.None? then None else Do(before.value, steps[|steps| - 1])
  }

  // ── What every step keeps ────────────

  /** A row a caller still acts on: as old as the stored one, and identical at the same version. */
  predicate Consistent(s: State, id: string, seen: Row) {
    && id in s.created
    && (id in s.store ==> seen.version <= s.store[id].version)
    && (Unchanged(s, id, seen) ==> seen == s.store[id])
  }

  predicate CallerOk(s: State, c: Caller) {
    && (c.AcceptDecided? ==>
         Consistent(s, c.id, c.seen) && c.seen.pending && (c.seen.nonce.Some? ==> c.seen.nonce == c.given))
    && (c.RevokeDecided? ==> Consistent(s, c.id, c.seen) && c.seen.pending)
    && (c.RevokeDeleting? ==> Consistent(s, c.id, c.seen) && c.seen.pending)
  }

  /** An accept closed its period: the row is not pending until the next one begins. */
  predicate Closed(s: State, e: Event) {
    e.Accept? ==>
      && e.period <= Period(s, e.id)
      && (e.period == Period(s, e.id) && e.id in s.store ==> !s.store[e.id].pending)
  }

  /** The accept held the invite's current nonce, or the row had none. */
  predicate NonceHeld(e: Event) {
    e.Accept? ==> e.row.pending && (e.row.nonce.Some? ==> e.row.nonce == e.given)
  }

  /** Accepts of one id fall in increasing periods, and a revoke deletes only in a later one. */
  predicate Ordered(earlier: Event, later: Event) {
    earlier.Accept? && earlier.id == later.id ==> earlier.period < later.period
  }

  predicate Inv(s: State) {
    && s.store.Keys <= s.created
    && (forall pid :: pid in s.callers ==> CallerOk(s, s.callers[pid]))
    && (forall i :: 0 <= i < |s.log| ==> Closed(s, s.log[i]) && NonceHeld(s.log[i]))
    && (forall i :: 0 <= i < |s.log| ==> s.log[i].RevokeDelete? ==> s.log[i].row.pending)
    && (forall i, j :: 0 <= i < j < |s.log| ==> Ordered(s.log[i], s.log[j]))
  }

  /** A write keeps every caller's view consistent and every accept's period closed. */
  lemma WrittenKeepsInv(s: State, id: string, pending: bool, nonce: Option<string>, rest: nat)
    requires Inv(s) && id in s.store
    ensures Inv(Written(s, id, pending, nonce, rest))
  {
    var t := Written(s, id, pending, nonce, rest);
    forall pid | pid in t.callers ensures CallerOk(t, t.callers[pid]) {
      assert CallerOk(s, s.callers[pid]);
    }
    forall i | 0 <= i < |t.log| ensures Closed(t, t.log[i]) {
      assert Closed(s, s.log[i]);
    }
  }

  lemma BecameKeepsInv(s: State, pid: nat, c: Caller)
    requires Inv(s) && CallerOk(s, c)
    ensures Inv(Became(s, pid, c))
  {
    var t := Became(s, pid, c);
    forall p | p in t.callers ensures CallerOk(t, t.callers[p]) {
      assert p != pid ==> CallerOk(s, s.callers[p]);
    }
    forall i | 0 <= i < |t.log| ensures Closed(t, t.log[i]) {
      assert Closed(s, s.log[i]);
    }
  }

  lemma RemovedKeepsInv(s: State, id: string)
    requires Inv(s)
    ensures Inv(s.(store := s.store - {id}))
  {
    var t := s.(store := s.store - {id});
    forall pid | pid in t.callers ensures CallerOk(t, t.callers[pid]) {
      assert CallerOk(s, s.callers[pid]);
    }
    forall i | 0 <= i < |t.log| ensures Closed(t, t.log[i]) {
      assert Closed(s, s.log[i]);
    }
  }

  lemma CreateKeepsInv(s: State, id: string, pending: bool, nonce: Option<string>, rest: nat)
    requires Inv(s) && id !in s.created
    ensures Inv(Do(s, Create(id, pending, nonce, rest)).value)
  {
    var t := Do(s, Create(id, pending, nonce, rest)).value;
    forall pid | pid in t.callers ensures CallerOk(t, t.callers[pid]) {
      assert CallerOk(s, s.callers[pid]);
    }
    assert forall i :: 0 <= i < |t.log| ==> Closed(s, t.log[i]);
    if !pending {
      forall i | 0 <= i < |t.log| ensures Closed(t, t.log[i]) {}
    }
  }

  lemma AcceptKeepsInv(s: State, pid: nat)
    requires Inv(s) && pid in s.callers && s.callers[pid].AcceptDecided?
    ensures Inv(DoAcceptWrites(s, pid))
  {
    var c := s.callers[pid];
    assert CallerOk(s, c);
    if Unchanged(s, c.id, c.seen) {
      var row := s.store[c.id];
      var t := Written(s, c.id, false, row.nonce, row.rest);
      WrittenKeepsInv(s, c.id, false, row.nonce, row.rest);
      BecameKeepsInv(t, pid, AcceptReturned(c.id, true));
      var u := Became(t, pid, AcceptReturned(c.id, true));
      var e := Accept(c.id, Period(s, c.id), c.given, row);
      var v := u.(log := s.log + [e]);
      forall i | 0 <= i < |s.log| ensures Ordered(s.log[i], e) {
        assert Closed(s, s.log[i]);
      }
      forall p | p in v.callers ensures CallerOk(v, v.callers[p]) {
        assert CallerOk(u, u.callers[p]);
      }
      forall i | 0 <= i < |v.log| ensures Closed(v, v.log[i]) {
        assert i < |s.log| ==> Closed(u, u.log[i]);
      }
    } else if c.attempt + 1 < MAX_ATTEMPTS {
      BecameKeepsInv(s, pid, Accepting(c.id, c.given, c.attempt + 1));
    } else {
      BecameKeepsInv(s, pid, Thrown(c.id));
    }
  }

  lemma DeleteKeepsInv(s: State, pid: nat)
    requires Inv(s) && pid in s.callers && s.callers[pid].RevokeDeleting?
    ensures Inv(DoRevokeDeletes(s, pid))
  {
    var c := s.callers[pid];
    assert CallerOk(s, c);
    BecameKeepsInv(s, pid, RevokeReturned(c.id, false));
    if Unchanged(s, c.id, c.seen) {
      RemovedKeepsInv(s, c.id);
      var t := s.(store := s.store - {c.id});
      BecameKeepsInv(t, pid, RevokeReturned(c.id, true));
      var u := Became(t, pid, RevokeReturned(c.id, true));
      var e := RevokeDelete(c.id, Period(s, c.id), s.store[c.id]);
      var v := u.(log := s.log + [e]);
      forall i | 0 <= i < |s.log| ensures Ordered(s.log[i], e) {
        assert Closed(s, s.log[i]);
      }
      forall p | p in v.callers ensures CallerOk(v, v.callers[p]) {
        assert CallerOk(u, u.callers[p]);
      }
      forall i | 0 <= i < |v.log| ensures Closed(v, v.log[i]) {
        assert i < |s.log| ==> Closed(u, u.log[i]);
      }
    }
  }

  lemma StepKeepsInv(s: State, step: Step)
    requires Inv(s) && Do(s, step).Some?
    ensures Inv(Do(s, step).value)
  {
    match step
    case StartAccept(pid, id, given) => BecameKeepsInv(s, pid, Accepting(id, given, 0));
    case StartRevoke(pid, id, rotated) => BecameKeepsInv(s, pid, Revoking(id, rotated, 0));
    case AcceptReads(pid) => BecameKeepsInv(s, pid, DoAcceptReads(s, pid).callers[pid]);
    case RevokeReads(pid) => BecameKeepsInv(s, pid, DoRevokeReads(s, pid).callers[pid]);
    case RevokeChecks(pid) => BecameKeepsInv(s, pid, DoRevokeChecks(s, pid).callers[pid]);
    case AcceptWrites(pid) => AcceptKeepsInv(s, pid);
    case RevokeDeletes(pid) => DeleteKeepsInv(s, pid);
    case RevokeWrites(pid) =>
      var c := s.callers[pid];
      if Unchanged(s, c.id, c.seen) {
        var row := s.store[c.id];
        WrittenKeepsInv(s, c.id, row.pending, Some(c.rotated), row.rest);
        BecameKeepsInv(Written(s, c.id, row.pending, Some(c.rotated), row.rest), pid, RevokeClaimed(c.id, c.rotated));
      } else {
        BecameKeepsInv(s, pid, DoRevokeWrites(s, pid).callers[pid]);
      }
    case Create(id, pending, nonce, rest) => CreateKeepsInv(s, id, pending, nonce, rest);
    case OtherWrite(id, pending, nonce, rest) => WrittenKeepsInv(s, id, pending, nonce, rest);
    case OtherDelete(id) => RemovedKeepsInv(s, id);
  }

  lemma {:induction false} RunKeepsInv(steps: seq<Step>)
    requires After(steps).Some?
    ensures Inv(After(steps).value)
  {
    if steps != [] {
      RunKeepsInv(steps[..|steps| - 1]);
      StepKeepsInv(After(steps[..|steps| - 1]).value, steps[|steps| - 1]);
    }
  }

  predicate IsPending(s: State, id: string) {
    id in s.store && s.store[id].pending
  }

  /** A pending period of an id begins exactly when its row turns pending. */
  lemma PeriodBegins(steps: seq<Step>, step: Step, id: string)
    requires After(steps).Some? && Do(After(steps).value, step).Some?
    ensures var s, t := After(steps).value, Do(After(steps).value, step).value;
      Period(t, id) == Period(s, id) + if IsPending(t, id) && !IsPending(s, id) then 1 else 0
  {
    RunKeepsInv(steps);
  }

  // ── Safety of every run ────────────

  /** At most one accept returns true per pending period of an account, each holding the current nonce. */
  lemma OneAcceptPerPeriod(steps: seq<Step>, i: nat, j: nat)
    requires After(steps).Some? && i < j < |After(steps).value.log|
    requires After(steps).value.log[i].Accept? && After(steps).value.log[j].Accept?
    ensures var a, b := After(steps).value.log[i], After(steps).value.log[j];
            && (a.id == b.id ==> a.period < b.period)
            && NonceHeld(a) && NonceHeld(b)
  {
    RunKeepsInv(steps);
    var log := After(steps).value.log;
    assert Ordered(log[i], log[j]);
  }

  /**
   A revoke deletes only a row still pending at that instant; so an account
   accepted before it is deleted only once a newer invitation was pending.
   */
  lemma RevokeDeletesOnlyPending(steps: seq<Step>, j: nat)
    requires After(steps).Some? && j < |After(steps).value.log|
    requires After(steps).value.log[j].RevokeDelete?
    ensures var log := After(steps).value.log;
            && log[j].row.pending
            && forall i :: 0 <= i < j && log[i].Accept? && log[i].id == log[j].id ==> log[i].period < log[j].period
  {
    RunKeepsInv(steps);
    var log := After(steps).value.log;
    forall i | 0 <= i < j && log[i].Accept? && log[i].id == log[j].id ensures log[i].period < log[j].period {
      assert Ordered(log[i], log[j]);
    }
  }

  /** The log records exactly the accepts that return true and the revokes that delete. */
  lemma LogIsComplete(s: State, step: Step)
    requires Do(s, step).Some?
    ensures var t := Do(s, step).value;
            && (t.log != s.log ==> step.AcceptWrites? || step.RevokeDeletes?)
            && (step.AcceptWrites? ==>
                 (t.callers[step.pid] == AcceptReturned(s.callers[step.pid].id, true) <==> t.log != s.log))
            && (step.RevokeDeletes? ==>
                 (t.callers[step.pid] == RevokeReturned(s.callers[step.pid].id, true) <==> t.log != s.log))
            && (step.RevokeDeletes? && t.log != s.log ==> t.store == s.store - {s.callers[step.pid].id})
  {
  }

  // ── A call that runs alone ────────────

  lemma AfterStep(steps: seq<Step>, step: Step)
    requires After(steps).Some?
    ensures After(steps + [step]) == Do(After(steps).value, step)
  {
    assert (steps + [step])[..|steps|] == steps;
  }

  /** The invitation stands, and the nonce is the row's own; a row without a nonce accepts any. */
  predicate Acceptable(row: Row, given: Option<string>) {
    row.pending && (row.nonce == None || row.nonce == given)
  }

  /** What an accept answers on this store and leaves of it. */
  predicate AcceptsBy(before: map<string, Row>, id: string, given: Option<string>, answer: Caller,
                      after: map<string, Row>) {
    if id !in before then answer == Thrown(id) && after == before
    else
      var row := before[id];
      if Acceptable(row, given)
      then answer == AcceptReturned(id, true) && after == before[id := Row(row.version + 1, false, row.nonce, row.rest)]
      else answer == AcceptReturned(id, false) && after == before
  }

  function AcceptCall(pid: nat, id: string, given: Option<string>, taken: bool): seq<Step> {
    [StartAccept(pid, id, given), AcceptReads(pid)] + if taken then [AcceptWrites(pid)] else []
  }

  lemma AcceptFromDecided(steps: seq<Step>, pid: nat)
    requires After(steps).Some? && pid in After(steps).value.callers
    requires After(steps).value.callers[pid].AcceptDecided?
    requires Unchanged(After(steps).value, After(steps).value.callers[pid].id, After(steps).value.callers[pid].seen)
    ensures var s := After(steps).value;
            var id := s.callers[pid].id;
            var row, t := s.store[id], After(steps + [AcceptWrites(pid)]);
            && t.Some? && pid in t.value.callers && t.value.callers[pid] == AcceptReturned(id, true)
            && t.value.store == s.store[id := Row(row.version + 1, false, row.nonce, row.rest)]
  {
    AfterStep(steps, AcceptWrites(pid));
  }

  lemma AcceptFromRead(steps: seq<Step>, pid: nat)
    requires After(steps).Some? && pid in After(steps).value.callers && After(steps).value.callers[pid].Accepting?
    ensures var s := After(steps).value;
            var c := s.callers[pid];
            var taken := c.id in s.store && Acceptable(s.store[c.id], c.given);
            var t := After(steps + AcceptCall(pid, c.id, c.given, taken)[1..]);
            t.Some? && pid in t.value.callers && AcceptsBy(s.store, c.id, c.given, t.value.callers[pid], t.value.store)
  {
    var s := After(steps).value;
    var c := s.callers[pid];
    var read := steps + [AcceptReads(pid)];
    AfterStep(steps, AcceptReads(pid));
    assert AcceptCall(pid, c.id, c.given, false)[1..] == [AcceptReads(pid)];
    if c.id in s.store && Acceptable(s.store[c.id], c.given) {
      AcceptFromDecided(read, pid);
      assert read + [AcceptWrites(pid)] == steps + AcceptCall(pid, c.id, c.given, true)[1..];
    }
  }

  /**
   Whatever happened before, an accept that then runs alone returns true if and
   only if the row is pending and its nonce, if it has one, is the given one;
   the row is then no longer pending, and nothing else of it has changed.
   */
  lemma AcceptAlone(steps: seq<Step>, pid: nat, id: string, given: Option<string>)
    requires After(steps).Some? && pid !in After(steps).value.callers
    ensures var s := After(steps).value;
            var t := After(steps + AcceptCall(pid, id, given, id in s.store && Acceptable(s.store[id], given)));
            && t.Some? && pid in t.value.callers
            && AcceptsBy(s.store, id, given, t.value.callers[pid], t.value.store)
  {
    var begun := steps + [StartAccept(pid, id, given)];
    var s := After(steps).value;
    var call := AcceptCall(pid, id, given, id in s.store && Acceptable(s.store[id], given));
    AfterStep(steps, StartAccept(pid, id, given));
    AcceptFromRead(begun, pid);
    assert begun + call[1..] == steps + call;
  }

  /** After its claim a revoke deletes if and only if the row still is pending under the nonce it wrote. */
  lemma RevokeAfterClaim(steps: seq<Step>, pid: nat)
    requires After(steps).Some? && pid in After(steps).value.callers && After(steps).value.callers[pid].RevokeClaimed?
    ensures var s := After(steps).value;
            var c := s.callers[pid];
            var stands := c.id in s.store && s.store[c.id].pending && s.store[c.id].nonce == Some(c.rotated);
            var t := After(steps + [RevokeChecks(pid)] + if stands then [RevokeDeletes(pid)] else []);
            && t.Some? && pid in t.value.callers && t.value.callers[pid] == RevokeReturned(c.id, stands)
            && t.value.store == if stands then s.store - {c.id} else s.store
  {
    var read := steps + [RevokeChecks(pid)];
    AfterStep(steps, RevokeChecks(pid));
    assert read + [] == read;
    if After(read).value.callers[pid].RevokeDeleting? {
      AfterStep(read, RevokeDeletes(pid));
    }
  }

  function RevokeCall(pid: nat, id: string, rotated: string, taken: bool): seq<Step> {
    [StartRevoke(pid, id, rotated), RevokeReads(pid)] +
    if taken then [RevokeWrites(pid), RevokeChecks(pid), RevokeDeletes(pid)] else []
  }

  /** What a revoke answers on this store and leaves of it. */
  predicate RevokesBy(before: map<string, Row>, id: string, answer: Caller, after: map<string, Row>) {
    var deletes := id in before && before[id].pending;
    && answer == (if id in before then RevokeReturned(id, deletes) else Thrown(id))
    && after == if deletes then before - {id} else before
  }

  lemma RevokeFromRead(steps: seq<Step>, pid: nat)
    requires After(steps).Some? && pid in After(steps).value.callers && After(steps).value.callers[pid].Revoking?
    ensures var s := After(steps).value;
            var c := s.callers[pid];
            var t := After(steps + RevokeCall(pid, c.id, c.rotated, c.id in s.store && s.store[c.id].pending)[1..]);
            t.Some? && pid in t.value.callers && RevokesBy(s.store, c.id, t.value.callers[pid], t.value.store)
  {
    var s := After(steps).value;
    var c := s.callers[pid];
    var read := steps + [RevokeReads(pid)];
    AfterStep(steps, RevokeReads(pid));
    assert RevokeCall(pid, c.id, c.rotated, false)[1..] == [RevokeReads(pid)];
    if c.id in s.store && s.store[c.id].pending {
      var claimed := read + [RevokeWrites(pid)];
      AfterStep(read, RevokeWrites(pid));
      RevokeAfterClaim(claimed, pid);
      assert claimed + [RevokeChecks(pid)] + [RevokeDeletes(pid)]
          == steps + RevokeCall(pid, c.id, c.rotated, true)[1..];
    }
  }

  /** A revoke that runs alone deletes the row and returns true if and only if the row is pending. */
  lemma RevokeAlone(steps: seq<Step>, pid: nat, id: string, rotated: string)
    requires After(steps).Some? && pid !in After(steps).value.callers
    ensures var s := After(steps).value;
            var t := After(steps + RevokeCall(pid, id, rotated, id in s.store && s.store[id].pending));
            && t.Some? && pid in t.value.callers
            && RevokesBy(s.store, id, t.value.callers[pid], t.value.store)
  {
    var s := After(steps).value;
    var begun := steps + [StartRevoke(pid, id, rotated)];
    var call := RevokeCall(pid, id, rotated, id in s.store && s.store[id].pending);
    AfterStep(steps, StartRevoke(pid, id, rotated));
    RevokeFromRead(begun, pid);
    assert begun + call[1..] == steps + call;
  }

  /** A new id can be created, whatever else runs. */
  lemma CreateAlone(steps: seq<Step>, id: string, pending: bool, nonce: Option<string>, rest: nat)
    requires After(steps).Some?
    ensures var s := After(steps).value;
            var t := After(steps + [Create(id, pending, nonce, rest)]);
            && (t.Some? <==> id !in s.created)
            && (t.Some? ==>
                  t.value.callers == s.callers && t.value.store == s.store[id := Row(0, pending, nonce, rest)])
  {
    AfterStep(steps, Create(id, pending, nonce, rest));
  }

  /** Any stored row can be rewritten, a version later. */
  lemma OtherWriteAlone(steps: seq<Step>, id: string, pending: bool, nonce: Option<string>, rest: nat)
    requires After(steps).Some?
    ensures var s := After(steps).value;
            var t := After(steps + [OtherWrite(id, pending, nonce, rest)]);
            && (t.Some? <==> id in s.store)
            && (t.Some? ==>
                  && t.value.callers == s.callers
                  && t.value.store == s.store[id := Row(s.store[id].version + 1, pending, nonce, rest)])
  {
    AfterStep(steps, OtherWrite(id, pending, nonce, rest));
  }

  /** And deleted. */
  lemma OtherDeleteAlone(steps: seq<Step>, id: string)
    requires After(steps).Some?
    ensures var s := After(steps).value;
            var t := After(steps + [OtherDelete(id)]);
            && (t.Some? <==> id in s.store)
            && (t.Some? ==> t.value.callers == s.callers && t.value.store == s.store - {id})
  {
    AfterStep(steps, OtherDelete(id));
  }

  // ── A call another write overtook ────────────

  /**
   An accept that finds the row written since it read it decides once more, by
   the row as it then is; overtaken again, it throws and writes nothing.
   */
  lemma AcceptOvertaken(steps: seq<Step>, pid: nat)
    requires After(steps).Some? && pid in After(steps).value.callers
    requires After(steps).value.callers[pid].AcceptDecided?
    requires !Unchanged(After(steps).value, After(steps).value.callers[pid].id, After(steps).value.callers[pid].seen)
    ensures var s := After(steps).value;
            var c := s.callers[pid];
            var taken := c.id in s.store && Acceptable(s.store[c.id], c.given);
            var t := After(steps + [AcceptWrites(pid)] +
              if c.attempt == 0 then AcceptCall(pid, c.id, c.given, taken)[1..] else []);
            && t.Some? && pid in t.value.callers
            && if c.attempt == 0 then AcceptsBy(s.store, c.id, c.given, t.value.callers[pid], t.value.store)
               else t.value.callers[pid] == Thrown(c.id) && t.value.store == s.store
  {
    var failed := steps + [AcceptWrites(pid)];
    AfterStep(steps, AcceptWrites(pid));
    assert failed + [] == failed;
    if After(steps).value.callers[pid].attempt == 0 {
      AcceptFromRead(failed, pid);
    }
  }

  /** A revoke that finds the row written since it read it decides once more as well, and overtaken again throws. */
  lemma RevokeOvertaken(steps: seq<Step>, pid: nat)
    requires After(steps).Some? && pid in After(steps).value.callers
    requires After(steps).value.callers[pid].RevokeDecided?
    requires !Unchanged(After(steps).value, After(steps).value.callers[pid].id, After(steps).value.callers[pid].seen)
    ensures var s := After(steps).value;
            var c := s.callers[pid];
            var t := After(steps + [RevokeWrites(pid)] +
              if c.attempt == 0 then RevokeCall(pid, c.id, c.rotated, c.id in s.store && s.store[c.id].pending)[1..]
              else []);
            && t.Some? && pid in t.value.callers
            && if c.attempt == 0 then RevokesBy(s.store, c.id, t.value.callers[pid], t.value.store)
               else t.value.callers[pid] == Thrown(c.id) && t.value.store == s.store
  {
    var s := After(steps).value;
    var c := s.callers[pid];
    var failed := steps + [RevokeWrites(pid)];
    AfterStep(steps, RevokeWrites(pid));
    assert failed + [] == failed;
    if c.attempt == 0 {
      RevokeFromRead(failed, pid);
    }
  }

  /** Written again between its second read and write, an accept throws. */
  lemma AcceptOvertakenTwice(steps: seq<Step>, pid: nat, pending: bool, nonce: Option<string>, rest: nat)
    requires After(steps).Some? && pid in After(steps).value.callers
    requires var s := After(steps).value;
             var c := s.callers[pid];
             && c.AcceptDecided? && c.attempt == 0 && !Unchanged(s, c.id, c.seen)
             && c.id in s.store && Acceptable(s.store[c.id], c.given)
    ensures var id := After(steps).value.callers[pid].id;
            var again := [AcceptWrites(pid), AcceptReads(pid), OtherWrite(id, pending, nonce, rest), AcceptWrites(pid)];
            var t := After(steps + again);
            t.Some? && pid in t.value.callers && t.value.callers[pid] == Thrown(id)
  {
    var c := After(steps).value.callers[pid];
    var failed := steps + [AcceptWrites(pid)];
    var read := failed + [AcceptReads(pid)];
    var written := read + [OtherWrite(c.id, pending, nonce, rest)];
    AfterStep(steps, AcceptWrites(pid));
    AfterStep(failed, AcceptReads(pid));
    AfterStep(read, OtherWrite(c.id, pending, nonce, rest));
    AfterStep(written, AcceptWrites(pid));
    assert written + [AcceptWrites(pid)]
        == steps + [AcceptWrites(pid), AcceptReads(pid), OtherWrite(c.id, pending, nonce, rest), AcceptWrites(pid)];
  }

  /** And so does a revoke. */
  lemma RevokeOvertakenTwice(steps: seq<Step>, pid: nat, pending: bool, nonce: Option<string>, rest: nat)
    requires After(steps).Some? && pid in After(steps).value.callers
    requires var s := After(steps).value;
             var c := s.callers[pid];
             && c.RevokeDecided? && c.attempt == 0 && !Unchanged(s, c.id, c.seen)
             && c.id in s.store && s.store[c.id].pending
    ensures var id := After(steps).value.callers[pid].id;
            var again := [RevokeWrites(pid), RevokeReads(pid), OtherWrite(id, pending, nonce, rest), RevokeWrites(pid)];
            var t := After(steps + again);
            t.Some? && pid in t.value.callers && t.value.callers[pid] == Thrown(id)
  {
    var c := After(steps).value.callers[pid];
    var failed := steps + [RevokeWrites(pid)];
    var read := failed + [RevokeReads(pid)];
    var written := read + [OtherWrite(c.id, pending, nonce, rest)];
    AfterStep(steps, RevokeWrites(pid));
    AfterStep(failed, RevokeReads(pid));
    AfterStep(read, OtherWrite(c.id, pending, nonce, rest));
    AfterStep(written, RevokeWrites(pid));
    assert written + [RevokeWrites(pid)]
        == steps + [RevokeWrites(pid), RevokeReads(pid), OtherWrite(c.id, pending, nonce, rest), RevokeWrites(pid)];
  }
}
