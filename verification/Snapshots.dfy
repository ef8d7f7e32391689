/**
 The epoch-guarded snapshot cache of `getUserSnapshot`: every store write
 through the service moves the epoch when it starts and when it settles, and a
 cached read is shared only while the epoch has not moved. Each atomic effect is
 one step; a run is a sequence of steps over any number of scopes, reads and writes.
 */
module Snapshots {
  import opened Options

  /** Where a store change came from: a write through the service, or one around it. */
  datatype Origin = Through(w: nat) | Around(n: nat)

  /** What the store holds for an id: the writes applied so far, in order, and whether the row exists. */
  datatype Stored = Stored(history: seq<Origin>, present: bool)

  /** A write through the service: which id it targets, and how far it got. */
  datatype Write = Write(id: string, applied: bool, settled: bool)

  /** A store read: pending, or resolved with what the store held. A missing row rejects. */
  datatype Read = Read(id: string, result: Option<Stored>)

  datatype Entry = Entry(epoch: nat, read: nat)

  /** A call of `getUserSnapshot`: the read it returns, and the writes settled before it. */
  datatype Call = Call(id: string, read: nat, settledBefore: set<nat>)

  /** A cache slot: the scope object and the user id. */
  datatype Slot = Slot(scope: nat, id: string)

  datatype State = State(
    epoch: nat,
    store: map<string, Stored>,
    writes: map<nat, Write>,
    lookups: map<nat, Read>,
    cache: map<Slot, Entry>,
    calls: map<nat, Call>)

  const INITIAL := State(0, map[], map[], map[], map[], map[])

  datatype Step =
    | WriteStarts(w: nat, id: string)
    | WriteApplies(w: nat, present: bool)
    | WriteSettles(w: nat)
    | WriteAround(n: nat, id: string, present: bool)
    | Snapshot(call: nat, slot: Slot, newRead: nat)
    | ReadResolves(read: nat)
    | RejectionEvicts(slot: Slot)

  function At(store: map<string, Stored>, id: string): Stored {
    if id in store then store[id] else Stored([], false)
  }

  function Applied(s: State, id: string, token: Origin, present: bool): map<string, Stored> {
    s.store[id := Stored(At(s.store, id).history + [token], present)]
  }

  /** The applied writes to `id` that have settled. */
  function Settled(writes: map<nat, Write>, id: string): set<nat> {
    set w | w in writes && writes[w].id == id && writes[w].applied && writes[w].settled
  }

  function Do(s: State, step: Step): Option<State> {
    match step
    case WriteStarts(w, id) =>
      if w in s.writes then None
      else Some(s.(epoch := s.epoch + 1, writes := s.writes[w := Write(id, false, false)]))
    case WriteApplies(w, present) =>
      if w !in s.writes || s.writes[w].applied || s.writes[w].settled then None
      else
        var store := Applied(s, s.writes[w].id, Through(w), present);
        Some(s.(store := store, writes := s.writes[w := s.writes[w].(applied := true)]))
    case WriteSettles(w) =>
      if w !in s.writes || s.writes[w].settled then None
      else Some(s.(epoch := s.epoch + 1, writes := s.writes[w := s.writes[w].(settled := true)]))
    case WriteAround(n, id, present) =>
      Some(s.(store := Applied(s, id, Around(n), present)))
    case Snapshot(call, slot, newRead) =>
      if call in s.calls || newRead in s.lookups then None else Some(DoSnapshot(s, call, slot, newRead))
    case ReadResolves(read) =>
      if read !in s.lookups || s.lookups[read].result.Some? then None
      else Some(s.(lookups := s.lookups[read := s.lookups[read].(result := Some(At(s.store, s.lookups[read].id)))]))
    case RejectionEvicts(slot) =>
      if slot !in s.cache || s.cache[slot].read !in s.lookups then None
      else
        var result := s.lookups[s.cache[slot].read].result;
        if result.None? || result.value.present then None else Some(s.(cache := s.cache - {slot}))
  }

  predicate Hit(s: State, slot: Slot) {
    slot in s.cache && s.cache[slot].epoch == s.epoch
  }

  /** The cached read on a hit; otherwise a new read is started and cached. */
  function DoSnapshot(s: State, call: nat, slot: Slot, newRead: nat): State {
    if Hit(s, slot) then s.(calls := s.calls[call := Call(slot.id, s.cache[slot].read, Settled(s.writes, slot.id))])
    else
      s.(lookups := s.lookups[newRead := Read(slot.id, None)],
         cache := s.cache[slot := Entry(s.epoch, newRead)],
         calls := s.calls[call := Call(slot.id, newRead, Settled(s.writes, slot.id))])
  }

  function After(steps: seq<Step>): Option<State> {
    if steps == [] then Some(INITIAL)
    else
      var before := After(steps[..|steps| - 1]);
      if before.None? then None else Do(before.value, steps[|steps| - 1])
  }

  // ── What every step keeps ────────────

  predicate Reflects(history: seq<Origin>, writes: set<nat>) {
    forall w :: w in writes ==> Through(w) in history
  }

  /** A resolved read is a state the store passed through. */
  predicate ReadOk(s: State, r: Read) {
    r.result.Some? ==> r.result.value.history <= At(s.store, r.id).history
  }

  /** An entry of the current epoch: its read, once resolved, saw every settled write. */
  predicate EntryOk(s: State, slot: Slot, e: Entry) {
    && e.epoch <= s.epoch
    && e.read in s.lookups && s.lookups[e.read].id == slot.id
    && (e.epoch == s.epoch && s.lookups[e.read].result.Some? ==>
         Reflects(s.lookups[e.read].result.value.history, Settled(s.writes, slot.id)))
  }

  predicate CallOk(s: State, c: Call) {
    && c.read in s.lookups && s.lookups[c.read].id == c.id
    && Reflects(At(s.store, c.id).history, c.settledBefore)
    && (s.lookups[c.read].result.Some? ==> Reflects(s.lookups[c.read].result.value.history, c.settledBefore))
  }

  predicate WriteOk(s: State, w: nat, write: Write) {
    write.applied ==> Through(w) in At(s.store, write.id).history
  }

  predicate Inv(s: State) {
    && (forall w :: w in s.writes ==> WriteOk(s, w, s.writes[w]))
    && (forall r :: r in s.lookups ==> ReadOk(s, s.lookups[r]))
    && (forall slot :: slot in s.cache ==> EntryOk(s, slot, s.cache[slot]))
    && (forall c :: c in s.calls ==> CallOk(s, s.calls[c]))
  }

  /** The store only grows, and no settled write appears: what every store change keeps. */
  lemma AppliedKeeps(s: State, id: string, token: Origin, present: bool, writes: map<nat, Write>)
    requires Inv(s)
    requires forall w :: w in writes ==>
      (w in s.writes && writes[w] == s.writes[w]) || (Through(w) == token && writes[w].id == id && !writes[w].settled)
    ensures Inv(s.(store := Applied(s, id, token, present), writes := writes))
  {
    var t := s.(store := Applied(s, id, token, present), writes := writes);
    assert forall i :: At(s.store, i).history <= At(t.store, i).history;
    forall w | w in t.writes ensures WriteOk(t, w, t.writes[w]) {
      if w in s.writes && t.writes[w] == s.writes[w] {
        assert WriteOk(s, w, s.writes[w]);
      }
    }
    forall r | r in t.lookups ensures ReadOk(t, t.lookups[r]) {
      assert ReadOk(s, s.lookups[r]);
    }
    assert forall i :: Settled(t.writes, i) <= Settled(s.writes, i);
    forall slot | slot in t.cache ensures EntryOk(t, slot, t.cache[slot]) {
      assert EntryOk(s, slot, s.cache[slot]);
    }
    forall c | c in t.calls ensures CallOk(t, t.calls[c]) {
      assert CallOk(s, s.calls[c]);
    }
  }

  /** Moving the epoch makes every entry stale. */
  lemma EpochKeeps(s: State, writes: map<nat, Write>)
    requires Inv(s)
    requires forall w :: w in writes && writes[w].applied ==>
      w in s.writes && s.writes[w].applied && s.writes[w].id == writes[w].id
    ensures Inv(s.(epoch := s.epoch + 1, writes := writes))
  {
    var t := s.(epoch := s.epoch + 1, writes := writes);
    forall w | w in t.writes ensures WriteOk(t, w, t.writes[w]) {
      assert t.writes[w].applied ==> WriteOk(s, w, s.writes[w]);
    }
    forall r | r in t.lookups ensures ReadOk(t, t.lookups[r]) {
      assert ReadOk(s, s.lookups[r]);
    }
    forall slot | slot in t.cache ensures EntryOk(t, slot, t.cache[slot]) {
      assert EntryOk(s, slot, s.cache[slot]);
    }
    forall c | c in t.calls ensures CallOk(t, t.calls[c]) {
      assert CallOk(s, s.calls[c]);
    }
  }

  lemma SettledInStore(s: State, id: string)
    requires Inv(s)
    ensures Reflects(At(s.store, id).history, Settled(s.writes, id))
  {
    forall w | w in Settled(s.writes, id) ensures Through(w) in At(s.store, id).history {
      assert WriteOk(s, w, s.writes[w]);
    }
  }

  lemma CallKeeps(s: State, call: nat, c: Call)
    requires Inv(s) && call !in s.calls && CallOk(s, c)
    ensures Inv(s.(calls := s.calls[call := c]))
  {
    var t := s.(calls := s.calls[call := c]);
    forall w | w in t.writes ensures WriteOk(t, w, t.writes[w]) {
      assert WriteOk(s, w, s.writes[w]);
    }
    forall k | k in t.cache ensures EntryOk(t, k, t.cache[k]) {
      assert EntryOk(s, k, s.cache[k]);
    }
    forall d | d in t.calls ensures CallOk(t, t.calls[d]) {
      assert d != call ==> CallOk(s, s.calls[d]);
    }
  }

  /** A new read is started and cached. */
  lemma ReadKeeps(s: State, slot: Slot, newRead: nat)
    requires Inv(s) && newRead !in s.lookups
    ensures Inv(s.(lookups := s.lookups[newRead := Read(slot.id, None)],
                   cache := s.cache[slot := Entry(s.epoch, newRead)]))
  {
    var t := s.(lookups := s.lookups[newRead := Read(slot.id, None)],
                cache := s.cache[slot := Entry(s.epoch, newRead)]);
    forall w | w in t.writes ensures WriteOk(t, w, t.writes[w]) {
      assert WriteOk(s, w, s.writes[w]);
    }
    forall k | k in t.cache ensures EntryOk(t, k, t.cache[k]) {
      assert k in s.cache ==> EntryOk(s, k, s.cache[k]);
    }
    forall c | c in t.calls ensures CallOk(t, t.calls[c]) {
      assert CallOk(s, s.calls[c]);
    }
  }

  lemma SnapshotKeeps(s: State, call: nat, slot: Slot, newRead: nat)
    requires Inv(s) && call !in s.calls && newRead !in s.lookups
    ensures Inv(DoSnapshot(s, call, slot, newRead))
  {
    SettledInStore(s, slot.id);
    if Hit(s, slot) {
      assert EntryOk(s, slot, s.cache[slot]);
      CallKeeps(s, call, Call(slot.id, s.cache[slot].read, Settled(s.writes, slot.id)));
    } else {
      ReadKeeps(s, slot, newRead);
      var t := s.(lookups := s.lookups[newRead := Read(slot.id, None)],
                  cache := s.cache[slot := Entry(s.epoch, newRead)]);
      CallKeeps(t, call, Call(slot.id, newRead, Settled(s.writes, slot.id)));
    }
  }

  lemma ResolveKeeps(s: State, read: nat)
    requires Inv(s) && read in s.lookups && s.lookups[read].result.None?
    ensures Inv(Do(s, ReadResolves(read)).value)
  {
    var t := Do(s, ReadResolves(read)).value;
    SettledInStore(s, s.lookups[read].id);
    forall w | w in t.writes ensures WriteOk(t, w, t.writes[w]) {
      assert WriteOk(s, w, s.writes[w]);
    }
    forall r | r in t.lookups ensures ReadOk(t, t.lookups[r]) {
      assert ReadOk(s, s.lookups[r]);
    }
    forall k | k in t.cache ensures EntryOk(t, k, t.cache[k]) {
      assert EntryOk(s, k, s.cache[k]);
    }
    forall c | c in t.calls ensures CallOk(t, t.calls[c]) {
      assert CallOk(s, s.calls[c]);
    }
  }

  lemma EvictKeeps(s: State, slot: Slot)
    requires Inv(s) && Do(s, RejectionEvicts(slot)).Some?
    ensures Inv(Do(s, RejectionEvicts(slot)).value)
  {
    var t := Do(s, RejectionEvicts(slot)).value;
    forall w | w in t.writes ensures WriteOk(t, w, t.writes[w]) {
      assert WriteOk(s, w, s.writes[w]);
    }
    forall r | r in t.lookups ensures ReadOk(t, t.lookups[r]) {
      assert ReadOk(s, s.lookups[r]);
    }
    forall k | k in t.cache ensures EntryOk(t, k, t.cache[k]) {
      assert EntryOk(s, k, s.cache[k]);
    }
    forall c | c in t.calls ensures CallOk(t, t.calls[c]) {
      assert CallOk(s, s.calls[c]);
    }
  }

  lemma StepKeepsInv(s: State, step: Step)
    requires Inv(s) && Do(s, step).Some?
    ensures Inv(Do(s, step).value)
  {
    match step
    case WriteStarts(w, id) => EpochKeeps(s, s.writes[w := Write(id, false, false)]);
    case WriteApplies(w, present) =>
      AppliedKeeps(s, s.writes[w].id, Through(w), present, s.writes[w := s.writes[w].(applied := true)]);
    case WriteSettles(w) => EpochKeeps(s, s.writes[w := s.writes[w].(settled := true)]);
    case WriteAround(n, id, present) => AppliedKeeps(s, id, Around(n), present, s.writes);
    case Snapshot(call, slot, newRead) => SnapshotKeeps(s, call, slot, newRead);
    case ReadResolves(read) => ResolveKeeps(s, read);
    case RejectionEvicts(slot) => EvictKeeps(s, slot);
  }

  lemma {:induction false} RunKeepsInv(steps: seq<Step>)
    requires After(steps).Some?
    ensures Inv(After(steps).value)
  {
    if steps != [] {
      RunKeepsInv(steps[..|steps| - 1]);
      StepKeepsInv(After(steps[..|steps| - 1]).value, steps[|steps| - 1]);
    }
  }

  /**
   No snapshot is older than a write through the service that settled before
   the call: over every run, what a call resolves to is a state the store
   passed through, at or after the point each such write was applied.
   */
  lemma SnapshotNeverStale(steps: seq<Step>, call: nat)
    requires After(steps).Some? && call in After(steps).value.calls
    ensures var s := After(steps).value;
            var c := s.calls[call];
            && c.read in s.lookups && s.lookups[c.read].id == c.id
            && (s.lookups[c.read].result.Some? ==>
                  && Reflects(s.lookups[c.read].result.value.history, c.settledBefore)
                  && s.lookups[c.read].result.value.history <= At(s.store, c.id).history)
  {
    RunKeepsInv(steps);
    var s := After(steps).value;
    assert CallOk(s, s.calls[call]);
    assert ReadOk(s, s.lookups[s.calls[call].read]);
  }

  /** `settledBefore` is what had settled when the call was made, and a call's read never changes. */
  lemma CallRecordsSettled(s: State, step: Step, call: nat)
    requires Do(s, step).Some? && call in Do(s, step).value.calls
    ensures var t := Do(s, step).value;
            if call in s.calls then t.calls[call] == s.calls[call]
            else step.Snapshot? && step.call == call && t.calls[call].id == step.slot.id
                 && t.calls[call].settledBefore == Settled(s.writes, step.slot.id)
                 && (Hit(s, step.slot) ==> t.lookups == s.lookups)
  {
  }

  // ── Writes and calls that run alone ────────────

  /** Another write can always run to its end: the store takes it, and no cached read is shared any more. */
  lemma WriteAlone(steps: seq<Step>, w: nat, id: string, present: bool, slot: Slot)
    requires After(steps).Some? && w !in After(steps).value.writes
    ensures var s := After(steps).value;
            var t := After(steps + [WriteStarts(w, id), WriteApplies(w, present), WriteSettles(w)]);
            && t.Some? && t.value.writes == s.writes[w := Write(id, true, true)]
            && t.value.store == s.store[id := Stored(At(s.store, id).history + [Through(w)], present)]
            && t.value.calls == s.calls && t.value.lookups == s.lookups && !Hit(t.value, slot)
  {
    var started := steps + [WriteStarts(w, id)];
    var applied := started + [WriteApplies(w, present)];
    AfterStep(steps, WriteStarts(w, id));
    AfterStep(started, WriteApplies(w, present));
    AfterStep(applied, WriteSettles(w));
    assert applied + [WriteSettles(w)] == steps + [WriteStarts(w, id), WriteApplies(w, present), WriteSettles(w)];
    RunKeepsInv(steps);
    if slot in After(steps).value.cache {
      assert EntryOk(After(steps).value, slot, After(steps).value.cache[slot]);
    }
  }

  /** A call that finds no shared read starts one, which can resolve at once to what the store holds. */
  lemma CallAlone(steps: seq<Step>, call: nat, slot: Slot, read: nat)
    requires After(steps).Some? && !Hit(After(steps).value, slot)
    requires call !in After(steps).value.calls && read !in After(steps).value.lookups
    ensures var s := After(steps).value;
            var t := After(steps + [Snapshot(call, slot, read), ReadResolves(read)]);
            && t.Some? && t.value.store == s.store && call in t.value.calls && t.value.calls[call].read == read
            && t.value.lookups == s.lookups[read := Read(slot.id, Some(At(s.store, slot.id)))]
            && slot in t.value.cache && t.value.cache[slot].read == read
  {
    var called := steps + [Snapshot(call, slot, read)];
    AfterStep(steps, Snapshot(call, slot, read));
    AfterStep(called, ReadResolves(read));
    assert called + [ReadResolves(read)] == steps + [Snapshot(call, slot, read), ReadResolves(read)];
  }

  /** A cached read is dropped exactly when it has resolved to a missing row. */
  lemma DropAlone(steps: seq<Step>, slot: Slot)
    requires After(steps).Some? && slot in After(steps).value.cache
    ensures var s := After(steps).value;
            var t := After(steps + [RejectionEvicts(slot)]);
            && s.cache[slot].read in s.lookups
            && (t.Some? <==>
                  && s.lookups[s.cache[slot].read].result.Some?
                  && !s.lookups[s.cache[slot].read].result.value.present)
            && (t.Some? ==> t.value == s.(cache := s.cache - {slot}))
  {
    RunKeepsInv(steps);
    assert EntryOk(After(steps).value, slot, After(steps).value.cache[slot]);
    AfterStep(steps, RejectionEvicts(slot));
  }

  // ── What a scope shares ────────────

  lemma AfterStep(steps: seq<Step>, step: Step)
    requires After(steps).Some?
    ensures After(steps + [step]) == Do(After(steps).value, step)
  {
    assert (steps + [step])[..|steps|] == steps;
  }

  /** A write through the service starts or settles, or the slot's read was rejected and dropped. */
  predicate Ends(step: Step, slot: Slot) {
    step.WriteStarts? || step.WriteSettles? || step == RejectionEvicts(slot)
  }

  predicate AnyEnds(steps: seq<Step>, slot: Slot) {
    exists k :: 0 <= k < |steps| && Ends(steps[k], slot)
  }

  /** The slot shares this read; or it never will again. */
  predicate Shares(s: State, slot: Slot, read: nat, shared: bool) {
    && read in s.lookups
    && if shared then slot in s.cache && s.cache[slot] == Entry(s.epoch, read)
       else Hit(s, slot) ==> s.cache[slot].read != read
  }

  lemma SharesStep(s: State, step: Step, slot: Slot, read: nat, shared: bool)
    requires Inv(s) && Do(s, step).Some? && Shares(s, slot, read, shared)
    ensures Shares(Do(s, step).value, slot, read, shared && !Ends(step, slot))
  {
    if slot in s.cache {
      assert EntryOk(s, slot, s.cache[slot]);
    }
  }

  lemma LastShares(steps: seq<Step>, slot: Slot, read: nat, shared: bool)
    requires steps != [] && After(steps).Some? && Shares(After(steps[..|steps| - 1]).value, slot, read, shared)
    ensures Shares(After(steps).value, slot, read, shared && !Ends(steps[|steps| - 1], slot))
  {
    var init, last := steps[..|steps| - 1], steps[|steps| - 1];
    RunKeepsInv(init);
    SharesStep(After(init).value, last, slot, read, shared);
  }

  lemma {:induction false} SharesAlong(steps: seq<Step>, mid: seq<Step>, slot: Slot, read: nat)
    requires After(steps).Some? && After(steps + mid).Some? && Shares(After(steps).value, slot, read, true)
    ensures Shares(After(steps + mid).value, slot, read, !AnyEnds(mid, slot))
    decreases |mid|
  {
    if mid == [] {
      assert steps + mid == steps;
    } else {
      var init, last, all := mid[..|mid| - 1], mid[|mid| - 1], steps + mid;
      assert all[..|all| - 1] == steps + init && all[|all| - 1] == last;
      SharesAlong(steps, init, slot, read);
      LastShares(all, slot, read, !AnyEnds(init, slot));
      assert AnyEnds(mid, slot) <==> AnyEnds(init, slot) || Ends(last, slot) by {
        assert forall k :: 0 <= k < |init| ==> mid[k] == init[k];
        assert mid[|init|] == last;
      }
    }
  }

  /**
   Two calls of one scope for one id share a read exactly when no write through
   the service started or settled between them, and the read was not dropped.
   */
  lemma CallsShareRead(steps: seq<Step>, slot: Slot, call: nat, newRead: nat, mid: seq<Step>, later: nat,
                       laterRead: nat)
    requires After(steps + [Snapshot(call, slot, newRead)] + mid + [Snapshot(later, slot, laterRead)]).Some?
    ensures var t := After(steps + [Snapshot(call, slot, newRead)] + mid + [Snapshot(later, slot, laterRead)]).value;
            && call in t.calls && later in t.calls
            && (t.calls[later].read == t.calls[call].read <==> !AnyEnds(mid, slot))
  {
    var first, both := steps + [Snapshot(call, slot, newRead)], steps + [Snapshot(call, slot, newRead)] + mid;
    var all := both + [Snapshot(later, slot, laterRead)];
    assert all[..|all| - 1] == both;
    PrefixRuns(first, mid);
    PrefixRuns(steps, [Snapshot(call, slot, newRead)]);
    AfterStep(steps, Snapshot(call, slot, newRead));
    RunKeepsInv(steps);
    var s := After(first).value;
    if Hit(After(steps).value, slot) {
      assert EntryOk(After(steps).value, slot, After(steps).value.cache[slot]);
    }
    var read := s.calls[call].read;
    SharesAlong(first, mid, slot, read);
    CallStays(first, mid, call);
    AfterStep(both, Snapshot(later, slot, laterRead));
  }

  lemma {:induction false} PrefixRuns(steps: seq<Step>, more: seq<Step>)
    requires After(steps + more).Some?
    ensures After(steps).Some?
    decreases |more|
  {
    if more == [] {
      assert steps + more == steps;
    } else {
      assert (steps + more)[..|steps + more| - 1] == steps + more[..|more| - 1];
      PrefixRuns(steps, more[..|more| - 1]);
    }
  }

  lemma LastKeepsCall(steps: seq<Step>, call: nat)
    requires steps != [] && After(steps).Some? && call in After(steps[..|steps| - 1]).value.calls
    ensures call in After(steps).value.calls
    ensures After(steps).value.calls[call] == After(steps[..|steps| - 1]).value.calls[call]
  {
    CallKept(After(steps[..|steps| - 1]).value, steps[|steps| - 1], call);
  }

  lemma CallKept(s: State, step: Step, call: nat)
    requires Do(s, step).Some? && call in s.calls
    ensures call in Do(s, step).value.calls && Do(s, step).value.calls[call] == s.calls[call]
  {
  }

  lemma {:induction false} CallStays(steps: seq<Step>, more: seq<Step>, call: nat)
    requires After(steps).Some? && After(steps + more).Some? && call in After(steps).value.calls
    ensures call in After(steps + more).value.calls
    ensures After(steps + more).value.calls[call] == After(steps).value.calls[call]
    decreases |more|
  {
    if more == [] {
      assert steps + more == steps;
    } else {
      var all := steps + more;
      assert all[..|all| - 1] == steps + more[..|more| - 1];
      CallStays(steps, more[..|more| - 1], call);
      LastKeepsCall(all, call);
    }
  }
}
