/**
 One-time use of TOTP codes (section 5.2 of RFC 6238): concurrent
 verifications of one account re-check the replay guard inside their
 compare-and-set write. Each atomic store access is one step; a run is a
 sequence of steps.
 */
module Totp {
  import opened Options

  /** An MFA method; `lastUsed` is the last accepted counter (`lastUsedWindow`). */
  datatype Method = Method(name: string, confirmed: bool, secret: nat, lastUsed: Option<int>)

  datatype Row = Row(version: nat, methods: seq<Method>, failedAttempts: nat)

  const TOTP := "totp"
  const MAX_ATTEMPTS := 2

  predicate IsTotp(m: Method) {
    m.name == TOTP && m.confirmed
  }

  /** `methods.find(m => m.name === "totp" && m.confirmed)` */
  function FindTotp(methods: seq<Method>): Option<Method> {
    if methods == [] then None
    else if IsTotp(methods[0]) then Some(methods[0])
    else FindTotp(methods[1..])
  }

  /** The methods with the accepted counter recorded on the confirmed TOTP method. */
  function Recorded(methods: seq<Method>, counter: int): seq<Method> {
    if methods == [] then []
    else
      var first := if IsTotp(methods[0]) then methods[0].(lastUsed := Some(counter)) else methods[0];
      [first] + Recorded(methods[1..], counter)
  }

  function Without(methods: seq<Method>, name: string): seq<Method> {
    if methods == [] then []
    else (if methods[0].name == name then [] else [methods[0]]) + Without(methods[1..], name)
  }

  function Confirmed(methods: seq<Method>, name: string): seq<Method> {
    if methods == [] then []
    else
      var first := if methods[0].name == name then methods[0].(confirmed := true) else methods[0];
      [first] + Confirmed(methods[1..], name)
  }

  predicate IsReplay(totp: Method, counter: int) {
    totp.lastUsed.Some? && counter <= totp.lastUsed.value
  }

  datatype Caller =
    | Verifying(id: string, matched: Option<int>)
    | InCas(id: string, counter: int, attempt: nat)
    | Decided(id: string, counter: int, attempt: nat, seen: Row)
    | Failing(id: string)
    | Verified(id: string, counter: int)
    | Removing(id: string, name: string, seen: Row)
    | Removed(id: string)
    | Thrown(id: string)

  /** One accepted verification. */
  datatype Success = Success(id: string, counter: int)

  datatype State = State(store: map<string, Row>, created: set<string>, callers: map<nat, Caller>, log: seq<Success>)

  const INITIAL := State(map[], {}, map[], [])

  /**
   `matched` is the counter the submitted code matches (`None`: a wrong code);
   `allowed` is whether the account may sign in (active, not locked).
   */
  datatype Step =
    | StartVerify(pid: nat, id: string, matched: Option<int>)
    | VerifyReads(pid: nat, allowed: bool)
    | CasReads(pid: nat)
    | CasWrites(pid: nat)
    | CountsFailure(pid: nat)
    | Create(id: string, methods: seq<Method>)
    | AccountWrite(id: string, failedAttempts: nat)
    | AddsMethod(id: string, m: Method)
    | ConfirmsMethod(id: string, name: string)
    | Deletes(id: string)
    | StartRemove(pid: nat, id: string, name: string)
    | RemoveWrites(pid: nat)

  function Became(s: State, pid: nat, c: Caller): State {
    s.(callers := s.callers[pid := c])
  }

  function Written(s: State, id: string, methods: seq<Method>, failedAttempts: nat): State
    requires id in s.store
  {
    s.(store := s.store[id := Row(s.store[id].version + 1, methods, failedAttempts)])
  }

  predicate Unchanged(s: State, id: string, seen: Row) {
    id in s.store && s.store[id].version == seen.version
  }

  function Do(s: State, step: Step): Option<State> {
    match step
    case StartVerify(pid, id, matched) =>
      if pid in s.callers then None else Some(Became(s, pid, Verifying(id, matched)))
    case VerifyReads(pid, allowed) =>
      if pid !in s.callers || !s.callers[pid].Verifying? then None else Some(DoVerifyReads(s, pid, allowed))
    case CasReads(pid) =>
      if pid !in s.callers || !s.callers[pid].InCas? then None else Some(DoCasReads(s, pid))
    case CasWrites(pid) =>
      if pid !in s.callers || !s.callers[pid].Decided? then None else Some(DoCasWrites(s, pid))
    case CountsFailure(pid) =>
      if pid !in s.callers || !s.callers[pid].Failing? then None else Some(DoCountsFailure(s, pid))
    case Create(id, methods) =>
      if id in s.created then None
      else Some(s.(store := s.store[id := Row(0, methods, 0)], created := s.created + {id}))
    case AccountWrite(id, failedAttempts) =>
      if id !in s.store then None else Some(Written(s, id, s.store[id].methods, failedAttempts))
    case AddsMethod(id, m) =>
      if id !in s.store then None
      else Some(Written(s, id, Without(s.store[id].methods, m.name) + [m], s.store[id].failedAttempts))
    case ConfirmsMethod(id, name) =>
      if id !in s.store || (forall m :: m in s.store[id].methods ==> m.name != name) then None
      else Some(Written(s, id, Confirmed(s.store[id].methods, name), s.store[id].failedAttempts))
    case Deletes(id) =>
      if id !in s.store then None else Some(s.(store := s.store - {id}))
    case StartRemove(pid, id, name) =>
      if pid in s.callers || id !in s.store then None else Some(Became(s, pid, Removing(id, name, s.store[id])))
    case RemoveWrites(pid) =>
      if pid !in s.callers || !s.callers[pid].Removing? then None else Some(DoRemoveWrites(s, pid))
  }

  /** The first read: a wrong code or a counter already used fails at once. */
  function DoVerifyReads(s: State, pid: nat, allowed: bool): State
    requires pid in s.callers && s.callers[pid].Verifying?
  {
    var c := s.callers[pid];
    if c.id !in s.store || !allowed then Became(s, pid, Thrown(c.id))
    else
      var totp := FindTotp(s.store[c.id].methods);
      if totp.None? then Became(s, pid, Thrown(c.id))
      else if c.matched.None? || IsReplay(totp.value, c.matched.value) then Became(s, pid, Failing(c.id))
      else Became(s, pid, InCas(c.id, c.matched.value, 0))
  }

  /** The mutator on a fresh row: a replay seen only now writes nothing. */
  function DoCasReads(s: State, pid: nat): State
    requires pid in s.callers && s.callers[pid].InCas?
  {
    var c := s.callers[pid];
    if c.id !in s.store then Became(s, pid, Thrown(c.id))
    else
      var totp := FindTotp(s.store[c.id].methods);
      if totp.Some? && IsReplay(totp.value, c.counter) then Became(s, pid, Failing(c.id))
      else Became(s, pid, Decided(c.id, c.counter, c.attempt, s.store[c.id]))
  }

  function DoCasWrites(s: State, pid: nat): State
    requires pid in s.callers && s.callers[pid].Decided?
  {
    var c := s.callers[pid];
    if Unchanged(s, c.id, c.seen) then
      Became(Written(s, c.id, Recorded(c.seen.methods, c.counter), 0), pid, Verified(c.id, c.counter))
        .(log := s.log + [Success(c.id, c.counter)])
    else if c.attempt + 1 < MAX_ATTEMPTS then Became(s, pid, InCas(c.id, c.counter, c.attempt + 1))
    else Became(s, pid, Thrown(c.id))
  }

  function DoCountsFailure(s: State, pid: nat): State
    requires pid in s.callers && s.callers[pid].Failing?
  {
    var c := s.callers[pid];
    if c.id in s.store
    then Became(Written(s, c.id, s.store[c.id].methods, s.store[c.id].failedAttempts + 1), pid, Thrown(c.id))
    else Became(s, pid, Thrown(c.id))
  }

  /** `removeMfaMethod`: writes back the methods it read, without a version check. */
  function DoRemoveWrites(s: State, pid: nat): State
    requires pid in s.callers && s.callers[pid].Removing?
  {
    var c := s.callers[pid];
    if c.id in s.store
    then Became(Written(s, c.id, Without(c.seen.methods, c.name), s.store[c.id].failedAttempts), pid, Removed(c.id))
    else Became(s, pid, Removed(c.id))
  }

  function After(steps: seq<Step>): Option<State> {
    if steps == [] then Some(INITIAL)
    else
      var before := After(steps[..|steps| - 1]);
      if before.None? then None else Do(before.value, steps[|steps| - 1])
  }

  /** The step edits no TOTP method. */
  predicate EditsOther(step: Step) {
    match step
    case AddsMethod(_, m) => m.name != TOTP
    case ConfirmsMethod(_, name) => name != TOTP
    case StartRemove(_, _, name) => name != TOTP
    case _ => true
  }

  predicate AllEditOther(steps: seq<Step>) {
    forall k :: 0 <= k < |steps| ==> EditsOther(steps[k])
  }

  /** The methods still hold an accepted counter against its reuse. */
  predicate Holds(methods: seq<Method>, counter: int) {
    FindTotp(methods).Some? && IsReplay(FindTotp(methods).value, counter)
  }

  /** An unchecked removal writes back a TOTP record older than an accepted counter of the account. */
  predicate Stale(s: State, step: Step) {
    && step.RemoveWrites? && step.pid in s.callers && s.callers[step.pid].Removing?
    && var c := s.callers[step.pid];
       && c.id in s.store
       && exists i :: 0 <= i < |s.log| && s.log[i].id == c.id && !Holds(c.seen.methods, s.log[i].counter)
  }

  /** No step of the run is such a removal. */
  predicate Fresh(steps: seq<Step>) {
    steps != [] ==>
      var init, last := steps[..|steps| - 1], steps[|steps| - 1];
      Fresh(init) && (After(init).Some? ==> !Stale(After(init).value, last))
  }

  // ── The TOTP method under each edit ────────────

  lemma {:induction false} RecordedTotp(methods: seq<Method>, counter: int)
    ensures FindTotp(methods).Some? ==>
      FindTotp(Recorded(methods, counter)) == Some(FindTotp(methods).value.(lastUsed := Some(counter)))
    ensures FindTotp(methods).None? ==> FindTotp(Recorded(methods, counter)).None?
  {
    if methods != [] {
      RecordedTotp(methods[1..], counter);
      assert Recorded(methods, counter)[1..] == Recorded(methods[1..], counter);
    }
  }

  lemma {:induction false} AddedTotp(methods: seq<Method>, m: Method)
    requires m.name != TOTP
    ensures FindTotp(Without(methods, m.name) + [m]) == FindTotp(methods)
  {
    if methods == [] {
      assert Without(methods, m.name) + [m] == [m];
      assert [m][1..] == [];
    } else {
      AddedTotp(methods[1..], m);
      if methods[0].name == m.name {
        assert Without(methods, m.name) + [m] == Without(methods[1..], m.name) + [m];
      } else {
        assert Without(methods, m.name) + [m] == [methods[0]] + (Without(methods[1..], m.name) + [m]);
        assert ([methods[0]] + (Without(methods[1..], m.name) + [m]))[1..] == Without(methods[1..], m.name) + [m];
      }
    }
  }

  lemma {:induction false} RemovedTotp(methods: seq<Method>, name: string)
    requires name != TOTP
    ensures FindTotp(Without(methods, name)) == FindTotp(methods)
  {
    if methods != [] {
      RemovedTotp(methods[1..], name);
      if methods[0].name == name {
        assert Without(methods, name) == Without(methods[1..], name);
      } else {
        assert Without(methods, name)[1..] == Without(methods[1..], name);
      }
    }
  }

  lemma {:induction false} ConfirmedTotp(methods: seq<Method>, name: string)
    requires name != TOTP
    ensures FindTotp(Confirmed(methods, name)) == FindTotp(methods)
  {
    if methods != [] {
      ConfirmedTotp(methods[1..], name);
      assert Confirmed(methods, name)[1..] == Confirmed(methods[1..], name);
    }
  }

  // ── What every step keeps ────────────

  predicate HasTotp(s: State, id: string) {
    id in s.store ==> FindTotp(s.store[id].methods).Some?
  }

  /** An accepted counter stays recorded on the account's TOTP method. */
  predicate Remembered(s: State, e: Success) {
    e.id in s.created && (e.id in s.store ==> Holds(s.store[e.id].methods, e.counter))
  }

  predicate CallerOk(s: State, c: Caller) {
    && (c.Removing? ==> c.name != TOTP)
    && (c.Removing? || c.Decided? ==>
         && c.id in s.created
         && (c.id in s.store ==> c.seen.version <= s.store[c.id].version)
         && (Unchanged(s, c.id, c.seen) ==> c.seen == s.store[c.id]))
    && (c.Removing? && c.id in s.store ==> (FindTotp(c.seen.methods).Some? <==> FindTotp(s.store[c.id].methods).Some?))
    && (c.InCas? || c.Decided? ==> c.id in s.created && HasTotp(s, c.id))
    && (c.Decided? ==>
         && FindTotp(c.seen.methods).Some? && !IsReplay(FindTotp(c.seen.methods).value, c.counter))
  }

  /** The accepted counters of each account are strictly increasing. */
  predicate Increasing(log: seq<Success>) {
    forall i, j :: 0 <= i < j < |log| && log[i].id == log[j].id ==> log[i].counter < log[j].counter
  }

  predicate Inv(s: State) {
    && s.store.Keys <= s.created
    && (forall pid :: pid in s.callers ==> CallerOk(s, s.callers[pid]))
    && (forall i :: 0 <= i < |s.log| ==> Remembered(s, s.log[i]))
    && Increasing(s.log)
  }

  lemma BecameKeepsInv(s: State, pid: nat, c: Caller)
    requires Inv(s) && CallerOk(s, c)
    ensures Inv(Became(s, pid, c))
  {
    var t := Became(s, pid, c);
    forall p | p in t.callers ensures CallerOk(t, t.callers[p]) {
      assert p != pid ==> CallerOk(s, s.callers[p]);
    }
    forall i | 0 <= i < |t.log| ensures Remembered(t, t.log[i]) {
      assert Remembered(s, s.log[i]);
    }
  }

  /** A write that keeps a TOTP method, with every accepted counter still held, keeps the invariant. */
  lemma WrittenKeepsInv(s: State, id: string, methods: seq<Method>, failedAttempts: nat)
    requires Inv(s) && id in s.store
    requires FindTotp(methods).Some? <==> FindTotp(s.store[id].methods).Some?
    requires forall i :: 0 <= i < |s.log| && s.log[i].id == id ==> Holds(methods, s.log[i].counter)
    ensures Inv(Written(s, id, methods, failedAttempts))
  {
    var t := Written(s, id, methods, failedAttempts);
    forall p | p in t.callers ensures CallerOk(t, t.callers[p]) {
      assert CallerOk(s, s.callers[p]);
    }
    forall i | 0 <= i < |t.log| ensures Remembered(t, t.log[i]) {
      assert Remembered(s, s.log[i]);
    }
  }

  lemma CasWriteKeepsInv(s: State, pid: nat)
    requires Inv(s) && pid in s.callers && s.callers[pid].Decided?
    ensures Inv(DoCasWrites(s, pid))
  {
    var c := s.callers[pid];
    assert CallerOk(s, c);
    if Unchanged(s, c.id, c.seen) {
      RecordedTotp(c.seen.methods, c.counter);
      var methods := Recorded(c.seen.methods, c.counter);
      forall i | 0 <= i < |s.log| && s.log[i].id == c.id
        ensures s.log[i].counter < c.counter && Holds(methods, s.log[i].counter) {
        assert Remembered(s, s.log[i]);
      }
      WrittenKeepsInv(s, c.id, methods, 0);
      var t := Written(s, c.id, methods, 0);
      BecameKeepsInv(t, pid, Verified(c.id, c.counter));
      var u := Became(t, pid, Verified(c.id, c.counter));
      var v := u.(log := s.log + [Success(c.id, c.counter)]);
      forall p | p in v.callers ensures CallerOk(v, v.callers[p]) {
        assert CallerOk(u, u.callers[p]);
      }
      forall i | 0 <= i < |v.log| ensures Remembered(v, v.log[i]) {
        assert i < |s.log| ==> Remembered(u, u.log[i]);
      }
    } else {
      BecameKeepsInv(s, pid, DoCasWrites(s, pid).callers[pid]);
    }
  }

  lemma StepKeepsInv(s: State, step: Step)
    requires Inv(s) && Do(s, step).Some? && EditsOther(step) && !Stale(s, step)
    ensures Inv(Do(s, step).value)
  {
    match step
    case StartVerify(pid, id, matched) => BecameKeepsInv(s, pid, Verifying(id, matched));
    case VerifyReads(pid, allowed) => BecameKeepsInv(s, pid, DoVerifyReads(s, pid, allowed).callers[pid]);
    case CasReads(pid) =>
      assert CallerOk(s, s.callers[pid]);
      BecameKeepsInv(s, pid, DoCasReads(s, pid).callers[pid]);
    case CasWrites(pid) => CasWriteKeepsInv(s, pid);
    case CountsFailure(pid) =>
      var c := s.callers[pid];
      if c.id in s.store {
        SameTotpKeepsInv(s, c.id, s.store[c.id].methods, s.store[c.id].failedAttempts + 1);
        BecameKeepsInv(Written(s, c.id, s.store[c.id].methods, s.store[c.id].failedAttempts + 1), pid, Thrown(c.id));
      } else {
        BecameKeepsInv(s, pid, Thrown(c.id));
      }
    case Create(id, methods) => CreateKeepsInv(s, id, methods);
    case AccountWrite(id, failedAttempts) => SameTotpKeepsInv(s, id, s.store[id].methods, failedAttempts);
    case AddsMethod(id, m) =>
      AddedTotp(s.store[id].methods, m);
      SameTotpKeepsInv(s, id, Without(s.store[id].methods, m.name) + [m], s.store[id].failedAttempts);
    case ConfirmsMethod(id, name) =>
      ConfirmedTotp(s.store[id].methods, name);
      SameTotpKeepsInv(s, id, Confirmed(s.store[id].methods, name), s.store[id].failedAttempts);
    case Deletes(id) => DeleteKeepsInv(s, id);
    case StartRemove(pid, id, name) => BecameKeepsInv(s, pid, Removing(id, name, s.store[id]));
    case RemoveWrites(pid) => RemoveKeepsInv(s, pid);
  }

  lemma SameTotpKeepsInv(s: State, id: string, methods: seq<Method>, failedAttempts: nat)
    requires Inv(s) && id in s.store && FindTotp(methods) == FindTotp(s.store[id].methods)
    ensures Inv(Written(s, id, methods, failedAttempts))
  {
    forall i | 0 <= i < |s.log| && s.log[i].id == id ensures Holds(methods, s.log[i].counter) {
      assert Remembered(s, s.log[i]);
    }
    WrittenKeepsInv(s, id, methods, failedAttempts);
  }

  /** A removal may race any write: only an older TOTP record does harm. */
  lemma RemoveKeepsInv(s: State, pid: nat)
    requires Inv(s) && pid in s.callers && s.callers[pid].Removing? && !Stale(s, RemoveWrites(pid))
    ensures Inv(DoRemoveWrites(s, pid))
  {
    var c := s.callers[pid];
    assert CallerOk(s, c);
    if c.id in s.store {
      RemovedTotp(c.seen.methods, c.name);
      WrittenKeepsInv(s, c.id, Without(c.seen.methods, c.name), s.store[c.id].failedAttempts);
      BecameKeepsInv(Written(s, c.id, Without(c.seen.methods, c.name), s.store[c.id].failedAttempts), pid,
        Removed(c.id));
    } else {
      BecameKeepsInv(s, pid, Removed(c.id));
    }
  }

  lemma CreateKeepsInv(s: State, id: string, methods: seq<Method>)
    requires Inv(s) && id !in s.created
    ensures Inv(Do(s, Create(id, methods)).value)
  {
    var t := Do(s, Create(id, methods)).value;
    forall p | p in t.callers ensures CallerOk(t, t.callers[p]) {
      assert CallerOk(s, s.callers[p]);
    }
    forall i | 0 <= i < |t.log| ensures Remembered(t, t.log[i]) {
      assert Remembered(s, s.log[i]);
    }
  }

  lemma DeleteKeepsInv(s: State, id: string)
    requires Inv(s) && id in s.store
    ensures Inv(s.(store := s.store - {id}))
  {
    var t := s.(store := s.store - {id});
    forall p | p in t.callers ensures CallerOk(t, t.callers[p]) {
      assert CallerOk(s, s.callers[p]);
    }
    forall i | 0 <= i < |t.log| ensures Remembered(t, t.log[i]) {
      assert Remembered(s, s.log[i]);
    }
  }

  lemma {:induction false} RunKeepsInv(steps: seq<Step>)
    requires After(steps).Some? && AllEditOther(steps) && Fresh(steps)
    ensures Inv(After(steps).value)
  {
    if steps != [] {
      RunKeepsInv(steps[..|steps| - 1]);
      StepKeepsInv(After(steps[..|steps| - 1]).value, steps[|steps| - 1]);
    }
  }

  /**
   The accepted counters of an account are strictly increasing over every
   interleaving in which no removal writes back an older record, so no code is
   ever accepted twice.
   */
  lemma CountersIncrease(steps: seq<Step>, i: nat, j: nat)
    requires After(steps).Some? && AllEditOther(steps) && Fresh(steps)
    requires i < j < |After(steps).value.log|
    requires After(steps).value.log[i].id == After(steps).value.log[j].id
    ensures After(steps).value.log[i].counter < After(steps).value.log[j].counter
  {
    RunKeepsInv(steps);
  }

  /** A verification succeeds exactly when it is logged. */
  lemma LogIsComplete(s: State, step: Step)
    requires Do(s, step).Some?
    ensures var t := Do(s, step).value;
            && (t.log != s.log ==> step.CasWrites?)
            && (step.CasWrites? ==>
                 var c := s.callers[step.pid];
                 t.callers[step.pid].Verified? <==> t.log == s.log + [Success(c.id, c.counter)])
  {
  }

  // ── When a code can be accepted again: exactly ────────────

  lemma {:induction false} AfterStep(steps: seq<Step>, step: Step)
    requires After(steps).Some?
    ensures After(steps + [step]) == Do(After(steps).value, step)
  {
    assert (steps + [step])[..|steps|] == steps;
  }

  /** Steps to append: edits of other methods, without the write of a removal. */
  predicate Later(more: seq<Step>) {
    AllEditOther(more) && forall k :: 0 <= k < |more| ==> !more[k].RemoveWrites?
  }

  lemma Then(steps: seq<Step>, more: seq<Step>, step: Step) returns (longer: seq<Step>)
    requires After(steps + more).Some? && Do(After(steps + more).value, step).Some?
    requires Later(more) && EditsOther(step) && !step.RemoveWrites?
    ensures After(steps + longer) == Do(After(steps + more).value, step) && Later(longer)
  {
    longer := more + [step];
    var run := steps + more;
    assert steps + longer == run + [step];
    AfterStep(run, step);
    LaterOneMore(more, step);
  }

  lemma LaterOneMore(more: seq<Step>, step: Step)
    requires Later(more) && EditsOther(step) && !step.RemoveWrites?
    ensures Later(more + [step])
  {
  }

  /** Every verification can run alone: a counter the TOTP method does not hold is accepted. */
  lemma VerifyOnce(steps: seq<Step>, pid: nat, id: string, counter: int) returns (more: seq<Step>)
    requires After(steps).Some? && pid !in After(steps).value.callers
    requires id in After(steps).value.store && FindTotp(After(steps).value.store[id].methods).Some?
    requires !Holds(After(steps).value.store[id].methods, counter)
    ensures Later(more) && After(steps + more).Some?
    ensures After(steps + more).value.log == After(steps).value.log + [Success(id, counter)]
    ensures After(steps + more).value.callers == After(steps).value.callers[pid := Verified(id, counter)]
    ensures After(steps + more).value.store.Keys == After(steps).value.store.Keys
  {
    assert steps + [] == steps;
    more := Then(steps, [], StartVerify(pid, id, Some(counter)));
    more := Then(steps, more, VerifyReads(pid, true));
    more := Then(steps, more, CasReads(pid));
    more := Then(steps, more, CasWrites(pid));
  }

  /** However the run goes on, short of a removal's write, the accepted counters increase. */
  ghost predicate NeverReplays(steps: seq<Step>) {
    forall more :: Later(more) && After(steps + more).Some? ==> Increasing(After(steps + more).value.log)
  }

  lemma {:induction false} LaterIsFresh(steps: seq<Step>, more: seq<Step>)
    requires Fresh(steps) && Later(more)
    ensures Fresh(steps + more)
    decreases |more|
  {
    if more == [] {
      assert steps + more == steps;
    } else {
      var init := more[..|more| - 1];
      LaterIsFresh(steps, init);
      assert (steps + more)[..|steps + more| - 1] == steps + init;
    }
  }

  lemma FreshNeverReplays(steps: seq<Step>)
    requires AllEditOther(steps) && Fresh(steps)
    ensures NeverReplays(steps)
  {
    forall more | Later(more) && After(steps + more).Some? ensures Increasing(After(steps + more).value.log) {
      LaterIsFresh(steps, more);
      RunKeepsInv(steps + more);
    }
  }

  lemma UnusedPid(pids: set<nat>) returns (pid: nat)
    ensures forall p :: p in pids ==> p < pid
  {
    if pids == {} {
      pid := 0;
    } else {
      var p :| p in pids;
      var above := UnusedPid(pids - {p});
      pid := if above > p then above else p + 1;
      assert forall q :: q in pids ==> q == p || q in pids - {p};
    }
  }

  /** After a stale removal one verification accepts a counter that was accepted before. */
  lemma StaleReplays(init: seq<Step>, step: Step)
    requires AllEditOther(init) && Fresh(init) && After(init).Some? && Stale(After(init).value, step)
    ensures !NeverReplays(init + [step])
  {
    RunKeepsInv(init);
    AfterStep(init, step);
    var s, steps := After(init).value, init + [step];
    var c, t := s.callers[step.pid], After(steps).value;
    assert CallerOk(s, c);
    var i :| 0 <= i < |s.log| && s.log[i].id == c.id && !Holds(c.seen.methods, s.log[i].counter);
    assert Remembered(s, s.log[i]);
    RemovedTotp(c.seen.methods, c.name);
    var pid := UnusedPid(t.callers.Keys);
    var more := VerifyOnce(steps, pid, c.id, s.log[i].counter);
    var log := After(steps + more).value.log;
    assert log[i] == log[|log| - 1];
  }

  lemma {:induction false} PrefixRuns(steps: seq<Step>, k: nat)
    requires k <= |steps| && After(steps).Some?
    ensures After(steps[..k]).Some?
    ensures Fresh(steps) ==> Fresh(steps[..k])
  {
    if k == |steps| {
      assert steps[..k] == steps;
    } else {
      PrefixRuns(steps[..|steps| - 1], k);
      assert steps[..|steps| - 1][..k] == steps[..k];
    }
  }

  /**
   The exact condition, for every run that leaves the TOTP method alone: at no
   moment can an accepted counter be accepted again, however the run goes on,
   if and only if no removal writes back a record older than one.
   */
  lemma {:induction false} NeverReplaysIffFresh(steps: seq<Step>)
    requires After(steps).Some? && AllEditOther(steps)
    ensures Fresh(steps) <==> forall k :: 0 <= k <= |steps| ==> NeverReplays(steps[..k])
  {
    if Fresh(steps) {
      forall k | 0 <= k <= |steps| ensures NeverReplays(steps[..k]) {
        PrefixRuns(steps, k);
        FreshNeverReplays(steps[..k]);
      }
    } else {
      var n := |steps| - 1;
      PrefixRuns(steps, n);
      if Fresh(steps[..n]) {
        StaleReplays(steps[..n], steps[n]);
        assert steps[..n] + [steps[n]] == steps[..n + 1];
      } else {
        NeverReplaysIffFresh(steps[..n]);
        var k :| 0 <= k <= n && !NeverReplays(steps[..n][..k]);
        assert steps[..n][..k] == steps[..k];
      }
    }
  }

  // ── A run in which it happens ────────────

  /** A removal that has read a row with an unused TOTP method, and a verification that then succeeded. */
  lemma ReadBeforeVerify(id: string, counter: int, totp: Method, mail: Method) returns (steps: seq<Step>)
    requires IsTotp(totp) && totp.lastUsed.None?
    ensures After(steps).Some? && AllEditOther(steps)
    ensures var s := After(steps).value;
            && s.log == [Success(id, counter)] && id in s.store && 2 !in s.callers
            && 0 in s.callers && s.callers[0] == Removing(id, "email", Row(0, [totp, mail], 0))
  {
    steps := [Create(id, [totp, mail])];
    AfterStep([], steps[0]);
    AfterStep(steps, StartRemove(0, id, "email"));
    steps := steps + [StartRemove(0, id, "email")];
    var more := VerifyOnce(steps, 1, id, counter);
    steps := steps + more;
  }

  /**
   Removing another method races a verification: the removal writes back the
   methods it read before, the recorded counter is lost, and the same code
   is accepted again.
   */
  lemma StaleRemovalAllowsReplay(id: string, counter: int) returns (steps: seq<Step>)
    ensures After(steps).Some? && AllEditOther(steps)
    ensures After(steps).value.log == [Success(id, counter), Success(id, counter)]
  {
    var totp, mail := Method(TOTP, true, 7, None), Method("email", true, 8, None);
    steps := ReadBeforeVerify(id, counter, totp, mail);
    AfterStep(steps, RemoveWrites(0));
    steps := steps + [RemoveWrites(0)];
    assert Without([totp, mail], "email")[0] == totp;
    var more := VerifyOnce(steps, 2, id, counter);
    steps := steps + more;
  }

  // ── A call that runs alone ────────────

  /** The first confirmed TOTP method, if there is one. */
  predicate IsFirstTotp(methods: seq<Method>, i: nat) {
    i < |methods| && methods[i].name == TOTP && methods[i].confirmed
    && forall j :: 0 <= j < i ==> !(methods[j].name == TOTP && methods[j].confirmed)
  }

  lemma {:induction false} FindsFirst(methods: seq<Method>)
    ensures FindTotp(methods).Some? ==>
      exists i: nat :: IsFirstTotp(methods, i) && methods[i] == FindTotp(methods).value
    ensures FindTotp(methods).None? ==>
      forall i :: 0 <= i < |methods| ==> !(methods[i].name == TOTP && methods[i].confirmed)
  {
    if methods != [] && !IsTotp(methods[0]) {
      FindsFirst(methods[1..]);
      if FindTotp(methods).Some? {
        var i: nat :| IsFirstTotp(methods[1..], i) && methods[1..][i] == FindTotp(methods).value;
        assert forall j :: 1 <= j < i + 1 ==> methods[j] == methods[1..][j - 1];
        assert IsFirstTotp(methods, i + 1);
      } else {
        assert forall i :: 1 <= i < |methods| ==> methods[i] == methods[1..][i - 1];
      }
    } else if methods != [] {
      assert IsFirstTotp(methods, 0);
    }
  }

  predicate RecordsOne(before: Method, counter: int, after: Method) {
    after == if before.name == TOTP && before.confirmed then before.(lastUsed := Some(counter)) else before
  }

  /** The confirmed TOTP methods record the counter, the others are kept. */
  predicate Records(before: seq<Method>, counter: int, after: seq<Method>) {
    |after| == |before| && forall i :: 0 <= i < |before| ==> RecordsOne(before[i], counter, after[i])
  }

  lemma {:induction false} RecordedAt(methods: seq<Method>, counter: int)
    ensures Records(methods, counter, Recorded(methods, counter))
  {
    if methods != [] {
      RecordedAt(methods[1..], counter);
    }
  }

  /** The counter is accepted: a confirmed TOTP method exists, and the first one used none at or above it. */
  ghost predicate Accepts(methods: seq<Method>, counter: int) {
    exists i: nat :: IsFirstTotp(methods, i) && (methods[i].lastUsed.Some? ==> methods[i].lastUsed.value < counter)
  }

  ghost predicate AnyTotp(methods: seq<Method>) {
    exists i: nat :: IsFirstTotp(methods, i)
  }

  /**
   What a verification answers on this store and leaves of it: an accepted
   counter is recorded and clears the failed attempts, a wrong or used one
   counts a failed attempt, and without a TOTP method nothing is written.
   */
  ghost predicate VerifiesBy(before: map<string, Row>, id: string, matched: Option<int>, allowed: bool, answer: Caller,
                             after: map<string, Row>) {
    if id !in before || !allowed || !AnyTotp(before[id].methods) then answer == Thrown(id) && after == before
    else
      var row := before[id];
      && id in after && after == before[id := after[id]] && after[id].version == row.version + 1
      && if matched.Some? && Accepts(row.methods, matched.value)
         then answer == Verified(id, matched.value) && Records(row.methods, matched.value, after[id].methods)
              && after[id].failedAttempts == 0
         else answer == Thrown(id) && after[id].methods == row.methods
              && after[id].failedAttempts == row.failedAttempts + 1
  }

  lemma AcceptsIff(methods: seq<Method>, counter: int)
    ensures Accepts(methods, counter) <==> FindTotp(methods).Some? && !IsReplay(FindTotp(methods).value, counter)
    ensures AnyTotp(methods) <==> FindTotp(methods).Some?
  {
    FindsFirst(methods);
    if FindTotp(methods).Some? {
      var i: nat :| IsFirstTotp(methods, i) && methods[i] == FindTotp(methods).value;
      forall j: nat | IsFirstTotp(methods, j) ensures j == i {
      }
    }
  }

  /** The steps of a verification, as far as it goes. */
  function VerifyCall(pid: nat, id: string, matched: Option<int>, allowed: bool, more: seq<Step>): seq<Step> {
    [StartVerify(pid, id, matched), VerifyReads(pid, allowed)] + more
  }

  /** Whatever happened before, this is what a verification that then runs alone answers and leaves. */
  lemma VerifyAlone(steps: seq<Step>, pid: nat, id: string, matched: Option<int>, allowed: bool)
    returns (more: seq<Step>)
    requires After(steps).Some? && pid !in After(steps).value.callers
    ensures more in {[], [CountsFailure(pid)], [CasReads(pid), CasWrites(pid)]}
    ensures var s := After(steps).value;
            var t := After(steps + VerifyCall(pid, id, matched, allowed, more));
            && t.Some? && pid in t.value.callers
            && VerifiesBy(s.store, id, matched, allowed, t.value.callers[pid], t.value.store)
  {
    var s := After(steps).value;
    var begun := steps + [StartVerify(pid, id, matched)];
    var read := begun + [VerifyReads(pid, allowed)];
    AfterStep(steps, StartVerify(pid, id, matched));
    AfterStep(begun, VerifyReads(pid, allowed));
    more := [];
    assert read == steps + VerifyCall(pid, id, matched, allowed, []);
    if id in s.store && allowed {
      var methods := s.store[id].methods;
      AcceptsIff(methods, matched.Or(0));
      if FindTotp(methods).Some? {
        if matched.Some? && Accepts(methods, matched.value) {
          var cas := read + [CasReads(pid)];
          more := [CasReads(pid), CasWrites(pid)];
          AfterStep(read, CasReads(pid));
          AfterStep(cas, CasWrites(pid));
          RecordedAt(methods, matched.value);
          assert cas + [CasWrites(pid)] == steps + VerifyCall(pid, id, matched, allowed, more);
        } else {
          more := [CountsFailure(pid)];
          AfterStep(read, CountsFailure(pid));
          assert read + [CountsFailure(pid)] == steps + VerifyCall(pid, id, matched, allowed, more);
        }
      }
    }
  }

  /** The same once the first check has passed: a counter used meanwhile counts as a failed attempt. */
  ghost predicate RecordsBy(before: map<string, Row>, id: string, counter: int, answer: Caller,
                            after: map<string, Row>) {
    if id !in before then answer == Thrown(id) && after == before
    else
      var row := before[id];
      && id in after && after == before[id := after[id]] && after[id].version == row.version + 1
      && if AnyTotp(row.methods) && !Accepts(row.methods, counter)
         then answer == Thrown(id) && after[id].methods == row.methods
              && after[id].failedAttempts == row.failedAttempts + 1
         else answer == Verified(id, counter) && Records(row.methods, counter, after[id].methods)
              && after[id].failedAttempts == 0
  }

  /**
   A verification that finds the row written since it read it decides once more
   by the row as it then is; overtaken again, it throws and writes nothing.
   */
  lemma VerifyOvertaken(steps: seq<Step>, pid: nat) returns (more: seq<Step>)
    requires After(steps).Some? && pid in After(steps).value.callers && After(steps).value.callers[pid].Decided?
    requires !Unchanged(After(steps).value, After(steps).value.callers[pid].id, After(steps).value.callers[pid].seen)
    ensures more in {[], [CasReads(pid)], [CasReads(pid), CountsFailure(pid)], [CasReads(pid), CasWrites(pid)]}
    ensures var s := After(steps).value;
            var c := s.callers[pid];
            var t := After(steps + [CasWrites(pid)] + more);
            && t.Some? && pid in t.value.callers
            && if c.attempt == 0 then RecordsBy(s.store, c.id, c.counter, t.value.callers[pid], t.value.store)
               else t.value.callers[pid] == Thrown(c.id) && t.value.store == s.store
  {
    var s := After(steps).value;
    var c := s.callers[pid];
    var failed := steps + [CasWrites(pid)];
    AfterStep(steps, CasWrites(pid));
    more := [];
    assert failed + [] == failed;
    if c.attempt == 0 {
      var read := failed + [CasReads(pid)];
      AfterStep(failed, CasReads(pid));
      more := [CasReads(pid)];
      if c.id in s.store {
        AcceptsIff(s.store[c.id].methods, c.counter);
        if AnyTotp(s.store[c.id].methods) && !Accepts(s.store[c.id].methods, c.counter) {
          AfterStep(read, CountsFailure(pid));
          more := [CasReads(pid), CountsFailure(pid)];
          assert failed + more == read + [CountsFailure(pid)];
        } else {
          AfterStep(read, CasWrites(pid));
          RecordedAt(s.store[c.id].methods, c.counter);
          more := [CasReads(pid), CasWrites(pid)];
          assert failed + more == read + [CasWrites(pid)];
        }
      }
    }
  }

  /** Written again between its second read and write, a verification throws. */
  lemma VerifyOvertakenTwice(steps: seq<Step>, pid: nat, failedAttempts: nat)
    requires After(steps).Some? && pid in After(steps).value.callers
    requires var s := After(steps).value;
             var c := s.callers[pid];
             && c.Decided? && c.attempt == 0 && !Unchanged(s, c.id, c.seen)
             && c.id in s.store && !Holds(s.store[c.id].methods, c.counter)
    ensures var id := After(steps).value.callers[pid].id;
            var t := After(steps + [CasWrites(pid), CasReads(pid), AccountWrite(id, failedAttempts), CasWrites(pid)]);
            t.Some? && pid in t.value.callers && t.value.callers[pid] == Thrown(id)
  {
    var c := After(steps).value.callers[pid];
    var failed := steps + [CasWrites(pid)];
    var read := failed + [CasReads(pid)];
    var written := read + [AccountWrite(c.id, failedAttempts)];
    AfterStep(steps, CasWrites(pid));
    AfterStep(failed, CasReads(pid));
    AfterStep(read, AccountWrite(c.id, failedAttempts));
    AfterStep(written, CasWrites(pid));
    assert written + [CasWrites(pid)]
        == steps + [CasWrites(pid), CasReads(pid), AccountWrite(c.id, failedAttempts), CasWrites(pid)];
  }

  lemma {:induction false} WithoutAll(methods: seq<Method>, name: string, m: Method)
    ensures multiset(Without(methods, name))[m] == if m.name == name then 0 else multiset(methods)[m]
  {
    if methods != [] {
      WithoutAll(methods[1..], name, m);
      assert methods == [methods[0]] + methods[1..];
    }
  }

  lemma RemovalLeaves(steps: seq<Step>, pid: nat, id: string, name: string)
    requires After(steps).Some? && pid !in After(steps).value.callers && id in After(steps).value.store
    ensures var s := After(steps).value;
            var row := s.store[id];
            var t := After(steps + [StartRemove(pid, id, name), RemoveWrites(pid)]);
            t.Some? && t.value.store
              == s.store[id := Row(row.version + 1, Without(row.methods, name), row.failedAttempts)]
  {
    var begun := steps + [StartRemove(pid, id, name)];
    AfterStep(steps, StartRemove(pid, id, name));
    AfterStep(begun, RemoveWrites(pid));
    assert begun + [RemoveWrites(pid)] == steps + [StartRemove(pid, id, name), RemoveWrites(pid)];
  }

  /** A removal that runs alone drops exactly the methods of that name, whatever they hold. */
  lemma RemoveAlone(steps: seq<Step>, pid: nat, id: string, name: string, m: Method)
    requires After(steps).Some? && pid !in After(steps).value.callers && id in After(steps).value.store
    ensures var s := After(steps).value;
            var t := After(steps + [StartRemove(pid, id, name), RemoveWrites(pid)]);
            && t.Some? && t.value.store.Keys == s.store.Keys
            && t.value.store == s.store[id := t.value.store[id]]
            && t.value.store[id].failedAttempts == s.store[id].failedAttempts
            && multiset(t.value.store[id].methods)[m]
              == if m.name == name then 0 else multiset(s.store[id].methods)[m]
  {
    RemovalLeaves(steps, pid, id, name);
    WithoutAll(After(steps).value.store[id].methods, name, m);
  }

  // ── The other edits ────────────

  /** The row is rewritten a version later, and no caller moves. */
  predicate Rewrites(before: State, after: Option<State>, id: string) {
    && after.Some? && id in before.store && id in after.value.store
    && after.value.store == before.store[id := after.value.store[id]]
    && after.value.store[id].version == before.store[id].version + 1 && after.value.callers == before.callers
  }

  /** Adding a method replaces the one of its name and keeps the others. */
  lemma AddAlone(steps: seq<Step>, id: string, added: Method, m: Method)
    requires After(steps).Some? && id in After(steps).value.store
    ensures var s := After(steps).value;
            var t := After(steps + [AddsMethod(id, added)]);
            && Rewrites(s, t, id) && t.value.store[id].failedAttempts == s.store[id].failedAttempts
            && multiset(t.value.store[id].methods)[m]
              == if m.name == added.name then (if m == added then 1 else 0) else multiset(s.store[id].methods)[m]
  {
    AfterStep(steps, AddsMethod(id, added));
    WithoutAll(After(steps).value.store[id].methods, added.name, m);
  }

  lemma {:induction false} ConfirmedAt(methods: seq<Method>, name: string)
    ensures |Confirmed(methods, name)| == |methods|
    ensures forall i :: 0 <= i < |methods| ==> Confirms(methods[i], name, Confirmed(methods, name)[i])
  {
    if methods != [] {
      ConfirmedAt(methods[1..], name);
    }
  }

  predicate Confirms(before: Method, name: string, after: Method) {
    after == if before.name == name then before.(confirmed := true) else before
  }

  /** Confirming is possible exactly for a stored method, marks those of the name and keeps everything else. */
  lemma ConfirmAlone(steps: seq<Step>, id: string, name: string)
    requires After(steps).Some? && id in After(steps).value.store
    ensures var s := After(steps).value;
            var t := After(steps + [ConfirmsMethod(id, name)]);
            && (t.Some? <==> exists m :: m in s.store[id].methods && m.name == name)
            && (t.Some? ==>
                  && Rewrites(s, t, id) && t.value.store[id].failedAttempts == s.store[id].failedAttempts
                  && |t.value.store[id].methods| == |s.store[id].methods|
                  && forall i :: 0 <= i < |s.store[id].methods| ==>
                       Confirms(s.store[id].methods[i], name, t.value.store[id].methods[i]))
  {
    AfterStep(steps, ConfirmsMethod(id, name));
    ConfirmedAt(After(steps).value.store[id].methods, name);
  }
}
