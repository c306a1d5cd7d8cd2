/** The request limiter: slots, a bounded queue of waiters, and abort signals. */
module RequestLimiter {
  import opened Wrappers

  type RequestId = nat
  type Signal = nat

  datatype Waiter = Waiter(id: RequestId, signal: Signal)

  datatype Outcome = Granted | RejectedAborted | RejectedFull

  /** What has happened to the requests so far; the program itself keeps only the active count and the waiters. */
  datatype Ledger = Ledger(
    arrived: seq<RequestId>, granted: seq<RequestId>, holders: set<RequestId>,
    settled: map<RequestId, Outcome>, aborted: set<Signal>)

  datatype State = State(maxConcurrent: nat, maxQueued: nat, active: int, waiters: seq<Waiter>, ledger: Ledger)

  datatype Op = Acquire(id: RequestId, signal: Signal) | Release(id: RequestId)
              | Abort(signal: Signal) | OnAbort(waiter: Waiter)

  function Initial(maxConcurrent: nat, maxQueued: nat): State {
    State(maxConcurrent, maxQueued, 0, [], Ledger([], [], {}, map[], {}))
  }

  function Settle(l: Ledger, id: RequestId, o: Outcome): Ledger { l.(settled := l.settled[id := o]) }

  function Grant(l: Ledger, id: RequestId): Ledger {
    Settle(l, id, Granted).(granted := l.granted + [id], holders := l.holders + {id})
  }

  function Acquired(s: State, id: RequestId, signal: Signal): State {
    if signal in s.ledger.aborted then s.(ledger := Settle(s.ledger, id, RejectedAborted))
    else
      var arrived := s.ledger.(arrived := s.ledger.arrived + [id]);
      if s.active < s.maxConcurrent then s.(active := s.active + 1, ledger := Grant(arrived, id))
      else if |s.waiters| >= s.maxQueued then s.(ledger := Settle(s.ledger, id, RejectedFull))
      else s.(waiters := s.waiters + [Waiter(id, signal)], ledger := arrived)
  }

  /** Passes a freed slot on: to the first waiter whose signal is not aborted, rejecting those before it. */
  function PassOn(s: State): State
    decreases |s.waiters|
  {
    if s.waiters == [] then s.(active := s.active - 1)
    else
      var w, rest := s.waiters[0], s.(waiters := s.waiters[1..]);
      if w.signal in s.ledger.aborted then PassOn(rest.(ledger := Settle(s.ledger, w.id, RejectedAborted)))
      else rest.(ledger := Grant(s.ledger, w.id))
  }

  function Released(s: State, id: RequestId): State {
    PassOn(s.(ledger := s.ledger.(holders := s.ledger.holders - {id})))
  }

  function Remove(ws: seq<Waiter>, w: Waiter): seq<Waiter> {
    if ws == [] then [] else if ws[0] == w then ws[1..] else [ws[0]] + Remove(ws[1..], w)
  }

  function OnAborted(s: State, w: Waiter): State {
    s.(waiters := Remove(s.waiters, w), ledger := Settle(s.ledger, w.id, RejectedAborted))
  }

  function Next(s: State, op: Op): State {
    match op
    case Acquire(id, signal) => Acquired(s, id, signal)
    case Release(id) => Released(s, id)
    case Abort(signal) => s.(ledger := s.ledger.(aborted := s.ledger.aborted + {signal}))
    case OnAbort(w) => OnAborted(s, w)
  }

  /** What the callers and the event loop keep to: each call makes a new promise, each grant is released once,
      and an abort listener runs only after its signal and only while it is registered. */
  predicate Legal(s: State, op: Op) {
    match op
    case Acquire(id, _) => id !in s.ledger.settled && forall w :: w in s.waiters ==> w.id != id
    case Release(id) => id in s.ledger.holders
    case Abort(_) => true
    case OnAbort(w) => w in s.waiters && w.signal in s.ledger.aborted
  }

  // ---------- The invariant ----------

  function Ids(ws: seq<Waiter>): seq<RequestId> { if ws == [] then [] else [ws[0].id] + Ids(ws[1..]) }

  predicate IsRejected(l: Ledger, id: RequestId) { id in l.settled && l.settled[id] != Granted }

  /** The requests in order, without the rejected ones. */
  function Live(ids: seq<RequestId>, l: Ledger): seq<RequestId> {
    if ids == [] then [] else (if IsRejected(l, ids[0]) then [] else [ids[0]]) + Live(ids[1..], l)
  }

  /** Nobody waits while a slot is free, the bounds hold, and grants follow arrival order: the requests that
      were not rejected are, in the order they arrived, those granted and then those still waiting. */
  ghost predicate Inv(s: State) {
    && 0 <= s.active <= s.maxConcurrent && |s.ledger.holders| == s.active
    && (s.waiters != [] ==> s.active == s.maxConcurrent)
    && |s.waiters| <= s.maxQueued
    && Live(s.ledger.arrived, s.ledger) == s.ledger.granted + Ids(s.waiters)
    && Accounts(s)
  }

  /** Who is who: waiters are unsettled and distinct, holders were granted, and what was granted is settled so. */
  ghost predicate Accounts(s: State) {
    && Distinct(s.waiters)
    && (forall w :: w in s.waiters ==> w.id !in s.ledger.settled)
    && (forall id :: id in s.ledger.holders ==> id in s.ledger.settled && s.ledger.settled[id] == Granted)
    && (forall id :: id in s.ledger.granted ==> id in s.ledger.settled && s.ledger.settled[id] == Granted)
    && (forall id :: id in s.ledger.arrived ==> id in s.ledger.settled || id in Ids(s.waiters))
  }

  function Without(ids: seq<RequestId>, id: RequestId): seq<RequestId> {
    if ids == [] then [] else (if ids[0] == id then [] else [ids[0]]) + Without(ids[1..], id)
  }

  lemma {:induction false} WithoutConcat(a: seq<RequestId>, b: seq<RequestId>, id: RequestId)
    ensures Without(a + b, id) == Without(a, id) + Without(b, id)
  {
    if a == [] {
      assert a + b == b;
    } else {
      assert (a + b)[1..] == a[1..] + b;
      WithoutConcat(a[1..], b, id);
    }
  }

  lemma {:induction false} WithoutAbsent(ids: seq<RequestId>, id: RequestId)
    requires id !in ids
    ensures Without(ids, id) == ids
  {
    if ids != [] {
      WithoutAbsent(ids[1..], id);
      assert ids == [ids[0]] + ids[1..];
    }
  }

  lemma {:induction false} IdsMembers(ws: seq<Waiter>)
    ensures |Ids(ws)| == |ws| && forall i :: 0 <= i < |ws| ==> Ids(ws)[i] == ws[i].id
  {
    if ws != [] { IdsMembers(ws[1..]); }
  }

  lemma {:induction false} IdsAppend(ws: seq<Waiter>, w: Waiter)
    ensures Ids(ws + [w]) == Ids(ws) + [w.id]
  {
    if ws != [] {
      assert (ws + [w])[1..] == ws[1..] + [w];
      IdsAppend(ws[1..], w);
    }
  }

  ghost predicate Distinct(ws: seq<Waiter>) { forall i, j :: 0 <= i < j < |ws| ==> ws[i].id != ws[j].id }

  lemma DistinctTail(ws: seq<Waiter>)
    requires Distinct(ws) && ws != []
    ensures Distinct(ws[1..]) && forall x :: x in ws[1..] ==> x.id != ws[0].id
  {
    assert forall i :: 0 <= i < |ws[1..]| ==> ws[1..][i] == ws[i + 1];
  }

  lemma DistinctCons(w: Waiter, ws: seq<Waiter>)
    requires Distinct(ws) && forall x :: x in ws ==> x.id != w.id
    ensures Distinct([w] + ws)
  {
  }

  /** Distinct waiters: removing one removes its identifier. */
  lemma {:induction false} IdsRemove(ws: seq<Waiter>, w: Waiter)
    requires w in ws && Distinct(ws)
    ensures Ids(Remove(ws, w)) == Without(Ids(ws), w.id)
    ensures |Remove(ws, w)| == |ws| - 1 && Distinct(Remove(ws, w))
    ensures forall x :: x in Remove(ws, w) <==> x in ws && x != w
    ensures forall x :: x in Remove(ws, w) ==> x.id != w.id
  {
    hide Distinct;
    DistinctTail(ws);
    assert ws == [ws[0]] + ws[1..];
    if ws[0] == w {
      NotAmongIds(ws[1..], w.id);
      WithoutAbsent(Ids(ws[1..]), w.id);
    } else {
      assert w in ws[1..];
      IdsRemove(ws[1..], w);
      DistinctCons(ws[0], Remove(ws[1..], w));
    }
  }

  lemma NotAmongIds(ws: seq<Waiter>, id: RequestId)
    requires forall x :: x in ws ==> x.id != id
    ensures id !in Ids(ws)
  {
    IdsMembers(ws);
  }

  lemma {:induction false} LiveAppend(ids: seq<RequestId>, id: RequestId, l: Ledger)
    requires !IsRejected(l, id)
    ensures Live(ids + [id], l) == Live(ids, l) + [id]
  {
    if ids != [] {
      assert (ids + [id])[1..] == ids[1..] + [id];
      LiveAppend(ids[1..], id, l);
    }
  }

  /** Only rejections matter to what is live. */
  lemma {:induction false} LiveSame(ids: seq<RequestId>, l: Ledger, m: Ledger)
    requires forall id :: id in ids ==> (IsRejected(l, id) <==> IsRejected(m, id))
    ensures Live(ids, l) == Live(ids, m)
  {
    if ids != [] { LiveSame(ids[1..], l, m); }
  }

  lemma {:induction false} LiveReject(ids: seq<RequestId>, l: Ledger, id: RequestId, o: Outcome)
    requires id !in l.settled && o != Granted
    ensures Live(ids, Settle(l, id, o)) == Without(Live(ids, l), id)
  {
    if ids != [] {
      LiveReject(ids[1..], l, id, o);
      var head := if IsRejected(l, ids[0]) then [] else [ids[0]];
      WithoutConcat(head, Live(ids[1..], l), id);
      assert Live(ids, l) == head + Live(ids[1..], l);
      assert Without(head, id) == if IsRejected(Settle(l, id, o), ids[0]) then [] else [ids[0]];
    }
  }

  // ---------- Steps keep the invariant ----------

  lemma SettledIsOld(s: State, id: RequestId)
    requires Accounts(s) && id !in s.ledger.settled && forall w :: w in s.waiters ==> w.id != id
    ensures id !in s.ledger.arrived && id !in s.ledger.granted && id !in s.ledger.holders
  {
    IdsMembers(s.waiters);
  }

  lemma RejectedNewcomer(s: State, id: RequestId, o: Outcome)
    requires Inv(s) && Legal(s, Acquire(id, 0)) && o != Granted
    ensures Inv(s.(ledger := Settle(s.ledger, id, o)))
  {
    hide Ids, Live, Distinct;
    SettledIsOld(s, id);
    LiveSame(s.ledger.arrived, s.ledger, Settle(s.ledger, id, o));
  }

  lemma GrantedNewcomer(s: State, id: RequestId)
    requires Inv(s) && Legal(s, Acquire(id, 0)) && s.active < s.maxConcurrent
    ensures Inv(s.(active := s.active + 1, ledger := Grant(s.ledger.(arrived := s.ledger.arrived + [id]), id)))
  {
    hide Live;
    var l := Grant(s.ledger.(arrived := s.ledger.arrived + [id]), id);
    SettledIsOld(s, id);
    LiveSame(s.ledger.arrived, s.ledger, l);
    LiveAppend(s.ledger.arrived, id, l);
    assert Ids(s.waiters) == [] && l.granted + [] == l.granted && s.ledger.granted + [] == s.ledger.granted;
    assert |s.ledger.holders + {id}| == |s.ledger.holders| + 1;
  }

  lemma QueuedNewcomer(s: State, id: RequestId, signal: Signal)
    requires Inv(s) && Legal(s, Acquire(id, signal)) && s.active == s.maxConcurrent && |s.waiters| < s.maxQueued
    ensures Inv(s.(waiters := s.waiters + [Waiter(id, signal)], ledger :=
            s.ledger.(arrived := s.ledger.arrived + [id])))
  {
    hide Live, Ids;
    var l := s.ledger.(arrived := s.ledger.arrived + [id]);
    SettledIsOld(s, id);
    LiveSame(s.ledger.arrived, s.ledger, l);
    LiveAppend(s.ledger.arrived, id, l);
    IdsAppend(s.waiters, Waiter(id, signal));
    IdsMembers(s.waiters);
    assert s.ledger.granted + (Ids(s.waiters) + [id]) == s.ledger.granted + Ids(s.waiters) + [id];
  }

  lemma AcquireKeepsInv(s: State, id: RequestId, signal: Signal)
    requires Inv(s) && Legal(s, Acquire(id, signal))
    ensures Inv(Acquired(s, id, signal))
  {
    hide Inv;
    ActiveBound(s);
    if signal in s.ledger.aborted {
      RejectedNewcomer(s, id, RejectedAborted);
    } else if s.active < s.maxConcurrent {
      GrantedNewcomer(s, id);
    } else if |s.waiters| >= s.maxQueued {
      RejectedNewcomer(s, id, RejectedFull);
    } else {
      QueuedNewcomer(s, id, signal);
    }
  }

  lemma ActiveBound(s: State)
    requires Inv(s)
    ensures s.active <= s.maxConcurrent
  {
  }

  /** The state in which one slot is free and has not been passed on. */
  ghost predicate Freed(s: State) {
    && 1 <= s.active <= s.maxConcurrent && |s.ledger.holders| == s.active - 1
    && (s.waiters != [] ==> s.active == s.maxConcurrent)
    && |s.waiters| <= s.maxQueued
    && Live(s.ledger.arrived, s.ledger) == s.ledger.granted + Ids(s.waiters)
    && Accounts(s)
  }

  lemma WaitersSplit(s: State)
    requires Accounts(s) && s.waiters != []
    ensures var w, rest := s.waiters[0], s.waiters[1..];
            && Ids(s.waiters) == [w.id] + Ids(rest) && w.id !in Ids(rest)
            && w.id !in s.ledger.settled && w.id !in s.ledger.granted && w.id !in s.ledger.holders
  {
    var rest := s.waiters[1..];
    IdsMembers(rest);
    assert s.waiters[0] in s.waiters;
    assert forall i :: 0 <= i < |rest| ==> rest[i] == s.waiters[i + 1];
  }

  /** Settling the first waiter, either way, leaves the accounts in order. */
  lemma FirstSettled(s: State, l: Ledger)
    requires Accounts(s) && s.waiters != []
    requires l.settled.Keys == s.ledger.settled.Keys + {s.waiters[0].id}
    requires forall id :: id in s.ledger.settled ==> l.settled[id] == s.ledger.settled[id]
    requires l.arrived == s.ledger.arrived
    requires (l.granted == s.ledger.granted && l.holders == s.ledger.holders) ||
             (l.settled[s.waiters[0].id] == Granted && l.granted == s.ledger.granted + [s.waiters[0].id]
              && l.holders == s.ledger.holders + {s.waiters[0].id})
    ensures Accounts(s.(waiters := s.waiters[1..], ledger := l))
  {
    hide Ids;
    WaitersSplit(s);
    var rest := s.waiters[1..];
    IdsMembers(rest);
    assert forall i :: 0 <= i < |rest| ==> rest[i] == s.waiters[i + 1];
  }

  lemma WithoutHead(id: RequestId, b: seq<RequestId>)
    ensures Without([id] + b, id) == Without(b, id)
  {
    assert ([id] + b)[1..] == b;
  }

  lemma WithoutMiddle(a: seq<RequestId>, id: RequestId, b: seq<RequestId>)
    requires id !in a && id !in b
    ensures Without(a + ([id] + b), id) == a + b
  {
    hide Without;
    WithoutConcat(a, [id] + b, id);
    WithoutHead(id, b);
    WithoutAbsent(a, id);
    WithoutAbsent(b, id);
  }

  lemma RejectFirstLive(s: State)
    requires Freed(s) && s.waiters != []
    ensures var l := Settle(s.ledger, s.waiters[0].id, RejectedAborted);
            Live(l.arrived, l) == l.granted + Ids(s.waiters[1..])
  {
    hide Accounts, Live, Ids, Without;
    var id, rest := s.waiters[0].id, Ids(s.waiters[1..]);
    WaitersSplit(s);
    LiveReject(s.ledger.arrived, s.ledger, id, RejectedAborted);
    WithoutMiddle(s.ledger.granted, id, rest);
  }

  lemma RejectFirst(s: State)
    requires Freed(s) && s.waiters != []
    ensures Freed(s.(waiters := s.waiters[1..], ledger := Settle(s.ledger, s.waiters[0].id, RejectedAborted)))
  {
    hide Accounts, Live, Ids;
    RejectFirstLive(s);
    WaitersSplit(s);
    FirstSettled(s, Settle(s.ledger, s.waiters[0].id, RejectedAborted));
  }

  lemma GrantLive(l: Ledger, id: RequestId, ids: seq<RequestId>)
    requires id !in l.settled
    ensures Live(ids, Grant(l, id)) == Live(ids, l)
  {
    LiveSame(ids, l, Grant(l, id));
  }

  lemma GrantFirst(s: State)
    requires Freed(s) && s.waiters != []
    ensures Inv(s.(waiters := s.waiters[1..], ledger := Grant(s.ledger, s.waiters[0].id)))
  {
    hide Accounts, Live, Ids;
    var id, rest := s.waiters[0].id, Ids(s.waiters[1..]);
    WaitersSplit(s);
    GrantLive(s.ledger, id, s.ledger.arrived);
    FirstSettled(s, Grant(s.ledger, id));
    Regroup(s.ledger.granted, id, rest);
    assert |s.ledger.holders + {id}| == |s.ledger.holders| + 1;
  }

  lemma Regroup(a: seq<RequestId>, id: RequestId, b: seq<RequestId>)
    ensures a + ([id] + b) == (a + [id]) + b
  {
  }

  lemma {:induction false} PassOnKeepsInv(s: State)
    requires Freed(s)
    ensures Inv(PassOn(s))
    decreases |s.waiters|
  {
    hide Freed, Inv;
    if s.waiters == [] {
      FreeSlot(s);
    } else if s.waiters[0].signal in s.ledger.aborted {
      RejectFirst(s);
      PassOnKeepsInv(s.(waiters := s.waiters[1..], ledger := Settle(s.ledger, s.waiters[0].id, RejectedAborted)));
    } else {
      GrantFirst(s);
    }
  }

  lemma FreeSlot(s: State)
    requires Freed(s) && s.waiters == []
    ensures Inv(PassOn(s))
  {
  }

  lemma RemovedAccounts(s: State, w: Waiter)
    requires Accounts(s) && w in s.waiters
    ensures Accounts(OnAborted(s, w)) && w.id !in s.ledger.granted && w.id !in s.ledger.settled
  {
    hide Ids;
    IdsRemove(s.waiters, w);
    IdsMembers(s.waiters);
    IdsMembers(Remove(s.waiters, w));
    var t := OnAborted(s, w);
    forall id | id in t.ledger.arrived ensures id in t.ledger.settled || id in Ids(t.waiters) {
      if id !in t.ledger.settled {
        assert id in Ids(s.waiters);
        var i :| 0 <= i < |s.waiters| && s.waiters[i].id == id;
        assert s.waiters[i] in t.waiters;
        var j :| 0 <= j < |t.waiters| && t.waiters[j] == s.waiters[i];
        assert Ids(t.waiters)[j] == id;
      }
    }
  }

  lemma RemoveWaiter(s: State, w: Waiter)
    requires Accounts(s) && w in s.waiters
    ensures Ids(Remove(s.waiters, w)) == Without(Ids(s.waiters), w.id) && |Remove(s.waiters, w)| == |s.waiters| - 1
  {
    IdsRemove(s.waiters, w);
  }

  lemma OnAbortKeepsInv(s: State, w: Waiter)
    requires Inv(s) && Legal(s, OnAbort(w))
    ensures Inv(OnAborted(s, w))
  {
    hide Accounts, Live, Ids, Remove;
    RemovedAccounts(s, w);
    RemoveWaiter(s, w);
    LiveReject(s.ledger.arrived, s.ledger, w.id, RejectedAborted);
    WithoutConcat(s.ledger.granted, Ids(s.waiters), w.id);
    WithoutAbsent(s.ledger.granted, w.id);
  }

  /** Every step keeps the bounds, the slots and the order. */
  lemma NextKeepsInv(s: State, op: Op)
    requires Inv(s) && Legal(s, op)
    ensures Inv(Next(s, op))
  {
    match op
    case Acquire(id, signal) => AcquireKeepsInv(s, id, signal);
    case Release(id) => ReleaseKeepsInv(s, id);
    case OnAbort(w) => OnAbortKeepsInv(s, w);
    case Abort(signal) => LiveSame(s.ledger.arrived, s.ledger, Next(s, op).ledger);
  }

  lemma ReleaseKeepsInv(s: State, id: RequestId)
    requires Inv(s) && id in s.ledger.holders
    ensures Inv(Released(s, id))
  {
    var t := s.(ledger := s.ledger.(holders := s.ledger.holders - {id}));
    LiveSame(s.ledger.arrived, s.ledger, t.ledger);
    assert |t.ledger.holders| == |s.ledger.holders| - 1;
    PassOnKeepsInv(t);
  }

  function Run(s: State, ops: seq<Op>): State {
    if ops == [] then s else Next(Run(s, ops[..|ops| - 1]), ops[|ops| - 1])
  }

  predicate LegalRun(s: State, ops: seq<Op>) {
    ops == [] || (LegalRun(s, ops[..|ops| - 1]) && Legal(Run(s, ops[..|ops| - 1]), ops[|ops| - 1]))
  }

  /** Over every run: no more holders than slots, a bounded queue, waiting only when all slots are taken, and
      grants in order of arrival. */
  lemma {:induction false} RunKeepsInv(maxConcurrent: nat, maxQueued: nat, ops: seq<Op>)
    requires 1 <= maxConcurrent && LegalRun(Initial(maxConcurrent, maxQueued), ops)
    ensures Inv(Run(Initial(maxConcurrent, maxQueued), ops))
  {
    hide Inv, Legal;
    if ops == [] {
      InitialInv(maxConcurrent, maxQueued);
    } else {
      RunKeepsInv(maxConcurrent, maxQueued, ops[..|ops| - 1]);
      NextKeepsInv(Run(Initial(maxConcurrent, maxQueued), ops[..|ops| - 1]), ops[|ops| - 1]);
    }
  }

  lemma InitialInv(maxConcurrent: nat, maxQueued: nat)
    ensures Inv(Initial(maxConcurrent, maxQueued))
  {
  }

  // ---------- Settled once, and never idle ----------

  ghost predicate Extends(a: map<RequestId, Outcome>, b: map<RequestId, Outcome>) {
    forall id :: id in a ==> id in b && b[id] == a[id]
  }

  lemma {:induction false} PassOnSettlesOnce(s: State)
    requires Freed(s)
    ensures Extends(s.ledger.settled, PassOn(s).ledger.settled)
    decreases |s.waiters|
  {
    if s.waiters != [] {
      assert s.waiters[0] in s.waiters;
      if s.waiters[0].signal in s.ledger.aborted {
        RejectFirst(s);
        PassOnSettlesOnce(s.(waiters := s.waiters[1..], ledger := Settle(s.ledger, s.waiters[0].id, RejectedAborted)));
      }
    }
  }

  /** A settled request stays settled as it was. */
  lemma SettledOnce(s: State, op: Op)
    requires Inv(s) && Legal(s, op)
    ensures Extends(s.ledger.settled, Next(s, op).ledger.settled)
  {
    if op.Release? {
      var t := s.(ledger := s.ledger.(holders := s.ledger.holders - {op.id}));
      LiveSame(s.ledger.arrived, s.ledger, t.ledger);
      PassOnSettlesOnce(t);
    }
  }

  /** Where the first waiter stands whose signal is not aborted. */
  function FirstWilling(ws: seq<Waiter>, aborted: set<Signal>): (i: nat)
    ensures i <= |ws| && (i < |ws| ==> ws[i].signal !in aborted)
    ensures forall j :: 0 <= j < i ==> ws[j].signal in aborted
  {
    if ws == [] || ws[0].signal !in aborted then 0 else 1 + FirstWilling(ws[1..], aborted)
  }

  /** A freed slot goes to the first waiter that is not aborted; only when there is none does it stay free, and then
      nobody waits. */
  lemma {:induction false} SlotIsPassedOn(s: State)
    ensures var i := FirstWilling(s.waiters, s.ledger.aborted); var t := PassOn(s);
            if i < |s.waiters|
            then t.active == s.active && t.waiters == s.waiters[i + 1..] &&
                t.ledger.granted == s.ledger.granted + [s.waiters[i].id]
            else t.waiters == [] && t.ledger.granted == s.ledger.granted && t.active == s.active - 1
    decreases |s.waiters|
  {
    if s.waiters != [] && s.waiters[0].signal in s.ledger.aborted {
      SlotIsPassedOn(s.(waiters := s.waiters[1..], ledger := Settle(s.ledger, s.waiters[0].id, RejectedAborted)));
    }
  }

  /** What becomes of a request when it arrives: a request whose signal is aborted is rejected; otherwise it is granted
      exactly when fewer than the allowed requests hold a slot, refused exactly when all slots are held and the queue is
      full, and else waits last. Nothing else changes. */
  lemma AcquireDecides(s: State, id: RequestId, signal: Signal)
    requires Inv(s) && Legal(s, Acquire(id, signal))
    ensures ArrivalSettles(s, id, signal, Next(s, Acquire(id, signal)))
  {
    assert id !in s.ledger.holders;
    hide Accounts, Live, Ids;
    ArrivalStep(s, id, signal);
  }

  ghost predicate ArrivalSettles(s: State, id: RequestId, signal: Signal, t: State) {
    var aborted, full := signal in s.ledger.aborted, |s.ledger.holders| == s.maxConcurrent;
    && (aborted <==> id in t.ledger.settled && t.ledger.settled[id] == RejectedAborted)
    && (!aborted && !full <==> id in t.ledger.holders)
    && (id in t.ledger.holders ==> id in t.ledger.settled && t.ledger.settled[id] == Granted)
    && (!aborted && full && |s.waiters| == s.maxQueued <==>
          id in t.ledger.settled && t.ledger.settled[id] == RejectedFull)
    && t.waiters == (if !aborted && full && |s.waiters| < s.maxQueued then s.waiters + [Waiter(id, signal)]
                     else s.waiters)
    && t.ledger.holders - {id} == s.ledger.holders && t.ledger.settled - {id} == s.ledger.settled
  }

  lemma ArrivalStep(s: State, id: RequestId, signal: Signal)
    requires s.active == |s.ledger.holders| <= s.maxConcurrent && |s.waiters| <= s.maxQueued
    requires id !in s.ledger.settled && id !in s.ledger.holders
    ensures ArrivalSettles(s, id, signal, Acquired(s, id, signal))
  {
    assert s.ledger.settled - {id} == s.ledger.settled;
  }

  lemma {:induction false} RemovesOne(ws: seq<Waiter>, w: Waiter)
    requires Distinct(ws)
    ensures forall x :: x in Remove(ws, w) <==> x in ws && x != w
  {
    if ws != [] {
      DistinctTail(ws);
      RemovesOne(ws[1..], w);
      assert ws == [ws[0]] + ws[1..];
    }
  }

  /** What an abort does: the waiter is rejected and leaves the queue; everyone else stays. */
  lemma AbortDecides(s: State, w: Waiter)
    requires Inv(s) && Legal(s, OnAbort(w))
    ensures var t := Next(s, OnAbort(w));
            && t.ledger.settled == s.ledger.settled[w.id := RejectedAborted]
            && (forall x :: x in t.waiters <==> x in s.waiters && x != w)
            && t.active == s.active && t.ledger.holders == s.ledger.holders
  {
    RemovesOne(s.waiters, w);
  }

  /** The waiters that a freed slot comes past: those in front of the first willing one, and that one. */
  predicate Asked(s: State, id: RequestId) {
    exists k :: 0 <= k < |s.waiters| && k <= FirstWilling(s.waiters, s.ledger.aborted) && s.waiters[k].id == id
  }

  /** Who is not asked keeps the outcome it has, or has none. */
  lemma {:induction false} ReleaseSpares(s: State, id: RequestId)
    requires !Asked(s, id)
    ensures var t := PassOn(s);
            (id in t.ledger.settled <==> id in s.ledger.settled) &&
            (id in s.ledger.settled ==> t.ledger.settled[id] == s.ledger.settled[id])
    decreases |s.waiters|
  {
    if s.waiters != [] {
      assert s.waiters[0].id != id;
      if s.waiters[0].signal in s.ledger.aborted {
        var rest := s.(waiters := s.waiters[1..], ledger := Settle(s.ledger, s.waiters[0].id, RejectedAborted));
        assert forall k :: 0 <= k < |rest.waiters| ==> rest.waiters[k] == s.waiters[k + 1];
        ReleaseSpares(rest, id);
      }
    }
  }

  /** Of those asked, the first willing one is granted the slot and the ones before it, all aborted, are rejected. */
  lemma {:induction false} ReleaseSettles(s: State, k: nat)
    requires Distinct(s.waiters) && k < |s.waiters| && k <= FirstWilling(s.waiters, s.ledger.aborted)
    ensures var t, id := PassOn(s), s.waiters[k].id;
            id in t.ledger.settled &&
            t.ledger.settled[id] == (if k < FirstWilling(s.waiters, s.ledger.aborted) then RejectedAborted else Granted)
    decreases |s.waiters|
  {
    if s.waiters[0].signal in s.ledger.aborted {
      var id := s.waiters[0].id;
      var rest := s.(waiters := s.waiters[1..], ledger := Settle(s.ledger, id, RejectedAborted));
      assert forall j :: 0 <= j < |rest.waiters| ==> rest.waiters[j] == s.waiters[j + 1];
      if k > 0 {
        DistinctTail(s.waiters);
        ReleaseSettles(rest, k - 1);
      } else {
        NotAgain(s.waiters, rest);
        ReleaseSpares(rest, id);
      }
    }
  }

  lemma NotAgain(ws: seq<Waiter>, rest: State)
    requires Distinct(ws) && ws != [] && rest.waiters == ws[1..]
    ensures !Asked(rest, ws[0].id)
  {
    DistinctTail(ws);
  }

  // ---------- The class ----------

  class RequestLimiter {
    const maxConcurrent: nat
    const maxQueued: nat
    var active: int
    var waiters: seq<Waiter>
    ghost var ledger: Ledger

    ghost function Model(): State
      reads this
    {
      State(maxConcurrent, maxQueued, active, waiters, ledger)
    }

    constructor (maxConcurrent: nat, maxQueued: nat)
      requires 1 <= maxConcurrent
      ensures this.maxConcurrent == maxConcurrent && this.maxQueued == maxQueued && active == 0 && waiters == []
      ensures Model() == Initial(maxConcurrent, maxQueued) && Inv(Model())
    {
      this.maxConcurrent, this.maxQueued := maxConcurrent, maxQueued;
      active, waiters, ledger := 0, [], Ledger([], [], {}, map[], {});
    }

    /** Granted at once, rejected at once, or None while the request waits. */
    method AcquireSlot(id: RequestId, signal: Signal, signalAborted: bool) returns (r: Option<Outcome>)
      requires Inv(Model()) && Legal(Model(), Acquire(id, signal)) && (signalAborted <==> signal in ledger.aborted)
      modifies this
      ensures Model() == Next(old(Model()), Acquire(id, signal)) && Inv(Model())
      ensures r == if id in ledger.settled then Some(ledger.settled[id]) else None
    {
      hide Inv;
      NextKeepsInv(Model(), Acquire(id, signal));
      if signalAborted {
        ledger := Settle(ledger, id, RejectedAborted);
        return Some(RejectedAborted);
      }
      if active < maxConcurrent {
        active := active + 1;
        ledger := Grant(ledger.(arrived := ledger.arrived + [id]), id);
        return Some(Granted);
      }
      if |waiters| >= maxQueued {
        ledger := Settle(ledger, id, RejectedFull);
        return Some(RejectedFull);
      }
      waiters := waiters + [Waiter(id, signal)];
      ledger := ledger.(arrived := ledger.arrived + [id]);
      r := None;
    }

    /** The release that a grant hands out, called once. */
    method ReleaseSlot(ghost id: RequestId, aborted: set<Signal>)
      requires Inv(Model()) && Legal(Model(), Release(id)) && aborted == ledger.aborted
      modifies this
      ensures Model() == Next(old(Model()), Release(id)) && Inv(Model())
    {
      NextKeepsInv(Model(), Release(id));
      ledger := ledger.(holders := ledger.holders - {id});
      ReleaseOne(aborted);
    }

    method ReleaseOne(aborted: set<Signal>)
      requires aborted == ledger.aborted
      modifies this
      ensures Model() == PassOn(old(Model()))
      decreases |waiters|
    {
      if waiters == [] {
        active := active - 1;
        return;
      }
      var waiter := waiters[0];
      waiters := waiters[1..];
      if waiter.signal in aborted {
        ledger := Settle(ledger, waiter.id, RejectedAborted);
        ReleaseOne(aborted);
        return;
      }
      ledger := Grant(ledger, waiter.id);
    }

    /** The abort listener of a waiter that is still registered. */
    method AbortWaiter(waiter: Waiter)
      requires Inv(Model()) && Legal(Model(), OnAbort(waiter))
      modifies this
      ensures Model() == Next(old(Model()), OnAbort(waiter)) && Inv(Model())
    {
      NextKeepsInv(Model(), OnAbort(waiter));
      waiters := Remove(waiters, waiter);
      ledger := Settle(ledger, waiter.id, RejectedAborted);
    }
  }
}
