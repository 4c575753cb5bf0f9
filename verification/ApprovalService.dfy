/** The local approval service: pending requests, decisions, expiry, and the one settlement of each ticket. */
module ApprovalService {
  import opened Options

  datatype Outcome = Approved | Denied | Expired | Cancelled

  datatype Entry = Entry(requestedAt: int, expiresAt: int, visible: bool)

  /** A settled ticket: what its promise resolved to, and what the service's clock read when it did. */
  datatype Settlement = Settlement(entry: Entry, outcome: Outcome, at: int)

  datatype Approvals = Approvals(pending: map<nat, Entry>, closed: bool, settled: map<nat, Settlement>)

  const NO_APPROVALS := Approvals(map[], false, map[])

  // ----- The operations on values -----

  function SettleIn(s: Approvals, id: nat, outcome: Outcome, now: int): Approvals {
    if id in s.pending then
      s.(pending := s.pending - {id}, settled := s.settled[id := Settlement(s.pending[id], outcome, now)])
    else s
  }

  /** A request under an identifier never used before; nothing when the service refuses it. */
  function RequestIn(s: Approvals, id: nat, now: int, ttl: int): Option<Approvals> {
    if s.closed || ttl <= 0 then None
    else Some(s.(pending := s.pending[id := Entry(now, now + ttl, true)]))
  }

  function DecideIn(s: Approvals, id: nat, approve: bool, now: int): (Approvals, Option<Outcome>) {
    if id !in s.pending || !s.pending[id].visible then (s, None)
    else if s.pending[id].expiresAt <= now then (SettleIn(s, id, Expired, now), Some(Expired))
    else
      var outcome := if approve then Approved else Denied;
      (SettleIn(s, id, outcome, now), Some(outcome))
  }

  function CloseIn(s: Approvals, now: int): Approvals {
    if s.closed then s
    else Approvals(map[], true, s.settled + map id | id in s.pending :: Settlement(s.pending[id], Cancelled, now))
  }

  // ----- What every sequence of operations keeps -----

  /** No ticket is both pending and settled, and an approval was decided strictly before its expiry. */
  ghost predicate OneFate(s: Approvals) {
    && s.pending.Keys !! s.settled.Keys
    && forall id :: id in s.settled && s.settled[id].outcome == Approved ==>
                      s.settled[id].entry.visible && s.settled[id].at < s.settled[id].entry.expiresAt
  }

  /** And nothing is pending once the service is closed. */
  ghost predicate Sound(s: Approvals) {
    OneFate(s) && (s.closed ==> s.pending == map[])
  }

  /** Settled tickets keep their settlement, and pending ones their terms until they settle. */
  ghost predicate Follows(s: Approvals, t: Approvals) {
    && (forall id :: id in s.settled ==> id in t.settled && t.settled[id] == s.settled[id])
    && (forall id :: id in s.pending ==> (id in t.pending && t.pending[id] == s.pending[id])
                                         || (id in t.settled && t.settled[id].entry == s.pending[id]))
    && (s.closed ==> t.closed)
  }

  /** Every ticket but this one is as it was. */
  ghost predicate Apart(s: Approvals, t: Approvals, id: nat) {
    t.pending - {id} == s.pending - {id} && t.settled - {id} == s.settled - {id} && t.closed == s.closed
  }

  /** The ticket left the pending ones with this outcome, at this time. */
  ghost predicate Settled(s: Approvals, t: Approvals, id: nat, outcome: Outcome, now: int) {
    && id in s.pending && id !in t.pending && id in t.settled
    && t.settled[id] == Settlement(s.pending[id], outcome, now)
  }

  /** Timers and cancellation settle a pending ticket with anything but an approval, and touch nothing else. */
  lemma SettleSound(s: Approvals, id: nat, outcome: Outcome, now: int)
    requires Sound(s) && outcome != Approved
    ensures var t := SettleIn(s, id, outcome, now);
            && Sound(t) && Follows(s, t) && Apart(s, t, id)
            && if id in s.pending then Settled(s, t, id, outcome, now) else t == s
  {
  }

  /** An open service takes a request for a positive time, as one more pending ticket with just these terms. */
  lemma RequestSound(s: Approvals, id: nat, now: int, ttl: int)
    requires Sound(s) && id !in s.pending && id !in s.settled
    ensures RequestIn(s, id, now, ttl).Some? <==> !s.closed && ttl > 0
    ensures RequestIn(s, id, now, ttl).Some? ==>
              var t := RequestIn(s, id, now, ttl).value;
              && Sound(t) && Follows(s, t) && Apart(s, t, id)
              && id in t.pending && t.pending[id] == Entry(now, now + ttl, true)
  {
  }

  /**
    * A decision settles only a pending, visible ticket: as decided before its expiry, and as expired from then on.
    */
  lemma DecideSound(s: Approvals, id: nat, approve: bool, now: int)
    requires Sound(s)
    ensures var (t, outcome) := DecideIn(s, id, approve, now);
            && Sound(t) && Follows(s, t) && Apart(s, t, id)
            && (outcome.Some? <==> id in s.pending && s.pending[id].visible)
            && (outcome == Some(Approved) <==>
               approve && id in s.pending && s.pending[id].visible && now < s.pending[id].expiresAt)
            && (outcome == Some(Denied) <==>
               !approve && id in s.pending && s.pending[id].visible && now < s.pending[id].expiresAt)
            && (outcome == Some(Expired) <==>
               id in s.pending && s.pending[id].visible && s.pending[id].expiresAt <= now)
            && if outcome.Some? then Settled(s, t, id, outcome.value, now) else t == s
  {
  }

  /** Closing cancels every pending ticket, at that moment, and leaves the settled ones as they are. */
  lemma CloseSound(s: Approvals, now: int)
    requires Sound(s)
    ensures var t := CloseIn(s, now);
            && Sound(t) && Follows(s, t) && t.closed && t.pending == map[]
            && t.settled.Keys == s.settled.Keys + s.pending.Keys
            && forall id :: id in s.pending ==> Settled(s, t, id, Cancelled, now)
  {
  }

  /** A service that is closing: some of the tickets that were pending are cancelled, and the others still pending. */
  ghost predicate PartlyClosed(was: Approvals, s: Approvals, now: int) {
    && s.closed && s.pending.Keys <= was.pending.Keys
    && (forall id :: id in s.pending ==> s.pending[id] == was.pending[id])
    && s.settled.Keys == was.settled.Keys + (was.pending.Keys - s.pending.Keys)
    && (forall id :: id in was.settled ==> s.settled[id] == was.settled[id])
    && forall id :: id in was.pending.Keys - s.pending.Keys ==>
                      s.settled[id] == Settlement(was.pending[id], Cancelled, now)
  }

  lemma OneMoreCancelled(was: Approvals, s: Approvals, id: nat, now: int)
    requires PartlyClosed(was, s, now) && OneFate(was) && id in s.pending
    ensures PartlyClosed(was, SettleIn(s, id, Cancelled, now), now)
  {
    var t := SettleIn(s, id, Cancelled, now);
    assert was.pending.Keys - t.pending.Keys == was.pending.Keys - s.pending.Keys + {id};
  }

  lemma AllCancelled(was: Approvals, s: Approvals, now: int)
    requires PartlyClosed(was, s, now) && Sound(was) && !was.closed && s.pending == map[]
    ensures s == CloseIn(was, now)
  {
    assert s.settled == CloseIn(was, now).settled;
  }

  // ----- The service object -----

  class LocalApprovalService {
    var pending: map<nat, Entry>
    var closed: bool
    /** The resolved outcome promises. */
    var settled: map<nat, Settlement>

    constructor ()
      ensures View() == NO_APPROVALS && Valid()
    {
      pending, closed, settled := map[], false, map[];
    }

    ghost function View(): Approvals
      reads this
    {
      Approvals(pending, closed, settled)
    }

    /** No ticket is both pending and settled, and every approval was decided before its expiry. */
    ghost predicate Valid()
      reads this
    {
      Sound(View())
    }

    method RequestHidden(id: nat, now: int, ttl: int) returns (ok: bool)
      requires Valid() && id !in pending && id !in settled
      modifies this`pending
      ensures ok == (!closed && ttl > 0)
      ensures pending == if ok then old(pending)[id := Entry(now, now + ttl, false)] else old(pending)
      ensures Valid()
    {
      if closed || ttl <= 0 {
        return false;
      }
      pending := pending[id := Entry(now, now + ttl, false)];
      return true;
    }

    method Publish(id: nat) returns (ok: bool)
      requires Valid()
      modifies this`pending
      ensures ok == (id in old(pending))
      ensures pending == if ok then old(pending)[id := old(pending)[id].(visible := true)] else old(pending)
      ensures Valid()
    {
      if id !in pending {
        return false;
      }
      pending := pending[id := pending[id].(visible := true)];
      return true;
    }

    method Request(id: nat, now: int, ttl: int) returns (ok: bool)
      requires Valid() && id !in pending && id !in settled
      modifies this`pending
      ensures ok == RequestIn(old(View()), id, now, ttl).Some?
      ensures View() == if ok then RequestIn(old(View()), id, now, ttl).value else old(View())
      ensures Valid() && Follows(old(View()), View())
    {
      ok := RequestHidden(id, now, ttl);
      if ok {
        var published := Publish(id);
      }
    }

    /** Every caller settles a ticket once, and as approved only a visible one before its expiry. */
    method Settle(id: nat, outcome: Outcome, now: int)
      requires OneFate(View())
      requires outcome == Approved && id in pending ==> pending[id].visible && now < pending[id].expiresAt
      modifies this`pending, this`settled
      ensures View() == SettleIn(old(View()), id, outcome, now)
      ensures OneFate(View()) && Follows(old(View()), View()) && (old(Valid()) ==> Valid())
    {
      if id !in pending {
        return;
      }
      var entry := pending[id];
      pending := pending - {id};
      settled := settled[id := Settlement(entry, outcome, now)];
    }

    method Decide(id: nat, approve: bool, now: int) returns (outcome: Option<Outcome>)
      requires Valid()
      modifies this`pending, this`settled
      ensures (View(), outcome) == DecideIn(old(View()), id, approve, now)
      ensures Valid() && Follows(old(View()), View())
    {
      if id !in pending || !pending[id].visible {
        return None;
      }
      if pending[id].expiresAt <= now {
        Settle(id, Expired, now);
        return Some(Expired);
      }
      outcome := Some(if approve then Approved else Denied);
      Settle(id, outcome.value, now);
    }

    /** Settles the pending tickets one by one. */
    method Close(now: int)
      requires Valid()
      modifies this
      ensures View() == CloseIn(old(View()), now)
      ensures Valid() && Follows(old(View()), View())
    {
      ghost var before := View();
      if closed {
        return;
      }
      closed := true;
      var ids := pending.Keys;
      while ids != {}
        invariant OneFate(View()) && ids == pending.Keys && PartlyClosed(before, View(), now)
        decreases ids
      {
        var id := PickKey(ids);
        OneMoreCancelled(before, View(), id, now);
        Settle(id, Cancelled, now);
        ids := ids - {id};
      }
      AllCancelled(before, View(), now);
      CloseSound(before, now);
    }
  }

  method PickKey<T(==)>(keys: set<T>) returns (key: T)
    requires keys != {}
    ensures key in keys
  {
    key :| key in keys;
  }
}
