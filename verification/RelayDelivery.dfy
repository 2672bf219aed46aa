/** Leased webhook delivery: what is stored, what is handed out, and what may disappear. */
module RelayDelivery {
  import opened Wrappers
  import Rows

  const LEASE_SECONDS := 60
  const RETENTION_SECONDS := 30 * 24 * 60 * 60
  const MAX_PULL := 50

  type DeliveryId = string
  type InstanceId = nat
  type InstallationId = nat

  datatype WebhookEvent = WebhookEvent(installation: InstallationId, body: string, receivedAt: int)

  datatype Receipt = Receipt(attempts: nat, leasedUntil: Option<int>, acknowledged: bool)

  type Events = map<DeliveryId, WebhookEvent>

  type Receipts = map<(DeliveryId, InstanceId), Receipt>

  /** One event handed to one instance; `birth` tells apart the times one delivery id was stored. */
  datatype HandOut = HandOut(birth: nat, instance: InstanceId, at: int)

  datatype Birth = Birth(delivery: DeliveryId, event: WebhookEvent)

  datatype Fate = Acknowledged(instance: InstanceId) | Expired(at: int)

  function Count(handouts: seq<HandOut>, birth: nat, instance: InstanceId): nat {
    if handouts == [] then 0 else
      var last := handouts[|handouts| - 1];
      Count(handouts[..|handouts| - 1], birth, instance) + (if last.birth == birth && last.instance == instance then 1 else 0)
  }

  lemma CountGrows(handouts: seq<HandOut>, h: HandOut, birth: nat, instance: InstanceId)
    ensures Count(handouts + [h], birth, instance)
         == Count(handouts, birth, instance) + (if h.birth == birth && h.instance == instance then 1 else 0)
  {
    assert (handouts + [h])[..|handouts|] == handouts;
  }

  lemma {:induction false} CountedIsThere(handouts: seq<HandOut>, birth: nat, instance: InstanceId)
    ensures Count(handouts, birth, instance) > 0 <==> exists h <- handouts :: h.birth == birth && h.instance == instance
  {
    if handouts != [] {
      var init, last := handouts[..|handouts| - 1], handouts[|handouts| - 1];
      CountedIsThere(init, birth, instance);
      assert handouts == init + [last];
    }
  }

  /** Two hand-outs of the same stored event to the same instance are more than a lease apart. */
  ghost predicate Spaced(handouts: seq<HandOut>) {
    forall i, j | 0 <= i < j < |handouts| && handouts[i].birth == handouts[j].birth
                  && handouts[i].instance == handouts[j].instance ::
      handouts[i].at + LEASE_SECONDS < handouts[j].at
  }

  lemma LastIsLate(handouts: seq<HandOut>)
    requires Spaced(handouts) && handouts != []
    ensures Spaced(handouts[..|handouts| - 1])
    ensures var last := handouts[|handouts| - 1];
            forall h <- handouts[..|handouts| - 1] | h.birth == last.birth && h.instance == last.instance ::
              h.at + LEASE_SECONDS < last.at
  {
    var init, last := handouts[..|handouts| - 1], handouts[|handouts| - 1];
    forall h <- init | h.birth == last.birth && h.instance == last.instance ensures h.at + LEASE_SECONDS < last.at {
      var i :| 0 <= i < |init| && init[i] == h;
      assert handouts[i] == h;
    }
  }

  /** Within any one lease period an instance receives a stored event at most once. */
  lemma {:induction false} AtMostOneHandOutPerLease(handouts: seq<HandOut>, birth: nat, instance: InstanceId, from: int)
    requires Spaced(handouts)
    ensures Count(Within(handouts, from), birth, instance) <= 1
  {
    if handouts != [] {
      var init, last := handouts[..|handouts| - 1], handouts[|handouts| - 1];
      LastIsLate(handouts);
      AtMostOneHandOutPerLease(init, birth, instance, from);
      CountedIsThere(Within(init, from), birth, instance);
      WithinIsThere(init, from);
      CountGrows(Within(init, from), last, birth, instance);
      assert Within(init, from) + [] == Within(init, from);
      hide Spaced, Count;
    }
  }

  /** The hand-outs of one lease period. */
  function Within(handouts: seq<HandOut>, from: int): seq<HandOut> {
    if handouts == [] then [] else
      var last := handouts[|handouts| - 1];
      Within(handouts[..|handouts| - 1], from) + (if from <= last.at <= from + LEASE_SECONDS then [last] else [])
  }

  lemma {:induction false} WithinIsThere(handouts: seq<HandOut>, from: int)
    ensures forall h <- Within(handouts, from) :: h in handouts && from <= h.at <= from + LEASE_SECONDS
  {
    if handouts != [] { WithinIsThere(handouts[..|handouts| - 1], from); }
  }

  // ---------------------------------------------------------------- choosing what to hand out

  predicate Available(event: WebhookEvent, d: DeliveryId, receipts: Receipts, instance: InstanceId,
                      installation: InstallationId, now: int)
  {
    && event.installation == installation
    && ((d, instance) !in receipts
        || (var receipt := receipts[(d, instance)];
            !receipt.acknowledged && (receipt.leasedUntil == None || receipt.leasedUntil.value < now)))
  }

  function AvailableTo(events: Events, receipts: Receipts, instance: InstanceId,
                       installation: InstallationId, now: int): set<DeliveryId>
  {
    set d <- events | Available(events[d], d, receipts, instance, installation, now)
  }

  /** Exactly the `limit` oldest of some events, or all of them when there are fewer. */
  predicate Oldest(events: Events, available: set<DeliveryId>, limit: nat, chosen: set<DeliveryId>)
    requires available <= events.Keys
  {
    && chosen <= available && |chosen| == (if |available| < limit then |available| else limit)
    && forall c, d | c in chosen && d in available - chosen :: events[c].receivedAt <= events[d].receivedAt
  }

  lemma {:induction false} SomeOldest(events: Events, ds: set<DeliveryId>)
    requires ds != {} && ds <= events.Keys
    ensures exists c :: c in ds && forall d <- ds :: events[c].receivedAt <= events[d].receivedAt
  {
    var one :| one in ds;
    var others := ds - {one};
    if others == {} {
      assert forall d <- ds :: d == one || d in others;
    } else {
      SomeOldest(events, others);
      var best :| best in others && forall d <- others :: events[best].receivedAt <= events[d].receivedAt;
      var c := if events[one].receivedAt <= events[best].receivedAt then one else best;
      forall d <- ds ensures events[c].receivedAt <= events[d].receivedAt { assert d == one || d in others; }
    }
  }

  lemma OneMoreOldest(events: Events, available: set<DeliveryId>, chosen: set<DeliveryId>, c: DeliveryId)
    requires available <= events.Keys && Oldest(events, available, |chosen|, chosen) && c in available - chosen
    requires forall d <- available - chosen :: events[c].receivedAt <= events[d].receivedAt
    ensures Oldest(events, available, |chosen| + 1, chosen + {c})
  {
    assert |chosen + {c}| == |chosen| + 1;
    Rows.SmallerSet(chosen + {c}, available);
  }

  /** Whoever pulls may have the event: it is of their installation, and no lease they hold on it runs at that time. */
  predicate Due(events: Events, receipts: Receipts, d: DeliveryId, instance: InstanceId, installation: InstallationId, now: int) {
    && d in events && events[d].installation == installation
    && ((d, instance) in receipts ==>
          !receipts[(d, instance)].acknowledged
          && match receipts[(d, instance)].leasedUntil
             case None => true
             case Some(until) => until < now)
  }

  /**
   * A batch holds only events due to whoever pulls, at most as many as asked for; an event that is due and left out
   * was left out for want of room, and is no older than any in the batch.
   */
  lemma BatchIsDueAndOldest(events: Events, receipts: Receipts, batch: seq<DeliveryId>, instance: InstanceId,
                            installation: InstallationId, limit: nat, now: int)
    requires Distinct(batch) && Oldest(events, AvailableTo(events, receipts, instance, installation, now), limit, Elements(batch))
    ensures |batch| <= limit && forall d <- batch :: Due(events, receipts, d, instance, installation, now)
    ensures forall e | Due(events, receipts, e, instance, installation, now) && e !in batch ::
              |batch| == limit && forall d <- batch :: d in events && events[d].receivedAt <= events[e].receivedAt
  {
    var available, chosen := AvailableTo(events, receipts, instance, installation, now), Elements(batch);
    ElementsCount(batch);
    assert forall d :: d in batch <==> d in chosen;
    forall e ensures e in available <==> Due(events, receipts, e, instance, installation, now) {}
    hide Available, Due, AvailableTo, Elements;
    forall e | e in available && e !in batch
      ensures |batch| == limit && forall d <- batch :: d in events && events[d].receivedAt <= events[e].receivedAt
    {
      assert e in available - chosen && chosen < available;
      Rows.SmallerSet(chosen + {e}, available);
      assert |chosen + {e}| == |chosen| + 1;
    }
  }

  lemma {:induction false} ElementsCount(batch: seq<DeliveryId>)
    requires Distinct(batch)
    ensures |Elements(batch)| == |batch|
  {
    if batch != [] {
      var init, last := batch[..|batch| - 1], batch[|batch| - 1];
      ElementsCount(init);
      assert batch == init + [last];
      assert Elements(batch) == Elements(init) + {last};
      assert last !in Elements(init);
    }
  }

  method Choose(events: Events, available: set<DeliveryId>, limit: nat) returns (chosen: set<DeliveryId>)
    requires available <= events.Keys
    ensures Oldest(events, available, limit, chosen)
  {
    chosen := {};
    while |chosen| < limit && chosen != available
      invariant |chosen| <= limit && Oldest(events, available, |chosen|, chosen)
      decreases limit - |chosen|
    {
      ghost var before := chosen;
      var rest := available - chosen;
      assert rest != {};
      SomeOldest(events, rest);
      var c :| c in rest && forall d <- rest :: events[c].receivedAt <= events[d].receivedAt;
      OneMoreOldest(events, available, chosen, c);
      chosen := chosen + {c};
    }
    Rows.SmallerSet(chosen, available);
  }

  // ---------------------------------------------------------------- what holds between transactions

  /** The tables, with the past of every row they hold or held. */
  datatype State = State(events: Events, receipts: Receipts, clock: int, births: seq<Birth>, current: map<DeliveryId, nat>,
                         fates: map<nat, Fate>, handouts: seq<HandOut>)

  ghost predicate Sound(s: State) {
    && Accounted(s.events, s.births, s.current, s.fates, s.handouts, s.clock)
    && Receipted(s.events, s.receipts, s.current, s.handouts)
    && Logged(s.births, s.handouts, s.clock)
  }

  /** Each stored event is one birth; every other birth met its fate. */
  ghost predicate Accounted(events: Events, births: seq<Birth>, current: map<DeliveryId, nat>, fates: map<nat, Fate>,
                            handouts: seq<HandOut>, clock: int)
  {
    && current.Keys == events.Keys
    && (forall d <- events :: current[d] < |births| && births[current[d]] == Birth(d, events[d]))
    && (forall b | 0 <= b < |births| ::
          b in fates <==> !(births[b].delivery in current && current[births[b].delivery] == b))
    && (forall b <- fates :: b < |births| && Deserved(births[b], b, fates[b], handouts, clock))
  }

  /** An event disappears once its retention is over, or because an instance it was handed to acknowledged it. */
  ghost predicate Deserved(birth: Birth, b: nat, fate: Fate, handouts: seq<HandOut>, clock: int) {
    match fate
    case Expired(at) => birth.event.receivedAt < at - RETENTION_SECONDS && at <= clock
    case Acknowledged(instance) => Count(handouts, b, instance) > 0
  }

  /** A receipt exists for what was handed out; it counts the hand-outs, and its lease covers them. */
  ghost predicate Receipted(events: Events, receipts: Receipts, current: map<DeliveryId, nat>, handouts: seq<HandOut>)
    requires current.Keys == events.Keys
  {
    && (forall k <- receipts :: k.0 in events && Faithful(receipts[k], current[k.0], k.1, handouts))
    && (forall d <- events, i: InstanceId | (d, i) !in receipts :: Count(handouts, current[d], i) == 0)
  }

  ghost predicate Faithful(receipt: Receipt, birth: nat, instance: InstanceId, handouts: seq<HandOut>) {
    && !receipt.acknowledged && receipt.leasedUntil.Some? && receipt.attempts > 0
    && receipt.attempts == Count(handouts, birth, instance)
    && forall h <- handouts | h.birth == birth && h.instance == instance :: h.at + LEASE_SECONDS <= receipt.leasedUntil.value
  }

  ghost predicate Logged(births: seq<Birth>, handouts: seq<HandOut>, clock: int) {
    Spaced(handouts) && forall h <- handouts :: h.birth < |births| && h.at <= clock
  }

  // ---------------------------------------------------------------- handing out

  lemma NeverHandedOut(handouts: seq<HandOut>, birth: nat, instance: InstanceId)
    requires Count(handouts, birth, instance) == 0
    ensures forall h <- handouts :: h.birth != birth || h.instance != instance
  {
    CountedIsThere(handouts, birth, instance);
  }

  lemma ClaimIsSpaced(handouts: seq<HandOut>, h: HandOut)
    requires Spaced(handouts)
    requires forall g <- handouts | g.birth == h.birth && g.instance == h.instance :: g.at + LEASE_SECONDS < h.at
    ensures Spaced(handouts + [h])
  {
    forall i, j | 0 <= i < j < |handouts + [h]| && (handouts + [h])[i].birth == (handouts + [h])[j].birth
                  && (handouts + [h])[i].instance == (handouts + [h])[j].instance
      ensures (handouts + [h])[i].at + LEASE_SECONDS < (handouts + [h])[j].at
    {
      assert (handouts + [h])[i] == handouts[i];
    }
  }

  /** The waiting time of an available event is over: earlier hand-outs are more than a lease ago. */
  lemma AvailableIsDue(events: Events, receipts: Receipts, current: map<DeliveryId, nat>, handouts: seq<HandOut>,
                       d: DeliveryId, instance: InstanceId, installation: InstallationId, now: int)
    requires current.Keys == events.Keys && Receipted(events, receipts, current, handouts)
    requires d in events && Available(events[d], d, receipts, instance, installation, now)
    ensures forall g <- handouts | g.birth == current[d] && g.instance == instance :: g.at + LEASE_SECONDS < now
  {
    if (d, instance) !in receipts {
      NeverHandedOut(handouts, current[d], instance);
    } else {
      assert Faithful(receipts[(d, instance)], current[d], instance, handouts);
    }
  }

  /** The receipt after one more hand-out. */
  function Leased(receipts: Receipts, k: (DeliveryId, InstanceId), now: int): Receipt {
    Receipt((if k in receipts then receipts[k].attempts else 0) + 1, Some(now + LEASE_SECONDS), false)
  }

  lemma LeasedIsFaithful(handouts: seq<HandOut>, receipt: Receipt, h: HandOut, birth: nat, instance: InstanceId)
    requires Faithful(receipt, birth, instance, handouts) && (h.birth != birth || h.instance != instance)
    ensures Faithful(receipt, birth, instance, handouts + [h])
  {
    CountGrows(handouts, h, birth, instance);
  }

  lemma ClaimIsFaithful(handouts: seq<HandOut>, events: Events, receipts: Receipts, current: map<DeliveryId, nat>,
                        d: DeliveryId, instance: InstanceId, installation: InstallationId, now: int)
    requires current.Keys == events.Keys && Receipted(events, receipts, current, handouts)
    requires d in events && Available(events[d], d, receipts, instance, installation, now)
    ensures Faithful(Leased(receipts, (d, instance), now), current[d], instance, handouts + [HandOut(current[d], instance, now)])
  {
    AvailableIsDue(events, receipts, current, handouts, d, instance, installation, now);
    CountGrows(handouts, HandOut(current[d], instance, now), current[d], instance);
    assert (d, instance) in receipts ==> Faithful(receipts[(d, instance)], current[d], instance, handouts);
  }

  lemma ClaimIsReceipted(handouts: seq<HandOut>, events: Events, receipts: Receipts, births: seq<Birth>,
                         current: map<DeliveryId, nat>, fates: map<nat, Fate>,
                         d: DeliveryId, instance: InstanceId, installation: InstallationId, now: int)
    requires Accounted(events, births, current, fates, handouts, now) && Receipted(events, receipts, current, handouts)
    requires d in events && Available(events[d], d, receipts, instance, installation, now)
    ensures Receipted(events, receipts[(d, instance) := Leased(receipts, (d, instance), now)], current,
                      handouts + [HandOut(current[d], instance, now)])
  {
    var h, later := HandOut(current[d], instance, now), receipts[(d, instance) := Leased(receipts, (d, instance), now)];
    ClaimIsFaithful(handouts, events, receipts, current, d, instance, installation, now);
    hide Faithful, Leased, Deserved;
    forall k <- later ensures Faithful(later[k], current[k.0], k.1, handouts + [h]) {
      if k != (d, instance) {
        assert births[current[k.0]].delivery == k.0;
        LeasedIsFaithful(handouts, receipts[k], h, current[k.0], k.1);
      }
    }
    forall e <- events, i: InstanceId | (e, i) !in later ensures Count(handouts + [h], current[e], i) == 0 {
      assert births[current[e]].delivery == e;
      CountGrows(handouts, h, current[e], i);
    }
  }

  lemma ClaimIsAccounted(events: Events, births: seq<Birth>, current: map<DeliveryId, nat>, fates: map<nat, Fate>,
                         handouts: seq<HandOut>, h: HandOut, clock: int)
    requires Accounted(events, births, current, fates, handouts, clock)
    ensures Accounted(events, births, current, fates, handouts + [h], clock)
  {
    forall b <- fates ensures Deserved(births[b], b, fates[b], handouts + [h], clock) {
      assert Deserved(births[b], b, fates[b], handouts, clock);
      if fates[b].Acknowledged? { CountGrows(handouts, h, b, fates[b].instance); }
    }
  }

  // ---------------------------------------------------------------- disappearing

  function Without<V>(m: map<DeliveryId, V>, gone: set<DeliveryId>): map<DeliveryId, V> {
    map d <- m | d !in gone :: m[d]
  }

  function ReceiptsWithout(receipts: Receipts, gone: set<DeliveryId>): Receipts {
    map k <- receipts | k.0 !in gone :: receipts[k]
  }

  /** The births behind the deleted rows, all with one fate. */
  function FatesOf(current: map<DeliveryId, nat>, gone: set<DeliveryId>, fate: Fate): map<nat, Fate> {
    var lost := set d <- gone | d in current :: current[d];
    map b <- lost :: fate
  }

  lemma DeletionIsAccounted(events: Events, births: seq<Birth>, current: map<DeliveryId, nat>, fates: map<nat, Fate>,
                            handouts: seq<HandOut>, gone: set<DeliveryId>, fate: Fate, clock: int)
    requires Accounted(events, births, current, fates, handouts, clock)
    requires forall d <- gone | d in events :: Deserved(births[current[d]], current[d], fate, handouts, clock)
    ensures Accounted(Without(events, gone), births, Without(current, gone), fates + FatesOf(current, gone, fate), handouts,
                      clock)
  {
    var left, added := Without(current, gone), FatesOf(current, gone, fate);
    var later := fates + added;
    hide Deserved;
    forall b | 0 <= b < |births|
      ensures b in later <==> !(births[b].delivery in left && left[births[b].delivery] == b)
    {
      var d := births[b].delivery;
      assert b in added ==> exists e :: e in gone && e in current && current[e] == b;
      assert d in gone && d in current && current[d] == b ==> b in added;
    }
    forall b <- later ensures b < |births| && Deserved(births[b], b, later[b], handouts, clock) {
      if b in added {
        var d :| d in gone && d in current && current[d] == b;
        assert d in events;
      }
    }
  }

  lemma DeletionIsReceipted(events: Events, receipts: Receipts, current: map<DeliveryId, nat>, handouts: seq<HandOut>,
                            gone: set<DeliveryId>)
    requires current.Keys == events.Keys && Receipted(events, receipts, current, handouts)
    ensures Receipted(Without(events, gone), ReceiptsWithout(receipts, gone), Without(current, gone), handouts)
  {
    hide Faithful;
  }

  lemma AcknowledgementIsAccounted(events: Events, receipts: Receipts, births: seq<Birth>, current: map<DeliveryId, nat>,
                                   fates: map<nat, Fate>, handouts: seq<HandOut>, clock: int, d: DeliveryId,
                                   instance: InstanceId)
    requires Accounted(events, births, current, fates, handouts, clock) && Receipted(events, receipts, current, handouts)
    requires (d, instance) in receipts
    ensures !receipts[(d, instance)].acknowledged
    ensures Accounted(Without(events, {d}), births, Without(current, {d}),
                      fates + FatesOf(current, {d}, Acknowledged(instance)), handouts, clock)
  {
    var k := (d, instance);
    assert Faithful(receipts[k], current[k.0], k.1, handouts);
    hide Receipted, Faithful;
    DeletionIsAccounted(events, births, current, fates, handouts, {d}, Acknowledged(instance), clock);
  }

  lemma ExpiryIsAccounted(events: Events, births: seq<Birth>, current: map<DeliveryId, nat>, fates: map<nat, Fate>,
                          handouts: seq<HandOut>, clock: int, now: int)
    requires Accounted(events, births, current, fates, handouts, clock) && clock <= now
    ensures var expired := ExpiredAt(events, now);
            Accounted(Without(events, expired), births, Without(current, expired),
                      fates + FatesOf(current, expired, Expired(now)), handouts, now)
  {
    LaterIsAccounted(events, births, current, fates, handouts, clock, now);
    DeletionIsAccounted(events, births, current, fates, handouts, ExpiredAt(events, now), Expired(now), now);
  }

  lemma LaterIsAccounted(events: Events, births: seq<Birth>, current: map<DeliveryId, nat>, fates: map<nat, Fate>,
                         handouts: seq<HandOut>, clock: int, now: int)
    requires Accounted(events, births, current, fates, handouts, clock) && clock <= now
    ensures Accounted(events, births, current, fates, handouts, now)
  {
    forall b <- fates ensures Deserved(births[b], b, fates[b], handouts, now) {
      assert Deserved(births[b], b, fates[b], handouts, clock);
    }
  }

  function ExpiredAt(events: Events, now: int): set<DeliveryId> {
    set e <- events | events[e].receivedAt < now - RETENTION_SECONDS
  }

  lemma BirthIsUnseen(births: seq<Birth>, handouts: seq<HandOut>, clock: int, instance: InstanceId)
    requires Logged(births, handouts, clock)
    ensures Count(handouts, |births|, instance) == 0
  {
    CountedIsThere(handouts, |births|, instance);
  }

  lemma BirthIsAccounted(events: Events, births: seq<Birth>, current: map<DeliveryId, nat>, fates: map<nat, Fate>,
                         handouts: seq<HandOut>, clock: int, d: DeliveryId, event: WebhookEvent)
    requires Accounted(events, births, current, fates, handouts, clock) && d !in events
    ensures Accounted(events[d := event], births + [Birth(d, event)], current[d := |births|], fates, handouts, clock)
  {
    hide Deserved;
  }

  lemma BirthIsReceipted(events: Events, receipts: Receipts, births: seq<Birth>, current: map<DeliveryId, nat>,
                         handouts: seq<HandOut>, clock: int, d: DeliveryId, event: WebhookEvent)
    requires current.Keys == events.Keys && Receipted(events, receipts, current, handouts)
    requires Logged(births, handouts, clock) && d !in events
    ensures Receipted(events[d := event], receipts, current[d := |births|], handouts)
  {
    forall i: InstanceId ensures Count(handouts, |births|, i) == 0 { BirthIsUnseen(births, handouts, clock, i); }
    hide Faithful;
  }

  // ---------------------------------------------------------------- the transactions

  function Elements(s: seq<DeliveryId>): set<DeliveryId> { set d <- s }

  predicate Distinct(s: seq<DeliveryId>) { forall i, j | 0 <= i < j < |s| :: s[i] != s[j] }

  /** One available event handed out: the first time with a new receipt, and later under a new lease. */
  function Claimed(s: State, d: DeliveryId, instance: InstanceId): State
    requires d in s.current
  {
    s.(receipts := s.receipts[(d, instance) := Leased(s.receipts, (d, instance), s.clock)],
       handouts := s.handouts + [HandOut(s.current[d], instance, s.clock)])
  }

  function ClaimedAll(s: State, batch: seq<DeliveryId>, instance: InstanceId): (later: State)
    requires forall d <- batch :: d in s.current
    ensures later == s.(receipts := later.receipts, handouts := later.handouts)
  {
    if batch == [] then s else
      assert batch == batch[..|batch| - 1] + [batch[|batch| - 1]];
      Claimed(ClaimedAll(s, batch[..|batch| - 1], instance), batch[|batch| - 1], instance)
  }

  function Removed(s: State, gone: set<DeliveryId>, fate: Fate): State {
    s.(events := Without(s.events, gone), receipts := ReceiptsWithout(s.receipts, gone),
       current := Without(s.current, gone), fates := s.fates + FatesOf(s.current, gone, fate))
  }

  function Born(s: State, d: DeliveryId, event: WebhookEvent): State {
    s.(events := s.events[d := event], current := s.current[d := |s.births|], births := s.births + [Birth(d, event)])
  }

  /** An event can be handed to an instance again only after some time. */
  ghost predicate OutOfReach(events: Events, receipts: Receipts, d: DeliveryId, instance: InstanceId,
                             installation: InstallationId, until: int)
    requires d in events
  {
    forall t :: Available(events[d], d, receipts, instance, installation, t) <==> until < t
  }

  /** Every other event, and this one for every other instance, can be handed out as before. */
  ghost predicate OthersKeepReach(events: Events, before: Receipts, after: Receipts, d: DeliveryId, instance: InstanceId) {
    forall e <- events, i: InstanceId, n: InstallationId, t: int | (e, i) != (d, instance) ::
      Available(events[e], e, after, i, n, t) <==> Available(events[e], e, before, i, n, t)
  }

  lemma LeaseIsExclusive(events: Events, receipts: Receipts, d: DeliveryId, instance: InstanceId,
                         installation: InstallationId, now: int)
    requires d in events && Available(events[d], d, receipts, instance, installation, now)
    ensures var later := receipts[(d, instance) := Leased(receipts, (d, instance), now)];
            && OutOfReach(events, later, d, instance, installation, now + LEASE_SECONDS)
            && OthersKeepReach(events, receipts, later, d, instance)
  {
  }

  lemma ClaimIsSound(s: State, d: DeliveryId, instance: InstanceId, installation: InstallationId)
    requires Sound(s) && d in s.events && Available(s.events[d], d, s.receipts, instance, installation, s.clock)
    ensures Sound(Claimed(s, d, instance))
  {
    var h := HandOut(s.current[d], instance, s.clock);
    AvailableIsDue(s.events, s.receipts, s.current, s.handouts, d, instance, installation, s.clock);
    ClaimIsReceipted(s.handouts, s.events, s.receipts, s.births, s.current, s.fates, d, instance, installation, s.clock);
    ClaimIsAccounted(s.events, s.births, s.current, s.fates, s.handouts, h, s.clock);
    ClaimIsSpaced(s.handouts, h);
    assert s.current[d] < |s.births|;
    hide Accounted, Receipted, Spaced;
  }

  lemma AcknowledgementIsSound(s: State, d: DeliveryId, instance: InstanceId)
    requires Sound(s)
    ensures var later := Removed(s, {d}, Acknowledged(instance));
            && later.events == Without(s.events, {d}) && later.receipts == ReceiptsWithout(s.receipts, {d})
            && ((d, instance) in s.receipts ==> Sound(later) && !s.receipts[(d, instance)].acknowledged)
  {
    if (d, instance) in s.receipts {
      AcknowledgementIsAccounted(s.events, s.receipts, s.births, s.current, s.fates, s.handouts, s.clock, d, instance);
    }
    DeletionIsReceipted(s.events, s.receipts, s.current, s.handouts, {d});
    hide Accounted, Receipted, Without, FatesOf, ReceiptsWithout, Logged;
  }

  lemma ExpiryIsSound(s: State, now: int)
    requires Sound(s) && s.clock <= now
    ensures Sound(Removed(s, ExpiredAt(s.events, now), Expired(now)).(clock := now))
  {
    ExpiryIsAccounted(s.events, s.births, s.current, s.fates, s.handouts, s.clock, now);
    DeletionIsReceipted(s.events, s.receipts, s.current, s.handouts, ExpiredAt(s.events, now));
    hide Accounted, Receipted, Without, FatesOf, ReceiptsWithout, ExpiredAt, Spaced;
  }

  lemma BirthIsSound(s: State, d: DeliveryId, event: WebhookEvent)
    requires Sound(s) && d !in s.events
    ensures Sound(Born(s, d, event))
  {
    BirthIsReceipted(s.events, s.receipts, s.births, s.current, s.handouts, s.clock, d, event);
    BirthIsAccounted(s.events, s.births, s.current, s.fates, s.handouts, s.clock, d, event);
    hide Accounted, Receipted, Spaced;
  }

  /** What one call of ingress leaves: nothing past retention, and the event if its installation is active. */
  function Recorded(s: State, active: set<InstallationId>, d: DeliveryId, installation: InstallationId, body: string, now: int)
    : (State, bool)
  {
    var kept := Removed(s, ExpiredAt(s.events, now), Expired(now)).(clock := now);
    if installation !in active || d in kept.events then (kept, false)
    else (Born(kept, d, WebhookEvent(installation, body, now)), true)
  }

  // ---------------------------------------------------------------- the store

  class DeliveryStore {
    var events: Events
    var receipts: Receipts
    var active: set<InstallationId>
    ghost var now: State

    ghost predicate Valid()
      reads this
    {
      now.events == events && now.receipts == receipts && Sound(now)
    }

    constructor ()
      ensures Valid() && now == State(map[], map[], 0, [], map[], map[], [])
    {
      events, receipts, active := map[], map[], {};
      now := State(map[], map[], 0, [], map[], map[], []);
    }

    /** Under the new lease the event is out of this instance's reach for a lease period, and of nobody else's. */
    method Claim(d: DeliveryId, instance: InstanceId, installation: InstallationId, time: int)
      requires Valid() && now.clock == time && d in events && d in now.current
      requires Available(events[d], d, receipts, instance, installation, time)
      modifies this`receipts, this`now
      ensures Valid() && now == Claimed(old(now), d, instance)
      ensures OutOfReach(events, receipts, d, instance, installation, time + LEASE_SECONDS)
      ensures OthersKeepReach(events, old(receipts), receipts, d, instance)
      ensures AttemptsOf(receipts, d, instance) == AttemptsOf(old(receipts), d, instance) + 1
    {
      hide Sound, Available, OutOfReach, OthersKeepReach;
      ClaimIsSound(now, d, instance, installation);
      LeaseIsExclusive(events, receipts, d, instance, installation, time);
      var attempts := if (d, instance) in receipts then receipts[(d, instance)].attempts else 0;
      receipts := receipts[(d, instance) := Receipt(attempts + 1, Some(time + LEASE_SECONDS), false)];
      now := Claimed(now, d, instance);
    }

    method ClaimEach(chosen: set<DeliveryId>, instance: InstanceId, installation: InstallationId, time: int)
      returns (pulled: seq<DeliveryId>)
      requires Valid() && now.clock == time && AllAvailable(now, chosen, instance, installation)
      modifies this`receipts, this`now
      ensures Valid() && Distinct(pulled) && Elements(pulled) == chosen
      ensures (forall d <- pulled :: d in old(now).current) && now == ClaimedAll(old(now), pulled, instance)
    {
      pulled := [];
      var rest := chosen;
      ghost var start := now;
      PullingStarts(start, chosen, instance, installation);
      hide Sound, Available, AllAvailable, Pulling, Elements, Distinct, ClaimedAll, Claimed, AttemptsOf;
      while rest != {}
        invariant Valid() && now.clock == time
        invariant Pulling(start, now, chosen, rest, pulled, instance, installation)
        decreases rest
      {
        var d :| d in rest;
        NextPulled(start, now, chosen, rest, pulled, d, instance, installation);
        Claim(d, instance, installation, time);
        pulled := pulled + [d];
        rest := rest - {d};
      }
      PullingEnds(start, now, chosen, pulled, instance, installation);
    }

    /** Exactly the oldest available events, each under a new lease. */
    method PullEvents(instance: InstanceId, installation: InstallationId, limit: int, time: int)
      returns (batch: Option<seq<DeliveryId>>)
      requires Valid() && now.clock <= time
      modifies this`receipts, this`now
      ensures Valid()
      ensures batch.Some? <==> 1 <= limit <= MAX_PULL
      ensures batch.None? ==> now == old(now)
      ensures batch.Some? ==>
                && Distinct(batch.value) && (forall d <- batch.value :: d in old(now).current)
                && Oldest(events, AvailableTo(events, old(receipts), instance, installation, time), limit, Elements(batch.value))
                && now == ClaimedAll(old(now).(clock := time), batch.value, instance)
                && |batch.value| <= limit
                && (forall d <- batch.value :: Due(events, old(receipts), d, instance, installation, time))
                && (forall e | Due(events, old(receipts), e, instance, installation, time) && e !in batch.value ::
                      |batch.value| == limit && forall d <- batch.value :: d in events && events[d].receivedAt <= events[e].receivedAt)
    {
      if !(1 <= limit <= MAX_PULL) { return None; }
      var chosen := Choose(events, AvailableTo(events, receipts, instance, installation, time), limit);
      LaterIsSound(now, time);
      hide Sound, Distinct, Elements;
      now := now.(clock := time);
      ghost var before := receipts;
      var pulled := ClaimEach(chosen, instance, installation, time);
      BatchIsDueAndOldest(events, before, pulled, instance, installation, limit, time);
      return Some(pulled);
    }

    method RecordWebhookEvent(d: DeliveryId, installation: InstallationId, body: string, time: int) returns (recorded: bool)
      requires Valid() && now.clock <= time
      modifies this
      ensures Valid() && active == old(active)
      ensures (now, recorded) == Recorded(old(now), active, d, installation, body, time)
      ensures recorded <==> installation in active
                            && (d in old(events) ==> old(events)[d].receivedAt < time - RETENTION_SECONDS)
      ensures recorded ==> d in events && events[d] == WebhookEvent(installation, body, time)
      ensures forall e | e != d || !recorded ::
                && (e in events <==> e in old(events) && time - RETENTION_SECONDS <= old(events)[e].receivedAt)
                && (e in events ==> events[e] == old(events)[e])
    {
      ExpiryIsSound(now, time);
      hide Sound, Without, ReceiptsWithout, ExpiredAt;
      var expired := ExpiredAt(events, time);
      now := Removed(now, expired, Expired(time)).(clock := time);
      events, receipts := Without(events, expired), ReceiptsWithout(receipts, expired);
      if installation !in active || d in events { return false; }
      var event := WebhookEvent(installation, body, time);
      BirthIsSound(now, d, event);
      now := Born(now, d, event);
      events := events[d := event];
      return true;
    }

    /** Acknowledging removes the event, and with it the receipts of every instance. */
    method AcknowledgeEvent(instance: InstanceId, d: DeliveryId) returns (removed: bool)
      requires Valid()
      modifies this
      ensures Valid() && active == old(active)
      ensures removed <==> (d, instance) in old(receipts)
      ensures now == if removed then Removed(old(now), {d}, Acknowledged(instance)) else old(now)
    {
      hide Sound, Without, ReceiptsWithout, Removed;
      removed := (d, instance) in receipts && !receipts[(d, instance)].acknowledged;
      AcknowledgementIsSound(now, d, instance);
      if !removed { return; }
      now := Removed(now, {d}, Acknowledged(instance));
      events, receipts := Without(events, {d}), ReceiptsWithout(receipts, {d});
    }

    method SetInstallationActive(installation: InstallationId, nowActive: bool)
      requires Valid()
      modifies this`active
      ensures Valid() && active == if nowActive then old(active) + {installation} else old(active) - {installation}
    {
      active := if nowActive then active + {installation} else active - {installation};
    }
  }

  predicate AllAvailable(s: State, ds: set<DeliveryId>, instance: InstanceId, installation: InstallationId) {
    forall d <- ds :: d in s.events && Available(s.events[d], d, s.receipts, instance, installation, s.clock)
  }

  /** Some of the chosen events are pulled, and the rest are still available. */
  ghost predicate Pulling(start: State, s: State, chosen: set<DeliveryId>, rest: set<DeliveryId>, pulled: seq<DeliveryId>,
                          instance: InstanceId, installation: InstallationId)
  {
    && Sound(s) && AllAvailable(s, rest, instance, installation)
    && rest <= chosen && Elements(pulled) == chosen - rest && Distinct(pulled)
    && (forall d <- pulled :: d in start.current) && s == ClaimedAll(start, pulled, instance)
  }

  lemma PullingStarts(start: State, chosen: set<DeliveryId>, instance: InstanceId, installation: InstallationId)
    requires Sound(start) && AllAvailable(start, chosen, instance, installation)
    ensures Pulling(start, start, chosen, chosen, [], instance, installation)
  {
  }

  lemma OthersStayAvailable(s: State, ds: set<DeliveryId>, d: DeliveryId, instance: InstanceId, installation: InstallationId)
    requires AllAvailable(s, ds, instance, installation) && d in s.current
    ensures AllAvailable(Claimed(s, d, instance), ds - {d}, instance, installation)
  {
  }

  lemma NextElements(pulled: seq<DeliveryId>, d: DeliveryId, chosen: set<DeliveryId>, rest: set<DeliveryId>)
    requires Distinct(pulled) && Elements(pulled) == chosen - rest && rest <= chosen && d in rest
    ensures Distinct(pulled + [d]) && Elements(pulled + [d]) == chosen - (rest - {d})
  {
    assert Elements(pulled + [d]) == Elements(pulled) + {d};
    assert d !in Elements(pulled);
  }

  lemma NextClaimed(s: State, pulled: seq<DeliveryId>, d: DeliveryId, instance: InstanceId)
    requires d in s.current && forall e <- pulled :: e in s.current
    ensures ClaimedAll(s, pulled + [d], instance) == Claimed(ClaimedAll(s, pulled, instance), d, instance)
  {
    assert (pulled + [d])[..|pulled|] == pulled;
  }

  lemma NextPulled(start: State, s: State, chosen: set<DeliveryId>, rest: set<DeliveryId>, pulled: seq<DeliveryId>,
                   d: DeliveryId, instance: InstanceId, installation: InstallationId)
    requires Pulling(start, s, chosen, rest, pulled, instance, installation) && d in rest
    ensures d in s.current && d in s.events && Available(s.events[d], d, s.receipts, instance, installation, s.clock)
    ensures Claimed(s, d, instance).clock == s.clock
    ensures Pulling(start, Claimed(s, d, instance), chosen, rest - {d}, pulled + [d], instance, installation)
  {
    assert d in s.events && Available(s.events[d], d, s.receipts, instance, installation, s.clock);
    assert d in s.current && s.current == start.current;
    assert Claimed(s, d, instance).clock == s.clock;
    hide Sound, Available, AllAvailable, Elements, Distinct, ClaimedAll, Claimed;
    ClaimIsSound(s, d, instance, installation);
    OthersStayAvailable(s, rest, d, instance, installation);
    NextElements(pulled, d, chosen, rest);
    NextClaimed(start, pulled, d, instance);
  }

  lemma PullingEnds(start: State, s: State, chosen: set<DeliveryId>, pulled: seq<DeliveryId>, instance: InstanceId,
                    installation: InstallationId)
    requires Pulling(start, s, chosen, {}, pulled, instance, installation)
    ensures Sound(s) && Distinct(pulled) && Elements(pulled) == chosen
    ensures (forall d <- pulled :: d in start.current) && s == ClaimedAll(start, pulled, instance)
  {
    assert chosen - {} == chosen;
  }

  // ---------------------------------------------------------------- every run

  const EMPTY := State(map[], map[], 0, [], map[], map[], [])

  datatype Step =
    | Record(active: set<InstallationId>, delivery: DeliveryId, installation: InstallationId, body: string, time: int)
    | Pull(batch: seq<DeliveryId>, instance: InstanceId, installation: InstallationId, limit: nat, time: int)
    | Acknowledge(delivery: DeliveryId, instance: InstanceId)

  /** Time does not run backwards, and a pull hands out a batch the query can return. */
  ghost predicate Possible(s: State, step: Step) {
    match step
    case Record(_, _, _, _, time) => s.clock <= time
    case Pull(batch, instance, installation, limit, time) =>
      && s.clock <= time && 1 <= limit <= MAX_PULL && Distinct(batch) && (forall d <- batch :: d in s.current)
      && Oldest(s.events, AvailableTo(s.events, s.receipts, instance, installation, time), limit, Elements(batch))
    case Acknowledge(_, _) => true
  }

  function After(s: State, step: Step): State
    requires step.Pull? ==> forall d <- step.batch :: d in s.current
  {
    match step
    case Record(active, d, installation, body, time) => Recorded(s, active, d, installation, body, time).0
    case Pull(batch, instance, _, _, time) => ClaimedAll(s.(clock := time), batch, instance)
    case Acknowledge(d, instance) => if (d, instance) in s.receipts then Removed(s, {d}, Acknowledged(instance)) else s
  }

  /** Nothing is forgotten: births and hand-outs are only appended, and a fate is final. */
  ghost predicate Remembers(s: State, later: State) {
    && s.births <= later.births && s.handouts <= later.handouts
    && forall b <- s.fates :: b in later.fates && later.fates[b] == s.fates[b]
  }

  lemma {:induction false} OtherReceiptsStay(s: State, batch: seq<DeliveryId>, instance: InstanceId, d: DeliveryId)
    requires d !in batch && forall e <- batch :: e in s.current
    ensures var later := ClaimedAll(s, batch, instance);
            && ((d, instance) in later.receipts <==> (d, instance) in s.receipts)
            && ((d, instance) in s.receipts ==> later.receipts[(d, instance)] == s.receipts[(d, instance)])
  {
    if batch != [] {
      assert batch == batch[..|batch| - 1] + [batch[|batch| - 1]];
      OtherReceiptsStay(s, batch[..|batch| - 1], instance, d);
    }
  }

  lemma StaysAvailable(s: State, batch: seq<DeliveryId>, d: DeliveryId, instance: InstanceId, installation: InstallationId)
    requires d !in batch && forall e <- batch :: e in s.current
    requires d in s.events && Available(s.events[d], d, s.receipts, instance, installation, s.clock)
    ensures var later := ClaimedAll(s, batch, instance);
            d in later.events && Available(later.events[d], d, later.receipts, instance, installation, later.clock)
  {
    OtherReceiptsStay(s, batch, instance, d);
    hide ClaimedAll;
  }

  lemma ClaimRemembers(s: State, before: State, d: DeliveryId, instance: InstanceId)
    requires Remembers(s, before) && d in before.current
    ensures Remembers(s, Claimed(before, d, instance))
  {
  }

  lemma {:induction false} ClaimsAreSound(s: State, batch: seq<DeliveryId>, instance: InstanceId, installation: InstallationId)
    requires Sound(s) && Distinct(batch) && forall d <- batch :: d in s.current
    requires forall d <- batch :: d in s.events && Available(s.events[d], d, s.receipts, instance, installation, s.clock)
    ensures var later := ClaimedAll(s, batch, instance); Sound(later) && Remembers(s, later)
  {
    if batch != [] {
      var init, d := batch[..|batch| - 1], batch[|batch| - 1];
      assert batch == init + [d];
      ClaimsAreSound(s, init, instance, installation);
      StaysAvailable(s, init, d, instance, installation);
      hide Sound, Available, Distinct, Claimed;
      ClaimIsSound(ClaimedAll(s, init, instance), d, instance, installation);
      ClaimRemembers(s, ClaimedAll(s, init, instance), d, instance);
    }
  }

  lemma PullIsSound(s: State, batch: seq<DeliveryId>, instance: InstanceId, installation: InstallationId, limit: nat, time: int)
    requires Sound(s) && Possible(s, Pull(batch, instance, installation, limit, time))
    ensures var later := After(s, Pull(batch, instance, installation, limit, time)); Sound(later) && Remembers(s, later)
  {
    LaterIsSound(s, time);
    hide Sound;
    forall d <- batch ensures d in s.events && Available(s.events[d], d, s.receipts, instance, installation, time) {
      assert d in Elements(batch);
    }
    ClaimsAreSound(s.(clock := time), batch, instance, installation);
  }

  lemma RemovalRemembers(s: State, gone: set<DeliveryId>, fate: Fate)
    requires Sound(s)
    ensures Remembers(s, Removed(s, gone, fate))
  {
    hide Receipted, Logged;
    forall b <- s.fates ensures b !in FatesOf(s.current, gone, fate) {
      assert forall d <- s.current :: s.current[d] < |s.births| && s.births[s.current[d]].delivery == d;
    }
  }

  lemma StepIsSound(s: State, step: Step)
    requires Sound(s) && Possible(s, step)
    ensures Sound(After(s, step)) && Remembers(s, After(s, step))
  {
    match step
    case Pull(batch, instance, installation, limit, time) => PullIsSound(s, batch, instance, installation, limit, time);
    case Acknowledge(d, instance) =>
      AcknowledgementIsSound(s, d, instance);
      RemovalRemembers(s, {d}, Acknowledged(instance));
      hide Sound, Removed;
    case Record(active, d, installation, body, time) =>
      ExpiryIsSound(s, time);
      RemovalRemembers(s, ExpiredAt(s.events, time), Expired(time));
      var kept := Removed(s, ExpiredAt(s.events, time), Expired(time)).(clock := time);
      hide Sound, Removed;
      if d !in kept.events { BirthIsSound(kept, d, WebhookEvent(installation, body, time)); }
  }

  ghost predicate Execution(states: seq<State>, steps: seq<Step>) {
    && |states| == |steps| + 1 && states[0] == EMPTY
    && forall i | 0 <= i < |steps| :: Possible(states[i], steps[i]) && states[i + 1] == After(states[i], steps[i])
  }

  lemma StepAt(states: seq<State>, steps: seq<Step>, k: nat)
    requires Execution(states, steps) && k + 1 < |states|
    ensures k < |steps| && Possible(states[k], steps[k]) && states[k + 1] == After(states[k], steps[k])
  {
  }

  lemma {:induction false} EveryRunIsSound(states: seq<State>, steps: seq<Step>, i: nat, j: nat)
    requires Execution(states, steps) && i <= j < |states|
    ensures |states| == |steps| + 1 && Sound(states[j]) && Remembers(states[i], states[j])
    decreases j
  {
    if j > 0 {
      var k := if i < j then i else j - 1;
      EveryRunIsSound(states, steps, k, j - 1);
      StepAt(states, steps, j - 1);
      hide Sound, Possible, After;
      StepIsSound(states[j - 1], steps[j - 1]);
    }
  }

  /** A delivery is stored as one particular birth: it was neither removed nor stored anew. */
  predicate StoredAs(s: State, d: DeliveryId, b: nat, event: WebhookEvent) {
    d in s.events && s.events[d] == event && d in s.current && s.current[d] == b
  }

  /** A step removes a stored event: a recipient acknowledges it, or ingress finds it past retention. */
  predicate Drops(s: State, step: Step, d: DeliveryId, event: WebhookEvent) {
    match step
    case Record(_, _, _, _, time) => event.receivedAt + RETENTION_SECONDS < time
    case Pull(_, _, _, _, _) => false
    case Acknowledge(e, instance) => e == d && (d, instance) in s.receipts
  }

  /** Some step between two moments found the birth stored and dropped it. */
  ghost predicate Dropped(states: seq<State>, steps: seq<Step>, i: nat, j: nat, d: DeliveryId, b: nat, event: WebhookEvent)
    requires j <= |states| && j <= |steps|
  {
    exists k :: i <= k < j && StoredAs(states[k], d, b, event) && Drops(states[k], steps[k], d, event)
  }

  lemma StepKeepsUnlessDropped(s: State, step: Step, d: DeliveryId, b: nat, event: WebhookEvent)
    requires Possible(s, step) && b < |s.births| && StoredAs(s, d, b, event)
    ensures StoredAs(After(s, step), d, b, event) <==> !Drops(s, step, d, event)
  {
    hide Oldest, AvailableTo, FatesOf, ReceiptsWithout, Elements, Distinct, Recorded;
    if step.Record? { RecordKeepsUnlessOld(s, step.active, step.delivery, step.installation, step.body, step.time, d, b, event); }
  }

  lemma RecordKeepsUnlessOld(s: State, active: set<InstallationId>, recorded: DeliveryId, installation: InstallationId,
                             body: string, time: int, d: DeliveryId, b: nat, event: WebhookEvent)
    requires b < |s.births| && StoredAs(s, d, b, event)
    ensures StoredAs(Recorded(s, active, recorded, installation, body, time).0, d, b, event)
            <==> event.receivedAt + RETENTION_SECONDS >= time
  {
    hide FatesOf, ReceiptsWithout;
  }

  lemma StepNeverRestores(s: State, step: Step, d: DeliveryId, b: nat, event: WebhookEvent)
    requires Sound(s) && Possible(s, step) && b < |s.births| && !StoredAs(s, d, b, event)
    ensures b < |After(s, step).births| && !StoredAs(After(s, step), d, b, event)
  {
    hide Sound, Oldest, AvailableTo;
  }

  lemma NotYetDropped(states: seq<State>, steps: seq<Step>, i: nat, d: DeliveryId, b: nat, event: WebhookEvent)
    requires i <= |states| && i <= |steps|
    ensures !Dropped(states, steps, i, i, d, b, event)
  {
  }

  lemma OneMoment(states: seq<State>, steps: seq<Step>, i: nat, j: nat, d: DeliveryId, b: nat, event: WebhookEvent)
    requires i < j <= |states| && j <= |steps|
    ensures Dropped(states, steps, i, j, d, b, event)
            <==> Dropped(states, steps, i, j - 1, d, b, event)
                 || (StoredAs(states[j - 1], d, b, event) && Drops(states[j - 1], steps[j - 1], d, event))
  {
    hide StoredAs, Drops;
  }

  lemma StoredIsBorn(s: State, d: DeliveryId)
    requires Sound(s) && d in s.events
    ensures d in s.current && s.current[d] < |s.births| && StoredAs(s, d, s.current[d], s.events[d])
  {
  }

  /** One step: stored and not dropped, and never stored again under the same birth. */
  lemma StepStores(s: State, step: Step, d: DeliveryId, b: nat, event: WebhookEvent)
    requires Sound(s) && Possible(s, step) && b < |s.births|
    ensures b < |After(s, step).births|
    ensures StoredAs(After(s, step), d, b, event) <==> StoredAs(s, d, b, event) && !Drops(s, step, d, event)
  {
    StepBirths(s, step);
    hide Sound, Possible, After, StoredAs, Drops;
    if StoredAs(s, d, b, event) { StepKeepsUnlessDropped(s, step, d, b, event); }
    else { StepNeverRestores(s, step, d, b, event); }
  }

  /** An event is stored until a step drops it, and no longer. */
  lemma {:induction false} StoredUntilDropped(states: seq<State>, steps: seq<Step>, i: nat, j: nat, d: DeliveryId)
    requires Execution(states, steps) && i <= j < |states| && d in states[i].events
    ensures |states| == |steps| + 1 && d in states[i].current && states[i].current[d] < |states[j].births|
    ensures var b, event := states[i].current[d], states[i].events[d];
            StoredAs(states[j], d, b, event) <==> !Dropped(states, steps, i, j, d, b, event)
    decreases j
  {
    hide *;
    EveryRunIsSound(states, steps, i, i);
    StoredIsBorn(states[i], d);
    var b, event := states[i].current[d], states[i].events[d];
    NotYetDropped(states, steps, i, d, b, event);
    if i < j {
      StoredUntilDropped(states, steps, i, j - 1, d);
      EveryRunIsSound(states, steps, i, j - 1);
      StepAt(states, steps, j - 1);
      StepStores(states[j - 1], steps[j - 1], d, b, event);
      OneMoment(states, steps, i, j, d, b, event);
    }
  }

  lemma StepBirths(s: State, step: Step)
    requires Possible(s, step)
    ensures |s.births| <= |After(s, step).births|
  {
    hide Oldest, AvailableTo;
  }

  /**
   * In every run: two hand-outs of one stored event to one instance are more than a lease apart; `attempts`
   * counts the hand-outs; and an event that was stored is stored still, unless at some moment in between an
   * instance with a receipt for it acknowledged it, or ingress found it more than the retention period old.
   */
  lemma DeliveryNeitherOverlapsNorLoses(states: seq<State>, steps: seq<Step>, i: nat, j: nat)
    requires Execution(states, steps) && i <= j < |states|
    ensures states[i].handouts <= states[j].handouts
    ensures var handouts := states[j].handouts;
            forall x, y | 0 <= x < y < |handouts| && handouts[x].birth == handouts[y].birth
                          && handouts[x].instance == handouts[y].instance ::
              handouts[x].at + LEASE_SECONDS < handouts[y].at
    ensures forall d <- states[j].events, instance: InstanceId ::
              d in states[j].current
              && Count(states[j].handouts, states[j].current[d], instance) == AttemptsOf(states[j].receipts, d, instance)
    ensures |states| == |steps| + 1
    ensures forall d <- states[i].events ::
              d in states[i].current
              && (StoredAs(states[j], d, states[i].current[d], states[i].events[d])
                  || exists k :: i <= k < j && StoredAs(states[k], d, states[i].current[d], states[i].events[d])
                                 && Drops(states[k], steps[k], d, states[i].events[d]))
  {
    EveryRunIsSound(states, steps, i, j);
    forall d <- states[i].events { StoredUntilDropped(states, steps, i, j, d); }
    forall d <- states[j].events, instance: InstanceId { AttemptsCountHandOuts(states, steps, j, d, instance); }
    assert Logged(states[j].births, states[j].handouts, states[j].clock);
    hide Sound, Execution, Count, AttemptsOf, StoredAs, Drops;
  }

  function AttemptsOf(receipts: Receipts, d: DeliveryId, instance: InstanceId): nat {
    if (d, instance) in receipts then receipts[(d, instance)].attempts else 0
  }

  /** In every run the `attempts` column of a stored event is the number of times it was handed to the instance. */
  lemma AttemptsCountHandOuts(states: seq<State>, steps: seq<Step>, i: nat, d: DeliveryId, instance: InstanceId)
    requires Execution(states, steps) && i < |states| && d in states[i].events
    ensures d in states[i].current
    ensures Count(states[i].handouts, states[i].current[d], instance) == AttemptsOf(states[i].receipts, d, instance)
    ensures (d, instance) in states[i].receipts <==> exists h <- states[i].handouts :: h.birth == states[i].current[d] && h.instance == instance
  {
    var s, k := states[i], (d, instance);
    EveryRunIsSound(states, steps, i, i);
    CountedIsThere(s.handouts, s.current[d], instance);
    if k in s.receipts { assert Faithful(s.receipts[k], s.current[k.0], k.1, s.handouts); }
  }

  lemma LaterIsSound(s: State, time: int)
    requires Sound(s) && s.clock <= time
    ensures Sound(s.(clock := time))
  {
    LaterIsAccounted(s.events, s.births, s.current, s.fates, s.handouts, s.clock, time);
  }
}
