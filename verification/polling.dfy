/** Overlapping poll windows over a stable source. */
module Polling {
  import opened Telemetry
  import opened Wrappers

  const WINDOW := 300
  const OVERLAP := 60

  /** The closed window that a poll at `now` asks for ends here; times are seconds. */
  function WindowEnd(now: nat): int { now - now % WINDOW }

  function WindowStart(now: nat): int { WindowEnd(now) - WINDOW - OVERLAP }

  /** The observations made from `from` until just before `to`. */
  function Within(source: seq<Observation>, from: int, to: int): (r: seq<Observation>)
    ensures forall o :: o in r <==> o in source && from <= o.observedAt < to
  {
    if source == [] then [] else
      (if from <= source[0].observedAt < to then [source[0]] else []) + Within(source[1..], from, to)
  }

  /** How the runtime and the database answer a poll; without a run record nothing is collected. */
  datatype Answer = RunNotCreated | CollectFails | Answers(replies: nat -> Reply)

  datatype Poll = Poll(now: nat, answer: Answer)

  ghost function PollOnce(catalogue: Catalogue, source: seq<Observation>, store: Store, poll: Poll): Ingestion {
    match poll.answer
    case RunNotCreated => Ingestion(store, 0, 0, 0, true, false)
    case CollectFails => Ingestion(store, 0, 0, 0, true, false)
    case Answers(replies) =>
      Ingested(catalogue, store, Within(source, WindowStart(poll.now), WindowEnd(poll.now)), replies)
  }

  /** The record of a poll; it is finished whatever happened after it was created. */
  datatype IngestionRun = IngestionRun(accepted: nat, rejected: nat, deduplicated: nat, succeeded: bool)

  /** collectOne for one runtime whose reader reports the observations of the window. */
  method CollectOne(service: TelemetryService, source: seq<Observation>, poll: Poll)
        returns (finished: Option<IngestionRun>)
    modifies service`store
    ensures var end := PollOnce(service.catalogue, source, old(service.store), poll);
            && service.store == end.store
            && finished == if poll.answer.RunNotCreated? then None
                           else Some(IngestionRun(end.accepted, end.rejected, end.deduplicated, !end.failed))
    ensures !poll.answer.Answers? ==> service.store == old(service.store)
    ensures poll.answer.CollectFails? ==> finished == Some(IngestionRun(0, 0, 0, false))
    ensures poll.answer.Answers? ==>
              var seen := Within(source, WindowStart(poll.now), WindowEnd(poll.now));
              var end := Ingested(service.catalogue, old(service.store), seen, poll.answer.replies);
              && service.store == end.store
              && finished == Some(IngestionRun(end.accepted, end.rejected, end.deduplicated, !end.failed))
  {
    hide Ingested, Within;
    var to := poll.now - poll.now % WINDOW;
    var from := to - WINDOW - OVERLAP;
    if poll.answer.RunNotCreated? {
      return None;
    }
    var run := IngestionRun(0, 0, 0, false);
    if poll.answer.Answers? {
      var accepted, rejected, deduplicated, failed := service.Ingest(Within(source, from, to), poll.answer.replies);
      run := IngestionRun(accepted, rejected, deduplicated, !failed);
    }
    return Some(run);
  }

  ghost function StoreAfter(catalogue: Catalogue, source: seq<Observation>, polls: seq<Poll>): Store {
    if polls == [] then map[] else
      PollOnce(catalogue, source, StoreAfter(catalogue, source, polls[..|polls| - 1]), polls[|polls| - 1]).store
  }

  /** The database stores whatever can be normalized; what cannot is rejected and the rest goes on. */
  ghost predicate Delivered(catalogue: Catalogue, observations: seq<Observation>, replies: nat -> Reply) {
    forall n :: 0 <= n < |observations| ==> Normalized(catalogue, observations[n]).None? || replies(n) == Stored
  }

  ghost predicate Delivers(catalogue: Catalogue, source: seq<Observation>, poll: Poll) {
    poll.answer.Answers? &&
    Delivered(catalogue, Within(source, WindowStart(poll.now), WindowEnd(poll.now)), poll.answer.replies)
  }

  ghost function AcceptedBy(catalogue: Catalogue, source: seq<Observation>, polls: seq<Poll>): nat {
    if polls == [] then 0 else
      var init := polls[..|polls| - 1];
      AcceptedBy(catalogue, source, init) +
      PollOnce(catalogue, source, StoreAfter(catalogue, source, init), polls[|polls| - 1]).accepted
  }

  /** The source reports every observation under one key and does not change its mind about it. */
  ghost predicate Stable(source: seq<Observation>) {
    forall i, j :: 0 <= i < j < |source| ==> KeyOf(source[i]) != KeyOf(source[j])
  }

  lemma SameKeySameObservation(source: seq<Observation>, a: Observation, b: Observation)
    requires Stable(source) && a in source && b in source && KeyOf(a) == KeyOf(b)
    ensures a == b
  {
    var i :| 0 <= i < |source| && source[i] == a;
    var j :| 0 <= j < |source| && source[j] == b;
  }

  /** Windows of consecutive slots overlap by a minute, and together they leave no gap. */
  lemma WindowsCover(first: nat, last: nat, t: int) returns (slot: nat)
    requires first <= last && WINDOW * first - WINDOW - OVERLAP <= t < WINDOW * last
    ensures first <= slot <= last
    ensures forall now: nat :: now / WINDOW == slot ==> WindowStart(now) <= t < WindowEnd(now)
  {
    slot := if t < WINDOW * first then first else t / WINDOW + 1;
    forall now: nat | now / WINDOW == slot ensures WindowStart(now) <= t < WindowEnd(now) {
      assert WindowEnd(now) == WINDOW * slot;
    }
  }

  /** A window ends at the last full five minutes and reaches back six minutes from there. */
  lemma WindowShape(now: nat)
    ensures WindowEnd(now) % 300 == 0 && now - 300 < WindowEnd(now) <= now
    ensures WindowStart(now) == WindowEnd(now) - 360
  {
  }

  // ----- What a store can hold -----

  /** The stored form of an observation of the source. */
  ghost predicate FromSource(catalogue: Catalogue, source: seq<Observation>, key: Key, stored: Observation, from: int,
                             to: int) {
    exists o :: o in source && from <= o.observedAt < to && KeyOf(o) == key && Normalized(catalogue, o) == Some(stored)
  }

  ghost predicate HoldsOnly(catalogue: Catalogue, source: seq<Observation>, store: Store, from: int, to: int) {
    forall key :: key in store ==> FromSource(catalogue, source, key, store[key], from, to)
  }

  ghost predicate HoldsAll(catalogue: Catalogue, store: Store, observations: seq<Observation>) {
    forall o :: o in observations && Normalized(catalogue, o).Some? ==> KeyOf(o) in store
  }

  lemma OneMoreHolds(catalogue: Catalogue, source: seq<Observation>, s: Ingestion, init: seq<Observation>,
                     o: Observation, reply: Reply, from: int, to: int)
    requires HoldsOnly(catalogue, source, s.store, from, to) && o in source && from <= o.observedAt < to
    ensures var end := IngestOne(catalogue, s, o, reply);
            && HoldsOnly(catalogue, source, end.store, from, to)
            && (&& !s.stopped && HoldsAll(catalogue, s.store, init)
                && (Normalized(catalogue, o).None? || reply == Stored) ==>
                  !end.stopped && HoldsAll(catalogue, end.store, init + [o]))
  {
    hide Normalized, FromSource;
    if Normalized(catalogue, o).Some? {
      NormalizedKeepsKey(catalogue, o);
      IsFromSource(catalogue, source, o, from, to);
    }
  }

  lemma IsFromSource(catalogue: Catalogue, source: seq<Observation>, o: Observation, from: int, to: int)
    requires o in source && from <= o.observedAt < to && Normalized(catalogue, o).Some?
    ensures FromSource(catalogue, source, KeyOf(o), Normalized(catalogue, o).value, from, to)
  {
    hide Normalized;
  }

  lemma {:induction false} IngestHolds(catalogue: Catalogue, source: seq<Observation>, store: Store,
                                       observations: seq<Observation>, replies: nat -> Reply, from: int, to: int)
    requires HoldsOnly(catalogue, source, store, from, to)
    requires forall o :: o in observations ==> o in source && from <= o.observedAt < to
    ensures var end := Ingested(catalogue, store, observations, replies);
            && HoldsOnly(catalogue, source, end.store, from, to)
            && (Delivered(catalogue, observations, replies) ==>
                  !end.stopped && HoldsAll(catalogue, end.store, observations))
  {
    hide Normalized, HoldsOnly, HoldsAll, IngestOne, Delivered;
    if observations == [] {
      HoldsNothing(catalogue, store);
    } else {
      var n := |observations| - 1;
      var init, o := observations[..n], observations[n];
      assert observations == init + [o];
      IngestHolds(catalogue, source, store, init, replies, from, to);
      DeliveredSnoc(catalogue, init, o, replies);
      OneMoreHolds(catalogue, source, Ingested(catalogue, store, init, replies), init, o, replies(n), from, to);
    }
  }

  lemma DeliveredSnoc(catalogue: Catalogue, init: seq<Observation>, o: Observation, replies: nat -> Reply)
    ensures Delivered(catalogue, init + [o], replies) <==>
              Delivered(catalogue, init, replies) && (Normalized(catalogue, o).None? || replies(|init|) == Stored)
  {
    hide Normalized;
    var all := init + [o];
    assert all[|init|] == o && forall n :: 0 <= n < |init| ==> all[n] == init[n];
  }

  lemma HoldsNothing(catalogue: Catalogue, store: Store)
    ensures HoldsAll(catalogue, store, [])
  {
  }

  /** Two stores that hold only observations of one stable source agree wherever both have a row. */
  lemma SameRows(catalogue: Catalogue, source: seq<Observation>, a: Store, b: Store, from: int, to: int)
    requires Stable(source) && HoldsOnly(catalogue, source, a, from, to) && HoldsOnly(catalogue, source, b, from, to)
    requires a.Keys == b.Keys
    ensures a == b
  {
    hide Normalized;
    forall key | key in a ensures a[key] == b[key] {
      assert FromSource(catalogue, source, key, a[key], from, to) &&
             FromSource(catalogue, source, key, b[key], from, to);
      var o :| o in source && KeyOf(o) == key && Normalized(catalogue, o) == Some(a[key]);
      var p :| p in source && KeyOf(p) == key && Normalized(catalogue, p) == Some(b[key]);
      SameKeySameObservation(source, o, p);
    }
  }

  lemma {:induction false} PollsHold(catalogue: Catalogue, source: seq<Observation>, polls: seq<Poll>, first: nat,
                                     last: nat)
    requires forall i :: 0 <= i < |polls| ==> first <= polls[i].now / WINDOW <= last
    ensures var store := StoreAfter(catalogue, source, polls);
            && HoldsOnly(catalogue, source, store, WINDOW * first - WINDOW - OVERLAP, WINDOW * last)
            && |store| == AcceptedBy(catalogue, source, polls)
  {
    hide Normalized, PollOnce, HoldsOnly, WindowStart, WindowEnd;
    if polls == [] {
      NothingStored(catalogue, source, WINDOW * first - WINDOW - OVERLAP, WINDOW * last);
    } else {
      var init := polls[..|polls| - 1];
      PollsHold(catalogue, source, init, first, last);
      PollHolds(catalogue, source, StoreAfter(catalogue, source, init), polls[|polls| - 1], first, last);
    }
  }

  /** What a poll that delivers saw stays in the store, whatever later polls do. */
  lemma {:induction false} DeliveredStays(catalogue: Catalogue, source: seq<Observation>, polls: seq<Poll>, i: nat,
                                        first: nat, last: nat, o: Observation)
    requires forall j :: 0 <= j < |polls| ==> first <= polls[j].now / WINDOW <= last
    requires i < |polls| && Delivers(catalogue, source, polls[i]) && Normalized(catalogue, o).Some?
    requires o in Within(source, WindowStart(polls[i].now), WindowEnd(polls[i].now))
    ensures KeyOf(o) in StoreAfter(catalogue, source, polls)
    decreases |polls|
  {
    hide Normalized, PollOnce, HoldsOnly, WindowStart, WindowEnd, Delivers;
    var n := |polls| - 1;
    var init := polls[..n];
    PollsHold(catalogue, source, init, first, last);
    PollHolds(catalogue, source, StoreAfter(catalogue, source, init), polls[n], first, last);
    if i < n {
      assert init[..i] == polls[..i];
      DeliveredStays(catalogue, source, init, i, first, last, o);
    }
  }

  lemma NothingStored(catalogue: Catalogue, source: seq<Observation>, from: int, to: int)
    ensures HoldsOnly(catalogue, source, map[], from, to)
  {
  }

  lemma PollHolds(catalogue: Catalogue, source: seq<Observation>, store: Store, poll: Poll, first: nat, last: nat)
    requires first <= poll.now / WINDOW <= last
    requires HoldsOnly(catalogue, source, store, WINDOW * first - WINDOW - OVERLAP, WINDOW * last)
    ensures var end := PollOnce(catalogue, source, store, poll);
            && HoldsOnly(catalogue, source, end.store, WINDOW * first - WINDOW - OVERLAP, WINDOW * last)
            && store.Keys <= end.store.Keys && |end.store| == |store| + end.accepted
            && (Delivers(catalogue, source, poll) ==>
                  HoldsAll(catalogue, end.store, Within(source, WindowStart(poll.now), WindowEnd(poll.now))))
  {
    hide Normalized, Ingested, HoldsAll, HoldsOnly, Delivered;
    if poll.answer.Answers? {
      var observations := Within(source, WindowStart(poll.now), WindowEnd(poll.now));
      assert WindowEnd(poll.now) == WINDOW * (poll.now / WINDOW);
      IngestHolds(catalogue, source, store, observations, poll.answer.replies,
                  WINDOW * first - WINDOW - OVERLAP, WINDOW * last);
      IngestCounts(catalogue, store, observations, poll.answer.replies);
    }
  }

  function AlwaysStored(): nat -> Reply { (n: nat) => Stored }

  /** A pass over a working database fails exactly if there is something in it to reject. */
  lemma {:induction false} OnePassFails(catalogue: Catalogue, store: Store, observations: seq<Observation>)
    ensures !Ingested(catalogue, store, observations, AlwaysStored()).stopped
    ensures Ingested(catalogue, store, observations, AlwaysStored()).failed <==>
              exists o :: o in observations && Normalized(catalogue, o).None?
  {
    hide Normalized;
    if observations != [] {
      var n := |observations| - 1;
      assert observations == observations[..n] + [observations[n]];
      OnePassFails(catalogue, store, observations[..n]);
    }
  }

  /** Some poll of the slot delivers. */
  ghost predicate SlotCovered(catalogue: Catalogue, source: seq<Observation>, polls: seq<Poll>, slot: nat) {
    exists i :: 0 <= i < |polls| && polls[i].now / WINDOW == slot && Delivers(catalogue, source, polls[i])
  }

  /**
   * With at least one poll that delivers in every slot from first to last, whatever the other polls there did and
   * however many observations are malformed, the store is what ingesting each observation of the whole span once
   * leaves, and the accepted totals add up to the number of its rows.
   */
  lemma OverlappingPollsEqualOnePass(catalogue: Catalogue, source: seq<Observation>, polls: seq<Poll>, first: nat,
                                     last: nat)
    requires Stable(source) && first <= last
    requires forall i :: 0 <= i < |polls| ==> first <= polls[i].now / WINDOW <= last
    requires forall slot :: first <= slot <= last ==> SlotCovered(catalogue, source, polls, slot)
    ensures var span := Within(source, WINDOW * first - WINDOW - OVERLAP, WINDOW * last);
            var onePass := Ingested(catalogue, map[], span, AlwaysStored());
            && StoreAfter(catalogue, source, polls) == onePass.store
            && AcceptedBy(catalogue, source, polls) == onePass.accepted
            && (onePass.failed <==> exists o :: o in span && Normalized(catalogue, o).None?)
  {
    hide Normalized, Ingested, StoreAfter, AcceptedBy, Delivers, Delivered, HoldsOnly, WindowStart, WindowEnd;
    NothingStored(catalogue, source, WINDOW * first - WINDOW - OVERLAP, WINDOW * last);
    var from, to := WINDOW * first - WINDOW - OVERLAP, WINDOW * last;
    var span := Within(source, from, to);
    var store, onePass := StoreAfter(catalogue, source, polls), Ingested(catalogue, map[], span, AlwaysStored());
    PollsHold(catalogue, source, polls, first, last);
    forall o | o in span && Normalized(catalogue, o).Some? ensures KeyOf(o) in store {
      var slot := WindowsCover(first, last, o.observedAt);
      assert SlotCovered(catalogue, source, polls, slot);
      var i :| 0 <= i < |polls| && polls[i].now / WINDOW == slot && Delivers(catalogue, source, polls[i]);
      DeliveredStays(catalogue, source, polls, i, first, last, o);
    }
    OnePassFails(catalogue, map[], span);
    AlwaysDelivers(catalogue, span);
    IngestHolds(catalogue, source, map[], span, AlwaysStored(), from, to);
    IngestCounts(catalogue, map[], span, AlwaysStored());
    SameKeysOfSpan(catalogue, source, store, onePass.store, from, to);
    SameRows(catalogue, source, store, onePass.store, from, to);
  }

  lemma AlwaysDelivers(catalogue: Catalogue, observations: seq<Observation>)
    ensures Delivered(catalogue, observations, AlwaysStored())
  {
  }

  lemma UnfailedIsStored(catalogue: Catalogue, s: Ingestion, o: Observation, reply: Reply)
    requires s.stopped ==> s.failed
    ensures !IngestOne(catalogue, s, o, reply).failed ==> !s.failed && reply == Stored
  {
    hide Normalized;
  }

  /** In particular a poll that reports no failure delivers. */
  lemma {:induction false} UnfailedIsDelivered(catalogue: Catalogue, store: Store, observations: seq<Observation>,
                                               replies: nat -> Reply)
    ensures !Ingested(catalogue, store, observations, replies).failed ==> Delivered(catalogue, observations, replies)
  {
    hide Normalized, Delivered, IngestOne;
    if observations == [] {
      assert Delivered(catalogue, [], replies) by { NothingToDeliver(catalogue, replies); }
    } else {
      var n := |observations| - 1;
      var init, o := observations[..n], observations[n];
      assert observations == init + [o];
      UnfailedIsDelivered(catalogue, store, init, replies);
      IngestCounts(catalogue, store, init, replies);
      UnfailedIsStored(catalogue, Ingested(catalogue, store, init, replies), o, replies(n));
      DeliveredSnoc(catalogue, init, o, replies);
    }
  }

  lemma NothingToDeliver(catalogue: Catalogue, replies: nat -> Reply)
    ensures Delivered(catalogue, [], replies)
  {
  }

  lemma SameKeysOfSpan(catalogue: Catalogue, source: seq<Observation>, a: Store, b: Store, from: int, to: int)
    requires HoldsOnly(catalogue, source, a, from, to) && HoldsOnly(catalogue, source, b, from, to)
    requires HoldsAll(catalogue, a, Within(source, from, to)) && HoldsAll(catalogue, b, Within(source, from, to))
    ensures a.Keys == b.Keys
  {
    hide Normalized;
    forall key ensures key in a <==> key in b {
      if key in a {
        assert FromSource(catalogue, source, key, a[key], from, to);
      }
      if key in b {
        assert FromSource(catalogue, source, key, b[key], from, to);
      }
    }
  }
}
