/** The per-row counters as a fast form of a statement about the whole history of successful snapshots. */
module SyncHistory {
  import opened Snapshots
  import opened SyncStore

  datatype Event = Succeeded(run: RunId, snapshot: Snapshot) | Failed(run: RunId) | Deleted(agent: string)

  function Apply(t: Tables, event: Event, threshold: nat): Tables {
    match event
    case Succeeded(run, snapshot) => Persisted(t, run, snapshot, threshold)
    case Failed(_) => t
    case Deleted(agent) => MarkDeleted(t, agent)
  }

  /** The tables of a runtime after all of history. */
  function Replay(history: seq<Event>, threshold: nat): Tables {
    if history == [] then NO_TABLES
    else Apply(Replay(history[..|history| - 1], threshold), history[|history| - 1], threshold)
  }

  ghost predicate RunsOnce(history: seq<Event>) {
    forall i, j :: 0 <= i < j < |history| && history[i].Succeeded? && history[j].Succeeded? ==>
      history[i].run != history[j].run
  }

  /** What was last said about the item itself, by a snapshot that lists it or by its deletion, is that it is stale. */
  ghost predicate ReportedStale(history: seq<Event>, item: Item) {
    history != [] &&
    var init, last := history[..|history| - 1], history[|history| - 1];
    if last.Succeeded? && Lists(last.snapshot, item) then ReportsStale(last.snapshot, item)
    else if last.Deleted? && item == AgentItemOf(last.agent) then false
    else ReportedStale(init, item)
  }

  // ----- The reference: successful snapshots alone -----

  /** The snapshots of the successful syncs, oldest first. */
  function Successes(history: seq<Event>): seq<Snapshot> {
    if history == [] then [] else
      var init := Successes(history[..|history| - 1]);
      match history[|history| - 1]
      case Succeeded(_, snapshot) => init + [snapshot]
      case _ => init
  }

  /** The last n of them, or all if there are fewer. */
  function LastSuccesses(history: seq<Event>, n: nat): seq<Snapshot> {
    var all := Successes(history);
    if |all| <= n then all else all[|all| - n..]
  }

  ghost predicate ListedIn(snapshots: seq<Snapshot>, item: Item) {
    exists i :: 0 <= i < |snapshots| && Lists(snapshots[i], item)
  }

  /** How many of the snapshots come after the last one that lists the item. */
  ghost function SinceListed(snapshots: seq<Snapshot>, item: Item): nat {
    if snapshots == [] || Lists(snapshots[|snapshots| - 1], item) then 0
    else 1 + SinceListed(snapshots[..|snapshots| - 1], item)
  }

  /** SinceListed as an index: everything after it leaves the item out, and it is listed just before. */
  lemma {:induction false} SinceListedIsExact(snapshots: seq<Snapshot>, item: Item)
    ensures var n := SinceListed(snapshots, item);
            && n <= |snapshots|
            && (forall i :: |snapshots| - n <= i < |snapshots| ==> !Lists(snapshots[i], item))
            && (n < |snapshots| ==> Lists(snapshots[|snapshots| - n - 1], item))
  {
    if snapshots != [] && !Lists(snapshots[|snapshots| - 1], item) {
      var init := snapshots[..|snapshots| - 1];
      SinceListedIsExact(init, item);
      forall i | |init| - SinceListed(init, item) <= i < |init| ensures !Lists(snapshots[i], item) {
        assert !Lists(init[i], item);
      }
    }
  }

  /** The counter reaches the threshold exactly when the last `threshold` successes all leave the item out. */
  lemma ThresholdMeansAbsent(history: seq<Event>, item: Item, threshold: nat)
    requires ListedIn(Successes(history), item)
    ensures SinceListed(Successes(history), item) >= threshold <==> !ListedIn(LastSuccesses(history, threshold), item)
  {
    hide Successes, SinceListed, Lists;
    var all := Successes(history);
    var n := SinceListed(all, item);
    SinceListedIsExact(all, item);
    ListedSince(all, item, n);
    if |all| > threshold {
      InLast(all, item, n, threshold);
    }
  }

  /** What is listed at all was listed just before the n snapshots that leave it out. */
  lemma ListedSince(all: seq<Snapshot>, item: Item, n: nat)
    requires ListedIn(all, item) && n <= |all| && forall i :: |all| - n <= i < |all| ==> !Lists(all[i], item)
    ensures n < |all|
  {
    hide Lists;
    var i :| 0 <= i < |all| && Lists(all[i], item);
  }

  lemma InLast(all: seq<Snapshot>, item: Item, n: nat, threshold: nat)
    requires n < |all| && threshold < |all| && Lists(all[|all| - n - 1], item)
    requires forall i :: |all| - n <= i < |all| ==> !Lists(all[i], item)
    ensures ListedIn(all[|all| - threshold..], item) <==> n < threshold
  {
    hide Lists;
    var start := |all| - threshold;
    if n < threshold {
      assert all[start..][threshold - n - 1] == all[|all| - n - 1];
    } else {
      forall i | 0 <= i < threshold ensures !Lists(all[start..][i], item) {
        assert all[start..][i] == all[start + i];
      }
    }
  }

  // ----- The counters follow the reference -----

  /** The row of the item agrees with the history. */
  ghost predicate RowFollows(history: seq<Event>, threshold: nat, item: Item) {
    var t, all := Replay(history, threshold), Successes(history);
    && (Present(t, item) <==> ListedIn(all, item))
    && (Present(t, item) ==>
          && UsedRun(history, LastSeen(t, item))
          && MissingSyncs(t, item) == SinceListed(all, item)
          && (IsStale(t, item) ==> SinceListed(all, item) >= threshold || ReportedStale(history, item))
          && (ReportedStale(history, item) ==> IsStale(t, item))
          && (SinceListed(all, item) >= threshold && (Settled(history) || !item.AgentItemOf?) ==> IsStale(t, item)))
  }

  ghost predicate UsedRun(history: seq<Event>, run: RunId) {
    exists i :: 0 <= i < |history| && history[i].Succeeded? && history[i].run == run
  }

  /** The last thing that happened was a successful sync. */
  predicate Settled(history: seq<Event>) {
    history != [] && history[|history| - 1].Succeeded?
  }

  lemma SnocListed(snapshots: seq<Snapshot>, last: Snapshot, item: Item)
    ensures ListedIn(snapshots + [last], item) <==> ListedIn(snapshots, item) || Lists(last, item)
    ensures SinceListed(snapshots + [last], item) == if Lists(last, item) then 0 else 1 + SinceListed(snapshots, item)
  {
    var all := snapshots + [last];
    assert all[..|snapshots|] == snapshots && all[|snapshots|] == last;
    if ListedIn(snapshots, item) {
      var i :| 0 <= i < |snapshots| && Lists(snapshots[i], item);
      assert all[i] == snapshots[i];
    }
  }

  lemma UsedRunSnoc(init: seq<Event>, last: Event, run: RunId)
    ensures UsedRun(init + [last], run) <==> UsedRun(init, run) || (last.Succeeded? && last.run == run)
  {
    var all := init + [last];
    assert all[|init|] == last;
    if UsedRun(init, run) {
      var i :| 0 <= i < |init| && init[i].Succeeded? && init[i].run == run;
      assert all[i] == init[i];
    }
  }

  /** A successful sync keeps a row in step with the history. */
  lemma SuccessKeepsRow(init: seq<Event>, run: RunId, snapshot: Snapshot, threshold: nat, item: Item)
    requires threshold > 0 && RowFollows(init, threshold, item) && FreshRun(Replay(init, threshold), run)
    ensures RowFollows(init + [Succeeded(run, snapshot)], threshold, item)
  {
    hide Persisted, Lists, ListedIn, SinceListed, UsedRun, Present, MissingSyncs, LastSeen, IsStale;
    var history := init + [Succeeded(run, snapshot)];
    assert history[..|history| - 1] == init;
    PersistedRow(Replay(init, threshold), run, snapshot, threshold, item);
    SnocListed(Successes(init), snapshot, item);
    UsedRunSnoc(init, Succeeded(run, snapshot), run);
    if Present(Replay(init, threshold), item) {
      UsedRunSnoc(init, Succeeded(run, snapshot), LastSeen(Replay(init, threshold), item));
    }
  }

  lemma {:induction false} RowsFollowHistory(history: seq<Event>, threshold: nat, item: Item)
    requires threshold > 0 && RunsOnce(history)
    ensures RowFollows(history, threshold, item)
  {
    if history != [] {
      var n := |history| - 1;
      var init, last := history[..n], history[n];
      assert history == init + [last];
      RowsFollowHistory(init, threshold, item);
      if last.Succeeded? {
        assert !UsedRun(init, last.run);
        RunIsFresh(init, threshold, last.run);
        assert history[n].Succeeded?;
        SuccessKeepsRow(init, last.run, last.snapshot, threshold, item);
      } else if Present(Replay(init, threshold), item) {
        UsedRunSnoc(init, last, LastSeen(Replay(init, threshold), item));
      }
    }
  }

  lemma {:induction false} RunIsFresh(history: seq<Event>, threshold: nat, run: RunId)
    requires threshold > 0 && RunsOnce(history) && !UsedRun(history, run)
    ensures FreshRun(Replay(history, threshold), run)
    decreases |history|, 1
  {
    forall item | Present(Replay(history, threshold), item) ensures LastSeen(Replay(history, threshold), item) != run {
      StampIsUsed(history, threshold, item);
    }
  }

  /** Rows carry only the ids of runs that succeeded. */
  lemma {:induction false} StampIsUsed(history: seq<Event>, threshold: nat, item: Item)
    requires threshold > 0 && RunsOnce(history) && Present(Replay(history, threshold), item)
    ensures UsedRun(history, LastSeen(Replay(history, threshold), item))
    decreases |history|, 0
  {
    var n := |history| - 1;
    var init, last := history[..n], history[n];
    assert history == init + [last];
    if last.Succeeded? {
      assert !UsedRun(init, last.run);
      RunIsFresh(init, threshold, last.run);
      PersistedRow(Replay(init, threshold), last.run, last.snapshot, threshold, item);
      UsedRunSnoc(init, last, last.run);
    }
    if Present(Replay(init, threshold), item) {
      StampIsUsed(init, threshold, item);
      UsedRunSnoc(init, last, LastSeen(Replay(init, threshold), item));
    }
  }

  /**
   * Right after a successful sync, an agent, a skill binding or a delegation has a row exactly if some success
   * listed it, its counter is the number of successes since, and it is stale exactly if it is in none of the
   * last `threshold` of them or, for an agent, if the runtime itself last reported it as stale.
   */
  lemma CountersRefineHistory(history: seq<Event>, threshold: nat, item: Item)
    requires threshold > 0 && RunsOnce(history) && Settled(history)
    ensures var t := Replay(history, threshold);
            && (Present(t, item) <==> ListedIn(Successes(history), item))
            && (Present(t, item) ==>
                  && MissingSyncs(t, item) == SinceListed(Successes(history), item)
                  && (IsStale(t, item) <==>
                        !ListedIn(LastSuccesses(history, threshold), item) || ReportedStale(history, item)))
  {
    RowsFollowHistory(history, threshold, item);
    if ListedIn(Successes(history), item) {
      ThresholdMeansAbsent(history, item, threshold);
    }
  }

  /** Snapshots that never report staleness, and items that are no agents, leave only the counting. */
  lemma {:induction false} OnlyReportsCanSayStale(history: seq<Event>, item: Item)
    ensures ReportedStale(history, item) ==>
              item.AgentItemOf? && exists snapshot :: snapshot in Successes(history) && ReportsStale(snapshot, item)
  {
    if history != [] {
      OnlyReportsCanSayStale(history[..|history| - 1], item);
    }
  }

  /** For runtimes that never report staleness, staleness is absence from the last `threshold` successes. */
  lemma StaleMeansAbsent(history: seq<Event>, threshold: nat, item: Item)
    requires threshold > 0 && RunsOnce(history) && Settled(history)
    requires forall snapshot :: snapshot in Successes(history) ==> !ReportsStale(snapshot, item)
    ensures var t := Replay(history, threshold);
            Present(t, item) ==> (IsStale(t, item) <==> !ListedIn(LastSuccesses(history, threshold), item))
  {
    CountersRefineHistory(history, threshold, item);
    OnlyReportsCanSayStale(history, item);
  }

  /** An agent that the very last snapshot lists and that is stale all the same: the runtime says so itself. */
  lemma ListedAgentsCanBeStale()
    ensures exists history, agent ::
              Settled(history) && RunsOnce(history) && ListedIn(LastSuccesses(history, 3), AgentItemOf(agent)) &&
              Present(Replay(history, 3), AgentItemOf(agent)) && IsStale(Replay(history, 3), AgentItemOf(agent))
  {
    var item := AgentItem("x", Stale, [], "", "", 0);
    var snapshot := Snapshot([item], [], [], [], [], [], []);
    var history := [Succeeded(1, snapshot)];
    var subject := AgentItemOf("x");
    assert history[..0] == [] && Successes([]) == [];
    assert Successes(history) == [snapshot];
    assert LastSuccesses(history, 3) == [snapshot];
    assert snapshot.agents[0].runtimeId == "x";
    assert Lists([snapshot][0], subject);
    assert ReportsStale(snapshot, subject);
    CountersRefineHistory(history, 3, subject);
  }
}
