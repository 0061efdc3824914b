/** The access documents and agent statuses that synchronisation stores, as statements about the whole history. */
module SyncDocuments {
  import opened Snapshots
  import opened SyncHistory
  import opened SyncStore
  import opened Wrappers

  // ----- One snapshot -----

  /** The document that a snapshot gives an agent last; agents without a source bring none. */
  function LastDocument(items: seq<AgentItem>, agent: string): Option<int> {
    if items == [] then None
    else if items[|items| - 1].runtimeId == agent && items[|items| - 1].accessSource != "" then
      Some(items[|items| - 1].access)
    else LastDocument(items[..|items| - 1], agent)
  }

  /** New documents are written, and no other document changes. */
  ghost predicate DocumentsWritten(before: map<string, int>, after: map<string, int>, items: seq<AgentItem>) {
    && (forall k :: k in after <==> k in before || LastDocument(items, k).Some?)
    && (forall k :: k in after ==>
          after[k] == if LastDocument(items, k).Some? then LastDocument(items, k).value else before[k])
  }

  lemma OneDocumentWritten(before: map<string, int>, items: seq<AgentItem>, last: AgentItem, u: Tables)
    requires DocumentsWritten(before, u.access, items)
    ensures DocumentsWritten(before, UpsertAccess(u, last).access, items + [last])
  {
    var all := items + [last];
    assert all[|items|] == last && all[..|items|] == items;
  }

  lemma {:induction false} AgentsBringDocuments(t: Tables, run: RunId, items: seq<AgentItem>)
    ensures DocumentsWritten(t.access, UpsertAgents(t, run, items).access, items)
  {
    hide UpsertAccess, UpsertSkills;
    if items == [] {
      assert DocumentsWritten(t.access, t.access, []);
    } else {
      hide DocumentsWritten;
      var n := |items| - 1;
      var item, init := items[n], UpsertAgents(t, run, items[..n]);
      assert items == items[..n] + [item];
      AgentsBringDocuments(t, run, items[..n]);
      SkillsUpserted(UpsertAgent(init, run, item), run, item.runtimeId, item.skills);
      OneDocumentWritten(t.access, items[..n], item,
                         UpsertSkills(UpsertAgent(init, run, item), run, item.runtimeId, item.skills));
    }
  }

  lemma PersistedDocuments(t: Tables, run: RunId, snapshot: Snapshot, threshold: nat)
    ensures DocumentsWritten(t.access, Persisted(t, run, snapshot, threshold).access, snapshot.agents)
  {
    hide DocumentsWritten, UpsertAgents, UpsertDelegations;
    AgentsBringDocuments(t, run, snapshot.agents);
    DelegationsUpserted(UpsertAgents(t, run, snapshot.agents), run, snapshot.delegations);
  }

  ghost predicate IsDocument(item: AgentItem, agent: string, document: int) {
    item.runtimeId == agent && item.accessSource != "" && item.access == document
  }

  ghost predicate BringsDocument(items: seq<AgentItem>, agent: string, document: int) {
    exists i :: 0 <= i < |items| && IsDocument(items[i], agent, document)
  }

  lemma BringsSnoc(init: seq<AgentItem>, last: AgentItem, agent: string, document: int)
    ensures BringsDocument(init + [last], agent, document) <==>
              BringsDocument(init, agent, document) || IsDocument(last, agent, document)
  {
    var all := init + [last];
    assert all[|init|] == last;
    if BringsDocument(init, agent, document) {
      var i :| 0 <= i < |init| && IsDocument(init[i], agent, document);
      assert all[i] == init[i];
    }
  }

  /** Where no agent is listed twice, the last document is the only one. */
  lemma {:induction false} OnlyDocument(items: seq<AgentItem>, agent: string)
    requires OneRowEach(items, AgentRow)
    ensures forall document :: BringsDocument(items, agent, document) <==> LastDocument(items, agent) == Some(document)
  {
    if items != [] {
      var n := |items| - 1;
      var init, last := items[..n], items[n];
      assert items == init + [last];
      OnlyDocument(init, agent);
      forall document
        ensures BringsDocument(items, agent, document) <==> LastDocument(items, agent) == Some(document)
      {
        BringsSnoc(init, last, agent, document);
        NotTwice(items, agent, document);
      }
    }
  }

  lemma NotTwice(items: seq<AgentItem>, agent: string, document: int)
    requires items != [] && OneRowEach(items, AgentRow)
    ensures items[|items| - 1].runtimeId == agent ==> !BringsDocument(items[..|items| - 1], agent, document)
  {
    var n := |items| - 1;
    var init := items[..n];
    forall i | 0 <= i < n ensures init[i].runtimeId != items[n].runtimeId {
      assert AgentRow(items[i]) != AgentRow(items[n]);
    }
  }

  /**
   * An accepted snapshot stores exactly the documents it brings: an agent with a source ends with its document, and
   * every other agent keeps what it had.
   */
  lemma AccessIsPersisted(t: Tables, run: RunId, snapshot: Snapshot, threshold: nat)
    requires Accepted(snapshot)
    ensures var access := Persisted(t, run, snapshot, threshold).access;
            && (forall i :: 0 <= i < |snapshot.agents| && snapshot.agents[i].accessSource != "" ==>
                  && snapshot.agents[i].runtimeId in access
                  && access[snapshot.agents[i].runtimeId] == snapshot.agents[i].access)
            && (forall k :: (forall document :: !BringsDocument(snapshot.agents, k, document)) ==>
                  (k in access <==> k in t.access) && (k in access ==> access[k] == t.access[k]))
  {
    hide Persisted, Accepted, LastDocument;
    PersistedDocuments(t, run, snapshot, threshold);
    AcceptedHasOneRowEach(snapshot);
    forall i | 0 <= i < |snapshot.agents| && snapshot.agents[i].accessSource != ""
      ensures LastDocument(snapshot.agents, snapshot.agents[i].runtimeId) == Some(snapshot.agents[i].access)
    {
      OnlyDocument(snapshot.agents, snapshot.agents[i].runtimeId);
      assert BringsDocument(snapshot.agents, snapshot.agents[i].runtimeId, snapshot.agents[i].access);
    }
    forall k ensures LastDocument(snapshot.agents, k).Some? ==>
                       BringsDocument(snapshot.agents, k, LastDocument(snapshot.agents, k).value)
    {
      OnlyDocument(snapshot.agents, k);
    }
  }

  // ----- Whole histories -----

  /** The document of the last success that brought the agent one. */
  ghost function DocumentSaid(history: seq<Event>, agent: string): Option<int> {
    if history == [] then None else
      var last := history[|history| - 1];
      if last.Succeeded? && LastDocument(last.snapshot.agents, agent).Some?
      then LastDocument(last.snapshot.agents, agent)
      else DocumentSaid(history[..|history| - 1], agent)
  }

  /** The stored document is that one, through failures and deletions alike. */
  lemma {:induction false} DocumentsFollowHistory(history: seq<Event>, threshold: nat, agent: string)
    ensures var access := Replay(history, threshold).access;
            (if agent in access then Some(access[agent]) else None) == DocumentSaid(history, agent)
  {
    hide Persisted, LastDocument;
    if history != [] {
      var n := |history| - 1;
      DocumentsFollowHistory(history[..n], threshold, agent);
      if history[n].Succeeded? {
        PersistedDocuments(Replay(history[..n], threshold), history[n].run, history[n].snapshot, threshold);
      }
    }
  }

  /** What was said last about an agent's status: by a snapshot that lists it, or by its deletion. */
  ghost function StatusSaid(history: seq<Event>, agent: string): Option<AgentStatus> {
    if history == [] then None else
      var init, last := StatusSaid(history[..|history| - 1], agent), history[|history| - 1];
      match last
      case Succeeded(_, snapshot) =>
        if LastReport(snapshot.agents, agent).Some? then LastReport(snapshot.agents, agent) else init
      case Failed(_) => init
      case Deleted(a) => if a == agent && init.Some? then Some(Disabled) else init
  }

  lemma PersistedStatus(t: Tables, run: RunId, snapshot: Snapshot, threshold: nat, agent: string)
    requires threshold > 0 && FreshRun(t, run)
    ensures var u, report := Persisted(t, run, snapshot, threshold), LastReport(snapshot.agents, agent);
            && (agent in u.agents <==> agent in t.agents || report.Some?)
            && (report.Some? ==> u.agents[agent].status == report.value)
            && (agent in t.agents && report.None? ==>
                  u.agents[agent].status ==
                  if u.agents[agent].missing >= threshold then Stale else t.agents[agent].status)
  {
    hide UpsertDelegations, UpsertAgents;
    var v := UpsertAgents(t, run, snapshot.agents);
    AgentsUpserted(t, run, snapshot.agents);
    DelegationsUpserted(v, run, snapshot.delegations);
    ReportedIsListed(snapshot.agents, agent);
    assert agent in t.agents ==> Present(t, AgentItemOf(agent)) && LastSeen(t, AgentItemOf(agent)) != run;
  }

  lemma {:induction false} ReportedIsListed(items: seq<AgentItem>, agent: string)
    ensures LastReport(items, agent).Some? <==> ListsAgent(items, agent)
  {
    if items != [] {
      var n := |items| - 1;
      assert items == items[..n] + [items[n]];
      ReportedIsListed(items[..n], agent);
      ListsSnoc(items[..n], items[n]);
    }
  }

  /**
   * An agent has the status that was last said of it, as long as one of the last `threshold` successes lists it; right
   * after a success that makes it one too many, it is stale.
   */
  lemma {:induction false} StatusFollowsHistory(history: seq<Event>, threshold: nat, agent: string)
    requires threshold > 0 && RunsOnce(history)
    ensures var t, since := Replay(history, threshold), SinceListed(Successes(history), AgentItemOf(agent));
            && (agent in t.agents <==> StatusSaid(history, agent).Some?)
            && (agent in t.agents && since < threshold ==> t.agents[agent].status == StatusSaid(history, agent).value)
            && (agent in t.agents && since >= threshold && Settled(history) ==> t.agents[agent].status == Stale)
  {
    hide Persisted, LastReport, Lists;
    if history != [] {
      var n := |history| - 1;
      var init, last := history[..n], history[n];
      assert history == init + [last];
      StatusFollowsHistory(init, threshold, agent);
      RowsFollowHistory(history, threshold, AgentItemOf(agent));
      if last.Succeeded? {
        SuccessSetsStatus(init, last.run, last.snapshot, threshold, agent);
      }
    }
  }

  lemma SuccessSetsStatus(init: seq<Event>, run: RunId, snapshot: Snapshot, threshold: nat, agent: string)
    requires threshold > 0 && RunsOnce(init + [Succeeded(run, snapshot)])
    ensures FreshRun(Replay(init, threshold), run)
    ensures var t, report := Replay(init, threshold), LastReport(snapshot.agents, agent);
            var u := Persisted(t, run, snapshot, threshold);
            && (agent in u.agents <==> agent in t.agents || report.Some?)
            && (report.Some? ==> u.agents[agent].status == report.value)
            && (agent in t.agents && report.None? ==>
                  u.agents[agent].status ==
                  if u.agents[agent].missing >= threshold then Stale else t.agents[agent].status)
            && (report.Some? <==> Lists(snapshot, AgentItemOf(agent)))
  {
    hide Persisted, LastReport;
    var history := init + [Succeeded(run, snapshot)];
    assert history[|init|] == Succeeded(run, snapshot);
    forall i | 0 <= i < |init| && init[i].Succeeded? ensures init[i].run != run {
      assert history[i] == init[i];
    }
    assert RunsOnce(init) by {
      forall i, j | 0 <= i < j < |init| && init[i].Succeeded? && init[j].Succeeded? ensures init[i].run != init[j].run {
        assert history[i] == init[i] && history[j] == init[j];
      }
    }
    RunIsFresh(init, threshold, run);
    PersistedStatus(Replay(init, threshold), run, snapshot, threshold, agent);
    ReportedIsListed(snapshot.agents, agent);
  }
}
