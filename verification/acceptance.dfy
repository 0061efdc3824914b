/** Which snapshots validateRuntimeSnapshot accepts, said of the items themselves and not of the keys it builds. */
module Acceptance {
  import opened Snapshots
  import opened Texts
  import opened Wrappers

  ghost predicate TextsDiffer(texts: seq<string>) {
    && (forall i :: 0 <= i < |texts| ==> Trim(texts[i]) != "")
    && (forall i, j :: 0 <= i < j < |texts| ==> Trim(texts[i]) != Trim(texts[j]))
  }

  ghost predicate InventoryDiffers(items: seq<InventoryItem>) {
    && (forall i :: 0 <= i < |items| ==> Trim(items[i].kind) != "" && Trim(items[i].id) != "")
    && (forall i, j :: 0 <= i < j < |items| ==> items[i].kind != items[j].kind || items[i].id != items[j].id)
  }

  ghost predicate CapabilitiesDiffer(items: seq<CapabilityItem>) {
    && (forall i :: 0 <= i < |items| ==> Trim(items[i].id) != "" && Trim(items[i].version) != "")
    && (forall i, j :: 0 <= i < j < |items| ==> items[i].id != items[j].id || items[i].version != items[j].version)
  }

  /** One orchestrator, and one reference or, where both have none, one delegate. */
  ghost predicate SameDelegation(a: DelegationItem, b: DelegationItem) {
    && Trim(a.orchestrator) == Trim(b.orchestrator) && Trim(a.ref) == Trim(b.ref)
    && (Trim(a.ref) == "" ==> Trim(a.delegate) == Trim(b.delegate))
  }

  ghost predicate DelegationsDiffer(items: seq<DelegationItem>) {
    && (forall i :: 0 <= i < |items| ==>
          Trim(items[i].orchestrator) != "" && (Trim(items[i].delegate) != "" || Trim(items[i].ref) != ""))
    && (forall i, j :: 0 <= i < j < |items| ==> !SameDelegation(items[i], items[j]))
  }

  ghost predicate AgentsDiffer(items: seq<AgentItem>) {
    && (forall i :: 0 <= i < |items| ==> Trim(items[i].runtimeId) != "")
    && (forall i, j :: 0 <= i < j < |items| ==> Trim(items[i].runtimeId) != Trim(items[j].runtimeId))
    && (forall i :: 0 <= i < |items| ==> SkillsDiffer(items[i]))
  }

  /** The access document, if it names an agent, names this one, and no skill is listed twice. */
  ghost predicate SkillsDiffer(item: AgentItem) {
    && (item.accessAgentId != "" ==> item.accessAgentId == Trim(item.runtimeId))
    && (forall i :: 0 <= i < |item.skills| ==> Trim(item.skills[i]) != "")
    && (forall i, j :: 0 <= i < j < |item.skills| ==> item.skills[i] != item.skills[j])
  }

  ghost predicate ExecutionsDiffer(items: seq<ExecutionItem>) {
    && (forall i :: 0 <= i < |items| ==> Trim(items[i].kind) != "" && Trim(items[i].id) != "")
    && (forall i, j :: 0 <= i < j < |items| ==>
          items[i].kind != items[j].kind || Trim(items[i].id) != Trim(items[j].id))
  }

  /** Every item has its identity, and within each section no two have the same. */
  ghost predicate WellIdentified(s: Snapshot) {
    && TextsDiffer(s.diagnostics) && InventoryDiffers(s.inventory) && CapabilitiesDiffer(s.capabilities)
    && DelegationsDiffer(s.delegations) && AgentsDiffer(s.agents) && ExecutionsDiffer(s.executions)
    && TextsDiffer(s.subagents)
  }

  /** The parts in front of the colons that keys are joined with hold no colon themselves. */
  ghost predicate ColonFree(s: Snapshot) {
    && (forall i :: 0 <= i < |s.inventory| ==> ':' !in s.inventory[i].kind)
    && (forall i :: 0 <= i < |s.capabilities| ==> ':' !in s.capabilities[i].id)
    && (forall i :: 0 <= i < |s.delegations| ==> ':' !in Trim(s.delegations[i].orchestrator))
    && (forall i :: 0 <= i < |s.executions| ==> ':' !in s.executions[i].kind)
  }

  lemma FirstColon(a: string, b: string, i: nat)
    requires ':' !in a && i < |a + ":" + b| && (a + ":" + b)[i] == ':'
    ensures |a| <= i
  {
    assert forall k :: 0 <= k < |a| ==> (a + ":" + b)[k] == a[k];
  }

  lemma JoinedParts(a: string, b: string, c: string, d: string)
    ensures ':' !in a && ':' !in c && a + ":" + b == c + ":" + d ==> a == c && b == d
  {
    if ':' !in a && ':' !in c && a + ":" + b == c + ":" + d {
      assert (a + ":" + b)[|a|] == ':' && (c + ":" + d)[|c|] == ':';
      FirstColon(a, b, |c|);
      FirstColon(c, d, |a|);
      assert (a + ":" + b)[..|a|] == a && (c + ":" + d)[..|c|] == c;
      assert (a + ":" + b)[|a| + 1..] == b && (c + ":" + d)[|c| + 1..] == d;
    }
  }

  lemma TextSection(texts: seq<string>)
    ensures Identified(texts, DiagnosticKey) <==> TextsDiffer(texts)
  {
    hide Trim;
  }

  lemma InventorySection(items: seq<InventoryItem>)
    ensures Identified(items, InventoryKey) ==> InventoryDiffers(items)
    ensures InventoryDiffers(items) && (forall i :: 0 <= i < |items| ==> ':' !in items[i].kind) ==>
              Identified(items, InventoryKey)
  {
    hide Trim;
    forall i, j | 0 <= i < j < |items| {
      JoinedParts(items[i].kind, items[i].id, items[j].kind, items[j].id);
    }
  }

  lemma CapabilitySection(items: seq<CapabilityItem>)
    ensures Identified(items, CapabilityKey) ==> CapabilitiesDiffer(items)
    ensures CapabilitiesDiffer(items) && (forall i :: 0 <= i < |items| ==> ':' !in items[i].id) ==>
              Identified(items, CapabilityKey)
  {
    hide Trim;
    forall i, j | 0 <= i < j < |items| {
      JoinedParts(items[i].id, items[i].version, items[j].id, items[j].version);
    }
  }

  lemma ExecutionSection(items: seq<ExecutionItem>)
    ensures Identified(items, ExecutionKey) ==> ExecutionsDiffer(items)
    ensures ExecutionsDiffer(items) && (forall i :: 0 <= i < |items| ==> ':' !in items[i].kind) ==>
              Identified(items, ExecutionKey)
  {
    hide Trim;
    forall i, j | 0 <= i < j < |items| {
      JoinedParts(items[i].kind, Trim(items[i].id), items[j].kind, Trim(items[j].id));
    }
  }

  /** What follows the orchestrator's colon tells a reference from a delegate. */
  function Peer(item: DelegationItem): string {
    if Trim(item.ref) == "" then "agent:" + Trim(item.delegate) else "ref:" + Trim(item.ref)
  }

  lemma PeersTellApart(a: DelegationItem, b: DelegationItem)
    ensures Peer(a) == Peer(b) <==>
            Trim(a.ref) == Trim(b.ref) && (Trim(a.ref) == "" ==> Trim(a.delegate) == Trim(b.delegate))
  {
    hide Trim;
    assert ("agent:" + Trim(a.delegate))[6..] == Trim(a.delegate);
    assert ("agent:" + Trim(b.delegate))[6..] == Trim(b.delegate);
    assert ("ref:" + Trim(a.ref))[4..] == Trim(a.ref) && ("ref:" + Trim(b.ref))[4..] == Trim(b.ref);
    assert Peer(a)[0] == if Trim(a.ref) == "" then 'a' else 'r';
    assert Peer(b)[0] == if Trim(b.ref) == "" then 'a' else 'r';
  }

  lemma KeyIsPeer(item: DelegationItem)
    ensures DelegationKey(item) ==
            if Trim(item.orchestrator) == "" || (Trim(item.delegate) == "" && Trim(item.ref) == "") then None
            else Some(Trim(item.orchestrator) + ":" + Peer(item))
  {
    hide Trim;
    assert Trim(item.orchestrator) + ":agent:" + Trim(item.delegate) ==
           Trim(item.orchestrator) + ":" + ("agent:" + Trim(item.delegate));
    assert Trim(item.orchestrator) + ":ref:" + Trim(item.ref) ==
           Trim(item.orchestrator) + ":" + ("ref:" + Trim(item.ref));
  }

  lemma KeysTellApart(a: DelegationItem, b: DelegationItem)
    ensures DelegationKey(a).Some? <==> Trim(a.orchestrator) != "" && (Trim(a.delegate) != "" || Trim(a.ref) != "")
    ensures DelegationKey(a).Some? && DelegationKey(b).Some? && SameDelegation(a, b) ==>
              DelegationKey(a) == DelegationKey(b)
    ensures (&& ':' !in Trim(a.orchestrator) && ':' !in Trim(b.orchestrator)
             && DelegationKey(a).Some? && DelegationKey(a) == DelegationKey(b)) ==> SameDelegation(a, b)
  {
    hide Trim, DelegationKey, Peer;
    KeyIsPeer(a);
    KeyIsPeer(b);
    PeersTellApart(a, b);
    JoinedParts(Trim(a.orchestrator), Peer(a), Trim(b.orchestrator), Peer(b));
  }

  lemma DelegationSection(items: seq<DelegationItem>)
    ensures Identified(items, DelegationKey) ==> DelegationsDiffer(items)
    ensures DelegationsDiffer(items) && (forall i :: 0 <= i < |items| ==> ':' !in Trim(items[i].orchestrator)) ==>
              Identified(items, DelegationKey)
  {
    hide Trim, DelegationKey, SameDelegation;
    forall i | 0 <= i < |items|
      ensures DelegationKey(items[i]).Some? <==>
                Trim(items[i].orchestrator) != "" && (Trim(items[i].delegate) != "" || Trim(items[i].ref) != "")
    {
      KeysTellApart(items[i], items[i]);
    }
    if Identified(items, DelegationKey) {
      forall i, j | 0 <= i < j < |items| ensures !SameDelegation(items[i], items[j]) {
        KeysTellApart(items[i], items[j]);
      }
    }
    if DelegationsDiffer(items) && forall i :: 0 <= i < |items| ==> ':' !in Trim(items[i].orchestrator) {
      forall i, j | 0 <= i < j < |items| ensures DelegationKey(items[i]) != DelegationKey(items[j]) {
        KeysTellApart(items[i], items[j]);
      }
    }
  }

  lemma AgentSection(items: seq<AgentItem>)
    ensures GoodAgents(items) <==> AgentsDiffer(items)
  {
    hide Trim;
    forall i | 0 <= i < |items| ensures GoodAgent(items[i]) <==> SkillsDiffer(items[i]) {
      SkillSection(items[i]);
    }
  }

  lemma SkillSection(item: AgentItem)
    ensures GoodAgent(item) <==> SkillsDiffer(item)
  {
    hide Trim;
  }

  /**
   * Accepted snapshots are well identified, and every well identified one is accepted unless a colon within a kind, a
   * capability or an orchestrator makes two keys the same.
   */
  lemma AcceptedIsWellIdentified(s: Snapshot)
    ensures Accepted(s) ==> WellIdentified(s)
    ensures WellIdentified(s) && ColonFree(s) ==> Accepted(s)
  {
    hide TextsDiffer, InventoryDiffers, CapabilitiesDiffer, DelegationsDiffer, AgentsDiffer, ExecutionsDiffer;
    hide Identified, GoodAgents, Trim;
    TextSection(s.diagnostics);
    InventorySection(s.inventory);
    CapabilitySection(s.capabilities);
    DelegationSection(s.delegations);
    AgentSection(s.agents);
    ExecutionSection(s.executions);
    TextSection(s.subagents);
    if Accepted(s) {
      assert Good(s, Diagnostics) && Good(s, Inventory) && Good(s, Capabilities) && Good(s, Delegations);
      assert Good(s, Agents) && Good(s, Executions) && Good(s, Subagents);
    }
  }

  /** Two items of different kinds and ids that validation takes for one. */
  lemma ColonsAreConfused()
    ensures exists s :: WellIdentified(s) && !Accepted(s)
  {
    hide Trim;
    var a, b := InventoryItem("x:y", "z"), InventoryItem("x", "y:z");
    var s := Snapshot([], [], [], [a, b], [], [], []);
    OneKeyForTwo(a, b);
    assert InventoryKey(s.inventory[0]) == InventoryKey(s.inventory[1]);
    assert !Good(s, Inventory);
    assert WellIdentified(s);
  }

  lemma OneKeyForTwo(a: InventoryItem, b: InventoryItem)
    requires a == InventoryItem("x:y", "z") && b == InventoryItem("x", "y:z")
    ensures Trim(a.kind) != "" && Trim(a.id) != "" && Trim(b.kind) != "" && Trim(b.id) != ""
    ensures a.kind != b.kind && InventoryKey(a) == InventoryKey(b)
  {
    assert Trim("x:y") == "x:y" && Trim("y:z") == "y:z" && Trim("x") == "x" && Trim("z") == "z";
    assert "x:y" + ":" + "z" == "x:y:z" == "x" + ":" + "y:z";
    assert |a.kind| != |b.kind|;
  }
}
