/** Runtime connections, their endpoint rows, and the forest of merged connections. */
module EndpointMerge {
  import opened Wrappers

  type ConnectionId = int
  type EndpointId = int

  datatype RouteKind = Alias | Relay

  datatype ArchiveKind = Removed | MergedAs(kind: RouteKind)

  datatype Connection = Connection(
    name: string, kind: string, organization: string, url: string, authRef: string, syncEnabled: bool,
    archived: Option<ArchiveKind>, mergedInto: Option<ConnectionId>)

  datatype EndpointKind = Canonical | Route(kind: RouteKind)

  datatype Endpoint = Endpoint(
    owner: ConnectionId, url: string, kind: EndpointKind, authRef: string, source: Option<ConnectionId>)

  datatype Tables = Tables(connections: map<ConnectionId, Connection>, endpoints: map<EndpointId, Endpoint>)

  datatype Settings = Settings(url: string, authRef: string, syncEnabled: bool)

  /** What the unique indexes compare: lower(rtrim(endpoint, '/')). */
  function UrlKey(url: string): string {
    if url == "" then ""
    else if url[|url| - 1] == '/' then UrlKey(url[..|url| - 1])
    else Lower(url)
  }

  function Lower(s: string): string {
    seq(|s|, i requires 0 <= i < |s| => if 'A' <= s[i] <= 'Z' then s[i] - 'A' + 'a' else s[i])
  }

  // ----- What the database itself enforces -----

  predicate Clash(a: Connection, b: Connection) {
    && a.archived.None? && b.archived.None? && a.organization == b.organization
    && (a.name == b.name || (a.kind == b.kind && UrlKey(a.url) == UrlKey(b.url)))
  }

  predicate ConnectionsUnique(connections: map<ConnectionId, Connection>) {
    forall a, b :: a in connections && b in connections && a != b ==> !Clash(connections[a], connections[b])
  }

  predicate EndpointsUnique(endpoints: map<EndpointId, Endpoint>) {
    forall a, b :: a in endpoints && b in endpoints && a != b ==>
      !(endpoints[a].owner == endpoints[b].owner && UrlKey(endpoints[a].url) == UrlKey(endpoints[b].url))
  }

  predicate Visible(t: Tables, tenant: string, id: ConnectionId) {
    && id in t.connections && t.connections[id].archived.None?
    && (tenant == "" || t.connections[id].organization == tenant)
  }

  // ----- The operations as functions of the tables; None when the transaction is rolled back -----

  function Checked(t: Tables): Option<Tables> {
    if ConnectionsUnique(t.connections) && EndpointsUnique(t.endpoints) then Some(t) else None
  }

  function Create(t: Tables, id: ConnectionId, endpointId: EndpointId, c: Connection): Option<Tables> {
    if id in t.connections || endpointId in t.endpoints then None else
      Checked(Tables(t.connections[id := c.(archived := None, mergedInto := None)],
                     t.endpoints[endpointId := Endpoint(id, c.url, Canonical, c.authRef, None)]))
  }

  function SetCanonical(endpoints: map<EndpointId, Endpoint>, id: ConnectionId, s: Settings)
      : map<EndpointId, Endpoint>
  {
    map e | e in endpoints ::
      if endpoints[e].owner == id && endpoints[e].kind.Canonical? then endpoints[e].(url := s.url, authRef := s.authRef)
      else endpoints[e]
  }

  function UpdateSettings(t: Tables, tenant: string, id: ConnectionId, s: Settings): Option<Tables> {
    var connections :=
      if Visible(t, tenant, id)
      then t.connections[id := t.connections[id].(url := s.url, authRef := s.authRef, syncEnabled := s.syncEnabled)]
      else t.connections;
    Checked(Tables(connections, SetCanonical(t.endpoints, id, s)))
  }

  function Archive(t: Tables, tenant: string, id: ConnectionId): Option<Tables> {
    if !Visible(t, tenant, id) then None else
      Some(t.(connections := t.connections[id := t.connections[id].(archived := Some(Removed), syncEnabled := false)]))
  }

  function Consolidate(t: Tables, tenant: string, canonical: ConnectionId, duplicate: ConnectionId, kind: RouteKind,
      endpointId: EndpointId): Option<Tables>
  {
    if !Visible(t, tenant, canonical) || !Visible(t, tenant, duplicate) then None
    else if t.connections[canonical].kind != t.connections[duplicate].kind || endpointId in t.endpoints then None
    else
      var d := t.connections[duplicate];
      Checked(Tables(
        t.connections[duplicate :=
          d.(archived := Some(MergedAs(kind)), mergedInto := Some(canonical), syncEnabled := false)],
        t.endpoints[endpointId := Endpoint(canonical, d.url, Route(kind), d.authRef, Some(duplicate))]))
  }

  // ----- The invariant -----

  /** From each connection to the one it was merged into. */
  ghost predicate MergeChain(t: Tables, chain: seq<ConnectionId>) {
    && (forall i :: 0 <= i < |chain| ==> chain[i] in t.connections)
    && (forall i :: 0 <= i < |chain| - 1 ==> t.connections[chain[i]].mergedInto == Some(chain[i + 1]))
  }

  ghost predicate Acyclic(t: Tables) {
    forall chain :: MergeChain(t, chain) && |chain| >= 2 ==> chain[0] != chain[|chain| - 1]
  }

  ghost predicate IsCanonical(t: Tables, e: EndpointId, id: ConnectionId) {
    e in t.endpoints && t.endpoints[e].owner == id && t.endpoints[e].kind.Canonical?
  }

  ghost predicate OneCanonicalEach(t: Tables) {
    && (forall id :: id in t.connections ==> exists e :: IsCanonical(t, e, id))
    && (forall id, e, f :: IsCanonical(t, e, id) && IsCanonical(t, f, id) ==> e == f && t.endpoints[e].source.None?)
    && (forall e :: e in t.endpoints ==> t.endpoints[e].owner in t.connections)
  }

  /** The row that stands for a merged connection: where it went, how, and under which address it was known. */
  ghost predicate StandsFor(t: Tables, e: EndpointId, id: ConnectionId) {
    && e in t.endpoints && id in t.connections && t.endpoints[e].kind.Route?
    && t.endpoints[e].source == Some(id) && t.connections[id].mergedInto == Some(t.endpoints[e].owner)
    && t.connections[id].archived == Some(MergedAs(t.endpoints[e].kind.kind))
    && t.endpoints[e].url == t.connections[id].url && t.endpoints[e].authRef == t.connections[id].authRef
  }

  /** Alias and relay rows on one side, merged connections on the other: a bijection. */
  ghost predicate RoutesMatchMerges(t: Tables) {
    && (forall e :: e in t.endpoints && t.endpoints[e].kind.Route? ==> exists id :: StandsFor(t, e, id))
    && (forall id :: id in t.connections && t.connections[id].mergedInto.Some? ==> exists e :: StandsFor(t, e, id))
    && (forall id, e, f :: StandsFor(t, e, id) && StandsFor(t, f, id) ==> e == f)
  }

  /** What is merged is archived, and what is archived is no longer synchronised. */
  ghost predicate MergedIsArchived(t: Tables) {
    && (forall id :: id in t.connections && t.connections[id].mergedInto.Some? ==>
          t.connections[id].mergedInto.value in t.connections && t.connections[id].archived.Some?)
    && (forall id :: id in t.connections && t.connections[id].archived.Some? ==> !t.connections[id].syncEnabled)
  }

  ghost predicate Sound(t: Tables) {
    && ConnectionsUnique(t.connections) && EndpointsUnique(t.endpoints)
    && OneCanonicalEach(t) && RoutesMatchMerges(t) && Acyclic(t)
    && MergedIsArchived(t)
  }

  /** The canonical endpoint of every active connection is the connection's own address. */
  ghost predicate Agreed(t: Tables) {
    forall id, e :: IsCanonical(t, e, id) && id in t.connections && t.connections[id].archived.None? ==>
      t.endpoints[e].url == t.connections[id].url && t.endpoints[e].authRef == t.connections[id].authRef
  }

  // ----- Each operation keeps it -----

  lemma SameMerges(t: Tables, after: Tables)
    requires Acyclic(t)
    requires forall id :: id in after.connections && after.connections[id].mergedInto.Some? ==>
               && id in t.connections && t.connections[id].mergedInto == after.connections[id].mergedInto
               && after.connections[id].mergedInto.value in t.connections
    ensures Acyclic(after)
  {
    forall chain | MergeChain(after, chain) && |chain| >= 2 ensures chain[0] != chain[|chain| - 1] {
      var last := |chain| - 1;
      var c := chain[last - 1];
      assert c in after.connections && after.connections[c].mergedInto == Some(chain[last - 1 + 1]);
      forall i | 0 <= i < last
        ensures chain[i] in t.connections && t.connections[chain[i]].mergedInto == Some(chain[i + 1])
      {
        var c := chain[i];
        assert c in after.connections && after.connections[c].mergedInto == Some(chain[i + 1]);
      }
      assert MergeChain(t, chain);
    }
  }

  lemma UnmergedEndsChain(t: Tables, chain: seq<ConnectionId>, i: nat)
    requires MergeChain(t, chain) && i < |chain|
    ensures t.connections[chain[i]].mergedInto.None? ==> i == |chain| - 1
  {
    assert i < |chain| - 1 ==> t.connections[chain[i]].mergedInto == Some(chain[i + 1]);
  }

  /** A link out of an unmerged connection into another unmerged one closes no cycle. */
  lemma OneMoreMerge(t: Tables, after: Tables, duplicate: ConnectionId, canonical: ConnectionId)
    requires Acyclic(t) && t.connections.Keys == after.connections.Keys
    requires duplicate in t.connections && canonical in t.connections && duplicate != canonical
    requires t.connections[canonical].mergedInto.None?
    requires after.connections[duplicate].mergedInto == Some(canonical)
    requires forall id :: id in t.connections && id != duplicate ==>
               after.connections[id].mergedInto == t.connections[id].mergedInto
    ensures Acyclic(after)
  {
    forall chain | MergeChain(after, chain) && |chain| >= 2 ensures chain[0] != chain[|chain| - 1] {
      var last := |chain| - 1;
      assert after.connections[chain[0]].mergedInto == Some(chain[1]);
      if i :| 0 <= i < last && chain[i] == duplicate {
        assert chain[i + 1] == canonical;
        UnmergedEndsChain(after, chain, i + 1);
      } else {
        assert MergeChain(t, chain);
      }
    }
  }

  lemma CreateKeepsCanonicals(t: Tables, id: ConnectionId, endpointId: EndpointId, c: Connection)
    requires Sound(t) && Create(t, id, endpointId, c).Some?
    ensures OneCanonicalEach(Create(t, id, endpointId, c).value)
  {
    hide UrlKey, Clash, Acyclic, RoutesMatchMerges, ConnectionsUnique, EndpointsUnique;
    var after := Create(t, id, endpointId, c).value;
    forall e, i ensures IsCanonical(after, e, i) <==> IsCanonical(t, e, i) || (e == endpointId && i == id) {
    }
    forall i | i in after.connections ensures exists e :: IsCanonical(after, e, i) {
      if i == id {
        assert IsCanonical(after, endpointId, id);
      } else {
        var e :| IsCanonical(t, e, i);
        assert IsCanonical(after, e, i);
      }
    }
  }

  lemma CreateKeepsRoutes(t: Tables, id: ConnectionId, endpointId: EndpointId, c: Connection)
    requires Sound(t) && Create(t, id, endpointId, c).Some?
    ensures RoutesMatchMerges(Create(t, id, endpointId, c).value)
  {
    hide UrlKey, Clash, Acyclic, RoutesMatchMerges, OneCanonicalEach, ConnectionsUnique, EndpointsUnique;
    var after := Create(t, id, endpointId, c).value;
    NewConnectionHasNoRoute(t, id);
    forall e, i ensures StandsFor(after, e, i) <==> StandsFor(t, e, i) {
    }
    RoutesKept(t, after);
  }

  lemma NewConnectionHasNoRoute(t: Tables, id: ConnectionId)
    ensures forall e :: id !in t.connections ==> !StandsFor(t, e, id)
  {
  }

  lemma CreateKeepsMerges(t: Tables, id: ConnectionId, endpointId: EndpointId, c: Connection)
    requires Sound(t) && Create(t, id, endpointId, c).Some?
    ensures Acyclic(Create(t, id, endpointId, c).value) && MergedIsArchived(Create(t, id, endpointId, c).value)
  {
    hide UrlKey, Clash, ConnectionsUnique, EndpointsUnique, Acyclic, OneCanonicalEach, RoutesMatchMerges;
    var after := Create(t, id, endpointId, c).value;
    SameMerges(t, after);
  }

  lemma CreateKeepsAgreed(t: Tables, id: ConnectionId, endpointId: EndpointId, c: Connection)
    requires Sound(t) && Agreed(t) && Create(t, id, endpointId, c).Some?
    ensures Agreed(Create(t, id, endpointId, c).value)
  {
    hide UrlKey, Clash, ConnectionsUnique, EndpointsUnique, Acyclic, RoutesMatchMerges, MergedIsArchived;
  }

  lemma CreateKeeps(t: Tables, id: ConnectionId, endpointId: EndpointId, c: Connection)
    requires Sound(t) && Agreed(t) && Create(t, id, endpointId, c).Some?
    ensures var after := Create(t, id, endpointId, c).value; Sound(after) && Agreed(after)
  {
    hide Clash, ConnectionsUnique, EndpointsUnique, Acyclic, OneCanonicalEach, RoutesMatchMerges, MergedIsArchived,
         Agreed;
    CreateKeepsCanonicals(t, id, endpointId, c);
    CreateKeepsRoutes(t, id, endpointId, c);
    CreateKeepsMerges(t, id, endpointId, c);
    CreateKeepsAgreed(t, id, endpointId, c);
  }

  lemma CanonicalsKept(t: Tables, after: Tables)
    requires OneCanonicalEach(t) && t.connections.Keys == after.connections.Keys
    requires forall e, i {:trigger IsCanonical(after, e, i)} {:trigger IsCanonical(t, e, i)} ::
               IsCanonical(after, e, i) <==> IsCanonical(t, e, i)
    requires forall e :: e in after.endpoints ==> after.endpoints[e].owner in after.connections
    requires forall e :: e in after.endpoints && after.endpoints[e].kind.Canonical? ==>
               e in t.endpoints && after.endpoints[e].source == t.endpoints[e].source
    ensures OneCanonicalEach(after)
  {
    forall i | i in after.connections ensures exists e :: IsCanonical(after, e, i) {
      var e :| IsCanonical(t, e, i);
      assert IsCanonical(after, e, i);
    }
  }

  lemma RoutesKept(t: Tables, after: Tables)
    requires RoutesMatchMerges(t)
    requires forall e, i {:trigger StandsFor(after, e, i)} :: StandsFor(after, e, i) <==> StandsFor(t, e, i)
    requires forall e :: e in after.endpoints && after.endpoints[e].kind.Route? ==>
               e in t.endpoints && t.endpoints[e].kind.Route?
    requires forall i :: i in after.connections && after.connections[i].mergedInto.Some? ==>
               i in t.connections && t.connections[i].mergedInto.Some?
    ensures RoutesMatchMerges(after)
  {
    hide StandsFor;
    forall e | e in after.endpoints && after.endpoints[e].kind.Route? ensures exists i :: StandsFor(after, e, i) {
      var i :| StandsFor(t, e, i);
      assert StandsFor(after, e, i);
    }
    forall i | i in after.connections && after.connections[i].mergedInto.Some?
      ensures exists e :: StandsFor(after, e, i)
    {
      var e :| StandsFor(t, e, i);
      assert StandsFor(after, e, i);
    }
  }

  lemma UpdateSettingsKeepsCanonicals(t: Tables, tenant: string, id: ConnectionId, s: Settings)
    requires Sound(t) && UpdateSettings(t, tenant, id, s).Some?
    ensures OneCanonicalEach(UpdateSettings(t, tenant, id, s).value)
  {
    hide UrlKey, Clash, Acyclic, RoutesMatchMerges, ConnectionsUnique, EndpointsUnique;
    var after := UpdateSettings(t, tenant, id, s).value;
    forall e, i ensures IsCanonical(after, e, i) <==> IsCanonical(t, e, i) {
    }
    CanonicalsKept(t, after);
  }

  lemma UpdateSettingsKeepsRoutes(t: Tables, tenant: string, id: ConnectionId, s: Settings)
    requires Sound(t) && UpdateSettings(t, tenant, id, s).Some?
    ensures RoutesMatchMerges(UpdateSettings(t, tenant, id, s).value)
  {
    hide UrlKey, Clash, Acyclic, RoutesMatchMerges, OneCanonicalEach, ConnectionsUnique, EndpointsUnique;
    var after := UpdateSettings(t, tenant, id, s).value;
    forall e, i ensures StandsFor(after, e, i) <==> StandsFor(t, e, i) {
    }
    RoutesKept(t, after);
  }

  lemma UpdateSettingsKeepsSound(t: Tables, tenant: string, id: ConnectionId, s: Settings)
    requires Sound(t) && UpdateSettings(t, tenant, id, s).Some?
    ensures Sound(UpdateSettings(t, tenant, id, s).value)
  {
    hide UrlKey, Clash, Acyclic, OneCanonicalEach, RoutesMatchMerges;
    var after := UpdateSettings(t, tenant, id, s).value;
    SameMerges(t, after);
    UpdateSettingsKeepsCanonicals(t, tenant, id, s);
    UpdateSettingsKeepsRoutes(t, tenant, id, s);
  }

  /**
   * Changing settings keeps the canonical endpoint and the connection in agreement exactly when it does not
   * change the address of an active connection of another tenant: the connection row is then left alone while its
   * canonical endpoint row is not.
   */
  lemma UpdateSettingsKeepsAgreement(t: Tables, tenant: string, id: ConnectionId, s: Settings)
    requires Sound(t) && Agreed(t) && UpdateSettings(t, tenant, id, s).Some?
    ensures Agreed(UpdateSettings(t, tenant, id, s).value) <==>
            !(id in t.connections && t.connections[id].archived.None? && !Visible(t, tenant, id) &&
              (t.connections[id].url != s.url || t.connections[id].authRef != s.authRef))
  {
    hide UrlKey, Clash, Acyclic, RoutesMatchMerges, ConnectionsUnique, EndpointsUnique;
    var after := UpdateSettings(t, tenant, id, s).value;
    forall e, i ensures IsCanonical(after, e, i) <==> IsCanonical(t, e, i) {
    }
    if id in t.connections && t.connections[id].archived.None? {
      var e :| IsCanonical(t, e, id);
      assert IsCanonical(after, e, id);
    }
  }

  lemma OneRegistered(c: Connection, t: Tables)
    requires c.archived.None? && c.mergedInto.None?
    requires t == Tables(map[1 := c], map[2 := Endpoint(1, c.url, Canonical, c.authRef, None)])
    ensures t == After([Register(1, 2, c)]) && Sound(t) && Agreed(t)
  {
    hide Sound, Agreed;
    assert [Register(1, 2, c)][..0] == [];
    assert Create(After([]), 1, 2, c) == Some(t);
    EveryRunIsSound([Register(1, 2, c)]);
  }

  /** One tenant's request moves the canonical endpoint of another tenant's connection, and only that. */
  lemma ForeignSettingsBreakAgreement()
    ensures var c := Connection("billing", "gantry", "north", "https://a", "key", true, None, None);
            var t := Tables(map[1 := c], map[2 := Endpoint(1, "https://a", Canonical, "key", None)]);
            var attempt := UpdateSettings(t, "south", 1, Settings("https://b", "key", true));
            && t == After([Register(1, 2, c)]) && Sound(t) && Agreed(t)
            && attempt.Some? && !Agreed(attempt.value) && attempt.value.connections == t.connections
  {
    var c := Connection("billing", "gantry", "north", "https://a", "key", true, None, None);
    var t := Tables(map[1 := c], map[2 := Endpoint(1, "https://a", Canonical, "key", None)]);
    var after := UpdateSettings(t, "south", 1, Settings("https://b", "key", true)).value;
    hide Sound;
    OneRegistered(c, t);
    assert IsCanonical(after, 2, 1) && after.endpoints[2].url == "https://b";
    assert "https://a"[8] != "https://b"[8];
  }

  lemma ArchiveKeepsCanonicals(t: Tables, tenant: string, id: ConnectionId)
    requires Sound(t) && Archive(t, tenant, id).Some?
    ensures OneCanonicalEach(Archive(t, tenant, id).value)
  {
    hide UrlKey, Clash, Acyclic, RoutesMatchMerges, ConnectionsUnique, EndpointsUnique;
    var after := Archive(t, tenant, id).value;
    forall e, i ensures IsCanonical(after, e, i) <==> IsCanonical(t, e, i) {
    }
    CanonicalsKept(t, after);
  }

  lemma ArchiveKeepsRoutes(t: Tables, tenant: string, id: ConnectionId)
    requires Sound(t) && Archive(t, tenant, id).Some?
    ensures RoutesMatchMerges(Archive(t, tenant, id).value)
  {
    hide UrlKey, Clash, Acyclic, RoutesMatchMerges, OneCanonicalEach, ConnectionsUnique, EndpointsUnique;
    var after := Archive(t, tenant, id).value;
    forall e, i ensures StandsFor(after, e, i) <==> StandsFor(t, e, i) {
    }
    RoutesKept(t, after);
  }

  lemma ArchiveKeepsUnique(t: Tables, tenant: string, id: ConnectionId)
    requires ConnectionsUnique(t.connections) && Archive(t, tenant, id).Some?
    ensures ConnectionsUnique(Archive(t, tenant, id).value.connections)
  {
    hide UrlKey;
    var after := Archive(t, tenant, id).value;
    forall a, b | a in after.connections && b in after.connections && a != b
      ensures !Clash(after.connections[a], after.connections[b])
    {
      assert !Clash(t.connections[a], t.connections[b]);
    }
  }

  lemma ArchiveKeepsMerges(t: Tables, tenant: string, id: ConnectionId)
    requires Sound(t) && Archive(t, tenant, id).Some?
    ensures Acyclic(Archive(t, tenant, id).value) && MergedIsArchived(Archive(t, tenant, id).value)
  {
    hide UrlKey, Clash, ConnectionsUnique, EndpointsUnique, Acyclic, OneCanonicalEach, RoutesMatchMerges;
    var after := Archive(t, tenant, id).value;
    SameMerges(t, after);
  }

  lemma ArchiveKeepsAgreed(t: Tables, tenant: string, id: ConnectionId)
    requires Sound(t) && Agreed(t) && Archive(t, tenant, id).Some?
    ensures Agreed(Archive(t, tenant, id).value)
  {
    hide UrlKey, Clash, ConnectionsUnique, EndpointsUnique, Acyclic, OneCanonicalEach, RoutesMatchMerges,
         MergedIsArchived;
  }

  lemma ArchiveKeeps(t: Tables, tenant: string, id: ConnectionId)
    requires Sound(t) && Agreed(t) && Archive(t, tenant, id).Some?
    ensures var after := Archive(t, tenant, id).value; Sound(after) && Agreed(after)
  {
    hide Clash, ConnectionsUnique, EndpointsUnique, Acyclic, OneCanonicalEach, RoutesMatchMerges, MergedIsArchived,
         Agreed;
    ArchiveKeepsUnique(t, tenant, id);
    ArchiveKeepsCanonicals(t, tenant, id);
    ArchiveKeepsRoutes(t, tenant, id);
    ArchiveKeepsMerges(t, tenant, id);
    ArchiveKeepsAgreed(t, tenant, id);
  }

  /**
   * A connection is never merged into itself, although nothing compares the two ids here: its canonical row
   * already holds the address that its alias row would get.
   */
  lemma NoSelfMerge(t: Tables, tenant: string, id: ConnectionId, kind: RouteKind, endpointId: EndpointId)
    requires Sound(t) && Agreed(t)
    ensures Consolidate(t, tenant, id, id, kind, endpointId).None?
  {
    hide Acyclic, RoutesMatchMerges, ConnectionsUnique;
    if Visible(t, tenant, id) && endpointId !in t.endpoints {
      var e :| IsCanonical(t, e, id);
      var c := t.connections[id];
      var endpoints := t.endpoints[endpointId := Endpoint(id, c.url, Route(kind), c.authRef, Some(id))];
      assert endpoints[e].owner == endpoints[endpointId].owner && endpoints[e].url == endpoints[endpointId].url;
    }
  }

  lemma ConsolidateKeepsCanonicals(t: Tables, tenant: string, canonical: ConnectionId, duplicate: ConnectionId,
                                   kind: RouteKind, endpointId: EndpointId)
    requires Sound(t) && Consolidate(t, tenant, canonical, duplicate, kind, endpointId).Some?
    ensures OneCanonicalEach(Consolidate(t, tenant, canonical, duplicate, kind, endpointId).value)
  {
    hide UrlKey, Clash, Acyclic, RoutesMatchMerges, ConnectionsUnique, EndpointsUnique;
    var after := Consolidate(t, tenant, canonical, duplicate, kind, endpointId).value;
    forall e, i ensures IsCanonical(after, e, i) <==> IsCanonical(t, e, i) {
    }
    CanonicalsKept(t, after);
  }

  lemma ConsolidateKeepsRoutes(t: Tables, tenant: string, canonical: ConnectionId, duplicate: ConnectionId,
                               kind: RouteKind, endpointId: EndpointId)
    requires Sound(t) && Consolidate(t, tenant, canonical, duplicate, kind, endpointId).Some?
    ensures RoutesMatchMerges(Consolidate(t, tenant, canonical, duplicate, kind, endpointId).value)
  {
    hide UrlKey, Clash, Acyclic, RoutesMatchMerges, OneCanonicalEach, ConnectionsUnique, EndpointsUnique;
    var after := Consolidate(t, tenant, canonical, duplicate, kind, endpointId).value;
    UnmergedHasNoRoute(t, duplicate);
    forall e, i ensures StandsFor(after, e, i) <==> StandsFor(t, e, i) || (e == endpointId && i == duplicate) {
    }
    RoutesGrow(t, after, endpointId, duplicate);
  }

  lemma ConsolidateKeepsMerges(t: Tables, tenant: string, canonical: ConnectionId, duplicate: ConnectionId,
                               kind: RouteKind, endpointId: EndpointId)
    requires Sound(t) && Agreed(t) && Consolidate(t, tenant, canonical, duplicate, kind, endpointId).Some?
    ensures Acyclic(Consolidate(t, tenant, canonical, duplicate, kind, endpointId).value) &&
            MergedIsArchived(Consolidate(t, tenant, canonical, duplicate, kind, endpointId).value)
  {
    hide UrlKey, Clash, ConnectionsUnique, EndpointsUnique, Acyclic, OneCanonicalEach, RoutesMatchMerges;
    var after := Consolidate(t, tenant, canonical, duplicate, kind, endpointId).value;
    NoSelfMerge(t, tenant, canonical, kind, endpointId);
    OneMoreMerge(t, after, duplicate, canonical);
  }

  lemma ConsolidateKeepsAgreed(t: Tables, tenant: string, canonical: ConnectionId, duplicate: ConnectionId,
                               kind: RouteKind, endpointId: EndpointId)
    requires Sound(t) && Agreed(t) && Consolidate(t, tenant, canonical, duplicate, kind, endpointId).Some?
    ensures Agreed(Consolidate(t, tenant, canonical, duplicate, kind, endpointId).value)
  {
    hide UrlKey, Clash, ConnectionsUnique, EndpointsUnique, Acyclic, OneCanonicalEach, RoutesMatchMerges,
         MergedIsArchived;
  }

  lemma ConsolidateKeeps(t: Tables, tenant: string, canonical: ConnectionId, duplicate: ConnectionId, kind: RouteKind,
      endpointId: EndpointId)
    requires Sound(t) && Agreed(t) && Consolidate(t, tenant, canonical, duplicate, kind, endpointId).Some?
    ensures var after := Consolidate(t, tenant, canonical, duplicate, kind, endpointId).value;
            Sound(after) && Agreed(after)
  {
    hide Clash, ConnectionsUnique, EndpointsUnique, Acyclic, OneCanonicalEach, RoutesMatchMerges, MergedIsArchived,
         Agreed;
    ConsolidateKeepsCanonicals(t, tenant, canonical, duplicate, kind, endpointId);
    ConsolidateKeepsRoutes(t, tenant, canonical, duplicate, kind, endpointId);
    ConsolidateKeepsMerges(t, tenant, canonical, duplicate, kind, endpointId);
    ConsolidateKeepsAgreed(t, tenant, canonical, duplicate, kind, endpointId);
  }

  lemma UnmergedHasNoRoute(t: Tables, id: ConnectionId)
    requires RoutesMatchMerges(t) && id in t.connections && t.connections[id].mergedInto.None?
    ensures forall e :: e in t.endpoints && t.endpoints[e].kind.Route? ==> t.endpoints[e].source != Some(id)
  {
  }

  lemma RoutesGrow(t: Tables, after: Tables, endpointId: EndpointId, duplicate: ConnectionId)
    requires RoutesMatchMerges(t)
    requires forall e, i {:trigger StandsFor(after, e, i)} ::
               StandsFor(after, e, i) <==> StandsFor(t, e, i) || (e == endpointId && i == duplicate)
    requires forall e :: e in after.endpoints && after.endpoints[e].kind.Route? && e != endpointId ==>
               e in t.endpoints && t.endpoints[e].kind.Route?
    requires forall i :: i in after.connections && after.connections[i].mergedInto.Some? && i != duplicate ==>
               i in t.connections && t.connections[i].mergedInto.Some?
    requires forall e :: !StandsFor(t, e, duplicate)
    ensures RoutesMatchMerges(after)
  {
    hide StandsFor;
    assert StandsFor(after, endpointId, duplicate);
    forall e | e in after.endpoints && after.endpoints[e].kind.Route? ensures exists i :: StandsFor(after, e, i) {
      if e != endpointId {
        var i :| StandsFor(t, e, i);
        assert StandsFor(after, e, i);
      }
    }
    forall i | i in after.connections && after.connections[i].mergedInto.Some?
      ensures exists e :: StandsFor(after, e, i)
    {
      if i != duplicate {
        var e :| StandsFor(t, e, i);
        assert StandsFor(after, e, i);
      }
    }
  }

  // ----- When the operations succeed, and what they change -----

  /** What the indexes compare: the address without its trailing slashes, in lower case. */
  lemma {:induction false} UrlKeyIs(url: string) returns (base: string, slashes: string)
    ensures url == base + slashes && (forall i :: 0 <= i < |slashes| ==> slashes[i] == '/')
    ensures base != "" ==> base[|base| - 1] != '/'
    ensures |UrlKey(url)| == |base|
    ensures forall i :: 0 <= i < |base| ==>
              UrlKey(url)[i] == if 'A' <= base[i] <= 'Z' then base[i] - 'A' + 'a' else base[i]
  {
    base, slashes := url, "";
    if url != "" && url[|url| - 1] == '/' {
      var rest;
      base, rest := UrlKeyIs(url[..|url| - 1]);
      slashes := rest + "/";
      assert url == url[..|url| - 1] + "/";
    }
  }

  /** An active connection, other than id, of the organization that has the name, or the kind and the address. */
  ghost predicate Taken(t: Tables, id: ConnectionId, organization: string, name: string, kind: string, url: string) {
    exists other :: other in t.connections && other != id && t.connections[other].archived.None? &&
                    t.connections[other].organization == organization &&
                    (t.connections[other].name == name ||
                     (t.connections[other].kind == kind && UrlKey(t.connections[other].url) == UrlKey(url)))
  }

  lemma OneChange(connections: map<ConnectionId, Connection>, id: ConnectionId, c: Connection)
    requires ConnectionsUnique(connections - {id}) && c.archived.None?
    ensures ConnectionsUnique(connections[id := c]) <==>
              !Taken(Tables(connections - {id}, map[]), id, c.organization, c.name, c.kind, c.url)
  {
    hide UrlKey;
    var others, after := connections - {id}, connections[id := c];
    if ConnectionsUnique(after) {
      forall other | other in others ensures !Clash(others[other], c) {
        assert !Clash(after[other], after[id]);
      }
    }
    if !Taken(Tables(others, map[]), id, c.organization, c.name, c.kind, c.url) {
      forall a, b | a in after && b in after && a != b ensures !Clash(after[a], after[b]) {
        if a != id && b != id {
          assert !Clash(others[a], others[b]);
        } else {
          var other := if a == id then b else a;
          assert other in others && after[other] == others[other];
        }
      }
    }
  }

  /** A connection can be created exactly if its ids are new and no active one of its organization is like it. */
  lemma CreateSucceeds(t: Tables, id: ConnectionId, endpointId: EndpointId, c: Connection)
    requires Sound(t)
    ensures Create(t, id, endpointId, c).Some? <==>
              && id !in t.connections && endpointId !in t.endpoints
              && !Taken(t, id, c.organization, c.name, c.kind, c.url)
    ensures Create(t, id, endpointId, c).Some? ==>
              Create(t, id, endpointId, c).value ==
              Tables(t.connections[id := c.(archived := None, mergedInto := None)],
                     t.endpoints[endpointId := Endpoint(id, c.url, Canonical, c.authRef, None)])
  {
    hide UrlKey, Clash, ConnectionsUnique, Acyclic, RoutesMatchMerges;
    if id !in t.connections && endpointId !in t.endpoints {
      assert t.connections - {id} == t.connections;
      OneChange(t.connections, id, c.(archived := None, mergedInto := None));
      NewOwnerIsUnique(t.endpoints, endpointId, Endpoint(id, c.url, Canonical, c.authRef, None));
    }
  }

  lemma NewOwnerIsUnique(endpoints: map<EndpointId, Endpoint>, e: EndpointId, endpoint: Endpoint)
    requires EndpointsUnique(endpoints) && e !in endpoints
    requires forall f :: f in endpoints ==> endpoints[f].owner != endpoint.owner
    ensures EndpointsUnique(endpoints[e := endpoint])
  {
    hide UrlKey;
  }

  /** Two visible connections of one kind can be merged exactly if the canonical one has no endpoint at that address. */
  lemma ConsolidateSucceeds(t: Tables, tenant: string, canonical: ConnectionId, duplicate: ConnectionId,
                            kind: RouteKind, endpointId: EndpointId)
    requires Sound(t)
    ensures Consolidate(t, tenant, canonical, duplicate, kind, endpointId).Some? <==>
              && Visible(t, tenant, canonical) && Visible(t, tenant, duplicate) && endpointId !in t.endpoints
              && t.connections[canonical].kind == t.connections[duplicate].kind
              && forall e :: e in t.endpoints && t.endpoints[e].owner == canonical ==>
                   UrlKey(t.endpoints[e].url) != UrlKey(t.connections[duplicate].url)
    ensures Consolidate(t, tenant, canonical, duplicate, kind, endpointId).Some? ==>
              var d := t.connections[duplicate];
              Consolidate(t, tenant, canonical, duplicate, kind, endpointId).value ==
              Tables(t.connections[duplicate := d.(archived := Some(MergedAs(kind)), mergedInto := Some(canonical),
                                                   syncEnabled := false)],
                     t.endpoints[endpointId := Endpoint(canonical, d.url, Route(kind), d.authRef, Some(duplicate))])
  {
    hide UrlKey, Acyclic, RoutesMatchMerges, OneCanonicalEach;
    if Visible(t, tenant, canonical) && Visible(t, tenant, duplicate) && endpointId !in t.endpoints {
      var d := t.connections[duplicate];
      ArchivedIsUnique(t.connections, duplicate,
                       d.(archived := Some(MergedAs(kind)), mergedInto := Some(canonical), syncEnabled := false));
      OneEndpointMore(t.endpoints, endpointId, Endpoint(canonical, d.url, Route(kind), d.authRef, Some(duplicate)));
    }
  }

  lemma ArchivedIsUnique(connections: map<ConnectionId, Connection>, id: ConnectionId, c: Connection)
    requires ConnectionsUnique(connections) && c.archived.Some?
    ensures ConnectionsUnique(connections[id := c])
  {
    hide UrlKey;
  }

  lemma OneEndpointMore(endpoints: map<EndpointId, Endpoint>, e: EndpointId, endpoint: Endpoint)
    requires EndpointsUnique(endpoints) && e !in endpoints
    ensures EndpointsUnique(endpoints[e := endpoint]) <==>
              forall f :: f in endpoints && endpoints[f].owner == endpoint.owner ==>
                UrlKey(endpoints[f].url) != UrlKey(endpoint.url)
  {
    hide UrlKey;
    var after := endpoints[e := endpoint];
    if EndpointsUnique(after) {
      forall f | f in endpoints && endpoints[f].owner == endpoint.owner
        ensures UrlKey(endpoints[f].url) != UrlKey(endpoint.url)
      {
        assert after[f] == endpoints[f] && after[e] == endpoint;
      }
    }
  }

  /** A settings update changes address, credential and switch of the connection, and its canonical endpoint, alone. */
  lemma UpdateSettingsTouches(t: Tables, tenant: string, id: ConnectionId, s: Settings)
    requires UpdateSettings(t, tenant, id, s).Some?
    ensures var after := UpdateSettings(t, tenant, id, s).value;
            && after.connections.Keys == t.connections.Keys && after.endpoints.Keys == t.endpoints.Keys
            && (forall i :: i in t.connections ==>
                  after.connections[i] ==
                  if i == id && t.connections[i].archived.None? &&
                     (tenant == "" || t.connections[i].organization == tenant)
                  then t.connections[i].(url := s.url, authRef := s.authRef, syncEnabled := s.syncEnabled)
                  else t.connections[i])
            && (forall e :: e in t.endpoints ==>
                  after.endpoints[e] ==
                  if t.endpoints[e].owner == id && t.endpoints[e].kind == Canonical
                  then t.endpoints[e].(url := s.url, authRef := s.authRef) else t.endpoints[e])
  {
    hide ConnectionsUnique, EndpointsUnique;
  }

  /** It succeeds exactly if no active connection of the organization and no other endpoint of its own is in the way. */
  lemma UpdateSettingsSucceeds(t: Tables, tenant: string, id: ConnectionId, s: Settings)
    requires Sound(t)
    ensures UpdateSettings(t, tenant, id, s).Some? <==>
              && (Visible(t, tenant, id) ==>
                    var c := t.connections[id]; !Taken(t, id, c.organization, c.name, c.kind, s.url))
              && (id in t.connections ==>
                    forall e :: e in t.endpoints && t.endpoints[e].owner == id && t.endpoints[e].kind != Canonical ==>
                      UrlKey(t.endpoints[e].url) != UrlKey(s.url))
  {
    hide UrlKey, Clash, ConnectionsUnique, EndpointsUnique, Acyclic, RoutesMatchMerges, OneCanonicalEach;
    if Visible(t, tenant, id) {
      var c := t.connections[id];
      PartIsUnique(t.connections, id);
      OneChange(t.connections, id, c.(url := s.url, authRef := s.authRef, syncEnabled := s.syncEnabled));
      assert Taken(t, id, c.organization, c.name, c.kind, s.url) <==>
             Taken(Tables(t.connections - {id}, map[]), id, c.organization, c.name, c.kind, s.url) by {
        SameTaken(t, id, c.organization, c.name, c.kind, s.url);
      }
    }
    CanonicalMoves(t, id, s);
  }

  lemma PartIsUnique(connections: map<ConnectionId, Connection>, id: ConnectionId)
    requires ConnectionsUnique(connections)
    ensures ConnectionsUnique(connections - {id})
  {
    hide Clash;
  }

  lemma SameTaken(t: Tables, id: ConnectionId, organization: string, name: string, kind: string, url: string)
    ensures Taken(t, id, organization, name, kind, url) <==>
            Taken(Tables(t.connections - {id}, map[]), id, organization, name, kind, url)
  {
    hide UrlKey;
    var others := Tables(t.connections - {id}, map[]);
    forall other ensures other in others.connections <==> other in t.connections && other != id {
    }
  }

  lemma CanonicalMoves(t: Tables, id: ConnectionId, s: Settings)
    requires EndpointsUnique(t.endpoints) && OneCanonicalEach(t)
    ensures EndpointsUnique(SetCanonical(t.endpoints, id, s)) <==>
              (id in t.connections ==>
                 forall e :: e in t.endpoints && t.endpoints[e].owner == id && t.endpoints[e].kind != Canonical ==>
                   UrlKey(t.endpoints[e].url) != UrlKey(s.url))
  {
    hide UrlKey;
    var after := SetCanonical(t.endpoints, id, s);
    if id in t.connections {
      var canonical :| IsCanonical(t, canonical, id);
      forall e | e in t.endpoints
        ensures t.endpoints[e].owner == id && t.endpoints[e].kind == Canonical <==> e == canonical
      {
        assert t.endpoints[e].owner == id && t.endpoints[e].kind == Canonical ==> IsCanonical(t, e, id);
      }
      if EndpointsUnique(after) {
        forall e | e in t.endpoints && t.endpoints[e].owner == id && t.endpoints[e].kind != Canonical
          ensures UrlKey(t.endpoints[e].url) != UrlKey(s.url)
        {
          assert after[e] == t.endpoints[e] && after[canonical].url == s.url;
        }
      }
    } else {
      forall e | e in t.endpoints ensures after[e] == t.endpoints[e] {
        assert t.endpoints[e].owner in t.connections;
      }
      assert after == t.endpoints;
    }
  }

  // ----- Whole runs -----

  datatype Request =
    | Register(id: ConnectionId, endpointId: EndpointId, connection: Connection)
    | Change(tenant: string, id: ConnectionId, settings: Settings)
    | Remove(tenant: string, id: ConnectionId)
    | Merge(tenant: string, canonical: ConnectionId, duplicate: ConnectionId, kind: RouteKind, endpointId: EndpointId)

  function Attempt(t: Tables, r: Request): Option<Tables> {
    match r
    case Register(id, endpointId, c) => Create(t, id, endpointId, c)
    case Change(tenant, id, s) => UpdateSettings(t, tenant, id, s)
    case Remove(tenant, id) => Archive(t, tenant, id)
    case Merge(tenant, canonical, duplicate, kind, endpointId) =>
      Consolidate(t, tenant, canonical, duplicate, kind, endpointId)
  }

  function Apply(t: Tables, r: Request): Tables {
    var attempt := Attempt(t, r);
    if attempt.Some? then attempt.value else t
  }

  function After(run: seq<Request>): Tables {
    if run == [] then Tables(map[], map[]) else Apply(After(run[..|run| - 1]), run[|run| - 1])
  }

  ghost predicate Owns(t: Tables, tenant: string, id: ConnectionId) {
    id in t.connections && (tenant == "" || t.connections[id].organization == tenant)
  }

  /** The service has looked the connection up, as its tenant, at some time before it changes the settings. */
  ghost predicate LookedUp(run: seq<Request>, k: nat, tenant: string, id: ConnectionId)
    requires k <= |run|
  {
    exists j :: 0 <= j <= k && Visible(After(run[..j]), tenant, id)
  }

  ghost predicate FromService(run: seq<Request>) {
    forall k :: 0 <= k < |run| && run[k].Change? ==> LookedUp(run, k, run[k].tenant, run[k].id)
  }

  lemma OwnerIsFixed(t: Tables, r: Request, tenant: string, id: ConnectionId)
    ensures Owns(t, tenant, id) ==> Owns(Apply(t, r), tenant, id)
  {
    hide ConnectionsUnique, EndpointsUnique;
  }

  lemma {:induction false} OwnedEverSince(run: seq<Request>, j: nat, k: nat, tenant: string, id: ConnectionId)
    requires j <= k <= |run| && Owns(After(run[..j]), tenant, id)
    ensures Owns(After(run[..k]), tenant, id)
  {
    if j < k {
      OwnedEverSince(run, j, k - 1, tenant, id);
      assert run[..k][..k - 1] == run[..k - 1];
      OwnerIsFixed(After(run[..k - 1]), run[k - 1], tenant, id);
    }
  }

  lemma ApplyKeeps(t: Tables, r: Request)
    requires Sound(t) && Agreed(t) && (r.Change? ==> Owns(t, r.tenant, r.id))
    ensures Sound(Apply(t, r)) && Agreed(Apply(t, r))
  {
    hide Sound, Agreed, Create, UpdateSettings, Archive, Consolidate;
    if Attempt(t, r).Some? {
      match r
      case Register(id, endpointId, c) => CreateKeeps(t, id, endpointId, c);
      case Change(tenant, id, s) =>
        UpdateSettingsKeepsSound(t, tenant, id, s);
        UpdateSettingsKeepsAgreement(t, tenant, id, s);
      case Remove(tenant, id) => ArchiveKeeps(t, tenant, id);
      case Merge(tenant, canonical, duplicate, kind, endpointId) =>
        ConsolidateKeeps(t, tenant, canonical, duplicate, kind, endpointId);
    }
  }

  /**
   * However requests interleave between lookup and write: merges form a forest, every connection has one canonical
   * endpoint, which agrees with it while it is active, and routes match merged connections one to one.
   */
  lemma {:induction false} EveryRunIsSound(run: seq<Request>)
    requires FromService(run)
    ensures Sound(After(run)) && Agreed(After(run))
  {
    hide Sound, Agreed, Apply, Owns;
    if run == [] {
      EmptyIsSound();
    } else {
      var n := |run| - 1;
      var init, last := run[..n], run[n];
      assert forall j :: 0 <= j <= n ==> init[..j] == run[..j];
      forall k | 0 <= k < n && init[k].Change? ensures LookedUp(init, k, init[k].tenant, init[k].id) {
        var j :| 0 <= j <= k && Visible(After(run[..j]), run[k].tenant, run[k].id);
        assert Visible(After(init[..j]), init[k].tenant, init[k].id);
      }
      EveryRunIsSound(init);
      if last.Change? {
        var j :| 0 <= j <= n && Visible(After(run[..j]), last.tenant, last.id);
        SeenIsOwned(After(run[..j]), last.tenant, last.id);
        OwnedEverSince(run, j, n, last.tenant, last.id);
      }
      ApplyKeeps(After(init), last);
    }
  }

  lemma SeenIsOwned(t: Tables, tenant: string, id: ConnectionId)
    requires Visible(t, tenant, id)
    ensures Owns(t, tenant, id)
  {
  }

  lemma EmptyIsSound()
    ensures Sound(Tables(map[], map[])) && Agreed(Tables(map[], map[]))
  {
    var t := Tables(map[], map[]);
    forall chain ensures MergeChain(t, chain) ==> |chain| == 0 {
      assert |chain| > 0 ==> chain[0] !in t.connections;
    }
  }

  // ----- The tables, updated in place -----

  class EndpointStore {
    var connections: map<ConnectionId, Connection>
    var endpoints: map<EndpointId, Endpoint>

    constructor ()
      ensures Valid() && Now() == After([])
    {
      connections, endpoints := map[], map[];
      new;
      EmptyIsSound();
    }

    function Now(): Tables
      reads this
    {
      Tables(connections, endpoints)
    }

    ghost predicate Valid()
      reads this
    {
      Sound(Now()) && Agreed(Now())
    }

    method Insert(id: ConnectionId, endpointId: EndpointId, c: Connection) returns (ok: bool)
      requires Valid()
      modifies this
      ensures Valid()
      ensures ok <==> Create(old(Now()), id, endpointId, c).Some?
      ensures Now() == Apply(old(Now()), Register(id, endpointId, c))
    {
      hide Sound, Agreed;
      ghost var request := Register(id, endpointId, c);
      ApplyKeeps(Now(), request);
      var before := Now();
      if id in connections || endpointId in endpoints {
        return false;
      }
      connections := connections[id := c.(archived := None, mergedInto := None)];
      endpoints := endpoints[endpointId := Endpoint(id, c.url, Canonical, c.authRef, None)];
      ok := ConnectionsUnique(connections) && EndpointsUnique(endpoints);
      if !ok {
        connections, endpoints := before.connections, before.endpoints;
      }
    }

    /** Commits even when the caller cannot see the connection; then only the canonical endpoint has changed. */
    method SetSettings(tenant: string, id: ConnectionId, s: Settings) returns (ok: bool)
      requires Valid()
      modifies this
      ensures Sound(Now())
      ensures Now() == Apply(old(Now()), Change(tenant, id, s))
      ensures ok ==> Visible(Now(), tenant, id) && connections[id].url == s.url && connections[id].authRef == s.authRef
      ensures Owns(old(Now()), tenant, id) ==> Valid()
    {
      hide Sound, Agreed, ConnectionsUnique, EndpointsUnique;
      var before := Now();
      if UpdateSettings(before, tenant, id, s).Some? {
        UpdateSettingsKeepsSound(before, tenant, id, s);
        UpdateSettingsKeepsAgreement(before, tenant, id, s);
      }
      if Visible(before, tenant, id) {
        connections := connections[id := connections[id].(url := s.url, authRef := s.authRef,
                                                          syncEnabled := s.syncEnabled)];
      }
      endpoints := SetCanonical(endpoints, id, s);
      if !(ConnectionsUnique(connections) && EndpointsUnique(endpoints)) {
        connections, endpoints := before.connections, before.endpoints;
        return false;
      }
      return Visible(Now(), tenant, id);
    }

    method Retire(tenant: string, id: ConnectionId) returns (ok: bool)
      requires Valid()
      modifies this
      ensures Valid()
      ensures ok <==> Visible(old(Now()), tenant, id)
      ensures Now() == Apply(old(Now()), Remove(tenant, id))
      ensures ok ==>
                connections == old(connections)[id := old(connections)[id].(archived := Some(Removed),
                                                                            syncEnabled := false)]
      ensures !ok ==> connections == old(connections)
      ensures endpoints == old(endpoints)
    {
      hide Sound, Agreed;
      ApplyKeeps(Now(), Remove(tenant, id));
      ok := Visible(Now(), tenant, id);
      if ok {
        connections := connections[id := connections[id].(archived := Some(Removed), syncEnabled := false)];
      }
    }

    method ConsolidateEndpoint(tenant: string, canonical: ConnectionId, duplicate: ConnectionId, kind: RouteKind,
        endpointId: EndpointId)
        returns (ok: bool)
      requires Valid()
      modifies this
      ensures Valid()
      ensures Now() == Apply(old(Now()), Merge(tenant, canonical, duplicate, kind, endpointId))
      ensures !ok ==> Now() == old(Now())
      ensures ok ==> canonical != duplicate && duplicate in connections &&
                     connections[duplicate].mergedInto == Some(canonical) && StandsFor(Now(), endpointId, duplicate)
    {
      hide Sound, Agreed, ConnectionsUnique, EndpointsUnique;
      var before := Now();
      ApplyKeeps(before, Merge(tenant, canonical, duplicate, kind, endpointId));
      NoSelfMerge(before, tenant, canonical, kind, endpointId);
      if !Visible(before, tenant, canonical) || !Visible(before, tenant, duplicate) ||
         connections[canonical].kind != connections[duplicate].kind || endpointId in endpoints {
        return false;
      }
      var d := connections[duplicate];
      endpoints := endpoints[endpointId := Endpoint(canonical, d.url, Route(kind), d.authRef, Some(duplicate))];
      connections := connections[duplicate :=
        d.(archived := Some(MergedAs(kind)), mergedInto := Some(canonical), syncEnabled := false)];
      ok := ConnectionsUnique(connections) && EndpointsUnique(endpoints);
      if !ok {
        connections, endpoints := before.connections, before.endpoints;
      }
    }
  }
}
