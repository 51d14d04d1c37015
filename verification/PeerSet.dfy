/** Switching the live set of MCP peers: connectors are swapped first, the routing catalog after. */
module PeerSet {
  import opened Wrappers
  import opened Text

  datatype Transport = Stdio(command: string) | Http(url: string) | Managed | Docker(image: string)
  datatype McpConfig = McpConfig(name: string, enabled: bool, transport: Transport)

  datatype Rejection = EmptyName | DuplicateName(name: string) | EmptyTransport(name: string)

  datatype Report = Report(enabled: set<string>, removed: set<string>, added: set<string>)

  predicate Blank(s: string) {
    Trim(s) == ""
  }

  /** An enabled peer needs something to run or to call; a managed peer's program is looked up by its name. */
  predicate Reachable(t: Transport) {
    match t
    case Stdio(command) => !Blank(command)
    case Http(url) => !Blank(url)
    case Docker(image) => !Blank(image)
    case Managed => true
  }

  ghost predicate Acceptable(mcps: seq<McpConfig>) {
    && (forall i :: 0 <= i < |mcps| ==> !Blank(mcps[i].name) && (mcps[i].enabled ==> Reachable(mcps[i].transport)))
    && forall i, j :: 0 <= i < j < |mcps| ==> mcps[i].name != mcps[j].name
  }

  /** What acceptable means, field by field: a managed peer needs no more than its name, and a disabled one neither. */
  lemma AcceptableLaw(mcps: seq<McpConfig>)
    ensures Acceptable(mcps) <==>
              && (forall i :: 0 <= i < |mcps| ==> Trim(mcps[i].name) != "")
              && (forall i, j :: 0 <= i < j < |mcps| ==> mcps[i].name != mcps[j].name)
              && (forall i :: 0 <= i < |mcps| && mcps[i].enabled ==>
                   match mcps[i].transport
                   case Stdio(command) => Trim(command) != ""
                   case Http(url) => Trim(url) != ""
                   case Docker(image) => Trim(image) != ""
                   case Managed => true)
  {
  }

  /** The first entry that is at fault, by its index, and what it is rejected for. */
  ghost predicate FirstFault(mcps: seq<McpConfig>, i: int, e: Rejection) {
    && 0 <= i < |mcps| && Acceptable(mcps[..i]) && !Acceptable(mcps[..i + 1])
    && e == if Trim(mcps[i].name) == "" then EmptyName
            else if mcps[i].name in NamesOf(mcps[..i]) then DuplicateName(mcps[i].name)
            else EmptyTransport(mcps[i].name)
  }

  function Desired(mcps: seq<McpConfig>): seq<McpConfig> {
    if mcps == [] then []
    else Desired(mcps[..|mcps| - 1]) + (if mcps[|mcps| - 1].enabled then [mcps[|mcps| - 1]] else [])
  }

  function NamesOf(mcps: seq<McpConfig>): set<string> {
    set m | m in mcps :: m.name
  }

  method ValidateDesired(mcps: seq<McpConfig>) returns (r: Result<(), Rejection>)
    ensures r.Success? <==> Acceptable(mcps)
    ensures r.Failure? ==> exists i :: FirstFault(mcps, i, r.error)
  {
    var seen: set<string> := {};
    for i := 0 to |mcps|
      invariant Acceptable(mcps[..i])
      invariant seen == NamesOf(mcps[..i])
    {
      var m := mcps[i];
      assert mcps[..i + 1] == mcps[..i] + [m] && mcps[..i + 1][i] == m;
      if Blank(m.name) {
        assert FirstFault(mcps, i, EmptyName);
        return Failure(EmptyName);
      }
      if m.name in seen {
        var earlier :| earlier in mcps[..i] && earlier.name == m.name;
        var j :| 0 <= j < i && mcps[j] == earlier;
        assert mcps[j].name == mcps[i].name;
        assert mcps[..i + 1][j] == mcps[j];
        assert FirstFault(mcps, i, DuplicateName(m.name));
        return Failure(DuplicateName(m.name));
      }
      if m.enabled && !Reachable(m.transport) {
        assert FirstFault(mcps, i, EmptyTransport(m.name));
        return Failure(EmptyTransport(m.name));
      }
      seen := seen + {m.name};
    }
    assert mcps[..|mcps|] == mcps;
    r := Success(());
  }

  /** One connector for each desired peer, under its name. */
  method BuildConnectors(desired: seq<McpConfig>) returns (connectors: map<string, McpConfig>)
    ensures connectors.Keys == NamesOf(desired)
    ensures BuiltFrom(connectors, desired)
  {
    connectors := map[];
    for i := 0 to |desired|
      invariant connectors.Keys == NamesOf(desired[..i])
      invariant BuiltFrom(connectors, desired)
    {
      assert desired[..i + 1] == desired[..i] + [desired[i]];
      connectors := connectors[desired[i].name := desired[i]];
    }
    assert desired[..|desired|] == desired;
  }

  /** Names with a connector, and names listed for routing. */
  datatype Moment = Moment(connected: set<string>, routed: set<string>)

  /** Every name maps to the entry of `mcps` that carries it. */
  ghost predicate BuiltFrom(table: map<string, McpConfig>, mcps: seq<McpConfig>) {
    forall n :: n in table ==> table[n] in mcps && table[n].name == n
  }

  function Stranded(m: Moment): set<string> {
    m.routed - m.connected
  }

  class Live {
    var registry: map<string, McpConfig>
    var catalog: map<string, McpConfig>
    /** Every state this object has been in. */
    ghost var log: seq<Moment>

    ghost function Now(): Moment
      reads this
    {
      Moment(registry.Keys, catalog.Keys)
    }

    constructor ()
      ensures registry == map[] && catalog == map[] && log == []
    {
      registry, catalog, log := map[], map[], [];
    }

    method ReplaceConnectors(connectors: map<string, McpConfig>)
      modifies this
      ensures registry == connectors && catalog == old(catalog) && log == old(log) + [Now()]
    {
      registry := connectors;
      log := log + [Now()];
    }

    method Deregister(name: string)
      modifies this
      ensures registry == old(registry) && catalog == old(catalog) - {name} && log == old(log) + [Now()]
    {
      catalog := catalog - {name};
      log := log + [Now()];
    }

    method Register(m: McpConfig)
      modifies this
      ensures registry == old(registry) && catalog == old(catalog)[m.name := m] && log == old(log) + [Now()]
    {
      catalog := catalog[m.name := m];
      log := log + [Now()];
    }

    /** Take out of the catalog what is not desired, then list every desired peer. */
    method SyncCatalogToDesired(desired: seq<McpConfig>)
      requires registry.Keys == NamesOf(desired)
      modifies this
      ensures registry == old(registry) && catalog.Keys == NamesOf(desired) && BuiltFrom(catalog, desired)
      ensures old(log) <= log
      ensures forall i :: |old(log)| <= i < |log| ==> Stranded(log[i]) <= old(catalog.Keys) - NamesOf(desired)
    {
      var target := NamesOf(desired);
      var existing := catalog.Keys;
      while existing != {}
        invariant registry == old(registry) && existing <= catalog.Keys <= old(catalog.Keys)
        invariant catalog.Keys - existing <= target
        invariant old(log) <= log
        invariant forall i :: |old(log)| <= i < |log| ==> Stranded(log[i]) <= old(catalog.Keys) - target
        decreases |existing|
      {
        var name :| name in existing;
        existing := existing - {name};
        if name !in target {
          Deregister(name);
        }
      }
      for i := 0 to |desired|
        invariant registry == old(registry) && catalog.Keys <= target && NamesOf(desired[..i]) <= catalog.Keys
        invariant forall n :: n in NamesOf(desired[..i]) ==> catalog[n] in desired && catalog[n].name == n
        invariant old(log) <= log
        invariant forall j :: |old(log)| <= j < |log| ==> Stranded(log[j]) <= old(catalog.Keys) - target
      {
        assert desired[..i + 1] == desired[..i] + [desired[i]] && desired[i] in desired;
        Register(desired[i]);
      }
      assert desired[..|desired|] == desired;
    }

    /**
     * A rejected set changes nothing. An accepted one makes connectors and routing the enabled names. In
     * between, a name can be routed without a connector only while it is on its way out: right after the
     * connectors are swapped exactly the routed names that are not enabled are in that position.
     */
    method ApplyMcpPeerSet(mcps: seq<McpConfig>) returns (r: Result<Report, Rejection>)
      modifies this
      ensures r.Success? <==> Acceptable(mcps)
      ensures r.Failure? ==> registry == old(registry) && catalog == old(catalog) && log == old(log)
      ensures r.Success? ==>
        var enabled := NamesOf(Desired(mcps));
        && registry.Keys == catalog.Keys == enabled
        && BuiltFrom(registry, Desired(mcps)) && BuiltFrom(catalog, Desired(mcps))
        && r.value.enabled == enabled
        && (old(registry.Keys) + r.value.added) - r.value.removed == enabled
        && r.value.added !! old(registry.Keys) && r.value.removed <= old(registry.Keys)
        && |log| > |old(log)| && Stranded(log[|old(log)|]) == old(catalog.Keys) - enabled
        && forall i :: |old(log)| <= i < |log| ==> Stranded(log[i]) <= old(catalog.Keys) - enabled
      ensures r.Success? && old(catalog.Keys) <= old(registry.Keys) ==>
        forall i :: |old(log)| <= i < |log| ==> Stranded(log[i]) <= r.value.removed
      ensures old(log) <= log
    {
      var valid := ValidateDesired(mcps);
      if valid.Failure? {
        return Failure(valid.error);
      }
      var desired := Desired(mcps);
      var names := NamesOf(desired);
      var connectors := BuildConnectors(desired);
      var previous := registry.Keys;
      var added, removed := names - previous, previous - names;
      ReplaceConnectors(connectors);
      assert Stranded(log[|old(log)|]) == old(catalog.Keys) - names;
      SyncCatalogToDesired(desired);
      r := Success(Report(names, removed, added));
    }
  }

  /** The set that the last acceptable request of a run asks for. */
  ghost function LastAccepted(requests: seq<seq<McpConfig>>): Option<set<string>> {
    if requests == [] then None
    else if Acceptable(requests[|requests| - 1]) then Some(NamesOf(Desired(requests[|requests| - 1])))
    else LastAccepted(requests[..|requests| - 1])
  }

  /** After any run of requests the connectors and the routing agree with the last one that was accepted. */
  method ApplyAll(requests: seq<seq<McpConfig>>) returns (live: Live)
    ensures match LastAccepted(requests)
            case None => live.registry == map[] && live.catalog == map[]
            case Some(names) => live.registry.Keys == live.catalog.Keys == names
  {
    live := new Live();
    for i := 0 to |requests|
      invariant fresh(live)
      invariant match LastAccepted(requests[..i])
                case None => live.registry == map[] && live.catalog == map[]
                case Some(names) => live.registry.Keys == live.catalog.Keys == names
    {
      assert requests[..i + 1][..i] == requests[..i];
      var _ := live.ApplyMcpPeerSet(requests[i]);
    }
    assert requests[..|requests|] == requests;
  }

  /** Only enabled entries are desired, all of them, and nothing else. */
  lemma {:induction false} DesiredAreTheEnabled(mcps: seq<McpConfig>)
    ensures forall m :: m in Desired(mcps) <==> m in mcps && m.enabled
  {
    if mcps != [] {
      var front, last := mcps[..|mcps| - 1], mcps[|mcps| - 1];
      DesiredAreTheEnabled(front);
      assert mcps == front + [last];
    }
  }
}
