/** How the functional test judges the backend against the desired topology:
    the ids read back from the backend's row names must equal the desired ids,
    ignoring order, table by table, and router by router for router ports. */
module SyncValidation {
  import opened Common
  import opened Identity
  import opened NbDb
  import opened SyncPlan
  import opened OvnDbSync

  /** The ids read back from a set of row names: each name without the prefix. */
  function RowIds(prefix: string, names: set<string>): set<string>
  {
    set n | n in names :: StripPrefix(prefix, n)
  }

  /** Order-free equality of a list of distinct ids with the ids read back from
      the rows: the same ids, and no two rows reading back as one id. */
  predicate SameItems(ids: set<string>, prefix: string, names: set<string>)
  {
    RowIds(prefix, names) == ids
    && forall a, b :: a in names && b in names && StripPrefix(prefix, a) == StripPrefix(prefix, b) ==> a == b
  }

  /** Networks against logical switches. */
  predicate NetworksMatch(d: Desired, s: NbState)
  {
    SameItems(d.networks, NEUTRON_PREFIX, s.switches.owners)
  }

  /** Ports against logical switch ports, which carry the bare port id. */
  predicate PortsMatch(d: Desired, s: NbState)
  {
    s.switches.ports.Keys == d.ports.Keys
  }

  /** Routers against logical routers. */
  predicate RoutersMatch(d: Desired, s: NbState)
  {
    SameItems(d.routers, NEUTRON_PREFIX, s.routers.owners)
  }

  /** The router port rows of the router with the given id; a router without a
      row has none. */
  function RouterPortRows(s: NbState, r: string): (rows: set<string>)
    ensures OvnName(r) !in s.routers.owners ==> rows == {}
    ensures forall p :: p in rows <==> OvnName(r) in s.routers.owners && p in s.routers.ports && s.routers.ports[p] == OvnName(r)
  {
    if OvnName(r) in s.routers.owners then set p | p in s.routers.ports && s.routers.ports[p] == OvnName(r) else {}
  }

  /** The desired interface ports of one router. */
  function DesiredRouterPorts(d: Desired, r: string): set<string>
  {
    set p | p in d.routerPorts && d.routerPorts[p] == r
  }

  /** One router's interface ports against its router port rows. */
  predicate RouterPortsMatch(d: Desired, s: NbState, r: string)
  {
    SameItems(DesiredRouterPorts(d, r), LRP_PREFIX, RouterPortRows(s, r))
  }

  /** Every check passes. */
  predicate ResourcesMatch(d: Desired, s: NbState)
  {
    NetworksMatch(d, s) && PortsMatch(d, s) && RoutersMatch(d, s)
    && forall r :: r in d.routers ==> RouterPortsMatch(d, s, r)
  }

  /** Every check fails, as the test expects after rows are dropped from the
      backend and after a sync in log or off mode. */
  predicate ResourcesMismatch(d: Desired, s: NbState)
  {
    !NetworksMatch(d, s) && !PortsMatch(d, s) && !RoutersMatch(d, s)
    && forall r :: r in d.routers ==> !RouterPortsMatch(d, s, r)
  }

  // ---------------------------------------------------------------------------
  // A repair makes every check pass

  /** The rows named for a set of ids read back as exactly those ids. */
  lemma OwnerNamesSameItems(ids: set<string>)
    ensures SameItems(ids, NEUTRON_PREFIX, OwnerNames(ids))
  {
    forall i | i in ids
      ensures StripPrefix(NEUTRON_PREFIX, OvnName(i)) == i
    {
      StripPrefixRoundTrip(NEUTRON_PREFIX, i);
    }
    forall x | x in ids
      ensures x in RowIds(NEUTRON_PREFIX, OwnerNames(ids))
    {
      assert OvnName(x) in OwnerNames(ids);
    }
  }

  /** The router port rows a repair leaves for one router read back as that
      router's desired interface ports. */
  lemma WantedRouterPortsSameItems(d: Desired, s: NbState, r: string)
    requires s.routers.owners == OwnerNames(d.routers) && s.routers.ports == WantedRows(Routers, d.routerPorts)
    requires r in d.routers
    ensures RouterPortsMatch(d, s, r)
  {
    var rows := RouterPortRows(s, r);
    var want := DesiredRouterPorts(d, r);
    assert OvnName(r) in s.routers.owners;
    WantedRowsExact(Routers, d.routerPorts);
    forall p | p in rows
      ensures exists id :: id in want && p == OvnLrouterPortName(id)
    {
      var id :| id in d.routerPorts && p == PortName(Routers, id);
      DecodeEncode(NEUTRON_PREFIX, d.routerPorts[id], r);
      assert id in want;
    }
    forall id | id in want
      ensures OvnLrouterPortName(id) in rows && StripPrefix(LRP_PREFIX, OvnLrouterPortName(id)) == id
    {
      assert PortName(Routers, id) == OvnLrouterPortName(id);
      StripPrefixRoundTrip(LRP_PREFIX, id);
    }
    forall x | x in want
      ensures x in RowIds(LRP_PREFIX, rows)
    {
      assert OvnLrouterPortName(x) in rows;
    }
  }

  /** Switch tables holding exactly the desired rows pass the network and
      port checks. */
  lemma ConvergedSwitchesMatch(d: Desired, u: NbState)
    requires u.switches.owners == OwnerNames(d.networks) && u.switches.ports == WantedRows(Switches, d.ports)
    ensures NetworksMatch(d, u) && PortsMatch(d, u)
  {
    OwnerNamesSameItems(d.networks);
    WantedRowsExact(Switches, d.ports);
    forall p | p in u.switches.ports
      ensures p in d.ports
    {
      var id :| id in d.ports && p == PortName(Switches, id);
    }
  }

  /** Router tables holding exactly the desired rows pass the router check and
      every router's port check. */
  lemma ConvergedRoutersMatch(d: Desired, u: NbState)
    requires u.routers.owners == OwnerNames(d.routers) && u.routers.ports == WantedRows(Routers, d.routerPorts)
    ensures RoutersMatch(d, u)
    ensures forall r :: r in d.routers ==> RouterPortsMatch(d, u, r)
  {
    OwnerNamesSameItems(d.routers);
    forall r | r in d.routers
      ensures RouterPortsMatch(d, u, r)
    {
      WantedRouterPortsSameItems(d, u, r);
    }
  }

  /** After a full repair pass over a store whose rows are all this
      system's, every check of the functional test passes. */
  lemma SyncedMatches(s: NbState, d: Desired)
    requires d.Valid()
    requires ManagedTable(Switches, s.switches) && ManagedTable(Routers, s.routers)
    ensures ResourcesMatch(d, Synced(s, d))
  {
    var u := Synced(s, d);
    RepairConverges(Switches, s.switches, d.networks, d.ports);
    RepairConverges(Routers, s.routers, d.routers, d.routerPorts);
    ConvergedSwitchesMatch(d, u);
    ConvergedRoutersMatch(d, u);
  }

  /** A repair of a wiped (empty) store repopulates it until every check
      passes. */
  lemma RepairFromEmpty(d: Desired)
    requires d.Valid()
    ensures ResourcesMatch(d, Synced(EMPTY, d))
  {
    SyncedMatches(EMPTY, d);
  }

  /** A wiped store fails every check of a topology with a network, a port and
      a router, each of whose routers has an interface port. */
  lemma EmptyStoreMismatch(d: Desired)
    requires d.networks != {} && d.ports != map[] && d.routers != {}
    requires forall r :: r in d.routers ==> DesiredRouterPorts(d, r) != {}
    ensures ResourcesMismatch(d, EMPTY)
  {
    assert RowIds(NEUTRON_PREFIX, {}) == {};
    assert RowIds(LRP_PREFIX, {}) == {};
    var p :| p in d.ports;
    assert p !in EMPTY.switches.ports.Keys;
  }

  // ---------------------------------------------------------------------------
  // Dropping rows makes the checks fail

  /** Deletions of ports from the owners paired with them, in order. */
  function PairCmds(k: Kind, pairs: seq<(string, string)>): seq<Command>
  {
    if pairs == [] then []
    else PairCmds(k, pairs[..|pairs| - 1]) + [DelPortCmd(k, pairs[|pairs| - 1].0, pairs[|pairs| - 1].1)]
  }

  /** The test's deletion transaction: the listed switches, switch ports,
      routers and router ports, in that order, each deleted only if it exists. */
  function DropCommands(lswitches: seq<string>, lports: seq<(string, string)>,
                        lrouters: seq<string>, lrports: seq<(string, string)>): seq<Command>
  {
    DelOwnerCmds(Switches, lswitches) + PairCmds(Switches, lports)
    + DelOwnerCmds(Routers, lrouters) + PairCmds(Routers, lrports)
  }

  /** Builds the deletion transaction list by list and commits it. */
  method DeleteResourcesInNb(nb: NbDb, lswitches: seq<string>, lports: seq<(string, string)>,
                             lrouters: seq<string>, lrports: seq<(string, string)>)
    returns (error: Option<string>)
    modifies nb
    ensures error.None? <==> ApplyAll(old(nb.State()), DropCommands(lswitches, lports, lrouters, lrports)).Success?
    ensures error.None? ==> nb.State() == ApplyAll(old(nb.State()), DropCommands(lswitches, lports, lrouters, lrports)).value
    ensures error.Some? ==> nb.State() == old(nb.State())
    ensures old(nb.State()).Valid() ==> nb.State().Valid()
  {
    var cmds: seq<Command> := [];
    for i := 0 to |lswitches|
      invariant cmds == DelOwnerCmds(Switches, lswitches[..i])
    {
      assert lswitches[..i + 1][..i] == lswitches[..i];
      cmds := cmds + [DelLSwitch(lswitches[i], true)];
    }
    assert lswitches[..|lswitches|] == lswitches;
    var head := cmds;
    for i := 0 to |lports|
      invariant cmds == head + PairCmds(Switches, lports[..i])
    {
      assert lports[..i + 1][..i] == lports[..i];
      cmds := cmds + [DelLSwitchPort(lports[i].0, lports[i].1, true)];
    }
    assert lports[..|lports|] == lports;
    head := cmds;
    for i := 0 to |lrouters|
      invariant cmds == head + DelOwnerCmds(Routers, lrouters[..i])
    {
      assert lrouters[..i + 1][..i] == lrouters[..i];
      cmds := cmds + [DelLRouter(lrouters[i], true)];
    }
    assert lrouters[..|lrouters|] == lrouters;
    head := cmds;
    for i := 0 to |lrports|
      invariant cmds == head + PairCmds(Routers, lrports[..i])
    {
      assert lrports[..i + 1][..i] == lrports[..i];
      cmds := cmds + [DelLRouterPort(lrports[i].0, lrports[i].1, true)];
    }
    assert lrports[..|lrports|] == lrports;
    error := nb.Transaction(cmds);
  }

  /** A check that passes fails once one of the rows it read is gone. */
  lemma DroppedRowFailsCheck(ids: set<string>, prefix: string, names: set<string>, gone: string)
    requires SameItems(ids, prefix, names) && gone in names
    ensures StripPrefix(prefix, gone) in ids
    ensures !SameItems(ids, prefix, names - {gone})
  {
    if SameItems(ids, prefix, names - {gone}) {
      assert false;
    }
  }

  /** The store after the test's deletions: one switch (and its ports), one
      port of another switch, one router (and its ports), and one router port
      of another router. */
  function Dropped(s: NbState, ln2: string, p2: string, lr2: string, lrp: string): NbState
  {
    NbState(Table(s.switches.owners - {ln2}, DropOwners(s.switches, {ln2}).ports - {p2}),
            Table(s.routers.owners - {lr2}, DropOwners(s.routers, {lr2}).ports - {lrp}))
  }

  /** One-element deletion lists are one command each. */
  lemma SingleDropCommands(k: Kind, owner: string, port: string, portOwner: string)
    ensures DelOwnerCmds(k, [owner]) == [DelOwnerCmd(k, owner)]
    ensures PairCmds(k, [(port, portOwner)]) == [DelPortCmd(k, port, portOwner)]
  {
    var a := [owner];
    assert a[..|a| - 1] == [];
    assert DelOwnerCmds(k, a[..|a| - 1]) == [];
    var b := [(port, portOwner)];
    assert b[..|b| - 1] == [];
    assert PairCmds(k, b[..|b| - 1]) == [];
  }

  /** Each deletion of the test's transaction finds its owner, so the
      transaction succeeds and leaves exactly the dropped store. */
  lemma DropCommandsEffect(s: NbState, ln2: string, p2: string, ln1: string, lr2: string, lrp: string, lr1: string)
    requires s.Valid() && ln1 in s.switches.owners && ln1 != ln2 && lr1 in s.routers.owners && lr1 != lr2
    ensures ApplyAll(s, DropCommands([ln2], [(p2, ln1)], [lr2], [(lrp, lr1)])) == Success(Dropped(s, ln2, p2, lr2, lrp))
  {
    var c1 := DelOwnerCmds(Switches, [ln2]);
    var c2 := PairCmds(Switches, [(p2, ln1)]);
    var c3 := DelOwnerCmds(Routers, [lr2]);
    var c4 := PairCmds(Routers, [(lrp, lr1)]);
    SingleDropCommands(Switches, ln2, p2, ln1);
    SingleDropCommands(Routers, lr2, lrp, lr1);
    assert [DelOwnerCmd(Switches, ln2)] == [] + [DelOwnerCmd(Switches, ln2)];
    assert [DelPortCmd(Switches, p2, ln1)] == [] + [DelPortCmd(Switches, p2, ln1)];
    assert [DelOwnerCmd(Routers, lr2)] == [] + [DelOwnerCmd(Routers, lr2)];
    assert [DelPortCmd(Routers, lrp, lr1)] == [] + [DelPortCmd(Routers, lrp, lr1)];

    var s1 := s.With(Switches, DropOwners(s.switches, {ln2}));
    ApplyAllSnoc(s, [], DelOwnerCmd(Switches, ln2));
    ApplyDelOwner(s, Switches, ln2);
    assert ApplyAll(s, c1) == Success(s1);

    var s2 := s1.With(Switches, Table(s1.switches.owners, s1.switches.ports - {p2}));
    ApplyAllSnoc(s1, [], DelPortCmd(Switches, p2, ln1));
    ApplyDelPort(s1, Switches, p2, ln1);
    assert ApplyAll(s1, c2) == Success(s2);

    var s3 := s2.With(Routers, DropOwners(s.routers, {lr2}));
    ApplyAllSnoc(s2, [], DelOwnerCmd(Routers, lr2));
    ApplyDelOwner(s2, Routers, lr2);
    assert ApplyAll(s2, c3) == Success(s3);

    var s4 := s3.With(Routers, Table(s3.routers.owners, s3.routers.ports - {lrp}));
    ApplyAllSnoc(s3, [], DelPortCmd(Routers, lrp, lr1));
    ApplyDelPort(s3, Routers, lrp, lr1);
    assert ApplyAll(s3, c4) == Success(s4);
    assert s4 == Dropped(s, ln2, p2, lr2, lrp);

    ApplyAllConcat(s, c1, c2);
    ApplyAllConcat(s, c1 + c2, c3);
    ApplyAllConcat(s, c1 + c2 + c3, c4);
  }

  /** Dropping a switch and a port fails the network and port checks. */
  lemma DroppedSwitchRowsMismatch(d: Desired, s: NbState, n2: string, p2: string, lr2: string, lrp: string)
    requires NetworksMatch(d, s) && OvnName(n2) in s.switches.owners && p2 in d.ports
    ensures !NetworksMatch(d, Dropped(s, OvnName(n2), p2, lr2, lrp))
    ensures !PortsMatch(d, Dropped(s, OvnName(n2), p2, lr2, lrp))
  {
    DroppedRowFailsCheck(d.networks, NEUTRON_PREFIX, s.switches.owners, OvnName(n2));
    assert p2 !in Dropped(s, OvnName(n2), p2, lr2, lrp).switches.ports;
  }

  /** Dropping one router and one port of another router fails the router
      check and the router port checks of both routers. */
  lemma DroppedRouterRowsMismatch(d: Desired, s: NbState, ln2: string, p2: string, r1: string, rp: string, r2: string)
    requires RoutersMatch(d, s) && RouterPortsMatch(d, s, r1) && r1 != r2 && OvnName(r2) in s.routers.owners
    requires DesiredRouterPorts(d, r2) != {} && OvnLrouterPortName(rp) in RouterPortRows(s, r1)
    ensures !RoutersMatch(d, Dropped(s, ln2, p2, OvnName(r2), OvnLrouterPortName(rp)))
    ensures !RouterPortsMatch(d, Dropped(s, ln2, p2, OvnName(r2), OvnLrouterPortName(rp)), r1)
    ensures !RouterPortsMatch(d, Dropped(s, ln2, p2, OvnName(r2), OvnLrouterPortName(rp)), r2)
  {
    var lrp := OvnLrouterPortName(rp);
    var u := Dropped(s, ln2, p2, OvnName(r2), lrp);
    assert OvnName(r1) != OvnName(r2) by { DecodeEncode(NEUTRON_PREFIX, r1, r2); }
    DroppedRowFailsCheck(d.routers, NEUTRON_PREFIX, s.routers.owners, OvnName(r2));
    assert RouterPortRows(u, r1) == RouterPortRows(s, r1) - {lrp};
    DroppedRowFailsCheck(DesiredRouterPorts(d, r1), LRP_PREFIX, RouterPortRows(s, r1), lrp);
    assert RowIds(LRP_PREFIX, RouterPortRows(u, r2)) == {};
  }

  /** The functional test's scenario: from a store that passes every check,
      dropping the switch of one network, a port of another network, the router
      of one router and an interface port of the other router makes every
      check fail. */
  lemma DroppedRowsMismatch(d: Desired, s: NbState, n1: string, n2: string, p2: string,
                            r1: string, rp: string, r2: string)
    requires s.Valid() && ResourcesMatch(d, s)
    requires n1 != n2 && OvnName(n1) in s.switches.owners && OvnName(n2) in s.switches.owners && p2 in d.ports
    requires d.routers == {r1, r2} && r1 != r2 && OvnName(r2) in s.routers.owners && DesiredRouterPorts(d, r2) != {}
    requires OvnLrouterPortName(rp) in RouterPortRows(s, r1)
    ensures ApplyAll(s, DropCommands([OvnName(n2)], [(p2, OvnName(n1))], [OvnName(r2)],
                                     [(OvnLrouterPortName(rp), OvnName(r1))])).Success?
    ensures ResourcesMismatch(d, ApplyAll(s, DropCommands([OvnName(n2)], [(p2, OvnName(n1))], [OvnName(r2)],
                                                          [(OvnLrouterPortName(rp), OvnName(r1))])).value)
  {
    var ln2, lr2, lrp := OvnName(n2), OvnName(r2), OvnLrouterPortName(rp);
    assert OvnName(n1) != ln2 by { DecodeEncode(NEUTRON_PREFIX, n1, n2); }
    assert OvnName(r1) != lr2 by { DecodeEncode(NEUTRON_PREFIX, r1, r2); }
    assert OvnName(r1) in s.routers.owners;
    DropCommandsEffect(s, ln2, p2, OvnName(n1), lr2, lrp, OvnName(r1));
    DroppedSwitchRowsMismatch(d, s, n2, p2, lr2, lrp);
    DroppedRouterRowsMismatch(d, s, ln2, p2, r1, rp, r2);
  }

  // ---------------------------------------------------------------------------
  // One run of the functional test

  /** The test's run after its topology is created: the deletion transaction,
      then both synchronisation phases when the deletions were committed. */
  method DeleteThenSync(sync: OvnNbSynchronizer, d: Desired, lswitches: seq<string>, lports: seq<(string, string)>,
                        lrouters: seq<string>, lrports: seq<(string, string)>)
    returns (error: Option<string>)
    requires sync.nb.State().Valid() && d.Valid()
    modifies sync.nb
    ensures error.None? <==> ApplyAll(old(sync.nb.State()), DropCommands(lswitches, lports, lrouters, lrports)).Success?
    ensures error.Some? ==> sync.nb.State() == old(sync.nb.State())
    ensures error.None? && sync.mode == Repair ==>
              sync.nb.State() == Synced(ApplyAll(old(sync.nb.State()), DropCommands(lswitches, lports, lrouters, lrports)).value, d)
    ensures error.None? && sync.mode != Repair ==>
              sync.nb.State() == ApplyAll(old(sync.nb.State()), DropCommands(lswitches, lports, lrouters, lrports)).value
    ensures sync.nb.State().Valid()
  {
    error := DeleteResourcesInNb(sync.nb, lswitches, lports, lrouters, lrports);
    if error.None? {
      var switchDiff, routerDiff := sync.Sync(d);
    }
  }

  /** The test's deletions only remove rows, so a store of this system's rows
      stays one, and a repair pass afterwards makes every check pass again. */
  lemma RepairAfterDropMatches(d: Desired, s: NbState, ln2: string, p2: string, lr2: string, lrp: string)
    requires d.Valid() && ManagedTable(Switches, s.switches) && ManagedTable(Routers, s.routers)
    ensures ResourcesMatch(d, Synced(Dropped(s, ln2, p2, lr2, lrp), d))
  {
    var u := Dropped(s, ln2, p2, lr2, lrp);
    assert ManagedTable(Switches, u.switches);
    assert ManagedTable(Routers, u.routers);
    SyncedMatches(u, d);
  }
}
