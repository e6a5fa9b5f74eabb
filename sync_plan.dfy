/** What one synchronization phase finds and does, for switches with their
    ports or for routers with theirs. Owner rows are named "neutron-" + id;
    port rows carry the bare port id (switch ports) or "lrp-" + id (router
    ports). The desired state of a phase is a set of owner ids and a map from
    port id to the id of the owner the port belongs to. */
module SyncPlan {
  import opened Common
  import opened Identity
  import opened NbDb

  /** The backend name of a port row of the given kind. */
  function PortName(k: Kind, id: string): string
  {
    if k == Switches then id else OvnLrouterPortName(id)
  }

  /** Port names of one kind name at most one id. */
  lemma PortNameInjective(k: Kind)
    ensures forall a, b :: PortName(k, a) == PortName(k, b) ==> a == b
  {
    forall a, b | PortName(k, a) == PortName(k, b)
      ensures a == b
    {
      if k == Routers {
        DecodeEncode(LRP_PREFIX, a, b);
      }
    }
  }

  /** The owner rows the desired owners need. */
  function OwnerNames(ids: set<string>): set<string>
  {
    set i | i in ids :: OvnName(i)
  }

  /** Every desired port's owner is a desired owner. */
  predicate WantValid(ids: set<string>, want: map<string, string>)
  {
    forall p :: p in want ==> want[p] in ids
  }

  /** The port rows the desired ports need: row name to owner row name. */
  function WantedRows(k: Kind, want: map<string, string>): map<string, string>
  {
    PortNameInjective(k);
    map id | id in want :: PortName(k, id) := OvnName(want[id])
  }

  /** Every wanted row is the row of one desired port, held by that port's
      owner, and every desired port has its row. */
  lemma WantedRowsExact(k: Kind, want: map<string, string>)
    ensures forall id :: id in want ==>
              PortName(k, id) in WantedRows(k, want) && WantedRows(k, want)[PortName(k, id)] == OvnName(want[id])
    ensures forall p :: p in WantedRows(k, want) ==> exists id :: id in want && p == PortName(k, id)
  {
    PortNameInjective(k);
  }

  /** Wanted rows are held by the rows of desired owners. */
  lemma WantedRowsOwners(k: Kind, ids: set<string>, want: map<string, string>)
    requires WantValid(ids, want)
    ensures forall p :: p in WantedRows(k, want) ==> WantedRows(k, want)[p] in OwnerNames(ids)
  {
    WantedRowsExact(k, want);
    forall p | p in WantedRows(k, want)
      ensures WantedRows(k, want)[p] in OwnerNames(ids)
    {
      var id :| id in want && p == PortName(k, id);
      assert want[id] in ids;
    }
  }

  /** Owner rows this system manages (named with its prefix) whose id is not
      desired. Rows without the prefix belong to someone else and are kept. */
  function StaleOwners(t: Table, ids: set<string>): set<string>
  {
    set o | o in t.owners && Managed(NEUTRON_PREFIX, o) && StripPrefix(NEUTRON_PREFIX, o) !in ids
  }

  /** The rows of desired owners are never stale. */
  lemma OwnerNamesNotStale(t: Table, ids: set<string>)
    ensures OwnerNames(ids) !! StaleOwners(t, ids)
  {
    forall i | i in ids
      ensures OvnName(i) !in StaleOwners(t, ids)
    {
      StripPrefixRoundTrip(NEUTRON_PREFIX, i);
    }
  }

  /** Every row of this system's prefix. */
  predicate AllManaged(names: set<string>)
  {
    forall n :: n in names ==> Managed(NEUTRON_PREFIX, n)
  }

  /** A port row this system manages: held by an owner row of its prefix and,
      for router ports, named with the router-port prefix. */
  predicate ManagedPort(k: Kind, name: string, owner: string)
  {
    Managed(NEUTRON_PREFIX, owner) && (k == Routers ==> Managed(LRP_PREFIX, name))
  }

  /** Every owner row and every port row of the tables is this system's. */
  predicate ManagedTable(k: Kind, t: Table)
  {
    AllManaged(t.owners) && forall p :: p in t.ports ==> ManagedPort(k, p, t.ports[p])
  }

  /** What a phase finds: the stale owner rows; the managed port rows, held by
      owners that stay, that are not wanted where they are (with their owners);
      the missing owner rows; and the wanted port rows that are not where they
      should be (with the owners that should hold them). */
  datatype Diff = Diff(staleOwners: set<string>, stalePorts: map<string, string>,
                       missingOwners: set<string>, missingPorts: map<string, string>)
  {
    predicate IsEmpty()
    {
      staleOwners == {} && stalePorts == map[] && missingOwners == {} && missingPorts == map[]
    }
  }

  const NO_DIFF: Diff := Diff({}, map[], {}, map[])

  /** The comparison of one pair of tables with the desired state. Only rows
      this system manages are ever stale, and a desired owner never is; exactly
      the desired rows that are absent or misplaced are missing; a port row
      already held by its wanted owner is neither. */
  function ComputeDiff(k: Kind, t: Table, ids: set<string>, want: map<string, string>): (d: Diff)
    ensures d.staleOwners <= t.owners && AllManaged(d.staleOwners) && d.staleOwners !! OwnerNames(ids)
    ensures forall o :: o in t.owners && Managed(NEUTRON_PREFIX, o) && o !in OwnerNames(ids) ==> o in d.staleOwners
    ensures forall p :: p in d.stalePorts ==>
              p in t.ports && d.stalePorts[p] == t.ports[p] && ManagedPort(k, p, t.ports[p])
    ensures forall p :: p in t.ports && t.ports[p] !in d.staleOwners && ManagedPort(k, p, t.ports[p])
                        && !(p in WantedRows(k, want) && WantedRows(k, want)[p] == t.ports[p]) ==>
              p in d.stalePorts
    ensures d.missingOwners == OwnerNames(ids) - t.owners
    ensures forall p :: p in d.missingPorts <==>
              p in WantedRows(k, want) && !(p in t.ports && t.ports[p] == WantedRows(k, want)[p])
    ensures forall p :: p in d.missingPorts ==> d.missingPorts[p] == WantedRows(k, want)[p]
    ensures forall p :: p in t.ports && p in WantedRows(k, want) && t.ports[p] == WantedRows(k, want)[p] ==>
              p !in d.stalePorts && p !in d.missingPorts
  {
    OwnerNamesNotStale(t, ids);
    var stale := StaleOwners(t, ids);
    var rows := WantedRows(k, want);
    Diff(stale,
         map p | p in t.ports && t.ports[p] !in stale && ManagedPort(k, p, t.ports[p])
                 && !(p in rows && rows[p] == t.ports[p]) :: t.ports[p],
         OwnerNames(ids) - t.owners,
         map p | p in rows && !(p in t.ports && t.ports[p] == rows[p]) :: rows[p])
  }

  /** The tables after a repair: stale owners are deleted with their ports,
      then stale ports, then missing owners are created, then missing ports. */
  function Reconciled(t: Table, d: Diff): Table
  {
    var t1 := DropOwners(t, d.staleOwners);
    var t2 := Table(t1.owners, t1.ports - d.stalePorts.Keys);
    var t3 := Table(t2.owners + d.missingOwners, t2.ports);
    Table(t3.owners, t3.ports + d.missingPorts)
  }

  /** The owners after a repair are the desired owners' rows and the rows this
      system does not manage. */
  lemma ReconciledOwners(k: Kind, t: Table, ids: set<string>, want: map<string, string>)
    ensures Reconciled(t, ComputeDiff(k, t, ids, want)).owners
         == OwnerNames(ids) + set o | o in t.owners && !Managed(NEUTRON_PREFIX, o)
  {
    var u := Reconciled(t, ComputeDiff(k, t, ids, want));
    var unmanaged := set o | o in t.owners && !Managed(NEUTRON_PREFIX, o);
    OwnerNamesNotStale(t, ids);
    forall o | o in u.owners
      ensures o in OwnerNames(ids) + unmanaged
    {
      if o in t.owners && Managed(NEUTRON_PREFIX, o) {
        var id := StripPrefix(NEUTRON_PREFIX, o);
        assert o == OvnName(id);
      }
    }
  }

  /** The port rows a repair leaves in place without wanting them: the rows
      this system does not manage, on owners that stay. */
  function KeptPorts(k: Kind, t: Table, ids: set<string>): map<string, string>
  {
    map p | p in t.ports && !ManagedPort(k, p, t.ports[p]) && t.ports[p] !in StaleOwners(t, ids) :: t.ports[p]
  }

  /** Every wanted row is in place after a repair. */
  lemma ReconciledHasWantedPorts(k: Kind, t: Table, ids: set<string>, want: map<string, string>)
    requires WantValid(ids, want)
    ensures forall p :: p in WantedRows(k, want) ==>
              p in Reconciled(t, ComputeDiff(k, t, ids, want)).ports
              && Reconciled(t, ComputeDiff(k, t, ids, want)).ports[p] == WantedRows(k, want)[p]
  {
    var d := ComputeDiff(k, t, ids, want);
    var rows := WantedRows(k, want);
    var u := Reconciled(t, d);
    WantedRowsOwners(k, ids, want);
    forall p | p in rows
      ensures p in u.ports && u.ports[p] == rows[p]
    {
      if p in t.ports && t.ports[p] == rows[p] {
        assert t.ports[p] !in d.staleOwners;
        assert p !in d.stalePorts;
        assert p !in d.missingPorts;
      } else {
        assert p in d.missingPorts;
      }
    }
  }

  /** Besides the wanted rows, a repair leaves exactly the rows it does not
      manage on owners that stay, unchanged. */
  lemma ReconciledOtherPorts(k: Kind, t: Table, ids: set<string>, want: map<string, string>)
    ensures forall p :: p !in WantedRows(k, want) ==>
              (p in Reconciled(t, ComputeDiff(k, t, ids, want)).ports <==> p in KeptPorts(k, t, ids))
    ensures forall p :: p !in WantedRows(k, want) && p in KeptPorts(k, t, ids) ==>
              Reconciled(t, ComputeDiff(k, t, ids, want)).ports[p] == t.ports[p]
  {
    var d := ComputeDiff(k, t, ids, want);
    var u := Reconciled(t, d);
    var kept := KeptPorts(k, t, ids);
    forall p | p !in WantedRows(k, want)
      ensures p in u.ports <==> p in kept
      ensures p in kept ==> u.ports[p] == t.ports[p]
    {
      assert p !in d.missingPorts;
      if p in u.ports {
        assert p in t.ports && t.ports[p] !in d.staleOwners && p !in d.stalePorts;
      }
      if p in kept {
        assert p !in d.stalePorts;
      }
    }
  }

  /** The port rows after a repair are the wanted rows and the rows the repair
      does not manage on owners that stay. */
  lemma ReconciledPorts(k: Kind, t: Table, ids: set<string>, want: map<string, string>)
    requires WantValid(ids, want)
    ensures Reconciled(t, ComputeDiff(k, t, ids, want)).ports == KeptPorts(k, t, ids) + WantedRows(k, want)
  {
    ReconciledHasWantedPorts(k, t, ids, want);
    ReconciledOtherPorts(k, t, ids, want);
    MergedRows(Reconciled(t, ComputeDiff(k, t, ids, want)).ports, KeptPorts(k, t, ids), WantedRows(k, want));
  }

  /** A map that holds the wanted rows, and outside them exactly the kept rows,
      is the kept rows overridden by the wanted ones. */
  lemma MergedRows(m: map<string, string>, kept: map<string, string>, rows: map<string, string>)
    requires forall p :: p in rows ==> p in m && m[p] == rows[p]
    requires forall p :: p !in rows ==> (p in m <==> p in kept)
    requires forall p :: p !in rows && p in kept ==> m[p] == kept[p]
    ensures m == kept + rows
  {
    forall p
      ensures p in m <==> p in kept + rows
      ensures p in m ==> m[p] == (kept + rows)[p]
    {
    }
  }

  /** Tables of this system's rows only leave nothing unmanaged to keep. */
  lemma ManagedKeepsNothing(k: Kind, t: Table, ids: set<string>)
    requires ManagedTable(k, t)
    ensures KeptPorts(k, t, ids) == map[]
  {
  }

  /** A repair converges: when every row is this system's, the owners are
      exactly the desired owners' rows and the ports exactly the wanted rows;
      the tables stay valid. */
  lemma RepairConverges(k: Kind, t: Table, ids: set<string>, want: map<string, string>)
    requires WantValid(ids, want) && ManagedTable(k, t)
    ensures Reconciled(t, ComputeDiff(k, t, ids, want)).owners == OwnerNames(ids)
    ensures Reconciled(t, ComputeDiff(k, t, ids, want)).ports == WantedRows(k, want)
    ensures Reconciled(t, ComputeDiff(k, t, ids, want)).Valid()
  {
    var u := Reconciled(t, ComputeDiff(k, t, ids, want));
    ReconciledOwners(k, t, ids, want);
    assert (set o | o in t.owners && !Managed(NEUTRON_PREFIX, o)) == {};
    ReconciledPorts(k, t, ids, want);
    ManagedKeepsNothing(k, t, ids);
    assert u.ports == WantedRows(k, want) by {
      assert map[] + WantedRows(k, want) == WantedRows(k, want);
    }
    WantedRowsOwners(k, ids, want);
  }

  /** A repair keeps valid tables valid: every port row it leaves is held by
      an owner row it leaves. */
  lemma ReconciledValid(k: Kind, t: Table, ids: set<string>, want: map<string, string>)
    requires WantValid(ids, want) && t.Valid()
    ensures Reconciled(t, ComputeDiff(k, t, ids, want)).Valid()
  {
    var u := Reconciled(t, ComputeDiff(k, t, ids, want));
    ReconciledPorts(k, t, ids, want);
    ReconciledOwners(k, t, ids, want);
    WantedRowsOwners(k, ids, want);
    forall p | p in u.ports
      ensures u.ports[p] in u.owners
    {
      if p !in WantedRows(k, want) {
        assert p in KeptPorts(k, t, ids);
        assert t.ports[p] in t.owners;
      }
    }
  }

  /** Tables that already hold exactly the desired rows show no difference. */
  lemma ConvergedHasNoDiff(k: Kind, t: Table, ids: set<string>, want: map<string, string>)
    requires t.owners == OwnerNames(ids) && t.ports == WantedRows(k, want)
    ensures ComputeDiff(k, t, ids, want).IsEmpty()
  {
    var d := ComputeDiff(k, t, ids, want);
    assert d.staleOwners == {};
    assert d.stalePorts.Keys == {};
    assert d.missingPorts.Keys == {};
  }

  /** Repairing with nothing to do changes nothing. */
  lemma ReconciledNoDiff(t: Table)
    ensures Reconciled(t, NO_DIFF) == t
  {
    assert DropOwners(t, {}).ports == t.ports;
    assert t.ports - {} == t.ports;
    assert t.ports + map[] == t.ports;
  }

  /** Tables that hold every desired owner and wanted row, and no other row
      this system manages, show no difference. */
  lemma NoDiffWhenSettled(k: Kind, u: Table, ids: set<string>, want: map<string, string>)
    requires OwnerNames(ids) <= u.owners
    requires forall o :: o in u.owners && Managed(NEUTRON_PREFIX, o) ==> o in OwnerNames(ids)
    requires forall p :: p in WantedRows(k, want) ==> p in u.ports && u.ports[p] == WantedRows(k, want)[p]
    requires forall p :: p in u.ports && p !in WantedRows(k, want) ==> !ManagedPort(k, p, u.ports[p])
    ensures ComputeDiff(k, u, ids, want).IsEmpty()
  {
    var d := ComputeDiff(k, u, ids, want);
    assert d.staleOwners == {} && d.missingOwners == {};
    assert d.stalePorts.Keys == {} && d.missingPorts.Keys == {};
  }

  /** Repaired tables show no difference, whatever rows they kept that this
      system does not manage. */
  lemma RepairedHasNoDiff(k: Kind, t: Table, ids: set<string>, want: map<string, string>)
    requires WantValid(ids, want)
    ensures ComputeDiff(k, Reconciled(t, ComputeDiff(k, t, ids, want)), ids, want).IsEmpty()
  {
    var u := Reconciled(t, ComputeDiff(k, t, ids, want));
    var rows := WantedRows(k, want);
    ReconciledOwners(k, t, ids, want);
    ReconciledHasWantedPorts(k, t, ids, want);
    ReconciledOtherPorts(k, t, ids, want);
    forall p | p in u.ports && p !in rows
      ensures !ManagedPort(k, p, u.ports[p])
    {
      assert p in KeptPorts(k, t, ids);
    }
    NoDiffWhenSettled(k, u, ids, want);
  }

  /** Repair is idempotent: a second repair with the same desired state finds
      nothing to do and changes nothing. */
  lemma RepairIdempotent(k: Kind, t: Table, ids: set<string>, want: map<string, string>)
    requires WantValid(ids, want)
    ensures ComputeDiff(k, Reconciled(t, ComputeDiff(k, t, ids, want)), ids, want).IsEmpty()
    ensures Reconciled(Reconciled(t, ComputeDiff(k, t, ids, want)),
                       ComputeDiff(k, Reconciled(t, ComputeDiff(k, t, ids, want)), ids, want))
         == Reconciled(t, ComputeDiff(k, t, ids, want))
  {
    var u := Reconciled(t, ComputeDiff(k, t, ids, want));
    RepairedHasNoDiff(k, t, ids, want);
    assert ComputeDiff(k, u, ids, want) == NO_DIFF;
    ReconciledNoDiff(u);
  }

  // ---------------------------------------------------------------------------
  // The commands of a repair

  function DelOwnerCmd(k: Kind, name: string): Command
  {
    if k == Switches then DelLSwitch(name, true) else DelLRouter(name, true)
  }

  function DelPortCmd(k: Kind, port: string, owner: string): Command
  {
    if k == Switches then DelLSwitchPort(port, owner, true) else DelLRouterPort(port, owner, true)
  }

  function AddOwnerCmd(k: Kind, name: string): Command
  {
    if k == Switches then AddLSwitch(name) else AddLRouter(name)
  }

  function AddPortCmd(k: Kind, port: string, owner: string): Command
  {
    if k == Switches then AddLSwitchPort(port, owner) else AddLRouterPort(port, owner)
  }

  /** Deletions of the named owners, in order. */
  function DelOwnerCmds(k: Kind, names: seq<string>): seq<Command>
  {
    if names == [] then [] else DelOwnerCmds(k, names[..|names| - 1]) + [DelOwnerCmd(k, names[|names| - 1])]
  }

  /** Deletions of the named ports from the owners the map gives. */
  function DelPortCmds(k: Kind, names: seq<string>, owners: map<string, string>): seq<Command>
    requires forall n :: n in names ==> n in owners
  {
    if names == [] then []
    else DelPortCmds(k, names[..|names| - 1], owners) + [DelPortCmd(k, names[|names| - 1], owners[names[|names| - 1]])]
  }

  /** Creations of the named owners, in order. */
  function AddOwnerCmds(k: Kind, names: seq<string>): seq<Command>
  {
    if names == [] then [] else AddOwnerCmds(k, names[..|names| - 1]) + [AddOwnerCmd(k, names[|names| - 1])]
  }

  /** Creations of the named ports in the owners the map gives. */
  function AddPortCmds(k: Kind, names: seq<string>, owners: map<string, string>): seq<Command>
    requires forall n :: n in names ==> n in owners
  {
    if names == [] then []
    else AddPortCmds(k, names[..|names| - 1], owners) + [AddPortCmd(k, names[|names| - 1], owners[names[|names| - 1]])]
  }

  /** Replacing the tables of a kind twice keeps the second replacement;
      putting back what was there changes nothing. */
  lemma WithTwice(s: NbState, k: Kind, a: Table, b: Table)
    ensures s.With(k, a).With(k, b) == s.With(k, b)
    ensures s.With(k, s.Get(k)) == s
  {
  }

  /** One more command at the end of a transaction runs on what the others
      left. */
  lemma ApplyAllSnoc(s: NbState, cs: seq<Command>, c: Command)
    ensures ApplyAll(s, cs + [c])
         == (match ApplyAll(s, cs) case Failure(e) => Failure(e) case Success(u) => Apply(u, c))
  {
    assert (cs + [c])[..|cs + [c]| - 1] == cs;
  }

  lemma ApplyDelOwner(s: NbState, k: Kind, name: string)
    requires s.Get(k).Valid()
    ensures Apply(s, DelOwnerCmd(k, name)) == Success(s.With(k, DropOwners(s.Get(k), {name})))
  {
    if name !in s.Get(k).owners {
      DropAbsentOwner(s.Get(k), name);
      WithTwice(s, k, s.Get(k), s.Get(k));
    }
  }

  lemma ApplyDelPort(s: NbState, k: Kind, port: string, owner: string)
    requires owner in s.Get(k).owners
    ensures Apply(s, DelPortCmd(k, port, owner)) == Success(s.With(k, Table(s.Get(k).owners, s.Get(k).ports - {port})))
  {
    var t := s.Get(k);
    if port !in t.ports {
      assert t.ports - {port} == t.ports;
      WithTwice(s, k, t, t);
    }
  }

  lemma ApplyAddOwner(s: NbState, k: Kind, name: string)
    ensures Apply(s, AddOwnerCmd(k, name)) == Success(s.With(k, Table(s.Get(k).owners + {name}, s.Get(k).ports)))
  {
  }

  lemma ApplyAddPort(s: NbState, k: Kind, port: string, owner: string)
    requires owner in s.Get(k).owners
    ensures Apply(s, AddPortCmd(k, port, owner)) == Success(s.With(k, Table(s.Get(k).owners, s.Get(k).ports[port := owner])))
  {
  }

  /** Dropping owners in two steps drops them all at once. */
  lemma DropOwnersTwice(t: Table, a: set<string>, b: set<string>)
    ensures DropOwners(DropOwners(t, a), b) == DropOwners(t, a + b)
  {
    assert DropOwners(DropOwners(t, a), b).ports == DropOwners(t, a + b).ports;
  }

  /** Dropping an owner a valid table does not hold changes nothing. */
  lemma DropAbsentOwner(t: Table, name: string)
    requires t.Valid() && name !in t.owners
    ensures DropOwners(t, {name}) == t
  {
    assert DropOwners(t, {name}).ports == t.ports;
  }

  /** Deleting owners one by one deletes them and every port they held. */
  lemma {:induction false} DelOwnersEffect(s: NbState, k: Kind, names: seq<string>)
    requires s.Get(k).Valid()
    ensures ApplyAll(s, DelOwnerCmds(k, names)) == Success(s.With(k, DropOwners(s.Get(k), Elems(names))))
  {
    var t := s.Get(k);
    if names == [] {
      assert Elems(names) == {};
      assert DropOwners(t, {}) == t by { assert DropOwners(t, {}).ports == t.ports; }
      WithTwice(s, k, t, t);
    } else {
      var init := names[..|names| - 1];
      var last := names[|names| - 1];
      DelOwnersEffect(s, k, init);
      var t1 := DropOwners(t, Elems(init));
      var mid := s.With(k, t1);
      ApplyAllSnoc(s, DelOwnerCmds(k, init), DelOwnerCmd(k, last));
      ApplyDelOwner(mid, k, last);
      assert Elems(names) == Elems(init) + {last};
      DropOwnersTwice(t, Elems(init), {last});
      WithTwice(s, k, t1, DropOwners(t1, {last}));
    }
  }

  /** Deleting ports one by one, from owners the table holds, removes them. */
  lemma {:induction false} DelPortsEffect(s: NbState, k: Kind, names: seq<string>, owners: map<string, string>)
    requires forall n :: n in names ==> n in owners && owners[n] in s.Get(k).owners
    ensures ApplyAll(s, DelPortCmds(k, names, owners))
         == Success(s.With(k, Table(s.Get(k).owners, s.Get(k).ports - Elems(names))))
  {
    var t := s.Get(k);
    if names == [] {
      assert Elems(names) == {};
      assert t.ports - {} == t.ports;
      WithTwice(s, k, t, t);
    } else {
      var init := names[..|names| - 1];
      var last := names[|names| - 1];
      DelPortsEffect(s, k, init, owners);
      var t1 := Table(t.owners, t.ports - Elems(init));
      var mid := s.With(k, t1);
      ApplyAllSnoc(s, DelPortCmds(k, init, owners), DelPortCmd(k, last, owners[last]));
      ApplyDelPort(mid, k, last, owners[last]);
      assert Elems(names) == Elems(init) + {last};
      assert t1.ports - {last} == t.ports - Elems(names);
      WithTwice(s, k, t1, Table(t.owners, t.ports - Elems(names)));
    }
  }

  /** Creating owners one by one adds them. */
  lemma {:induction false} AddOwnersEffect(s: NbState, k: Kind, names: seq<string>)
    ensures ApplyAll(s, AddOwnerCmds(k, names))
         == Success(s.With(k, Table(s.Get(k).owners + Elems(names), s.Get(k).ports)))
  {
    var t := s.Get(k);
    if names == [] {
      assert Elems(names) == {};
      assert Table(t.owners + {}, t.ports) == t;
      WithTwice(s, k, t, t);
    } else {
      var init := names[..|names| - 1];
      var last := names[|names| - 1];
      AddOwnersEffect(s, k, init);
      var t1 := Table(t.owners + Elems(init), t.ports);
      var mid := s.With(k, t1);
      ApplyAllSnoc(s, AddOwnerCmds(k, init), AddOwnerCmd(k, last));
      ApplyAddOwner(mid, k, last);
      assert Elems(names) == Elems(init) + {last};
      assert t1.owners + {last} == t.owners + Elems(names);
      WithTwice(s, k, t1, Table(t.owners + Elems(names), t.ports));
    }
  }

  /** The rows of a map whose names are listed. */
  function Restrict(m: map<string, string>, names: set<string>): map<string, string>
  {
    map n | n in m && n in names :: m[n]
  }

  /** Adding one more listed row to the restricted rows. */
  lemma RestrictSnoc(ports: map<string, string>, owners: map<string, string>, names: set<string>, last: string)
    requires last in owners
    ensures (ports + Restrict(owners, names))[last := owners[last]] == ports + Restrict(owners, names + {last})
  {
  }

  /** Creating ports one by one, in owners the table holds, adds them. */
  lemma {:induction false} AddPortsEffect(s: NbState, k: Kind, names: seq<string>, owners: map<string, string>)
    requires forall n :: n in names ==> n in owners && owners[n] in s.Get(k).owners
    ensures ApplyAll(s, AddPortCmds(k, names, owners))
         == Success(s.With(k, Table(s.Get(k).owners, s.Get(k).ports + Restrict(owners, Elems(names)))))
  {
    var t := s.Get(k);
    if names == [] {
      assert Elems(names) == {};
      assert t.ports + Restrict(owners, {}) == t.ports;
      WithTwice(s, k, t, t);
    } else {
      var init := names[..|names| - 1];
      var last := names[|names| - 1];
      AddPortsEffect(s, k, init, owners);
      var ports := t.ports + Restrict(owners, Elems(init));
      var t1 := Table(t.owners, ports);
      var mid := s.With(k, t1);
      ApplyAllSnoc(s, AddPortCmds(k, init, owners), AddPortCmd(k, last, owners[last]));
      ApplyAddPort(mid, k, last, owners[last]);
      assert Elems(names) == Elems(init) + {last};
      RestrictSnoc(t.ports, owners, Elems(init), last);
      WithTwice(s, k, t1, Table(t.owners, t.ports + Restrict(owners, Elems(names))));
    }
  }

  /** The commands of a repair: delete the stale owners, then the stale ports,
      then create the missing owners, then the missing ports, each group in the
      order of its list. */
  function RepairCommands(k: Kind, d: Diff, dels: seq<string>, delPorts: seq<string>,
                          adds: seq<string>, addPorts: seq<string>): seq<Command>
    requires forall n :: n in delPorts ==> n in d.stalePorts
    requires forall n :: n in addPorts ==> n in d.missingPorts
  {
    DelOwnerCmds(k, dels) + DelPortCmds(k, delPorts, d.stalePorts)
    + AddOwnerCmds(k, adds) + AddPortCmds(k, addPorts, d.missingPorts)
  }

  /** The owners that the port phases of a repair find in place. */
  lemma RepairOwnersInPlace(k: Kind, t: Table, ids: set<string>, want: map<string, string>)
    requires t.Valid() && WantValid(ids, want)
    ensures var d := ComputeDiff(k, t, ids, want);
            forall n :: n in d.stalePorts ==> d.stalePorts[n] in t.owners - d.staleOwners
    ensures var d := ComputeDiff(k, t, ids, want);
            forall n :: n in d.missingPorts ==> d.missingPorts[n] in (t.owners - d.staleOwners) + d.missingOwners
  {
    WantedRowsOwners(k, ids, want);
    OwnerNamesNotStale(t, ids);
  }

  /** Four command lists that each succeed from where the previous one left
      the store succeed together. */
  lemma ApplyAllChain(s: NbState, c1: seq<Command>, c2: seq<Command>, c3: seq<Command>, c4: seq<Command>,
                      s1: NbState, s2: NbState, s3: NbState, s4: NbState)
    requires ApplyAll(s, c1) == Success(s1) && ApplyAll(s1, c2) == Success(s2)
    requires ApplyAll(s2, c3) == Success(s3) && ApplyAll(s3, c4) == Success(s4)
    ensures ApplyAll(s, c1 + c2 + c3 + c4) == Success(s4)
  {
    ApplyAllConcat(s, c1, c2);
    ApplyAllConcat(s, c1 + c2, c3);
    ApplyAllConcat(s, c1 + c2 + c3, c4);
  }

  /** The repair transaction of any diff whose ports find their owners in
      place leaves exactly the reconciled tables. */
  lemma RepairCommandsApply(s: NbState, k: Kind, d: Diff,
                            dels: seq<string>, delPorts: seq<string>, adds: seq<string>, addPorts: seq<string>)
    requires s.Get(k).Valid()
    requires Elems(dels) == d.staleOwners && Elems(delPorts) == d.stalePorts.Keys
    requires Elems(adds) == d.missingOwners && Elems(addPorts) == d.missingPorts.Keys
    requires forall n :: n in d.stalePorts ==> d.stalePorts[n] in s.Get(k).owners - d.staleOwners
    requires forall n :: n in d.missingPorts ==> d.missingPorts[n] in (s.Get(k).owners - d.staleOwners) + d.missingOwners
    ensures ApplyAll(s, RepairCommands(k, d, dels, delPorts, adds, addPorts)) == Success(s.With(k, Reconciled(s.Get(k), d)))
  {
    var t := s.Get(k);
    var t1 := DropOwners(t, d.staleOwners);
    var t2 := Table(t1.owners, t1.ports - d.stalePorts.Keys);
    var t3 := Table(t2.owners + d.missingOwners, t2.ports);
    var t4 := Table(t3.owners, t3.ports + d.missingPorts);
    var s1 := s.With(k, t1);
    DelOwnersEffect(s, k, dels);
    var s2 := s.With(k, t2);
    DelPortsEffect(s1, k, delPorts, d.stalePorts);
    WithTwice(s, k, t1, t2);
    var s3 := s.With(k, t3);
    AddOwnersEffect(s2, k, adds);
    WithTwice(s, k, t2, t3);
    var s4 := s.With(k, t4);
    AddPortsEffect(s3, k, addPorts, d.missingPorts);
    assert Restrict(d.missingPorts, Elems(addPorts)) == d.missingPorts;
    WithTwice(s, k, t3, t4);
    ApplyAllChain(s, DelOwnerCmds(k, dels), DelPortCmds(k, delPorts, d.stalePorts),
                  AddOwnerCmds(k, adds), AddPortCmds(k, addPorts, d.missingPorts), s1, s2, s3, s4);
  }

  /** A repair transaction, whatever order its lists take, succeeds on valid
      tables and leaves exactly the reconciled tables. */
  lemma RepairCommandsEffect(s: NbState, k: Kind, ids: set<string>, want: map<string, string>,
                             dels: seq<string>, delPorts: seq<string>, adds: seq<string>, addPorts: seq<string>)
    requires s.Get(k).Valid() && WantValid(ids, want)
    requires Elems(dels) == ComputeDiff(k, s.Get(k), ids, want).staleOwners
    requires Elems(delPorts) == ComputeDiff(k, s.Get(k), ids, want).stalePorts.Keys
    requires Elems(adds) == ComputeDiff(k, s.Get(k), ids, want).missingOwners
    requires Elems(addPorts) == ComputeDiff(k, s.Get(k), ids, want).missingPorts.Keys
    ensures ApplyAll(s, RepairCommands(k, ComputeDiff(k, s.Get(k), ids, want), dels, delPorts, adds, addPorts))
         == Success(s.With(k, Reconciled(s.Get(k), ComputeDiff(k, s.Get(k), ids, want))))
  {
    RepairOwnersInPlace(k, s.Get(k), ids, want);
    RepairCommandsApply(s, k, ComputeDiff(k, s.Get(k), ids, want), dels, delPorts, adds, addPorts);
  }
}
