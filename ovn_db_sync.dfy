/** The Northbound synchronizer: it compares the desired topology (networks
    with their ports, routers with their router ports) with the backend store
    and, in repair mode, applies one corrective transaction per phase. */
module OvnDbSync {
  import opened Common
  import opened Identity
  import opened NbDb
  import opened SyncPlan

  /** The operating modes: repair reads, compares and corrects; log reads and
      compares only; off does nothing. */
  datatype Mode = Repair | Log | Off

  /** The mode's name as the configuration gives it; parsing the name gives
      the mode back. */
  function ModeName(m: Mode): (name: string)
    ensures ParseMode(name) == Some(m)
  {
    match m
    case Repair => "repair"
    case Log => "log"
    case Off => "off"
  }

  /** The mode a configuration string selects; any other string selects none. */
  function ParseMode(name: string): (m: Option<Mode>)
    ensures m.Some? <==> name == "repair" || name == "log" || name == "off"
  {
    if name == "repair" then Some(Repair)
    else if name == "log" then Some(Log)
    else if name == "off" then Some(Off)
    else None
  }

  /** The desired topology: network ids, port ids with their network, router
      ids, and router interface port ids with their router. */
  datatype Desired = Desired(networks: set<string>, ports: map<string, string>,
                             routers: set<string>, routerPorts: map<string, string>)
  {
    /** Every port belongs to a desired network and every router port to a
        desired router. */
    predicate Valid()
    {
      WantValid(networks, ports) && WantValid(routers, routerPorts)
    }
  }

  /** The store after a repair of switches and their ports, then routers and
      their ports. */
  function Synced(s: NbState, d: Desired): (r: NbState)
    ensures r.switches == Reconciled(s.switches, ComputeDiff(Switches, s.switches, d.networks, d.ports))
    ensures r.routers == Reconciled(s.routers, ComputeDiff(Routers, s.routers, d.routers, d.routerPorts))
  {
    var s1 := s.With(Switches, Reconciled(s.switches, ComputeDiff(Switches, s.switches, d.networks, d.ports)));
    s1.With(Routers, Reconciled(s1.routers, ComputeDiff(Routers, s1.routers, d.routers, d.routerPorts)))
  }

  /** The names of a set of rows, in the order the row cache yields them. */
  method ListOf(names: set<string>) returns (list: seq<string>)
    ensures Elems(list) == names
  {
    list := [];
    var todo := names;
    while todo != {}
      invariant Elems(list) + todo == names
      decreases |todo|
    {
      var n :| n in todo;
      list := list + [n];
      todo := todo - {n};
    }
  }

  class OvnNbSynchronizer {
    const nb: NbDb
    const mode: Mode

    constructor(nb: NbDb, mode: Mode)
      ensures this.nb == nb && this.mode == mode
    {
      this.nb := nb;
      this.mode := mode;
    }

    /** One phase: off mode neither reads nor writes; log mode reports the
        difference and writes nothing; repair mode reports it and commits one
        transaction that deletes the stale rows and creates the missing ones. */
    method SyncPhase(k: Kind, ids: set<string>, want: map<string, string>) returns (diff: Diff)
      requires nb.State().Valid() && WantValid(ids, want)
      modifies nb
      ensures diff == (if mode == Off then NO_DIFF else ComputeDiff(k, old(nb.State()).Get(k), ids, want))
      ensures mode == Repair ==> nb.State() == old(nb.State()).With(k, Reconciled(old(nb.State()).Get(k), diff))
      ensures mode != Repair ==> nb.State() == old(nb.State())
      ensures nb.State().Valid()
    {
      if mode == Off {
        return NO_DIFF;
      }
      var s := nb.State();
      diff := ComputeDiff(k, s.Get(k), ids, want);
      if mode == Log {
        return;
      }
      var dels := ListOf(diff.staleOwners);
      var delPorts := ListOf(diff.stalePorts.Keys);
      var adds := ListOf(diff.missingOwners);
      var addPorts := ListOf(diff.missingPorts.Keys);
      var cmds := RepairCommands(k, diff, dels, delPorts, adds, addPorts);
      RepairCommandsEffect(s, k, ids, want, dels, delPorts, adds, addPorts);
      ReconciledValid(k, s.Get(k), ids, want);
      var error := nb.Transaction(cmds);
    }

    /** The switch phase: logical switches against networks, logical switch
        ports against ports. */
    method SyncNetworksAndPorts(d: Desired) returns (diff: Diff)
      requires nb.State().Valid() && d.Valid()
      modifies nb
      ensures diff == (if mode == Off then NO_DIFF else ComputeDiff(Switches, old(nb.State()).switches, d.networks, d.ports))
      ensures mode == Repair ==> nb.State() == old(nb.State()).(switches := Reconciled(old(nb.State()).switches, diff))
      ensures mode != Repair ==> nb.State() == old(nb.State())
      ensures nb.State().Valid()
    {
      diff := SyncPhase(Switches, d.networks, d.ports);
    }

    /** The router phase: logical routers against routers, logical router
        ports against router interfaces. */
    method SyncRoutersAndRports(d: Desired) returns (diff: Diff)
      requires nb.State().Valid() && d.Valid()
      modifies nb
      ensures diff == (if mode == Off then NO_DIFF else ComputeDiff(Routers, old(nb.State()).routers, d.routers, d.routerPorts))
      ensures mode == Repair ==> nb.State() == old(nb.State()).(routers := Reconciled(old(nb.State()).routers, diff))
      ensures mode != Repair ==> nb.State() == old(nb.State())
      ensures nb.State().Valid()
    {
      diff := SyncPhase(Routers, d.routers, d.routerPorts);
    }

    /** A full pass: the switch phase, then the router phase. Each phase's diff
        is taken against the store as it was, since the switch phase leaves the
        router tables alone (none when off). Repair leaves the synced store;
        log and off leave the store as it was. */
    method Sync(d: Desired) returns (switchDiff: Diff, routerDiff: Diff)
      requires nb.State().Valid() && d.Valid()
      modifies nb
      ensures switchDiff == (if mode == Off then NO_DIFF
                             else ComputeDiff(Switches, old(nb.State()).switches, d.networks, d.ports))
      ensures routerDiff == (if mode == Off then NO_DIFF
                             else ComputeDiff(Routers, old(nb.State()).routers, d.routers, d.routerPorts))
      ensures mode == Repair ==> nb.State() == Synced(old(nb.State()), d)
      ensures mode != Repair ==> nb.State() == old(nb.State())
      ensures nb.State().Valid()
    {
      switchDiff := SyncNetworksAndPorts(d);
      routerDiff := SyncRoutersAndRports(d);
    }
  }
}
