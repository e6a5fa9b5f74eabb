/** The Northbound backend store, reduced to what reconciliation reads and
    writes: the logical switches with their logical switch ports, and the
    logical routers with their logical router ports, all identified by name,
    changed only by commands that a transaction applies all together or not at
    all. */
module NbDb {
  import opened Common

  /** One pair of tables: the owner rows (logical switches or logical routers)
      by name, and the port rows by name, each with the name of the owner whose
      port list holds it. */
  datatype Table = Table(owners: set<string>, ports: map<string, string>)
  {
    /** Every port row is held by an existing owner row: port rows are not root
        rows, so one that no owner references does not survive. */
    predicate Valid()
    {
      forall p :: p in ports ==> ports[p] in owners
    }
  }

  /** Which pair of tables: switches with their ports, or routers with theirs. */
  datatype Kind = Switches | Routers
  {
    function Other(): Kind
    {
      if this == Switches then Routers else Switches
    }
  }

  /** The whole store. */
  datatype NbState = NbState(switches: Table, routers: Table)
  {
    function Get(k: Kind): Table
    {
      if k == Switches then switches else routers
    }

    /** The store with the tables of one kind replaced. */
    function With(k: Kind, t: Table): (s: NbState)
      ensures s.Get(k) == t
      ensures k == Switches ==> s.routers == routers
      ensures k == Routers ==> s.switches == switches
    {
      if k == Switches then this.(switches := t) else this.(routers := t)
    }

    predicate Valid()
    {
      switches.Valid() && routers.Valid()
    }
  }

  /** The empty store, as a restarted database server starts. */
  const EMPTY: NbState := NbState(Table({}, map[]), Table({}, map[]))

  /** The commands of the backend API that the synchronizer and its tests issue.
      A deletion with ifExists set does nothing when a row it names is missing;
      without it, a missing row fails the command. */
  datatype Command =
    | AddLSwitch(name: string)
    | DelLSwitch(name: string, ifExists: bool)
    | AddLSwitchPort(lport: string, lswitch: string)
    | DelLSwitchPort(lport: string, lswitch: string, ifExists: bool)
    | AddLRouter(name: string)
    | DelLRouter(name: string, ifExists: bool)
    | AddLRouterPort(name: string, lrouter: string)
    | DelLRouterPort(name: string, lrouter: string, ifExists: bool)

  // ---------------------------------------------------------------------------
  // Effects on one pair of tables

  /** The tables without some owner rows and without every port row those
      owners held. */
  function DropOwners(t: Table, names: set<string>): (u: Table)
    ensures u.owners == t.owners - names
    ensures forall p :: p in u.ports <==> p in t.ports && t.ports[p] !in names
    ensures forall p :: p in u.ports ==> u.ports[p] == t.ports[p]
  {
    Table(t.owners - names, map p | p in t.ports && t.ports[p] !in names :: t.ports[p])
  }

  /** Creating an owner row. A name already present stays one row. */
  function AddOwner(t: Table, name: string): (u: Table)
    ensures u.owners == t.owners + {name} && u.ports == t.ports
  {
    t.(owners := t.owners + {name})
  }

  /** Deleting an owner row by name; its port rows go with it. */
  function DelOwner(t: Table, name: string, ifExists: bool): (r: Result<Table, string>)
    ensures r.Failure? <==> name !in t.owners && !ifExists
    ensures r.Failure? ==> r.error == name
    ensures r.Success? && name in t.owners ==> r.value == DropOwners(t, {name})
    ensures r.Success? && name !in t.owners ==> r.value == t
  {
    if name !in t.owners then (if ifExists then Success(t) else Failure(name))
    else Success(DropOwners(t, {name}))
  }

  /** Creating a port row in an owner's port list; the owner must exist. */
  function AddPort(t: Table, port: string, owner: string): (r: Result<Table, string>)
    ensures r.Failure? <==> owner !in t.owners
    ensures r.Failure? ==> r.error == owner
    ensures r.Success? ==> r.value == Table(t.owners, t.ports[port := owner])
  {
    if owner !in t.owners then Failure(owner) else Success(t.(ports := t.ports[port := owner]))
  }

  /** Deleting a port row. Both the port and the owner named in the command must
      be found; the port row is then deleted. */
  function DelPort(t: Table, port: string, owner: string, ifExists: bool): (r: Result<Table, string>)
    ensures r.Failure? <==> (port !in t.ports || owner !in t.owners) && !ifExists
    ensures r.Failure? ==> r.error == port
    ensures r.Success? && port in t.ports && owner in t.owners ==> r.value == Table(t.owners, t.ports - {port})
    ensures r.Success? && !(port in t.ports && owner in t.owners) ==> r.value == t
  {
    if port !in t.ports || owner !in t.owners then (if ifExists then Success(t) else Failure(port))
    else Success(t.(ports := t.ports - {port}))
  }

  /** Which tables a command works on. */
  function KindOf(c: Command): Kind
  {
    match c
    case AddLSwitch(_) => Switches
    case DelLSwitch(_, _) => Switches
    case AddLSwitchPort(_, _) => Switches
    case DelLSwitchPort(_, _, _) => Switches
    case _ => Routers
  }

  /** One command on the store: the tables of its kind change, the others do not. */
  function Apply(s: NbState, c: Command): (r: Result<NbState, string>)
    ensures r.Success? ==> r.value.Get(KindOf(c).Other()) == s.Get(KindOf(c).Other())
  {
    var k := KindOf(c);
    var t := s.Get(k);
    var step :=
      match c
      case AddLSwitch(n) => Success(AddOwner(t, n))
      case AddLRouter(n) => Success(AddOwner(t, n))
      case DelLSwitch(n, e) => DelOwner(t, n, e)
      case DelLRouter(n, e) => DelOwner(t, n, e)
      case AddLSwitchPort(p, o) => AddPort(t, p, o)
      case AddLRouterPort(p, o) => AddPort(t, p, o)
      case DelLSwitchPort(p, o, e) => DelPort(t, p, o, e)
      case DelLRouterPort(p, o, e) => DelPort(t, p, o, e);
    match step
    case Failure(e) => Failure(e)
    case Success(u) => Success(s.With(k, u))
  }

  /** The commands of one transaction, in order; the first failing command fails
      the whole transaction. */
  function ApplyAll(s: NbState, cs: seq<Command>): Result<NbState, string>
  {
    if cs == [] then Success(s)
    else
      match ApplyAll(s, cs[..|cs| - 1])
      case Failure(e) => Failure(e)
      case Success(u) => Apply(u, cs[|cs| - 1])
  }

  /** A transaction whose first commands fail fails with their error. */
  lemma {:induction false} ApplyAllPrefixFailure(s: NbState, cs: seq<Command>, i: nat)
    requires i <= |cs| && ApplyAll(s, cs[..i]).Failure?
    ensures ApplyAll(s, cs) == ApplyAll(s, cs[..i])
    decreases |cs|
  {
    if i < |cs| {
      var init := cs[..|cs| - 1];
      assert init[..i] == cs[..i];
      ApplyAllPrefixFailure(s, init, i);
    } else {
      assert cs[..i] == cs;
    }
  }

  /** Running two command lists one after the other is running their
      concatenation. */
  lemma {:induction false} ApplyAllConcat(s: NbState, a: seq<Command>, b: seq<Command>)
    ensures ApplyAll(s, a + b)
         == (match ApplyAll(s, a) case Failure(e) => Failure(e) case Success(u) => ApplyAll(u, b))
    decreases |b|
  {
    if b == [] {
      assert a + b == a;
    } else {
      var init := b[..|b| - 1];
      assert (a + b)[..|a + b| - 1] == a + init;
      ApplyAllConcat(s, a, init);
    }
  }

  /** A command that succeeds on a consistent store leaves it consistent:
      ports are only ever added to owners that exist, and deleting an owner
      deletes its ports. */
  lemma ApplyValid(s: NbState, c: Command)
    requires s.Valid() && Apply(s, c).Success?
    ensures Apply(s, c).value.Valid()
  {
    var k := KindOf(c);
    assert s.Get(k).Valid();
  }

  /** A transaction that succeeds on a consistent store leaves it consistent. */
  lemma {:induction false} ApplyAllValid(s: NbState, cs: seq<Command>)
    requires s.Valid() && ApplyAll(s, cs).Success?
    ensures ApplyAll(s, cs).value.Valid()
    decreases |cs|
  {
    if cs != [] {
      var init := cs[..|cs| - 1];
      ApplyAllValid(s, init);
      ApplyValid(ApplyAll(s, init).value, cs[|cs| - 1]);
    }
  }

  /** The backend store, changed only by transactions. */
  class NbDb {
    var switches: Table
    var routers: Table

    constructor(s: NbState)
      ensures State() == s
    {
      switches := s.switches;
      routers := s.routers;
    }

    function State(): NbState
      reads this
    {
      NbState(switches, routers)
    }

    /** Runs the commands on a private copy of the tables and commits the copy
        only when every command succeeds: a failing transaction changes
        nothing and reports the failing command's error. */
    method Transaction(cs: seq<Command>) returns (error: Option<string>)
      modifies this
      ensures error.None? <==> ApplyAll(old(State()), cs).Success?
      ensures error.None? ==> State() == ApplyAll(old(State()), cs).value
      ensures error.Some? ==> State() == old(State()) && error.value == ApplyAll(old(State()), cs).error
      ensures old(State()).Valid() ==> State().Valid()
    {
      var local := State();
      ghost var start := local;
      var i := 0;
      assert cs[..0] == [];
      while i < |cs|
        invariant 0 <= i <= |cs|
        invariant ApplyAll(start, cs[..i]) == Success(local)
        invariant State() == start
        decreases |cs| - i
      {
        assert cs[..i + 1][..i] == cs[..i];
        var step := Apply(local, cs[i]);
        if step.Failure? {
          ApplyAllPrefixFailure(start, cs, i + 1);
          return Some(step.error);
        }
        local := step.value;
        i := i + 1;
      }
      assert cs[..i] == cs;
      if start.Valid() {
        ApplyAllValid(start, cs);
      }
      switches := local.switches;
      routers := local.routers;
      return None;
    }
  }
}
