/** The ACL update command: which ACL rows to delete from, and which ACL records
    to add to, each logical switch.

    Compare mode (ComputeAclDifferences) takes the old and the new ACLs of every
    port, both as lists of five-field records, and a lookup from an old record to
    its backend row. Per port, the old records missing from the new list are
    deleted (as rows) and the new records missing from the old list are added
    (stripped to priority, direction and match); results are grouped by the
    port's network id.

    The no-compare fast path (GetUpdateDataWithoutCompare) either adds every
    supplied ACL, grouped by switch, or deletes every ACL row of the named
    switches whose match equals the match of a supplied ACL. */
module AclDiff {
  import opened Common
  import opened Identity
  import opened Acl

  /** A new ACL as handed to the backend: the owning port and switch are implied
      by the switch it is added to. */
  datatype AclEntry = AclEntry(priority: int, direction: Direction, matchExpr: string)

  function Strip(k: AclKey): AclEntry
  {
    AclEntry(k.priority, k.direction, k.matchExpr)
  }

  function StripAll(s: seq<AclKey>): seq<AclEntry>
  {
    if s == [] then [] else StripAll(s[..|s| - 1]) + [Strip(s[|s| - 1])]
  }

  /** The stripped list holds exactly the stripped records. */
  lemma {:induction false} StripAllMembers(s: seq<AclKey>)
    ensures forall e :: e in StripAll(s) <==> exists k :: k in s && Strip(k) == e
  {
    if s != [] {
      var init := s[..|s| - 1];
      assert s == init + [s[|s| - 1]];
      StripAllMembers(init);
    }
  }

  /** A backend ACL row, with the match column the fast path reads. */
  datatype AclRow = AclRow(uuid: string, matchExpr: string)

  /** A logical switch row, with its ACL rows. */
  datatype LSwitchRow = LSwitchRow(name: string, acls: seq<AclRow>)

  /** Rows to delete and records to add, per logical switch. */
  datatype AclUpdate = AclUpdate(dels: map<string, seq<AclRow>>, adds: map<string, seq<AclEntry>>)

  /** The fast path's result: the switch rows it looked up, and the updates. */
  datatype UpdateData = UpdateData(
    lswitches: map<string, LSwitchRow>,
    dels: map<string, seq<AclRow>>,
    adds: map<string, seq<AclEntry>>)

  function AclsOf(acls: map<string, seq<AclKey>>, portId: string): seq<AclKey>
  {
    if portId in acls then acls[portId] else []
  }

  function NetworksOf(ports: seq<Port>): set<string>
  {
    if ports == [] then {} else NetworksOf(ports[..|ports| - 1]) + {ports[|ports| - 1].networkId}
  }

  // ---------------------------------------------------------------------------
  // List difference

  /** The elements of a that are not in b, in a's order and with a's repetitions. */
  function Difference(a: seq<AclKey>, b: seq<AclKey>): seq<AclKey>
  {
    if a == [] then []
    else
      var last := a[|a| - 1];
      Difference(a[..|a| - 1], b) + (if last in b then [] else [last])
  }

  /** The difference holds exactly the elements of a that are not in b. */
  lemma {:induction false} DifferenceMembers(a: seq<AclKey>, b: seq<AclKey>)
    ensures forall x :: x in Difference(a, b) <==> x in a && x !in b
  {
    if a != [] {
      var init := a[..|a| - 1];
      assert a == init + [a[|a| - 1]];
      DifferenceMembers(init, b);
    }
  }

  /** acl_list1 minus acl_list2: dictionaries are not hashable, so the
      difference is taken element by element. */
  method AclListSub(a: seq<AclKey>, b: seq<AclKey>) returns (r: seq<AclKey>)
    ensures r == Difference(a, b)
  {
    r := [];
    var i := 0;
    while i < |a|
      invariant 0 <= i <= |a|
      invariant r == Difference(a[..i], b)
    {
      assert a[..i + 1][..i] == a[..i];
      if a[i] !in b {
        r := r + [a[i]];
      }
      i := i + 1;
    }
    assert a[..|a|] == a;
  }

  // ---------------------------------------------------------------------------
  // Compare mode

  /** The backend rows of a list of records, through acl_obj_dict; the first
      record without a row is a missing key. */
  function RowsOf(keys: seq<AclKey>, objDict: map<AclKey, AclRow>): Result<seq<AclRow>, AclKey>
  {
    if keys == [] then Success([])
    else
      match RowsOf(keys[..|keys| - 1], objDict)
      case Failure(k) => Failure(k)
      case Success(rows) =>
        var last := keys[|keys| - 1];
        if last in objDict then Success(rows + [objDict[last]]) else Failure(last)
  }

  /** The lookup succeeds exactly when every record has a row; it then yields
      exactly the rows of the records, and otherwise names a record without one. */
  lemma {:induction false} RowsOfExact(keys: seq<AclKey>, objDict: map<AclKey, AclRow>)
    ensures RowsOf(keys, objDict).Success? <==> forall k <- keys :: k in objDict
    ensures RowsOf(keys, objDict).Success? ==>
      forall row :: row in RowsOf(keys, objDict).value <==> exists k <- keys :: k in objDict && objDict[k] == row
    ensures RowsOf(keys, objDict).Failure? ==>
      RowsOf(keys, objDict).error in keys && RowsOf(keys, objDict).error !in objDict
  {
    if keys != [] {
      var init := keys[..|keys| - 1];
      var last := keys[|keys| - 1];
      assert keys == init + [last];
      RowsOfExact(init, objDict);
    }
  }

  /** The records a port loses and gains, in list order. */
  function Lost(port: Port, aclOld: map<string, seq<AclKey>>, aclNew: map<string, seq<AclKey>>): seq<AclKey>
  {
    Difference(AclsOf(aclOld, port.id), AclsOf(aclNew, port.id))
  }

  function Gained(port: Port, aclOld: map<string, seq<AclKey>>, aclNew: map<string, seq<AclKey>>): seq<AclKey>
  {
    Difference(AclsOf(aclNew, port.id), AclsOf(aclOld, port.id))
  }

  /** The update after appending a port's rows and records under its switch. A
      switch seen for the first time starts with empty lists in both maps. */
  function Extend(acc: AclUpdate, sw: string, rows: seq<AclRow>, entries: seq<AclEntry>): AclUpdate
  {
    var dels0 := if sw in acc.dels then acc.dels[sw] else [];
    var adds0 := if sw in acc.dels && sw in acc.adds then acc.adds[sw] else [];
    AclUpdate(acc.dels[sw := dels0 + rows], acc.adds[sw := adds0 + entries])
  }

  /** The update after one more port: the rows of its lost records and its
      stripped gained records are appended under its network id. */
  function PortStep(acc: AclUpdate, port: Port, aclOld: map<string, seq<AclKey>>,
                    aclNew: map<string, seq<AclKey>>, objDict: map<AclKey, AclRow>)
    : Result<AclUpdate, AclKey>
  {
    match RowsOf(Lost(port, aclOld, aclNew), objDict)
    case Failure(k) => Failure(k)
    case Success(rows) => Success(Extend(acc, port.networkId, rows, StripAll(Gained(port, aclOld, aclNew))))
  }

  /** The differences over a list of ports, port by port. Every port's network
      gets an entry in both maps, and nothing else does. */
  function AclDifferences(ports: seq<Port>, aclOld: map<string, seq<AclKey>>,
                          aclNew: map<string, seq<AclKey>>, objDict: map<AclKey, AclRow>)
    : Result<AclUpdate, AclKey>
  {
    if ports == [] then Success(AclUpdate(map[], map[]))
    else
      var init := ports[..|ports| - 1];
      match AclDifferences(init, aclOld, aclNew, objDict)
      case Failure(k) => Failure(k)
      case Success(acc) => PortStep(acc, ports[|ports| - 1], aclOld, aclNew, objDict)
  }

  /** Every port's network gets an entry in both maps, and nothing else does. */
  lemma {:induction false} AclDifferencesKeys(ports: seq<Port>, aclOld: map<string, seq<AclKey>>,
                                              aclNew: map<string, seq<AclKey>>, objDict: map<AclKey, AclRow>)
    requires AclDifferences(ports, aclOld, aclNew, objDict).Success?
    ensures var u := AclDifferences(ports, aclOld, aclNew, objDict).value;
      u.dels.Keys == u.adds.Keys == NetworksOf(ports)
  {
    if ports != [] {
      var init := ports[..|ports| - 1];
      AclDifferencesKeys(init, aclOld, aclNew, objDict);
    }
  }

  /** A record of a port that is stale: in its old list, not in its new one. */
  ghost predicate Stale(ports: seq<Port>, aclOld: map<string, seq<AclKey>>,
                        aclNew: map<string, seq<AclKey>>, i: int, k: AclKey)
  {
    0 <= i < |ports| && k in AclsOf(aclOld, ports[i].id) && k !in AclsOf(aclNew, ports[i].id)
  }

  /** A record of a port that is gained: in its new list, not in its old one. */
  ghost predicate Fresh(ports: seq<Port>, aclOld: map<string, seq<AclKey>>,
                        aclNew: map<string, seq<AclKey>>, i: int, k: AclKey)
  {
    0 <= i < |ports| && k in AclsOf(aclNew, ports[i].id) && k !in AclsOf(aclOld, ports[i].id)
  }

  /** A stale record belongs to one of the earlier ports or to the last one. */
  lemma StaleLast(ports: seq<Port>, aclOld: map<string, seq<AclKey>>, aclNew: map<string, seq<AclKey>>,
                  i: int, k: AclKey)
    requires ports != []
    ensures Stale(ports, aclOld, aclNew, i, k) <==>
      Stale(ports[..|ports| - 1], aclOld, aclNew, i, k)
      || (i == |ports| - 1 && k in Lost(ports[i], aclOld, aclNew))
  {
    if 0 <= i < |ports| {
      DifferenceMembers(AclsOf(aclOld, ports[i].id), AclsOf(aclNew, ports[i].id));
    }
  }

  /** A gained record belongs to one of the earlier ports or to the last one. */
  lemma FreshLast(ports: seq<Port>, aclOld: map<string, seq<AclKey>>, aclNew: map<string, seq<AclKey>>,
                  i: int, k: AclKey)
    requires ports != []
    ensures Fresh(ports, aclOld, aclNew, i, k) <==>
      Fresh(ports[..|ports| - 1], aclOld, aclNew, i, k)
      || (i == |ports| - 1 && k in Gained(ports[i], aclOld, aclNew))
  {
    if 0 <= i < |ports| {
      DifferenceMembers(AclsOf(aclNew, ports[i].id), AclsOf(aclOld, ports[i].id));
    }
  }

  /** The differences are computed exactly when every stale record of every
      port has a backend row. */
  lemma {:induction false} AclDifferencesSucceeds(ports: seq<Port>, aclOld: map<string, seq<AclKey>>,
                                                  aclNew: map<string, seq<AclKey>>, objDict: map<AclKey, AclRow>)
    ensures AclDifferences(ports, aclOld, aclNew, objDict).Success? <==>
      forall i, k :: Stale(ports, aclOld, aclNew, i, k) ==> k in objDict
  {
    if ports != [] {
      var n := |ports| - 1;
      AclDifferencesSucceeds(ports[..n], aclOld, aclNew, objDict);
      RowsOfExact(Lost(ports[n], aclOld, aclNew), objDict);
      assert AclDifferences(ports, aclOld, aclNew, objDict).Success? <==>
        AclDifferences(ports[..n], aclOld, aclNew, objDict).Success?
        && RowsOf(Lost(ports[n], aclOld, aclNew), objDict).Success?;
      if AclDifferences(ports, aclOld, aclNew, objDict).Success? {
        forall i, k | Stale(ports, aclOld, aclNew, i, k)
          ensures k in objDict
        {
          StaleLast(ports, aclOld, aclNew, i, k);
        }
      } else if AclDifferences(ports[..n], aclOld, aclNew, objDict).Failure? {
        var i, k :| Stale(ports[..n], aclOld, aclNew, i, k) && k !in objDict;
        StaleLast(ports, aclOld, aclNew, i, k);
      } else {
        StaleLast(ports, aclOld, aclNew, n, RowsOf(Lost(ports[n], aclOld, aclNew), objDict).error);
      }
    }
  }

  /** One port's step keeps every earlier deletion and adds the rows of the
      port's lost records under its network id; nothing else is deleted. */
  lemma PortStepDels(acc: AclUpdate, port: Port, aclOld: map<string, seq<AclKey>>,
                     aclNew: map<string, seq<AclKey>>, objDict: map<AclKey, AclRow>)
    requires PortStep(acc, port, aclOld, aclNew, objDict).Success?
    ensures var u := PortStep(acc, port, aclOld, aclNew, objDict).value;
      && (forall s, row :: s in acc.dels && row in acc.dels[s] ==> s in u.dels && row in u.dels[s])
      && (forall k :: k in Lost(port, aclOld, aclNew) ==>
            k in objDict && port.networkId in u.dels && objDict[k] in u.dels[port.networkId])
      && (forall s, row :: s in u.dels && row in u.dels[s] ==>
            (s in acc.dels && row in acc.dels[s])
            || (s == port.networkId &&
                exists k :: k in Lost(port, aclOld, aclNew) && k in objDict && objDict[k] == row))
  {
    RowsOfExact(Lost(port, aclOld, aclNew), objDict);
  }

  /** One port's step keeps every earlier addition and adds the port's stripped
      gained records under its network id; nothing else is added. */
  lemma PortStepAdds(acc: AclUpdate, port: Port, aclOld: map<string, seq<AclKey>>,
                     aclNew: map<string, seq<AclKey>>, objDict: map<AclKey, AclRow>)
    requires acc.dels.Keys == acc.adds.Keys
    requires PortStep(acc, port, aclOld, aclNew, objDict).Success?
    ensures var u := PortStep(acc, port, aclOld, aclNew, objDict).value;
      && (forall s, e :: s in acc.adds && e in acc.adds[s] ==> s in u.adds && e in u.adds[s])
      && (forall k :: k in Gained(port, aclOld, aclNew) ==>
            port.networkId in u.adds && Strip(k) in u.adds[port.networkId])
      && (forall s, e :: s in u.adds && e in u.adds[s] ==>
            (s in acc.adds && e in acc.adds[s])
            || (s == port.networkId && exists k :: k in Gained(port, aclOld, aclNew) && Strip(k) == e))
  {
    StripAllMembers(Gained(port, aclOld, aclNew));
  }

  /** Every stale record's row is deleted, under the network id of its port. */
  lemma {:induction false} AclDeletionsComplete(ports: seq<Port>, aclOld: map<string, seq<AclKey>>,
                                                aclNew: map<string, seq<AclKey>>, objDict: map<AclKey, AclRow>)
    requires AclDifferences(ports, aclOld, aclNew, objDict).Success?
    ensures var u := AclDifferences(ports, aclOld, aclNew, objDict).value;
      forall i, k :: Stale(ports, aclOld, aclNew, i, k) ==>
        k in objDict && ports[i].networkId in u.dels && objDict[k] in u.dels[ports[i].networkId]
  {
    if ports != [] {
      var n := |ports| - 1;
      var acc := AclDifferences(ports[..n], aclOld, aclNew, objDict).value;
      AclDeletionsComplete(ports[..n], aclOld, aclNew, objDict);
      PortStepDels(acc, ports[n], aclOld, aclNew, objDict);
      var u := PortStep(acc, ports[n], aclOld, aclNew, objDict).value;
      forall i, k | Stale(ports, aclOld, aclNew, i, k)
        ensures k in objDict && ports[i].networkId in u.dels && objDict[k] in u.dels[ports[i].networkId]
      {
        StaleLast(ports, aclOld, aclNew, i, k);
        if i < n {
          assert ports[..n][i] == ports[i];
          assert Stale(ports[..n], aclOld, aclNew, i, k);
        } else {
          assert k in Lost(ports[n], aclOld, aclNew);
        }
      }
    }
  }

  /** Every deleted row is the row of a stale record of a port on that switch. */
  lemma {:induction false} AclDeletionsSound(ports: seq<Port>, aclOld: map<string, seq<AclKey>>,
                                             aclNew: map<string, seq<AclKey>>, objDict: map<AclKey, AclRow>)
    requires AclDifferences(ports, aclOld, aclNew, objDict).Success?
    ensures var u := AclDifferences(ports, aclOld, aclNew, objDict).value;
      forall sw, row :: sw in u.dels && row in u.dels[sw] ==>
        exists i, k :: Stale(ports, aclOld, aclNew, i, k) && ports[i].networkId == sw
                       && k in objDict && objDict[k] == row
  {
    if ports != [] {
      var n := |ports| - 1;
      var acc := AclDifferences(ports[..n], aclOld, aclNew, objDict).value;
      AclDeletionsSound(ports[..n], aclOld, aclNew, objDict);
      PortStepDels(acc, ports[n], aclOld, aclNew, objDict);
      var u := PortStep(acc, ports[n], aclOld, aclNew, objDict).value;
      forall sw, row | sw in u.dels && row in u.dels[sw]
        ensures exists i, k :: Stale(ports, aclOld, aclNew, i, k) && ports[i].networkId == sw
                               && k in objDict && objDict[k] == row
      {
        if sw in acc.dels && row in acc.dels[sw] {
          var i, k :| Stale(ports[..n], aclOld, aclNew, i, k) && ports[..n][i].networkId == sw
                      && k in objDict && objDict[k] == row;
          StaleLast(ports, aclOld, aclNew, i, k);
        } else {
          var k :| k in Lost(ports[n], aclOld, aclNew) && k in objDict && objDict[k] == row;
          StaleLast(ports, aclOld, aclNew, n, k);
        }
      }
    }
  }

  /** Every gained record is added, stripped, under the network id of its port. */
  lemma {:induction false} AclAdditionsComplete(ports: seq<Port>, aclOld: map<string, seq<AclKey>>,
                                                aclNew: map<string, seq<AclKey>>, objDict: map<AclKey, AclRow>)
    requires AclDifferences(ports, aclOld, aclNew, objDict).Success?
    ensures var u := AclDifferences(ports, aclOld, aclNew, objDict).value;
      forall i, k :: Fresh(ports, aclOld, aclNew, i, k) ==>
        ports[i].networkId in u.adds && Strip(k) in u.adds[ports[i].networkId]
  {
    if ports != [] {
      var n := |ports| - 1;
      var acc := AclDifferences(ports[..n], aclOld, aclNew, objDict).value;
      AclAdditionsComplete(ports[..n], aclOld, aclNew, objDict);
      AclDifferencesKeys(ports[..n], aclOld, aclNew, objDict);
      PortStepAdds(acc, ports[n], aclOld, aclNew, objDict);
      var u := PortStep(acc, ports[n], aclOld, aclNew, objDict).value;
      forall i, k | Fresh(ports, aclOld, aclNew, i, k)
        ensures ports[i].networkId in u.adds && Strip(k) in u.adds[ports[i].networkId]
      {
        FreshLast(ports, aclOld, aclNew, i, k);
        if i < n {
          assert ports[..n][i] == ports[i];
          assert Fresh(ports[..n], aclOld, aclNew, i, k);
        } else {
          assert k in Gained(ports[n], aclOld, aclNew);
        }
      }
    }
  }

  /** Every added record is the stripped gained record of a port on that switch. */
  lemma {:induction false} AclAdditionsSound(ports: seq<Port>, aclOld: map<string, seq<AclKey>>,
                                             aclNew: map<string, seq<AclKey>>, objDict: map<AclKey, AclRow>)
    requires AclDifferences(ports, aclOld, aclNew, objDict).Success?
    ensures var u := AclDifferences(ports, aclOld, aclNew, objDict).value;
      forall sw, e :: sw in u.adds && e in u.adds[sw] ==>
        exists i, k :: Fresh(ports, aclOld, aclNew, i, k) && ports[i].networkId == sw && Strip(k) == e
  {
    if ports != [] {
      var n := |ports| - 1;
      var acc := AclDifferences(ports[..n], aclOld, aclNew, objDict).value;
      AclAdditionsSound(ports[..n], aclOld, aclNew, objDict);
      AclDifferencesKeys(ports[..n], aclOld, aclNew, objDict);
      PortStepAdds(acc, ports[n], aclOld, aclNew, objDict);
      var u := PortStep(acc, ports[n], aclOld, aclNew, objDict).value;
      forall sw, e | sw in u.adds && e in u.adds[sw]
        ensures exists i, k :: Fresh(ports, aclOld, aclNew, i, k) && ports[i].networkId == sw && Strip(k) == e
      {
        if sw in acc.adds && e in acc.adds[sw] {
          var i, k :| Fresh(ports[..n], aclOld, aclNew, i, k) && ports[..n][i].networkId == sw && Strip(k) == e;
          FreshLast(ports, aclOld, aclNew, i, k);
        } else {
          var k :| k in Gained(ports[n], aclOld, aclNew) && Strip(k) == e;
          FreshLast(ports, aclOld, aclNew, n, k);
        }
      }
    }
  }

  /** A record that every port keeps (in a port's new list exactly when it is
      in its old one) loses no row, provided no other record shares its row;
      and it is never re-added: an addition equal to its reduced form comes
      from a different gained record of a port on that switch. */
  lemma UnchangedRulesUntouched(ports: seq<Port>, aclOld: map<string, seq<AclKey>>,
                                aclNew: map<string, seq<AclKey>>, objDict: map<AclKey, AclRow>, k: AclKey)
    requires AclDifferences(ports, aclOld, aclNew, objDict).Success?
    requires k in objDict && forall k' <- objDict :: objDict[k'] == objDict[k] ==> k' == k
    requires forall i :: 0 <= i < |ports| ==> (k in AclsOf(aclOld, ports[i].id) <==> k in AclsOf(aclNew, ports[i].id))
    ensures var u := AclDifferences(ports, aclOld, aclNew, objDict).value;
      forall sw <- u.dels :: objDict[k] !in u.dels[sw]
    ensures var u := AclDifferences(ports, aclOld, aclNew, objDict).value;
      forall sw <- u.adds :: Strip(k) in u.adds[sw] ==>
        exists i, k' :: Fresh(ports, aclOld, aclNew, i, k') && k' != k
                        && ports[i].networkId == sw && Strip(k') == Strip(k)
  {
    AclDeletionsSound(ports, aclOld, aclNew, objDict);
    AclAdditionsSound(ports, aclOld, aclNew, objDict);
    var u := AclDifferences(ports, aclOld, aclNew, objDict).value;
    forall sw | sw in u.adds && Strip(k) in u.adds[sw]
      ensures exists i, k' :: Fresh(ports, aclOld, aclNew, i, k') && k' != k
                              && ports[i].networkId == sw && Strip(k') == Strip(k)
    {
      var i, k' :| Fresh(ports, aclOld, aclNew, i, k') && ports[i].networkId == sw && Strip(k') == Strip(k);
      assert k' != k;
    }
  }

  /** Lookups of a failing prefix fail with the same key on the whole list. */
  lemma {:induction false} RowsOfPrefixFailure(keys: seq<AclKey>, j: nat, objDict: map<AclKey, AclRow>)
    requires j <= |keys| && RowsOf(keys[..j], objDict).Failure?
    ensures RowsOf(keys, objDict) == RowsOf(keys[..j], objDict)
    decreases |keys| - j
  {
    if j < |keys| {
      assert keys[..j + 1][..j] == keys[..j];
      RowsOfPrefixFailure(keys, j + 1, objDict);
    } else {
      assert keys[..j] == keys;
    }
  }

  /** Differences over one more port: the step of that port on the
      differences so far. */
  lemma AclDifferencesSnoc(ports: seq<Port>, i: nat, aclOld: map<string, seq<AclKey>>,
                           aclNew: map<string, seq<AclKey>>, objDict: map<AclKey, AclRow>)
    requires i < |ports| && AclDifferences(ports[..i], aclOld, aclNew, objDict).Success?
    ensures AclDifferences(ports[..i + 1], aclOld, aclNew, objDict)
         == PortStep(AclDifferences(ports[..i], aclOld, aclNew, objDict).value, ports[i], aclOld, aclNew, objDict)
  {
    assert ports[..i + 1][..i] == ports[..i];
  }

  /** Differences over a failing prefix of the ports fail with the same key. */
  lemma {:induction false} AclDifferencesPrefixFailure(ports: seq<Port>, j: nat, aclOld: map<string, seq<AclKey>>,
                                                       aclNew: map<string, seq<AclKey>>, objDict: map<AclKey, AclRow>)
    requires j <= |ports| && AclDifferences(ports[..j], aclOld, aclNew, objDict).Failure?
    ensures AclDifferences(ports, aclOld, aclNew, objDict) == AclDifferences(ports[..j], aclOld, aclNew, objDict)
    decreases |ports| - j
  {
    if j < |ports| {
      assert ports[..j + 1][..j] == ports[..j];
      AclDifferencesPrefixFailure(ports, j + 1, aclOld, aclNew, objDict);
    } else {
      assert ports[..j] == ports;
    }
  }

  /** Looks up the backend row of each record, in order; the first record
      without a row ends the lookup. */
  method LookupRows(keys: seq<AclKey>, objDict: map<AclKey, AclRow>) returns (r: Result<seq<AclRow>, AclKey>)
    ensures r == RowsOf(keys, objDict)
  {
    var rows: seq<AclRow> := [];
    var j := 0;
    while j < |keys|
      invariant 0 <= j <= |keys|
      invariant RowsOf(keys[..j], objDict) == Success(rows)
    {
      assert keys[..j + 1][..j] == keys[..j];
      var key := keys[j];
      if key !in objDict {
        RowsOfPrefixFailure(keys, j + 1, objDict);
        return Failure(key);
      }
      rows := rows + [objDict[key]];
      j := j + 1;
    }
    assert keys[..|keys|] == keys;
    r := Success(rows);
  }

  /** Drops the owning switch and port of each record, in order. */
  method StripRecords(keys: seq<AclKey>) returns (entries: seq<AclEntry>)
    ensures entries == StripAll(keys)
  {
    entries := [];
    var k := 0;
    while k < |keys|
      invariant 0 <= k <= |keys|
      invariant entries == StripAll(keys[..k])
    {
      assert keys[..k + 1][..k] == keys[..k];
      entries := entries + [Strip(keys[k])];
      k := k + 1;
    }
    assert keys[..|keys|] == keys;
  }

  /** The differences as the loop computes them: the ports from index i on,
      applied to the update so far. */
  function DiffFrom(acc: AclUpdate, ports: seq<Port>, i: nat, aclOld: map<string, seq<AclKey>>,
                    aclNew: map<string, seq<AclKey>>, objDict: map<AclKey, AclRow>)
    : Result<AclUpdate, AclKey>
    requires i <= |ports|
    decreases |ports| - i
  {
    if i == |ports| then Success(acc)
    else
      match PortStep(acc, ports[i], aclOld, aclNew, objDict)
      case Failure(k) => Failure(k)
      case Success(next) => DiffFrom(next, ports, i + 1, aclOld, aclNew, objDict)
  }

  /** Continuing from the differences over the first i ports gives the
      differences over all of them. */
  lemma {:induction false} DiffFromAgrees(ports: seq<Port>, i: nat, aclOld: map<string, seq<AclKey>>,
                                          aclNew: map<string, seq<AclKey>>, objDict: map<AclKey, AclRow>)
    requires i <= |ports| && AclDifferences(ports[..i], aclOld, aclNew, objDict).Success?
    ensures DiffFrom(AclDifferences(ports[..i], aclOld, aclNew, objDict).value, ports, i, aclOld, aclNew, objDict)
         == AclDifferences(ports, aclOld, aclNew, objDict)
    decreases |ports| - i
  {
    if i == |ports| {
      assert ports[..i] == ports;
    } else {
      AclDifferencesSnoc(ports, i, aclOld, aclNew, objDict);
      if AclDifferences(ports[..i + 1], aclOld, aclNew, objDict).Failure? {
        AclDifferencesPrefixFailure(ports, i + 1, aclOld, aclNew, objDict);
      } else {
        DiffFromAgrees(ports, i + 1, aclOld, aclNew, objDict);
      }
    }
  }

  /** The body of the per-port loop: the port's lost records are looked up and
      their rows appended under its network id, and its gained records are
      stripped and appended there. A switch seen for the first time starts with
      empty lists in both maps. */
  method AddPortDifferences(acc: AclUpdate, port: Port, aclOld: map<string, seq<AclKey>>,
                            aclNew: map<string, seq<AclKey>>, objDict: map<AclKey, AclRow>)
    returns (r: Result<AclUpdate, AclKey>)
    ensures r == PortStep(acc, port, aclOld, aclNew, objDict)
  {
    var sw := port.networkId;
    var aclsOld := AclsOf(aclOld, port.id);
    var aclsNew := AclsOf(aclNew, port.id);
    var aclsDel := AclListSub(aclsOld, aclsNew);
    var aclsAdd := AclListSub(aclsNew, aclsOld);
    var rows := LookupRows(aclsDel, objDict);
    if rows.Failure? {
      return Failure(rows.error);
    }
    var entries := StripRecords(aclsAdd);
    r := Success(Extend(acc, sw, rows.value, entries));
  }

  /** The update command. In compare mode the old and new ACLs come in as
      arguments; the fast path reads the command's own fields. */
  datatype UpdateAclsCommand = UpdateAclsCommand(
    lswitchNames: seq<string>,
    ports: seq<Port>,
    aclNewValues: map<string, AclEntry>,
    needCompare: bool,
    isAddAcl: bool)
  {
    /** Compare mode: walks the ports, appending each port's stale rows and
        gained records under its network id. Its result does not depend on the
        command's flags. */
    method ComputeAclDifferences(ports: seq<Port>, aclOld: map<string, seq<AclKey>>,
                                 aclNew: map<string, seq<AclKey>>, objDict: map<AclKey, AclRow>)
      returns (r: Result<AclUpdate, AclKey>)
      ensures r == AclDifferences(ports, aclOld, aclNew, objDict)
    {
      var acc := AclUpdate(map[], map[]);
      var i := 0;
      assert ports[..0] == [];
      DiffFromAgrees(ports, 0, aclOld, aclNew, objDict);
      ghost var spec := AclDifferences(ports, aclOld, aclNew, objDict);
      while i < |ports|
        invariant 0 <= i <= |ports|
        invariant DiffFrom(acc, ports, i, aclOld, aclNew, objDict) == spec
        decreases |ports| - i
      {
        var next := AddPortDifferences(acc, ports[i], aclOld, aclNew, objDict);
        if next.Failure? {
          return next;
        }
        acc := next.value;
        i := i + 1;
      }
      r := Success(acc);
    }
  }

  /** Two commands that differ only in is_add_acl compute the same differences
      in compare mode. */
  method CompareModeIgnoresIsAddAcl(cmd: UpdateAclsCommand, ports: seq<Port>,
                                    aclOld: map<string, seq<AclKey>>, aclNew: map<string, seq<AclKey>>,
                                    objDict: map<AclKey, AclRow>)
    returns (withAdd: Result<AclUpdate, AclKey>, withoutAdd: Result<AclUpdate, AclKey>)
    ensures withAdd == withoutAdd
  {
    var c1 := cmd.(needCompare := true, isAddAcl := true);
    var c2 := cmd.(needCompare := true, isAddAcl := false);
    withAdd := c1.ComputeAclDifferences(ports, aclOld, aclNew, objDict);
    withoutAdd := c2.ComputeAclDifferences(ports, aclOld, aclNew, objDict);
  }
}

/** The fast path of the ACL update command: no comparison with old ACLs. It
    adds every supplied ACL to the switch of its port, or deletes from every
    named switch each ACL row whose match is the match of a supplied ACL. */
module AclFastPath {
  import opened Common
  import opened Identity
  import opened Acl
  import opened AclDiff

  /** The backend names of the named switches. */
  function OvnNames(names: seq<string>): set<string>
  {
    set i | 0 <= i < |names| :: OvnName(names[i])
  }

  /** The switch rows looked up by backend name. */
  function SwitchRowsOf(names: seq<string>, idl: map<string, LSwitchRow>): map<string, LSwitchRow>
  {
    map n | n in OvnNames(names) && n in idl :: idl[n]
  }

  /** The additions: each port's supplied ACL, if it has one, appended in port
      order under the backend name of the port's network. */
  function AddValues(ports: seq<Port>, values: map<string, AclEntry>): map<string, seq<AclEntry>>
  {
    if ports == [] then map[]
    else
      var acc := AddValues(ports[..|ports| - 1], values);
      var port := ports[|ports| - 1];
      var sw := OvnName(port.networkId);
      var prev := if sw in acc then acc[sw] else [];
      acc[sw := prev + (if port.id in values then [values[port.id]] else [])]
  }

  /** The matches of the supplied ACLs. */
  function DeleteMatches(values: map<string, AclEntry>): set<string>
  {
    set p | p in values :: values[p].matchExpr
  }

  /** The ACL rows whose match is one of the given matches, in row order. */
  function MatchingAcls(acls: seq<AclRow>, matches: set<string>): seq<AclRow>
  {
    if acls == [] then []
    else
      var last := acls[|acls| - 1];
      MatchingAcls(acls[..|acls| - 1], matches) + (if last.matchExpr in matches then [last] else [])
  }

  /** The deletions: for every looked-up switch, its ACL rows with a supplied
      match. */
  function DelRows(lswitches: map<string, LSwitchRow>, matches: set<string>): map<string, seq<AclRow>>
  {
    map sw | sw in lswitches :: MatchingAcls(lswitches[sw].acls, matches)
  }

  /** What the fast path returns once the switches are looked up. */
  function NoCompareUpdate(cmd: UpdateAclsCommand, lswitches: map<string, LSwitchRow>): UpdateData
  {
    if cmd.isAddAcl then UpdateData(lswitches, map[], AddValues(cmd.ports, cmd.aclNewValues))
    else UpdateData(lswitches, DelRows(lswitches, DeleteMatches(cmd.aclNewValues)), map[])
  }

  /** The filtered rows are exactly the rows with a match in the set, and they
      keep their order: the filter of a prefix is a prefix of the filter. */
  lemma {:induction false} MatchingAclsExact(acls: seq<AclRow>, matches: set<string>)
    ensures forall a :: a in MatchingAcls(acls, matches) <==> a in acls && a.matchExpr in matches
    ensures |MatchingAcls(acls, matches)| <= |acls|
  {
    if acls != [] {
      var init := acls[..|acls| - 1];
      assert acls == init + [acls[|acls| - 1]];
      MatchingAclsExact(init, matches);
    }
  }

  /** The additions name exactly the switches of the ports, and hold under a
      switch exactly the supplied ACLs of the ports on it. */
  lemma {:induction false} AddValuesExact(ports: seq<Port>, values: map<string, AclEntry>)
    ensures AddValues(ports, values).Keys == set i | 0 <= i < |ports| :: OvnName(ports[i].networkId)
    ensures forall sw, e :: sw in AddValues(ports, values) && e in AddValues(ports, values)[sw] <==>
      exists i :: 0 <= i < |ports| && OvnName(ports[i].networkId) == sw
                  && ports[i].id in values && values[ports[i].id] == e
  {
    if ports != [] {
      var n := |ports| - 1;
      var init := ports[..n];
      AddValuesExact(init, values);
      forall i | 0 <= i < n
        ensures init[i] == ports[i]
      {
      }
      var acc := AddValues(init, values);
      var r := AddValues(ports, values);
      var sw := OvnName(ports[n].networkId);
      forall s, e | s in r && e in r[s]
        ensures exists i :: 0 <= i < |ports| && OvnName(ports[i].networkId) == s
                            && ports[i].id in values && values[ports[i].id] == e
      {
        if s in acc && e in acc[s] {
          var i :| 0 <= i < n && OvnName(init[i].networkId) == s && init[i].id in values && values[init[i].id] == e;
          assert ports[i] == init[i];
        } else {
          assert s == sw && ports[n].id in values && values[ports[n].id] == e;
        }
      }
      forall s, e, i | 0 <= i < |ports| && OvnName(ports[i].networkId) == s
                       && ports[i].id in values && values[ports[i].id] == e
        ensures s in r && e in r[s]
      {
        if i < n {
          assert init[i] == ports[i];
        }
      }
    }
  }

  /** In add mode nothing is deleted, and exactly the supplied ACLs of the
      ports are added, under the backend names of their networks. */
  lemma NoCompareAddExact(cmd: UpdateAclsCommand, lswitches: map<string, LSwitchRow>)
    requires cmd.isAddAcl
    ensures var u := NoCompareUpdate(cmd, lswitches);
      && u.lswitches == lswitches && u.dels == map[]
      && u.adds.Keys == (set i | 0 <= i < |cmd.ports| :: OvnName(cmd.ports[i].networkId))
      && forall sw, e :: sw in u.adds && e in u.adds[sw] <==>
           exists i :: 0 <= i < |cmd.ports| && OvnName(cmd.ports[i].networkId) == sw
                       && cmd.ports[i].id in cmd.aclNewValues && cmd.aclNewValues[cmd.ports[i].id] == e
  {
    AddValuesExact(cmd.ports, cmd.aclNewValues);
  }

  /** In delete mode nothing is added, every looked-up switch gets an entry, and
      a switch's deletions are exactly its ACL rows whose match is the match of
      a supplied ACL. */
  lemma NoCompareDeleteExact(cmd: UpdateAclsCommand, lswitches: map<string, LSwitchRow>)
    requires !cmd.isAddAcl
    ensures var u := NoCompareUpdate(cmd, lswitches);
      && u.lswitches == lswitches && u.adds == map[] && u.dels.Keys == lswitches.Keys
      && forall sw, a :: sw in u.dels ==>
           (a in u.dels[sw] <==> a in lswitches[sw].acls
                                 && exists p :: p in cmd.aclNewValues && cmd.aclNewValues[p].matchExpr == a.matchExpr)
  {
    var matches := DeleteMatches(cmd.aclNewValues);
    forall sw | sw in lswitches {
      MatchingAclsExact(lswitches[sw].acls, matches);
    }
  }

  /** Looks up each named switch by its backend name; a missing one is a
      row-not-found error carrying that name. */
  method LookupSwitches(names: seq<string>, idl: map<string, LSwitchRow>)
    returns (r: Result<map<string, LSwitchRow>, string>)
    ensures r.Success? <==> forall i :: 0 <= i < |names| ==> OvnName(names[i]) in idl
    ensures r.Success? ==> r.value == SwitchRowsOf(names, idl)
    ensures r.Failure? ==> exists i :: 0 <= i < |names| && r.error == OvnName(names[i]) && r.error !in idl
                                       && forall j :: 0 <= j < i ==> OvnName(names[j]) in idl
  {
    var rows: map<string, LSwitchRow> := map[];
    var i := 0;
    while i < |names|
      invariant 0 <= i <= |names|
      invariant forall j :: 0 <= j < i ==> OvnName(names[j]) in idl
      invariant rows == SwitchRowsOf(names[..i], idl)
    {
      var name := OvnName(names[i]);
      if name !in idl {
        return Failure(name);
      }
      assert OvnNames(names[..i + 1]) == OvnNames(names[..i]) + {name} by {
        assert forall j :: 0 <= j < i ==> names[..i + 1][j] == names[..i][j];
      }
      rows := rows[name := idl[name]];
      i := i + 1;
    }
    assert names[..|names|] == names;
    r := Success(rows);
  }

  /** Appends the supplied ACL of each port, if any, under the backend name of
      its network; a switch seen for the first time starts with an empty list. */
  method CollectAdditions(ports: seq<Port>, values: map<string, AclEntry>)
    returns (adds: map<string, seq<AclEntry>>)
    ensures adds == AddValues(ports, values)
  {
    adds := map[];
    var i := 0;
    while i < |ports|
      invariant 0 <= i <= |ports|
      invariant adds == AddValues(ports[..i], values)
    {
      assert ports[..i + 1][..i] == ports[..i];
      var port := ports[i];
      var sw := OvnName(port.networkId);
      var prev := if sw in adds then adds[sw] else [];
      var supplied := if port.id in values then [values[port.id]] else [];
      adds := adds[sw := prev + supplied];
      i := i + 1;
    }
    assert ports[..|ports|] == ports;
  }

  /** Collects the match of every supplied ACL. */
  method CollectMatches(values: map<string, AclEntry>) returns (matches: set<string>)
    ensures matches == DeleteMatches(values)
  {
    matches := {};
    var todo := values.Keys;
    while todo != {}
      invariant todo <= values.Keys
      invariant matches == set p | p in values.Keys - todo :: values[p].matchExpr
      decreases todo
    {
      var p :| p in todo;
      matches := matches + {values[p].matchExpr};
      todo := todo - {p};
    }
  }

  /** Keeps the ACL rows whose match is one of the given matches. */
  method FilterByMatch(acls: seq<AclRow>, matches: set<string>) returns (kept: seq<AclRow>)
    ensures kept == MatchingAcls(acls, matches)
  {
    kept := [];
    var j := 0;
    while j < |acls|
      invariant 0 <= j <= |acls|
      invariant kept == MatchingAcls(acls[..j], matches)
    {
      assert acls[..j + 1][..j] == acls[..j];
      if acls[j].matchExpr in matches {
        kept := kept + [acls[j]];
      }
      j := j + 1;
    }
    assert acls[..|acls|] == acls;
  }

  /** For every looked-up switch, the ACL rows to delete. */
  method CollectDeletions(lswitches: map<string, LSwitchRow>, matches: set<string>)
    returns (dels: map<string, seq<AclRow>>)
    ensures dels == DelRows(lswitches, matches)
  {
    dels := map[];
    var todo := lswitches.Keys;
    while todo != {}
      invariant todo <= lswitches.Keys
      invariant dels == map sw | sw in lswitches.Keys - todo :: MatchingAcls(lswitches[sw].acls, matches)
      decreases todo
    {
      var sw :| sw in todo;
      var kept := FilterByMatch(lswitches[sw].acls, matches);
      dels := dels[sw := kept];
      todo := todo - {sw};
    }
  }

  /** The fast path: the named switches are looked up first (a missing one is
      an error), then either the supplied ACLs are collected for addition or the
      switches' ACL rows with a supplied match are collected for deletion. */
  method GetUpdateDataWithoutCompare(cmd: UpdateAclsCommand, idl: map<string, LSwitchRow>)
    returns (r: Result<UpdateData, string>)
    ensures r.Success? <==> forall i :: 0 <= i < |cmd.lswitchNames| ==> OvnName(cmd.lswitchNames[i]) in idl
    ensures r.Success? ==> r.value == NoCompareUpdate(cmd, SwitchRowsOf(cmd.lswitchNames, idl))
    ensures r.Failure? ==> r.error !in idl && exists i :: 0 <= i < |cmd.lswitchNames| && r.error == OvnName(cmd.lswitchNames[i])
  {
    var lookup := LookupSwitches(cmd.lswitchNames, idl);
    if lookup.Failure? {
      return Failure(lookup.error);
    }
    var lswitches := lookup.value;
    if cmd.isAddAcl {
      var adds := CollectAdditions(cmd.ports, cmd.aclNewValues);
      r := Success(UpdateData(lswitches, map[], adds));
    } else {
      var matches := CollectMatches(cmd.aclNewValues);
      var dels := CollectDeletions(lswitches, matches);
      r := Success(UpdateData(lswitches, dels, map[]));
    }
  }
}
