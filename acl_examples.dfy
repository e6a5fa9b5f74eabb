/** The ACL update command on the data of its unit tests: two ports on one
    switch whose IPv4 peer rules become IPv6 peer rules (compare mode), and two
    supplied ICMP rules added to or deleted from that switch (fast path). */
module AclExamples {
  import opened Common
  import opened Identity
  import opened Acl
  import opened AclDiff
  import opened AclFastPath

  const SWITCH: string := "lswitch-1"
  const PORT1: Port := Port("port-id1", SWITCH)
  const PORT2: Port := Port("port-id2", SWITCH)

  function Rule(d: Direction, lport: string, m: string): AclKey
  {
    AclKey(1002, d, lport, SWITCH, m)
  }

  // The six old records: each port allows IPv4 and IPv6 from itself and IPv4
  // from its peer.
  const OLD1_1: AclKey := Rule(FromLport, "port-id1", "inport == port-id1 && ip4 && (ip.src == 1.1.1.101)")
  const OLD1_2: AclKey := Rule(FromLport, "port-id1", "inport == port-id1 && ip6 && (ip.src == 2001:0db8::1:0:0:1)")
  const OLD1_3: AclKey := Rule(ToLport, "port-id1", "ip4 && (ip.src == 1.1.1.102)")
  const OLD2_1: AclKey := Rule(FromLport, "port-id2", "inport == port-id2 && ip4 && (ip.src == 1.1.1.102)")
  const OLD2_2: AclKey := Rule(FromLport, "port-id2", "inport == port-id2 && ip6 && (ip.src == 2001:0db8::1:0:0:2)")
  const OLD2_3: AclKey := Rule(ToLport, "port-id2", "ip4 && (ip.src == 1.1.1.101)")

  // The new third records allow IPv6 from the peer instead.
  const NEW1_3: AclKey := Rule(ToLport, "port-id1", "ip6 && (ip.src == 2001:0db8::1:0:0:2)")
  const NEW2_3: AclKey := Rule(ToLport, "port-id2", "ip6 && (ip.src == 2001:0db8::1:0:0:1)")

  function RowOf(name: string, k: AclKey): AclRow
  {
    AclRow(name, k.matchExpr)
  }

  function OldAcls(): map<string, seq<AclKey>>
  {
    map["port-id1" := [OLD1_1, OLD1_2, OLD1_3], "port-id2" := [OLD2_1, OLD2_2, OLD2_3]]
  }

  function NewAcls(): map<string, seq<AclKey>>
  {
    map["port-id1" := [OLD1_1, OLD1_2, NEW1_3], "port-id2" := [OLD2_1, OLD2_2, NEW2_3]]
  }

  function ObjDict(): map<AclKey, AclRow>
  {
    map[OLD1_1 := RowOf("row1", OLD1_1), OLD1_2 := RowOf("row2", OLD1_2), OLD1_3 := RowOf("row3", OLD1_3),
        OLD2_1 := RowOf("row4", OLD2_1), OLD2_2 := RowOf("row5", OLD2_2), OLD2_3 := RowOf("row6", OLD2_3)]
  }

  /** The records of the example differ where the data says they do: in the
      port, in the direction, or in the IP version of the match. */
  lemma ExampleKeysDiffer()
    ensures OLD1_3 != NEW1_3 && OLD2_3 != NEW2_3
    ensures "port-id1" != "port-id2"
  {
    assert OLD1_3.matchExpr[2] == '4' && NEW1_3.matchExpr[2] == '6';
    assert OLD2_3.matchExpr[2] == '4' && NEW2_3.matchExpr[2] == '6';
    assert "port-id1"[7] != "port-id2"[7];
  }

  /** The difference of two three-record lists that agree on their first two
      records is the third record of the first. */
  lemma DifferenceOfThirds(a: AclKey, b: AclKey, c: AclKey, d: AclKey)
    requires c != a && c != b && c != d
    ensures Difference([a, b, c], [a, b, d]) == [c]
  {
    var bs := [a, b, d];
    assert [a][..0] == [];
    assert Difference([a], bs) == [] by { assert a in bs; }
    assert [a, b][..1] == [a];
    assert Difference([a, b], bs) == [] by { assert b in bs; }
    assert [a, b, c][..2] == [a, b];
  }

  /** A port whose third record changed: the old record's row is looked up and
      the new record is stripped, and both are appended under the network. */
  lemma ThirdRecordStep(acc: AclUpdate, port: Port, aclOld: map<string, seq<AclKey>>,
                        aclNew: map<string, seq<AclKey>>, objDict: map<AclKey, AclRow>,
                        o1: AclKey, o2: AclKey, o3: AclKey, n3: AclKey, row: AclRow)
    requires port.id in aclOld && aclOld[port.id] == [o1, o2, o3]
    requires port.id in aclNew && aclNew[port.id] == [o1, o2, n3]
    requires o3 != o1 && o3 != o2 && o3 != n3 && n3 != o1 && n3 != o2
    requires o3 in objDict && objDict[o3] == row
    ensures PortStep(acc, port, aclOld, aclNew, objDict)
         == Success(Extend(acc, port.networkId, [row], [Strip(n3)]))
  {
    DifferenceOfThirds(o1, o2, o3, n3);
    DifferenceOfThirds(o1, o2, n3, o3);
    assert Lost(port, aclOld, aclNew) == [o3];
    assert Gained(port, aclOld, aclNew) == [n3];
    assert [o3][..0] == [] && [n3][..0] == [];
    assert RowsOf([], objDict) == Success([]);
    assert [] + [row] == [row];
    assert RowsOf([o3], objDict) == Success([row]);
    assert StripAll([n3]) == [Strip(n3)];
  }

  /** The tables of the example hold what the test data says. */
  lemma ExampleTables()
    ensures PORT1.id in OldAcls() && OldAcls()[PORT1.id] == [OLD1_1, OLD1_2, OLD1_3]
    ensures PORT1.id in NewAcls() && NewAcls()[PORT1.id] == [OLD1_1, OLD1_2, NEW1_3]
    ensures PORT2.id in OldAcls() && OldAcls()[PORT2.id] == [OLD2_1, OLD2_2, OLD2_3]
    ensures PORT2.id in NewAcls() && NewAcls()[PORT2.id] == [OLD2_1, OLD2_2, NEW2_3]
    ensures OLD1_3 in ObjDict() && ObjDict()[OLD1_3] == RowOf("row3", OLD1_3)
    ensures OLD2_3 in ObjDict() && ObjDict()[OLD2_3] == RowOf("row6", OLD2_3)
  {
    ExampleKeysDiffer();
    assert OLD1_3.lport != OLD2_1.lport;
  }

  /** Extending an update that has not seen the switch starts both lists. */
  lemma ExtendUnseen(sw: string, rows: seq<AclRow>, entries: seq<AclEntry>)
    ensures Extend(AclUpdate(map[], map[]), sw, rows, entries) == AclUpdate(map[sw := rows], map[sw := entries])
  {
    var noRows: map<string, seq<AclRow>> := map[];
    var noEntries: map<string, seq<AclEntry>> := map[];
    assert [] + rows == rows && [] + entries == entries;
    assert noRows[sw := rows] == map[sw := rows];
    assert noEntries[sw := entries] == map[sw := entries];
  }

  /** Extending an update that has seen the switch appends to both lists. */
  lemma ExtendSeen(sw: string, rows: seq<AclRow>, entries: seq<AclEntry>, moreRows: seq<AclRow>, moreEntries: seq<AclEntry>)
    ensures Extend(AclUpdate(map[sw := rows], map[sw := entries]), sw, moreRows, moreEntries)
         == AclUpdate(map[sw := rows + moreRows], map[sw := entries + moreEntries])
  {
    assert map[sw := rows][sw := rows + moreRows] == map[sw := rows + moreRows];
    assert map[sw := entries][sw := entries + moreEntries] == map[sw := entries + moreEntries];
  }

  /** Two ports on one switch: the update holds, under that switch, the first
      port's rows and records followed by the second's. */
  lemma TwoPortsOnOneSwitch(p1: Port, p2: Port, aclOld: map<string, seq<AclKey>>,
                            aclNew: map<string, seq<AclKey>>, objDict: map<AclKey, AclRow>,
                            r1: seq<AclRow>, e1: seq<AclEntry>, r2: seq<AclRow>, e2: seq<AclEntry>)
    requires p1.networkId == p2.networkId
    requires PortStep(AclUpdate(map[], map[]), p1, aclOld, aclNew, objDict)
          == Success(Extend(AclUpdate(map[], map[]), p1.networkId, r1, e1))
    requires PortStep(AclUpdate(map[p1.networkId := r1], map[p1.networkId := e1]), p2, aclOld, aclNew, objDict)
          == Success(Extend(AclUpdate(map[p1.networkId := r1], map[p1.networkId := e1]), p1.networkId, r2, e2))
    ensures AclDifferences([p1, p2], aclOld, aclNew, objDict)
         == Success(AclUpdate(map[p1.networkId := r1 + r2], map[p1.networkId := e1 + e2]))
  {
    var ports := [p1, p2];
    assert ports[..1] == [p1];
    assert [p1][..0] == [];
    ExtendUnseen(p1.networkId, r1, e1);
    assert AclDifferences([p1], aclOld, aclNew, objDict)
        == Success(AclUpdate(map[p1.networkId := r1], map[p1.networkId := e1]));
    ExtendSeen(p1.networkId, r1, e1, r2, e2);
  }

  /** The first port's step: row3 is deleted and the new third record added. */
  lemma CompareModeFirstPort(aclOld: map<string, seq<AclKey>>, aclNew: map<string, seq<AclKey>>,
                             objDict: map<AclKey, AclRow>)
    requires aclOld == OldAcls() && aclNew == NewAcls() && objDict == ObjDict()
    ensures PortStep(AclUpdate(map[], map[]), PORT1, aclOld, aclNew, objDict)
         == Success(Extend(AclUpdate(map[], map[]), SWITCH, [RowOf("row3", OLD1_3)], [Strip(NEW1_3)]))
  {
    ExampleKeysDiffer();
    ExampleTables();
    ThirdRecordStep(AclUpdate(map[], map[]), PORT1, aclOld, aclNew, objDict, OLD1_1, OLD1_2, OLD1_3, NEW1_3, RowOf("row3", OLD1_3));
  }

  /** The second port's step: row6 is deleted and the new third record added. */
  lemma CompareModeSecondPort(acc: AclUpdate, aclOld: map<string, seq<AclKey>>, aclNew: map<string, seq<AclKey>>,
                              objDict: map<AclKey, AclRow>)
    requires aclOld == OldAcls() && aclNew == NewAcls() && objDict == ObjDict()
    ensures PortStep(acc, PORT2, aclOld, aclNew, objDict)
         == Success(Extend(acc, SWITCH, [RowOf("row6", OLD2_3)], [Strip(NEW2_3)]))
  {
    ExampleKeysDiffer();
    ExampleTables();
    ThirdRecordStep(acc, PORT2, aclOld, aclNew, objDict, OLD2_1, OLD2_2, OLD2_3, NEW2_3, RowOf("row6", OLD2_3));
  }

  /** Only the third record of each port changed: its old row is deleted and
      its new record added, stripped, under the network id. */
  lemma CompareModeExample(aclOld: map<string, seq<AclKey>>, aclNew: map<string, seq<AclKey>>,
                           objDict: map<AclKey, AclRow>)
    requires aclOld == OldAcls() && aclNew == NewAcls() && objDict == ObjDict()
    ensures AclDifferences([PORT1, PORT2], aclOld, aclNew, objDict)
         == Success(AclUpdate(map[SWITCH := [RowOf("row3", OLD1_3), RowOf("row6", OLD2_3)]],
                              map[SWITCH := [Strip(NEW1_3), Strip(NEW2_3)]]))
  {
    var r1, e1 := [RowOf("row3", OLD1_3)], [Strip(NEW1_3)];
    var r2, e2 := [RowOf("row6", OLD2_3)], [Strip(NEW2_3)];
    CompareModeFirstPort(aclOld, aclNew, objDict);
    CompareModeSecondPort(AclUpdate(map[SWITCH := r1], map[SWITCH := e1]), aclOld, aclNew, objDict);
    TwoPortsOnOneSwitch(PORT1, PORT2, aclOld, aclNew, objDict, r1, e1, r2, e2);
    assert r1 + r2 == [RowOf("row3", OLD1_3), RowOf("row6", OLD2_3)];
    assert e1 + e2 == [Strip(NEW1_3), Strip(NEW2_3)];
  }

  // The fast-path data: one supplied ICMP rule per port, and a switch holding
  // both of them and one more rule.
  const ENTRY1: AclEntry := AclEntry(1002, ToLport, "outport == port-id1 && ip4 && icmp4")
  const ENTRY2: AclEntry := AclEntry(1002, ToLport, "outport == port-id2 && ip4 && icmp4")
  const ROW1: AclRow := AclRow("acl1", "outport == port-id1 && ip4 && icmp4")
  const ROW2: AclRow := AclRow("acl2", "outport == port-id2 && ip4 && icmp4")
  const ROW3: AclRow := AclRow("acl3", "outport == port-id1 && ip4 && (ip4.src == fake_ip)")
  const LSWITCH: LSwitchRow := LSwitchRow("neutron-lswitch-1", [ROW1, ROW2, ROW3])

  function FastPathCommand(isAddAcl: bool): UpdateAclsCommand
  {
    UpdateAclsCommand([SWITCH], [PORT1, PORT2], map["port-id1" := ENTRY1, "port-id2" := ENTRY2], false, isAddAcl)
  }

  /** The named switch is found under its backend name. */
  lemma SwitchLookupExample()
    ensures SwitchRowsOf([SWITCH], map["neutron-lswitch-1" := LSWITCH]) == map["neutron-lswitch-1" := LSWITCH]
  {
    assert OvnNames([SWITCH]) == {"neutron-lswitch-1"} by {
      assert OvnName([SWITCH][0]) == "neutron-lswitch-1";
    }
  }

  /** Adding: nothing is deleted and both supplied rules are added, in port
      order, under the switch's backend name. */
  lemma FastPathAddExample()
    ensures NoCompareUpdate(FastPathCommand(true), map["neutron-lswitch-1" := LSWITCH])
         == UpdateData(map["neutron-lswitch-1" := LSWITCH], map[], map["neutron-lswitch-1" := [ENTRY1, ENTRY2]])
  {
    ExampleKeysDiffer();
    var values := map["port-id1" := ENTRY1, "port-id2" := ENTRY2];
    assert values["port-id1"] == ENTRY1 && values["port-id2"] == ENTRY2;
    var ports := [PORT1, PORT2];
    assert ports[..1] == [PORT1];
    assert [PORT1][..0] == [];
    assert OvnName(SWITCH) == "neutron-lswitch-1";
    assert AddValues([], values) == map[];
    assert PORT1.id in values && values[PORT1.id] == ENTRY1;
    assert OvnName(PORT1.networkId) == "neutron-lswitch-1";
    var one := AddValues([PORT1], values);
    var empty: map<string, seq<AclEntry>> := map[];
    assert [] + [ENTRY1] == [ENTRY1];
    assert one == empty["neutron-lswitch-1" := [ENTRY1]];
    assert PORT2.id in values && values[PORT2.id] == ENTRY2;
    assert OvnName(PORT2.networkId) == "neutron-lswitch-1";
    assert one["neutron-lswitch-1"] + [ENTRY2] == [ENTRY1, ENTRY2];
    assert AddValues(ports, values) == one["neutron-lswitch-1" := [ENTRY1, ENTRY2]];
  }

  /** Deleting: nothing is added and the two rows whose match is a supplied
      match are deleted; the third row is kept. */
  lemma FastPathDeleteExample()
    ensures NoCompareUpdate(FastPathCommand(false), map["neutron-lswitch-1" := LSWITCH])
         == UpdateData(map["neutron-lswitch-1" := LSWITCH], map["neutron-lswitch-1" := [ROW1, ROW2]], map[])
  {
    ExampleKeysDiffer();
    var values := map["port-id1" := ENTRY1, "port-id2" := ENTRY2];
    assert values["port-id1"] == ENTRY1 && values["port-id2"] == ENTRY2;
    var matches := DeleteMatches(values);
    assert ENTRY1.matchExpr in matches && ENTRY2.matchExpr in matches;
    assert matches <= {ENTRY1.matchExpr, ENTRY2.matchExpr};
    assert |ROW3.matchExpr| != |ENTRY1.matchExpr| && |ROW3.matchExpr| != |ENTRY2.matchExpr|;
    assert ROW3.matchExpr !in matches;
    var acls := [ROW1, ROW2, ROW3];
    assert acls[..2] == [ROW1, ROW2];
    assert [ROW1, ROW2][..1] == [ROW1];
    assert [ROW1][..0] == [];
    assert MatchingAcls([], matches) == [];
    assert MatchingAcls([ROW1], matches) == [ROW1];
    assert MatchingAcls([ROW1, ROW2], matches) == [ROW1, ROW2];
    assert MatchingAcls(acls, matches) == [ROW1, ROW2];
  }
}
