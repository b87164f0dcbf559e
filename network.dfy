/**
 * `utils.getIpAddress` of lib/utils.ts: scan the address entries of one named
 * interface and keep the address of the last entry of the requested family.
 * The table `os.networkInterfaces()` returns is a parameter.
 */
module Network {
  import opened Wrappers

  /** One entry of an interface's address list (the fields the lookup reads). */
  datatype AddressInfo = AddressInfo(family: string, address: string)

  /** Interface name to its address entries. */
  type InterfaceTable = map<string, seq<AddressInfo>>

  const DefaultFamily := "IPv4"

  /** `type || "IPv4"`: a missing or empty family means IPv4. */
  function FamilyOrDefault(family: Option<string>): (f: string)
    ensures f != ""
    ensures family.Some? && family.value != "" ==> f == family.value
    ensures family.None? || family.value == "" ==> f == DefaultFamily
  {
    if family.None? || family.value == "" then DefaultFamily else family.value
  }

  /** `networkInterfaces()[name] || []`: an absent interface has no entries. */
  function EntriesOf(table: InterfaceTable, name: string): (entries: seq<AddressInfo>)
    ensures name !in table ==> entries == []
    ensures name in table ==> entries == table[name]
  {
    if name in table then table[name] else []
  }

  /** Reference definition: the address of the last entry of `family`, looking from the end. */
  function LastAddress(entries: seq<AddressInfo>, family: string): (r: Option<string>)
    ensures r.Some? ==> AddressInfo(family, r.value) in entries
    decreases |entries|
  {
    if entries == [] then None
    else if entries[|entries| - 1].family == family then Some(entries[|entries| - 1].address)
    else LastAddress(entries[..|entries| - 1], family)
  }

  method GetIpAddress(table: InterfaceTable, interfaceName: string, family: Option<string>)
    returns (address: Option<string>)
    ensures address == LastAddress(EntriesOf(table, interfaceName), FamilyOrDefault(family))
  {
    address := None;
    var wanted := FamilyOrDefault(family);
    var ni := EntriesOf(table, interfaceName);
    var i := 0;
    while i < |ni|
      invariant 0 <= i <= |ni|
      invariant address == LastAddress(ni[..i], wanted)
    {
      var nif := ni[i];
      if nif.family == wanted {
        address := Some(nif.address);
      }
      assert ni[..i + 1][..i] == ni[..i];
      i := i + 1;
    }
    assert ni[..|ni|] == ni;
  }

  /** Entry `j` has the family and address `a`, and no later entry has the family. */
  ghost predicate LastOfFamilyAt(entries: seq<AddressInfo>, family: string, j: int, a: string)
  {
    0 <= j < |entries| && entries[j].family == family && entries[j].address == a &&
    forall k :: j < k < |entries| ==> entries[k].family != family
  }

  lemma {:induction false} LastAddressFound(entries: seq<AddressInfo>, family: string)
    requires LastAddress(entries, family).Some?
    ensures exists j :: LastOfFamilyAt(entries, family, j, LastAddress(entries, family).value)
    decreases |entries|
  {
    var n := |entries| - 1;
    var a := LastAddress(entries, family).value;
    if entries[n].family == family {
      assert LastOfFamilyAt(entries, family, n, a);
    } else {
      var init := entries[..n];
      LastAddressFound(init, family);
      var j :| LastOfFamilyAt(init, family, j, a);
      assert entries[j] == init[j];
      assert forall k :: j < k < n ==> entries[k] == init[k];
      assert LastOfFamilyAt(entries, family, j, a);
    }
  }

  lemma {:induction false} LastAddressReturnsLast(entries: seq<AddressInfo>, family: string, j: int, a: string)
    requires LastOfFamilyAt(entries, family, j, a)
    ensures LastAddress(entries, family) == Some(a)
    decreases |entries|
  {
    var n := |entries| - 1;
    if j < n {
      var init := entries[..n];
      assert entries[n].family != family;
      assert init[j] == entries[j];
      assert forall k :: j < k < n ==> init[k] == entries[k];
      LastAddressReturnsLast(init, family, j, a);
    }
  }

  /** The result names the last entry of the family: it has that family and none after it does. */
  lemma LastAddressIsLastMatch(entries: seq<AddressInfo>, family: string, a: string)
    ensures LastAddress(entries, family) == Some(a) <==> exists j :: LastOfFamilyAt(entries, family, j, a)
  {
    if LastAddress(entries, family) == Some(a) {
      LastAddressFound(entries, family);
    }
    if exists j :: LastOfFamilyAt(entries, family, j, a) {
      var j :| LastOfFamilyAt(entries, family, j, a);
      LastAddressReturnsLast(entries, family, j, a);
    }
  }

  /** No result exactly when no entry has the family. */
  lemma {:induction false} LastAddressNone(entries: seq<AddressInfo>, family: string)
    ensures LastAddress(entries, family) == None <==> forall j :: 0 <= j < |entries| ==> entries[j].family != family
    decreases |entries|
  {
    if entries != [] {
      var n := |entries| - 1;
      LastAddressNone(entries[..n], family);
      assert forall j :: 0 <= j < n ==> entries[..n][j] == entries[j];
    }
  }

  /** An interface missing from the table yields null, whatever the family. */
  lemma AbsentInterfaceHasNoAddress(table: InterfaceTable, name: string, family: Option<string>)
    requires name !in table
    ensures LastAddress(EntriesOf(table, name), FamilyOrDefault(family)) == None
  {
  }

  /** Omitting the family, or passing "", is the same as asking for IPv4. */
  lemma DefaultFamilyIsIPv4(table: InterfaceTable, name: string)
    ensures LastAddress(EntriesOf(table, name), FamilyOrDefault(None)) ==
            LastAddress(EntriesOf(table, name), FamilyOrDefault(Some("IPv4")))
    ensures LastAddress(EntriesOf(table, name), FamilyOrDefault(Some(""))) ==
            LastAddress(EntriesOf(table, name), FamilyOrDefault(Some("IPv4")))
  {
  }

  /** Two IPv4 entries on eth0: the second one wins; an IPv6 entry after them does not interfere. */
  lemma LastOfTwoIPv4Wins(first: string, second: string, v6: string)
    ensures LastAddress(EntriesOf(map["eth0" := [AddressInfo("IPv4", first), AddressInfo("IPv4", second),
                                                 AddressInfo("IPv6", v6)]], "eth0"), "IPv4") == Some(second)
  {
    var es := [AddressInfo("IPv4", first), AddressInfo("IPv4", second), AddressInfo("IPv6", v6)];
    assert es[..2] == [AddressInfo("IPv4", first), AddressInfo("IPv4", second)];
  }
}
