/** The identity mapping between control-plane ids and backend row names.
    Logical switches and logical routers are named "neutron-" + the network or
    router id; logical router ports are named "lrp-" + the port id; logical switch
    ports carry the bare port id. */
module Identity {
  import opened Common

  /** Prefix of a logical switch or logical router name. */
  const NEUTRON_PREFIX: string := "neutron-"
  /** Prefix of a logical router port name. */
  const LRP_PREFIX: string := "lrp-"

  /** The backend name of the logical switch of a network, or of the logical
      router of a router. */
  function OvnName(id: string): string
  {
    NEUTRON_PREFIX + id
  }

  /** The backend name of the logical router port for a router interface port. */
  function OvnLrouterPortName(portId: string): string
  {
    LRP_PREFIX + portId
  }

  /** Whether a row name carries the prefix this system gives its own rows. */
  predicate Managed(prefix: string, name: string)
  {
    prefix <= name
  }

  /** Decoding of a managed row name: the id after the prefix; a name without the
      prefix is malformed and has no id. */
  function Decode(prefix: string, name: string): (id: Option<string>)
    ensures id.Some? <==> Managed(prefix, name)
    ensures id.Some? ==> name == prefix + id.value
  {
    if prefix <= name then Some(name[|prefix|..]) else None
  }

  /** Encoding then decoding gives the id back, and the encoding is one-to-one. */
  lemma DecodeEncode(prefix: string, id: string, other: string)
    ensures Decode(prefix, prefix + id) == Some(id)
    ensures prefix + id == prefix + other ==> id == other
  {
    assert (prefix + id)[|prefix|..] == id;
    if prefix + id == prefix + other {
      assert (prefix + other)[|prefix|..] == other;
    }
  }

  // ---------------------------------------------------------------------------
  // How the functional test turns row names back into ids.

  /** Python's str.replace(pat, ''): every non-overlapping occurrence of pat,
      scanning from the left, is removed. This is what the validation helpers
      apply to switch, router and router-port names. */
  function ReplaceAll(s: string, pat: string): string
    requires pat != []
    decreases |s|
  {
    if |s| < |pat| then s
    else if s[..|pat|] == pat then ReplaceAll(s[|pat|..], pat)
    else [s[0]] + ReplaceAll(s[1..], pat)
  }

  /** As written, decoding by ReplaceAll does not invert OvnName for an id that
      itself contains the prefix: the id "neutron-1" comes back as "1". */
  lemma ReplaceAllLosesId()
    ensures ReplaceAll(OvnName("neutron-1"), NEUTRON_PREFIX) == "1"
    ensures ReplaceAll(OvnName("neutron-1"), NEUTRON_PREFIX) != "neutron-1"
  {
    var s := OvnName("neutron-1");
    assert s == "neutron-neutron-1";
    assert s[..8] == NEUTRON_PREFIX;
    assert s[8..] == "neutron-1";
    assert s[8..][..8] == NEUTRON_PREFIX;
    assert s[8..][8..] == "1";
    assert ReplaceAll("1", NEUTRON_PREFIX) == "1";
  }

  /** The intended decoding: remove the prefix at the start of the name only;
      a name without the prefix is left as it is. */
  function StripPrefix(prefix: string, name: string): (id: string)
    ensures Managed(prefix, name) ==> name == prefix + id
    ensures !Managed(prefix, name) ==> id == name
  {
    if prefix <= name then name[|prefix|..] else name
  }

  /** The intended decoding inverts the encoding for every id. */
  lemma StripPrefixRoundTrip(prefix: string, id: string)
    ensures StripPrefix(prefix, prefix + id) == id
  {
    assert (prefix + id)[|prefix|..] == id;
  }

  /** The text of a UUID: hexadecimal digits and dashes. */
  predicate UuidText(id: string)
  {
    forall i :: 0 <= i < |id| ==> id[i] in "0123456789abcdef-"
  }

  /** A string in which the first character of the pattern never occurs holds no
      occurrence of the pattern, so ReplaceAll leaves it alone. */
  lemma {:induction false} ReplaceAllWithoutFirstChar(s: string, pat: string)
    requires pat != []
    requires forall i :: 0 <= i < |s| ==> s[i] != pat[0]
    ensures ReplaceAll(s, pat) == s
    decreases |s|
  {
    if |s| >= |pat| {
      assert s[..|pat|][0] == s[0] != pat[0];
      ReplaceAllWithoutFirstChar(s[1..], pat);
      assert [s[0]] + s[1..] == s;
    }
  }

  /** On UUID ids the written decoding and the intended one agree, for both
      prefixes: neither 'n' nor 'l' is a hexadecimal digit. */
  lemma ReplaceAllAgreesOnUuids(prefix: string, id: string)
    requires prefix == NEUTRON_PREFIX || prefix == LRP_PREFIX
    requires UuidText(id)
    ensures ReplaceAll(prefix + id, prefix) == StripPrefix(prefix, prefix + id) == id
  {
    var s := prefix + id;
    assert s[..|prefix|] == prefix;
    assert s[|prefix|..] == id;
    forall i | 0 <= i < |id|
      ensures id[i] != prefix[0]
    {
      assert id[i] in "0123456789abcdef-";
    }
    ReplaceAllWithoutFirstChar(id, prefix);
    StripPrefixRoundTrip(prefix, id);
  }
}
