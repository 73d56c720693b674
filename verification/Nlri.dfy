/** Reachability information as it travels: a gobgp PathNLRI reduced to its text, its encoded
    size and its RFC 7911 Path Identifier. */
module Nlri {
  import opened Outcomes
  import opened PathKey

  type Family = nat

  const IPV4_UNICAST: Family := 0x0001_0001

  /** name is NLRI.String(), size the octets NLRI.Serialize() yields without a Path Identifier. */
  datatype PathNlri = PathNlri(name: string, size: nat, id: nat)

  /** The observed-set key of one inbound NLRI. */
  function KeyOf(addPath: bool, n: PathNlri): string {
    if addPath then PathString(n.name, n.id) else n.name
  }

  function KeysOf(addPath: bool, ns: seq<PathNlri>): seq<string> {
    seq(|ns|, i requires 0 <= i < |ns| => KeyOf(addPath, ns[i]))
  }

  /** With ADD-PATH receive two NLRI share a key only if they are the same prefix and path;
      without it the Path Identifier plays no part. */
  lemma KeyIdentifiesPath(addPath: bool, m: PathNlri, n: PathNlri)
    ensures KeyOf(addPath, m) == KeyOf(addPath, n)
       <==> m.name == n.name && (addPath ==> m.id == n.id)
  {
    if addPath && KeyOf(addPath, m) == KeyOf(addPath, n) {
      PathStringInjective(m.name, m.id, n.name, n.id);
    }
  }

  /** An NLRI of an IP prefix, as netip and gobgp print it, with a 4-octet Path Identifier. */
  ghost predicate IpNlri(n: PathNlri) { PrefixShaped(n.name) && n.id <= MAX_ID }

  /** The Path Identifier a key shows. */
  function ShownId(addPath: bool, n: PathNlri): Option<nat> { if addPath then Some(n.id) else None }

  /** A script that asks for what the receiver recorded gets exactly that key: without ADD-PATH receive
      the bare prefix, with it the prefix and the decimal Path Identifier. */
  lemma KeyIsWhatScriptsAskFor(n: PathNlri)
    requires IpNlri(n)
    ensures KeyOf(false, n) == n.name && SplitPathId(KeyOf(false, n)) == Ok(Split(n.name, ""))
    ensures SplitPathId(KeyOf(true, n)) == Ok(Split(n.name, ":" + Decimal(n.id)))
    ensures forall addPath :: SplitPathId(KeyOf(addPath, n)).value.base + SplitPathId(KeyOf(addPath, n)).value.suffix
                              == KeyOf(addPath, n)
  {
    SplitBare(n.name);
    PathIdRoundTrip(n.name, n.id);
    assert n.name + "" == n.name;
    assert n.name + (":" + Decimal(n.id)) == PathString(n.name, n.id);
  }
}
