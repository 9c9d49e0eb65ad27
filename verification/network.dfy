/**
 * The header-carrying network protocol base
 * (src/layers/layer3/protocols/NetworkProtocolBase.ts). The header record
 * enters the packet only as `JSON.stringify(header)`, kept here as the
 * opaque text `header`.
 */
module NetworkProtocolBase {
  import opened Strings
  import opened Patterns
  import Tags

  datatype NetworkProtocolBase = NetworkProtocolBase(name: string, header: string)

  /** `NAME_HEADER(`, the literal start of the pattern `NAME_HEADER\((.+?)\|`. */
  function Opener(p: NetworkProtocolBase): string {
    p.name + "_HEADER("
  }

  /** A serialized header the lazy group reads exactly: non-empty, one line, no `|`. */
  predicate HeaderReadable(p: NetworkProtocolBase) {
    |p.header| > 0 && SingleLine(p.header) && '|' !in p.header
  }

  /** `addRoutingInfo(data)`. */
  function AddRoutingInfo(p: NetworkProtocolBase, data: string): (packet: string)
    ensures |packet| == |Opener(p)| + |p.header| + |data| + 2
    ensures packet[..|Opener(p)|] == Opener(p) && packet[|packet| - 1] == ')'
    ensures packet == Opener(p) + p.header + "|" + data + ")"
  {
    Opener(p) + p.header + "|" + data + ")"
  }

  /** `.replace(/\)$/, "")`: without the `m` flag, `$` is only the end of the text. */
  function DropFinalParen(s: string): (r: string)
    ensures |s| > 0 && s[|s| - 1] == ')' ==> s == r + ")"
    ensures |s| == 0 || s[|s| - 1] != ')' ==> r == s
  {
    if |s| > 0 && s[|s| - 1] == ')' then s[..|s| - 1] else s
  }

  /** `removeRoutingInfo(packet)`: cut the leftmost lazy header match, then one final `)`. */
  function RemoveRoutingInfo(p: NetworkProtocolBase, packet: string): (r: string)
    ensures (forall i: nat, q: nat :: !CaptureAt(packet, Opener(p), "|", i, q)) ==> r == DropFinalParen(packet)
    ensures |r| <= |packet|
  {
    DropFinalParen(LazyCut(packet, Opener(p), "|"))
  }

  /** Removing the routing information gives back any data, `)` and `|` included. */
  lemma RemoveAdd(p: NetworkProtocolBase, x: string)
    requires HeaderReadable(p)
    ensures RemoveRoutingInfo(p, AddRoutingInfo(p, x)) == x
  {
    Tags.OpenerFirst(Opener(p));
    assert AddRoutingInfo(p, x) == "" + Opener(p) + p.header + ['|'] + (x + ")");
    LazyCutWrapped("", Opener(p), p.header, '|', x + ")");
    assert "" + (x + ")") == x + ")";
  }
}

/**
 * The network protocols a network layer can hold: the tag-wrapped IPv4,
 * IPv6 and ICMP (src/layers/layer3/protocols/IPv4.ts, IPv6.ts, ICMP.ts,
 * identical up to their tag) and any protocol built on the header base.
 */
module NetworkProtocols {
  import opened Strings
  import Tags
  import NetworkProtocolBase

  datatype NetworkProtocol =
    | IPv4
    | IPv6
    | ICMP
    | Headered(base: NetworkProtocolBase.NetworkProtocolBase)

  function Name(p: NetworkProtocol): string {
    match p
    case IPv4 => "IPv4"
    case IPv6 => "IPv6"
    case ICMP => "ICMP"
    case Headered(b) => b.name
  }

  /** `IPv4_HEADER(`, `IPv6_HEADER(`, `ICMP_HEADER(`. */
  function Tag(p: NetworkProtocol): string
    requires !p.Headered?
  {
    Name(p) + "_HEADER("
  }

  /** `addRoutingInfo(data)`. */
  function AddRoutingInfo(p: NetworkProtocol, data: string): (packet: string)
    ensures !p.Headered? ==> packet == Tag(p) + data + ")"
    ensures p.Headered? ==> packet == NetworkProtocolBase.AddRoutingInfo(p.base, data)
  {
    match p
    case Headered(b) => NetworkProtocolBase.AddRoutingInfo(b, data)
    case _ => Tags.Wrap(Tag(p), data)
  }

  /** `removeRoutingInfo(packet)`: for the tagged three, `replace(TAG, "").replace(")", "")`. */
  function RemoveRoutingInfo(p: NetworkProtocol, packet: string): (r: string)
    ensures p.Headered? ==> r == NetworkProtocolBase.RemoveRoutingInfo(p.base, packet)
  {
    match p
    case Headered(b) => NetworkProtocolBase.RemoveRoutingInfo(b, packet)
    case _ => Tags.Unwrap(Tag(p), packet)
  }

  /** The data whose routing information comes off cleanly under `p`. */
  predicate RoundTrips(p: NetworkProtocol, x: string) {
    if p.Headered? then NetworkProtocolBase.HeaderReadable(p.base) else ')' !in x
  }

  lemma RemoveAdd(p: NetworkProtocol, x: string)
    requires RoundTrips(p, x)
    ensures RemoveRoutingInfo(p, AddRoutingInfo(p, x)) == x
  {
    match p
    case Headered(b) => NetworkProtocolBase.RemoveAdd(b, x);
    case _ => Tags.UnwrapWrap(Tag(p), x);
  }

  /**
   * For the tagged three, data holding a `)` loses its first `)`, and the
   * frame's own closing `)` is left at the end.
   */
  lemma RemoveAddParen(p: NetworkProtocol, a: string, b: string)
    requires !p.Headered? && ')' !in a
    ensures RemoveRoutingInfo(p, AddRoutingInfo(p, a + ")" + b)) == a + b + ")"
  {
    Tags.UnwrapWrapParen(Tag(p), a, b);
  }

  /** For the tagged three, text with neither the tag nor a `)` passes unchanged. */
  lemma RemoveUntagged(p: NetworkProtocol, packet: string)
    requires !p.Headered? && !Contains(packet, Tag(p)) && ')' !in packet
    ensures RemoveRoutingInfo(p, packet) == packet
  {
    Tags.UnwrapIdentity(Tag(p), packet);
  }
}

/**
 * The network layer (src/layers/layer3/NetworkLayer.ts): a protocol and a
 * destination address written in front of the data as `DestIP=ip, `.
 */
module NetworkLayer {
  import opened Wrappers
  import opened NetworkProtocols

  datatype NetworkLayer = NetworkLayer(protocol: NetworkProtocol, destinationIP: string)

  const DefaultIP: string := "127.0.0.1"

  /** `new NetworkLayer(protocol, destinationIP = "127.0.0.1")`. */
  function Init(protocol: NetworkProtocol, ip: Option<string>): (s: NetworkLayer)
    ensures s.protocol == protocol
    ensures ip.None? ==> s.destinationIP == DefaultIP
    ensures ip.Some? ==> s.destinationIP == ip.value
  {
    NetworkLayer(protocol, ip.GetOr(DefaultIP))
  }

  function SetProtocol(s: NetworkLayer, protocol: NetworkProtocol): (s': NetworkLayer)
    ensures s'.protocol == protocol && s'.destinationIP == s.destinationIP
  {
    s.(protocol := protocol)
  }

  function SetDestinationIP(s: NetworkLayer, ip: string): (s': NetworkLayer)
    ensures s'.destinationIP == ip && s'.protocol == s.protocol
  {
    s.(destinationIP := ip)
  }

  function GetDestinationIP(s: NetworkLayer): (ip: string)
    ensures ip == s.destinationIP
  {
    s.destinationIP
  }

  /** `DestIP=ip, `: the address tag in front of the data. */
  function AddressTag(ip: string): string {
    "DestIP=" + ip + ", "
  }

  /** `addRoutingInfo(data)`. */
  function AddRoutingInfo(s: NetworkLayer, data: string): (packet: string)
    ensures packet == NetworkProtocols.AddRoutingInfo(s.protocol, AddressTag(s.destinationIP) + data)
  {
    NetworkProtocols.AddRoutingInfo(s.protocol, AddressTag(s.destinationIP) + data)
  }

  /** `removeRoutingInfo(packet)`: the protocol's removal alone. */
  function RemoveRoutingInfo(s: NetworkLayer, packet: string): (r: string)
    ensures r == NetworkProtocols.RemoveRoutingInfo(s.protocol, packet)
  {
    NetworkProtocols.RemoveRoutingInfo(s.protocol, packet)
  }

  /** The layer never strips its own address tag: the round trip keeps `DestIP=ip, `. */
  lemma RemoveAdd(s: NetworkLayer, x: string)
    requires s.protocol.Headered? ==> NetworkProtocolBase.HeaderReadable(s.protocol.base)
    requires !s.protocol.Headered? ==> ')' !in s.destinationIP && ')' !in x
    ensures RemoveRoutingInfo(s, AddRoutingInfo(s, x)) == AddressTag(s.destinationIP) + x
  {
    NetworkProtocols.RemoveAdd(s.protocol, AddressTag(s.destinationIP) + x);
  }
}
