/**
 * The named-frame data link base
 * (src/layers/layer2/protocols/DataLinkProtocolBase.ts), which the LACP and
 * PPP protocols extend. Its tag is the upper-cased protocol name; the
 * upper-casing itself is not modelled, so `tag` is given with the name.
 */
module DataLinkProtocolBase {
  import opened Strings
  import opened Tags

  datatype DataLinkProtocolBase = DataLinkProtocolBase(name: string, tag: string)

  /** The two subclasses, with their names upper-cased. */
  const Lacp: DataLinkProtocolBase :=
    DataLinkProtocolBase("Link Aggregation Control Protocol (LACP)", "LINK AGGREGATION CONTROL PROTOCOL (LACP)")
  const Ppp: DataLinkProtocolBase :=
    DataLinkProtocolBase("Point-to-Point Protocol (PPP)", "POINT-TO-POINT PROTOCOL (PPP)")

  /** The fixed addresses `analyzeFrame` reports. */
  const ExampleSource: string := "00:1A:2B:3C:4D:5E"
  const ExampleDestination: string := "00:5E:4D:3C:2B:1A"

  function Opener(p: DataLinkProtocolBase): string {
    p.tag + "_FRAME("
  }

  /** `encode(bits)`. */
  function Encode(p: DataLinkProtocolBase, bits: string): (frame: string)
    ensures frame == p.tag + "_FRAME(" + bits + ")"
  {
    Wrap(Opener(p), bits)
  }

  /** `decode(frame)`: the first `TAG_FRAME(` and then the first `)` are removed. */
  function Decode(p: DataLinkProtocolBase, frame: string): (bits: string)
    ensures |bits| <= |frame|
  {
    var r := Unwrap(Opener(p), frame);
    ReplaceFirstShortens(frame, Opener(p));
    ReplaceFirstShortens(ReplaceFirst(frame, Opener(p), ""), ")");
    r
  }

  /** Removing a pattern never lengthens a text. */
  lemma ReplaceFirstShortens(s: string, p: string)
    ensures |ReplaceFirst(s, p, "")| <= |s|
  {
    match IndexOf(s, p)
    case Some(i) =>
    case None =>
  }

  /** `validateFrame(frame)`: the tag without its parenthesis appears somewhere. */
  function ValidateFrame(p: DataLinkProtocolBase, frame: string): (ok: bool)
    ensures ok <==> exists i: nat :: i <= |frame| && OccursAt(frame, p.tag + "_FRAME", i)
  {
    Contains(frame, p.tag + "_FRAME")
  }

  datatype Metadata = Metadata(source: string, destination: string, data: string)

  /** `analyzeFrame(frame)`: fixed addresses and the decoded data. */
  function AnalyzeFrame(p: DataLinkProtocolBase, frame: string): (m: Metadata)
    ensures m.source == ExampleSource && m.destination == ExampleDestination
    ensures m.data == Decode(p, frame)
  {
    Metadata(ExampleSource, ExampleDestination, Decode(p, frame))
  }

  /** Decoding undoes encoding for bits without `)`, whatever the tag holds. */
  lemma DecodeEncode(p: DataLinkProtocolBase, x: string)
    requires ')' !in x
    ensures Decode(p, Encode(p, x)) == x
  {
    UnwrapWrap(Opener(p), x);
  }

  /** Every encoded frame validates. */
  lemma ValidateEncoded(p: DataLinkProtocolBase, x: string)
    ensures ValidateFrame(p, Encode(p, x))
  {
    var frame := Encode(p, x);
    var t := p.tag + "_FRAME";
    assert frame[0..|t|] == t;
    assert OccursAt(frame, t, 0);
  }

  /** The parentheses in the LACP tag do not upset the round trip. */
  lemma LacpDecodeEncode(x: string)
    requires ')' !in x
    ensures ')' in Lacp.tag
    ensures Decode(Lacp, Encode(Lacp, x)) == x
  {
    assert Lacp.tag[39] == ')';
    DecodeEncode(Lacp, x);
  }
}

/**
 * The protocols a data link layer can hold: Ethernet, Wi-Fi, MPLS and VLAN
 * (src/layers/layer2/protocols/Ethernet.ts, WIFI.ts, MPLS.ts, VLAN.ts,
 * identical up to their opener) and the named-frame base.
 */
module DataLinkProtocols {
  import opened Strings
  import opened Tags
  import DataLinkProtocolBase

  datatype DataLinkProtocol =
    | Ethernet
    | WiFi
    | Mpls
    | Vlan
    | Framed(base: DataLinkProtocolBase.DataLinkProtocolBase)

  function Name(p: DataLinkProtocol): string {
    match p
    case Ethernet => "Ethernet"
    case WiFi => "Wi-Fi"
    case Mpls => "MPLS"
    case Vlan => "VLAN"
    case Framed(b) => b.name
  }

  /** The opener each protocol writes; Wi-Fi's is not derived from its name. */
  function Opener(p: DataLinkProtocol): string {
    match p
    case Ethernet => "ETHERNET_FRAME("
    case WiFi => "WIFI_FRAME("
    case Mpls => "MPLS_LABEL("
    case Vlan => "VLAN_TAG("
    case Framed(b) => DataLinkProtocolBase.Opener(b)
  }

  /** `encode(bits)`. */
  function Encode(p: DataLinkProtocol, bits: string): (frame: string)
    ensures frame == Opener(p) + bits + ")"
    ensures p.Framed? ==> frame == DataLinkProtocolBase.Encode(p.base, bits)
  {
    Wrap(Opener(p), bits)
  }

  /** `decode(frame)`: `frame.replace(OPENER, "").replace(")", "")`. */
  function Decode(p: DataLinkProtocol, frame: string): (bits: string)
    ensures p.Framed? ==> bits == DataLinkProtocolBase.Decode(p.base, frame)
  {
    Unwrap(Opener(p), frame)
  }

  lemma DecodeEncode(p: DataLinkProtocol, x: string)
    requires ')' !in x
    ensures Decode(p, Encode(p, x)) == x
  {
    UnwrapWrap(Opener(p), x);
  }

  /** Bits holding a `)` lose their first `)`, and the frame's own `)` stays at the end. */
  lemma DecodeEncodeParen(p: DataLinkProtocol, a: string, b: string)
    requires ')' !in a
    ensures Decode(p, Encode(p, a + ")" + b)) == a + b + ")"
  {
    UnwrapWrapParen(Opener(p), a, b);
  }

  /** Text with neither the opener nor a `)` passes unchanged. */
  lemma DecodeUntagged(p: DataLinkProtocol, frame: string)
    requires !Contains(frame, Opener(p)) && ')' !in frame
    ensures Decode(p, frame) == frame
  {
    UnwrapIdentity(Opener(p), frame);
  }
}

/**
 * The data link layer (src/layers/layer2/DataLinkLayer.ts): a protocol and
 * two MAC addresses written in front of the bits as
 * `SRC=source, DEST=destination, `.
 */
module DataLinkLayer {
  import opened Wrappers
  import opened Strings
  import opened Patterns
  import opened DataLinkProtocols

  datatype DataLinkLayer = DataLinkLayer(protocol: DataLinkProtocol, macAddressSource: string, macAddressDestination: string)

  const DefaultSource: string := "00:00:00:00:00:01"
  const DefaultDestination: string := "00:00:00:00:00:02"

  /** `new DataLinkLayer(protocol, source = ..., destination = ...)`. */
  function Init(protocol: DataLinkProtocol, source: Option<string>, destination: Option<string>): (s: DataLinkLayer)
    ensures s.protocol == protocol
    ensures s.macAddressSource == if source.Some? then source.value else DefaultSource
    ensures s.macAddressDestination == if destination.Some? then destination.value else DefaultDestination
  {
    DataLinkLayer(protocol, source.GetOr(DefaultSource), destination.GetOr(DefaultDestination))
  }

  function SetProtocol(s: DataLinkLayer, protocol: DataLinkProtocol): (s': DataLinkLayer)
    ensures s'.protocol == protocol
    ensures s'.macAddressSource == s.macAddressSource && s'.macAddressDestination == s.macAddressDestination
  {
    s.(protocol := protocol)
  }

  function SetSourceMAC(s: DataLinkLayer, mac: string): (s': DataLinkLayer)
    ensures s'.macAddressSource == mac
    ensures s'.protocol == s.protocol && s'.macAddressDestination == s.macAddressDestination
  {
    s.(macAddressSource := mac)
  }

  function SetDestinationMAC(s: DataLinkLayer, mac: string): (s': DataLinkLayer)
    ensures s'.macAddressDestination == mac
    ensures s'.protocol == s.protocol && s'.macAddressSource == s.macAddressSource
  {
    s.(macAddressDestination := mac)
  }

  /** `SRC=source, DEST=destination, `. */
  function MacHeader(source: string, destination: string): string {
    SrcTag + source + DestTag + destination + Separator
  }

  lemma MacHeaderHasNoParen(source: string, destination: string)
    requires ')' !in source && ')' !in destination
    ensures ')' !in MacHeader(source, destination)
  {
  }

  /** `encode(bits)`. */
  function Encode(s: DataLinkLayer, bits: string): (frame: string)
    ensures frame == DataLinkProtocols.Encode(s.protocol, MacHeader(s.macAddressSource, s.macAddressDestination) + bits)
  {
    DataLinkProtocols.Encode(s.protocol, MacHeader(s.macAddressSource, s.macAddressDestination) + bits)
  }

  /** `decode(frame)`: the protocol's decoding, then the first lazy `SRC=.*?, DEST=.*?, ` is cut. */
  function Decode(s: DataLinkLayer, frame: string): (bits: string)
    ensures var raw := DataLinkProtocols.Decode(s.protocol, frame);
      (forall j: nat, q: nat, k: nat :: !MacHeaderAt(raw, j, q, k)) ==> bits == raw
  {
    CutMacHeader(DataLinkProtocols.Decode(s.protocol, frame))
  }

  /** Addresses the MAC pattern reads back exactly: one line, no comma, no `)`. */
  predicate PlainAddress(mac: string) {
    SingleLine(mac) && ',' !in mac && ')' !in mac
  }

  /** Decoding undoes encoding for bits without `)` and plain addresses. */
  lemma DecodeEncode(s: DataLinkLayer, x: string)
    requires PlainAddress(s.macAddressSource) && PlainAddress(s.macAddressDestination)
    requires ')' !in x
    ensures Decode(s, Encode(s, x)) == x
  {
    var src, dst := s.macAddressSource, s.macAddressDestination;
    var raw := MacHeader(src, dst) + x;
    DataLinkProtocols.DecodeEncode(s.protocol, raw);
    CutMacHeaderFront(src, dst, x);
  }

  lemma DefaultsArePlain()
    ensures PlainAddress(DefaultSource) && PlainAddress(DefaultDestination)
  {
  }

  /** With the default addresses, every protocol's frame decodes back to bits without `)`. */
  lemma DefaultDecodeEncode(p: DataLinkProtocol, x: string)
    requires ')' !in x
    ensures var s := Init(p, None, None); Decode(s, Encode(s, x)) == x
  {
    DefaultsArePlain();
    DecodeEncode(Init(p, None, None), x);
  }
}
