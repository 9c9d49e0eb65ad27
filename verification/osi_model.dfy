/**
 * The simulator (src/osi-model.ts): six layers held together. `transmit`
 * pushes data down the stack and hands the resulting bits to `receive`,
 * which pulls them back up. The application layer's `sendData` returns
 * its argument and its `receiveData` only logs, so it appears inline.
 */
module OsiModel {
  import opened Wrappers
  import opened Strings
  import opened Patterns
  import Tags
  import PhysicalLayer
  import DataLinkProtocols
  import DataLinkLayer
  import NetworkProtocols
  import NetworkLayer
  import DataField
  import Tcp
  import Udp
  import TransportLayer
  import SessionLayer
  import PresentationLayer

  /**
   * The layers. The pipeline tests the session object for `null`, so it is
   * an option here; the constructor always assigns it.
   */
  datatype OsiModel = OsiModel(
    physical: PhysicalLayer.PhysicalLayer,
    dataLink: DataLinkLayer.DataLinkLayer,
    network: NetworkLayer.NetworkLayer,
    transport: TransportLayer.TransportLayer,
    session: Option<SessionLayer.SessionLayer>,
    presentation: PresentationLayer.PresentationLayer)

  /** `new OSIModel(transportProtocol, dataLinkProtocol, networkProtocol)`: every other setting is a default. */
  function Init(
    transportProtocol: TransportLayer.Protocol,
    dataLinkProtocol: DataLinkProtocols.DataLinkProtocol,
    networkProtocol: NetworkProtocols.NetworkProtocol): (m: OsiModel)
    ensures m.physical.transmissionErrorRate == 0.0
    ensures m.dataLink.protocol == dataLinkProtocol
    ensures m.dataLink.macAddressSource == DataLinkLayer.DefaultSource
    ensures m.dataLink.macAddressDestination == DataLinkLayer.DefaultDestination
    ensures m.network.protocol == networkProtocol && m.network.destinationIP == NetworkLayer.DefaultIP
    ensures m.transport.protocol == transportProtocol && m.transport.port == 0
    ensures m.session.Some? && !m.session.value.activeSession
    ensures m.presentation.encodingFormat == PresentationLayer.DefaultFormat
    ensures !PresentationLayer.HasKey(m.presentation)
  {
    OsiModel(
      PhysicalLayer.Init(None),
      DataLinkLayer.Init(dataLinkProtocol, None, None),
      NetworkLayer.Init(networkProtocol, None),
      TransportLayer.Init(transportProtocol, None),
      Some(SessionLayer.Init()),
      PresentationLayer.Init(None, None))
  }

  /** The layers other than transport are those of `m`. */
  predicate SameButTransport(m: OsiModel, m': OsiModel) {
    m'.physical == m.physical && m'.dataLink == m.dataLink && m'.network == m.network
    && m'.session == m.session && m'.presentation == m.presentation
  }

  function SetTransportProtocol(m: OsiModel, p: TransportLayer.Protocol): (m': OsiModel)
    ensures m'.transport.protocol == p && m'.transport.port == m.transport.port
    ensures SameButTransport(m, m')
  {
    m.(transport := TransportLayer.SetProtocol(m.transport, p))
  }

  function SetDataLinkProtocol(m: OsiModel, p: DataLinkProtocols.DataLinkProtocol): (m': OsiModel)
    ensures m'.dataLink.protocol == p
    ensures m'.dataLink.macAddressSource == m.dataLink.macAddressSource
    ensures m'.dataLink.macAddressDestination == m.dataLink.macAddressDestination
    ensures m'.physical == m.physical && m'.network == m.network && m'.transport == m.transport
    ensures m'.session == m.session && m'.presentation == m.presentation
  {
    m.(dataLink := DataLinkLayer.SetProtocol(m.dataLink, p))
  }

  function SetNetworkProtocol(m: OsiModel, p: NetworkProtocols.NetworkProtocol): (m': OsiModel)
    ensures m'.network.protocol == p && m'.network.destinationIP == m.network.destinationIP
    ensures m'.physical == m.physical && m'.dataLink == m.dataLink && m'.transport == m.transport
    ensures m'.session == m.session && m'.presentation == m.presentation
  {
    m.(network := NetworkLayer.SetProtocol(m.network, p))
  }

  function SetEncryptionKey(m: OsiModel, key: string): (m': OsiModel)
    ensures m'.presentation.encryptionKey == Some(key)
    ensures m'.presentation.encodingFormat == m.presentation.encodingFormat
    ensures m'.physical == m.physical && m'.dataLink == m.dataLink && m'.network == m.network
    ensures m'.transport == m.transport && m'.session == m.session
  {
    m.(presentation := PresentationLayer.SetEncryptionKey(m.presentation, key))
  }

  /** `startSession()`; `suffix` stands for the drawn session id digits. */
  function StartSession(m: OsiModel, suffix: string): (m': OsiModel)
    requires m.session.Some?
    ensures m'.session.Some? && m'.session.value.activeSession
    ensures m'.physical == m.physical && m'.dataLink == m.dataLink && m'.network == m.network
    ensures m'.transport == m.transport && m'.presentation == m.presentation
  {
    m.(session := Some(SessionLayer.StartSession(m.session.value, suffix)))
  }

  /** `endSession()`. */
  function EndSession(m: OsiModel): (m': OsiModel)
    requires m.session.Some?
    ensures m'.session.Some? && !m'.session.value.activeSession
    ensures m'.physical == m.physical && m'.dataLink == m.dataLink && m'.network == m.network
    ensures m'.transport == m.transport && m'.presentation == m.presentation
  {
    m.(session := Some(SessionLayer.EndSession(m.session.value)))
  }

  /** The two `Math.random()` values a transmission may draw: the error roll and the index pick. */
  datatype Draws = Draws(roll: PhysicalLayer.Draw, pick: PhysicalLayer.Draw)

  /**
   * What `transmit` leaves behind: the state after TCP advanced its
   * counter, the bits handed to `receive` and the text handed to the
   * application; `None` where the session guard returned early.
   */
  datatype Outcome = Outcome(model: OsiModel, bits: Option<string>, delivered: Option<string>)

  /** `receive(bits)`: the text the application layer is handed, or `None` when the guard returns. */
  function Receive(m: OsiModel, bits: string): (delivered: Option<string>)
    ensures delivered.Some? <==> m.session.Some?
  {
    var frame := DataLinkLayer.Decode(m.dataLink, bits);
    var packet := NetworkLayer.RemoveRoutingInfo(m.network, frame);
    var segment := TransportLayer.Receive(m.transport, packet);
    var encryptedData := segment;
    if m.session.None? then None
    else
      var decodedData := PresentationLayer.Decrypt(m.presentation, encryptedData);
      var rawData := PresentationLayer.Decode(m.presentation, decodedData);
      Some(rawData)
  }

  /** `transmit(data)` with its draws. */
  function Transmit(m: OsiModel, data: string, d: Draws): (o: Outcome)
    ensures o.bits.Some? <==> m.session.Some?
    ensures o.bits.Some? ==> o.delivered == Receive(o.model, o.bits.value)
    ensures o.bits.None? ==> o.delivered.None? && o.model == m
    ensures SameButTransport(m, o.model)
    ensures o.model.transport.port == m.transport.port
    ensures m.transport.protocol.Udp? ==> o.model.transport == m.transport
    ensures m.transport.protocol.Tcp? ==> o.model.transport.protocol.Tcp?
    ensures m.transport.protocol.Tcp? && o.bits.Some? ==>
      o.model.transport.protocol.tcp.sequenceNumber == m.transport.protocol.tcp.sequenceNumber + 1
  {
    var applicationData := data;
    var encodedData := PresentationLayer.Encode(m.presentation, applicationData);
    var encryptedData := PresentationLayer.Encrypt(m.presentation, encodedData);
    if m.session.None? then Outcome(m, None, None)
    else
      var (transport', segment) := TransportLayer.Send(m.transport, encryptedData, None);
      var packet := NetworkLayer.AddRoutingInfo(m.network, segment);
      var frame := DataLinkLayer.Encode(m.dataLink, packet);
      var bits := PhysicalLayer.Transmit(m.physical, frame, d.roll, PhysicalLayer.ErrorIndex(d.pick, |frame|));
      var m' := m.(transport := transport');
      Outcome(m', Some(bits), Receive(m', bits))
  }

  /** The frame `transmit` hands the physical layer. */
  function Frame(m: OsiModel, data: string): string {
    var encrypted := PresentationLayer.Encrypt(m.presentation, PresentationLayer.Encode(m.presentation, data));
    DataLinkLayer.Encode(m.dataLink, NetworkLayer.AddRoutingInfo(m.network, TransportLayer.Send(m.transport, encrypted, None).1))
  }

  /**
   * The bits are the physical layer's rendering of the frame: the frame
   * itself when the roll is not below the error rate, and the frame with
   * one flipped position otherwise.
   */
  lemma TransmitBits(m: OsiModel, data: string, d: Draws)
    requires m.session.Some?
    ensures var o := Transmit(m, data, d); var frame := Frame(m, data);
      o.bits.Some? && |frame| > 0
      && (d.roll >= m.physical.transmissionErrorRate ==> o.bits.value == frame)
      && (d.roll < m.physical.transmissionErrorRate ==>
            |o.bits.value| == |frame| && o.bits.value[PhysicalLayer.ErrorIndex(d.pick, |frame|)] != frame[PhysicalLayer.ErrorIndex(d.pick, |frame|)])
  {
  }

  /** Receiving reads nothing from the physical layer and nothing from the session but its presence. */
  lemma ReceiveIgnoresPhysicalAndSession(m: OsiModel, bits: string, p: PhysicalLayer.PhysicalLayer, s: SessionLayer.SessionLayer)
    requires m.session.Some?
    ensures Receive(m.(physical := p, session := Some(s)), bits) == Receive(m, bits)
  {
  }

  /** Whether a session was started or ended makes no difference to a transmission. */
  lemma TransmitIgnoresSessionState(m: OsiModel, data: string, d: Draws, s: SessionLayer.SessionLayer)
    requires m.session.Some?
    ensures var o := Transmit(m, data, d); var o' := Transmit(m.(session := Some(s)), data, d);
      o'.bits == o.bits && o'.delivered == o.delivered
  {
  }

  /** The SSH service's fixed port (`getPort()` in src/ports/SSH.ts). */
  const SshPort: int := 22

  /**
   * `useSSH(data)`: an SSH service built over the simulator's own
   * transport, network, data link and physical layers sends `data` from
   * port 22 down to bits. It skips the presentation layer, needs no
   * session and receives nothing; the bits are only logged, so what stays
   * behind is the transport layer's advanced counter.
   */
  function UseSsh(m: OsiModel, data: string, d: Draws): (res: (OsiModel, string))
    ensures SameButTransport(m, res.0)
    ensures res.0.transport.port == m.transport.port
    ensures m.transport.protocol.Udp? ==> res.0.transport == m.transport
    ensures m.transport.protocol.Tcp? ==> res.0.transport.protocol.Tcp?
    ensures m.transport.protocol.Tcp? ==>
      res.0.transport.protocol.tcp.sequenceNumber == m.transport.protocol.tcp.sequenceNumber + 1
  {
    var (transport', segment) := TransportLayer.Send(m.transport, data, Some(SshPort));
    var packet := NetworkLayer.AddRoutingInfo(m.network, segment);
    var frame := DataLinkLayer.Encode(m.dataLink, packet);
    var bits := PhysicalLayer.Transmit(m.physical, frame, d.roll, PhysicalLayer.ErrorIndex(d.pick, |frame|));
    (m.(transport := transport'), bits)
  }

  /**
   * The SSH segment is sent from port 22 whatever port the transport layer
   * was built with: its bits are those of a layer whose own port is 22.
   */
  lemma UseSshIgnoresLayerPort(m: OsiModel, data: string, d: Draws, port: int)
    ensures UseSsh(m.(transport := TransportLayer.SetPort(m.transport, port)), data, d).1 == UseSsh(m, data, d).1
    ensures TransportLayer.Send(m.transport, data, Some(SshPort)).1
      == TransportLayer.Send(TransportLayer.SetPort(m.transport, SshPort), data, None).1
  {
  }

  /**
   * Over TCP the SSH segment uses up a sequence number of the shared
   * counter: the next `transmit` writes the old counter plus two.
   */
  lemma UseSshShiftsTransmit(m: OsiModel, x: string, dx: Draws, data: string, d: Draws)
    requires m.session.Some? && m.transport.protocol.Tcp?
    ensures var o := Transmit(UseSsh(m, x, dx).0, data, d);
      o.model.transport.protocol.Tcp?
      && o.model.transport.protocol.tcp.sequenceNumber == m.transport.protocol.tcp.sequenceNumber + 2
  {
  }

  /** A method call on the simulator. */
  datatype Call =
    | SetTransport(transportProtocol: TransportLayer.Protocol)
    | SetDataLink(dataLinkProtocol: DataLinkProtocols.DataLinkProtocol)
    | SetNetwork(networkProtocol: NetworkProtocols.NetworkProtocol)
    | SetKey(key: string)
    | Start(suffix: string)
    | End
    | Send(data: string, draws: Draws)
    | Deliver(bits: string)
    | Ssh(data: string, draws: Draws)

  function Step(m: OsiModel, c: Call): OsiModel
    requires m.session.Some?
  {
    match c
    case SetTransport(p) => SetTransportProtocol(m, p)
    case SetDataLink(p) => SetDataLinkProtocol(m, p)
    case SetNetwork(p) => SetNetworkProtocol(m, p)
    case SetKey(k) => SetEncryptionKey(m, k)
    case Start(suffix) => StartSession(m, suffix)
    case End => EndSession(m)
    case Send(data, d) => Transmit(m, data, d).model
    case Deliver(_) => m
    case Ssh(data, d) => UseSsh(m, data, d).0
  }

  /** Every call keeps the session object, so a run of calls is always defined. */
  function Run(m: OsiModel, calls: seq<Call>): (m': OsiModel)
    requires m.session.Some?
    ensures m'.session.Some?
    decreases |calls|
  {
    if |calls| == 0 then m else Run(Step(m, calls[0]), calls[1..])
  }

  /** Every run keeps the session layer's flag and id together. */
  lemma {:induction false} RunKeepsSessionValid(m: OsiModel, calls: seq<Call>)
    requires m.session.Some? && SessionLayer.Valid(m.session.value)
    ensures SessionLayer.Valid(Run(m, calls).session.value)
    decreases |calls|
  {
    if |calls| > 0 {
      var m' := Step(m, calls[0]);
      assert SessionLayer.Valid(m'.session.value);
      RunKeepsSessionValid(m', calls[1..]);
    }
  }

  /**
   * The session guard never fires: after any calls from the constructor,
   * whether or not a session was started, `transmit` reaches `receive` and
   * `receive` hands the application a text.
   */
  lemma NeverShortCircuits(
    transportProtocol: TransportLayer.Protocol,
    dataLinkProtocol: DataLinkProtocols.DataLinkProtocol,
    networkProtocol: NetworkProtocols.NetworkProtocol,
    calls: seq<Call>, data: string, d: Draws, bits: string)
    ensures var m := Run(Init(transportProtocol, dataLinkProtocol, networkProtocol), calls);
      Transmit(m, data, d).bits.Some? && Transmit(m, data, d).delivered.Some? && Receive(m, bits).Some?
  {
  }

  /** The segment header of the protocol the transport layer holds, with the counter TCP will write. */
  function SegmentHead(t: TransportLayer.TransportLayer): (h: string)
    ensures ')' !in h
    ensures IsFirst(h + DataField.DataTag, DataField.DataTag, |h|)
  {
    match t.protocol
    case Udp => Udp.TagAfterHead(); Udp.Head
    case Tcp(c) => Tcp.Head(c.sequenceNumber + 1)
  }

  /**
   * The configurations whose delivery is computed below: a session object,
   * no truthy key, one of the tagged network protocols, and settings whose
   * text holds no `)` (and, for the address, no `D`).
   */
  predicate Plain(m: OsiModel) {
    && m.session.Some?
    && !PresentationLayer.HasKey(m.presentation)
    && ')' !in m.presentation.encodingFormat && SingleLine(m.presentation.encodingFormat)
    && !m.network.protocol.Headered?
    && ')' !in m.network.destinationIP && 'D' !in m.network.destinationIP
    && DataLinkLayer.PlainAddress(m.dataLink.macAddressSource)
    && DataLinkLayer.PlainAddress(m.dataLink.macAddressDestination)
  }

  /**
   * The text such a configuration hands the application for `x`: the
   * port-tagged payload, with the `)` of `Encoded(format): ` lost to the
   * link decoder.
   */
  function Delivered(m: OsiModel, x: string): string {
    "Port=" + IntToString(m.transport.port) + ", Data=" + "Encoded(" + m.presentation.encodingFormat + ": " + x + ")"
  }

  /** `DestIP=ip, ` starts no `Data=` when the address holds no `D`. */
  lemma AddressTagStartsNoData(ip: string, rest: string)
    requires 'D' !in ip
    ensures forall j: nat :: j < |NetworkLayer.AddressTag(ip)| ==> !OccursAt(NetworkLayer.AddressTag(ip) + rest, DataField.DataTag, j)
  {
    var a := NetworkLayer.AddressTag(ip);
    var s := a + rest;
    assert a[1..] == "estIP=" + ip + ", ";
    assert 'D' !in a[1..];
    forall j: nat | j < |a|
      ensures !OccursAt(s, DataField.DataTag, j)
    {
      if j + 5 <= |s| {
        if j == 0 {
          assert s[0..5][1] == s[1] == 'e';
        } else {
          assert s[j..j + 5][0] == s[j] == a[1..][j - 1];
        }
      }
    }
  }

  /** A tag with a `)` before its end is absent from a text whose only `)` is its last character. */
  lemma ParenTagAbsent(y: string, e: string, k: nat)
    requires k + 1 < |e| && e[k] == ')'
    requires |y| > 0 && ')' !in y[..|y| - 1]
    ensures !Contains(y, e)
  {
    forall i: nat | i <= |y|
      ensures !OccursAt(y, e, i)
    {
      if i + |e| <= |y| {
        assert y[i..i + |e|][k] == y[i + k];
        assert y[i + k] == y[..|y| - 1][i + k];
      }
    }
  }

  /** The link step: the frame's opener goes, then the first `)`, which lies past the address header. */
  lemma LinkStep(dl: DataLinkLayer.DataLinkLayer, pre: string, post: string)
    requires ')' !in dl.macAddressSource && ')' !in dl.macAddressDestination && ')' !in pre
    ensures DataLinkProtocols.Decode(dl.protocol, DataLinkLayer.Encode(dl, pre + ")" + post))
      == DataLinkLayer.MacHeader(dl.macAddressSource, dl.macAddressDestination) + (pre + post + ")")
  {
    var mac := DataLinkLayer.MacHeader(dl.macAddressSource, dl.macAddressDestination);
    DataLinkLayer.MacHeaderHasNoParen(dl.macAddressSource, dl.macAddressDestination);
    NoParenAppend(mac, pre);
    Regroup(mac, pre, ")", post);
    DataLinkProtocols.DecodeEncodeParen(dl.protocol, mac + pre, post);
    Regroup(mac, pre, post, ")");
  }

  lemma NoParenAppend(a: string, b: string)
    requires ')' !in a && ')' !in b
    ensures ')' !in a + b
  {
  }

  lemma Regroup(a: string, b: string, c: string, d: string)
    ensures a + (b + c + d) == a + b + c + d
  {
  }

  /** The network step: the tag goes, then the first `)` after the data. */
  lemma NetworkStep(m: OsiModel, body: string)
    requires Plain(m) && ')' !in body
    ensures var t := NetworkProtocols.Tag(m.network.protocol);
      NetworkLayer.RemoveRoutingInfo(m.network, t + body + ")" + "))") == body + "))"
  {
    var t := NetworkProtocols.Tag(m.network.protocol);
    Tags.OpenerFirst(t);
    assert t + body + ")" + "))" == "" + t + body + ")" + "))";
    Tags.UnwrapInside(t, "", body, "))");
  }

  /**
   * The frame text in front of the `)` of the encoding tag, after the
   * network tag: `DestIP=ip, `, the segment header, `Data=Port=p, Data=`
   * and `Encoded(format`.
   */
  function Before(m: OsiModel): string {
    NetworkLayer.AddressTag(m.network.destinationIP) + SegmentHead(m.transport) + DataField.DataTag
    + "Port=" + IntToString(m.transport.port) + ", Data=" + "Encoded(" + m.presentation.encodingFormat
  }

  /** The printed port holds no `)` and no line terminator. */
  lemma PortIsPlain(port: int)
    ensures ')' !in IntToString(port) && SingleLine(IntToString(port))
  {
    forall c | c in IntToString(port)
      ensures c != ')' && !IsLineTerminator(c)
    {
      IntToStringChars(port, c);
    }
  }

  /**
   * The sending half: with no key, a tagged network protocol and no
   * transmission error, the bits are the frame around the network tag,
   * `Before(m)`, the `)` of the encoding tag and `: x))`.
   */
  lemma SendSide(m: OsiModel, x: string, d: Draws)
    requires m.session.Some? && !PresentationLayer.HasKey(m.presentation) && !m.network.protocol.Headered?
    requires d.roll >= m.physical.transmissionErrorRate
    ensures Transmit(m, x, d).bits
      == Some(DataLinkLayer.Encode(m.dataLink, NetworkProtocols.Tag(m.network.protocol) + Before(m) + ")" + (": " + x + ")" + ")")))
  {
    var p := m.presentation;
    var encrypted := PresentationLayer.Encrypt(p, PresentationLayer.Encode(p, x));
    assert encrypted == "Encoded(" + p.encodingFormat + "): " + x;
    var h := SegmentHead(m.transport);
    var payload := TransportLayer.Payload(m.transport.port, encrypted);
    var segment := TransportLayer.Send(m.transport, encrypted, None).1;
    assert segment == h + DataField.DataTag + payload + ")";
    var a := NetworkLayer.AddressTag(m.network.destinationIP);
    var t := NetworkProtocols.Tag(m.network.protocol);
    assert NetworkLayer.AddRoutingInfo(m.network, segment) == t + (a + segment) + ")";
    PacketText(t, a, h, IntToString(m.transport.port), p.encodingFormat, x);
  }

  /** The packet text regrouped around the `)` of the encoding tag. */
  lemma PacketText(t: string, a: string, h: string, port: string, format: string, x: string)
    ensures t + (a + (h + DataField.DataTag + ("Port=" + port + ", Data=" + ("Encoded(" + format + "): " + x)) + ")")) + ")"
      == t + (a + h + DataField.DataTag + "Port=" + port + ", Data=" + "Encoded(" + format) + ")" + (": " + x + ")" + ")")
  {
    assert "): " == ")" + ": ";
  }

  /** The link and MAC steps: the opener, the first `)` and the address header go. */
  lemma ReceiveLink(dl: DataLinkLayer.DataLinkLayer, pre: string, post: string)
    requires DataLinkLayer.PlainAddress(dl.macAddressSource) && DataLinkLayer.PlainAddress(dl.macAddressDestination)
    requires ')' !in pre
    ensures DataLinkLayer.Decode(dl, DataLinkLayer.Encode(dl, pre + ")" + post)) == pre + post + ")"
  {
    var src, dst := dl.macAddressSource, dl.macAddressDestination;
    LinkStep(dl, pre, post);
    CutMacHeaderFront(src, dst, pre + post + ")");
  }

  /** The transport step: the field after the segment header is read up to the final `)`. */
  lemma ReceiveField(m: OsiModel, t: TransportLayer.TransportLayer, y: string)
    requires Plain(m)
    requires |y| > 0 && SingleLine(y)
    ensures var a := NetworkLayer.AddressTag(m.network.destinationIP);
      TransportLayer.Receive(t, a + SegmentHead(m.transport) + DataField.DataTag + y + ")") == y
  {
    var a := NetworkLayer.AddressTag(m.network.destinationIP);
    var h := SegmentHead(m.transport);
    AddressTagStartsNoData(m.network.destinationIP, h + DataField.DataTag);
    FirstBehind(a, h + DataField.DataTag, DataField.DataTag, |h|);
    assert a + (h + DataField.DataTag) == (a + h) + DataField.DataTag;
    DataField.ReadWrapped(a + h, y);
    assert a + h + DataField.DataTag + y + ")" == (a + h) + DataField.DataTag + y + ")";
  }

  /** The presentation step: without a key, a text whose only `)` ends it passes unchanged. */
  lemma ReceivePresentation(m: OsiModel, y: string)
    requires !PresentationLayer.HasKey(m.presentation)
    requires |y| > 0 && ')' !in y[..|y| - 1]
    ensures PresentationLayer.Decode(m.presentation, PresentationLayer.Decrypt(m.presentation, y)) == y
  {
    var tag := PresentationLayer.EncodeTag(m.presentation);
    assert tag[8 + |m.presentation.encodingFormat|] == ')';
    ParenTagAbsent(y, tag, 8 + |m.presentation.encodingFormat|);
  }

  /** Nothing in front of the `)` of the encoding tag holds a `)`. */
  lemma BeforeHasNoParen(m: OsiModel)
    requires Plain(m)
    ensures ')' !in NetworkProtocols.Tag(m.network.protocol) + Before(m)
  {
    PortIsPlain(m.transport.port);
    var h := SegmentHead(m.transport);
    assert ')' !in NetworkProtocols.Tag(m.network.protocol);
    assert ')' !in NetworkLayer.AddressTag(m.network.destinationIP);
  }

  /** The delivered text is one line whose only `)` is its last character. */
  lemma DeliveredShape(m: OsiModel, x: string)
    requires Plain(m) && SingleLine(x) && ')' !in x
    ensures var y := Delivered(m, x); |y| > 0 && SingleLine(y) && ')' !in y[..|y| - 1]
  {
    PortIsPlain(m.transport.port);
    var y := Delivered(m, x);
    var body := "Port=" + IntToString(m.transport.port) + ", Data=" + "Encoded(" + m.presentation.encodingFormat + ": " + x;
    assert y == body + ")" && y[..|y| - 1] == body;
  }

  /** The text after the link step, regrouped around the network tag. */
  lemma AfterLink(t: string, before: string, x: string)
    ensures (t + before) + (": " + x + ")" + ")") + ")" == t + (before + ": " + x) + ")" + "))"
  {
  }

  /** The text after the network step, regrouped around the data field. */
  lemma AfterNetwork(a: string, h: string, port: string, format: string, x: string)
    ensures (a + h + DataField.DataTag + "Port=" + port + ", Data=" + "Encoded(" + format) + ": " + x + "))"
      == a + h + DataField.DataTag + ("Port=" + port + ", Data=" + "Encoded(" + format + ": " + x + ")") + ")"
  {
  }

  /**
   * The receiving half, for any transport state holding either protocol:
   * the frame built by `SendSide` reaches the application as
   * `Delivered(m, x)`.
   */
  lemma ReceiveSide(m: OsiModel, t: TransportLayer.TransportLayer, x: string)
    requires Plain(m)
    requires SingleLine(x) && ')' !in x
    ensures Receive(m.(transport := t),
      DataLinkLayer.Encode(m.dataLink, NetworkProtocols.Tag(m.network.protocol) + Before(m) + ")" + (": " + x + ")" + ")")))
      == Some(Delivered(m, x))
  {
    var tag := NetworkProtocols.Tag(m.network.protocol);
    var before := Before(m);
    BeforeHasNoParen(m);
    ReceiveLink(m.dataLink, tag + before, ": " + x + ")" + ")");
    AfterLink(tag, before, x);
    NoParenAppend(before, ": " + x);
    NetworkStep(m, before + ": " + x);
    var y := Delivered(m, x);
    AfterNetwork(NetworkLayer.AddressTag(m.network.destinationIP), SegmentHead(m.transport),
      IntToString(m.transport.port), m.presentation.encodingFormat, x);
    DeliveredShape(m, x);
    ReceiveField(m, t, y);
    ReceivePresentation(m, y);
  }

  /**
   * The transmit→receive pipeline does not give the data back. In a plain
   * configuration, with no transmission error, the application receives
   * `Port=p, Data=Encoded(format: x)` for every line `x` without `)`.
   */
  lemma Delivery(m: OsiModel, x: string, d: Draws)
    requires Plain(m)
    requires SingleLine(x) && ')' !in x
    requires d.roll >= m.physical.transmissionErrorRate
    ensures Transmit(m, x, d).delivered == Some(Delivered(m, x))
  {
    SendSide(m, x, d);
    ReceiveSide(m, Transmit(m, x, d).model.transport, x);
  }

  /** What is delivered is never what was sent. */
  lemma DeliveryLosesData(m: OsiModel, x: string, d: Draws)
    requires Plain(m)
    requires SingleLine(x) && ')' !in x
    requires d.roll >= m.physical.transmissionErrorRate
    ensures Transmit(m, x, d).delivered.Some? && Transmit(m, x, d).delivered.value != x
  {
    Delivery(m, x, d);
    assert |Delivered(m, x)| > |x|;
  }

  /**
   * A freshly constructed simulator with a tagged network protocol hands
   * the application `Port=0, Data=Encoded(UTF-8: x)` for `x`, whatever its
   * transport and data link protocols.
   */
  lemma DefaultDelivery(
    transportProtocol: TransportLayer.Protocol,
    dataLinkProtocol: DataLinkProtocols.DataLinkProtocol,
    networkProtocol: NetworkProtocols.NetworkProtocol,
    x: string, d: Draws)
    requires !networkProtocol.Headered?
    requires SingleLine(x) && ')' !in x
    ensures Transmit(Init(transportProtocol, dataLinkProtocol, networkProtocol), x, d).delivered
      == Some("Port=0, Data=Encoded(UTF-8: " + x + ")")
  {
    var m := Init(transportProtocol, dataLinkProtocol, networkProtocol);
    DefaultIsPlain(transportProtocol, dataLinkProtocol, networkProtocol);
    Delivery(m, x, d);
    DefaultText(x);
  }

  lemma DefaultText(x: string)
    ensures "Port=" + IntToString(0) + ", Data=" + "Encoded(" + PresentationLayer.DefaultFormat + ": " + x + ")"
      == "Port=0, Data=Encoded(UTF-8: " + x + ")"
  {
    assert IntToString(0) == "0";
  }

  /** A freshly constructed simulator with a tagged network protocol is plain. */
  lemma DefaultIsPlain(
    transportProtocol: TransportLayer.Protocol,
    dataLinkProtocol: DataLinkProtocols.DataLinkProtocol,
    networkProtocol: NetworkProtocols.NetworkProtocol)
    requires !networkProtocol.Headered?
    ensures Plain(Init(transportProtocol, dataLinkProtocol, networkProtocol))
  {
    DataLinkLayer.DefaultsArePlain();
    assert ')' !in NetworkLayer.DefaultIP && 'D' !in NetworkLayer.DefaultIP;
    assert ')' !in PresentationLayer.DefaultFormat && SingleLine(PresentationLayer.DefaultFormat);
  }
}
