/**
 * The `Data=` field both transport protocols read back with the greedy
 * pattern `/Data=(.+)\)/`, falling back on "UNKNOWN" when nothing matches
 * (src/layers/layer4/protocols/TCP.ts and UDP.ts).
 */
module DataField {
  import opened Wrappers
  import opened Strings
  import opened Patterns

  const DataTag: string := "Data="
  const Unknown: string := "UNKNOWN"

  /** `segment.match(/Data=(.+)\)/)?.[1] || "UNKNOWN"`: the group is never empty, so only a miss falls back. */
  function Read(segment: string): (r: string)
    ensures (forall i: nat, q: nat :: !CaptureAt(segment, DataTag, ")", i, q)) ==> r == Unknown
    ensures (exists i: nat, q: nat :: CaptureAt(segment, DataTag, ")", i, q)) ==> |r| > 0 && SingleLine(r)
  {
    match GreedyGroup(segment, DataTag, ")")
    case Some(g) => g
    case None => Unknown
  }

  /**
   * After a header `head` that does not hold the tag, the field reads back
   * the whole rest of the line up to the final `)`, whatever `)` or `Data=`
   * it holds.
   */
  lemma ReadWrapped(head: string, x: string)
    requires IsFirst(head + DataTag, DataTag, |head|)
    requires |x| > 0 && SingleLine(x)
    ensures Read(head + DataTag + x + ")") == x
  {
    GreedyGroupWrapped(head, DataTag, x, ")");
  }

  /** An empty field is no match, so it reads as "UNKNOWN". */
  lemma ReadEmpty(head: string)
    requires IsFirst(head + DataTag, DataTag, |head|)
    ensures Read(head + DataTag + ")") == Unknown
  {
    var s := head + DataTag + ")";
    var t := head + DataTag;
    forall i: nat | i != |head|
      ensures !OccursAt(s, DataTag, i)
    {
      if i + |DataTag| <= |s| {
        if i < |head| {
          assert s[i..i + |DataTag|] == t[i..i + |DataTag|];
          assert !OccursAt(t, DataTag, i);
        } else {
          assert s[i..i + |DataTag|][0] == s[i] == 'a';
        }
      }
    }
    assert forall i: nat, q: nat :: !CaptureAt(s, DataTag, ")", i, q);
  }
}

/**
 * TCP (src/layers/layer4/protocols/TCP.ts): a sequence counter that every
 * `send` advances before writing it into the segment.
 */
module Tcp {
  import opened Strings
  import DataField

  datatype Tcp = Tcp(sequenceNumber: nat)

  function Init(): (s: Tcp)
    ensures s.sequenceNumber == 0
  {
    Tcp(0)
  }

  /** `TCP(Seq=n, `: the segment text in front of the data field. */
  function Head(n: nat): (h: string)
    ensures IsFirst(h + DataField.DataTag, DataField.DataTag, |h|)
    ensures ')' !in h
  {
    var h := "TCP(Seq=" + NatToString(n) + ", ";
    assert 'D' !in h && ')' !in h by {
      assert forall i :: 8 <= i < 8 + |NatToString(n)| ==> h[i] == NatToString(n)[i - 8];
    }
    FirstAfterByHead(h, DataField.DataTag, DataField.DataTag);
    assert h + DataField.DataTag + "" == h + DataField.DataTag;
    h
  }

  /** `send(data)`: the counter goes up by one and the new value labels the segment. */
  function Send(s: Tcp, data: string): (res: (Tcp, string))
    ensures res.0.sequenceNumber == s.sequenceNumber + 1
    ensures res.1 == Head(res.0.sequenceNumber) + DataField.DataTag + data + ")"
  {
    var n := s.sequenceNumber + 1;
    (Tcp(n), Head(n) + DataField.DataTag + data + ")")
  }

  /** `receive(segment)`: reading the field leaves the counter alone. */
  function Receive(s: Tcp, segment: string): (res: (Tcp, string))
    ensures res.0 == s
    ensures res.1 == DataField.Read(segment)
  {
    (s, DataField.Read(segment))
  }

  /** A segment reads back as what was sent, for any non-empty line. */
  lemma ReceiveSend(s: Tcp, x: string)
    requires |x| > 0 && SingleLine(x)
    ensures var (s', seg) := Send(s, x); Receive(s', seg).1 == x
  {
    DataField.ReadWrapped(Head(s.sequenceNumber + 1), x);
  }

  /** An empty payload reads back as "UNKNOWN". */
  lemma ReceiveSendEmpty(s: Tcp)
    ensures var (s', seg) := Send(s, ""); Receive(s', seg).1 == DataField.Unknown
  {
    assert Send(s, "").1 == Head(s.sequenceNumber + 1) + DataField.DataTag + ")";
    DataField.ReadEmpty(Head(s.sequenceNumber + 1));
  }

  /** Sending each of `data` in turn. */
  function SendAll(s: Tcp, data: seq<string>): Tcp
    decreases |data|
  {
    if |data| == 0 then s else SendAll(Send(s, data[0]).0, data[1..])
  }

  /** The counter counts the segments sent. */
  lemma {:induction false} SendAllCounts(s: Tcp, data: seq<string>)
    ensures SendAll(s, data).sequenceNumber == s.sequenceNumber + |data|
    decreases |data|
  {
    if |data| > 0 {
      SendAllCounts(Send(s, data[0]).0, data[1..]);
    }
  }
}

/** UDP (src/layers/layer4/protocols/UDP.ts): stateless wrapping. */
module Udp {
  import opened Strings
  import DataField

  const Head: string := "UDP("

  /** The tag is first found right after `UDP(`, although that holds a `D`. */
  lemma TagAfterHead()
    ensures IsFirst(Head + DataField.DataTag, DataField.DataTag, |Head|)
  {
    var s := Head + DataField.DataTag;
    assert s[4..9] == DataField.DataTag;
    forall j: nat | j < |Head|
      ensures !OccursAt(s, DataField.DataTag, j)
    {
      if j + 5 <= |s| {
        assert s[j..j + 5][1] == s[j + 1];
      }
    }
  }

  /** `send(data)`. */
  function Send(data: string): (seg: string)
    ensures seg == Head + DataField.DataTag + data + ")"
  {
    Head + DataField.DataTag + data + ")"
  }

  /** `receive(segment)`. */
  function Receive(segment: string): (r: string)
    ensures r == DataField.Read(segment)
  {
    DataField.Read(segment)
  }

  lemma ReceiveSend(x: string)
    requires |x| > 0 && SingleLine(x)
    ensures Receive(Send(x)) == x
  {
    TagAfterHead();
    DataField.ReadWrapped(Head, x);
  }

  lemma ReceiveSendEmpty()
    ensures Receive(Send("")) == DataField.Unknown
  {
    assert Send("") == Head + DataField.DataTag + ")";
    TagAfterHead();
    DataField.ReadEmpty(Head);
  }
}

/**
 * The transport layer (src/layers/layer4/TransportLayer.ts): a protocol
 * and a port; `send` tags the data with the port before handing it down.
 */
module TransportLayer {
  import opened Wrappers
  import opened Strings
  import Tcp
  import Udp

  datatype Protocol = Tcp(tcp: Tcp.Tcp) | Udp

  datatype TransportLayer = TransportLayer(protocol: Protocol, port: int)

  /** `port || x`: an omitted port and port 0 both give way to the fallback. */
  function PortOr(port: Option<int>, fallback: int): (p: int)
    ensures port.Some? && port.value != 0 ==> p == port.value
    ensures port.None? || port.value == 0 ==> p == fallback
  {
    if port.Some? && port.value != 0 then port.value else fallback
  }

  /** `new TransportLayer(protocol, port?)`. */
  function Init(protocol: Protocol, port: Option<int>): (s: TransportLayer)
    ensures s.protocol == protocol
    ensures s.port == port.GetOr(0)
  {
    TransportLayer(protocol, PortOr(port, 0))
  }

  function SetProtocol(s: TransportLayer, protocol: Protocol): (s': TransportLayer)
    ensures s'.protocol == protocol && s'.port == s.port
  {
    s.(protocol := protocol)
  }

  function SetPort(s: TransportLayer, port: int): (s': TransportLayer)
    ensures s'.port == port && s'.protocol == s.protocol
  {
    s.(port := port)
  }

  function GetPort(s: TransportLayer): (p: int)
    ensures p == s.port
  {
    s.port
  }

  /** `Port=p, Data=d`: what the layer hands to its protocol. */
  function Payload(port: int, data: string): (t: string)
    ensures |t| > 0
    ensures SingleLine(data) ==> SingleLine(t)
  {
    var t := "Port=" + IntToString(port) + ", Data=" + data;
    assert forall i :: 5 <= i < 5 + |IntToString(port)| ==> t[i] == IntToString(port)[i - 5];
    forall i | 5 <= i < 5 + |IntToString(port)|
      ensures !IsLineTerminator(t[i])
    {
      IntToStringChars(port, IntToString(port)[i - 5]);
    }
    assert forall i :: 5 + |IntToString(port)| + 7 <= i < |t| ==> t[i] == data[i - 5 - |IntToString(port)| - 7];
    t
  }

  /** `send(data, port?)`: TCP advances its counter; UDP has nothing to advance. */
  function Send(s: TransportLayer, data: string, port: Option<int>): (res: (TransportLayer, string))
    ensures res.0.port == s.port && res.0.protocol.Tcp? == s.protocol.Tcp?
    ensures s.protocol.Udp? ==> res == (s, Udp.Send(Payload(PortOr(port, s.port), data)))
    ensures s.protocol.Tcp? ==> res.1 == Tcp.Send(s.protocol.tcp, Payload(PortOr(port, s.port), data)).1
  {
    var payload := Payload(PortOr(port, s.port), data);
    match s.protocol
    case Udp => (s, Udp.Send(payload))
    case Tcp(t) =>
      var (t', seg) := Tcp.Send(t, payload);
      (s.(protocol := Tcp(t')), seg)
  }

  /** `receive(segment)`: the protocol's reading, state unchanged. */
  function Receive(s: TransportLayer, segment: string): (r: string)
    ensures s.protocol.Udp? ==> r == Udp.Receive(segment)
    ensures s.protocol.Tcp? ==> r == Tcp.Receive(s.protocol.tcp, segment).1
  {
    match s.protocol
    case Udp => Udp.Receive(segment)
    case Tcp(t) => Tcp.Receive(t, segment).1
  }

  /**
   * Receiving what was sent gives back the port-tagged payload, not the
   * data: the layer never strips its own `Port=p, Data=` tag.
   */
  lemma ReceiveSend(s: TransportLayer, x: string, port: Option<int>)
    requires SingleLine(x)
    ensures var (s', seg) := Send(s, x, port);
      Receive(s', seg) == "Port=" + IntToString(PortOr(port, s.port)) + ", Data=" + x
  {
    var payload := Payload(PortOr(port, s.port), x);
    match s.protocol
    case Udp => Udp.ReceiveSend(payload);
    case Tcp(t) => Tcp.ReceiveSend(t, payload);
  }
}
