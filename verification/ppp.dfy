/**
 * The point-to-point link (src/layers/layer2/protocols/PTPP.ts): two flags
 * that gate data transfer, and a `PPP_COMPRESSED(...)` wrapper read back
 * with the lazy pattern `/PPP_COMPRESSED\((.+?)\)/`.
 */
module Ppp {
  import opened Wrappers
  import opened Strings
  import opened Patterns

  datatype Ppp = Ppp(connectionStatus: bool, authenticated: bool)

  const Opener: string := "PPP_COMPRESSED("
  const Sent: string := "Data transmitted: "
  const TransmissionFailed: string := "Transmission failed."

  function Init(): (s: Ppp)
    ensures !s.connectionStatus && !s.authenticated
  {
    Ppp(false, false)
  }

  /** Data may flow only over an established, authenticated link. */
  predicate Open(s: Ppp) {
    s.connectionStatus && s.authenticated
  }

  /**
   * `establishConnection()` with the line check `line` and the negotiation
   * `negotiated`; `authenticated` is left as it was.
   */
  function EstablishConnection(s: Ppp, line: bool, negotiated: bool): (res: (Ppp, bool))
    ensures res.1 == (line && negotiated)
    ensures res.0.connectionStatus == res.1
    ensures res.0.authenticated == s.authenticated
  {
    if !line then (s.(connectionStatus := false), false)
    else if !negotiated then (s.(connectionStatus := false), false)
    else (s.(connectionStatus := true), true)
  }

  /** A failed re-establish can leave the link authenticated but down. */
  lemma AuthenticatedButDown()
    ensures var s := EstablishConnection(Ppp(true, true), false, true).0;
      s.authenticated && !s.connectionStatus
  {
  }

  /** `authenticate()`: a failure (no link, or a failed draw) clears `authenticated`. */
  function Authenticate(s: Ppp, ok: bool): (res: (Ppp, bool))
    ensures res.1 == (s.connectionStatus && ok)
    ensures res.0.authenticated == res.1
    ensures !s.connectionStatus ==> res.0.connectionStatus == false
    ensures s.connectionStatus ==> res.0.connectionStatus == ok
  {
    if !s.connectionStatus then (s.(authenticated := false), false)
    else if !ok then (Ppp(false, false), false)
    else (s.(authenticated := true), true)
  }

  /** `transmitData(data)`. */
  function TransmitData(s: Ppp, data: string): (r: string)
    ensures !Open(s) ==> r == TransmissionFailed
    ensures Open(s) ==> r == Sent + Opener + data + ")"
  {
    if !Open(s) then TransmissionFailed else Sent + Opener + data + ")"
  }

  /** `receiveData(compressedData)`: the lazy group, or "" when gated or unmatched. */
  function ReceiveData(s: Ppp, compressed: string): (r: string)
    ensures !Open(s) ==> r == ""
    ensures Open(s) && (forall i: nat, q: nat :: !CaptureAt(compressed, Opener, ")", i, q)) ==> r == ""
    ensures Open(s) && r != "" ==> SingleLine(r)
  {
    if !Open(s) then ""
    else match LazyGroup(compressed, Opener, ")")
      case Some(g) => g
      case None => ""
  }

  /** What one side transmits, the other reads back, for a non-empty line without `)`. */
  lemma ReceiveTransmit(s: Ppp, x: string)
    requires Open(s)
    requires |x| > 0 && SingleLine(x) && ')' !in x
    ensures ReceiveData(s, TransmitData(s, x)) == x
  {
    FirstAfterByHead(Sent, Opener, Opener);
    assert Sent + Opener + x + ")" == Sent + Opener + x + [')'] + "";
    LazyGroupWrapped(Sent, Opener, x, ')', "");
  }

  /** An empty payload is not matched, so it reads back as "". */
  lemma ReceiveEmptyPayload(s: Ppp)
    requires Open(s)
    ensures ReceiveData(s, TransmitData(s, "")) == ""
  {
    assert TransmitData(s, "") == Sent + Opener + ")";
    EmptyGroupUnmatched(Sent, Opener, ")");
  }

  /** `disconnect()`. */
  function Disconnect(s: Ppp): (s': Ppp)
    ensures !s'.connectionStatus && !s'.authenticated && !Open(s')
  {
    Ppp(false, false)
  }
}
