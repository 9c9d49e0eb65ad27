/**
 * The session layer (src/layers/layer5/SessionLayer.ts): an active flag
 * and a session id that come and go together.
 */
module SessionLayer {
  import opened Wrappers

  datatype SessionLayer = SessionLayer(activeSession: bool, sessionId: Option<string>)

  const IdPrefix: string := "SESSION-"

  function Init(): (s: SessionLayer)
    ensures Valid(s) && !s.activeSession
  {
    SessionLayer(false, None)
  }

  /** A session is active exactly when it has an id. */
  predicate Valid(s: SessionLayer) {
    s.activeSession <==> s.sessionId.Some?
  }

  /**
   * `startSession()`; `suffix` stands for the upper-cased base-36 digits
   * `generateSessionID` draws. An active session is kept as it is.
   */
  function StartSession(s: SessionLayer, suffix: string): (s': SessionLayer)
    ensures s.activeSession ==> s' == s
    ensures !s.activeSession ==> s'.activeSession && s'.sessionId == Some(IdPrefix + suffix)
  {
    if s.activeSession then s else SessionLayer(true, Some(IdPrefix + suffix))
  }

  /** `endSession()`. */
  function EndSession(s: SessionLayer): (s': SessionLayer)
    ensures !s.activeSession ==> s' == s
    ensures s.activeSession ==> s' == Init()
  {
    if !s.activeSession then s else SessionLayer(false, None)
  }

  /** Starting and then ending a session returns to the initial state. */
  lemma StartThenEnd(suffix: string)
    ensures EndSession(StartSession(Init(), suffix)) == Init()
  {
  }

  /** A method call: `sendData` only logs, so it is a step that changes nothing. */
  datatype Call = Start(suffix: string) | End | Send(data: string)

  function Step(s: SessionLayer, c: Call): SessionLayer {
    match c
    case Start(suffix) => StartSession(s, suffix)
    case End => EndSession(s)
    case Send(_) => s
  }

  function Run(s: SessionLayer, calls: seq<Call>): SessionLayer
    decreases |calls|
  {
    if |calls| == 0 then s else Run(Step(s, calls[0]), calls[1..])
  }

  /** Every sequence of calls from the constructor keeps flag and id together. */
  lemma {:induction false} RunValid(s: SessionLayer, calls: seq<Call>)
    requires Valid(s)
    ensures Valid(Run(s, calls))
    decreases |calls|
  {
    if |calls| > 0 {
      RunValid(Step(s, calls[0]), calls[1..]);
    }
  }

  /** Sending data between calls makes no difference to the outcome. */
  lemma {:induction false} SendIsInvisible(s: SessionLayer, before: seq<Call>, data: string, after: seq<Call>)
    ensures Run(s, before + [Send(data)] + after) == Run(s, before + after)
    decreases |before|
  {
    if |before| == 0 {
      assert before + [Send(data)] + after == [Send(data)] + after;
      assert ([Send(data)] + after)[1..] == after;
      assert before + after == after;
    } else {
      assert (before + [Send(data)] + after)[1..] == before[1..] + [Send(data)] + after;
      assert (before + after)[1..] == before[1..] + after;
      SendIsInvisible(Step(s, before[0]), before[1..], data, after);
    }
  }
}

/**
 * The NetBIOS session protocol (src/layers/layer5/protocols/NetBios.ts):
 * one active flag; `sendData` and `receiveData` only log.
 */
module NetBios {
  import opened Wrappers
  import opened Strings

  datatype NetBios = NetBios(activeSession: bool)

  type OctetDraw = n: nat | n < 255

  function Init(): (s: NetBios)
    ensures !s.activeSession
  {
    NetBios(false)
  }

  /** `startSession()`: success activates; a failed draw leaves the flag as it was. */
  function StartSession(s: NetBios, ok: bool): (res: (NetBios, bool))
    ensures res.1 == ok
    ensures res.0.activeSession == (ok || s.activeSession)
  {
    if ok then (NetBios(true), true) else (s, false)
  }

  /** `endSession()`. */
  function EndSession(s: NetBios): (s': NetBios)
    ensures !s'.activeSession
  {
    NetBios(false)
  }

  /** `resolveName(name)`: a random address in 192.168.0.0/16 with both octets below 255. */
  function ResolveName(name: string, a: OctetDraw, b: OctetDraw): (ip: string)
    ensures |ip| > 8 && ip[..8] == "192.168."
    ensures forall c :: c in ip ==> c == '.' || IsDigit(c)
  {
    var r := "192.168." + NatToString(a) + "." + NatToString(b);
    assert forall i :: 8 <= i < 8 + |NatToString(a)| ==> r[i] == NatToString(a)[i - 8];
    assert forall i :: 9 + |NatToString(a)| <= i < |r| ==> r[i] == NatToString(b)[i - 9 - |NatToString(a)|];
    r
  }

  /** The first `.` of `x + "." + y` for an all-digit `x` is right after `x`. */
  lemma DotAfterDigits(x: string, y: string)
    requires AllDigits(x)
    ensures IndexOf(x + "." + y, ".") == Some(|x|)
  {
    assert '.' !in x by {
      forall i | 0 <= i < |x|
        ensures x[i] != '.'
      {
        assert IsDigit(x[i]);
      }
    }
    assert x + "." + y == x + ("." + y);
    FirstAfterByHead(x, "." + y, ".");
  }

  /** The address determines both draws: the octets can be read back. */
  lemma ResolveNameInjective(name: string, a: OctetDraw, b: OctetDraw, name': string, a': OctetDraw, b': OctetDraw)
    requires ResolveName(name, a, b) == ResolveName(name', a', b')
    ensures a == a' && b == b'
  {
    var x, y := NatToString(a), NatToString(b);
    var x', y' := NatToString(a'), NatToString(b');
    var ip := ResolveName(name, a, b);
    assert ip[8..] == x + "." + y;
    assert ResolveName(name', a', b')[8..] == x' + "." + y';
    DotAfterDigits(x, y);
    DotAfterDigits(x', y');
    assert |x| == |x'|;
    assert x == (x + "." + y)[..|x|];
    assert x' == (x' + "." + y')[..|x'|];
    assert y == (x + "." + y)[|x| + 1..];
    assert y' == (x' + "." + y')[|x'| + 1..];
    NatToStringInjective(a, a');
    NatToStringInjective(b, b');
  }
}
