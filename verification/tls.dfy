/**
 * The TLS connection state machine (src/layers/layer4/protocols/TSL.ts).
 * Every random outcome is a parameter: `ok` for a success draw and a
 * `SessionDraw` for `Math.floor(Math.random() * 100000)`.
 */
module Tls {
  import opened Wrappers
  import opened Strings
  import opened Tags

  type SessionDraw = n: nat | n < 100000

  datatype Tls = Tls(sessionId: Option<string>, isAuthenticated: bool, handshakeComplete: bool)

  const Opener: string := "TLS_ENCRYPTED("
  const SessionPrefix: string := "TLS_SESSION_"

  function Init(): (s: Tls)
    ensures Valid(s) && s.sessionId.None?
  {
    Tls(None, false, false)
  }

  /** `TLS_SESSION_${n}`: never empty, so always truthy. */
  function SessionName(n: SessionDraw): (id: string)
    ensures |id| > |SessionPrefix| && id[..|SessionPrefix|] == SessionPrefix
  {
    SessionPrefix + NatToString(n)
  }

  /** Authentication needs a handshake, and a handshake is exactly having a session id. */
  predicate Valid(s: Tls) {
    (s.isAuthenticated ==> s.handshakeComplete) && (s.handshakeComplete <==> s.sessionId.Some?)
  }

  /** `establishConnection()`: a failed handshake changes nothing; `isAuthenticated` is never reset. */
  function EstablishConnection(s: Tls, ok: bool, n: SessionDraw): (res: (Tls, bool))
    ensures res.1 == ok
    ensures !ok ==> res.0 == s
    ensures ok ==> res.0.handshakeComplete && res.0.sessionId == Some(SessionName(n))
    ensures res.0.isAuthenticated == s.isAuthenticated
  {
    if !ok then (s, false)
    else (s.(handshakeComplete := true, sessionId := Some(SessionName(n))), true)
  }

  /** `terminateConnection()`: clears everything when there is a session. */
  function TerminateConnection(s: Tls): (s': Tls)
    ensures s.sessionId.None? ==> s' == s
    ensures s.sessionId.Some? ==> s' == Init()
  {
    if s.sessionId.None? then s else Tls(None, false, false)
  }

  /** `authenticate()`: needs the handshake; a failed draw terminates the connection. */
  function Authenticate(s: Tls, ok: bool): (res: (Tls, bool))
    ensures !s.handshakeComplete ==> res == (s, false)
    ensures s.handshakeComplete && ok ==> res == (s.(isAuthenticated := true), true)
    ensures s.handshakeComplete && !ok ==> res == (TerminateConnection(s.(isAuthenticated := false)), false)
  {
    if !s.handshakeComplete then (s, false)
    else if ok then (s.(isAuthenticated := true), true)
    else (TerminateConnection(s.(isAuthenticated := false)), false)
  }

  /** `encryptData(data)`. */
  function EncryptData(s: Tls, data: string): (r: string)
    ensures !s.isAuthenticated ==> r == ""
    ensures s.isAuthenticated ==> r == Opener + data + ")"
  {
    if !s.isAuthenticated then "" else Wrap(Opener, data)
  }

  /** `decryptData(data)`. */
  function DecryptData(s: Tls, data: string): (r: string)
    ensures !s.isAuthenticated ==> r == ""
  {
    if !s.isAuthenticated then "" else Unwrap(Opener, data)
  }

  /** Decryption undoes encryption on an authenticated connection for data without `)`. */
  lemma DecryptEncrypt(s: Tls, x: string)
    requires s.isAuthenticated && ')' !in x
    ensures DecryptData(s, EncryptData(s, x)) == x
  {
    UnwrapWrap(Opener, x);
  }

  /** `renegotiateSession()`: a new id on success, termination on failure. */
  function RenegotiateSession(s: Tls, ok: bool, n: SessionDraw): (res: (Tls, bool))
    ensures s.sessionId.None? ==> res == (s, false)
    ensures s.sessionId.Some? ==> res.1 == ok
    ensures s.sessionId.Some? && ok ==> res.0 == s.(sessionId := Some(SessionName(n)))
    ensures s.sessionId.Some? && !ok ==> res.0 == Init()
  {
    if s.sessionId.None? then (s, false)
    else if ok then (s.(sessionId := Some(SessionName(n))), true)
    else (TerminateConnection(s), false)
  }

  /** `detectDowngradeAttack()`: a detected attack terminates the connection. */
  function DetectDowngradeAttack(s: Tls, detected: bool): (res: (Tls, bool))
    ensures res.1 == detected
    ensures detected ==> res.0 == TerminateConnection(s)
    ensures !detected ==> res.0 == s
  {
    if detected then (TerminateConnection(s), true) else (s, false)
  }

  /** Terminating twice is terminating once. */
  lemma TerminateIdempotent(s: Tls)
    ensures TerminateConnection(TerminateConnection(s)) == TerminateConnection(s)
    ensures TerminateConnection(s).sessionId.None?
  {
  }

  /** A method call on the connection, with its draws. */
  datatype Call =
    | Establish(ok: bool, n: SessionDraw)
    | Authenticate(ok: bool)
    | Encrypt(data: string)
    | Decrypt(data: string)
    | Renegotiate(ok: bool, n: SessionDraw)
    | Terminate
    | DetectDowngrade(detected: bool)

  function Step(s: Tls, c: Call): Tls {
    match c
    case Establish(ok, n) => EstablishConnection(s, ok, n).0
    case Authenticate(ok) => Authenticate(s, ok).0
    case Encrypt(_) => s
    case Decrypt(_) => s
    case Renegotiate(ok, n) => RenegotiateSession(s, ok, n).0
    case Terminate => TerminateConnection(s)
    case DetectDowngrade(detected) => DetectDowngradeAttack(s, detected).0
  }

  function Run(s: Tls, calls: seq<Call>): Tls
    decreases |calls|
  {
    if |calls| == 0 then s else Run(Step(s, calls[0]), calls[1..])
  }

  lemma StepValid(s: Tls, c: Call)
    requires Valid(s)
    ensures Valid(Step(s, c))
  {
  }

  /** Every sequence of method calls from the constructor keeps the invariant. */
  lemma {:induction false} RunValid(s: Tls, calls: seq<Call>)
    requires Valid(s)
    ensures Valid(Run(s, calls))
    decreases |calls|
  {
    if |calls| > 0 {
      StepValid(s, calls[0]);
      RunValid(Step(s, calls[0]), calls[1..]);
    }
  }

  /** Data can only be encrypted once the handshake is complete and a session exists. */
  lemma EncryptNeedsSession(calls: seq<Call>, data: string)
    requires EncryptData(Run(Init(), calls), data) != ""
    ensures Run(Init(), calls).sessionId.Some? && Run(Init(), calls).handshakeComplete
  {
    RunValid(Init(), calls);
  }
}
