/**
 * The SSL connection state machine (src/layers/layer4/protocols/SSL.ts).
 * Unlike TLS it keeps no handshake flag: the session id alone says
 * whether a connection exists.
 */
module Ssl {
  import opened Wrappers
  import opened Strings
  import opened Tags

  type SessionDraw = n: nat | n < 100000

  datatype Ssl = Ssl(sessionId: Option<string>, isAuthenticated: bool)

  const Opener: string := "SSL_ENCRYPTED("
  const SessionPrefix: string := "SESSION_"

  function Init(): (s: Ssl)
    ensures Valid(s) && s.sessionId.None?
  {
    Ssl(None, false)
  }

  /** `SESSION_${n}`: never empty, so always truthy. */
  function SessionName(n: SessionDraw): (id: string)
    ensures |id| > |SessionPrefix| && id[..|SessionPrefix|] == SessionPrefix
  {
    SessionPrefix + NatToString(n)
  }

  /** An authenticated connection has a session. */
  predicate Valid(s: Ssl) {
    s.isAuthenticated ==> s.sessionId.Some?
  }

  /** `establishConnection()`: a fresh id on success, nothing on failure; authentication is kept. */
  function EstablishConnection(s: Ssl, ok: bool, n: SessionDraw): (res: (Ssl, bool))
    ensures res.1 == ok
    ensures !ok ==> res.0 == s
    ensures ok ==> res.0 == s.(sessionId := Some(SessionName(n)))
  {
    if ok then (s.(sessionId := Some(SessionName(n))), true) else (s, false)
  }

  /** `authenticate()`: the flag takes the draw, and a failure drops the session. */
  function Authenticate(s: Ssl, ok: bool): (res: (Ssl, bool))
    ensures s.sessionId.None? ==> res == (s, false)
    ensures s.sessionId.Some? ==> res.1 == ok && res.0.isAuthenticated == ok
    ensures s.sessionId.Some? ==> res.0.sessionId == if ok then s.sessionId else None
  {
    if s.sessionId.None? then (s, false)
    else if ok then (s.(isAuthenticated := true), true)
    else (Ssl(None, false), false)
  }

  /** `encryptData(data)`. */
  function EncryptData(s: Ssl, data: string): (r: string)
    ensures !s.isAuthenticated ==> r == ""
    ensures s.isAuthenticated ==> r == Opener + data + ")"
  {
    if !s.isAuthenticated then "" else Wrap(Opener, data)
  }

  /** `decryptData(data)`. */
  function DecryptData(s: Ssl, data: string): (r: string)
    ensures !s.isAuthenticated ==> r == ""
  {
    if !s.isAuthenticated then "" else Unwrap(Opener, data)
  }

  /** Decryption undoes encryption on an authenticated connection for data without `)`. */
  lemma DecryptEncrypt(s: Ssl, x: string)
    requires s.isAuthenticated && ')' !in x
    ensures DecryptData(s, EncryptData(s, x)) == x
  {
    UnwrapWrap(Opener, x);
  }

  /** `terminateConnection()`. */
  function TerminateConnection(s: Ssl): (s': Ssl)
    ensures s.sessionId.None? ==> s' == s
    ensures s.sessionId.Some? ==> s' == Init()
  {
    if s.sessionId.None? then s else Ssl(None, false)
  }

  lemma TerminateIdempotent(s: Ssl)
    ensures TerminateConnection(TerminateConnection(s)) == TerminateConnection(s)
    ensures TerminateConnection(s).sessionId.None?
  {
  }

  /** `renegotiateSession()`. */
  function RenegotiateSession(s: Ssl, ok: bool, n: SessionDraw): (res: (Ssl, bool))
    ensures s.sessionId.None? ==> res == (s, false)
    ensures s.sessionId.Some? ==> res.1 == ok
    ensures s.sessionId.Some? && ok ==> res.0 == s.(sessionId := Some(SessionName(n)))
    ensures s.sessionId.Some? && !ok ==> res.0 == Init()
  {
    if s.sessionId.None? then (s, false)
    else if ok then (s.(sessionId := Some(SessionName(n))), true)
    else (TerminateConnection(s), false)
  }

  datatype Call =
    | Establish(ok: bool, n: SessionDraw)
    | Authenticate(ok: bool)
    | Encrypt(data: string)
    | Decrypt(data: string)
    | Terminate
    | Renegotiate(ok: bool, n: SessionDraw)

  function Step(s: Ssl, c: Call): Ssl {
    match c
    case Establish(ok, n) => EstablishConnection(s, ok, n).0
    case Authenticate(ok) => Authenticate(s, ok).0
    case Encrypt(_) => s
    case Decrypt(_) => s
    case Terminate => TerminateConnection(s)
    case Renegotiate(ok, n) => RenegotiateSession(s, ok, n).0
  }

  function Run(s: Ssl, calls: seq<Call>): Ssl
    decreases |calls|
  {
    if |calls| == 0 then s else Run(Step(s, calls[0]), calls[1..])
  }

  lemma StepValid(s: Ssl, c: Call)
    requires Valid(s)
    ensures Valid(Step(s, c))
  {
  }

  /** Every sequence of method calls from the constructor keeps the invariant. */
  lemma {:induction false} RunValid(s: Ssl, calls: seq<Call>)
    requires Valid(s)
    ensures Valid(Run(s, calls))
    decreases |calls|
  {
    if |calls| > 0 {
      StepValid(s, calls[0]);
      RunValid(Step(s, calls[0]), calls[1..]);
    }
  }
}
