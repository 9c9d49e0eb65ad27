/**
 * The HTTP application protocol (src/layers/layer7/protocols/HTTP.ts):
 * a `connected` flag set by a successful setup, a header record only
 * `setHeader` writes, and six request operations that answer with a fixed
 * failure message unless connected. Requests change no state.
 */
module Http {
  import opened Strings

  datatype Http = Http(connected: bool, headers: map<string, string>)

  /** The six request operations with their arguments. */
  datatype Request =
    | SendData(data: string, destination: string)
    | ReceiveData(data: string)
    | SendGet(destination: string)
    | SendPost(destination: string, body: string)
    | SendPut(destination: string, body: string)
    | SendDelete(destination: string)

  const FailurePrefix: string := "Failed to "
  /** Every successful reply starts with this tag. */
  const ReplyTag: string := "HTTP_"

  function Init(): (s: Http)
    ensures !s.connected && s.headers == map[]
  {
    Http(false, map[])
  }

  /** The operation a refusal names: "send data", "perform GET", ... */
  function Action(r: Request): string {
    match r
    case SendData(_, _) => "send data"
    case ReceiveData(_) => "receive data"
    case SendGet(_) => "perform GET"
    case SendPost(_, _) => "perform POST"
    case SendPut(_, _) => "perform PUT"
    case SendDelete(_) => "perform DELETE"
  }

  /** The answer of a request while not connected. */
  function Failure(r: Request): string {
    FailurePrefix + Action(r) + ". Connection not established."
  }

  /** The answer of a request while connected. */
  function Success(r: Request): string {
    match r
    case SendData(data, _) => ReplyTag + "REQUEST_SENT(" + data + ")"
    case ReceiveData(data) => ReplyTag + "RESPONSE(" + data + ")"
    case SendGet(d) => ReplyTag + "GET_RESPONSE(Success: Data retrieved from " + d + ")"
    case SendPost(d, _) => ReplyTag + "POST_RESPONSE(Success: Data posted to " + d + ")"
    case SendPut(d, _) => ReplyTag + "PUT_RESPONSE(Success: Data updated at " + d + ")"
    case SendDelete(d) => ReplyTag + "DELETE_RESPONSE(Success: Data deleted at " + d + ")"
  }

  /** `sendData`, `receiveData`, `sendGET`, `sendPOST`, `sendPUT`, `sendDELETE`. */
  function Handle(s: Http, r: Request): (reply: string)
    ensures !s.connected ==> reply == Failure(r)
    ensures s.connected ==> reply == Success(r)
  {
    if s.connected then Success(r) else Failure(r)
  }

  predicate IsFailure(reply: string) {
    |reply| >= |FailurePrefix| && reply[..|FailurePrefix|] == FailurePrefix
  }

  /** A caller can tell from the reply alone whether the request was refused. */
  lemma RefusedExactlyWhenDisconnected(s: Http, r: Request)
    ensures IsFailure(Handle(s, r)) <==> !s.connected
  {
    var reply := Handle(s, r);
    if s.connected {
      assert reply[0] == ReplyTag[0] == 'H';
      assert reply[..|FailurePrefix|][0] != FailurePrefix[0];
    } else {
      assert reply[..|FailurePrefix|] == FailurePrefix;
    }
  }

  /** `setupConnection(destination)` with the draw `ok`. */
  function SetupConnection(s: Http, ok: bool): (res: (Http, bool))
    ensures res.1 == ok
    ensures res.0.connected == (ok || s.connected)
    ensures res.0.headers == s.headers
  {
    if ok then (s.(connected := true), true) else (s, false)
  }

  /** `teardownConnection(destination)`. */
  function TeardownConnection(s: Http, destination: string): (res: (Http, string))
    ensures !res.0.connected && res.0.headers == s.headers
    ensures s.connected ==> res.1 == "Connection to " + destination + " closed successfully."
    ensures !s.connected ==> res == (s, "No connection to close.")
  {
    if s.connected then (s.(connected := false), "Connection to " + destination + " closed successfully.")
    else (s, "No connection to close.")
  }

  /** `setHeader(key, value)`. */
  function SetHeader(s: Http, key: string, value: string): (s': Http)
    ensures key in s'.headers && s'.headers[key] == value
    ensures forall k :: k in s.headers && k != key ==> k in s'.headers && s'.headers[k] == s.headers[k]
    ensures s'.headers.Keys == s.headers.Keys + {key}
    ensures s'.connected == s.connected
  {
    s.(headers := s.headers[key := value])
  }

  /** A method call on the protocol object, with its draws. */
  datatype Call =
    | Setup(ok: bool)
    | Teardown(destination: string)
    | Header(key: string, value: string)
    | Issue(r: Request)

  function Step(s: Http, c: Call): Http {
    match c
    case Setup(ok) => SetupConnection(s, ok).0
    case Teardown(d) => TeardownConnection(s, d).0
    case Header(k, v) => SetHeader(s, k, v)
    case Issue(_) => s
  }

  /** Only setup and teardown move the `connected` flag; only `setHeader` touches the headers. */
  lemma StepFrame(s: Http, c: Call)
    ensures !c.Setup? && !c.Teardown? ==> Step(s, c).connected == s.connected
    ensures !c.Header? ==> Step(s, c).headers == s.headers
  {
  }
}

/**
 * The HTTPS application protocol (src/layers/layer7/protocols/HTTPS.ts):
 * HTTP's shape with "Secure" messages, a `getHeader` that falls back on
 * "Header not set." for a missing or empty value, and request data
 * wrapped as `ENCRYPTED(...)`.
 */
module Https {
  import opened Strings
  import opened Tags

  datatype Https = Https(connected: bool, headers: map<string, string>)

  datatype Request =
    | SendData(data: string, destination: string)
    | ReceiveData(data: string)
    | SendGet(destination: string)
    | SendPost(destination: string, body: string)
    | SendPut(destination: string, body: string)
    | SendDelete(destination: string)

  const Opener: string := "ENCRYPTED("
  const SentPrefix: string := "HTTPS_REQUEST_SENT("
  const HeaderNotSet: string := "Header not set."
  const FailurePrefix: string := "Failed to "

  function Init(): (s: Https)
    ensures !s.connected && s.headers == map[]
  {
    Https(false, map[])
  }

  function Action(r: Request): string {
    match r
    case SendData(_, _) => "send data"
    case ReceiveData(_) => "receive data"
    case SendGet(_) => "perform GET"
    case SendPost(_, _) => "perform POST"
    case SendPut(_, _) => "perform PUT"
    case SendDelete(_) => "perform DELETE"
  }

  function Failure(r: Request): string {
    FailurePrefix + Action(r) + ". Secure connection not established."
  }

  /** `encryptData`: the data between `ENCRYPTED(` and `)`, which `DecryptData` takes off again. */
  function EncryptData(data: string): (r: string)
    ensures |r| == |Opener| + |data| + 1
    ensures r[..|Opener|] == Opener && r[|Opener|..|r| - 1] == data && r[|r| - 1] == ')'
    ensures ')' !in data ==> DecryptData(r) == data
  {
    if ')' in data then Wrap(Opener, data)
    else
      UnwrapWrap(Opener, data);
      Wrap(Opener, data)
  }

  /** `decryptData`: at most the tag and one `)` are taken out. */
  function DecryptData(data: string): (r: string)
    ensures !Contains(data, Opener) && ')' !in data ==> r == data
    ensures |data| - |Opener| - 1 <= |r| <= |data|
  {
    if !Contains(data, Opener) && ')' !in data then
      UnwrapIdentity(Opener, data);
      Unwrap(Opener, data)
    else Unwrap(Opener, data)
  }

  function Success(r: Request): string {
    match r
    case SendData(data, _) => SentPrefix + EncryptData(data) + ")"
    case ReceiveData(data) => DecryptData(data)
    case SendGet(d) => "HTTPS_GET_RESPONSE(Success: Secure data retrieved from " + d + ")"
    case SendPost(d, _) => "HTTPS_POST_RESPONSE(Success: Secure data posted to " + d + ")"
    case SendPut(d, _) => "HTTPS_PUT_RESPONSE(Success: Secure data updated at " + d + ")"
    case SendDelete(d) => "HTTPS_DELETE_RESPONSE(Success: Secure data deleted at " + d + ")"
  }

  function Handle(s: Https, r: Request): (reply: string)
    ensures !s.connected ==> reply == Failure(r)
    ensures s.connected ==> reply == Success(r)
  {
    if s.connected then Success(r) else Failure(r)
  }

  /** A sent request carries the data wrapped twice. */
  lemma SendDataShape(s: Https, data: string, destination: string)
    requires s.connected
    ensures Handle(s, SendData(data, destination)) == "HTTPS_REQUEST_SENT(ENCRYPTED(" + data + "))"
  {
  }

  /** Received `ENCRYPTED(x)` decrypts to `x` when `x` holds no `)`. */
  lemma ReceiveEncrypted(s: Https, x: string)
    requires s.connected && ')' !in x
    ensures Handle(s, ReceiveData(Opener + x + ")")) == x
  {
    UnwrapWrap(Opener, x);
  }

  /** The opener is first found right after the request prefix. */
  lemma SentPrefixHasNoParen()
    ensures ')' !in SentPrefix
  {
  }

  lemma OpenerAfterSentPrefix()
    ensures IsFirst(SentPrefix + Opener, Opener, |SentPrefix|)
  {
    var s := SentPrefix + Opener;
    assert OccursAt(s, Opener, |SentPrefix|) by {
      assert s[|SentPrefix|..|SentPrefix| + |Opener|] == Opener;
    }
    forall j: nat | j < |SentPrefix|
      ensures !OccursAt(s, Opener, j)
    {
      if j + |Opener| <= |s| {
        assert s[j..j + |Opener|][0] == s[j];
        assert s[j..j + |Opener|][1] == s[j + 1];
        assert s[j..j + |Opener|][2] == s[j + 2];
      }
    }
  }

  /** The text a connected client sends for `x`. */
  lemma SentText(s: Https, x: string, destination: string)
    requires s.connected
    ensures Handle(s, SendData(x, destination)) == SentPrefix + Opener + x + ")" + ")"
  {
    assert EncryptData(x) == Opener + x + ")";
  }

  /** A connected client receives by `decryptData`. */
  lemma ReceivedText(s: Https, t: string)
    requires s.connected
    ensures Handle(s, ReceiveData(t)) == Unwrap(Opener, t)
  {
  }

  /**
   * Receiving what was sent does not give the data back: only the inner
   * wrapper is removed, and the outer request tag stays.
   */
  lemma ReceiveSent(s: Https, x: string, destination: string)
    requires s.connected && ')' !in x
    ensures Handle(s, ReceiveData(Handle(s, SendData(x, destination)))) == SentPrefix + x + ")"
  {
    SentText(s, x, destination);
    ReceivedText(s, SentPrefix + Opener + x + ")" + ")");
    OpenerAfterSentPrefix();
    SentPrefixHasNoParen();
    UnwrapInside(Opener, SentPrefix, x, ")");
  }

  function SetupConnection(s: Https, ok: bool): (res: (Https, bool))
    ensures res.1 == ok
    ensures res.0.connected == (ok || s.connected)
    ensures res.0.headers == s.headers
  {
    if ok then (s.(connected := true), true) else (s, false)
  }

  function TeardownConnection(s: Https, destination: string): (res: (Https, string))
    ensures !res.0.connected && res.0.headers == s.headers
    ensures s.connected ==> res.1 == "Secure connection to " + destination + " closed successfully."
    ensures !s.connected ==> res == (s, "No secure connection to close.")
  {
    if s.connected then (s.(connected := false), "Secure connection to " + destination + " closed successfully.")
    else (s, "No secure connection to close.")
  }

  function SetHeader(s: Https, key: string, value: string): (s': Https)
    ensures key in s'.headers && s'.headers[key] == value
    ensures forall k :: k in s.headers && k != key ==> k in s'.headers && s'.headers[k] == s.headers[k]
    ensures s'.headers.Keys == s.headers.Keys + {key}
    ensures s'.connected == s.connected
  {
    s.(headers := s.headers[key := value])
  }

  /** `getHeader(key)`: `value || "Header not set."`, so an empty value also reads as unset. */
  function GetHeader(s: Https, key: string): (v: string)
    ensures key in s.headers && s.headers[key] != "" ==> v == s.headers[key]
    ensures key !in s.headers || s.headers[key] == "" ==> v == HeaderNotSet
  {
    if key in s.headers && s.headers[key] != "" then s.headers[key] else HeaderNotSet
  }

  /** A non-empty header reads back; other headers read as before. */
  lemma GetSetHeader(s: Https, key: string, value: string, other: string)
    requires value != ""
    ensures GetHeader(SetHeader(s, key, value), key) == value
    ensures other != key ==> GetHeader(SetHeader(s, key, value), other) == GetHeader(s, other)
  {
  }

  /** An empty header cannot be told from a missing one. */
  lemma EmptyHeaderUnset(s: Https, key: string)
    ensures GetHeader(SetHeader(s, key, ""), key) == HeaderNotSet
  {
  }

  predicate IsFailure(reply: string) {
    |reply| >= |FailurePrefix| && reply[..|FailurePrefix|] == FailurePrefix
  }

  /** Every refusal starts with "Failed to ". */
  lemma RefusalsAreFailures(s: Https, r: Request)
    requires !s.connected
    ensures IsFailure(Handle(s, r))
  {
    assert Handle(s, r)[..|FailurePrefix|] == FailurePrefix;
  }

  datatype Call =
    | Setup(ok: bool)
    | Teardown(destination: string)
    | Header(key: string, value: string)
    | Issue(r: Request)

  function Step(s: Https, c: Call): Https {
    match c
    case Setup(ok) => SetupConnection(s, ok).0
    case Teardown(d) => TeardownConnection(s, d).0
    case Header(k, v) => SetHeader(s, k, v)
    case Issue(_) => s
  }

  lemma StepFrame(s: Https, c: Call)
    ensures !c.Setup? && !c.Teardown? ==> Step(s, c).connected == s.connected
    ensures !c.Header? ==> Step(s, c).headers == s.headers
  {
  }
}
