/**
 * The physical layer (src/layers/layer1/PhysicalLayer.ts): an error rate
 * and a transmission that, when a draw falls below the rate, flips one
 * character of the bit string.
 */
module PhysicalLayer {
  import opened Wrappers

  datatype PhysicalLayer = PhysicalLayer(transmissionErrorRate: real)

  /** A value of `Math.random()`. */
  type Draw = r: real | 0.0 <= r < 1.0

  /** `new PhysicalLayer(errorRate = 0.0)`. */
  function Init(errorRate: Option<real>): (s: PhysicalLayer)
    ensures errorRate.None? ==> s.transmissionErrorRate == 0.0
    ensures errorRate.Some? ==> s.transmissionErrorRate == errorRate.value
  {
    PhysicalLayer(errorRate.GetOr(0.0))
  }

  function SetErrorRate(s: PhysicalLayer, errorRate: real): (s': PhysicalLayer)
    ensures s'.transmissionErrorRate == errorRate
  {
    PhysicalLayer(errorRate)
  }

  /**
   * The index `Math.floor(Math.random() * bits.length)` can take: below the
   * length, or 0 for the empty string.
   */
  predicate IndexDraw(bits: string, i: nat) {
    i < |bits| || i == 0
  }

  /** `Math.floor(pick * n)`: the index drawn for a text of length `n`. */
  function ErrorIndex(pick: Draw, n: nat): (i: nat)
    ensures n > 0 ==> i < n
    ensures n == 0 ==> i == 0
  {
    var p := pick * (n as real);
    assert 0.0 <= p && (n > 0 ==> p < n as real);
    p.Floor
  }

  /** Every position of a non-empty text is drawn by some value. */
  lemma EveryIndexDrawn(n: nat, i: nat)
    requires i < n
    ensures var pick := (i as real) / (n as real); 0.0 <= pick < 1.0 && ErrorIndex(pick, n) == i
  {
    var pick := (i as real) / (n as real);
    assert pick * (n as real) == i as real;
  }

  /**
   * `introduceError(bits)` with the drawn index `i`: position `i` becomes
   * "1" if it was "0" and "0" otherwise. On "" the write at index 0 makes
   * the one-character string "0".
   */
  function IntroduceError(bits: string, i: nat): (r: string)
    requires IndexDraw(bits, i)
    ensures |bits| == 0 ==> r == "0"
    ensures |bits| > 0 ==> |r| == |bits| && r[i] != bits[i]
    ensures |bits| > 0 ==> r[i] == if bits[i] == '0' then '1' else '0'
    ensures |bits| > 0 ==> forall j :: 0 <= j < |bits| && j != i ==> r[j] == bits[j]
  {
    if |bits| == 0 then "0"
    else bits[i := if bits[i] == '0' then '1' else '0']
  }

  /** Flipping the same bit of a binary digit twice restores the text. */
  lemma IntroduceErrorTwice(bits: string, i: nat)
    requires i < |bits| && (bits[i] == '0' || bits[i] == '1')
    ensures IntroduceError(IntroduceError(bits, i), i) == bits
  {
  }

  /** `transmit(bits)` with the draws `roll` and `i`. */
  function Transmit(s: PhysicalLayer, bits: string, roll: Draw, i: nat): (r: string)
    requires IndexDraw(bits, i)
    ensures roll >= s.transmissionErrorRate ==> r == bits
    ensures roll < s.transmissionErrorRate ==> r == IntroduceError(bits, i)
  {
    if roll < s.transmissionErrorRate then IntroduceError(bits, i) else bits
  }

  /** With the default rate no draw falls below it, so the bits pass unchanged. */
  lemma DefaultTransmitsUnchanged(bits: string, roll: Draw, i: nat)
    requires IndexDraw(bits, i)
    ensures Transmit(Init(None), bits, roll, i) == bits
  {
  }

  /** At a rate of 1 or more every transmission is corrupted. */
  lemma CertainError(s: PhysicalLayer, bits: string, roll: Draw, i: nat)
    requires IndexDraw(bits, i) && s.transmissionErrorRate >= 1.0
    ensures Transmit(s, bits, roll, i) != bits
  {
  }
}

/**
 * The physical protocol base (src/layers/layer1/protocols/PhysicalProtocolBase.ts):
 * a name written in front of the bits on transmit and receive.
 */
module PhysicalProtocolBase {
  datatype PhysicalProtocolBase = PhysicalProtocolBase(protocolName: string)

  const DslName: string := "DSL (Digital Subscriber Line)"
  const FiberOpticName: string := "Fiber Optic"
  const BluetoothName: string := "Bluetooth"

  function GetName(p: PhysicalProtocolBase): (name: string)
    ensures name == p.protocolName
  {
    p.protocolName
  }

  function TransmitPrefix(p: PhysicalProtocolBase): string {
    "Transmitted via " + p.protocolName + ": "
  }

  function ReceivePrefix(p: PhysicalProtocolBase): string {
    "Received via " + p.protocolName + ": "
  }

  /** `transmit(bits)`: the bits end the report. */
  function Transmit(p: PhysicalProtocolBase, bits: string): (r: string)
    ensures |r| >= |bits| && r[|r| - |bits|..] == bits
    ensures r[..|r| - |bits|] == TransmitPrefix(p)
  {
    TransmitPrefix(p) + bits
  }

  /** `receive(bits)`: the bits end the report. */
  function Receive(p: PhysicalProtocolBase, bits: string): (r: string)
    ensures |r| >= |bits| && r[|r| - |bits|..] == bits
    ensures r[..|r| - |bits|] == ReceivePrefix(p)
  {
    ReceivePrefix(p) + bits
  }

  /** The report determines the bits, so nothing is lost in either direction. */
  lemma ReportsInjective(p: PhysicalProtocolBase, a: string, b: string)
    ensures Transmit(p, a) == Transmit(p, b) ==> a == b
    ensures Receive(p, a) == Receive(p, b) ==> a == b
  {
    if Transmit(p, a) == Transmit(p, b) {
      assert a == Transmit(p, a)[|TransmitPrefix(p)|..];
    }
    if Receive(p, a) == Receive(p, b) {
      assert a == Receive(p, a)[|ReceivePrefix(p)|..];
    }
  }
}

/**
 * DSL (src/layers/layer1/protocols/DSL.ts): transmission needs a line noise
 * draw below 30 dB; reception reads the lazy group of
 * `/DSL_MODULATED\((.+?)\)/`.
 */
module Dsl {
  import opened Wrappers
  import opened Strings
  import opened Patterns
  import Tags

  /** `Math.floor(Math.random() * 50)`. */
  type NoiseDraw = n: nat | n < 50

  const Opener: string := "DSL_MODULATED("
  const Failed: string := "[DSL] Data " + "transmission failed " + "due to unsynchronized " + "connection."

  /** `synchronizeConnection()` with the measured noise. */
  function SynchronizeConnection(noise: NoiseDraw): (ok: bool)
    ensures ok <==> noise < 30
  {
    noise < 30
  }

  /** `transmitData(data)`. */
  function TransmitData(data: string, noise: NoiseDraw): (r: string)
    ensures !SynchronizeConnection(noise) ==> r == Failed
    ensures SynchronizeConnection(noise) ==> r == Tags.Wrap(Opener, data)
  {
    if !SynchronizeConnection(noise) then Failed else Tags.Wrap(Opener, data)
  }

  /** `receiveData(data)`: the lazy group, or "" without a match. */
  function ReceiveData(data: string): (r: string)
    ensures (forall i: nat, q: nat :: !CaptureAt(data, Opener, ")", i, q)) <==> r == ""
    ensures r != "" ==> SingleLine(r)
  {
    match LazyGroup(data, Opener, ")")
    case Some(g) => g
    case None => ""
  }

  /** A synchronized transmission of a non-empty line without `)` is read back. */
  lemma ReceiveTransmit(x: string, noise: NoiseDraw)
    requires noise < 30
    requires |x| > 0 && SingleLine(x) && ')' !in x
    ensures ReceiveData(TransmitData(x, noise)) == x
  {
    Tags.OpenerFirst(Opener);
    assert TransmitData(x, noise) == "" + Opener + x + [')'] + "";
    LazyGroupWrapped("", Opener, x, ')', "");
  }

  /** An empty payload is no match. */
  lemma ReceiveEmpty(noise: NoiseDraw)
    requires noise < 30
    ensures ReceiveData(TransmitData("", noise)) == ""
  {
    assert TransmitData("", noise) == "" + Opener + ")";
    EmptyGroupUnmatched("", Opener, ")");
  }

  /** The failure message holds no opener, so it reads as "". */
  lemma ReceiveFailure()
    ensures ReceiveData(Failed) == ""
  {
    assert '_' in Opener;
    AbsentByChar(Failed, Opener, '_');
  }
}

/**
 * Fiber optics (src/layers/layer1/protocols/FiberOptic.ts): transmission
 * needs a stable light signal; reception reads the lazy group of
 * `/FIBER_LIGHT\((.+?)\)/`. `checkLightSignal` and `repairFiberStrand`
 * only return their draw, which is the `stable` parameter here.
 */
module FiberOptic {
  import opened Wrappers
  import opened Strings
  import opened Patterns
  import Tags

  const Opener: string := "FIBER_LIGHT("
  const Failed: string := "[Fiber Optic] " + "Transmission failed " + "due to unstable " + "light signal."

  /** `transmitData(data)` with the light signal check `stable`. */
  function TransmitData(data: string, stable: bool): (r: string)
    ensures !stable ==> r == Failed
    ensures stable ==> r == Tags.Wrap(Opener, data)
  {
    if !stable then Failed else Tags.Wrap(Opener, data)
  }

  /** `receiveData(data)`: the lazy group, or "" without a match. */
  function ReceiveData(data: string): (r: string)
    ensures (forall i: nat, q: nat :: !CaptureAt(data, Opener, ")", i, q)) <==> r == ""
    ensures r != "" ==> SingleLine(r)
  {
    match LazyGroup(data, Opener, ")")
    case Some(g) => g
    case None => ""
  }

  lemma ReceiveTransmit(x: string)
    requires |x| > 0 && SingleLine(x) && ')' !in x
    ensures ReceiveData(TransmitData(x, true)) == x
  {
    Tags.OpenerFirst(Opener);
    assert TransmitData(x, true) == "" + Opener + x + [')'] + "";
    LazyGroupWrapped("", Opener, x, ')', "");
  }

  lemma ReceiveEmpty()
    ensures ReceiveData(TransmitData("", true)) == ""
  {
    assert TransmitData("", true) == "" + Opener + ")";
    EmptyGroupUnmatched("", Opener, ")");
  }

  lemma ReceiveFailure()
    ensures ReceiveData(Failed) == ""
  {
    assert '_' in Opener;
    AbsentByChar(Failed, Opener, '_');
  }
}

/**
 * Bluetooth (src/layers/layer1/protocols/Bluetooth.ts): transmission needs
 * a signal of at least -80 dBm; reception strips `BLUETOOTH_ENCODED(` and
 * the first `)`; interference moves to the next of 79 channels.
 */
module Bluetooth {
  import opened Strings
  import Tags

  /** `Math.floor(Math.random() * 50) - 90`. */
  type Strength = n: int | -90 <= n <= -41 witness -90

  /** `Math.floor(Math.random() * 79) + 1`. */
  type Channel = n: int | 1 <= n <= 79 witness 1

  const Opener: string := "BLUETOOTH_ENCODED("
  const Sent: string := "Data " + "transmitted " + "successfully: "
  const WeakSignal: string := "Transmission failed due to weak signal."

  /** `checkPairingStatus()` with the discovery draw `found` and the pairing draw `paired`. */
  function CheckPairingStatus(found: bool, paired: bool): (ok: bool)
    ensures ok <==> found && paired
  {
    if !found then false else paired
  }

  /** `transmitData(data)` with the measured strength. */
  function TransmitData(data: string, strength: Strength): (r: string)
    ensures strength < -80 ==> r == WeakSignal
    ensures strength >= -80 ==> r == Sent + Tags.Wrap(Opener, data)
  {
    if strength < -80 then WeakSignal else Sent + Tags.Wrap(Opener, data)
  }

  /** `receiveData(data)`: at most the tag and one `)` are taken out. */
  function ReceiveData(data: string): (r: string)
    ensures !Contains(data, Opener) && ')' !in data ==> r == data
    ensures |data| - |Opener| - 1 <= |r| <= |data|
  {
    if !Contains(data, Opener) && ')' !in data then
      Tags.UnwrapIdentity(Opener, data);
      Tags.Unwrap(Opener, data)
    else Tags.Unwrap(Opener, data)
  }

  lemma ReceiveEncoded(x: string)
    requires ')' !in x
    ensures ReceiveData(Opener + x + ")") == x
  {
    Tags.UnwrapWrap(Opener, x);
  }

  /** Receiving a successful transmission keeps the confirmation text in front. */
  lemma ReceiveTransmit(x: string, strength: Strength)
    requires strength >= -80 && ')' !in x
    ensures ReceiveData(TransmitData(x, strength)) == Sent + x
  {
    OpenerAfterSent();
    Tags.UnwrapAfter(Opener, Sent, x);
  }

  /** The confirmation text holds no `)`, and the opener is first found right after it. */
  lemma OpenerAfterSent()
    ensures ')' !in Sent
    ensures IsFirst(Sent + Opener, Opener, |Sent|)
  {
    assert Opener[0] == 'B' && 'B' !in Sent;
    FirstAfterByHead(Sent, Opener, Opener);
    assert Sent + Opener == Sent + Opener + "";
  }

  /** `handleInterference()` from the drawn channel `current`. */
  function HandleInterference(current: Channel): (next: Channel)
    ensures next != current
    ensures current < 79 ==> next == current + 1
    ensures current == 79 ==> next == 1
  {
    if current == 79 then 1 else current + 1
  }

  /** Hopping `k` times from `c`. */
  function Hop(c: Channel, k: nat): Channel
    decreases k
  {
    if k == 0 then c else Hop(HandleInterference(c), k - 1)
  }

  /** Hopping walks the channels in a cycle of 79. */
  lemma {:induction false} HopCycle(c: Channel, k: nat)
    ensures Hop(c, k) == (c - 1 + k) % 79 + 1
    decreases k
  {
    if k > 0 {
      HopCycle(HandleInterference(c), k - 1);
    }
  }

  /** Every channel is revisited after exactly 79 hops. */
  lemma HopReturns(c: Channel)
    ensures Hop(c, 79) == c
  {
    HopCycle(c, 79);
  }
}
