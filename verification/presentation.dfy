/**
 * The presentation layer (src/layers/layer6/PresentationLayer.ts): an
 * encoding format written as a prefix, and an optional key that, when
 * truthy, adds a second prefix.
 */
module PresentationLayer {
  import opened Wrappers
  import opened Strings

  /** `encryptionKey` is `string | null`; `None` is `null`. */
  datatype PresentationLayer = PresentationLayer(encodingFormat: string, encryptionKey: Option<string>)

  const DefaultFormat: string := "UTF-8"

  /** `new PresentationLayer(encodingFormat = "UTF-8", encryptionKey = null)`. */
  function Init(format: Option<string>, key: Option<string>): (s: PresentationLayer)
    ensures s.encodingFormat == if format.Some? then format.value else DefaultFormat
    ensures s.encryptionKey == key
  {
    PresentationLayer(format.GetOr(DefaultFormat), key)
  }

  /** `!this.encryptionKey` fails: the key is set and non-empty. */
  predicate HasKey(s: PresentationLayer) {
    s.encryptionKey.Some? && s.encryptionKey.value != ""
  }

  /** `Encoded(format): `. */
  function EncodeTag(s: PresentationLayer): string {
    "Encoded(" + s.encodingFormat + "): "
  }

  /** `Encrypted(key): `. */
  function EncryptTag(s: PresentationLayer): string
    requires s.encryptionKey.Some?
  {
    "Encrypted(" + s.encryptionKey.value + "): "
  }

  /** `encode(data)`. */
  function Encode(s: PresentationLayer, data: string): (r: string)
    ensures |r| == |EncodeTag(s)| + |data|
    ensures r[..|EncodeTag(s)|] == EncodeTag(s) && r[|EncodeTag(s)|..] == data
  {
    EncodeTag(s) + data
  }

  /** `decode(encodedData)`: the first occurrence of the tag is removed, wherever it is. */
  function Decode(s: PresentationLayer, encoded: string): (r: string)
    ensures !Contains(encoded, EncodeTag(s)) ==> r == encoded
  {
    ReplaceFirst(encoded, EncodeTag(s), "")
  }

  lemma DecodeEncode(s: PresentationLayer, x: string)
    ensures Decode(s, Encode(s, x)) == x
  {
    ReplaceFirstAtStart(EncodeTag(s), x, "");
  }

  /** `encrypt(data)`: the identity without a truthy key. */
  function Encrypt(s: PresentationLayer, data: string): (r: string)
    ensures !HasKey(s) ==> r == data
    ensures HasKey(s) ==> |r| == |EncryptTag(s)| + |data|
    ensures HasKey(s) ==> r[..|EncryptTag(s)|] == EncryptTag(s) && r[|EncryptTag(s)|..] == data
  {
    if !HasKey(s) then data else EncryptTag(s) + data
  }

  /** `decrypt(encryptedData)`: the identity without a truthy key. */
  function Decrypt(s: PresentationLayer, encrypted: string): (r: string)
    ensures !HasKey(s) ==> r == encrypted
    ensures HasKey(s) && !Contains(encrypted, EncryptTag(s)) ==> r == encrypted
  {
    if !HasKey(s) then encrypted else ReplaceFirst(encrypted, EncryptTag(s), "")
  }

  lemma DecryptEncrypt(s: PresentationLayer, x: string)
    ensures Decrypt(s, Encrypt(s, x)) == x
  {
    if HasKey(s) {
      ReplaceFirstAtStart(EncryptTag(s), x, "");
    }
  }

  /** The receiving half undoes the sending half for every text and every key. */
  lemma PresentationRoundTrip(s: PresentationLayer, x: string)
    ensures Decode(s, Decrypt(s, Encrypt(s, Encode(s, x)))) == x
  {
    DecryptEncrypt(s, Encode(s, x));
    DecodeEncode(s, x);
  }

  /** `setEncryptionKey(key)`. */
  function SetEncryptionKey(s: PresentationLayer, key: string): (s': PresentationLayer)
    ensures s'.encryptionKey == Some(key) && s'.encodingFormat == s.encodingFormat
  {
    s.(encryptionKey := Some(key))
  }

  /** Setting the empty key switches encryption off, as `null` does. */
  lemma EmptyKeyIsNoKey(s: PresentationLayer, x: string)
    ensures Encrypt(SetEncryptionKey(s, ""), x) == x
    ensures Encrypt(SetEncryptionKey(s, ""), x) == Encrypt(s.(encryptionKey := None), x)
  {
  }
}

/** XML (src/layers/layer6/protocols/XMLProtocol.ts): `<data>` wrapping with a greedy decode. */
module Xml {
  import opened Wrappers
  import opened Strings
  import opened Patterns
  import Tags

  const Open: string := "<data>"
  const Close: string := "</data>"
  const Invalid: string := "Invalid XML"

  /** `encode(data)`. */
  function Encode(data: string): (r: string)
    ensures r == Open + data + Close
  {
    Open + data + Close
  }

  /** `decode(data)`: the group of `/<data>(.+)<\/data>/`, or "Invalid XML". */
  function Decode(data: string): (r: string)
    ensures (forall i: nat, q: nat :: !CaptureAt(data, Open, Close, i, q)) ==> r == Invalid
    ensures (exists i: nat, q: nat :: CaptureAt(data, Open, Close, i, q)) ==> |r| > 0 && SingleLine(r)
  {
    match GreedyGroup(data, Open, Close)
    case Some(g) => g
    case None => Invalid
  }

  /** Decoding undoes encoding for a non-empty line, even one holding `</data>`. */
  lemma DecodeEncode(x: string)
    requires |x| > 0 && SingleLine(x)
    ensures Decode(Encode(x)) == x
  {
    Tags.OpenerFirst(Open);
    assert Encode(x) == "" + Open + x + Close;
    GreedyGroupWrapped("", Open, x, Close);
  }

  lemma DecodeEncodeEmpty()
    ensures Decode(Encode("")) == Invalid
  {
    assert Encode("") == "" + Open + Close;
    EmptyGroupUnmatched("", Open, Close);
  }
}

/** ASCII (src/layers/layer6/protocols/ASCII.ts): `validate` and `trimNonASCIICharacters`. */
module Ascii {
  /** A code unit in `[\x00-\x7F]`. */
  predicate IsAscii(c: char) {
    c as int <= 0x7F
  }

  predicate AllAscii(t: string) {
    forall i :: 0 <= i < |t| ==> IsAscii(t[i])
  }

  /** `/^[\x00-\x7F]*$/.test(text)`: without flags the anchors bound the whole text. */
  method Validate(text: string) returns (ok: bool)
    ensures ok <==> AllAscii(text)
  {
    var i := 0;
    while i < |text|
      invariant 0 <= i <= |text|
      invariant forall j :: 0 <= j < i ==> IsAscii(text[j])
    {
      if !IsAscii(text[i]) {
        return false;
      }
      i := i + 1;
    }
    return true;
  }

  /** `text.replace(/[^\x00-\x7F]/g, "")`. */
  function Trim(text: string): (r: string)
    ensures AllAscii(r)
    ensures |r| <= |text|
    ensures forall c :: c in r <==> c in text && IsAscii(c)
    decreases |text|
  {
    if |text| == 0 then ""
    else (if IsAscii(text[0]) then [text[0]] else []) + Trim(text[1..])
  }

  /** Trimming works character by character, so the kept characters keep their order. */
  lemma {:induction false} TrimAppend(a: string, b: string)
    ensures Trim(a + b) == Trim(a) + Trim(b)
    decreases |a|
  {
    if |a| > 0 {
      assert (a + b)[1..] == a[1..] + b;
      TrimAppend(a[1..], b);
    } else {
      assert a + b == b;
    }
  }

  /** Every ASCII code unit is kept as often as it occurs. */
  lemma {:induction false} TrimCounts(text: string, c: char)
    requires IsAscii(c)
    ensures multiset(Trim(text))[c] == multiset(text)[c]
    decreases |text|
  {
    if |text| > 0 {
      TrimCounts(text[1..], c);
      assert text == [text[0]] + text[1..];
    }
  }

  /** Valid text is left alone, so trimming twice is trimming once. */
  lemma {:induction false} TrimValid(text: string)
    requires AllAscii(text)
    ensures Trim(text) == text
    decreases |text|
  {
    if |text| > 0 {
      TrimValid(text[1..]);
    }
  }

  lemma TrimIdempotent(text: string)
    ensures Trim(Trim(text)) == Trim(text)
  {
    TrimValid(Trim(text));
  }
}
