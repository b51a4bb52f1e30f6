/** Length-prefixed frames of canonical JSON (`encode_frame` and `decode_frame` of sealed_ipc_protocol.py). */
module FrameCodec {
  import opened Wrappers
  import opened CanonicalJson
  import JsonGrammar

  const MAX_FRAME_BYTES := 65_536

  type Byte = b: int | 0 <= b < 256

  datatype FrameError =
    | FrameLimitInvalid
    | FrameSizeDenied
    | FrameTruncated
    | FrameLengthDenied
    | FrameJsonInvalid
    | FrameObjectRequired
    | FrameNoncanonical

  // ---------- bytes ----------

  /** `struct.pack(">I", n)` */
  function PackLength(n: nat): (bytes: seq<Byte>)
    requires n < 0x1_0000_0000
    ensures |bytes| == 4
  {
    [n / 256 / 256 / 256, n / 256 / 256 % 256, n / 256 % 256, n % 256]
  }

  /** `struct.unpack(">I", bytes)[0]` */
  function UnpackLength(bytes: seq<Byte>): nat
    requires |bytes| == 4
  {
    var b0: int, b1: int, b2: int, b3: int := bytes[0], bytes[1], bytes[2], bytes[3];
    b0 * 256 * 256 * 256 + b1 * 256 * 256 + b2 * 256 + b3
  }

  lemma UnpackPacked(n: nat)
    requires n < 0x1_0000_0000
    ensures UnpackLength(PackLength(n)) == n
  {
    var p := n / 256;
    var q := p / 256;
    assert n == 256 * p + n % 256 && p == 256 * q + p % 256 && q == 256 * (q / 256) + q % 256;
  }

  lemma PackUnpacked(bytes: seq<Byte>)
    requires |bytes| == 4
    ensures UnpackLength(bytes) < 0x1_0000_0000 && PackLength(UnpackLength(bytes)) == bytes
  {
    var b0: int, b1: int, b2: int, b3: int := bytes[0], bytes[1], bytes[2], bytes[3];
    var n := UnpackLength(bytes);
    var q := b0 * 256 + b1;
    var p := q * 256 + b2;
    assert n == p * 256 + b3;
    assert n / 256 == p && n % 256 == b3;
    assert p / 256 == q && p % 256 == b2;
    assert q / 256 == b0 && q % 256 == b1;
  }

  /** UTF-8 encoding of ASCII text. */
  function EncodeAscii(text: string): (bytes: seq<Byte>)
    requires Ascii(text)
    ensures |bytes| == |text| && forall i :: 0 <= i < |text| ==> bytes[i] == text[i] as int
  {
    seq(|text|, i requires 0 <= i < |text| => text[i] as int)
  }

  /** UTF-8 decoding, of payloads that are ASCII. */
  function DecodeAscii(bytes: seq<Byte>): (text: Option<string>)
    ensures text.Some? <==> forall i :: 0 <= i < |bytes| ==> bytes[i] < 128
    ensures text.Some? ==> |text.value| == |bytes| && Ascii(text.value) && EncodeAscii(text.value) == bytes
  {
    if forall i :: 0 <= i < |bytes| ==> bytes[i] < 128 then
      var text := seq(|bytes|, i requires 0 <= i < |bytes| => bytes[i] as char);
      assert forall i :: 0 <= i < |bytes| ==> text[i] as int == bytes[i];
      Some(text)
    else
      None
  }

  lemma EncodeAsciiInjective(a: string, b: string)
    requires Ascii(a) && Ascii(b) && EncodeAscii(a) == EncodeAscii(b)
    ensures a == b
  {
    forall i | 0 <= i < |a|
      ensures a[i] == b[i]
    {
      assert EncodeAscii(a)[i] == EncodeAscii(b)[i];
    }
  }

  function PayloadOf(v: Json): seq<Byte> {
    PrintIsAscii(Canonicalize(v));
    EncodeAscii(CanonicalText(v))
  }

  // ---------- the codec ----------

  function EncodeFrame(v: Json, maxBytes: int): Result<seq<Byte>, FrameError> {
    if maxBytes <= 0 || MAX_FRAME_BYTES < maxBytes then Failure(FrameLimitInvalid)
    else
      var payload := PayloadOf(v);
      if payload == [] || maxBytes < |payload| then Failure(FrameSizeDenied)
      else Success(PackLength(|payload|) + payload)
  }

  function DecodeFrame(frame: seq<Byte>, maxBytes: int): Result<Json, FrameError> {
    if |frame| < 5 then Failure(FrameTruncated)
    else
      var declared, payload := UnpackLength(frame[..4]), frame[4..];
      if declared != |payload| || declared == 0 || maxBytes < declared then Failure(FrameLengthDenied)
      else
        match DecodeAscii(payload)
        case None => Failure(FrameJsonInvalid)
        case Some(text) =>
          match Loads(text)
          case None => Failure(FrameJsonInvalid)
          case Some(decoded) =>
            if !decoded.Obj? then Failure(FrameObjectRequired)
            else if PayloadOf(decoded) != payload then Failure(FrameNoncanonical)
            else Success(decoded)
  }

  /** Decoding the frame of an object gives the object with its keys in order. */
  lemma FrameRoundTrip(v: Json, maxBytes: int)
    requires Proper(v) && v.Obj? && EncodeFrame(v, maxBytes).Success?
    ensures DecodeFrame(EncodeFrame(v, maxBytes).value, maxBytes) == Success(Canonicalize(v))
    ensures Canonical(Canonicalize(v)) && SameUpToOrder(v, Canonicalize(v))
  {
    CanonicalizeKeepsContent(v);
    var payload := PayloadOf(v);
    var frame := EncodeFrame(v, maxBytes).value;
    assert frame[..4] == PackLength(|payload|) && frame[4..] == payload;
    UnpackPacked(|payload|);
    PrintIsAscii(Canonicalize(v));
    EncodeAsciiInjective(DecodeAscii(payload).value, CanonicalText(v));
    JsonGrammar.CanonicalTextReadsBack(v);
    CanonicalizeIsCanonical(v);
    CanonicalIsFixed(Canonicalize(v));
  }

  /** A decoded frame is the frame of what it decodes to. */
  lemma DecodedIsEncoded(frame: seq<Byte>, maxBytes: int)
    requires 0 < maxBytes <= MAX_FRAME_BYTES && DecodeFrame(frame, maxBytes).Success?
    ensures EncodeFrame(DecodeFrame(frame, maxBytes).value, maxBytes) == Success(frame)
  {
    PackUnpacked(frame[..4]);
    assert frame == frame[..4] + frame[4..];
  }

  ghost predicate IsFrameOfObject(frame: seq<Byte>, maxBytes: int) {
    exists v: Json :: Proper(v) && v.Obj? && EncodeFrame(v, maxBytes) == Success(frame)
  }

  /** `decode_frame` accepts a byte string iff it is the frame of some object within the limit. */
  lemma AcceptedFramesAreEncodings(frame: seq<Byte>, maxBytes: int)
    requires 0 < maxBytes <= MAX_FRAME_BYTES
    ensures DecodeFrame(frame, maxBytes).Success? <==> IsFrameOfObject(frame, maxBytes)
  {
    if v: Json :| Proper(v) && v.Obj? && EncodeFrame(v, maxBytes) == Success(frame) {
      FrameRoundTrip(v, maxBytes);
    }
    if DecodeFrame(frame, maxBytes).Success? {
      DecodedIsEncoded(frame, maxBytes);
      var text := DecodeAscii(frame[4..]).value;
      LoadsProper(text);
    }
  }

  /** Objects have the same frame iff they are the same up to the order of keys. */
  lemma FramesAreInjective(v: Json, w: Json, maxBytes: int)
    requires Proper(v) && Proper(w)
    requires EncodeFrame(v, maxBytes).Success? && EncodeFrame(w, maxBytes).Success?
    ensures EncodeFrame(v, maxBytes) == EncodeFrame(w, maxBytes) <==> SameUpToOrder(v, w)
  {
    PrintIsAscii(Canonicalize(v));
    PrintIsAscii(Canonicalize(w));
    var a, b := EncodeFrame(v, maxBytes).value, EncodeFrame(w, maxBytes).value;
    if a == b {
      assert PayloadOf(v) == a[4..] && PayloadOf(w) == b[4..];
      EncodeAsciiInjective(CanonicalText(v), CanonicalText(w));
    }
    JsonGrammar.CanonicalTextIsInjective(v, w);
  }

  // ---------- frames, byte by byte ----------

  /** Four bytes hold the length, the most significant first, and the others the characters of the text. */
  ghost predicate FrameOf(frame: seq<Byte>, text: string) {
    && |frame| == 4 + |text|
    && frame[0] as int * 0x100_0000 + frame[1] as int * 0x1_0000 + frame[2] as int * 0x100 + frame[3] as int == |text|
    && forall i :: 0 <= i < |text| ==> text[i] as int < 128 && frame[4 + i] as int == text[i] as int
  }

  lemma LengthBytes(n: nat)
    requires n < 0x1_0000_0000
    ensures
      var b := PackLength(n);
      b[0] as int * 0x100_0000 + b[1] as int * 0x1_0000 + b[2] as int * 0x100 + b[3] as int == n
  {
    UnpackPacked(n);
  }

  lemma AsciiCodes(text: string)
    requires Ascii(text)
    ensures forall i :: 0 <= i < |text| ==> text[i] as int < 128
  {
  }

  /** A value is encoded iff the limit is sensible and its canonical text fits; the frame is that of the text. */
  lemma EncodedFrame(v: Json, maxBytes: int)
    ensures EncodeFrame(v, maxBytes).Success? <==> 0 < maxBytes <= 65536 && |CanonicalText(v)| <= maxBytes
    ensures EncodeFrame(v, maxBytes).Success? ==> FrameOf(EncodeFrame(v, maxBytes).value, CanonicalText(v))
  {
    var text, payload := CanonicalText(v), PayloadOf(v);
    PrintIsAscii(Canonicalize(v));
    AsciiCodes(text);
    if EncodeFrame(v, maxBytes).Success? {
      LengthBytes(|text|);
      var frame := EncodeFrame(v, maxBytes).value;
      assert frame == PackLength(|payload|) + payload;
      forall i | 0 <= i < |text|
        ensures frame[4 + i] as int == text[i] as int
      {
        assert frame[4 + i] == payload[i];
      }
    }
  }

  /** An accepted frame is that of a text within the limit that stands for the decoded object. */
  lemma DecodedFrameStandsFor(frame: seq<Byte>, maxBytes: int) returns (text: string)
    requires 0 < maxBytes <= MAX_FRAME_BYTES && DecodeFrame(frame, maxBytes).Success?
    ensures FrameOf(frame, text) && |text| <= maxBytes
    ensures DecodeFrame(frame, maxBytes).value.Obj?
    ensures JsonGrammar.StandsFor(text, DecodeFrame(frame, maxBytes).value)
  {
    var v := DecodeFrame(frame, maxBytes).value;
    text := CanonicalText(v);
    DecodedIsEncoded(frame, maxBytes);
    EncodedFrame(v, maxBytes);
    var loaded := DecodeAscii(frame[4..]).value;
    PrintIsAscii(Canonicalize(v));
    EncodeAsciiInjective(loaded, text);
    JsonGrammar.LoadedStandsFor(loaded);
  }

  ghost predicate DeclaresLength(frame: seq<Byte>, n: int)
    requires 4 <= |frame|
  {
    frame[0] as int * 0x100_0000 + frame[1] as int * 0x1_0000 + frame[2] as int * 0x100 + frame[3] as int == n
  }

  /** Which frames are rejected before their payload is looked at. */
  lemma RejectedByLength(frame: seq<Byte>, maxBytes: int)
    ensures DecodeFrame(frame, maxBytes) == Failure(FrameTruncated) <==> |frame| < 5
    ensures 5 <= |frame| ==>
      (DecodeFrame(frame, maxBytes) == Failure(FrameLengthDenied) <==>
         !DeclaresLength(frame, |frame| - 4) || maxBytes < |frame| - 4)
  {
  }

  lemma PayloadText(frame: seq<Byte>, text: string)
    requires FrameOf(frame, text)
    ensures DecodeAscii(frame[4..]) == Some(text)
      && UnpackLength(frame[..4]) == |text| && EncodeAscii(text) == frame[4..]
  {
    var payload := frame[4..];
    forall i | 0 <= i < |payload|
      ensures payload[i] as int == text[i] as int < 128
    {
      assert payload[i] == frame[4 + i];
    }
    assert DecodeAscii(payload).value == text;
  }

  /** How a frame of a text within the limit is decoded, by what the text stands for. */
  lemma DecodeAnswer(frame: seq<Byte>, text: string, maxBytes: int)
    requires FrameOf(frame, text) && 1 <= |text| <= maxBytes
    ensures
      var answer := DecodeFrame(frame, maxBytes);
      && (answer == Failure(FrameJsonInvalid) <==> forall v :: !JsonGrammar.StandsFor(text, v))
      && forall v :: JsonGrammar.StandsFor(text, v) ==>
           if !v.Obj? then answer == Failure(FrameObjectRequired)
           else if text != CanonicalText(v) then answer == Failure(FrameNoncanonical)
           else answer == Success(v)
  {
    PayloadText(frame, text);
    forall v
      ensures Loads(text) == Some(v) <==> JsonGrammar.StandsFor(text, v)
    {
      JsonGrammar.LoadsExactlyWhatStands(text, v);
    }
    if Loads(text).Some? {
      var v := Loads(text).value;
      PrintIsAscii(Canonicalize(v));
      assert PayloadOf(v) == EncodeAscii(CanonicalText(v));
      if PayloadOf(v) == frame[4..] {
        EncodeAsciiInjective(CanonicalText(v), text);
      }
    }
  }
}
