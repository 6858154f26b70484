/**
 * The BattleBoats wire format (battleBoats/src/Message.c): NMEA-style
 * frames "$PAYLOAD*HH\r\n" where HH is the XOR checksum of the payload in
 * two upper-case hexadecimal digits, the encoder, the payload parser and
 * the byte-at-a-time decoder with its fixed 82-byte buffer.
 */
module Message {
  import opened Bits
  import opened Text

  const MaxLen := 82         // MESSAGE_MAX_LEN
  const MaxPayloadLen := 76  // MESSAGE_MAX_PAYLOAD_LEN
  const ChecksumLen := 2     // MESSAGE_CHECKSUM_LEN

  datatype MessageType = MsgNone | Cha | Acc | Rev | Sho | Res | MsgError

  /** An outgoing message; the parameters are C unsigned ints. */
  datatype Message = Message(kind: MessageType, param0: u32, param1: u32, param2: u32)

  datatype EventType =
    | NoEvent | StartButton | ResetButton
    | ChaReceived | AccReceived | RevReceived | ShoReceived | ResReceived
    | MessageSent | ErrorEvent | SouthButton | EastButton

  /** A BattleBoats event; its parameters are 16-bit fields. */
  datatype Event = Event(kind: EventType, param0: u16, param1: u16, param2: u16)

  /** The types the encoder writes a frame for; NONE and ERROR produce nothing. */
  predicate Sendable(k: MessageType)
  {
    k != MsgNone && k != MsgError
  }

  predicate IsReceived(k: EventType)
  {
    k == ChaReceived || k == AccReceived || k == RevReceived || k == ShoReceived || k == ResReceived
  }

  // ---------------------------------------------------------------------
  // Checksum

  /** The byte a char holds; XOR into a uint8_t keeps only the low 8 bits. */
  function Byte(c: char): nat
  {
    c as int % 256
  }

  /** XOR of the bytes of s, accumulated from the first to the last. */
  function Checksum(s: string): (c: nat)
    ensures c < 256
  {
    if s == [] then 0
    else
      var p := Checksum(s[..|s| - 1]);
      assert Pow2(8) == 256;
      XorBound(p, Byte(s[|s| - 1]), 8);
      Xor(p, Byte(s[|s| - 1]))
  }

  /** The checksum of a concatenation is the XOR of the two checksums. */
  lemma {:induction false} ChecksumAppend(s: string, t: string)
    ensures Checksum(s + t) == Xor(Checksum(s), Checksum(t))
    decreases |t|
  {
    if t == [] {
      assert s + t == s;
      XorZero(Checksum(s));
    } else {
      var t' := t[..|t| - 1];
      var x := t[|t| - 1];
      assert (s + t)[..|s + t| - 1] == s + t';
      ChecksumAppend(s, t');
      XorAssoc(Checksum(s), Checksum(t'), Byte(x));
    }
  }

  /** Changing any single byte of a payload changes its checksum. */
  lemma ChecksumDetectsSingleChange(a: string, x: char, y: char, b: string)
    requires Byte(x) != Byte(y)
    ensures Checksum(a + [x] + b) != Checksum(a + [y] + b)
  {
    assert Checksum([x]) == Byte(x) by { assert [x][..0] == []; }
    assert Checksum([y]) == Byte(y) by { assert [y][..0] == []; }
    ChecksumAppend(a + [x], b);
    ChecksumAppend(a + [y], b);
    ChecksumAppend(a, [x]);
    ChecksumAppend(a, [y]);
    if Checksum(a + [x] + b) == Checksum(a + [y] + b) {
      XorComm(Checksum(a + [x]), Checksum(b));
      XorComm(Checksum(a + [y]), Checksum(b));
      XorInjective(Checksum(b), Checksum(a + [x]), Checksum(a + [y]));
      XorInjective(Checksum(a), Byte(x), Byte(y));
      assert false;
    }
  }

  /**
   * Message_CalculateChecksum: XOR every byte of the NUL-terminated string
   * starting at mem[0].
   */
  method CalculateChecksum(mem: seq<char>) returns (checksum: u8)
    requires '\0' in mem
    ensures checksum == Checksum(CStr(mem))
  {
    checksum := 0;
    var i := 0;
    while mem[i] != '\0'
      invariant 0 <= i < |mem| && '\0' in mem[i..]
      invariant forall j :: 0 <= j < i ==> mem[j] != '\0'
      invariant checksum == Checksum(mem[..i])
      decreases |mem| - i
    {
      assert mem[..i + 1][..i] == mem[..i];
      assert Pow2(8) == 256;
      XorBound(checksum, Byte(mem[i]), 8);
      checksum := Xor(checksum, Byte(mem[i]));
      i := i + 1;
      assert mem[i..] == mem[i - 1..][1..];
    }
    assert NulIndex(mem) == i;
  }

  // ---------------------------------------------------------------------
  // Encoding

  /** The unsigned value reinterpreted as a signed 32-bit int, as "%d" prints it. */
  function AsInt32(x: u32): int
  {
    if x < 0x8000_0000 then x else x - 0x1_0000_0000
  }

  /** The three-letter type of the payload templates. */
  function Tag(k: MessageType): (t: string)
    requires Sendable(k)
    ensures |t| == 3 && forall i :: 0 <= i < 3 ==> 'A' <= t[i] <= 'Z'
  {
    match k
    case Cha => "CHA"
    case Acc => "ACC"
    case Rev => "REV"
    case Sho => "SHO"
    case Res => "RES"
  }

  /**
   * The values the template prints: "%u" for every parameter except the
   * two of SHO, which its template prints with "%d".
   */
  function Values(m: Message): (vs: seq<int>)
    requires Sendable(m.kind)
    ensures 1 <= |vs| <= 3
  {
    match m.kind
    case Cha => [m.param0]
    case Acc => [m.param0]
    case Rev => [m.param0]
    case Sho => [AsInt32(m.param0), AsInt32(m.param1)]
    case Res => [m.param0, m.param1, m.param2]
  }

  /** The payload sprintf writes from the type's template. */
  function Payload(m: Message): string
    requires Sendable(m.kind)
  {
    Tag(m.kind) + "," + Join(DecAll(Values(m)), ",")
  }

  /** Message_Encode: the full frame, or nothing for NONE and ERROR. */
  function Encode(m: Message): (r: string)
    ensures Sendable(m.kind) <==> r != []
    ensures r != [] ==> |r| >= 2 && r[0] == '$' && r[|r| - 2..] == "\r\n"
  {
    if !Sendable(m.kind) then []
    else "$" + Payload(m) + "*" + Hex2(Checksum(Payload(m))) + "\r\n"
  }

  /** Seven-bit text free of the characters that delimit a frame, as every payload the encoder writes is. */
  predicate PlainText(s: string)
  {
    forall i :: 0 <= i < |s| ==>
      s[i] as int < 128 && s[i] != '$' && s[i] != '*' && s[i] != '\r' && s[i] != '\n' && s[i] != '\0'
  }

  lemma PlainHasNoMarkers(p: string)
    requires PlainText(p)
    ensures '$' !in p && '*' !in p && '\r' !in p && '\n' !in p && '\0' !in p
  {
    assert forall c :: c in p ==> exists i :: 0 <= i < |p| && p[i] == c;
  }

  lemma SignedDecPlain(v: int)
    ensures PlainText(SignedDec(v))
  {
    if v < 0 {
      assert forall i :: 1 <= i < |SignedDec(v)| ==> SignedDec(v)[i] == Dec(-v)[i - 1];
    }
  }

  lemma PlainAppend(a: string, b: string)
    requires PlainText(a) && PlainText(b)
    ensures PlainText(a + b)
  {
    assert forall i :: |a| <= i < |a + b| ==> (a + b)[i] == b[i - |a|];
  }

  lemma {:induction false} JoinPlain(vs: seq<int>)
    ensures PlainText(Join(DecAll(vs), ","))
  {
    var ds := DecAll(vs);
    if |vs| == 1 {
      SignedDecPlain(vs[0]);
    } else if |vs| > 1 {
      assert ds[1..] == DecAll(vs[1..]);
      JoinPlain(vs[1..]);
      SignedDecPlain(vs[0]);
      PlainAppend(",", Join(ds[1..], ","));
      PlainAppend(ds[0], "," + Join(ds[1..], ","));
    }
  }

  lemma SignedDecLength(v: int)
    requires -0x1_0000_0000 < v < 0x1_0000_0000
    ensures |SignedDec(v)| <= 11
  {
    assert Pow10(10) == 10000000000;
    DecLength(if v < 0 then -v else v, 10);
  }

  /** A payload is plain text and fits well inside the 76-byte payload buffer. */
  lemma PayloadShape(m: Message)
    requires Sendable(m.kind)
    ensures PlainText(Payload(m)) && |Payload(m)| <= 40 < MaxPayloadLen
  {
    var vs := Values(m);
    var ds := DecAll(vs);
    forall i | 0 <= i < |ds|
      ensures |ds[i]| <= 11
    {
      SignedDecLength(vs[i]);
    }
    JoinLength(ds, ",", 11);
    JoinPlain(vs);
    PlainAppend(Tag(m.kind), ",");
    PlainAppend(Tag(m.kind) + ",", Join(ds, ","));
  }

  /** Every encoded frame fits the 82-byte message limit with room for its NUL. */
  lemma EncodeLength(m: Message)
    ensures |Encode(m)| <= 46 < MaxLen - 1
  {
    if Sendable(m.kind) {
      PayloadShape(m);
    }
  }

  /** An encoded frame holds no NUL, so it survives as a C string. */
  lemma EncodeHasNoNul(m: Message)
    ensures '\0' !in Encode(m)
  {
    if Sendable(m.kind) {
      PayloadShape(m);
      var p := Payload(m);
      var h := Hex2(Checksum(p));
      assert Encode(m) == "$" + p + "*" + h + "\r\n";
      assert forall i | 0 <= i < |p| :: p[i] != '\0';
      assert '\0' !in h;
    }
  }

  // ---------------------------------------------------------------------
  // Parsing

  /** What a parse leaves in the caller's event, and the status it returns. */
  datatype Outcome = Outcome(event: Event, ok: bool)

  function Fail(ev: Event): Outcome
  {
    Outcome(ev.(kind := ErrorEvent), false)
  }

  /** Store the values sscanf converted, each truncated to the 16-bit field. */
  function Store(ev: Event, vs: seq<int>): (r: Event)
    requires |vs| <= 3
    ensures r.kind == ev.kind
    ensures |vs| > 0 ==> r.param0 as int == vs[0] % 0x1_0000
    ensures |vs| > 1 ==> r.param1 as int == vs[1] % 0x1_0000
    ensures |vs| > 2 ==> r.param2 as int == vs[2] % 0x1_0000
    ensures |vs| < 1 ==> r.param0 == ev.param0
    ensures |vs| < 2 ==> r.param1 == ev.param1
    ensures |vs| < 3 ==> r.param2 == ev.param2
  {
    ev.(param0 := if |vs| > 0 then vs[0] % 0x1_0000 else ev.param0,
        param1 := if |vs| > 1 then vs[1] % 0x1_0000 else ev.param1,
        param2 := if |vs| > 2 then vs[2] % 0x1_0000 else ev.param2)
  }

  /** sscanf(payload, "<lit>%u,...,%u", ...): the values read after the literal prefix. */
  function ScanFields(payload: string, lit: string, count: nat): (vs: seq<int>)
    ensures |vs| <= count
  {
    if lit <= payload then ScanList(payload[|lit|..], count) else []
  }

  /**
   * Message_ParseMessage: check the checksum text, read the three-letter
   * type and then the type's parameters. A failure changes only the event
   * type, to ERROR.
   */
  function ParseMessage(payload: string, checksum: string, ev: Event): (r: Outcome)
    ensures r.ok ==> checksum == Hex2(Checksum(payload)) && IsReceived(r.event.kind)
    ensures !r.ok ==> r == Fail(ev)
  {
    if |checksum| != 2 then Fail(ev)
    else if Hex2(Checksum(payload)) != checksum then Fail(ev)
    else ParseFields(payload, ev)
  }

  /** The part of Message_ParseMessage after the checksum matched: type, then parameters. */
  function ParseFields(payload: string, ev: Event): (r: Outcome)
    ensures r.ok ==> IsReceived(r.event.kind)
    ensures !r.ok ==> r == Fail(ev)
  {
    match Scan3s(payload)
    case None => Fail(ev)
    case Some(tag) =>
      if tag == "CHA" then Outcome(Store(ev.(kind := ChaReceived), ScanFields(payload, "CHA,", 1)), true)
      else if tag == "ACC" then Outcome(Store(ev.(kind := AccReceived), ScanFields(payload, "ACC,", 1)), true)
      else if tag == "REV" then Outcome(Store(ev.(kind := RevReceived), ScanFields(payload, "REV,", 1)), true)
      else if tag == "SHO" then Outcome(Store(ev.(kind := ShoReceived), ScanFields(payload, "SHO,", 2)), true)
      else if tag == "RES" then Outcome(Store(ev.(kind := ResReceived), ScanFields(payload, "RES,", 3)), true)
      else Fail(ev)
  }

  /** A checksum text other than the payload's own is always rejected. */
  lemma ParseRejectsWrongChecksum(payload: string, checksum: string, ev: Event)
    requires checksum != Hex2(Checksum(payload))
    ensures ParseMessage(payload, checksum, ev) == Fail(ev)
  {
  }

  /** The number of %u conversions in the type's template: one for CHA, ACC and REV, two for SHO, three for RES. */
  function Arity(k: MessageType): (n: nat)
    requires Sendable(k)
    ensures 1 <= n <= 3
  {
    match k
    case Cha => 1
    case Acc => 1
    case Rev => 1
    case Sho => 2
    case Res => 3
  }

  /** The payload starts with the tag of some sendable type. */
  predicate KnownTag(payload: string)
  {
    exists k :: Sendable(k) && Scan3s(payload) == Some(Tag(k))
  }

  /** A type's tag at the head of the payload gives that type's RECEIVED event with whatever its conversions read stored, even none. */
  lemma ParseFieldsOfTag(payload: string, ev: Event, k: MessageType)
    requires Sendable(k) && Scan3s(payload) == Some(Tag(k))
    ensures ParseFields(payload, ev) ==
      Outcome(Store(ev.(kind := ReceivedKind(k)), ScanFields(payload, Tag(k) + ",", Arity(k))), true)
  {
    match k
    case Cha => assert Tag(k) + "," == "CHA,";
    case Acc => assert Tag(k) + "," == "ACC,";
    case Rev => assert Tag(k) + "," == "REV,";
    case Sho => assert Tag(k) + "," == "SHO,";
    case Res => assert Tag(k) + "," == "RES,";
  }

  /** The parse succeeds only on a type's tag: any other word at the head of the payload, or none, gives ERROR. */
  lemma ParseFieldsOkOnlyOnTag(payload: string, ev: Event)
    ensures ParseFields(payload, ev).ok ==> KnownTag(payload)
  {
    match Scan3s(payload)
    case None =>
    case Some(tag) =>
      if tag == "CHA" {
        assert Scan3s(payload) == Some(Tag(Cha));
      } else if tag == "ACC" {
        assert Scan3s(payload) == Some(Tag(Acc));
      } else if tag == "REV" {
        assert Scan3s(payload) == Some(Tag(Rev));
      } else if tag == "SHO" {
        assert Scan3s(payload) == Some(Tag(Sho));
      } else if tag == "RES" {
        assert Scan3s(payload) == Some(Tag(Res));
      }
  }

  /** Every payload, tag by tag: the parse succeeds exactly when the tag is known, and then as ParseFieldsOfTag says. */
  lemma ParseFieldsByTag(payload: string, ev: Event)
    ensures forall k :: Sendable(k) && Scan3s(payload) == Some(Tag(k)) ==>
      ParseFields(payload, ev) ==
        Outcome(Store(ev.(kind := ReceivedKind(k)), ScanFields(payload, Tag(k) + ",", Arity(k))), true)
    ensures !KnownTag(payload) ==> ParseFields(payload, ev) == Fail(ev)
    ensures ParseFields(payload, ev).ok <==> KnownTag(payload)
  {
    forall k | Sendable(k) && Scan3s(payload) == Some(Tag(k))
      ensures ParseFields(payload, ev) ==
        Outcome(Store(ev.(kind := ReceivedKind(k)), ScanFields(payload, Tag(k) + ",", Arity(k))), true)
    {
      ParseFieldsOfTag(payload, ev, k);
    }
    ParseFieldsOkOnlyOnTag(payload, ev);
  }

  /** The whole parse succeeds exactly when the checksum text is the payload's and the tag is known. */
  lemma ParseMessageOk(payload: string, checksum: string, ev: Event)
    ensures ParseMessage(payload, checksum, ev).ok <==> checksum == Hex2(Checksum(payload)) && KnownTag(payload)
    ensures checksum == Hex2(Checksum(payload)) ==> ParseMessage(payload, checksum, ev) == ParseFields(payload, ev)
  {
    ParseFieldsByTag(payload, ev);
  }

  /** A bare tag is still a RECEIVED event, with the parameters untouched. */
  lemma ParseBareTag(ev: Event)
    ensures ParseFields("CHA", ev) == Outcome(ev.(kind := ChaReceived), true)
  {
    Scan3sTag("CHA", []);
    assert "CHA" + [] == "CHA";
    ParseFieldsOfTag("CHA", ev, Cha);
  }

  /** A parameter that does not convert is ignored: the tag alone decides. */
  lemma ParseUnconvertedField(ev: Event)
    ensures ParseFields("SHO,x", ev) == Outcome(ev.(kind := ShoReceived), true)
  {
    Scan3sTag("SHO", ",x");
    assert "SHO" + ",x" == "SHO,x";
    ParseFieldsOfTag("SHO,x", ev, Sho);
    assert ScanU("x") == None by {
      assert SkipSpace("x") == "x";
      assert DigitRun("x") == 0;
    }
    assert "SHO,x"[4..] == "x";
  }

  /** A well-formed word that is no type's tag is an ERROR. */
  lemma ParseUnknownTag(ev: Event)
    ensures ParseFields("XYZ,1", ev) == Fail(ev)
  {
    Scan3sTag("XYZ", ",1");
    assert "XYZ" + ",1" == "XYZ,1";
  }

  function ReceivedKind(k: MessageType): EventType
    requires Sendable(k)
  {
    match k
    case Cha => ChaReceived
    case Acc => AccReceived
    case Rev => RevReceived
    case Sho => ShoReceived
    case Res => ResReceived
  }

  /** The event a receiver should see for a sent message: its parameters in 16 bits. */
  function Received(m: Message, ev: Event): Event
    requires Sendable(m.kind)
  {
    match m.kind
    case Cha => ev.(kind := ChaReceived, param0 := m.param0 % 0x1_0000)
    case Acc => ev.(kind := AccReceived, param0 := m.param0 % 0x1_0000)
    case Rev => ev.(kind := RevReceived, param0 := m.param0 % 0x1_0000)
    case Sho => ev.(kind := ShoReceived, param0 := m.param0 % 0x1_0000, param1 := m.param1 % 0x1_0000)
    case Res => ev.(kind := ResReceived, param0 := m.param0 % 0x1_0000, param1 := m.param1 % 0x1_0000,
                    param2 := m.param2 % 0x1_0000)
  }

  lemma AsInt32Low16(x: u32)
    ensures AsInt32(x) % 0x1_0000 == x % 0x1_0000
  {
  }

  /** The type and parameters of an encoder's payload read back as the message's event. */
  lemma ParseFieldsOfPayload(m: Message, ev: Event)
    requires Sendable(m.kind)
    ensures ParseFields(Payload(m), ev) == Outcome(Store(ev.(kind := ReceivedKind(m.kind)), Values(m)), true)
  {
    var p := Payload(m);
    var tag := Tag(m.kind);
    var joined := Join(DecAll(Values(m)), ",");
    assert Scan3s(p) == Some(tag) by {
      assert p == tag + ("," + joined);
      Scan3sTag(tag, "," + joined);
    }
    assert ScanFields(p, tag + ",", |Values(m)|) == Values(m) by {
      assert tag + "," <= p && p[4..] == joined;
      ScanJoin(Values(m));
    }
    match m.kind
    case Cha => assert tag + "," == "CHA,"; assert tag == "CHA";
    case Acc => assert tag + "," == "ACC,"; assert tag == "ACC" && tag != "CHA";
    case Rev => assert tag + "," == "REV,"; assert tag == "REV" && tag != "CHA" && tag != "ACC";
    case Sho => assert tag + "," == "SHO,"; assert tag == "SHO" && tag != "CHA" && tag != "ACC" && tag != "REV";
    case Res => assert tag + "," == "RES,"; assert tag == "RES" && tag != "CHA" && tag != "ACC" && tag != "REV" && tag != "SHO";
  }

  /** Parsing an encoder's payload with its checksum yields the message's event. */
  lemma ParseOfPayload(m: Message, ev: Event)
    requires Sendable(m.kind)
    ensures ParseMessage(Payload(m), Hex2(Checksum(Payload(m))), ev) == Outcome(Received(m, ev), true)
  {
    ParseFieldsOfPayload(m, ev);
    if m.kind == Sho {
      AsInt32Low16(m.param0);
      AsInt32Low16(m.param1);
    }
  }

  // ---------------------------------------------------------------------
  // Decoding

  /** The decoder's memory: the bytes of the frame recorded so far, and whether it is recording. */
  datatype DecoderState = DecoderState(frame: string, recording: bool)

  const Idle := DecoderState([], false)

  /** The result of one byte: the new decoder state and the outcome for the caller. */
  datatype Step = Step(state: DecoderState, out: Outcome)

  /**
   * A completed frame (starting with '$' and ending in "\r\n") split at
   * its first '*' within the C string after the '$': the payload before
   * it, at least two hexadecimal digits after it.
   */
  function FrameOutcome(frame: string, ev: Event): (r: Outcome)
    requires |frame| >= 1
    ensures r.ok ==> IsReceived(r.event.kind)
    ensures !r.ok ==> r == Fail(ev)
  {
    var body := CStr(frame[1..]);
    match FirstIndex(body, '*')
    case None => Fail(ev)
    case Some(k) =>
      var checksum := body[k + 1..];
      if |checksum| < 2 then Fail(ev)
      else if !(IsHexChar(checksum[0]) && IsHexChar(checksum[1])) then Fail(ev)
      else ParseMessage(body[..k], checksum[..2], ev)
  }

  /** Message_Decode for one byte, as a function of the decoder's memory. */
  function DecodeStep(st: DecoderState, c: char, ev: Event): (r: Step)
    ensures c == '$' ==> r.state == DecoderState("$", true) && r.out.event == ev.(kind := NoEvent)
    ensures |st.frame| <= MaxLen - 1 ==> |r.state.frame| <= MaxLen - 1
    ensures r.out.event.kind != NoEvent ==> st.recording && c != '$' && !r.state.recording
    ensures r.out.ok ==> r.out.event.kind == NoEvent || (c == '\n' && IsReceived(r.out.event.kind))
    ensures !r.out.ok ==> r.out == Fail(ev)
  {
    if c == '$' then Step(DecoderState("$", true), Outcome(ev.(kind := NoEvent), true))
    else if !st.recording then Step(st, Outcome(ev.(kind := NoEvent), true))
    else if |st.frame| >= MaxLen - 1 then Step(st.(recording := false), Fail(ev))
    else
      var f := st.frame + [c];
      if c == '\n' && |f| >= 2 && f[|f| - 2] == '\r' then Step(DecoderState(f, false), FrameOutcome(f, ev))
      else Step(DecoderState(f, true), Outcome(ev.(kind := NoEvent), true))
  }

  /** Feeding a string: the final memory, the final event and the event type after every byte. */
  datatype Run = Run(state: DecoderState, event: Event, kinds: seq<EventType>)

  function Feed(st: DecoderState, s: string, ev: Event): (r: Run)
    ensures |r.kinds| == |s|
    decreases |s|
  {
    if s == [] then Run(st, ev, [])
    else
      var step := DecodeStep(st, s[0], ev);
      var rest := Feed(step.state, s[1..], step.out.event);
      Run(rest.state, rest.event, [step.out.event.kind] + rest.kinds)
  }

  lemma {:induction false} FeedAppend(st: DecoderState, a: string, b: string, ev: Event)
    ensures Feed(st, a + b, ev) ==
      var r1 := Feed(st, a, ev);
      var r2 := Feed(r1.state, b, r1.event);
      Run(r2.state, r2.event, r1.kinds + r2.kinds)
    decreases |a|
  {
    if a == [] {
      assert a + b == b;
    } else {
      var step := DecodeStep(st, a[0], ev);
      assert (a + b)[0] == a[0];
      assert (a + b)[1..] == a[1..] + b;
      FeedAppend(step.state, a[1..], b, step.out.event);
    }
  }

  /** A '$' restarts the decoder: what follows does not depend on the earlier state. */
  lemma FeedRestartsAtDollar(st1: DecoderState, st2: DecoderState, s: string, ev: Event)
    ensures Feed(st1, "$" + s, ev) == Feed(st2, "$" + s, ev)
  {
    assert ("$" + s)[1..] == s;
  }

  /** Outside a frame every byte other than '$' is ignored. */
  lemma {:induction false} FeedIgnoresNoise(st: DecoderState, s: string, ev: Event)
    requires !st.recording && '$' !in s
    ensures Feed(st, s, ev).state == st
    ensures forall i :: 0 <= i < |s| ==> Feed(st, s, ev).kinds[i] == NoEvent
  {
    if s != [] {
      assert s[0] != '$' by { assert s[0] in s; }
      assert forall x :: x in s[1..] ==> x in s;
      FeedIgnoresNoise(st, s[1..], ev.(kind := NoEvent));
    }
  }

  /** No '\n' directly after a '\r': the byte string holds no frame end. */
  predicate NoTerminator(s: string)
  {
    forall i :: 0 < i < |s| ==> !(s[i] == '\n' && s[i - 1] == '\r')
  }

  lemma NoNewlineNoTerminator(s: string)
    requires '\n' !in s
    ensures NoTerminator(s)
  {
    assert forall i :: 0 <= i < |s| ==> s[i] in s;
  }

  lemma NoTerminatorTail(x: string)
    requires x != [] && NoTerminator(x)
    ensures NoTerminator(x[1..]) && (|x| > 1 && x[1] == '\n' ==> x[0] != '\r')
  {
    assert forall i :: 0 < i < |x| - 1 ==> x[1..][i] == x[i + 1] && x[1..][i - 1] == x[i];
  }

  /**
   * Inside a frame, bytes other than '$' are recorded while they fit,
   * unless a '\n' follows a '\r' (the frame's last byte included).
   */
  lemma {:induction false} FeedRecords(frame: string, x: string, ev: Event)
    requires 1 <= |frame| && |frame| + |x| <= MaxLen - 1
    requires '$' !in x && NoTerminator(x) && (x != [] && x[0] == '\n' ==> frame[|frame| - 1] != '\r')
    ensures Feed(DecoderState(frame, true), x, ev) ==
      Run(DecoderState(frame + x, true), if x == [] then ev else ev.(kind := NoEvent), seq(|x|, _ => NoEvent))
    decreases |x|
  {
    if x == [] {
      assert frame + x == frame;
    } else {
      assert x[0] in x;
      assert forall c :: c in x[1..] ==> c in x;
      assert frame + x == (frame + [x[0]]) + x[1..];
      NoTerminatorTail(x);
      FeedRecords(frame + [x[0]], x[1..], ev.(kind := NoEvent));
    }
  }

  /** Every byte of a frame with room in the buffer is NO_EVENT except the final '\n'. */
  lemma FrameOfEncoding(m: Message, ev: Event)
    requires Sendable(m.kind)
    ensures FrameOutcome(Encode(m), ev) == Outcome(Received(m, ev), true)
  {
    var p := Payload(m);
    var h := Hex2(Checksum(p));
    PayloadShape(m);
    FrameOutcomeOfParts(p, h, ev);
    ParseOfPayload(m, ev);
  }

  /** A frame "$" + payload + "*" + two hex digits + "\r\n" is parsed as that payload and those digits. */
  lemma FrameOutcomeOfParts(p: string, h: string, ev: Event)
    requires PlainText(p)
    requires |h| == 2 && IsHexChar(h[0]) && IsHexChar(h[1])
    ensures FrameOutcome("$" + p + "*" + h + "\r\n", ev) == ParseMessage(p, h, ev)
  {
    var f := "$" + p + "*" + h + "\r\n";
    var tail := h + "\r\n";
    var body := p + "*" + tail;
    assert f[1..] == body;
    assert CStr(body) == body by {
      PlainHasNoMarkers(p);
      assert '\0' !in body by {
        assert forall i :: 0 <= i < |p| ==> body[i] == p[i];
      }
      CStrNoNul(body);
    }
    assert FirstIndex(body, '*') == Some(|p|) by {
      PlainHasNoMarkers(p);
      FirstIndexAfter(p, '*', tail);
    }
    assert body[..|p|] == p && body[|p| + 1..] == tail by {
      assert body == p + ['*'] + tail;
    }
    assert |tail| >= 2 && tail[0] == h[0] && tail[1] == h[1] && tail[..2] == h;
  }

  /**
   * Round trip: feeding an encoded frame to the decoder, in any state,
   * yields NO_EVENT for every byte but the last, and on the last byte the
   * received event carrying the message's parameters.
   */
  lemma DecodeEncoding(m: Message, st: DecoderState, ev: Event)
    requires Sendable(m.kind)
    ensures var r := Feed(st, Encode(m), ev);
      r.event == Received(m, ev) &&
      r.kinds == seq(|Encode(m)| - 1, _ => NoEvent) + [Received(m, ev).kind] &&
      !r.state.recording
  {
    var x := EncodeSplit(m);
    var ev1 := ev.(kind := NoEvent);
    FeedFrame(st, x, ev);
    FrameOfEncoding(m, ev1);
    assert Received(m, ev1) == Received(m, ev);
  }

  /** An encoded frame is '$', a body free of '$' and '\n' ending in '\r', and the final '\n'. */
  lemma EncodeSplit(m: Message) returns (x: string)
    requires Sendable(m.kind)
    ensures Encode(m) == "$" + x + "\n"
    ensures '$' !in x && '\n' !in x && 1 <= |x| <= 44 && x[|x| - 1] == '\r'
  {
    var p := Payload(m);
    x := p + "*" + Hex2(Checksum(p)) + "\r";
    PayloadShape(m);
    assert forall i :: 0 <= i < |p| ==> x[i] == p[i];
    assert forall c :: c in x ==> exists i :: 0 <= i < |x| && x[i] == c;
  }

  /**
   * A whole frame "$x\n", with x free of '$' and '\n' and ending in '\r',
   * fed to a decoder in any state: NO_EVENT for every byte before the
   * '\n', then the outcome of the completed frame.
   */
  lemma FeedFrame(st: DecoderState, x: string, ev: Event)
    requires '$' !in x && '\n' !in x && 1 <= |x| <= MaxLen - 3 && x[|x| - 1] == '\r'
    ensures var f := "$" + x + "\n";
      var out := FrameOutcome(f, ev.(kind := NoEvent));
      Feed(st, f, ev) == Run(DecoderState(f, false), out.event, seq(|x| + 1, _ => NoEvent) + [out.event.kind])
  {
    var f := "$" + x + "\n";
    var ev1 := ev.(kind := NoEvent);
    var start := DecoderState("$", true);
    var rest := Feed(start, x + "\n", ev1);
    assert Feed(st, f, ev) == Run(rest.state, rest.event, [NoEvent] + rest.kinds) by {
      assert f[0] == '$' && f[1..] == x + "\n";
    }
    var r1 := Feed(start, x, ev1);
    assert r1 == Run(DecoderState("$" + x, true), ev1, seq(|x|, _ => NoEvent)) by {
      NoNewlineNoTerminator(x);
      FeedRecords("$", x, ev1);
    }
    var r2 := Feed(r1.state, "\n", r1.event);
    assert r2 == Run(DecoderState(f, false), FrameOutcome(f, ev1).event, [FrameOutcome(f, ev1).event.kind]) by {
      assert DecodeStep(r1.state, '\n', ev1) == Step(DecoderState(f, false), FrameOutcome(f, ev1));
    }
    FeedAppend(start, x, "\n", ev1);
  }

  /**
   * A frame whose 81 bytes after the '$' contain no '\n' directly after a
   * '\r' overflows the buffer: the 81st byte reports ERROR and ends the frame.
   */
  lemma OverflowIsReported(st: DecoderState, x: string, c: char, ev: Event)
    requires |x| == MaxLen - 2 && '$' !in x && NoTerminator(x) && c != '$'
    ensures var r := Feed(st, "$" + x + [c], ev);
      r.event.kind == ErrorEvent && !r.state.recording &&
      r.kinds == seq(|x| + 1, _ => NoEvent) + [ErrorEvent]
  {
    var ev1 := ev.(kind := NoEvent);
    assert "$" + x + [c] == "$" + (x + [c]);
    FeedAppend(DecoderState("$", true), x, [c], ev1);
    FeedRecords("$", x, ev1);
    assert [NoEvent] + (seq(|x|, _ => NoEvent) + [ErrorEvent]) == seq(|x| + 1, _ => NoEvent) + [ErrorEvent];
  }

  /**
   * Bytes after an overflow are ignored until the next '$': every byte of
   * the over-long frame is NO_EVENT except the one that overflowed, so the
   * frame never decodes, and a caller that looks only at the event after
   * the last byte sees NO_EVENT.
   */
  lemma OverflowThenIgnored(st: DecoderState, x: string, c: char, y: string, ev: Event)
    requires |x| == MaxLen - 2 && '$' !in x && NoTerminator(x) && c != '$'
    requires y != [] && '$' !in y
    ensures var r := Feed(st, "$" + x + [c] + y, ev);
      r.kinds == seq(|x| + 1, _ => NoEvent) + [ErrorEvent] + seq(|y|, _ => NoEvent) &&
      r.event.kind == NoEvent && !r.state.recording
  {
    var r0 := Feed(st, "$" + x + [c], ev);
    OverflowIsReported(st, x, c, ev);
    FeedAppend(st, "$" + x + [c], y, ev);
    FeedIgnoresNoise(r0.state, y, r0.event);
    FeedIgnoresNoiseEvent(r0.state, y, r0.event);
    var r1 := Feed(r0.state, y, r0.event);
    assert r1.kinds == seq(|y|, _ => NoEvent);
  }

  lemma {:induction false} FeedIgnoresNoiseEvent(st: DecoderState, s: string, ev: Event)
    requires !st.recording && '$' !in s && s != []
    ensures Feed(st, s, ev).event.kind == NoEvent
  {
    assert s[0] != '$' by { assert s[0] in s; }
    if |s| > 1 {
      assert forall x :: x in s[1..] ==> x in s;
      FeedIgnoresNoiseEvent(st, s[1..], ev.(kind := NoEvent));
    }
  }

  /** A completed frame whose checksum digits are not the payload's checksum is an ERROR. */
  lemma FrameWrongChecksum(p: string, cks: string, ev: Event)
    requires PlainText(p)
    requires |cks| == 2 && IsHexChar(cks[0]) && IsHexChar(cks[1]) && cks != Hex2(Checksum(p))
    ensures FrameOutcome("$" + p + "*" + cks + "\r\n", ev) == Fail(ev)
  {
    FrameOutcomeOfParts(p, cks, ev);
  }

  /**
   * A frame whose two checksum digits are not the payload's checksum
   * decodes to ERROR, keeping the event's parameters.
   */
  lemma DecodeWrongChecksum(st: DecoderState, p: string, cks: string, ev: Event)
    requires PlainText(p) && |p| <= MaxLen - 7
    requires |cks| == 2 && IsHexChar(cks[0]) && IsHexChar(cks[1]) && cks != Hex2(Checksum(p))
    ensures Feed(st, "$" + p + "*" + cks + "\r\n", ev).event == ev.(kind := ErrorEvent)
  {
    var x := p + "*" + cks + "\r";
    assert "$" + p + "*" + cks + "\r\n" == "$" + x + "\n";
    PlainHasNoMarkers(p);
    assert cks == [cks[0], cks[1]];
    FeedFrame(st, x, ev);
    FrameWrongChecksum(p, cks, ev.(kind := NoEvent));
  }

  /** Sum of the bytes of s. */
  function ByteSum(s: string): nat
  {
    if s == [] then 0 else ByteSum(s[..|s| - 1]) + Byte(s[|s| - 1])
  }

  /** The low bit of the checksum is the parity of the sum of the bytes. */
  lemma {:induction false} ChecksumParity(s: string)
    ensures Checksum(s) % 2 == ByteSum(s) % 2
  {
    if s != [] {
      var s' := s[..|s| - 1];
      var b := Byte(s[|s| - 1]);
      assert Checksum(s) % 2 == (Checksum(s') + b) % 2 by {
        XorDigits(Checksum(s'), b);
      }
      assert ByteSum(s) == ByteSum(s') + b;
      ChecksumParity(s');
      ParityAdd(Checksum(s'), ByteSum(s'), b);
    }
  }

  /** Adding the same number to two numbers of equal parity keeps their parities equal. */
  lemma ParityAdd(x: int, y: int, b: int)
    requires x % 2 == y % 2
    ensures (x + b) % 2 == (y + b) % 2
  {
  }

  lemma TestPayloadChecksum()
    ensures Checksum("CHA,12345") != 0
  {
    var p := "CHA,12345";
    assert ByteSum(p[..1]) == 67;
    assert p[..2][..1] == p[..1];
    assert ByteSum(p[..2]) == 139;
    assert p[..3][..2] == p[..2];
    assert ByteSum(p[..3]) == 204;
    assert p[..4][..3] == p[..3];
    assert ByteSum(p[..4]) == 248;
    assert p[..5][..4] == p[..4];
    assert ByteSum(p[..5]) == 297;
    assert p[..6][..5] == p[..5];
    assert ByteSum(p[..6]) == 347;
    assert p[..7][..6] == p[..6];
    assert ByteSum(p[..7]) == 398;
    assert p[..8][..7] == p[..7];
    assert ByteSum(p[..8]) == 450;
    assert p[..9] == p;
    assert p[..8] == p[..|p| - 1];
    assert ByteSum(p) == 503;
    ChecksumParity(p);
  }

  /** The unit test's frame "$CHA,12345*00\r\n": the payload's checksum is odd, so "00" is an ERROR. */
  lemma BadChecksumFrame(st: DecoderState, ev: Event)
    ensures Feed(st, "$CHA,12345*00\r\n", ev).event.kind == ErrorEvent
  {
    TestFrameParts();
    TestPayloadNotZeroHex();
    DecodeWrongChecksum(st, "CHA,12345", "00", ev);
  }

  /** The test frame is the payload "CHA,12345" and the digits "00" in a frame. */
  lemma TestFrameParts()
    ensures "$CHA,12345*00\r\n" == "$" + "CHA,12345" + "*" + "00" + "\r\n"
    ensures PlainText("CHA,12345") && |"CHA,12345"| <= MaxLen - 7
    ensures |"00"| == 2 && IsHexChar("00"[0]) && IsHexChar("00"[1])
  {
  }

  /** The test payload's checksum does not print as "00". */
  lemma TestPayloadNotZeroHex()
    ensures Hex2(Checksum("CHA,12345")) != "00"
  {
    var c := Checksum("CHA,12345");
    TestPayloadChecksum();
    if Hex2(c) == "00" {
      assert Hex2(0) == "00";
      Hex2Injective(c, 0);
    }
  }

  /** The decoder of battleBoats/src/Message.c with its static buffer, index and flag. */
  class Decoder {
    var buffer: array<char>
    var index: int
    var recording: bool

    ghost predicate Valid()
      reads this
    {
      buffer.Length == MaxLen && 0 <= index < MaxLen
    }

    /** The frame recorded so far and the recording flag. */
    ghost function State(): DecoderState
      reads this, buffer
      requires Valid()
    {
      DecoderState(buffer[..index], recording)
    }

    constructor ()
      ensures Valid() && State() == Idle
    {
      buffer := new char[MaxLen](_ => '\0');
      index := 0;
      recording := false;
    }

    /** Message_Decode: take one byte and update the caller's event. */
    method Decode(c: char, ev: Event) returns (r: Outcome)
      requires Valid()
      modifies this, buffer
      ensures Valid() && buffer == old(buffer)
      ensures Step(State(), r) == DecodeStep(old(State()), c, ev)
    {
      if c == '$' {
        index := 0;
        recording := true;
        buffer[index] := c;
        index := index + 1;
        assert buffer[..index] == "$";
        return Outcome(ev.(kind := NoEvent), true);
      }
      if !recording {
        return Outcome(ev.(kind := NoEvent), true);
      }
      if index < MaxLen - 1 {
        buffer[index] := c;
        index := index + 1;
      } else {
        recording := false;
        return Fail(ev);
      }
      assert buffer[..index] == old(buffer[..index]) + [c];
      if c == '\n' && index >= 2 && buffer[index - 2] == '\r' {
        recording := false;
        r := FrameOutcome(buffer[..index], ev);
      } else {
        r := Outcome(ev.(kind := NoEvent), true);
      }
    }
  }
}
