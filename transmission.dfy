/**
 * The top level of the BattleBoats board (battleBoats/src/Lab10_main.c):
 * the outgoing transmitter, which holds one encoded message and sends it a
 * byte per call, the receiver, which feeds a completed input line to the
 * message decoder, and one step of the main loop, which hands a pending
 * event to the agent and starts sending its reply.
 */
module Lab10 {
  import opened Text
  import M = Message
  import A = Agent
  import F = Field

  /** MESSAGE_MAX_LEN + 1: the outgoing buffer. */
  const BufferLen := M.MaxLen + 1

  /** The transmitter as a value: sending or idle, and the bytes still to send. */
  datatype TxData = TxData(sending: bool, pending: string)

  /** One call of the transmitter: its new state, the byte it put on the wire, and whether it raised MESSAGE_SENT. */
  datatype TxStep = TxStep(next: TxData, emitted: Option<char>, sent: bool)

  function SendStep(t: TxData): (r: TxStep)
    ensures !t.sending ==> r == TxStep(t, None, false)
    ensures r.sent <==> t.sending && t.pending == []
    ensures r.sent ==> !r.next.sending
    ensures r.emitted.Some? ==> r.next.sending && [r.emitted.value] + r.next.pending == t.pending
  {
    if !t.sending then TxStep(t, None, false)
    else if t.pending == [] then TxStep(TxData(false, []), None, true)
    else TxStep(TxData(true, t.pending[1..]), Some(t.pending[0]), false)
  }

  /** n calls of the transmitter: the final state, the bytes sent, and whether MESSAGE_SENT was raised. */
  datatype TxRun = TxRun(final: TxData, emitted: string, sent: bool)

  function SendSteps(t: TxData, n: nat): TxRun
    decreases n
  {
    if n == 0 then TxRun(t, [], false)
    else
      var s := SendStep(t);
      var r := SendSteps(s.next, n - 1);
      TxRun(r.final, (if s.emitted.Some? then [s.emitted.value] else []) + r.emitted, s.sent || r.sent)
  }

  /**
   * A pending message of n bytes goes out in order in n calls, still in
   * SENDING; the call after that raises MESSAGE_SENT and returns to IDLE.
   */
  lemma {:induction false} TransmitsPending(p: string)
    ensures SendSteps(TxData(true, p), |p|) == TxRun(TxData(true, []), p, false)
    ensures SendSteps(TxData(true, p), |p| + 1) == TxRun(TxData(false, []), p, true)
    decreases |p|
  {
    if p != [] {
      TransmitsPending(p[1..]);
      assert [p[0]] + p[1..] == p;
    }
  }

  /** An idle transmitter stays idle and silent. */
  lemma {:induction false} IdleStaysIdle(t: TxData, n: nat)
    requires !t.sending
    ensures SendSteps(t, n) == TxRun(t, [], false)
    decreases n
  {
    if n > 0 {
      IdleStaysIdle(t, n - 1);
    }
  }

  /** One transmitter call on the C string from index k of a buffer: go idle at the NUL, else emit o[k] and move on. */
  lemma SendAt(o: seq<char>, k: int)
    requires 0 <= k < |o| && '\0' in o[k..]
    ensures o[k] == '\0' ==> SendStep(TxData(true, CStr(o[k..]))) == TxStep(TxData(false, []), None, true)
    ensures o[k] != '\0' ==>
      SendStep(TxData(true, CStr(o[k..]))) == TxStep(TxData(true, CStr(o[k + 1..])), Some(o[k]), false) &&
      '\0' in o[k + 1..]
  {
    CStrAt(o, k);
  }

  /** The C string from index k of a buffer holding a NUL at or after k: empty at the NUL, else its first byte and the rest. */
  lemma CStrAt(o: seq<char>, k: int)
    requires 0 <= k < |o| && '\0' in o[k..]
    ensures o[k] == '\0' ==> CStr(o[k..]) == []
    ensures o[k] != '\0' ==> CStr(o[k..]) == [o[k]] + CStr(o[k + 1..]) && '\0' in o[k + 1..]
  {
    var rest := o[k..];
    assert rest[0] == o[k];
    if o[k] != '\0' {
      CStrStep(rest);
      assert rest[1..] == o[k + 1..];
      assert rest == [o[k]] + o[k + 1..];
    }
  }

  class Board {
    const out: array<char>
    var txIndex: int
    var sending: bool
    var event: M.Event
    const decoder: M.Decoder
    const agent: A.Agent
    /** The two line buffers the receive interrupts fill, and their "line complete" flags. */
    var uartReady: bool
    var uartLine: string
    var serialReady: bool
    var serialLine: string

    /** The transmitter's own invariant: a NUL is left at or after txIndex. */
    ghost predicate TxValid()
      reads this, out
    {
      out.Length == BufferLen && 0 <= txIndex < BufferLen && '\0' in out[txIndex..] &&
      (!sending ==> txIndex == 0)
    }

    ghost predicate Valid()
      reads this, out, decoder, agent, agent.myField, agent.oppField
    {
      TxValid() && decoder.Valid() && out != decoder.buffer && agent.Valid()
    }

    /** The transmitter's state: the C string from txIndex on is what is left to send. */
    ghost function Tx(): TxData
      requires TxValid()
      reads this, out
    {
      TxData(sending, if sending then CStr(out[txIndex..]) else [])
    }

    constructor (rows: nat, cols: nat, sizes: F.PerBoat, cheating: bool)
      requires rows < 256 && cols < 256
      ensures Valid() && Tx() == TxData(false, []) && event.kind == M.NoEvent
      ensures decoder.State() == M.Idle && agent.cheating == cheating
    {
      out := new char[BufferLen](_ => '\0');
      txIndex := 0;
      sending := false;
      event := M.Event(M.NoEvent, 0, 0, 0);
      decoder := new M.Decoder();
      agent := new A.Agent(rows, cols, sizes, cheating);
      uartReady := false;
      uartLine := [];
      serialReady := false;
      serialLine := [];
      new;
      assert out[0] == '\0';
    }

    /**
     * Transmission_StartSendingMessage: when idle, encode m into the
     * outgoing buffer and start sending it from its first byte. The encoder
     * writes nothing for NONE and ERROR, so what is then sent is whatever
     * C string the buffer still holds. When already sending nothing
     * changes (the source only reports a fatal error on the display).
     */
    method StartSendingMessage(m: M.Message)
      requires Valid()
      modifies this`txIndex, this`sending, out
      ensures Valid()
      ensures old(sending) ==> Tx() == old(Tx()) && unchanged(out) && txIndex == old(txIndex)
      ensures !old(sending) ==>
        Tx() == TxData(true, if M.Sendable(m.kind) then M.Encode(m) else CStr(old(out[..])))
      ensures event == old(event)
    {
      if sending {
        return;
      }
      if M.Sendable(m.kind) {
        M.EncodeLength(m);
        M.EncodeHasNoNul(m);
        WriteString(M.Encode(m));
      }
      txIndex := 0;
      sending := true;
      assert out[0..] == out[..];
      assert TxValid();
    }

    /** sprintf into the outgoing buffer: e followed by its NUL. */
    method WriteString(e: string)
      requires out.Length == BufferLen && |e| < BufferLen && '\0' !in e
      modifies out
      ensures out[|e|] == '\0' && CStr(out[..]) == e
    {
      var i := 0;
      while i < |e|
        invariant 0 <= i <= |e|
        invariant out[..i] == e[..i]
      {
        out[i] := e[i];
        i := i + 1;
      }
      out[|e|] := '\0';
      assert out[..] == e + ['\0'] + out[|e| + 1..];
      CStrTerminated(e, out[|e| + 1..]);
    }

    /**
     * Transmission_SendChar: when sending, put the byte at txIndex on the
     * wire and advance, or at the terminating NUL raise MESSAGE_SENT and
     * go idle. Returns the byte sent, if any.
     */
    method SendChar() returns (emitted: Option<char>)
      requires TxValid()
      modifies this`txIndex, this`sending, this`event
      ensures TxValid()
      ensures var s := SendStep(old(Tx()));
        Tx() == s.next && emitted == s.emitted &&
        event == (if s.sent then old(event).(kind := M.MessageSent) else old(event))
    {
      if !sending {
        return None;
      }
      ghost var o, k := out[..], txIndex;
      assert out[k..] == o[k..];
      assert Tx() == TxData(true, CStr(o[k..]));
      SendAt(o, k);
      var toSend := out[txIndex];
      if toSend == '\0' {
        event := event.(kind := M.MessageSent);
        txIndex := 0;
        sending := false;
        assert '\0' in out[0..] by { assert out[0..] == o; }
        assert Tx() == TxData(false, []);
        return None;
      }
      emitted := Some(toSend);
      txIndex := txIndex + 1;
      assert out[txIndex..] == o[k + 1..];
      assert Tx() == TxData(true, CStr(o[k + 1..]));
    }

    /** Feeds the bytes of a line, up to its NUL, to the decoder in order. */
    method FeedLine(line: string)
      requires Valid()
      modifies this, decoder, decoder.buffer
      ensures Valid()
      ensures var r := M.Feed(old(decoder.State()), CStr(line), old(event));
        decoder.State() == r.state && event == r.event
      ensures sending == old(sending) && txIndex == old(txIndex) && Tx() == old(Tx())
      ensures uartReady == old(uartReady) && serialReady == old(serialReady)
      ensures uartLine == old(uartLine) && serialLine == old(serialLine)
    {
      var s := CStr(line);
      var i := 0;
      while i < |s|
        invariant 0 <= i <= |s|
        invariant decoder.Valid() && decoder.buffer == old(decoder.buffer)
        invariant var r := M.Feed(old(decoder.State()), s[..i], old(event));
          decoder.State() == r.state && event == r.event
        invariant sending == old(sending) && txIndex == old(txIndex)
        invariant uartReady == old(uartReady) && serialReady == old(serialReady)
        invariant uartLine == old(uartLine) && serialLine == old(serialLine)
      {
        var o := decoder.Decode(s[i], event);
        event := o.event;
        M.FeedAppend(old(decoder.State()), s[..i], [s[i]], old(event));
        assert s[..i + 1] == s[..i] + [s[i]];
        i := i + 1;
      }
      assert s[..|s|] == s;
    }

    /**
     * Transmission_ReceiveMessage: if the UART line is complete, feed it
     * to the decoder and clear its flag; otherwise do the same for the
     * serial line.
     */
    method ReceiveMessage()
      requires Valid()
      modifies this, decoder, decoder.buffer
      ensures Valid() && Tx() == old(Tx())
      ensures old(uartReady) ==>
        var r := M.Feed(old(decoder.State()), CStr(old(uartLine)), old(event));
        decoder.State() == r.state && event == r.event && !uartReady && serialReady == old(serialReady)
      ensures !old(uartReady) && old(serialReady) ==>
        var r := M.Feed(old(decoder.State()), CStr(old(serialLine)), old(event));
        decoder.State() == r.state && event == r.event && !serialReady && !uartReady
      ensures !old(uartReady) && !old(serialReady) ==>
        decoder.State() == old(decoder.State()) && event == old(event) && !uartReady && !serialReady
    {
      if uartReady {
        FeedLine(uartLine);
        uartReady := false;
      } else if serialReady {
        FeedLine(serialLine);
        serialReady := false;
      }
    }

    /**
     * One pass of the main loop: a pending event goes to the agent once,
     * the agent's reply is sent unless it is NONE, and the event type is
     * cleared. Without a pending event nothing happens.
     */
    method MainStep(draw: nat)
      requires Valid()
      modifies this, out, agent, agent.myField, agent.oppField, agent.myField.grid, agent.oppField.grid
      ensures Valid()
      ensures unchanged(decoder, decoder.buffer)
      ensures uartReady == old(uartReady) && uartLine == old(uartLine) &&
        serialReady == old(serialReady) && serialLine == old(serialLine)
      ensures old(event.kind) == M.NoEvent ==>
        unchanged(this, out, agent, agent.myField, agent.oppField, agent.myField.grid, agent.oppField.grid)
      ensures old(event.kind) != M.NoEvent ==>
        var r := A.Step(old(agent.Data()), old(event), draw, agent.cheating);
        agent.Data() == r.data && event == old(event).(kind := M.NoEvent) &&
        Tx() == (if r.out.kind == M.MsgNone || old(sending) then old(Tx()) else TxData(true, M.Encode(r.out))) &&
        (r.reinit ==> agent.FieldsFresh()) &&
        (!r.reinit ==> unchanged(agent.myField, agent.oppField, agent.myField.grid, agent.oppField.grid))
    {
      if event.kind != M.NoEvent {
        DeliverEvent(draw);
      }
    }

    /** The body of MainStep when an event is pending. */
    method DeliverEvent(draw: nat)
      requires Valid() && event.kind != M.NoEvent
      modifies this`txIndex, this`sending, this`event, out, agent, agent.myField, agent.oppField,
        agent.myField.grid, agent.oppField.grid
      ensures Valid()
      ensures var r := A.Step(old(agent.Data()), old(event), draw, agent.cheating);
        agent.Data() == r.data && event == old(event).(kind := M.NoEvent) &&
        Tx() == (if r.out.kind == M.MsgNone || old(sending) then old(Tx()) else TxData(true, M.Encode(r.out))) &&
        (r.reinit ==> agent.FieldsFresh()) &&
        (!r.reinit ==> unchanged(agent.myField, agent.oppField, agent.myField.grid, agent.oppField.grid))
    {
      var msg := agent.Run(event, draw);
      A.StepSendsValid(old(agent.Data()), old(event), draw, agent.cheating);
      if msg.kind != M.MsgNone {
        StartSendingMessage(msg);
      }
      event := event.(kind := M.NoEvent);
    }
  }
}
