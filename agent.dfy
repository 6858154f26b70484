/**
 * The BattleBoats agent (battleBoats/src/Agent.c): the negotiation phase
 * of the game as a state machine. The challenger commits to a secret A by
 * sending its hash, the accepter answers with B, the challenger reveals A
 * and both decide who attacks first from the coin flip of A and B.
 *
 * The source is compiled with cheating on; here it is a flag of the agent.
 * The values rand() would produce are an input of each step.
 */
module Agent {
  import opened Bits
  import opened Negotiation
  import M = Message
  import F = Field

  datatype AgentState =
    | Start | Challenging | Accepting | Attacking | Defending
    | WaitingToSend | EndScreen | SetupBoats

  /** The agent's scalar state: the current state, the turn counter and the stored numbers. */
  datatype AgentData = AgentData(state: AgentState, turnNumber: u8, a: u16, b: u16, hashA: u16)

  /** What one step returns: the new data, the message to send, and whether the fields were reinitialised. */
  datatype StepResult = StepResult(data: AgentData, out: M.Message, reinit: bool)

  function Send(kind: M.MessageType, p: u16): M.Message
  {
    M.Message(kind, p, 0, 0)
  }

  const NoMessage := M.Message(M.MsgNone, 0, 0, 0)

  /** rand() & 0xFFFF */
  function Low16(draw: nat): u16
  {
    draw % 0x1_0000
  }

  /**
   * One step of the agent on event ev, with `draw` the value rand() would
   * return. AgentInit, run on reset, sets the state to START and the turn
   * counter to 0 and reinitialises the fields; it keeps the stored numbers.
   */
  function Step(d: AgentData, ev: M.Event, draw: nat, cheating: bool): (r: StepResult)
    ensures r.reinit <==> d.state in {Attacking, Defending, EndScreen} && ev.kind == M.ResetButton
    ensures r.data.turnNumber == if r.reinit then 0 else d.turnNumber
    ensures r.data.state == d.state ==> r.data == d && r.out == NoMessage
    ensures r.out.kind in {M.MsgNone, M.Cha, M.Acc, M.Rev}
    ensures r.out.kind == M.Rev ==> r.data.a == r.out.param0 && r.data.hashA == Hash(r.data.a)
  {
    match d.state
    case Start =>
      if ev.kind == M.StartButton then
        var a := Low16(draw);
        var h := Hash(a);
        StepResult(d.(state := Challenging, a := a, hashA := h), Send(M.Cha, h), false)
      else if ev.kind == M.ChaReceived then
        var b := if cheating then HeadsPartner(ev.param0) else Low16(draw);
        StepResult(d.(state := Accepting, hashA := ev.param0, b := b), Send(M.Acc, b), false)
      else StepResult(d, NoMessage, false)
    case Challenging =>
      if ev.kind == M.AccReceived then
        var b := ev.param0;
        var a := if cheating then HeadsPartner(b) else d.a;
        var next := if Flip(a, b) == Heads then Attacking else Defending;
        StepResult(d.(state := next, a := a, b := b, hashA := Hash(a)), Send(M.Rev, a), false)
      else StepResult(d, NoMessage, false)
    case Accepting =>
      if ev.kind == M.RevReceived then
        var a := ev.param0;
        if !Verify(a, d.hashA) then StepResult(d.(state := EndScreen, a := a), NoMessage, false)
        else
          var next := if Flip(a, d.b) == Tails then Attacking else Defending;
          StepResult(d.(state := next, a := a), NoMessage, false)
      else StepResult(d, NoMessage, false)
    case Attacking | Defending | EndScreen =>
      if ev.kind == M.ResetButton then StepResult(d.(state := Start, turnNumber := 0), NoMessage, true)
      else StepResult(d, NoMessage, false)
    case _ => StepResult(d, NoMessage, false)
  }

  function Ev(kind: M.EventType, p: u16): M.Event
  {
    M.Event(kind, p, 0, 0)
  }

  /**
   * An honest game: a challenger with secret from draw x and an accepter
   * with B from draw y, each starting in START, exchange CHA, ACC and REV.
   * The accepter's check of the commitment passes, both agree on A and B,
   * and exactly one of them attacks.
   */
  lemma HonestNegotiationAgrees(c0: AgentData, a0: AgentData, x: nat, y: nat, z: nat, w: nat)
    requires c0.state == Start && a0.state == Start
    ensures
      var c1 := Step(c0, Ev(M.StartButton, 0), x, false);
      var a1 := Step(a0, Ev(M.ChaReceived, c1.out.param0 as u16), y, false);
      var c2 := Step(c1.data, Ev(M.AccReceived, a1.out.param0 as u16), z, false);
      var a2 := Step(a1.data, Ev(M.RevReceived, c2.out.param0 as u16), w, false);
      c1.out.kind == M.Cha && a1.out.kind == M.Acc && c2.out.kind == M.Rev &&
      c2.data.a == a2.data.a == Low16(x) && c2.data.b == a2.data.b == Low16(y) &&
      ((c2.data.state == Attacking && a2.data.state == Defending) ||
       (c2.data.state == Defending && a2.data.state == Attacking))
  {
    var c1 := Step(c0, Ev(M.StartButton, 0), x, false);
    var a1 := Step(a0, Ev(M.ChaReceived, c1.out.param0 as u16), y, false);
    assert a1.data.hashA == Hash(Low16(x));
    var c2 := Step(c1.data, Ev(M.AccReceived, a1.out.param0 as u16), z, false);
    assert c2.data.state == (if Flip(Low16(x), Low16(y)) == Heads then Attacking else Defending);
  }

  /** A cheating challenger always ends up attacking, whatever B it receives. */
  lemma CheatingChallengerAttacks(d: AgentData, ev: M.Event, draw: nat)
    requires d.state == Challenging && ev.kind == M.AccReceived
    ensures Step(d, ev, draw, true).data.state == Attacking
  {
    FlipSymmetric(HeadsPartner(ev.param0), ev.param0);
  }

  /**
   * The cheating challenger reveals a number other than the one it
   * committed to, so an honest accepter whose commitment is not 0 or 1
   * rejects the reveal and ends the game.
   */
  lemma CheatingRevealIsRejected(c: AgentData, acc: AgentData, b: u16, draw: nat)
    requires c.state == Challenging && acc.state == Accepting
    requires acc.hashA == c.hashA && c.hashA > 1
    ensures
      var r := Step(c, Ev(M.AccReceived, b), draw, true);
      Step(acc, Ev(M.RevReceived, r.out.param0 as u16), draw, false).data.state == EndScreen
  {
    var a := HeadsPartner(b);
    assert Hash(a) == a * a % PublicKey;
  }

  /**
   * The accepter's cheat chooses B against the hash instead of the secret,
   * so it does not force the coin: with secret 0 the cheating accepter
   * defends.
   */
  lemma CheatingAccepterCanDefend(d: AgentData, draw: nat)
    requires d.state == Start
    ensures
      var r1 := Step(d, Ev(M.ChaReceived, Hash(0)), draw, true);
      Step(r1.data, Ev(M.RevReceived, 0), draw, true).data.state == Defending
  {
    FlipZeroOne(0);
    FlipSame(0);
  }

  /** Reset in any of the three end states returns to START; elsewhere it is ignored. */
  lemma ResetReturnsToStart(d: AgentData, draw: nat, cheating: bool)
    ensures var r := Step(d, Ev(M.ResetButton, 0), draw, cheating);
      (d.state in {Attacking, Defending, EndScreen} ==> r.data.state == Start && r.data.turnNumber == 0 && r.reinit)
      && (d.state !in {Attacking, Defending, EndScreen} ==> r.data == d && !r.reinit)
      && r.out.kind == M.MsgNone
  {
  }

  /** The agent never enters WAITING_TO_SEND or SETUP_BOATS from the states it can reach. */
  lemma NoGameplayStates(d: AgentData, ev: M.Event, draw: nat, cheating: bool)
    requires d.state !in {WaitingToSend, SetupBoats}
    ensures Step(d, ev, draw, cheating).data.state !in {WaitingToSend, SetupBoats}
  {
  }

  /** Every reply is NONE or one of the three negotiation messages, all of which the encoder writes. */
  lemma StepSendsValid(d: AgentData, ev: M.Event, draw: nat, cheating: bool)
    ensures Step(d, ev, draw, cheating).out.kind in {M.MsgNone, M.Cha, M.Acc, M.Rev}
    ensures Step(d, ev, draw, cheating).out.kind != M.MsgNone ==> M.Sendable(Step(d, ev, draw, cheating).out.kind)
  {
  }

  class Agent {
    var state: AgentState
    var turnNumber: u8
    var storedA: u16
    var storedB: u16
    var storedHashA: u16
    const myField: F.Field
    const oppField: F.Field
    const cheating: bool

    predicate Valid()
      reads this, myField, oppField
    {
      myField.Valid() && oppField.Valid() && myField.grid != oppField.grid &&
      myField.rows == oppField.rows && myField.cols == oppField.cols
    }

    function Data(): AgentData
      reads this
    {
      AgentData(state, turnNumber, storedA, storedB, storedHashA)
    }

    /** The fields as AgentInit leaves them. */
    ghost predicate FieldsFresh()
      requires Valid()
      reads this, myField, oppField, myField.grid, oppField.grid
    {
      (forall r, c :: myField.InRange(r, c) ==> myField.grid[r, c] == F.Empty && oppField.grid[r, c] == F.Unknown) &&
      myField.lives == F.PerBoat(0, 0, 0, 0) && oppField.lives == oppField.sizes
    }

    constructor (rows: nat, cols: nat, sizes: F.PerBoat, cheating: bool)
      requires rows < 256 && cols < 256
      ensures Valid() && this.cheating == cheating
      ensures fresh(myField) && fresh(oppField) && fresh(myField.grid) && fresh(oppField.grid)
    {
      myField := new F.Field(rows, cols, sizes);
      oppField := new F.Field(rows, cols, sizes);
      this.cheating := cheating;
    }

    method Init()
      requires Valid()
      modifies this, myField, oppField, myField.grid, oppField.grid
      ensures Valid()
      ensures Data() == old(Data()).(state := Start, turnNumber := 0)
      ensures FieldsFresh()
    {
      state := Start;
      turnNumber := 0;
      F.FieldInit(myField, oppField);
    }

    function GetState(): (s: AgentState)
      reads this
      ensures s == state
    {
      state
    }

    method SetState(s: AgentState)
      modifies this
      ensures GetState() == s
      ensures Data() == old(Data()).(state := s)
    {
      state := s;
    }

    /** AgentRun: one step of the negotiation, as Step says. */
    method Run(ev: M.Event, draw: nat) returns (out: M.Message)
      requires Valid()
      modifies this, myField, oppField, myField.grid, oppField.grid
      ensures Valid()
      ensures var r := Step(old(Data()), ev, draw, cheating);
        Data() == r.data && out == r.out &&
        (r.reinit ==> FieldsFresh()) &&
        (!r.reinit ==> unchanged(myField, oppField, myField.grid, oppField.grid))
    {
      out := NoMessage;
      match state
      case Start =>
        if ev.kind == M.StartButton {
          storedA := Low16(draw);
          storedHashA := Hash(storedA);
          out := Send(M.Cha, storedHashA);
          state := Challenging;
        } else if ev.kind == M.ChaReceived {
          storedHashA := ev.param0;
          if cheating {
            storedB := GenerateBGivenHash(storedHashA);
          } else {
            storedB := Low16(draw);
          }
          out := Send(M.Acc, storedB);
          state := Accepting;
        }
      case Challenging =>
        if ev.kind == M.AccReceived {
          storedB := ev.param0;
          if cheating {
            storedA := GenerateAGivenB(storedB);
          }
          storedHashA := Hash(storedA);
          out := Send(M.Rev, storedA);
          var outcome := CoinFlip(storedA, storedB);
          state := if outcome == Heads then Attacking else Defending;
        }
      case Accepting =>
        if ev.kind == M.RevReceived {
          storedA := ev.param0;
          if !Verify(storedA, storedHashA) {
            state := EndScreen;
          } else {
            var outcome := CoinFlip(storedA, storedB);
            state := if outcome == Tails then Attacking else Defending;
          }
        }
      case Attacking | Defending | EndScreen =>
        if ev.kind == M.ResetButton {
          Init();
        }
      case _ =>
    }
  }
}
