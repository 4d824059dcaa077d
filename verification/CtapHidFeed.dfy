/**
 What the feed thread does with one report, as a sequence of atomic phases: local work on
 its own channels, and one phase for each critical section or send it performs.
 */
module CtapHidFeed {
  import opened Bytes
  import opened CtapHidFraming
  import opened CtapHidChannel

  const ERR_INVALID_CMD: Byte := 0x01
  const ERR_INVALID_LEN: Byte := 0x03
  const ERR_INVALID_SEQ: Byte := 0x04
  const ERR_CHANNEL_BUSY: Byte := 0x06
  const ERR_INVALID_CHANNEL: Byte := 0x0B
  const CTAPHID_PROTOCOL_VERSION: Byte := 2
  const CAPABILITIES: Byte := 0x04 + 0x08
  const NONCE_LENGTH := 8

  /** The fields of CtapHidDevice that outlive one report. */
  datatype Dev = Dev(
    channels: map<nat, Chan>, nextCid: nat,
    active: Option<nat>, cancelled: bool, cancelReply: bool)

  const Fresh := Dev(map[], 1, None, false, true)

  /** Where the feed thread is. */
  datatype Phase =
    | Ready
    | CheckBusy(cid: Cid, start: Event)
    | Allocate(nonce: seq<Byte>)
    | Cancelling(cid: Cid, reply: bool, answer: Option<Message>)
    | Aborting(answer: Option<Message>)
    | StartCbor(cid: Cid, payload: seq<Byte>)
    | Sending(message: Message, locked: bool)
    | Crashed

  /** What the rest of the program sees the feed thread do. */
  datatype Effect =
    | Deliver(message: Message)
    | Send(message: Message)
    | Spawn(cid: Cid, payload: seq<Byte>)
    | Abort
    | Raise

  predicate ValidDev(d: Dev) {
    && d.nextCid > 0
    && (forall c :: c in d.channels ==> 0 < c < d.nextCid && Consistent(d.channels[c]))
    && (d.active.Some? ==> d.active.value in d.channels)
  }

  function Error(cid: Cid, code: Byte): Message {
    Message(cid, CTAPHID_ERROR, [code])
  }

  /** The reply to CTAPHID_INIT, section 11.2.9.1.3 of CTAP 2.1. */
  function InitReply(cid: Cid, newCid: Cid, nonce: seq<Byte>): Message {
    Message(cid, CTAPHID_INIT, nonce + PackWord(newCid) + [CTAPHID_PROTOCOL_VERSION, 0, 0, 0, CAPABILITIES])
  }

  function Answer(m: Option<Message>): Phase {
    if m.Some? then Sending(m.value, false) else Ready
  }

  function Errors(cid: Cid, code: Byte): Phase {
    Sending(Error(cid, code), false)
  }

  /** Acting on a complete message. */
  function Dispatch(m: Message): Phase {
    if m.command == CTAPHID_PING then Sending(m, false)
    else if m.command == CTAPHID_WINK || m.command == CTAPHID_LOCK then Sending(m.(data := []), false)
    else if m.command == CTAPHID_CBOR then
      if m.data == [] then Errors(m.cid, ERR_INVALID_LEN) else StartCbor(m.cid, m.data)
    else Errors(m.cid, ERR_INVALID_CMD)
  }

  /** What follows when channel cid has taken an event. */
  function React(cid: Cid, out: Output): (Phase, seq<Effect>) {
    match out
    case Nothing => (Ready, [])
    case SequenceError => (Errors(cid, ERR_INVALID_SEQ), [])
    case Dispatched(command, payload) =>
      (Dispatch(Message(cid, command, payload)), [Deliver(Message(cid, command, payload))])
  }

  datatype Moved = Moved(dev: Dev, phase: Phase, effects: seq<Effect>)

  predicate BusyWithOther(d: Dev, cid: Cid) {
    d.active.Some? && d.active.value != cid
  }

  predicate ValidPhase(d: Dev, p: Phase) {
    match p
    case CheckBusy(cid, start) => cid in d.channels && start.Start? && Wellformed(start)
    case Allocate(nonce) => |nonce| == NONCE_LENGTH
    case Cancelling(_, _, answer) => answer.Some? ==> |answer.value.data| <= MAX_PAYLOAD
    case Aborting(answer) => answer.Some? ==> |answer.value.data| <= MAX_PAYLOAD
    case StartCbor(cid, payload) => cid in d.channels && 0 < |payload| <= MAX_PAYLOAD
    case Sending(m, _) => |m.data| <= MAX_PAYLOAD
    case Ready => true
    case Crashed => true
  }

  /** How far a phase is from the end of the report. */
  function Rank(p: Phase): nat {
    match p
    case CheckBusy(_, _) => 5
    case Allocate(_) => 4
    case Cancelling(_, _, _) => 4
    case Aborting(_) => 3
    case StartCbor(_, _) => 2
    case Sending(_, _) => 1
    case Ready => 0
    case Crashed => 0
  }

  /** Channel cid takes an event. */
  function Take(d: Dev, cid: Cid, e: Event): (r: Moved)
    requires ValidDev(d) && cid in d.channels && Wellformed(e)
    ensures ValidDev(r.dev) && ValidPhase(r.dev, r.phase) && Rank(r.phase) <= 2
  {
    var (ch, out) := ChanStep(d.channels[cid], e);
    var (phase, effects) := React(cid, out);
    Moved(Updated(d, cid, ch), phase, effects)
  }

  /** Everything before the first lock: parsing, and work on the feed thread's own channels. */
  function Receive(d: Dev, r: Report): (m: Moved)
    requires ValidDev(d)
    ensures ValidDev(m.dev) && ValidPhase(m.dev, m.phase)
  {
    match Parse(r)
    case Init(cid, command, length, payload) =>
      if command == CTAPHID_INIT then
        if length != NONCE_LENGTH then Moved(d, Errors(cid, ERR_INVALID_LEN), [])
        else if cid == CID_BROADCAST then Moved(d, Allocate(payload[..NONCE_LENGTH]), [])
        else
          Moved(Reset(d, cid), Cancelling(cid, false, Some(InitReply(cid, cid, payload[..NONCE_LENGTH]))), [])
      else if cid == CID_BROADCAST || cid !in d.channels then Moved(d, Errors(cid, ERR_INVALID_CHANNEL), [])
      else if command == CTAPHID_CANCEL then Moved(d, Cancelling(cid, true, None), [])
      else Moved(d, CheckBusy(cid, Start(command, length, payload)), [])
    case Cont(cid, number, payload) =>
      if cid !in d.channels then Moved(d, Ready, []) else Take(d, cid, Continue(number, payload))
  }

  /** One phase that is not a send. */
  function FeedStep(d: Dev, p: Phase): (m: Moved)
    requires ValidDev(d) && ValidPhase(d, p)
    ensures ValidDev(m.dev) && ValidPhase(m.dev, m.phase) && (Rank(p) > 0 ==> Rank(m.phase) < Rank(p))
  {
    match p
    case CheckBusy(cid, start) =>
      if BusyWithOther(d, cid) then Moved(d, Errors(cid, ERR_CHANNEL_BUSY), []) else Take(d, cid, start)
    case Allocate(nonce) =>
      if d.nextCid < 0x1_0000_0000 then
        Moved(Allocated(d), Sending(InitReply(CID_BROADCAST, d.nextCid, nonce), false), [])
      else Moved(Allocated(d), Crashed, [Raise])
    case Cancelling(cid, reply, answer) =>
      if d.active != Some(cid) then Moved(d, Answer(answer), [])
      else Moved(d.(cancelled := true, cancelReply := reply), Aborting(answer), [])
    case Aborting(answer) => Moved(d, Answer(answer), [Abort])
    case StartCbor(cid, payload) =>
      if d.active.Some? then Moved(d, Sending(Error(cid, ERR_CHANNEL_BUSY), true), [])
      else Moved(d.(active := Some(cid), cancelled := false), Ready, [Spawn(cid, payload)])
    case Sending(m, _) => Moved(d, Ready, [Send(m)])
    case Ready => Moved(d, p, [])
    case Crashed => Moved(d, p, [])
  }

  /** The phases from p to the end of the report, with no other thread in between. */
  function Settle(d: Dev, p: Phase): (r: (Dev, seq<Effect>))
    requires ValidDev(d) && ValidPhase(d, p)
    ensures ValidDev(r.0)
    decreases Rank(p)
  {
    if Rank(p) == 0 then (d, [])
    else
      var m := FeedStep(d, p);
      var (d', effects) := Settle(m.dev, m.phase);
      (d', m.effects + effects)
  }

  // ---------- the same report in one go ----------

  /** Flagging the running transaction, when it belongs to this channel, and aborting its face check. */
  function CancelActive(d: Dev, cid: Cid, reply: bool): (Dev, seq<Effect>) {
    if d.active != Some(cid) then (d, []) else (d.(cancelled := true, cancelReply := reply), [Abort])
  }

  function Begin(d: Dev, cid: Cid, payload: seq<Byte>): (Dev, seq<Effect>) {
    if payload == [] then (d, [Send(Error(cid, ERR_INVALID_LEN))])
    else if d.active.Some? then (d, [Send(Error(cid, ERR_CHANNEL_BUSY))])
    else (d.(active := Some(cid), cancelled := false), [Spawn(cid, payload)])
  }

  /** What a complete message leads to. */
  function Act(d: Dev, m: Message): (Dev, seq<Effect>) {
    if m.command == CTAPHID_PING then (d, [Send(m)])
    else if m.command == CTAPHID_WINK || m.command == CTAPHID_LOCK then (d, [Send(m.(data := []))])
    else if m.command == CTAPHID_CBOR then Begin(d, m.cid, m.data)
    else (d, [Send(Error(m.cid, ERR_INVALID_CMD))])
  }

  function Deliveries(d: Dev, m: Message): (Dev, seq<Effect>) {
    var (d', effects) := Act(d, m);
    (d', [Deliver(m)] + effects)
  }

  /** What a channel made of a frame leads to. */
  function Outcome(d: Dev, cid: Cid, out: Output): (Dev, seq<Effect>) {
    match out
    case Nothing => (d, [])
    case SequenceError => (d, [Send(Error(cid, ERR_INVALID_SEQ))])
    case Dispatched(command, payload) => Deliveries(d, Message(cid, command, payload))
  }

  /** The device with another value for one of its channels. */
  function Updated(d: Dev, cid: nat, ch: Chan): Dev {
    d.(channels := d.channels[cid := ch])
  }

  /** What taking an event on channel cid leads to. */
  function Absorb(d: Dev, cid: Cid, e: Event): (Dev, seq<Effect>)
    requires ValidDev(d) && cid in d.channels && Wellformed(e)
  {
    var (ch, out) := ChanStep(d.channels[cid], e);
    Outcome(Updated(d, cid, ch), cid, out)
  }

  /** A continuation frame; one for an unknown channel is ignored. */
  function Continuation(d: Dev, cid: Cid, e: Event): (Dev, seq<Effect>)
    requires ValidDev(d) && Wellformed(e)
  {
    if cid !in d.channels then (d, []) else Absorb(d, cid, e)
  }

  /** The device with its next channel registered. */
  function Allocated(d: Dev): (r: Dev)
    requires ValidDev(d)
    ensures ValidDev(r)
  {
    d.(nextCid := d.nextCid + 1, channels := d.channels[d.nextCid := Idle])
  }

  function Reset(d: Dev, cid: Cid): Dev {
    if cid in d.channels then Updated(d, cid, Idle) else d
  }

  /** CTAPHID_INIT: a new channel for the broadcast id, a re-sync for any other. */
  function Initialise(d: Dev, cid: Cid, nonce: seq<Byte>): (Dev, seq<Effect>)
    requires ValidDev(d) && |nonce| <= INIT_PAYLOAD
  {
    if |nonce| != NONCE_LENGTH then (d, [Send(Error(cid, ERR_INVALID_LEN))])
    else if cid == CID_BROADCAST then
      (Allocated(d), [if d.nextCid < 0x1_0000_0000 then Send(InitReply(cid, d.nextCid, nonce)) else Raise])
    else
      var (d', effects) := CancelActive(Reset(d, cid), cid, false);
      (d', effects + [Send(InitReply(cid, cid, nonce))])
  }

  function InitFrame(d: Dev, cid: Cid, command: Command, length: nat, payload: seq<Byte>): (Dev, seq<Effect>)
    requires ValidDev(d) && Wellformed(Start(command, length, payload))
  {
    if command == CTAPHID_INIT then Initialise(d, cid, payload[..Min(length, INIT_PAYLOAD)])
    else if cid == CID_BROADCAST || cid !in d.channels then (d, [Send(Error(cid, ERR_INVALID_CHANNEL))])
    else if command == CTAPHID_CANCEL then CancelActive(d, cid, true)
    else if BusyWithOther(d, cid) then (d, [Send(Error(cid, ERR_CHANNEL_BUSY))])
    else Absorb(d, cid, Start(command, length, payload))
  }

  /** One report handled from start to end with no other thread in between. */
  function FeedReport(d: Dev, r: Report): (Dev, seq<Effect>)
    requires ValidDev(d)
  {
    match Parse(r)
    case Init(cid, command, length, payload) => InitFrame(d, cid, command, length, payload)
    case Cont(cid, number, payload) => Continuation(d, cid, Continue(number, payload))
  }

  /** A phase whose step ends the report. */
  lemma SettleLast(d: Dev, p: Phase)
    requires ValidDev(d) && ValidPhase(d, p)
    requires Rank(p) > 0 ==> Rank(FeedStep(d, p).phase) == 0
    ensures Rank(p) == 0 ==> Settle(d, p) == (d, [])
    ensures Rank(p) > 0 ==> Settle(d, p) == (FeedStep(d, p).dev, FeedStep(d, p).effects)
  {
    var m := FeedStep(d, p);
    assert Rank(p) > 0 ==> Settle(m.dev, m.phase) == (m.dev, []);
    assert m.effects + [] == m.effects;
  }

  lemma SettleUnfold(d: Dev, p: Phase)
    requires ValidDev(d) && ValidPhase(d, p) && Rank(p) > 0
    ensures var m := FeedStep(d, p);
            var rest := Settle(m.dev, m.phase);
            Settle(d, p) == (rest.0, m.effects + rest.1)
            && (m.effects == [] ==> Settle(d, p) == rest)
  {
    var m := FeedStep(d, p);
    var rest := Settle(m.dev, m.phase);
    assert [] + rest.1 == rest.1;
  }

  lemma SettleSend(d: Dev, m: Message, locked: bool)
    requires ValidDev(d) && |m.data| <= MAX_PAYLOAD
    ensures Settle(d, Sending(m, locked)) == (d, [Send(m)])
  {
    SettleLast(d, Sending(m, locked));
  }

  lemma SettleDispatch(d: Dev, m: Message)
    requires ValidDev(d) && m.cid in d.channels && |m.data| <= MAX_PAYLOAD
    ensures Settle(d, Dispatch(m)) == Act(d, m)
  {
    match Dispatch(m)
    case Sending(m', locked) => SettleSend(d, m', locked);
    case StartCbor(cid, payload) =>
      if d.active.Some? {
        SettleUnfold(d, StartCbor(cid, payload));
        SettleSend(d, Error(cid, ERR_CHANNEL_BUSY), true);
      } else {
        SettleLast(d, StartCbor(cid, payload));
      }
  }

  lemma SettleTake(d: Dev, cid: Cid, e: Event)
    requires ValidDev(d) && cid in d.channels && Wellformed(e)
    ensures var m := Take(d, cid, e);
            var rest := Settle(m.dev, m.phase);
            Absorb(d, cid, e) == (rest.0, m.effects + rest.1)
  {
    var m := Take(d, cid, e);
    var rest := Settle(m.dev, m.phase);
    assert [] + rest.1 == rest.1;
    match ChanStep(d.channels[cid], e).1 {
      case Nothing => SettleLast(m.dev, Ready);
      case SequenceError => SettleSend(m.dev, Error(cid, ERR_INVALID_SEQ), false);
      case Dispatched(command, payload) => SettleDispatch(m.dev, Message(cid, command, payload));
    }
  }

  /** Sending the answer, if there is one, ends the report. */
  lemma SettleAnswer(d: Dev, answer: Option<Message>)
    requires ValidDev(d) && (answer.Some? ==> |answer.value.data| <= MAX_PAYLOAD)
    ensures Settle(d, Answer(answer)) == (d, if answer.Some? then [Send(answer.value)] else [])
  {
    if answer.Some? { SettleSend(d, answer.value, false); } else { SettleLast(d, Ready); }
  }

  lemma SettleCancel(d: Dev, cid: Cid, reply: bool, answer: Option<Message>)
    requires ValidDev(d) && ValidPhase(d, Cancelling(cid, reply, answer))
    ensures var (d', effects) := CancelActive(d, cid, reply);
            Settle(d, Cancelling(cid, reply, answer))
            == (d', effects + if answer.Some? then [Send(answer.value)] else [])
  {
    var d' := FeedStep(d, Cancelling(cid, reply, answer)).dev;
    SettleUnfold(d, Cancelling(cid, reply, answer));
    if d.active == Some(cid) { SettleUnfold(d', Aborting(answer)); }
    SettleAnswer(d', answer);
    var last := if answer.Some? then [Send(answer.value)] else [];
    assert [] + last == last;
  }

  lemma SettleAllocate(d: Dev, nonce: seq<Byte>)
    requires ValidDev(d) && |nonce| == NONCE_LENGTH
    ensures Settle(d, Allocate(nonce)) == Initialise(d, CID_BROADCAST, nonce)
  {
    var m := FeedStep(d, Allocate(nonce));
    if m.phase.Sending? {
      SettleUnfold(d, Allocate(nonce));
      SettleSend(m.dev, m.phase.message, false);
    } else {
      SettleLast(d, Allocate(nonce));
    }
  }

  lemma SettleCheckBusy(d: Dev, cid: Cid, start: Event)
    requires ValidDev(d) && ValidPhase(d, CheckBusy(cid, start))
    ensures Settle(d, CheckBusy(cid, start))
            == if BusyWithOther(d, cid) then (d, [Send(Error(cid, ERR_CHANNEL_BUSY))]) else Absorb(d, cid, start)
  {
    SettleUnfold(d, CheckBusy(cid, start));
    if BusyWithOther(d, cid) {
      SettleSend(d, Error(cid, ERR_CHANNEL_BUSY), false);
    } else {
      SettleTake(d, cid, start);
    }
  }

  lemma ContinuationComposes(d: Dev, r: Report)
    requires ValidDev(d) && Parse(r).Cont?
    ensures var m := Receive(d, r);
            var rest := Settle(m.dev, m.phase);
            FeedReport(d, r) == (rest.0, m.effects + rest.1)
  {
    var cid := Parse(r).cid;
    if cid !in d.channels {
      SettleLast(d, Ready);
      assert FeedReport(d, r) == (d, []);
      assert Receive(d, r).effects == [];
      assert [] + Settle(d, Ready).1 == [];
    } else {
      SettleTake(d, cid, Continue(Parse(r).number, Parse(r).payload));
    }
  }

  lemma InitFrameComposes(d: Dev, r: Report)
    requires ValidDev(d) && Parse(r).Init?
    ensures var m := Receive(d, r);
            m.effects == [] && FeedReport(d, r) == Settle(m.dev, m.phase)
  {
    var m := Receive(d, r);
    match m.phase {
      case Sending(message, locked) => SettleSend(d, message, locked);
      case Cancelling(cid, reply, answer) =>
        SettleCancel(m.dev, cid, reply, answer);
        var effects := CancelActive(m.dev, cid, reply).1;
        assert effects + [] == effects;
      case Allocate(nonce) => SettleAllocate(d, nonce);
      case CheckBusy(cid, start) => SettleCheckBusy(d, cid, start);
    }
  }

  /** The phases of one report, run with no other thread in between, amount to FeedReport. */
  lemma PhasesCompose(d: Dev, r: Report)
    requires ValidDev(d)
    ensures var m := Receive(d, r);
            var rest := Settle(m.dev, m.phase);
            FeedReport(d, r) == (rest.0, m.effects + rest.1) && ValidDev(rest.0)
  {
    if Parse(r).Init? {
      InitFrameComposes(d, r);
      var rest := Settle(Receive(d, r).dev, Receive(d, r).phase);
      assert [] + rest.1 == rest.1;
    } else {
      ContinuationComposes(d, r);
    }
  }
}
