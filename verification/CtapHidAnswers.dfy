/**
 What the device answers to a report, spelled out on the report itself, and what a CBOR transaction is started on.
 The command and error codes are those of sections 11.2.9 and 11.2.9.1.6 of CTAP 2.1.
 */
module CtapHidAnswers {
  import opened Bytes
  import opened CtapHidFraming
  import opened CtapHidChannel
  import opened CtapHidFeed
  import T = CtapHidThreads
  import S = CtapHidStreams
  import G = CtapHidGuarantees

  // ---------- one report ----------

  /** CTAPHID_INIT: the nonce has 8 bytes; the broadcast id gets the next channel, any other id is reset. */
  lemma InitAnswered(d: Dev, r: Report)
    requires ValidDev(d) && Parse(r).Init? && Parse(r).command == 0x06
    ensures var f, (d', effects) := Parse(r), FeedReport(d, r);
            if f.length != 8 then d' == d && effects == [Send(Message(f.cid, 0x3F, [0x03]))]
            else if f.cid == 0xFFFF_FFFF then
              && d' == d.(channels := d.channels[d.nextCid := Chan(None, 0, [], 0)], nextCid := d.nextCid + 1)
              && effects == [if d.nextCid >= 0x1_0000_0000 then Raise
                             else Send(Message(f.cid, 0x06, f.payload[..8] + PackWord(d.nextCid) + [2, 0, 0, 0, 12]))]
            else
              var answer := Send(Message(f.cid, 0x06, f.payload[..8] + PackWord(f.cid) + [2, 0, 0, 0, 12]));
              var reset := if f.cid in d.channels then d.channels[f.cid := Chan(None, 0, [], 0)] else d.channels;
              if d.active == Some(f.cid) then
                d' == d.(channels := reset, cancelled := true, cancelReply := false) && effects == [Abort, answer]
              else d' == d.(channels := reset) && effects == [answer]
  {
    hide Parse;
  }

  /** An initialization frame that starts no message. */
  lemma InitFrameAnswered(d: Dev, r: Report)
    requires ValidDev(d) && Parse(r).Init? && Parse(r).command != 0x06
    ensures var f, (d', effects) := Parse(r), FeedReport(d, r);
            if f.cid == 0xFFFF_FFFF || f.cid !in d.channels then
              d' == d && effects == [Send(Message(f.cid, 0x3F, [0x0B]))]
            else if f.command == 0x11 then
              if d.active == Some(f.cid) then d' == d.(cancelled := true, cancelReply := true) && effects == [Abort]
              else d' == d && effects == []
            else
              d.active.Some? && d.active.value != f.cid ==> d' == d && effects == [Send(Message(f.cid, 0x3F, [0x06]))]
  {
    hide Parse;
  }

  /** What a frame means for its own channel, if that takes it in. */
  predicate TakenAs(d: Dev, f: Frame, e: Event) {
    f.cid in d.channels &&
    match f
    case Cont(_, number, payload) => e == Continue(number, payload)
    case Init(cid, command, length, payload) =>
      && cid != 0xFFFF_FFFF && command != 0x06 && command != 0x11 && (d.active.None? || d.active.value == cid)
      && e == Start(command, length, payload)
  }

  /** A frame that its channel takes in; a continuation for an unknown channel is ignored. */
  lemma MessageAnswered(d: Dev, r: Report, e: Event)
    requires ValidDev(d) && TakenAs(d, Parse(r), e) && Wellformed(e)
    ensures var cid, (d', effects) := Parse(r).cid, FeedReport(d, r);
            var (ch, out) := ChanStep(d.channels[cid], e);
            var held := d.(channels := d.channels[cid := ch]);
            match out
            case Nothing => d' == held && effects == []
            case SequenceError => d' == held && effects == [Send(Message(cid, 0x3F, [0x04]))]
            case Dispatched(command, payload) =>
              && effects[..1] == [Deliver(Message(cid, command, payload))] && |effects| == 2
              && if command == 0x10 && payload != [] && d.active.None? then
                   d' == held.(active := Some(cid), cancelled := false) && effects[1] == Spawn(cid, payload)
                 else
                   && d' == held
                   && effects[1] == Send(if command == 0x01 then Message(cid, 0x01, payload)
                                         else if command == 0x08 || command == 0x04 then Message(cid, command, [])
                                         else if command != 0x10 then Message(cid, 0x3F, [0x01])
                                         else if payload == [] then Message(cid, 0x3F, [0x03])
                                         else Message(cid, 0x3F, [0x06]))
  {
    hide Parse, ChanStep;
  }

  lemma UnknownIgnored(d: Dev, r: Report)
    requires ValidDev(d) && Parse(r).Cont? && Parse(r).cid !in d.channels
    ensures FeedReport(d, r) == (d, [])
  {
    hide Parse;
  }

  /** A worker is started on exactly the payload of a delivered CBOR message, if no transaction is active. */
  lemma SpawnsExactly(d: Dev, r: Report, cid: Cid, payload: seq<Byte>)
    requires ValidDev(d)
    ensures var effects := FeedReport(d, r).1;
            Spawn(cid, payload) in effects <==>
            payload != [] && d.active.None? && Deliver(Message(cid, 0x10, payload)) in effects
  {
    hide Parse, ChanStep, FeedReport;
    var f := Parse(r);
    if f.Init? && f.command == 0x06 {
      InitAnswered(d, r);
      return;
    }
    var e := if f.Init? then Start(f.command, f.length, f.payload) else Continue(f.number, f.payload);
    if TakenAs(d, f, e) {
      MessageAnswered(d, r, e);
      var effects := FeedReport(d, r).1;
      if ChanStep(d.channels[f.cid], e).1.Dispatched? {
        assert effects[0] == effects[..1][0];
        assert effects == [effects[0], effects[1]];
      }
    } else if f.Init? {
      InitFrameAnswered(d, r);
    } else {
      UnknownIgnored(d, r);
    }
  }

  // ---------- every schedule ----------

  /** Where each transaction's message is among the delivered ones. */
  ghost predicate Positions(w: T.World, at: seq<nat>) {
    && |at| == |w.txns|
    && (forall i, j :: 0 <= i < j < |at| ==> at[i] < at[j])
    && (forall i :: 0 <= i < |at| ==>
          at[i] < |w.delivered| && w.txns[i].payload != []
          && w.delivered[at[i]] == Message(w.txns[i].cid, 0x10, w.txns[i].payload))
  }

  /** A message that is about to start a transaction is the last one delivered, and has started none. */
  ghost predicate Claims(w: T.World, at: seq<nat>) {
    w.feed.StartCbor? ==>
      && w.feed.payload != [] && w.delivered != []
      && w.delivered[|w.delivered| - 1] == Message(w.feed.cid, 0x10, w.feed.payload)
      && (forall i :: 0 <= i < |at| ==> at[i] < |w.delivered| - 1)
  }

  /** A phase that starts a transaction comes right after the delivery of its message. */
  ghost predicate StartsDelivered(m: Moved) {
    m.phase.StartCbor? ==>
      m.phase.payload != [] && m.effects == [Deliver(Message(m.phase.cid, 0x10, m.phase.payload))]
  }

  lemma PhasesStartDelivered(d: Dev, r: Report, p: Phase)
    requires ValidDev(d) && ValidPhase(d, p)
    ensures StartsDelivered(Receive(d, r))
    ensures p.StartCbor? || p.CheckBusy? || p.Allocate? || p.Cancelling? || p.Aborting? ==>
              StartsDelivered(FeedStep(d, p))
    ensures p.StartCbor? ==> FeedStep(d, p).effects in {[], [Spawn(p.cid, p.payload)]}
    ensures p.StartCbor? ==> !FeedStep(d, p).phase.StartCbor?
  {
    hide ChanStep, Parse, InitReply;
  }

  /** More messages delivered, no more transactions: the positions stay. */
  lemma PositionsStay(w: T.World, w': T.World, at: seq<nat>)
    requires Positions(w, at) && |w'.txns| == |w.txns|
    requires forall i :: 0 <= i < |w.txns| ==>
               w'.txns[i].cid == w.txns[i].cid && w'.txns[i].payload == w.txns[i].payload
    requires |w.delivered| <= |w'.delivered| && w'.delivered[..|w.delivered|] == w.delivered
    ensures Positions(w', at)
  {
    forall k | 0 <= k < |w.delivered|
      ensures w'.delivered[k] == w.delivered[k]
    {
      assert w'.delivered[..|w.delivered|][k] == w'.delivered[k];
    }
  }

  /** Only the feed thread delivers messages or starts transactions. */
  lemma OthersKeepTransactions(w: T.World, s: T.Step)
    requires T.Enabled(w, s) && !s.FeedReceive? && !s.FeedMove?
    ensures var w' := T.Do(w, s);
            && w'.delivered == w.delivered && |w'.txns| == |w.txns|
            && (forall i :: 0 <= i < |w.txns| ==>
                  w'.txns[i].cid == w.txns[i].cid && w'.txns[i].payload == w.txns[i].payload)
            && (w'.feed.StartCbor? ==> w'.feed == w.feed)
  {
    hide T.EmitOne, ValidDev, ValidPhase;
  }

  lemma ReceiveKeepsPositions(w: T.World, r: Report, at: seq<nat>)
    requires Positions(w, at) && T.Enabled(w, T.FeedReceive(r))
    ensures Positions(T.Receives(w, r), at) && Claims(T.Receives(w, r), at)
  {
    PhasesStartDelivered(w.dev, r, w.feed);
    T.ReceivesShape(w, r);
    var w', m := T.Receives(w, r), Receive(w.dev, r);
    assert w'.delivered == w.delivered + S.Delivered(m.effects);
    hide Receive, T.Receives, Positions;
    PositionsStay(w, w', at);
    if m.phase.StartCbor? { S.DeliveredSnoc([], m.effects[0]); }
  }

  /** What a phase of the feed thread does to the transactions. */
  lemma MoveTransactions(w: T.World)
    requires T.Enabled(w, T.FeedMove)
    ensures var w', m := T.Moves(w), FeedStep(w.dev, w.feed);
            && w'.feed == m.phase && w'.delivered == w.delivered + S.Delivered(m.effects)
            && |w.txns| <= |w'.txns|
            && (forall i :: 0 <= i < |w.txns| ==>
                  w'.txns[i].cid == w.txns[i].cid && w'.txns[i].payload == w.txns[i].payload)
            && (if w.feed.StartCbor? && m.phase.Ready? then
                  && |w'.txns| == |w.txns| + 1
                  && w'.txns[|w.txns|].cid == w.feed.cid && w'.txns[|w.txns|].payload == w.feed.payload
                else |w'.txns| == |w.txns|)
  {
    hide FeedStep, S.Delivered, ValidDev, ValidPhase;
  }

  lemma NothingDelivered(effects: seq<Effect>, cid: Cid, payload: seq<Byte>)
    requires effects in {[], [Spawn(cid, payload)]}
    ensures S.Delivered(effects) == []
  {
    S.NothingDelivered(effects);
  }

  /** The transaction whose message was just delivered takes the last position. */
  lemma PositionsGrow(w: T.World, w': T.World, at: seq<nat>)
    requires Positions(w, at) && Claims(w, at) && w.feed.StartCbor?
    requires w'.delivered == w.delivered && |w'.txns| == |w.txns| + 1
    requires forall i :: 0 <= i < |w.txns| ==>
               w'.txns[i].cid == w.txns[i].cid && w'.txns[i].payload == w.txns[i].payload
    requires w'.txns[|w.txns|].cid == w.feed.cid && w'.txns[|w.txns|].payload == w.feed.payload
    ensures Positions(w', at + [|w.delivered| - 1])
  {
  }

  lemma MoveKeepsPositions(w: T.World, at: seq<nat>) returns (at': seq<nat>)
    requires Positions(w, at) && Claims(w, at) && T.Enabled(w, T.FeedMove)
    ensures Positions(T.Moves(w), at') && Claims(T.Moves(w), at')
  {
    PhasesStartDelivered(w.dev, w.current, w.feed);
    MoveTransactions(w);
    var w', m := T.Moves(w), FeedStep(w.dev, w.feed);
    hide T.Moves, T.Enabled, FeedStep, Receive, Positions;
    if w.feed.StartCbor? { NothingDelivered(m.effects, w.feed.cid, w.feed.payload); }
    if w.feed.StartCbor? && m.phase.Ready? {
      at' := at + [|w.delivered| - 1];
      assert w'.delivered == w.delivered;
      PositionsGrow(w, w', at);
    } else {
      at' := at;
      PositionsStay(w, w', at);
      if m.phase.StartCbor? { ClaimedLast(w, w', m, at); }
    }
  }

  lemma ClaimedLast(w: T.World, w': T.World, m: Moved, at: seq<nat>)
    requires Positions(w, at) && StartsDelivered(m) && m.phase.StartCbor?
    requires w'.feed == m.phase && w'.delivered == w.delivered + S.Delivered(m.effects)
    ensures Claims(w', at)
  {
    S.DeliveredSnoc([], m.effects[0]);
  }

  /**
   In every schedule, each transaction was started on the channel and the payload of a CBOR message that was delivered,
   a different one for each, in the order of delivery.
   */
  lemma TransactionsAreDelivered(steps: seq<T.Step>, w: T.World) returns (at: seq<nat>)
    requires T.After(steps) == Some(w)
    ensures |at| == |w.txns| && forall i, j :: 0 <= i < j < |at| ==> at[i] < at[j]
    ensures forall i :: 0 <= i < |at| ==>
              at[i] < |w.delivered| && w.txns[i].payload != []
              && w.delivered[at[i]] == Message(w.txns[i].cid, 0x10, w.txns[i].payload)
  {
    hide T.After;
    at := PositionsExist(steps, w);
  }

  lemma {:induction false} PositionsExist(steps: seq<T.Step>, w: T.World) returns (at: seq<nat>)
    requires T.After(steps) == Some(w)
    ensures Positions(w, at) && Claims(w, at)
    decreases |steps|
  {
    hide T.Do, T.Enabled, Positions, Claims;
    if steps == [] {
      at := NoneYet();
    } else {
      var w0, s := T.After(steps[..|steps| - 1]).value, steps[|steps| - 1];
      at := PositionsExist(steps[..|steps| - 1], w0);
      at := StepKeepsPositions(w0, s, at);
    }
  }

  lemma NoneYet() returns (at: seq<nat>)
    ensures Positions(T.Initial, at) && Claims(T.Initial, at)
  {
    at := [];
  }

  lemma StepKeepsPositions(w: T.World, s: T.Step, at: seq<nat>) returns (at': seq<nat>)
    requires Positions(w, at) && Claims(w, at) && T.Enabled(w, s)
    ensures Positions(T.Do(w, s), at') && Claims(T.Do(w, s), at')
  {
    hide T.Receives, T.Moves, T.Emits, T.Releases, T.Pending;
    match s {
      case FeedReceive(r) =>
        ReceiveKeepsPositions(w, r, at);
        at' := at;
      case FeedMove => at' := MoveKeepsPositions(w, at);
      case _ =>
        OthersKeepTransactions(w, s);
        hide T.Do, T.Enabled;
        at' := at;
        PositionsStay(w, T.Do(w, s), at);
    }
  }
}
