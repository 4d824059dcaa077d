/** What whole streams of reports do: the round trip through the device, isolation of channels, channel ids. */
module CtapHidStreams {
  import opened Bytes
  import opened CtapHidFraming
  import opened CtapHidChannel
  import opened CtapHidFeed

  /** Reports handled one after the other. */
  function FeedAll(d: Dev, rs: seq<Report>): (s: (Dev, seq<Effect>))
    requires ValidDev(d)
    ensures ValidDev(s.0)
  {
    if rs == [] then (d, [])
    else
      var (d', effects) := FeedAll(d, rs[..|rs| - 1]);
      PhasesCompose(d', rs[|rs| - 1]);
      var (d'', more) := FeedReport(d', rs[|rs| - 1]);
      (d'', effects + more)
  }

  // ---------- the frames of one message ----------

  /** A message the device may reassemble: on a registered channel, no other transaction running. */
  ghost predicate Acceptable(d: Dev, m: Message) {
    && m.cid in d.channels && m.cid != CID_BROADCAST
    && m.command != CTAPHID_INIT && m.command != CTAPHID_CANCEL
    && !BusyWithOther(d, m.cid)
    && |m.data| < 0x1_0000
  }

  /** The device and its effects after frame k of m. */
  ghost function Progress(d: Dev, m: Message, k: nat): (Dev, seq<Effect>)
    requires Acceptable(d, m)
  {
    var held := Updated(d, m.cid, AfterFragment(m, k));
    if k > 128 then (held, [Send(Error(m.cid, ERR_INVALID_SEQ))])
    else if k == Needed(|m.data|) then Deliveries(held, m)
    else (held, [])
  }

  lemma FragmentProgress(d: Dev, m: Message, k: nat)
    requires ValidDev(d) && Acceptable(d, m) && k <= Needed(|m.data|)
    requires k > 0 ==> d.channels[m.cid] == AfterFragment(m, k - 1)
    ensures FeedReport(d, Fragment(m, k))
            == Outcome(Updated(d, m.cid, AfterFragment(m, k)), m.cid, FragmentOutput(m, k))
  {
    if k == 0 {
      FirstFragmentParses(m);
      FirstFragmentStep(d.channels[m.cid], m);
    } else {
      NextFragmentParses(m, k);
      FragmentStep(m, k);
    }
  }

  lemma FeedAllSnoc(d: Dev, rs: seq<Report>, r: Report)
    requires ValidDev(d)
    ensures var (d', effects) := FeedAll(d, rs);
            var (d'', more) := FeedReport(d', r);
            FeedAll(d, rs + [r]) == (d'', effects + more)
            && (effects == [] ==> FeedAll(d, rs + [r]) == (d'', more))
            && (more == [] ==> FeedAll(d, rs + [r]) == (d'', effects))
  {
    var (d', effects) := FeedAll(d, rs);
    assert (rs + [r])[..|rs|] == rs;
    var more := FeedReport(d', r).1;
    assert [] + more == more && effects + [] == effects;
  }

  lemma NextProgress(d: Dev, m: Message, k: nat)
    requires ValidDev(d) && Acceptable(d, m) && 0 < k <= Needed(|m.data|)
    requires FeedAll(d, FirstFragments(m, k)) == Progress(d, m, k - 1)
    ensures FeedAll(d, FirstFragments(m, k) + [Fragment(m, k)]) == Progress(d, m, k)
  {
    hide FeedAll, FeedReport, FirstFragments, Fragment, Deliveries, Carried, Needed, ValidDev;
    FeedAllSnoc(d, FirstFragments(m, k), Fragment(m, k));
    var held := Updated(d, m.cid, AfterFragment(m, k - 1));
    assert FeedAll(d, FirstFragments(m, k)).0 == held;
    FragmentProgress(held, m, k);
    assert Updated(held, m.cid, AfterFragment(m, k)) == Updated(d, m.cid, AfterFragment(m, k));
  }

  lemma {:induction false} FragmentsProgress(d: Dev, m: Message, k: nat)
    requires ValidDev(d) && Acceptable(d, m) && k <= Needed(|m.data|)
    ensures FeedAll(d, FirstFragments(m, k + 1)) == Progress(d, m, k)
  {
    hide FeedReport, Fragment, Deliveries, Progress;
    if k == 0 {
      FirstProgress(d, m);
    } else {
      FragmentsProgress(d, m, k - 1);
      NextProgress(d, m, k);
    }
  }

  lemma FirstProgress(d: Dev, m: Message)
    requires ValidDev(d) && Acceptable(d, m)
    ensures FeedAll(d, FirstFragments(m, 1)) == Progress(d, m, 0)
  {
    FeedAllSnoc(d, [], Fragment(m, 0));
    FragmentProgress(d, m, 0);
  }

  /**
   Feeding the device the frames of a message delivers exactly that message, once, when its payload is
   at most MAX_PAYLOAD; a longer one is answered by one ERR_INVALID_SEQ and delivers nothing.
   */
  lemma DeviceRoundTrip(d: Dev, m: Message)
    requires ValidDev(d) && Acceptable(d, m)
    ensures FeedAll(d, Fragments(m))
            == if |m.data| <= MAX_PAYLOAD then Deliveries(Reset(d, m.cid), m)
               else (Reset(d, m.cid), [Send(Error(m.cid, ERR_INVALID_SEQ))])
  {
    NeededIsExact(|m.data|, 128);
    FragmentsProgress(d, m, Needed(|m.data|));
  }

  // ---------- isolation of channels ----------

  /** A report, and what _busy_with_other answered while it was handled. */
  datatype Input = Input(report: Report, busy: bool)

  /** The part of the device only the feed thread touches. */
  datatype Desk = Desk(channels: map<nat, Chan>, nextCid: nat)

  ghost predicate ValidDesk(k: Desk) {
    k.nextCid > 0 && forall c :: c in k.channels ==> 0 < c < k.nextCid && Consistent(k.channels[c])
  }

  predicate Allocates(f: Frame) {
    f.Init? && f.command == CTAPHID_INIT && f.cid == CID_BROADCAST && f.length == NONCE_LENGTH
  }

  /** What a frame does to its own channel, if that is registered. */
  function Touch(f: Frame, busy: bool): (e: Option<Event>)
    requires f.Init? ==> f.length < 0x1_0000 && |f.payload| == INIT_PAYLOAD
    requires f.Cont? ==> f.number < 0x80 && |f.payload| == CONT_PAYLOAD
    ensures e.Some? ==> Wellformed(e.value)
  {
    match f
    case Cont(_, number, payload) => Some(Continue(number, payload))
    case Init(cid, command, length, payload) =>
      if cid == CID_BROADCAST then None
      else if command == CTAPHID_INIT then (if length == NONCE_LENGTH then Some(Resync) else None)
      else if command == CTAPHID_CANCEL || busy then None
      else Some(Start(command, length, payload))
  }

  function DispatchedOn(cid: nat, out: Output): seq<Message>
    requires cid < 0x1_0000_0000
  {
    if out.Dispatched? then [Message(cid, out.command, out.payload)] else []
  }

  /** One report's work on the channels, and the message it completes. */
  function Handle(k: Desk, input: Input): (r: (Desk, seq<Message>))
    requires ValidDesk(k)
    ensures ValidDesk(r.0)
  {
    var f := Parse(input.report);
    var e := Touch(f, input.busy);
    if Allocates(f) then (Desk(k.channels[k.nextCid := Idle], k.nextCid + 1), [])
    else if f.cid in k.channels && e.Some? then
      var (ch, out) := ChanStep(k.channels[f.cid], e.value);
      (k.(channels := k.channels[f.cid := ch]), DispatchedOn(f.cid, out))
    else (k, [])
  }

  function HandleAll(k: Desk, inputs: seq<Input>): (r: (Desk, seq<Message>))
    requires ValidDesk(k)
    ensures ValidDesk(r.0)
  {
    if inputs == [] then (k, [])
    else
      var (k', ms) := HandleAll(k, inputs[..|inputs| - 1]);
      var (k'', more) := Handle(k', inputs[|inputs| - 1]);
      (k'', ms + more)
  }

  /** The reports among the inputs that carry id c. */
  function Own(c: nat, inputs: seq<Input>): seq<Input> {
    if inputs == [] then []
    else
      var last := inputs[|inputs| - 1];
      Own(c, inputs[..|inputs| - 1]) + if Parse(last.report).cid == c then [last] else []
  }

  /** What an input does to channel c. */
  function EventOn(c: nat, input: Input): (e: Option<Event>)
    ensures e.Some? ==> Wellformed(e.value)
  {
    var f := Parse(input.report);
    if f.cid == c then Touch(f, input.busy) else None
  }

  /** What a list of inputs does to channel c. */
  function EventsOn(c: nat, inputs: seq<Input>): (es: seq<Event>)
    ensures AllWellformed(es)
  {
    if inputs == [] then []
    else
      var e := EventOn(c, inputs[|inputs| - 1]);
      EventsOn(c, inputs[..|inputs| - 1]) + if e.Some? then [e.value] else []
  }

  function MessagesOn(c: nat, ms: seq<Message>): seq<Message> {
    if ms == [] then []
    else
      var last := ms[|ms| - 1];
      MessagesOn(c, ms[..|ms| - 1]) + if last.cid == c then [last] else []
  }

  function DispatchesOf(c: nat, outs: seq<Output>): seq<Message>
    requires c < 0x1_0000_0000
  {
    if outs == [] then [] else DispatchesOf(c, outs[..|outs| - 1]) + DispatchedOn(c, outs[|outs| - 1])
  }

  lemma MessagesOnAppend(c: nat, ms: seq<Message>, more: seq<Message>)
    requires |more| <= 1
    ensures MessagesOn(c, more) == if more != [] && more[0].cid == c then more else []
    ensures MessagesOn(c, ms + more) == MessagesOn(c, ms) + MessagesOn(c, more)
  {
    if more == [] {
      assert ms + more == ms;
    } else {
      assert (ms + more)[..|ms|] == ms;
      assert more[..0] == [];
    }
  }

  /** One input leaves another channel alone, and does to its own what Touch says. */
  lemma HandleOnChannel(k: Desk, input: Input, c: nat)
    requires ValidDesk(k) && c in k.channels && c < 0x1_0000_0000
    ensures var (k', more) := Handle(k, input);
            c in k'.channels && k'.nextCid >= k.nextCid && |more| <= 1
            && match EventOn(c, input)
               case None => k'.channels[c] == k.channels[c] && MessagesOn(c, more) == []
               case Some(e) =>
                 k'.channels[c] == ChanStep(k.channels[c], e).0
                 && MessagesOn(c, more) == DispatchedOn(c, ChanStep(k.channels[c], e).1)
  {
    hide Parse, ChanStep, Consistent, MessagesOn;
    var more := Handle(k, input).1;
    assert |more| <= 1;
    MessagesOnAppend(c, [], more);
    assert more != [] ==> more[0].cid == Parse(input.report).cid;
  }

  lemma DispatchesOfSnoc(c: nat, outs: seq<Output>, out: Output)
    requires c < 0x1_0000_0000
    ensures DispatchesOf(c, outs + [out]) == DispatchesOf(c, outs) + DispatchedOn(c, out)
  {
    assert (outs + [out])[..|outs|] == outs;
  }

  /** One more input, if channel c so far is where its own events lead it. */
  lemma IsolationStep(
    k0: Desk, k: Desk, ms: seq<Message>, ch0: Chan, es: seq<Event>, input: Input, c: nat)
    requires ValidDesk(k0) && ValidDesk(k) && c in k.channels && c < 0x1_0000_0000 && k.nextCid >= k0.nextCid
    requires Consistent(ch0) && AllWellformed(es) && k.channels[c] == ChanRun(ch0, es).0
    requires MessagesOn(c, ms) == DispatchesOf(c, ChanRun(ch0, es).1)
    ensures var (k', more) := Handle(k, input);
            var e := EventOn(c, input);
            var (ch, outs) := ChanRun(ch0, es + if e.Some? then [e.value] else []);
            c in k'.channels && k'.nextCid >= k0.nextCid && k'.channels[c] == ch
            && MessagesOn(c, ms + more) == DispatchesOf(c, outs)
  {
    hide Handle, EventOn, ChanStep, ChanRun, Consistent, MessagesOn, DispatchesOf, DispatchedOn;
    HandleOnChannel(k, input, c);
    MessagesOnAppend(c, ms, Handle(k, input).1);
    var (ch, outs) := ChanRun(ch0, es);
    match EventOn(c, input) {
      case None => assert es + [] == es && MessagesOn(c, ms) + [] == MessagesOn(c, ms);
      case Some(e) =>
        RunSnoc(ch0, es, e);
        DispatchesOfSnoc(c, outs, ChanStep(ch, e).1);
    }
  }

  /**
   For every stream and whatever the busy checks answered: a registered channel ends where its own
   events alone lead it, and the messages delivered on it are those its own events complete.
   */
  lemma {:induction false} ChannelIsolation(k: Desk, inputs: seq<Input>, c: nat)
    requires ValidDesk(k) && c in k.channels && c < 0x1_0000_0000
    ensures var (k', ms) := HandleAll(k, inputs);
            var (ch, outs) := ChanRun(k.channels[c], EventsOn(c, inputs));
            c in k'.channels && k'.nextCid >= k.nextCid && k'.channels[c] == ch
            && MessagesOn(c, ms) == DispatchesOf(c, outs)
    decreases |inputs|
  {
    hide Handle, EventOn, ChanStep;
    if inputs != [] {
      var init, last := inputs[..|inputs| - 1], inputs[|inputs| - 1];
      ChannelIsolation(k, init, c);
      var (k', ms) := HandleAll(k, init);
      assert Consistent(k.channels[c]);
      hide ChanRun, Consistent, MessagesOn, DispatchesOf;
      IsolationStep(k, k', ms, k.channels[c], EventsOn(c, init), last, c);
    }
  }

  lemma {:induction false} OwnEvents(c: nat, inputs: seq<Input>)
    ensures EventsOn(c, Own(c, inputs)) == EventsOn(c, inputs)
    ensures forall i :: 0 <= i < |Own(c, inputs)| ==> Parse(Own(c, inputs)[i].report).cid == c
    decreases |inputs|
  {
    if inputs != [] {
      var init, last := inputs[..|inputs| - 1], inputs[|inputs| - 1];
      OwnEvents(c, init);
      assert (Own(c, init) + [last])[..|Own(c, init)|] == Own(c, init);
      assert Own(c, init) + [] == Own(c, init);
    }
  }

  lemma {:induction false} OnlyOwnMessages(k: Desk, inputs: seq<Input>, c: nat)
    requires ValidDesk(k) && forall i :: 0 <= i < |inputs| ==> Parse(inputs[i].report).cid == c
    ensures MessagesOn(c, HandleAll(k, inputs).1) == HandleAll(k, inputs).1
    decreases |inputs|
  {
    if inputs != [] {
      var init, last := inputs[..|inputs| - 1], inputs[|inputs| - 1];
      OnlyOwnMessages(k, init, c);
      var (k', ms) := HandleAll(k, init);
      var more := Handle(k', last).1;
      MessagesOnAppend(c, ms, more);
      assert more != [] ==> more[..0] == [];
    }
  }

  /** The messages delivered on a channel are those its own reports alone would deliver. */
  lemma NonInterference(k: Desk, inputs: seq<Input>, c: nat)
    requires ValidDesk(k) && c in k.channels && c < 0x1_0000_0000
    ensures MessagesOn(c, HandleAll(k, inputs).1) == HandleAll(k, Own(c, inputs)).1
  {
    ChannelIsolation(k, inputs, c);
    ChannelIsolation(k, Own(c, inputs), c);
    OwnEvents(c, inputs);
    OnlyOwnMessages(k, Own(c, inputs), c);
  }

  // ---------- channel ids ----------

  /** How many of the inputs allocate a channel. */
  function Allocations(inputs: seq<Input>): nat {
    if inputs == [] then 0
    else Allocations(inputs[..|inputs| - 1]) + if Allocates(Parse(inputs[|inputs| - 1].report)) then 1 else 0
  }

  /** The n-th allocation hands out id n, so ids are distinct and nonzero, and the channels are exactly those. */
  lemma {:induction false} AllocatedIds(inputs: seq<Input>)
    ensures var k := HandleAll(Desk(map[], 1), inputs).0;
            k.nextCid == Allocations(inputs) + 1
            && (forall c :: c in k.channels <==> 1 <= c <= Allocations(inputs))
            && (CID_BROADCAST in k.channels <==> Allocations(inputs) > 0x1_0000_0000 - 2)
    decreases |inputs|
  {
    if inputs != [] {
      AllocatedIds(inputs[..|inputs| - 1]);
    }
  }

  // ---------- channels from the start ----------

  lemma EventsOnSnoc(c: nat, inputs: seq<Input>, input: Input)
    ensures var e := EventOn(c, input);
            EventsOn(c, inputs + [input]) == EventsOn(c, inputs) + if e.Some? then [e.value] else []
  {
    assert (inputs + [input])[..|inputs|] == inputs;
  }

  /** An input for no registered channel delivers nothing. */
  lemma UnregisteredInput(k: Desk, input: Input, c: nat)
    requires ValidDesk(k) && c !in k.channels
    ensures var (k', more) := Handle(k, input);
            && |more| <= 1 && MessagesOn(c, more) == []
            && (c in k'.channels ==> Allocates(Parse(input.report)) && c == k.nextCid && k'.channels[c] == Idle)
  {
    hide Parse, ChanStep, Consistent;
    MessagesOnAppend(c, [], Handle(k, input).1);
  }

  /** The first n inputs end with the one that allocates channel c. */
  predicate AllocatedBy(inputs: seq<Input>, c: nat, n: nat) {
    0 < n <= |inputs| && Allocates(Parse(inputs[n - 1].report)) && Allocations(inputs[..n]) == c
  }

  /** Since channel c was allocated, its events alone decide what it holds and what was delivered on it. */
  ghost predicate DecidedSince(inputs: seq<Input>, c: nat, n: nat)
    requires c < 0x1_0000_0000
  {
    var (k, ms) := HandleAll(Desk(map[], 1), inputs);
    && AllocatedBy(inputs, c, n) && c in k.channels
    && var (ch, outs) := ChanRun(Idle, EventsOn(c, inputs[n..]));
       k.channels[c] == ch && MessagesOn(c, ms) == DispatchesOf(c, outs)
  }

  lemma HandleAllSnoc(k: Desk, inputs: seq<Input>, input: Input)
    requires ValidDesk(k)
    ensures var (k', ms) := HandleAll(k, inputs);
            var (k'', more) := Handle(k', input);
            HandleAll(k, inputs + [input]) == (k'', ms + more)
  {
    hide Handle;
    assert (inputs + [input])[..|inputs|] == inputs;
  }

  lemma StaysDecided(init: seq<Input>, last: Input, c: nat, n: nat)
    requires c < 0x1_0000_0000 && DecidedSince(init, c, n)
    ensures DecidedSince(init + [last], c, n)
  {
    hide HandleAll, Handle, ChanRun, MessagesOn, DispatchesOf, EventsOn, EventOn, Consistent, Allocations, Allocates;
    var inputs := init + [last];
    var start := Desk(map[], 1);
    var (k, ms) := HandleAll(start, init);
    HandleAllSnoc(start, init, last);
    EventsOnSnoc(c, init[n..], last);
    assert inputs[n..] == init[n..] + [last] && inputs[..n] == init[..n];
    NextIdOnly(start, init);
    assert Consistent(Idle) by { IdleIsConsistent(); }
    IsolationStep(start, k, ms, Idle, EventsOn(c, init[n..]), last, c);
  }

  lemma IdleIsConsistent()
    ensures Consistent(Idle)
  {
  }

  /** A channel that the last input registered. */
  lemma BecomesDecided(init: seq<Input>, last: Input, c: nat)
    requires c < 0x1_0000_0000 && c !in HandleAll(Desk(map[], 1), init).0.channels
    requires MessagesOn(c, HandleAll(Desk(map[], 1), init).1) == []
    ensures var (k, ms) := HandleAll(Desk(map[], 1), init + [last]);
            if c in k.channels then DecidedSince(init + [last], c, |init| + 1) else MessagesOn(c, ms) == []
  {
    hide HandleAll, Handle, ChanRun, MessagesOn, Allocations, Allocates, Parse;
    var inputs, start := init + [last], Desk(map[], 1);
    var (k, ms) := HandleAll(start, init);
    HandleAllSnoc(start, init, last);
    UnregisteredInput(k, last, c);
    MessagesOnAppend(c, ms, Handle(k, last).1);
    if c in HandleAll(start, inputs).0.channels {
      NewlyRegistered(init, last, c);
      NothingRuns(c);
      assert inputs[|init| + 1..] == [] && inputs[..|init| + 1] == inputs;
    }
  }

  /**
   From the start of the device: a registered channel ends where its own events since its allocation lead an idle one,
   and the messages delivered on it are those they complete; nothing is delivered on any other id.
   */
  lemma {:induction false} ChannelHistory(inputs: seq<Input>, c: nat) returns (n: nat)
    requires c < 0x1_0000_0000
    ensures var (k, ms) := HandleAll(Desk(map[], 1), inputs);
            if c in k.channels then DecidedSince(inputs, c, n) else MessagesOn(c, ms) == []
    decreases |inputs|
  {
    hide DecidedSince, Handle;
    if inputs == [] {
      return 0;
    }
    var init, last := inputs[..|inputs| - 1], inputs[|inputs| - 1];
    assert inputs == init + [last];
    n := ChannelHistory(init, c);
    hide HandleAll, MessagesOn;
    if c in HandleAll(Desk(map[], 1), init).0.channels {
      StaysDecided(init, last, c, n);
      assert c in HandleAll(Desk(map[], 1), inputs).0.channels by { DecidedIsRegistered(inputs, c, n); }
    } else {
      BecomesDecided(init, last, c);
      n := |inputs|;
    }
  }

  lemma {:induction false} InMessagesOn(ms: seq<Message>, m: Message)
    ensures m in ms <==> m in MessagesOn(m.cid, ms)
  {
    if ms != [] {
      InMessagesOn(ms[..|ms| - 1], m);
      assert ms == ms[..|ms| - 1] + [ms[|ms| - 1]];
    }
  }

  lemma DecidedIsRegistered(inputs: seq<Input>, c: nat, n: nat)
    requires c < 0x1_0000_0000 && DecidedSince(inputs, c, n)
    ensures c in HandleAll(Desk(map[], 1), inputs).0.channels
  {
  }

  lemma {:induction false} NextIdOnly(k: Desk, inputs: seq<Input>)
    requires ValidDesk(k)
    ensures HandleAll(k, inputs).0.nextCid >= k.nextCid
  {
    hide Parse, ChanStep;
    if inputs != [] { NextIdOnly(k, inputs[..|inputs| - 1]); }
  }

  /** A channel registered by the last input is idle, and its id is the number of allocations. */
  lemma NewlyRegistered(init: seq<Input>, last: Input, c: nat)
    requires c !in HandleAll(Desk(map[], 1), init).0.channels
    requires c in HandleAll(Desk(map[], 1), init + [last]).0.channels
    ensures Allocations(init + [last]) == c && Allocates(Parse(last.report))
    ensures HandleAll(Desk(map[], 1), init + [last]).0.channels[c] == Idle
  {
    hide Handle, Parse, Allocates;
    AllocatedIds(init);
    assert (init + [last])[..|init|] == init;
    UnregisteredInput(HandleAll(Desk(map[], 1), init).0, last, c);
  }

  /**
   A message is delivered by a list of events of one channel exactly if some of them completes it: an unbroken message
   of its command, whose declared number of received bytes is its payload.
   */
  lemma {:induction false} DeliveredIsCompleted(c: nat, es: seq<Event>, m: Message)
    requires AllWellformed(es) && c < 0x1_0000_0000
    ensures m in DispatchesOf(c, ChanRun(Idle, es).1) <==>
            m.cid == c && exists i: nat, k: nat :: IsCompletion(es, i, k, m)
    decreases |es|
  {
    hide ChanRun, ChanStep, DispatchedOn, CompletesWith;
    if es == [] {
      NothingRuns(c);
    } else {
      var n: nat := |es| - 1;
      var init := es[..n];
      DeliveredIsCompleted(c, init, m);
      var outs := ChanRun(Idle, es).1;
      RunPrefix(es);
      assert outs == ChanRun(Idle, init).1 + [outs[n]];
      DispatchesOfSnoc(c, ChanRun(Idle, init).1, outs[n]);
      DispatchedMember(c, outs[n], m);
      LastCompletion(es, m);
      EarlierCompletions(init, es, m);
    }
  }

  /** Event i completes m, which event k started. */
  ghost predicate IsCompletion(es: seq<Event>, i: nat, k: nat, m: Message) {
    i < |es| && CompletesWith(es[..i + 1], k, m.command, m.data)
  }

  lemma LastCompletion(es: seq<Event>, m: Message)
    requires AllWellformed(es) && es != []
    ensures ChanRun(Idle, es).1[|es| - 1] == Dispatched(m.command, m.data)
            <==> exists k: nat, i: nat :: i == |es| - 1 && IsCompletion(es, i, k, m)
  {
    hide ChanRun, CompletesWith;
    DispatchCharacterized(es, m.command, m.data);
    assert es[..|es|] == es;
    forall k: nat | CompletesWith(es, k, m.command, m.data)
      ensures IsCompletion(es, |es| - 1, k, m)
    {
    }
  }

  lemma EarlierCompletions(init: seq<Event>, es: seq<Event>, m: Message)
    requires es != [] && init == es[..|es| - 1]
    ensures (exists i: nat, k: nat :: IsCompletion(init, i, k, m))
            <==> exists i: nat, k: nat :: i < |init| && IsCompletion(es, i, k, m)
  {
    hide CompletesWith;
    forall i: nat, k: nat | i < |init|
      ensures IsCompletion(init, i, k, m) <==> IsCompletion(es, i, k, m)
    {
      assert init[..i + 1] == es[..i + 1];
    }
  }

  lemma NothingRuns(c: nat)
    requires c < 0x1_0000_0000
    ensures EventsOn(c, []) == [] && ChanRun(Idle, []) == (Idle, []) && DispatchesOf(c, []) == []
  {
  }

  lemma RunPrefix(es: seq<Event>)
    requires AllWellformed(es) && es != []
    ensures ChanRun(Idle, es).1[..|es| - 1] == ChanRun(Idle, es[..|es| - 1]).1
  {
    hide ChanStep;
  }

  lemma DispatchedMember(c: nat, out: Output, m: Message)
    requires c < 0x1_0000_0000
    ensures m in DispatchedOn(c, out) <==> m.cid == c && out == Dispatched(m.command, m.data)
  {
  }

  // ---------- the device does this work ----------

  function DeskOf(d: Dev): Desk {
    Desk(d.channels, d.nextCid)
  }

  /** The messages delivered among some effects. */
  function Delivered(effects: seq<Effect>): seq<Message> {
    if effects == [] then []
    else
      var last := effects[|effects| - 1];
      Delivered(effects[..|effects| - 1]) + if last.Deliver? then [last.message] else []
  }

  lemma DeliveredSnoc(effects: seq<Effect>, e: Effect)
    ensures Delivered(effects + [e]) == Delivered(effects) + if e.Deliver? then [e.message] else []
  {
    assert (effects + [e])[..|effects|] == effects;
  }

  lemma DeliveredOutcome(d: Dev, cid: Cid, out: Output)
    ensures Delivered(Outcome(d, cid, out).1) == DispatchedOn(cid, out)
    ensures DeskOf(Outcome(d, cid, out).0) == DeskOf(d)
  {
    match out
    case Nothing =>
    case SequenceError => DeliveredSnoc([], Send(Error(cid, ERR_INVALID_SEQ)));
    case Dispatched(command, payload) =>
      var m := Message(cid, command, payload);
      var es := Act(d, m).1;
      assert es == [es[0]];
      DeliveredSnoc([], Deliver(m));
      DeliveredSnoc([Deliver(m)], es[0]);
  }

  lemma NothingDelivered(effects: seq<Effect>)
    requires |effects| <= 2 && forall i :: 0 <= i < |effects| ==> !effects[i].Deliver?
    ensures Delivered(effects) == []
  {
  }

  lemma ResyncClears(ch: Chan)
    requires Consistent(ch)
    ensures ChanStep(ch, Resync) == (Idle, Nothing)
  {
  }

  /** A frame that its channel takes in. */
  lemma FrameHandles(d: Dev, r: Report, e: Event)
    requires ValidDev(d) && Parse(r).cid in d.channels && e != Resync
    requires Touch(Parse(r), BusyWithOther(d, Parse(r).cid)) == Some(e)
    ensures FeedReport(d, r) == Absorb(d, Parse(r).cid, e)
    ensures var (ch, out) := ChanStep(d.channels[Parse(r).cid], e);
            Handle(DeskOf(d), Input(r, BusyWithOther(d, Parse(r).cid)))
            == (DeskOf(Updated(d, Parse(r).cid, ch)), DispatchedOn(Parse(r).cid, out))
  {
    hide Parse, ChanStep, InitReply, Outcome, DispatchedOn;
  }

  /** A frame that is no event for a registered channel, or only clears one. */
  lemma OtherHandles(d: Dev, r: Report)
    requires ValidDev(d)
    requires Parse(r).cid !in d.channels || Touch(Parse(r), BusyWithOther(d, Parse(r).cid)) in {None, Some(Resync)}
    ensures var (d', effects) := FeedReport(d, r);
            Handle(DeskOf(d), Input(r, BusyWithOther(d, Parse(r).cid))) == (DeskOf(d'), Delivered(effects))
  {
    hide Parse, ChanStep, InitReply, Outcome, Delivered;
    if Parse(r).cid in d.channels { ResyncClears(d.channels[Parse(r).cid]); }
    NothingDelivered(FeedReport(d, r).1);
  }

  /** One report fed to the device does to its channels what Handle says. */
  lemma FeedHandles(d: Dev, r: Report)
    requires ValidDev(d)
    ensures var (d', effects) := FeedReport(d, r);
            Handle(DeskOf(d), Input(r, BusyWithOther(d, Parse(r).cid))) == (DeskOf(d'), Delivered(effects))
  {
    hide Parse, ChanStep, FeedReport, Handle, Touch, Outcome, Delivered, DispatchedOn, DeskOf;
    var f := Parse(r);
    var e := Touch(f, BusyWithOther(d, f.cid));
    if f.cid in d.channels && e.Some? && e.value != Resync {
      FrameHandles(d, r, e.value);
      var (ch, out) := ChanStep(d.channels[f.cid], e.value);
      DeliveredOutcome(Updated(d, f.cid, ch), f.cid, out);
    } else {
      OtherHandles(d, r);
    }
  }

  // ---------- whole streams, while no transaction is active ----------

  lemma {:induction false} DeliveredConcat(a: seq<Effect>, b: seq<Effect>)
    ensures Delivered(a + b) == Delivered(a) + Delivered(b)
    decreases |b|
  {
    if b == [] {
      assert a + b == a;
    } else {
      var n := |b| - 1;
      DeliveredConcat(a, b[..n]);
      assert a + b == (a + b[..n]) + [b[n]] && b == b[..n] + [b[n]];
      DeliveredSnoc(a + b[..n], b[n]);
      DeliveredSnoc(b[..n], b[n]);
    }
  }

  /** The reports, with every busy check answered no. */
  function Unhindered(rs: seq<Report>): seq<Input> {
    if rs == [] then [] else Unhindered(rs[..|rs| - 1]) + [Input(rs[|rs| - 1], false)]
  }

  function OwnReports(c: nat, rs: seq<Report>): seq<Report> {
    if rs == [] then []
    else
      var last := rs[|rs| - 1];
      OwnReports(c, rs[..|rs| - 1]) + if Parse(last).cid == c then [last] else []
  }

  lemma {:induction false} OwnUnhindered(c: nat, rs: seq<Report>)
    ensures Own(c, Unhindered(rs)) == Unhindered(OwnReports(c, rs))
  {
    hide Parse;
    if rs != [] {
      var init, last := rs[..|rs| - 1], rs[|rs| - 1];
      OwnUnhindered(c, init);
      assert Unhindered(rs)[..|Unhindered(init)|] == Unhindered(init);
      assert (OwnReports(c, init) + [last])[..|OwnReports(c, init)|] == OwnReports(c, init);
      assert Own(c, Unhindered(init)) + [] == Own(c, Unhindered(init));
      assert OwnReports(c, init) + [] == OwnReports(c, init);
    }
  }

  /** No transaction is active when any of the reports arrives. */
  ghost predicate StaysIdle(d: Dev, rs: seq<Report>)
    requires ValidDev(d)
  {
    forall k :: 0 <= k < |rs| ==> FeedAll(d, rs[..k]).0.active.None?
  }

  lemma StaysIdleInit(d: Dev, rs: seq<Report>)
    requires ValidDev(d) && rs != [] && StaysIdle(d, rs)
    ensures StaysIdle(d, rs[..|rs| - 1]) && FeedAll(d, rs[..|rs| - 1]).0.active.None?
  {
    hide FeedAll;
    var init := rs[..|rs| - 1];
    forall k | 0 <= k < |init|
      ensures FeedAll(d, init[..k]).0.active.None?
    {
      assert init[..k] == rs[..k];
    }
  }

  /** Then the whole stream does to the channels, and delivers, what HandleAll says. */
  lemma {:induction false} FeedAllHandles(d: Dev, rs: seq<Report>)
    requires ValidDev(d) && StaysIdle(d, rs)
    ensures ValidDesk(DeskOf(d))
    ensures HandleAll(DeskOf(d), Unhindered(rs)) == (DeskOf(FeedAll(d, rs).0), Delivered(FeedAll(d, rs).1))
    decreases |rs|
  {
    hide FeedReport, Handle, StaysIdle;
    if rs != [] {
      var init, last := rs[..|rs| - 1], rs[|rs| - 1];
      StaysIdleInit(d, rs);
      FeedAllHandles(d, init);
      var (d', effects) := FeedAll(d, init);
      FeedHandles(d', last);
      DeliveredConcat(effects, FeedReport(d', last).1);
      assert Unhindered(rs)[..|Unhindered(init)|] == Unhindered(init);
    }
  }

  /** A message that starts a transaction. */
  predicate Starts(m: Message) {
    m.command == CTAPHID_CBOR && m.data != []
  }

  ghost predicate NothingStarts(ms: seq<Message>) {
    forall i :: 0 <= i < |ms| ==> !Starts(ms[i])
  }

  lemma AbsorbStarts(d: Dev, cid: Cid, out: Output)
    requires d.active.None?
    ensures Outcome(d, cid, out).0.active.None? <==> NothingStarts(DispatchedOn(cid, out))
  {
    if out.Dispatched? {
      assert DispatchedOn(cid, out) == [Message(cid, out.command, out.payload)];
      assert Starts(DispatchedOn(cid, out)[0]) <==> out.command == CTAPHID_CBOR && out.payload != [];
    }
  }

  /** A report that is no event for a registered channel starts nothing and delivers nothing. */
  lemma NoEventIdle(d: Dev, r: Report)
    requires ValidDev(d) && d.active.None?
    requires Parse(r).cid !in d.channels || Touch(Parse(r), false) in {None, Some(Resync)}
    ensures FeedReport(d, r).0.active.None? && Delivered(FeedReport(d, r).1) == []
  {
    hide Parse, ChanStep, InitReply, Delivered, Outcome;
    NothingDelivered(FeedReport(d, r).1);
  }

  /** An idle device becomes busy exactly by delivering such a message. */
  lemma ReportStarts(d: Dev, r: Report)
    requires ValidDev(d) && d.active.None?
    ensures FeedReport(d, r).0.active.None? <==> NothingStarts(Delivered(FeedReport(d, r).1))
  {
    var f := Parse(r);
    var e := Touch(f, false);
    if f.cid in d.channels && e.Some? && e.value != Resync {
      FrameHandles(d, r, e.value);
      hide FeedReport, Handle, Parse, ChanStep, Starts, Outcome, NothingStarts, Delivered;
      var (ch, out) := ChanStep(d.channels[f.cid], e.value);
      var d' := Updated(d, f.cid, ch);
      DeliveredOutcome(d', f.cid, out);
      AbsorbStarts(d', f.cid, out);
    } else {
      NoEventIdle(d, r);
      hide FeedReport;
    }
  }

  lemma NothingStartsConcat(a: seq<Message>, b: seq<Message>)
    ensures NothingStarts(a + b) <==> NothingStarts(a) && NothingStarts(b)
  {
    var ab := a + b;
    assert forall i :: 0 <= i < |a| ==> ab[i] == a[i];
    assert forall i :: 0 <= i < |b| ==> ab[|a| + i] == b[i];
  }

  lemma {:induction false} StreamStarts(d: Dev, rs: seq<Report>)
    requires ValidDev(d) && d.active.None? && StaysIdle(d, rs)
    ensures FeedAll(d, rs).0.active.None? <==> NothingStarts(Delivered(FeedAll(d, rs).1))
    decreases |rs|
  {
    hide FeedReport, StaysIdle, NothingStarts;
    if rs == [] {
      NoneStart();
    } else {
      var init, last := rs[..|rs| - 1], rs[|rs| - 1];
      StaysIdleInit(d, rs);
      StreamStarts(d, init);
      var (d', effects) := FeedAll(d, init);
      ReportStarts(d', last);
      DeliveredConcat(effects, FeedReport(d', last).1);
      NothingStartsConcat(Delivered(effects), Delivered(FeedReport(d', last).1));
    }
  }

  lemma NoneStart()
    ensures NothingStarts([])
  {
  }

  lemma {:induction false} FewerStart(c: nat, ms: seq<Message>)
    requires NothingStarts(ms)
    ensures NothingStarts(MessagesOn(c, ms))
  {
    hide Starts;
    if ms != [] {
      assert ms == ms[..|ms| - 1] + [ms[|ms| - 1]];
      NothingStartsConcat(ms[..|ms| - 1], [ms[|ms| - 1]]);
      FewerStart(c, ms[..|ms| - 1]);
    }
  }

  /**
   While no CBOR transaction is active, the messages that the device delivers on a channel, from any interleaved stream,
   are those that it delivers from the reports of that channel alone; and no transaction is active then either.
   */
  lemma {:induction false} IdleNonInterference(d: Dev, rs: seq<Report>, c: nat)
    requires ValidDev(d) && d.active.None? && StaysIdle(d, rs) && c in d.channels && c < 0x1_0000_0000
    ensures StaysIdle(d, OwnReports(c, rs))
    ensures MessagesOn(c, Delivered(FeedAll(d, rs).1)) == Delivered(FeedAll(d, OwnReports(c, rs)).1)
    decreases |rs|
  {
    hide FeedAll, HandleAll, Parse, NothingStarts, Delivered, MessagesOn, Unhindered;
    if rs != [] {
      var init, last := rs[..|rs| - 1], rs[|rs| - 1];
      StaysIdleInit(d, rs);
      IdleNonInterference(d, init, c);
      var own := OwnReports(c, init);
      if Parse(last).cid == c {
        StreamStarts(d, init);
        FewerStart(c, Delivered(FeedAll(d, init).1));
        StreamStarts(d, own);
        StaysIdleSnoc(d, own, last);
      } else {
        assert own + [] == own;
      }
    }
    FeedAllHandles(d, rs);
    FeedAllHandles(d, OwnReports(c, rs));
    OwnUnhindered(c, rs);
    NonInterference(DeskOf(d), Unhindered(rs), c);
  }

  lemma StaysIdleSnoc(d: Dev, rs: seq<Report>, r: Report)
    requires ValidDev(d) && StaysIdle(d, rs) && FeedAll(d, rs).0.active.None?
    ensures StaysIdle(d, rs + [r])
  {
    hide FeedAll;
    forall k | 0 <= k < |rs + [r]|
      ensures FeedAll(d, (rs + [r])[..k]).0.active.None?
    {
      if k < |rs| { assert (rs + [r])[..k] == rs[..k]; } else { assert (rs + [r])[..k] == rs; }
    }
  }
}
