/**
 Reassembly on one CTAPHID channel: the automaton behind class Channel, what any
 stream of events makes it dispatch, and the round trip with the framing.
 */
module CtapHidChannel {
  import opened Bytes
  import opened CtapHidFraming

  /** The fields of a Channel object other than its id. */
  datatype Chan = Chan(command: Option<Command>, expected: nat, buffer: seq<Byte>, nextSeq: nat)

  const Idle := Chan(None, 0, [], 0)

  /** What can touch a channel: an accepted initialization frame, a continuation frame, a re-sync. */
  datatype Event =
    | Start(command: Command, length: nat, payload: seq<Byte>)
    | Continue(number: nat, payload: seq<Byte>)
    | Resync

  datatype Output = Nothing | Dispatched(command: Command, payload: seq<Byte>) | SequenceError

  predicate Wellformed(e: Event) {
    match e
    case Start(_, length, payload) => length < 0x1_0000 && |payload| == INIT_PAYLOAD
    case Continue(number, payload) => number < 0x80 && |payload| == CONT_PAYLOAD
    case Resync => true
  }

  /** Either cleared, or in the middle of a message that is still short of its declared length. */
  predicate Consistent(ch: Chan) {
    match ch.command
    case None => ch == Idle
    case Some(_) =>
      |ch.buffer| == INIT_PAYLOAD + CONT_PAYLOAD * ch.nextSeq < ch.expected < 0x1_0000 && ch.nextSeq <= 128
  }

  /** Consumes one event; a complete message or a wrong sequence number clears the channel. */
  function ChanStep(ch: Chan, e: Event): (r: (Chan, Output))
    requires Consistent(ch) && Wellformed(e)
    ensures Consistent(r.0)
    ensures r.1.Dispatched? ==> |r.1.payload| <= MAX_PAYLOAD && r.0 == Idle
  {
    match e
    case Start(command, length, payload) =>
      var buffer := payload[..Min(length, INIT_PAYLOAD)];
      if |buffer| >= length then (Idle, Dispatched(command, buffer))
      else (Chan(Some(command), length, buffer, 0), Nothing)
    case Continue(number, payload) =>
      if ch.command == None then (ch, Nothing)
      else if number != ch.nextSeq then (Idle, SequenceError)
      else
        var buffer := ch.buffer + payload[..Min(ch.expected - |ch.buffer|, CONT_PAYLOAD)];
        if |buffer| >= ch.expected then (Idle, Dispatched(ch.command.value, buffer))
        else (ch.(buffer := buffer, nextSeq := ch.nextSeq + 1), Nothing)
    case Resync => (Idle, Nothing)
  }

  ghost predicate AllWellformed(es: seq<Event>) {
    forall i :: 0 <= i < |es| ==> Wellformed(es[i])
  }

  /** The channel after a stream of events, and what each of them produced. */
  function ChanRun(ch: Chan, es: seq<Event>): (r: (Chan, seq<Output>))
    requires Consistent(ch) && AllWellformed(es)
    ensures Consistent(r.0) && |r.1| == |es|
  {
    if es == [] then (ch, [])
    else
      var n := |es| - 1;
      var before := ChanRun(ch, es[..n]);
      var step := ChanStep(before.0, es[n]);
      (step.0, before.1 + [step.1])
  }

  // ---------- what a stream dispatches, stated without the automaton ----------

  /** es[k] starts a message and every later event continues it in sequence. */
  ghost predicate Unbroken(es: seq<Event>, k: nat) {
    k < |es| && es[k].Start? && forall j :: k < j < |es| ==> es[j].Continue? && es[j].number == j - k - 1
  }

  /** The payloads of the events from k on, in order. */
  ghost function Received(es: seq<Event>, k: nat): seq<Byte>
    requires Unbroken(es, k)
    decreases |es|
  {
    if |es| == k + 1 then es[k].payload
    else
      assert Unbroken(es[..|es| - 1], k);
      Received(es[..|es| - 1], k) + es[|es| - 1].payload
  }

  /** es[k..] is a message that still misses frames. */
  ghost predicate Partial(es: seq<Event>, k: nat) {
    Unbroken(es, k) && |es| - 1 - k < Needed(es[k].length)
  }

  /** The last event of es completes the message that es[k] started. */
  ghost predicate Completes(es: seq<Event>, k: nat) {
    Unbroken(es, k) && |es| - 1 - k == Needed(es[k].length)
  }

  /** The last event of es completes this message: its payload is the declared number of received bytes. */
  ghost predicate CompletesWith(es: seq<Event>, k: nat, command: Command, payload: seq<Byte>) {
    && Completes(es, k) && es[k].command == command
    && es[k].length <= |Received(es, k)| && payload == Received(es, k)[..es[k].length]
  }

  /** The last event of es is out of sequence for the message that es[k] started. */
  ghost predicate Breaks(es: seq<Event>, k: nat) {
    es != [] && Partial(es[..|es| - 1], k) && es[|es| - 1].Continue? && es[|es| - 1].number != |es| - 2 - k
  }

  lemma {:induction false} ReceivedLength(es: seq<Event>, k: nat)
    requires AllWellformed(es) && Unbroken(es, k)
    ensures |Received(es, k)| == INIT_PAYLOAD + CONT_PAYLOAD * (|es| - 1 - k)
    decreases |es|
  {
    if |es| > k + 1 {
      assert Unbroken(es[..|es| - 1], k);
      ReceivedLength(es[..|es| - 1], k);
    }
  }

  lemma UnbrokenPrefix(es: seq<Event>, k: nat)
    requires Unbroken(es, k) && k < |es| - 1
    ensures Unbroken(es[..|es| - 1], k)
  {
  }

  /** One more event after a partial message. */
  lemma PartialExtends(es: seq<Event>, k: nat)
    requires AllWellformed(es) && es != [] && Unbroken(es, k) && k < |es| - 1
    ensures Partial(es[..|es| - 1], k)  ==> |Received(es[..|es| - 1], k)| < es[k].length
    ensures Partial(es, k) ==>
              Partial(es[..|es| - 1], k) && |es| - 1 - k <= 128
              && |Received(es[..|es| - 1], k)| + CONT_PAYLOAD < es[k].length
    ensures Received(es, k) == Received(es[..|es| - 1], k) + es[|es| - 1].payload
  {
    var n := |es| - 1;
    UnbrokenPrefix(es, k);
    ReceivedLength(es[..n], k);
    NeededIsExact(es[k].length, n - 1 - k);
    NeededIsExact(es[k].length, n - k);
    assert es[n].number == n - k - 1 < 0x80;
  }

  /** A stream that ends in a partial message leaves its bytes in the channel. */
  lemma {:induction false} PartialIsHeld(es: seq<Event>, k: nat)
    requires AllWellformed(es) && Partial(es, k)
    ensures ChanRun(Idle, es).0 == Chan(Some(es[k].command), es[k].length, Received(es, k), |es| - 1 - k)
    decreases |es|
  {
    var n := |es| - 1;
    if k < n {
      PartialExtends(es, k);
      PartialIsHeld(es[..n], k);
    } else {
      NeededIsExact(es[k].length, 0);
    }
  }

  /** A channel that is not idle was left so by a partial message. */
  lemma {:induction false} HeldIsPartial(es: seq<Event>) returns (k: nat)
    requires AllWellformed(es) && ChanRun(Idle, es).0 != Idle
    ensures Partial(es, k)
    decreases |es|
  {
    var n := |es| - 1;
    var e := es[n];
    if e.Start? {
      NeededIsExact(e.length, 0);
      return n;
    }
    k := HeldIsPartial(es[..n]);
    PartialIsHeld(es[..n], k);
    ReceivedLength(es[..n], k);
    NeededIsExact(es[k].length, n - k);
  }

  /** For every stream: mid-message exactly when the stream ends in a partial message. */
  lemma PendingCharacterized(es: seq<Event>)
    requires AllWellformed(es)
    ensures ChanRun(Idle, es).0 != Idle <==> exists k: nat :: Partial(es, k)
  {
    if ChanRun(Idle, es).0 != Idle {
      var k := HeldIsPartial(es);
    }
    forall k: nat | Partial(es, k)
      ensures ChanRun(Idle, es).0 != Idle
    {
      PartialIsHeld(es, k);
    }
  }

  lemma DispatchCompletes(es: seq<Event>, command: Command, payload: seq<Byte>) returns (k: nat)
    requires AllWellformed(es) && es != [] && ChanRun(Idle, es).1[|es| - 1] == Dispatched(command, payload)
    ensures CompletesWith(es, k, command, payload)
    ensures |payload| <= MAX_PAYLOAD
  {
    var n := |es| - 1;
    var init := es[..n];
    if es[n].Start? {
      NeededIsExact(es[n].length, 0);
      k := n;
    } else {
      k := HeldIsPartial(init);
      PartialIsHeld(init, k);
      CompletedBytes(es, k);
    }
  }

  lemma CompletionDispatches(es: seq<Event>, k: nat)
    requires AllWellformed(es) && es != [] && Completes(es, k)
    ensures es[k].length <= |Received(es, k)|
    ensures ChanRun(Idle, es).1[|es| - 1] == Dispatched(es[k].command, Received(es, k)[..es[k].length])
  {
    var n := |es| - 1;
    if k == n {
      NeededIsExact(es[n].length, 0);
    } else {
      UnbrokenPrefix(es, k);
      PartialIsHeld(es[..n], k);
      CompletedBytes(es, k);
    }
  }

  /**
   For every stream, the last event dispatches a message exactly when it is the last frame
   of an unbroken message, and what is dispatched is the declared number of received bytes.
   */
  lemma DispatchCharacterized(es: seq<Event>, command: Command, payload: seq<Byte>)
    requires AllWellformed(es) && es != []
    ensures ChanRun(Idle, es).1[|es| - 1] == Dispatched(command, payload) 
            <==> exists k: nat :: CompletesWith(es, k, command, payload)
    ensures ChanRun(Idle, es).1[|es| - 1] == Dispatched(command, payload) ==> |payload| <= MAX_PAYLOAD
  {
    hide Received, ChanRun, ChanStep;
    if ChanRun(Idle, es).1[|es| - 1] == Dispatched(command, payload) {
      var k := DispatchCompletes(es, command, payload);
    }
    forall k: nat | CompletesWith(es, k, command, payload)
      ensures ChanRun(Idle, es).1[|es| - 1] == Dispatched(command, payload)
    {
      CompletionDispatches(es, k);
    }
  }

  /** The frame after a partial message that is in sequence and the last one needed. */
  lemma CompletedBytes(es: seq<Event>, k: nat)
    requires AllWellformed(es) && es != []
    requires Partial(es[..|es| - 1], k) && es[|es| - 1].Continue? && es[|es| - 1].number == |es| - 2 - k
    ensures Unbroken(es, k)
    ensures var length := es[k].length;
            var sofar := Received(es[..|es| - 1], k);
            |sofar| < length
            && (Completes(es, k) <==> length <= |sofar| + CONT_PAYLOAD)
            && (Completes(es, k) ==>
                  length <= |Received(es, k)|
                  && Received(es, k)[..length] == sofar + es[|es| - 1].payload[..Min(length - |sofar|, CONT_PAYLOAD)])
  {
    var n := |es| - 1;
    assert Unbroken(es, k);
    ReceivedLength(es[..n], k);
    ReceivedLength(es, k);
    NeededIsExact(es[k].length, n - 1 - k);
    NeededIsExact(es[k].length, n - k);
  }

  lemma BreakRaises(es: seq<Event>, k: nat)
    requires AllWellformed(es) && Breaks(es, k)
    ensures ChanRun(Idle, es).1[|es| - 1] == SequenceError
  {
    PartialIsHeld(es[..|es| - 1], k);
  }

  lemma ErrorIsBreak(es: seq<Event>) returns (k: nat)
    requires AllWellformed(es) && es != [] && ChanRun(Idle, es).1[|es| - 1] == SequenceError
    ensures Breaks(es, k)
  {
    k := HeldIsPartial(es[..|es| - 1]);
    PartialIsHeld(es[..|es| - 1], k);
  }

  /** The last event raises a sequence error exactly when it breaks a partial message. */
  lemma SequenceErrorCharacterized(es: seq<Event>)
    requires AllWellformed(es) && es != []
    ensures ChanRun(Idle, es).1[|es| - 1] == SequenceError <==> exists k: nat :: Breaks(es, k)
  {
    if ChanRun(Idle, es).1[|es| - 1] == SequenceError {
      var k := ErrorIsBreak(es);
    } else if exists k: nat :: Breaks(es, k) {
      var k: nat :| Breaks(es, k);
      BreakRaises(es, k);
    }
  }

  // ---------- round trip with the framing ----------

  function EventOf(f: Frame): Event {
    match f
    case Init(_, command, length, payload) => Start(command, length, payload)
    case Cont(_, number, payload) => Continue(number, payload)
  }

  /** Frame k of m as the receiver sees it. */
  function FragmentEvent(m: Message, k: nat): (e: Event)
    requires |m.data| < 0x1_0000 && k <= Needed(|m.data|)
    ensures Wellformed(e)
  {
    EventOf(Parse(Fragment(m, k)))
  }

  /** The first n frames of m as the receiver sees them. */
  function FirstEvents(m: Message, n: nat): (es: seq<Event>)
    requires |m.data| < 0x1_0000 && n <= Needed(|m.data|) + 1
    ensures |es| == n && AllWellformed(es)
  {
    if n == 0 then [] else FirstEvents(m, n - 1) + [FragmentEvent(m, n - 1)]
  }

  /** What feeding frame k of message m produces, whatever the channel held before. */
  function FragmentOutput(m: Message, k: nat): Output
    requires |m.data| < 0x1_0000
  {
    if k == 129 then SequenceError
    else if k == Needed(|m.data|) && k <= 128 then Dispatched(m.command, m.data)
    else Nothing
  }

  /** Feeding the next continuation frame of m to a channel that holds the frames before it. */
  lemma FragmentStep(m: Message, k: nat)
    requires |m.data| < 0x1_0000 && 0 < k <= Needed(|m.data|)
    ensures Consistent(AfterFragment(m, k - 1))
    ensures ChanStep(AfterFragment(m, k - 1), FragmentEvent(m, k)) == (AfterFragment(m, k), FragmentOutput(m, k))
  {
    var n := |m.data|;
    var e := FragmentEvent(m, k);
    NextFragmentParses(m, k);
    NeededIsExact(n, k - 1);
    NeededIsExact(n, k);
    var before := m.data[..Carried(n, k - 1)];
    var chunk := m.data[Carried(n, k - 1)..Carried(n, k)];
    assert before + chunk == m.data[..Carried(n, k)];
    assert Min(n - |before|, CONT_PAYLOAD) == |chunk|;
    assert k == Needed(n) ==> m.data[..Carried(n, k)] == m.data;
  }

  /** What a channel holds after frame k of m. */
  function AfterFragment(m: Message, k: nat): Chan
    requires |m.data| < 0x1_0000
  {
    if k < Needed(|m.data|) && k <= 128 then Chan(Some(m.command), |m.data|, m.data[..Carried(|m.data|, k)], k)
    else Idle
  }

  lemma FirstFragmentStep(ch: Chan, m: Message)
    requires Consistent(ch) && |m.data| < 0x1_0000
    ensures ChanStep(ch, FragmentEvent(m, 0)) == (AfterFragment(m, 0), FragmentOutput(m, 0))
  {
    FirstFragmentParses(m);
    NeededIsExact(|m.data|, 0);
    assert Needed(|m.data|) == 0 ==> m.data[..Carried(|m.data|, 0)] == m.data;
  }

  lemma RunSnoc(ch: Chan, es: seq<Event>, e: Event)
    requires Consistent(ch) && AllWellformed(es) && Wellformed(e)
    ensures var (before, out) := ChanRun(ch, es);
            ChanRun(ch, es + [e]) == (ChanStep(before, e).0, out + [ChanStep(before, e).1])
  {
    assert (es + [e])[..|es|] == es;
  }

  lemma RunNothing(ch: Chan)
    requires Consistent(ch)
    ensures ChanRun(ch, []) == (ch, [])
  {
  }

  lemma {:induction false} FragmentsRun(ch: Chan, m: Message, k: nat)
    requires Consistent(ch) && |m.data| < 0x1_0000 && k <= Needed(|m.data|)
    ensures ChanRun(ch, FirstEvents(m, k + 1)).0 == AfterFragment(m, k)
    ensures forall i :: 0 <= i <= k ==> ChanRun(ch, FirstEvents(m, k + 1)).1[i] == FragmentOutput(m, i)
  {
    hide ChanStep, ChanRun, FragmentEvent, FragmentOutput, AfterFragment;
    var es := FirstEvents(m, k);
    assert ChanRun(ch, []) == (ch, []) by { RunNothing(ch); }
    RunSnoc(ch, es, FragmentEvent(m, k));
    if k == 0 {
      FirstFragmentStep(ch, m);
    } else {
      FragmentsRun(ch, m, k - 1);
      FragmentStep(m, k);
    }
  }

  /**
   Feeding all frames of a message gives that message once, at the end, exactly when its
   payload is at most MAX_PAYLOAD; a longer one gives exactly one sequence error instead.
   */
  lemma FramingRoundTrip(ch: Chan, m: Message)
    requires Consistent(ch) && |m.data| < 0x1_0000
    ensures ChanRun(ch, FirstEvents(m, Needed(|m.data|) + 1)).0 == Idle
    ensures var out := ChanRun(ch, FirstEvents(m, Needed(|m.data|) + 1)).1;
            if |m.data| <= MAX_PAYLOAD then
              forall i :: 0 <= i < |out| ==> out[i] == if i == |out| - 1 then Dispatched(m.command, m.data) else Nothing
            else
              |out| > 129 && forall i :: 0 <= i < |out| ==> out[i] == if i == 129 then SequenceError else Nothing
  {
    hide ChanRun, ChanStep, FirstEvents, Fragment;
    var last := Needed(|m.data|);
    NeededIsExact(|m.data|, 128);
    FragmentsRun(ch, m, last);
    var out := ChanRun(ch, FirstEvents(m, last + 1)).1;
    assert |out| == last + 1;
    forall i | 0 <= i < |out|
      ensures out[i] == if i == 129 then SequenceError
                        else if i == last && last <= 128 then Dispatched(m.command, m.data) else Nothing
    {
      assert out[i] == FragmentOutput(m, i);
    }
  }
}
