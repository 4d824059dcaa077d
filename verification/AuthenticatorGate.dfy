/** What the face check gates over any run of commands, and what the queue of pending assertions holds. */
module AuthenticatorGate {
  import opened Bytes
  import opened CredentialStore
  import opened AuthenticatorRequests
  import opened Authenticator
  import L = StoreLaws
  import V = FaceVerifier

  datatype Call = Call(env: Env, request: seq<Byte>)

  function StateAfter(st0: State, calls: seq<Call>): State {
    if calls == [] then st0
    else
      var last := calls[|calls| - 1];
      HandleCbor(StateAfter(st0, calls[..|calls| - 1]), last.env, last.request).state
  }

  function OutOf(st0: State, calls: seq<Call>, k: nat): Out
    requires k < |calls|
  {
    HandleCbor(StateAfter(st0, calls[..k]), calls[k].env, calls[k].request)
  }

  function FinishedOf(events: seq<Event>): seq<Assertion> {
    if events == [] then []
    else
      var last := events[|events| - 1];
      FinishedOf(events[..|events| - 1]) + if last.Finished? then [last.assertion] else []
  }

  lemma {:induction false} FinishedOfConcat(a: seq<Event>, b: seq<Event>)
    ensures FinishedOf(a + b) == FinishedOf(a) + FinishedOf(b)
    decreases |b|
  {
    if b == [] {
      assert a + b == a;
    } else {
      var n := |b| - 1;
      assert (a + b)[..|a| + n] == a + b[..n];
      FinishedOfConcat(a, b[..n]);
    }
  }

  /** The call saw a face before it did anything else. */
  ghost predicate SawFace(events: seq<Event>) {
    events != [] && events[0] == Verified(V.Success)
  }

  predicate UserClaimed(a: AuthData) {
    a.up || a.uv
  }

  /** Nothing but assertions of matched credentials: no face check, and data built for each finished one. */
  ghost predicate BatchEvents(events: seq<Event>) {
    && (forall e :: e in events ==> !e.Verified?)
    && (forall a :: a in FinishedOf(events) ==> Built(a.authData) in events)
  }

  /**
   The assertion is for this credential and signed by its key, and claims the user. It names the user exactly if the
   request had no allow list, with the names exactly if there are more matches, and then it tells how many.
   */
  ghost predicate IsFor(a: Assertion, c: Credential, env: Env, hash: seq<Byte>, discoverable: bool, total: nat) {
    && a.credentialId == c.credentialId
    && a.authData == AuthData(c.rpId, true, true, a.authData.counter, None, None)
    && env.sign(c.keyRef, a.authData, hash) == Some(a.signature)
    && a.user == (if !discoverable then None
                  else Some(User(c.userHandle, if total > 1 then Some((c.userName, c.userDisplayName)) else None)))
    && a.total == if total > 1 then Some(total) else None
  }

  ghost predicate BatchFits(assertions: seq<Assertion>, cs: seq<Credential>, env: Env, hash: seq<Byte>, disc: bool) {
    |assertions| <= |cs| && forall i :: 0 <= i < |assertions| ==> IsFor(assertions[i], cs[i], env, hash, disc, |cs|)
  }

  lemma AssertCredentialShape(s: Store, env: Env, i: nat, c: Credential, hash: seq<Byte>, disc: bool, total: nat)
    ensures var t := AssertCredential(s, env, i, c, hash, disc, total);
            && BatchEvents(t.events)
            && (t.assertion.Some? ==>
                  FinishedOf(t.events) == [t.assertion.value] && IsFor(t.assertion.value, c, env, hash, disc, total))
  {
    hide StoreDo;
    var t := AssertCredential(s, env, i, c, hash, disc, total);
    assert FinishedOf(t.events[..1]) == [];
    if |t.events| > 1 { assert t.events[..2][..1] == t.events[..1]; assert FinishedOf(t.events[..2]) == []; }
    if |t.events| == 2 { assert t.events[..2] == t.events; }
    if |t.events| == 1 { assert t.events[..1] == t.events; }
  }

  lemma BatchEventsConcat(a: seq<Event>, b: seq<Event>)
    requires BatchEvents(a) && BatchEvents(b)
    ensures BatchEvents(a + b)
  {
    FinishedOfConcat(a, b);
  }

  lemma EmptyBatch()
    ensures BatchEvents([]) && FinishedOf([]) == []
  {
  }

  lemma {:induction false} BatchShape(s: Store, env: Env, cs: seq<Credential>, n: nat, hash: seq<Byte>, disc: bool)
    requires n <= |cs|
    ensures var b := AssertFirst(s, env, cs, n, hash, disc);
            && BatchEvents(b.events)
            && (b.assertions.Some? ==> |b.assertions.value| == n && FinishedOf(b.events) == b.assertions.value
                                       && BatchFits(b.assertions.value, cs, env, hash, disc))
  {
    hide AssertCredential, FinishedOf, BatchEvents, IsFor;
    if n == 0 {
      EmptyBatch();
    } else {
      BatchShape(s, env, cs, n - 1, hash, disc);
      var b := AssertFirst(s, env, cs, n - 1, hash, disc);
      if b.assertions.Some? {
        AssertCredentialShape(b.store, env, n - 1, cs[n - 1], hash, disc, |cs|);
        var t := AssertCredential(b.store, env, n - 1, cs[n - 1], hash, disc, |cs|);
        FinishedOfConcat(b.events, t.events);
        BatchEventsConcat(b.events, t.events);
      }
    }
  }

  // ---------- one call ----------

  /** What holds of the events and the answer of every call. */
  ghost predicate Gated(st: State, o: Out) {
    && (forall i :: 0 <= i < |o.events| && o.events[i].Verified? ==> i == 0)
    && (!SawFace(o.events) ==>
          && o.state.store == st.store
          && (forall e :: e in o.events ==> !e.Did? && (e.Built? ==> !UserClaimed(e.authData))))
    && (o.events != [] && o.events[0].Verified? && !SawFace(o.events) ==>
          o.answer == Refused(match o.events[0].result
                              case TimeoutReached => UserActionTimeout
                              case Cancelled => KeepaliveCancel
                              case _ => OperationDenied))
    && (o.answer.Answered? && o.answer.response.Made? ==>
          SawFace(o.events) && Built(o.answer.response.authData) in o.events)
  }

  /** What makeCredential does after the face check. */
  lemma CreateShape(st: State, env: Env, m: Making)
    ensures var o := Create(st, env, m);
            && o.state.pending == st.pending
            && (forall e :: e in o.events ==> !e.Verified? && !e.Finished?)
            && (o.answer.Answered? ==> o.answer.response.Made? && Built(o.answer.response.authData) in o.events)
  {
    hide StoreDo, NewCredential, MakingAuthData;
  }

  lemma MakingIsGated(st: State, env: Env, p: Params)
    ensures Gated(st, MakeCredential(st, env, p)) && Queued(st, MakeCredential(st, env, p))
    ensures var a := MakeCredential(st, env, p).answer; a.Answered? ==> a.response.Made?
  {
    hide ParseMaking, Excluded, Create, FinishedOf;
    var m := ParseMaking(p);
    if m.Ok? { CreateShape(st, env, m.value); }
  }

  lemma {:induction false} NothingFinished(events: seq<Event>)
    requires forall e :: e in events ==> !e.Finished?
    ensures FinishedOf(events) == []
  {
    if events != [] { NothingFinished(events[..|events| - 1]); }
  }

  /** A call that answered with assertions after a face check: a completed getAssertion. */
  ghost predicate Completed(o: Out) {
    SawFace(o.events) && o.answer.Answered? && o.answer.response.Asserted?
  }

  /** What a call does to the queue. */
  ghost predicate Queued(st: State, o: Out) {
    if Completed(o) then
      var batch := FinishedOf(o.events);
      && batch != [] && o.state.pending == batch[1..] && o.answer.response.assertion == batch[0]
      && (forall a :: a in batch ==> Built(a.authData) in o.events)
    else
      || (o.state.pending == st.pending
          && (o.answer.Answered? && o.answer.response.Asserted? ==> !UserClaimed(o.answer.response.assertion.authData)))
      || (o.state.pending == [] && o.answer.Refused?)
      || (st.pending != [] && o.state.pending == st.pending[1..]
          && o.answer == Answered(Asserted(st.pending[0].(total := None))))
  }

  lemma CheckedFinished(result: V.VerificationResult, events: seq<Event>)
    ensures FinishedOf([Verified(result)] + events) == FinishedOf(events)
  {
    FinishedOfConcat([Verified(result)], events);
    NothingFinished([Verified(result)]);
    assert [] + FinishedOf(events) == FinishedOf(events);
  }

  /** The events of a batch after the face check. */
  lemma CheckedBatch(result: V.VerificationResult, events: seq<Event>)
    requires BatchEvents(events)
    ensures var all := [Verified(result)] + events;
            && all[0] == Verified(result)
            && (forall i :: 0 < i < |all| ==> !all[i].Verified?)
            && (forall a :: a in FinishedOf(all) ==> Built(a.authData) in all)
  {
    hide FinishedOf;
    CheckedFinished(result, events);
    var all := [Verified(result)] + events;
    forall i | 0 < i < |all|
      ensures !all[i].Verified?
    {
      assert all[i] in events;
    }
  }

  lemma AssertAllIsGated(st: State, env: Env, q: Asserting, cs: seq<Credential>)
    requires cs != []
    ensures Gated(st, AssertAll(st, env, q, cs)) && Queued(st, AssertAll(st, env, q, cs))
    ensures Completed(AssertAll(st, env, q, cs)) ==>
              |FinishedOf(AssertAll(st, env, q, cs).events)| == |cs|
              && BatchFits(FinishedOf(AssertAll(st, env, q, cs).events), cs, env, q.hash, q.allowed.None?)
  {
    hide AssertFirst, BatchFits, FinishedOf;
    var b := AssertFirst(st.store, env, cs, |cs|, q.hash, q.allowed.None?);
    BatchShape(st.store, env, cs, |cs|, q.hash, q.allowed.None?);
    CheckedFinished(env.verdict, b.events);
    CheckedBatch(env.verdict, b.events);
    hide BatchEvents;
  }

  lemma SilentIsGated(env: Env, c: Credential, hash: seq<Byte>)
    ensures forall e :: e in SilentAssertion(env, c, hash).0 ==>
              !e.Did? && !e.Verified? && (e.Built? ==> !UserClaimed(e.authData))
    ensures var a := SilentAssertion(env, c, hash).1;
            a.Answered? ==> a.response.Asserted? && !UserClaimed(a.response.assertion.authData)
  {
  }

  lemma GetAssertionIsGated(st: State, env: Env, p: Params)
    ensures Gated(st, GetAssertion(st, env, p)) && Queued(st, GetAssertion(st, env, p))
  {
    hide ParseAsserting, L.FindForRp, AssertAll, SilentAssertion, FinishedOf;
    var q := ParseAsserting(p);
    if q.Ok? {
      var cs := L.FindForRp(st.store.cache, q.value.rpId, q.value.allowed);
      if cs != [] {
        AssertAllIsGated(st, env, q.value, cs);
        SilentIsGated(env, cs[0], q.value.hash);
      }
    }
  }

  lemma OthersAreGated(st: State, env: Env)
    ensures Gated(st, GetNextAssertion(st, env)) && Queued(st, GetNextAssertion(st, env))
    ensures Gated(st, Reset(st, env)) && Queued(st, Reset(st, env))
    ensures Gated(st, Selection(st, env)) && Queued(st, Selection(st, env))
  {
    hide StoreDo, FinishedOf;
  }

  /**
   One call: it checks the face at most once and before anything else; without a face it leaves the store
   alone and claims no user; a failed check is answered with its own error.
   */
  lemma CallIsGated(st: State, env: Env, request: seq<Byte>)
    ensures Gated(st, HandleCbor(st, env, request)) && Queued(st, HandleCbor(st, env, request))
  {
    hide MakeCredential, GetAssertion, GetNextAssertion, Reset, Selection, ParamsOf, Gated, Queued;
    IdleIsGated(st);
    if request != [] && ParamsOf(env, request).Ok? {
      var p := ParamsOf(env, request).value;
      MakingIsGated(st, env, p);
      GetAssertionIsGated(st, env, p);
      OthersAreGated(st, env);
    }
  }

  /** A call that does nothing but answer. */
  lemma IdleIsGated(st: State)
    ensures forall e :: Gated(st, Out(st, [], Refused(e))) && Queued(st, Out(st, [], Refused(e)))
    ensures Gated(st, Out(st, [], Answered(Info))) && Queued(st, Out(st, [], Answered(Info)))
  {
  }

  // ---------- whole runs ----------

  /** The latest completed getAssertion that was not silent. */
  ghost function Latest(st0: State, calls: seq<Call>): (k: Option<nat>)
    ensures k.Some? ==> k.value < |calls|
  {
    if calls == [] then None
    else if Completed(OutOf(st0, calls, |calls| - 1)) then Some(|calls| - 1)
    else Latest(st0, calls[..|calls| - 1])
  }

  lemma OutOfPrefix(st0: State, calls: seq<Call>, n: nat, k: nat)
    requires k < n <= |calls|
    ensures OutOf(st0, calls[..n], k) == OutOf(st0, calls, k)
  {
    assert calls[..n][..k] == calls[..k];
  }

  ghost predicate IsSuffix(a: seq<Assertion>, b: seq<Assertion>) {
    |a| <= |b| && a == b[|b| - |a|..]
  }

  /**
   The pending queue is always a suffix of the assertions, after the first, that the latest completed
   getAssertion finished; only a completed getAssertion starts a new one, not a failed one and not a reset.
   */
  lemma {:induction false} PendingIsSuffix(st0: State, calls: seq<Call>)
    requires st0.pending == []
    ensures var pending := StateAfter(st0, calls).pending;
            pending != [] ==>
              && Latest(st0, calls).Some?
              && var k := Latest(st0, calls).value;
                 && Completed(OutOf(st0, calls, k))
                 && FinishedOf(OutOf(st0, calls, k).events) != []
                 && IsSuffix(pending, FinishedOf(OutOf(st0, calls, k).events)[1..])
    decreases |calls|
  {
    hide HandleCbor, FinishedOf;
    if calls != [] {
      var n := |calls| - 1;
      PendingIsSuffix(st0, calls[..n]);
      CallIsGated(StateAfter(st0, calls[..n]), calls[n].env, calls[n].request);
      var k := Latest(st0, calls[..n]);
      if k.Some? { OutOfPrefix(st0, calls, n, k.value); }
    }
  }

  /**
   Whatever is released with UP or UV set, by getNextAssertion too, was built by a call that had just seen
   a face: this call itself unless it is a getNextAssertion.
   */
  lemma ReleasedAfterFace(st0: State, calls: seq<Call>, k: nat, authData: AuthData)
    requires st0.pending == [] && k < |calls|
    requires var a := OutOf(st0, calls, k).answer;
             a.Answered? && UserClaimed(authData)
             && ((a.response.Made? && a.response.authData == authData)
                 || (a.response.Asserted? && a.response.assertion.authData == authData))
    ensures exists j :: 0 <= j <= k && SawFace(OutOf(st0, calls, j).events)
                        && Built(authData) in OutOf(st0, calls, j).events
                        && (j < k ==> OutOf(st0, calls, k).events == [])
  {
    hide HandleCbor, FinishedOf;
    var st, o := StateAfter(st0, calls[..k]), OutOf(st0, calls, k);
    CallIsGated(st, calls[k].env, calls[k].request);
    if SawFace(o.events) {
      if o.answer.response.Asserted? {
        assert o.answer.response.assertion in FinishedOf(o.events);
      }
      assert Built(authData) in o.events;
    } else {
      QueueAnswersSilently(st, calls[k].env, calls[k].request);
      PendingIsSuffix(st0, calls[..k]);
      var j := Latest(st0, calls[..k]).value;
      OutOfPrefix(st0, calls, k, j);
      var batch := FinishedOf(OutOf(st0, calls, j).events);
      CallIsGated(StateAfter(st0, calls[..j]), calls[j].env, calls[j].request);
      assert st.pending[0] in batch;
    }
  }

  /** Without a face, only getNextAssertion answers with a claim, and it records no event. */
  lemma QueueAnswersSilently(st: State, env: Env, request: seq<Byte>)
    ensures var o := HandleCbor(st, env, request);
            !SawFace(o.events) && o.answer.Answered? && o.answer.response.Asserted?
            && UserClaimed(o.answer.response.assertion.authData) ==>
              o.events == [] && st.pending != [] && o.answer == Answered(Asserted(st.pending[0].(total := None)))
  {
    hide ParamsOf, MakeCredential, GetAssertion;
    if request != [] && ParamsOf(env, request).Ok? {
      MakingIsGated(st, env, ParamsOf(env, request).value);
      GetAssertionClaims(st, env, ParamsOf(env, request).value);
    }
  }

  lemma GetAssertionClaims(st: State, env: Env, p: Params)
    ensures var o := GetAssertion(st, env, p);
            o.answer.Answered? ==>
              o.answer.response.Asserted? && (UserClaimed(o.answer.response.assertion.authData) ==> SawFace(o.events))
  {
    hide ParseAsserting, L.FindForRp, AssertFirst, SilentAssertion;
    var q := ParseAsserting(p);
    if q.Ok? {
      var cs := L.FindForRp(st.store.cache, q.value.rpId, q.value.allowed);
      if cs != [] { SilentIsGated(env, cs[0], q.value.hash); }
    }
  }

  /** Only a getAssertion completes. */
  lemma CompletedIsAsked(st: State, env: Env, request: seq<Byte>)
    requires Completed(HandleCbor(st, env, request))
    ensures request != [] && request[0] == 0x02 && ParamsOf(env, request).Ok?
    ensures HandleCbor(st, env, request) == GetAssertion(st, env, ParamsOf(env, request).value)
  {
    hide ParamsOf, MakeCredential, GetAssertion;
    if request != [] && ParamsOf(env, request).Ok? { MakingIsGated(st, env, ParamsOf(env, request).value); }
  }

  /** What is released with UP set was made by the j-th call, a getAssertion that read q, for its i-th match. */
  ghost predicate MadeFor(st0: State, calls: seq<Call>, a: Assertion, j: nat, q: Asserting, i: nat)
    requires j < |calls|
  {
    var cs := L.FindForRp(StateAfter(st0, calls[..j]).store.cache, q.rpId, q.allowed);
    && calls[j].request != [] && calls[j].request[0] == 0x02 && ParamsOf(calls[j].env, calls[j].request).Ok?
    && ParseAsserting(ParamsOf(calls[j].env, calls[j].request).value) == Ok(q)
    && i < |cs| && a.credentialId == cs[i].credentialId
    && a.authData == AuthData(cs[i].rpId, true, true, a.authData.counter, None, None)
    && calls[j].env.sign(cs[i].keyRef, a.authData, q.hash) == Some(a.signature)
    && a.user == (if q.allowed.Some? then None
                  else Some(User(cs[i].userHandle,
                                 if |cs| > 1 then Some((cs[i].userName, cs[i].userDisplayName)) else None)))
  }

  /**
   Over any run, every assertion that is released with UP or UV, at once or from the queue, was made for a match of a
   getAssertion. It is for that credential, signed by its key over the request's hash; with an allow list it names no
   user, without one the user handle of that credential, and the names exactly if more than one credential matched.
   */
  lemma ReleasedForMatch(st0: State, calls: seq<Call>, k: nat) returns (j: nat, q: Asserting, i: nat)
    requires st0.pending == [] && k < |calls|
    requires var a := OutOf(st0, calls, k).answer;
             a.Answered? && a.response.Asserted? && UserClaimed(a.response.assertion.authData)
    ensures j <= k && MadeFor(st0, calls, OutOf(st0, calls, k).answer.response.assertion, j, q, i)
  {
    hide HandleCbor, FinishedOf, ParamsOf, ParseAsserting, L.FindForRp, MadeFor, GetAssertion;
    var st, o := StateAfter(st0, calls[..k]), OutOf(st0, calls, k);
    CallIsGated(st, calls[k].env, calls[k].request);
    if SawFace(o.events) {
      j, i := k, 0;
      q := BatchMadeFor(st0, calls, k, 0, o.answer.response.assertion);
    } else {
      QueueAnswersSilently(st, calls[k].env, calls[k].request);
      PendingIsSuffix(st0, calls[..k]);
      j := Latest(st0, calls[..k]).value;
      OutOfPrefix(st0, calls, k, j);
      var batch := FinishedOf(OutOf(st0, calls, j).events);
      i := |batch| - |st.pending|;
      assert st.pending[0] == batch[i];
      q := BatchMadeFor(st0, calls, j, i, st.pending[0].(total := None));
    }
  }

  lemma BatchMadeFor(st0: State, calls: seq<Call>, j: nat, i: nat, a: Assertion) returns (q: Asserting)
    requires j < |calls| && Completed(OutOf(st0, calls, j)) && i < |FinishedOf(OutOf(st0, calls, j).events)|
    requires a.(total := None) == FinishedOf(OutOf(st0, calls, j).events)[i].(total := None)
    ensures MadeFor(st0, calls, a, j, q, i)
  {
    hide HandleCbor, FinishedOf, ParamsOf, ParseAsserting, L.FindForRp, GetAssertion;
    var st, c := StateAfter(st0, calls[..j]), calls[j];
    CompletedIsAsked(st, c.env, c.request);
    FirstOfBatch(st, c.env, ParamsOf(c.env, c.request).value);
    q := ParseAsserting(ParamsOf(c.env, c.request).value).value;
  }

  /** A call that is refused before it saw a face, or fails the check, changes nothing in the store. */
  lemma RefusedLeavesStore(st0: State, calls: seq<Call>, k: nat)
    requires k < |calls|
    ensures !SawFace(OutOf(st0, calls, k).events) ==>
              StateAfter(st0, calls[..k + 1]).store == StateAfter(st0, calls[..k]).store
  {
    hide HandleCbor;
    assert calls[..k + 1][..k] == calls[..k];
    CallIsGated(StateAfter(st0, calls[..k]), calls[k].env, calls[k].request);
  }

  /**
   A getAssertion that answers has seen a face exactly if the request does not set "up" to false; if it has not, the
   answer claims no user, repeats the stored counter of the newest match, and nothing changes.
   */
  lemma SilentExactly(st: State, env: Env, p: Params)
    requires GetAssertion(st, env, p).answer.Answered? && ParseAsserting(p).Ok? && ParseAsserting(p).value.options.Dict?
    ensures var q, o := ParseAsserting(p).value, GetAssertion(st, env, p);
            var cs := L.FindForRp(st.store.cache, q.rpId, q.allowed);
            && (SawFace(o.events) <==> Entry(q.options, "up").value != Bool(false))
            && (!SawFace(o.events) ==>
                  && cs != [] && o.state == st && o.answer.response.Asserted?
                  && o.answer.response.assertion.credentialId == cs[0].credentialId
                  && o.answer.response.assertion.authData
                     == AuthData(cs[0].rpId, false, false, cs[0].signCount, None, None)
                  && Some(o.answer.response.assertion.signature)
                     == env.sign(cs[0].keyRef, o.answer.response.assertion.authData, q.hash)
                  && o.answer.response.assertion.user == None && o.answer.response.assertion.total == None)
  {
    hide ParseAsserting, L.FindForRp, AssertFirst;
  }

  /** A request to a store in step that is signed without a face check; the design document says there is none. */
  lemma SilentSigns() returns (st: State, env: Env, p: Params)
    ensures Loaded(st.store.file) == Some(st.store.cache)
    ensures GetAssertion(st, env, p).answer.Answered? && !SawFace(GetAssertion(st, env, p).events)
  {
    var c := Credential([1], "a", "", [2], "", "", [3], "k", 7, true, 1, -7, 0.0);
    st := State(Store(Saved([c]), [c]), 0, [], 0);
    assert Loaded(st.store.file) == Some(st.store.cache) by { LoadRestoresSaved([c]); }
    env := Env(0, 0, V.Abort, None, [], 0.0, (_, _, _) => Some([4]), _ => [], _ => Full, false, _ => None);
    p := SilentRequest("a", [5]);
    hide Saved, Loaded, L.FindForRp;
    assert L.FindForRp(st.store.cache, "a", None) == [c] by { FindsAlone(c); }
  }

  /** A request for any credential of a relying party that sets "up" to false. */
  lemma SilentRequest(rpId: string, hash: seq<Byte>) returns (p: Params)
    ensures var q := ParseAsserting(p);
            && q.Ok? && q.value.rpId == rpId && q.value.hash == hash && q.value.allowed == None
            && q.value.options.Dict? && Entry(q.value.options, "up").value == Bool(false)
  {
    p := map[1 := Text(rpId), 2 := ByteString(hash), 5 := Dict(map[], map["up" := Bool(false)], 0)];
  }

  lemma FindsAlone(c: Credential)
    requires c.resident
    ensures L.FindForRp([c], c.rpId, None) == [c]
  {
    assert [c][1..] == [];
    assert L.Matching([c], c.rpId, None) == [c] + [] == [c];
    assert L.Sorted([c]) == [c];
  }

  // ---------- draining the queue ----------

  /** The request is for this command, and its parameters decode. */
  predicate Asks(c: Call, command: Byte) {
    c.request != [] && c.request[0] == command && ParamsOf(c.env, c.request).Ok?
  }

  /** Each call comes within the window after the one before it. */
  ghost predicate InWindow(time: int, nexts: seq<Call>) {
    forall i :: 0 <= i < |nexts| ==> nexts[i].env.now - Before(time, nexts, i) <= NEXT_ASSERTION_WINDOW
  }

  /** When the call before the i-th one ended. */
  function Before(time: int, nexts: seq<Call>, i: nat): int
    requires i <= |nexts|
  {
    if i == 0 then time else nexts[i - 1].env.later
  }

  lemma NextIsNext(st: State, c: Call)
    requires Asks(c, CMD_GET_NEXT_ASSERTION)
    ensures HandleCbor(st, c.env, c.request) == GetNextAssertion(st, c.env)
  {
    hide ParamsOf, MakeCredential, GetAssertion, GetNextAssertion, Reset, Selection;
  }

  /** A call in the window releases the first of the queue. */
  lemma DrainStep(st: State, c: Call)
    requires Asks(c, CMD_GET_NEXT_ASSERTION) && st.pending != []
    requires c.env.now - st.pendingTime <= NEXT_ASSERTION_WINDOW
    ensures HandleCbor(st, c.env, c.request)
            == Out(st.(pending := st.pending[1..], pendingTime := c.env.later), [],
                   Answered(Asserted(st.pending[0].(total := None))))
  {
    hide HandleCbor, Asks;
    NextIsNext(st, c);
  }

  lemma InWindowInit(time: int, nexts: seq<Call>)
    requires nexts != [] && InWindow(time, nexts)
    ensures InWindow(time, nexts[..|nexts| - 1])
    ensures nexts[|nexts| - 1].env.now - Before(time, nexts, |nexts| - 1) <= NEXT_ASSERTION_WINDOW
    ensures |nexts| > 1 ==> Before(time, nexts, |nexts| - 1) == nexts[..|nexts| - 1][|nexts| - 2].env.later
  {
    var init := nexts[..|nexts| - 1];
    forall i | 0 <= i < |init|
      ensures init[i].env.now - Before(time, init, i) <= NEXT_ASSERTION_WINDOW
    {
      assert init[i] == nexts[i] && Before(time, init, i) == Before(time, nexts, i);
    }
  }

  lemma {:induction false} DrainsInOrder(st: State, nexts: seq<Call>)
    requires |nexts| <= |st.pending| && InWindow(st.pendingTime, nexts)
    requires forall i :: 0 <= i < |nexts| ==> Asks(nexts[i], CMD_GET_NEXT_ASSERTION)
    ensures StateAfter(st, nexts).pending == st.pending[|nexts|..]
    ensures nexts != [] ==> StateAfter(st, nexts).pendingTime == nexts[|nexts| - 1].env.later
    ensures nexts == [] ==> StateAfter(st, nexts).pendingTime == st.pendingTime
    ensures forall i :: 0 <= i < |nexts| ==>
              OutOf(st, nexts, i).answer == Answered(Asserted(st.pending[i].(total := None)))
    decreases |nexts|
  {
    hide HandleCbor, Asks, InWindow;
    if nexts != [] {
      var n: nat := |nexts| - 1;
      var init := nexts[..n];
      InWindowInit(st.pendingTime, nexts);
      DrainsInOrder(st, init);
      forall i | 0 <= i < n
        ensures OutOf(st, nexts, i).answer == Answered(Asserted(st.pending[i].(total := None)))
      {
        OutOfPrefix(st, nexts, n, i);
      }
      var st' := StateAfter(st, init);
      DrainStep(st', nexts[n]);
      assert OutOf(st, nexts, n) == HandleCbor(st', nexts[n].env, nexts[n].request);
    }
  }

  /**
   One getAssertion over k matches and k - 1 getNextAssertion calls in the window yield each match once, newest
   first; only the first tells the number of credentials, and only if there are more; one more is refused.
   */
  lemma EachMatchOnce(st: State, first: Call, nexts: seq<Call>, extra: Call)
    requires Asks(first, CMD_GET_ASSERTION) && Asks(extra, CMD_GET_NEXT_ASSERTION)
    requires Completed(OutOf(st, [first], 0)) && InWindow(first.env.later, nexts)
    requires forall i :: 0 <= i < |nexts| ==> Asks(nexts[i], CMD_GET_NEXT_ASSERTION)
    requires ParseAsserting(ParamsOf(first.env, first.request).value).Ok?
    requires var q := ParseAsserting(ParamsOf(first.env, first.request).value).value;
             |nexts| + 1 == |L.FindForRp(st.store.cache, q.rpId, q.allowed)|
    ensures var q := ParseAsserting(ParamsOf(first.env, first.request).value).value;
            var cs := L.FindForRp(st.store.cache, q.rpId, q.allowed);
            var o := OutOf(st, [first], 0);
            && o.answer.response.assertion.credentialId == cs[0].credentialId
            && o.answer.response.assertion.user
               == (if q.allowed.Some? then None
                   else Some(User(cs[0].userHandle,
                                  if |cs| > 1 then Some((cs[0].userName, cs[0].userDisplayName)) else None)))
            && o.answer.response.assertion.total == (if |cs| > 1 then Some(|cs|) else None)
            && (forall i :: 0 <= i < |nexts| ==>
                  var a := OutOf(o.state, nexts, i).answer;
                  a.Answered? && a.response.Asserted? && a.response.assertion.total == None
                  && a.response.assertion.credentialId == cs[i + 1].credentialId
                  && a.response.assertion.user
                     == if q.allowed.Some? then None
                        else Some(User(cs[i + 1].userHandle, Some((cs[i + 1].userName, cs[i + 1].userDisplayName)))))
            && OutOf(o.state, nexts + [extra], |nexts|).answer == Refused(NotAllowed)
  {
    hide ParamsOf, ParseAsserting, L.FindForRp, FinishedOf, AssertAll, GetNextAssertion;
    var o := OutOf(st, [first], 0);
    assert [first][..0] == [];
    FirstOfBatch(st, first.env, ParamsOf(first.env, first.request).value);
    DrainsInOrder(o.state, nexts);
    assert (nexts + [extra])[..|nexts|] == nexts;
    EmptyIsRefused(StateAfter(o.state, nexts), extra);
  }

  lemma FirstOfBatch(st: State, env: Env, p: Params)
    requires Completed(GetAssertion(st, env, p))
    ensures ParseAsserting(p).Ok?
    ensures var q := ParseAsserting(p).value;
            var cs := L.FindForRp(st.store.cache, q.rpId, q.allowed);
            var o := GetAssertion(st, env, p);
            var batch := FinishedOf(o.events);
            && |batch| == |cs| && BatchFits(batch, cs, env, q.hash, q.allowed.None?) && |cs| > 0
            && o.state.pending == batch[1..] && o.answer.response.assertion == batch[0]
            && o.state.pendingTime == env.later
  {
    hide ParseAsserting, L.FindForRp, FinishedOf, AssertFirst, BatchFits, SilentAssertion;
    var q := ParseAsserting(p);
    var cs := L.FindForRp(st.store.cache, q.value.rpId, q.value.allowed);
    AssertAllIsGated(st, env, q.value, cs);
    SilentIsGated(env, cs[0], q.value.hash);
  }

  lemma EmptyIsRefused(st: State, c: Call)
    requires st.pending == [] && Asks(c, CMD_GET_NEXT_ASSERTION)
    ensures HandleCbor(st, c.env, c.request).answer == Refused(NotAllowed)
  {
    NextIsNext(st, c);
    hide HandleCbor;
  }

  /** A late getNextAssertion is refused, and so is every later one until a getAssertion completes. */
  lemma {:induction false} LateLosesQueue(st: State, calls: seq<Call>, k: nat)
    requires k < |calls| && Asks(calls[0], CMD_GET_NEXT_ASSERTION) && Asks(calls[k], CMD_GET_NEXT_ASSERTION)
    requires calls[0].env.now - st.pendingTime > NEXT_ASSERTION_WINDOW
    requires forall j :: 0 < j < k ==> !Completed(OutOf(st, calls, j))
    ensures OutOf(st, calls, k).answer == Refused(NotAllowed)
    ensures StateAfter(st, calls[..k + 1]).pending == []
    decreases k
  {
    hide HandleCbor, Asks;
    assert calls[..0] == [] && calls[..k + 1][..k] == calls[..k];
    NextIsNext(StateAfter(st, calls[..k]), calls[k]);
    if k > 0 { StaysEmpty(st, calls, k); }
  }

  lemma {:induction false} StaysEmpty(st: State, calls: seq<Call>, k: nat)
    requires 0 < k < |calls| && Asks(calls[0], CMD_GET_NEXT_ASSERTION)
    requires calls[0].env.now - st.pendingTime > NEXT_ASSERTION_WINDOW
    requires forall j :: 0 < j < k ==> !Completed(OutOf(st, calls, j))
    ensures StateAfter(st, calls[..k]).pending == []
  {
    hide HandleCbor, Asks, FinishedOf;
    var prefix := calls[..k];
    assert prefix[..k - 1] == calls[..k - 1];
    var before, last := StateAfter(st, calls[..k - 1]), calls[k - 1];
    assert StateAfter(st, prefix) == HandleCbor(before, last.env, last.request).state;
    if k == 1 {
      assert calls[..0] == [];
      NextIsNext(st, calls[0]);
    } else {
      StaysEmpty(st, calls, k - 1);
      assert !Completed(OutOf(st, calls, k - 1));
      CallIsGated(before, last.env, last.request);
    }
  }

  // ---------- the exclude list ----------

  /** A listed id excludes exactly if some cached credential of the relying party has it. */
  lemma ExcludedCharacterized(cache: seq<Credential>, rpId: string, ids: seq<seq<Byte>>)
    requires L.DistinctIds(cache)
    ensures Excluded(cache, rpId, ids) <==> exists c :: c in cache && c.rpId == rpId && c.credentialId in ids
  {
    if c :| c in cache && c.rpId == rpId && c.credentialId in ids {
      assert cache[IndexOf(cache, c.credentialId)] == c;
    }
  }
}
