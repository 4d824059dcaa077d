/** Runs in which no signature, key or write fails and nobody else uses the store: the counters are exactly 1, 2, 3. */
module AuthenticatorCalm {
  import opened Bytes
  import opened CredentialStore
  import opened AuthenticatorRequests
  import opened Authenticator
  import opened AuthenticatorGate
  import opened AuthenticatorCounters
  import L = StoreLaws
  import V = FaceVerifier

  /** Nobody else uses the store during the call, every write succeeds and so does every signature. */
  ghost predicate Calm(env: Env) {
    && (forall i :: env.others(i) == [] && env.access(i).Full?)
    && (forall key, authData, hash :: env.sign(key, authData, hash).Some?)
  }

  ghost predicate AllCalm(calls: seq<Call>) {
    forall k :: 0 <= k < |calls| ==> Calm(calls[k].env)
  }

  ghost predicate AtMost(cs: seq<Credential>, bound: nat) {
    forall c :: c in cs ==> c.signCount <= bound
  }

  /** What is known before the run: a cache in step with the file, new ids, and no counter that could run out. */
  ghost predicate CalmStart(st0: State, calls: seq<Call>, bound: nat) {
    && InStep(st0.store) && L.DistinctIds(st0.store.cache) && AtMost(st0.store.cache, bound)
    && bound + |calls| < COUNTER_LIMIT && AllCalm(calls) && NewIds(st0.store.cache, calls)
  }

  /** What a call does to a store in step: it stays so, no counter grows by more than one, what counts is answered. */
  ghost predicate Steady(st: State, o: Out, bound: nat) {
    && InStep(o.state.store) && AtMost(o.state.store.cache, bound + 1)
    && (o.answer.Answered? || NoCounting(o.events))
  }

  lemma AddSteps(s: Store, c: Credential, bound: nat)
    requires InStep(s) && AtMost(s.cache, bound) && c.signCount == 0
    ensures var (s', reply) := StoreDo(s, [], Add(c), Full);
            InStep(s') && AtMost(s'.cache, bound)
  {
    hide Saved, Loaded;
    L.AppliedList(s.file, Add(c));
    L.WithoutAccountMembers(s.cache, c);
  }

  lemma MakingIsSteady(st: State, env: Env, p: Params, bound: nat)
    requires InStep(st.store) && AtMost(st.store.cache, bound) && Calm(env)
    ensures Steady(st, MakeCredential(st, env, p), bound)
  {
    hide ParseMaking, Excluded, StoreDo, InStep;
    MakingNeverCounts(st, env, p);
    var m := ParseMaking(p);
    if m.Ok? && env.key.Some? && m.value.rpName.Some? && m.value.userName.Some? && m.value.displayName.Some? {
      AddSteps(st.store, NewCredential(env, m.value), bound);
    }
  }

  lemma GetAssertionIsSteady(st: State, env: Env, p: Params, bound: nat)
    requires InStep(st.store) && L.DistinctIds(st.store.cache) && AtMost(st.store.cache, bound)
    requires Calm(env) && bound + 1 < COUNTER_LIMIT
    ensures Steady(st, GetAssertion(st, env, p), bound)
  {
    hide InStep, L.DistinctIds, ParseAsserting, L.FindForRp, AssertFirst;
    var q, cache := ParseAsserting(p), st.store.cache;
    if q.Ok? && q.value.options.Dict? {
      var cs := L.FindForRp(cache, q.value.rpId, q.value.allowed);
      if cs != [] && Entry(q.value.options, "up").value != Bool(false) && env.verdict == V.Success {
        L.FindForRpCharacterized(cache, q.value.rpId, q.value.allowed, cs);
        assert cs[0] in multiset(cs);
        assert cs[0] in multiset(cache) && L.Matches(cs[0], q.value.rpId, q.value.allowed);
        EachMatchCountsOnce(st, env, p);
        hide GetAssertion;
        var after := GetAssertion(st, env, p).state.store.cache;
        forall c | c in after
          ensures c.signCount <= bound + 1
        {
          var i :| 0 <= i < |after| && after[i] == c;
          assert cache[i] in cache;
        }
      }
    }
  }

  lemma ResetIsSteady(st: State, env: Env, bound: nat)
    requires InStep(st.store) && AtMost(st.store.cache, bound) && Calm(env)
    ensures Steady(st, Reset(st, env), bound)
  {
    assert Loaded(Missing) == Some([]);
  }

  lemma CallIsSteady(st: State, env: Env, request: seq<Byte>, bound: nat)
    requires InStep(st.store) && L.DistinctIds(st.store.cache) && AtMost(st.store.cache, bound)
    requires Calm(env) && bound + 1 < COUNTER_LIMIT
    ensures Steady(st, HandleCbor(st, env, request), bound)
  {
    hide ParamsOf, MakeCredential, GetAssertion, Reset, InStep, L.DistinctIds;
    if request != [] && ParamsOf(env, request).Ok? {
      var p := ParamsOf(env, request).value;
      MakingIsSteady(st, env, p, bound);
      GetAssertionIsSteady(st, env, p, bound);
      ResetIsSteady(st, env, bound);
    }
  }

  lemma {:induction false} EventsPrefix(st0: State, calls: seq<Call>, n: nat)
    requires n <= |calls|
    ensures Events(st0, calls[..n]) <= Events(st0, calls)
    decreases |calls|
  {
    hide HandleCbor;
    if n == |calls| {
      assert calls[..n] == calls;
    } else {
      assert calls[..|calls| - 1][..n] == calls[..n];
      EventsPrefix(st0, calls[..|calls| - 1], n);
    }
  }

  lemma OpsPrefix(st0: State, cs0: seq<Credential>, calls: seq<Call>, n: nat)
    requires n <= |calls| && L.FreshAdds(cs0, OpsOf(Events(st0, calls)))
    ensures L.FreshAdds(cs0, OpsOf(Events(st0, calls[..n])))
  {
    hide Events, OpsOf, L.FreshAdds;
    EventsPrefix(st0, calls, n);
    var all, part := Events(st0, calls), Events(st0, calls[..n]);
    assert all[..|part|] == part;
    OpsOfPrefix(all, |part|);
    assert OpsOf(all)[..|OpsOf(part)|] == OpsOf(part);
    L.FreshPrefix(cs0, OpsOf(all), |OpsOf(part)|);
  }

  /** The ids in the file stay distinct, whatever happens. */
  lemma DistinctAfter(st0: State, cs0: seq<Credential>, calls: seq<Call>)
    requires Loaded(st0.store.file) == Some(cs0) && L.DistinctIds(cs0)
    requires L.FreshAdds(cs0, OpsOf(Events(st0, calls)))
    ensures var f := StateAfter(st0, calls).store.file; Loaded(f).Some? && L.DistinctIds(Loaded(f).value)
  {
    hide Events, OpsOf, StateAfter, L.FreshAdds, L.DistinctIds, L.ApplyAll, Loaded, Sound;
    RunLeads(st0, calls);
    L.CountersCount(cs0, OpsOf(Events(st0, calls)), st0.store.file);
  }

  lemma {:induction false} CalmRunIfFresh(st0: State, calls: seq<Call>, bound: nat)
    requires CalmStart(st0, calls, bound)
    requires L.FreshAdds(st0.store.cache, OpsOf(Events(st0, calls)))
    ensures var s := StateAfter(st0, calls).store;
            InStep(s) && L.DistinctIds(s.cache) && AtMost(s.cache, bound + |calls|)
    ensures Finishes(st0, calls)
    decreases |calls|
  {
    hide HandleCbor, L.DistinctIds, L.FreshAdds, OpsOf, Events, Calm, Finishes, NoCounting;
    if calls == [] { NothingFinishes(st0); }
    if calls != [] {
      var n: nat := |calls| - 1;
      var init := calls[..n];
      OpsPrefix(st0, st0.store.cache, calls, n);
      assert AllCalm(init) && Calm(calls[n].env);
      assert NewIds(st0.store.cache, init);
      CalmRunIfFresh(st0, init, bound);
      var st := StateAfter(st0, init);
      CallIsSteady(st, calls[n].env, calls[n].request, bound + n);
      DistinctAfter(st0, st0.store.cache, calls);
      FinishesSnoc(st0, calls);
    }
  }

  lemma NothingFinishes(st0: State)
    ensures Finishes(st0, [])
  {
  }

  lemma FinishesSnoc(st0: State, calls: seq<Call>)
    requires calls != [] && Finishes(st0, calls[..|calls| - 1])
    requires var o := OutOf(st0, calls, |calls| - 1); o.answer.Answered? || NoCounting(o.events)
    ensures Finishes(st0, calls)
  {
    hide HandleCbor, NoCounting;
    var n: nat := |calls| - 1;
    forall k | 0 <= k < n
      ensures OutOf(st0, calls, k).answer.Answered? || NoCounting(OutOf(st0, calls, k).events)
    {
      OutOfPrefix(st0, calls, n, k);
      assert OutOf(st0, calls[..n], k).answer.Answered? || NoCounting(OutOf(st0, calls[..n], k).events);
    }
  }

  lemma {:induction false} BatchNoOthers(s: Store, env: Env, cs: seq<Credential>, n: nat, hash: seq<Byte>, disc: bool)
    requires Calm(env) && n <= |cs|
    ensures Alone(AssertFirst(s, env, cs, n, hash, disc).events)
  {
    hide StoreDo;
    if n > 0 { BatchNoOthers(s, env, cs, n - 1, hash, disc); }
  }

  lemma CallNoOthers(st: State, env: Env, request: seq<Byte>)
    requires Calm(env)
    ensures Alone(HandleCbor(st, env, request).events)
  {
    hide ParamsOf, ParseMaking, ParseAsserting, Excluded, StoreDo, L.FindForRp, AssertFirst;
    if request != [] && ParamsOf(env, request).Ok? {
      var q := ParseAsserting(ParamsOf(env, request).value);
      if q.Ok? {
        var cs := L.FindForRp(st.store.cache, q.value.rpId, q.value.allowed);
        BatchNoOthers(st.store, env, cs, |cs|, q.value.hash, q.value.allowed.None?);
      }
    }
  }

  lemma {:induction false} RunNoOthers(st0: State, calls: seq<Call>)
    requires AllCalm(calls)
    ensures Alone(Events(st0, calls))
    decreases |calls|
  {
    hide HandleCbor, Calm;
    if calls != [] {
      var n := |calls| - 1;
      assert AllCalm(calls[..n]) && Calm(calls[n].env);
      RunNoOthers(st0, calls[..n]);
      CallNoOthers(StateAfter(st0, calls[..n]), calls[n].env, calls[n].request);
    }
  }

  // ---------- fresh ids ----------

  /** The random ids of the calls are new to the store and distinct. */
  ghost predicate NewIds(cs0: seq<Credential>, calls: seq<Call>) {
    && (forall k :: 0 <= k < |calls| ==> IndexOf(cs0, calls[k].env.id) == |cs0|)
    && (forall j, k :: 0 <= j < k < |calls| ==> calls[j].env.id != calls[k].env.id)
  }

  predicate AddsCredential(e: Event) {
    e.Did? && e.op.Add?
  }

  /** At most one credential is added, and it has this id. */
  ghost predicate AddsOnce(events: seq<Event>, id: seq<Byte>) {
    && (forall i :: 0 <= i < |events| && AddsCredential(events[i]) ==> events[i].op.credential.credentialId == id)
    && (forall i, j :: 0 <= i < j < |events| && AddsCredential(events[i]) ==> !AddsCredential(events[j]))
  }

  ghost predicate AddsNone(events: seq<Event>) {
    forall e :: e in events ==> !AddsCredential(e)
  }

  lemma {:induction false} BatchAddsNone(s: Store, env: Env, cs: seq<Credential>, n: nat, hash: seq<Byte>, disc: bool)
    requires n <= |cs|
    ensures AddsNone(AssertFirst(s, env, cs, n, hash, disc).events)
  {
    hide StoreDo;
    if n > 0 { BatchAddsNone(s, env, cs, n - 1, hash, disc); }
  }

  lemma CallAddsOnce(st: State, env: Env, request: seq<Byte>)
    ensures AddsOnce(HandleCbor(st, env, request).events, env.id)
  {
    hide ParamsOf, ParseMaking, ParseAsserting, Excluded, StoreDo, L.FindForRp, AssertFirst;
    if request != [] && ParamsOf(env, request).Ok? {
      var q := ParseAsserting(ParamsOf(env, request).value);
      if q.Ok? {
        var cs := L.FindForRp(st.store.cache, q.value.rpId, q.value.allowed);
        BatchAddsNone(st.store, env, cs, |cs|, q.value.hash, q.value.allowed.None?);
      }
    }
  }

  /** What is known after more events is known before or the added id; and no known id is added. */
  lemma {:induction false} FreshConcat(cs0: seq<Credential>, a: seq<Event>, b: seq<Event>, id: seq<Byte>)
    requires Alone(b) && AddsOnce(b, id)
    requires L.FreshAdds(cs0, OpsOf(a)) && !L.Known(cs0, OpsOf(a), id)
    ensures L.FreshAdds(cs0, OpsOf(a + b))
    ensures forall x :: L.Known(cs0, OpsOf(a + b), x) ==> L.Known(cs0, OpsOf(a), x) || x == id
    ensures AddsNone(b) ==> !L.Known(cs0, OpsOf(a + b), id)
    decreases |b|
  {
    hide OpsOf, L.FreshAdds, L.Known;
    if b == [] {
      assert a + b == a;
    } else {
      var n: nat := |b| - 1;
      var init, e := b[..n], b[n];
      FreshConcat(cs0, a, init, id);
      assert a + b == (a + init) + [e];
      OpsOfSnoc(a + init, e);
      if AddsCredential(e) {
        forall x | x in init
          ensures !AddsCredential(x)
        {
          var i :| 0 <= i < n && init[i] == x;
          assert b[i] == x;
        }
      }
      FreshOne(cs0, OpsOf(a + init), e);
    }
  }

  /** One more event of a process that is alone. */
  lemma FreshOne(cs0: seq<Credential>, ops: seq<Op>, e: Event)
    requires L.FreshAdds(cs0, ops) && (e.Did? ==> e.others == [])
    requires AddsCredential(e) ==> !L.Known(cs0, ops, e.op.credential.credentialId)
    ensures var ops' := ops + if e.Did? then e.others + (if e.access.Full? then [e.op] else []) else [];
            && L.FreshAdds(cs0, ops')
            && (forall x :: L.Known(cs0, ops', x) ==>
                  L.Known(cs0, ops, x) || (AddsCredential(e) && x == e.op.credential.credentialId))
  {
    if e.Did? && e.access.Full? {
      assert e.others + [e.op] == [e.op];
      assert (ops + [e.op])[..|ops|] == ops;
    } else {
      assert e.Did? ==> e.others + [] == [];
      assert ops + [] == ops;
    }
  }

  /** The id of a call: of one that the store began with, or of one that was made. */
  ghost predicate IsGiven(cs0: seq<Credential>, calls: seq<Call>, id: seq<Byte>) {
    IndexOf(cs0, id) < |cs0| || exists j :: 0 <= j < |calls| && calls[j].env.id == id
  }

  lemma {:induction false} FreshRun(st0: State, cs0: seq<Credential>, calls: seq<Call>)
    requires AllCalm(calls) && NewIds(cs0, calls)
    ensures L.FreshAdds(cs0, OpsOf(Events(st0, calls)))
    ensures forall id :: L.Known(cs0, OpsOf(Events(st0, calls)), id) ==> IsGiven(cs0, calls, id)
    decreases |calls|
  {
    hide HandleCbor, OpsOf, L.FreshAdds, L.Known, Calm, Alone, AddsOnce;
    if calls == [] {
      NothingAdded(cs0);
    } else {
      var n: nat := |calls| - 1;
      var init, last := calls[..n], calls[n];
      assert AllCalm(init) && Calm(last.env);
      assert NewIds(cs0, init);
      FreshRun(st0, cs0, init);
      var st := StateAfter(st0, init);
      CallNoOthers(st, last.env, last.request);
      CallAddsOnce(st, last.env, last.request);
      assert !IsGiven(cs0, init, last.env.id);
      FreshConcat(cs0, Events(st0, init), OutOf(st0, calls, n).events, last.env.id);
      forall id | L.Known(cs0, OpsOf(Events(st0, calls)), id)
        ensures IsGiven(cs0, calls, id)
      {
        if id == last.env.id { assert calls[n].env.id == id; } else { GivenLater(cs0, calls, id); }
      }
    }
  }

  lemma GivenLater(cs0: seq<Credential>, calls: seq<Call>, id: seq<Byte>)
    requires calls != [] && IsGiven(cs0, calls[..|calls| - 1], id)
    ensures IsGiven(cs0, calls, id)
  {
    var init := calls[..|calls| - 1];
    if j :| 0 <= j < |init| && init[j].env.id == id { assert calls[j].env.id == id; }
  }

  lemma NothingAdded(cs0: seq<Credential>)
    ensures OpsOf([]) == [] && L.FreshAdds(cs0, [])
    ensures forall id :: L.Known(cs0, [], id) ==> IsGiven(cs0, [], id)
  {
  }

  // ---------- the counts ----------

  /** A calm run stays in step, no counter exceeds the bound by more than its calls, and what counts is answered. */
  lemma CalmRun(st0: State, calls: seq<Call>, bound: nat)
    requires CalmStart(st0, calls, bound)
    ensures var s := StateAfter(st0, calls).store;
            InStep(s) && L.DistinctIds(s.cache) && AtMost(s.cache, bound + |calls|)
    ensures Finishes(st0, calls) && Alone(Events(st0, calls))
    ensures L.FreshAdds(st0.store.cache, OpsOf(Events(st0, calls)))
  {
    hide L.FreshAdds, OpsOf, Events, StateAfter, InStep, L.DistinctIds, Finishes, Alone, L.Known;
    FreshRun(st0, st0.store.cache, calls);
    CalmRunIfFresh(st0, calls, bound);
    RunNoOthers(st0, calls);
  }

  /**
   If nobody else uses the store, every write and every signature succeeds, ids are new and no counter can run out,
   then the assertions of a credential hold the counter it came with plus one, two, three and so on.
   */
  lemma CountersCountAssertions(st0: State, calls: seq<Call>, bound: nat, j: nat, id: seq<Byte>)
    requires CalmStart(st0, calls, bound)
    requires j < |Events(st0, calls)| && IsAsserted(Events(st0, calls)[j], id)
    ensures Events(st0, calls)[j].assertion.authData.counter
            == L.Base(st0.store.cache, OpsOf(Events(st0, calls)), id) + AssertedCount(Events(st0, calls)[..j + 1], id)
  {
    hide Events, OpsOf, L.DistinctIds, L.FreshAdds, L.Base, AssertedCount, Alone, Finishes;
    CalmRun(st0, calls, bound);
    CountsIfFinished(st0, st0.store.cache, calls, j, id);
  }

  /** Under the same conditions the assertions of a credential made in the run hold 1, 2, 3 and so on. */
  lemma NewCredentialsCountFromOne(st0: State, calls: seq<Call>, bound: nat, j: nat, id: seq<Byte>)
    requires CalmStart(st0, calls, bound) && IndexOf(st0.store.cache, id) == |st0.store.cache|
    requires j < |Events(st0, calls)| && IsAsserted(Events(st0, calls)[j], id)
    ensures Events(st0, calls)[j].assertion.authData.counter == AssertedCount(Events(st0, calls)[..j + 1], id)
  {
    hide Events, OpsOf, L.DistinctIds, L.FreshAdds, L.Base, AssertedCount, Alone, Finishes;
    CalmRun(st0, calls, bound);
    CountsFromOneIfFinished(st0, st0.store.cache, calls, j, id);
  }
}
