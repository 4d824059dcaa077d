/** The counters inside the assertions of a whole run of commands, with other processes at the same file. */
module AuthenticatorCounters {
  import opened Bytes
  import opened CredentialStore
  import opened AuthenticatorRequests
  import opened Authenticator
  import opened AuthenticatorGate
  import L = StoreLaws
  import V = FaceVerifier

  /** Everything a run does, in order. */
  function Events(st0: State, calls: seq<Call>): seq<Event> {
    if calls == [] then []
    else Events(st0, calls[..|calls| - 1]) + OutOf(st0, calls, |calls| - 1).events
  }

  /** The operations on the file, of this process and of others, in order; one that is not saved is not among them. */
  function OpsOf(events: seq<Event>): seq<Op> {
    if events == [] then []
    else
      var last := events[|events| - 1];
      OpsOf(events[..|events| - 1])
      + if last.Did? then last.others + (if last.access.Full? then [last.op] else []) else []
  }

  /** Each reply in the events is what the operation replies at its place among all operations. */
  ghost predicate Sound(f: File, events: seq<Event>) {
    forall k :: 0 <= k < |events| && events[k].Did? ==>
      events[k].reply
      == Attempt(L.ApplyAll(f, OpsOf(events[..k]) + events[k].others).0, events[k].op, events[k].access).1
  }

  /** Events that turn one file into another. */
  ghost predicate Leads(f: File, events: seq<Event>, f': File) {
    Sound(f, events) && f' == L.ApplyAll(f, OpsOf(events)).0
  }

  lemma OpsOfSnoc(events: seq<Event>, e: Event)
    ensures OpsOf(events + [e])
            == OpsOf(events) + if e.Did? then e.others + (if e.access.Full? then [e.op] else []) else []
  {
    assert (events + [e])[..|events + [e]| - 1] == events;
  }

  lemma SoundSnoc(f: File, events: seq<Event>, e: Event)
    requires Sound(f, events)
    requires e.Did? ==> e.reply == Attempt(L.ApplyAll(f, OpsOf(events) + e.others).0, e.op, e.access).1
    ensures Sound(f, events + [e])
  {
    hide Attempt, OpsOf, L.ApplyAll;
    var events' := events + [e];
    forall k | 0 <= k < |events'| && events'[k].Did?
      ensures events'[k].reply
              == Attempt(L.ApplyAll(f, OpsOf(events'[..k]) + events'[k].others).0, events'[k].op, events'[k].access).1
    {
      assert events'[..k] == events[..k];
      assert k == |events| ==> events[..k] == events;
    }
  }

  lemma LeadsSnoc(f: File, events: seq<Event>, f': File, e: Event)
    requires Leads(f, events, f')
    requires e.Did? ==> e.reply == Attempt(L.ApplyAll(f', e.others).0, e.op, e.access).1
    ensures Leads(f, events + [e], if e.Did? then Attempt(L.ApplyAll(f', e.others).0, e.op, e.access).0 else f')
  {
    hide Apply, OpsOf, L.ApplyAll, Sound;
    OpsOfSnoc(events, e);
    if e.Did? {
      var ops := OpsOf(events) + e.others;
      L.ApplyAllConcat(f, OpsOf(events), e.others);
      if e.access.Full? {
        L.ApplyAllSnoc(f, ops, e.op);
        assert OpsOf(events) + (e.others + [e.op]) == ops + [e.op];
      } else {
        L.UnsavedLeavesFile(L.ApplyAll(f', e.others).0, e.op, e.access);
        assert OpsOf(events) + (e.others + []) == ops;
      }
      hide Attempt;
    } else {
      assert OpsOf(events) + [] == OpsOf(events);
    }
    SoundSnoc(f, events, e);
  }

  /** What a step of the authenticator adds to the events leads on from its file to its new file. */
  ghost predicate Extends(f: File, file: File, more: seq<Event>, file': File) {
    forall events :: Leads(f, events, file) ==> Leads(f, events + more, file')
  }

  lemma NoneExtends(f: File, file: File)
    ensures Extends(f, file, [], file)
  {
    forall events | Leads(f, events, file)
      ensures Leads(f, events + [], file)
    {
      assert events + [] == events;
    }
  }

  lemma OneExtends(f: File, file: File, e: Event)
    requires e.Did? ==> e.reply == Attempt(L.ApplyAll(file, e.others).0, e.op, e.access).1
    ensures Extends(f, file, [e], if e.Did? then Attempt(L.ApplyAll(file, e.others).0, e.op, e.access).0 else file)
  {
    hide Attempt, Leads;
    forall events | Leads(f, events, file)
      ensures Leads(f, events + [e], if e.Did? then Attempt(L.ApplyAll(file, e.others).0, e.op, e.access).0 else file)
    {
      LeadsSnoc(f, events, file, e);
    }
  }

  lemma ExtendsOn(f: File, file: File, a: seq<Event>, file': File, b: seq<Event>, file'': File)
    requires Extends(f, file, a, file') && Extends(f, file', b, file'')
    ensures Extends(f, file, a + b, file'')
  {
    hide Leads;
    forall events | Leads(f, events, file)
      ensures Leads(f, events + (a + b), file'')
    {
      assert events + (a + b) == (events + a) + b;
      assert Leads(f, events + a, file');
    }
  }

  /** A store operation followed by events that are not store operations. */
  lemma DidExtends(f: File, s: Store, others: seq<Op>, op: Op, access: Access, more: seq<Event>)
    requires forall e :: e in more ==> !e.Did?
    ensures var (s', reply) := StoreDo(s, others, op, access);
            Extends(f, s.file, [Did(others, op, access, reply)] + more, s'.file)
  {
    hide Attempt, Extends, CacheAfter, L.ApplyAll;
    var (s', reply) := StoreDo(s, others, op, access);
    OneExtends(f, s.file, Did(others, op, access, reply));
    QuietExtends(f, s'.file, more);
    ExtendsOn(f, s.file, [Did(others, op, access, reply)], s'.file, more, s'.file);
  }

  lemma {:induction false} QuietExtends(f: File, file: File, more: seq<Event>)
    requires forall e :: e in more ==> !e.Did?
    ensures Extends(f, file, more, file)
    decreases |more|
  {
    hide Extends;
    if more == [] {
      NoneExtends(f, file);
    } else {
      var init, last := more[..|more| - 1], more[|more| - 1];
      QuietExtends(f, file, init);
      OneExtends(f, file, last);
      ExtendsOn(f, file, init, file, [last], file);
      assert more == init + [last];
    }
  }

  lemma AssertCredentialExtends(
    f: File, s: Store, env: Env, i: nat, c: Credential, hash: seq<Byte>, disc: bool, total: nat)
    ensures var t := AssertCredential(s, env, i, c, hash, disc, total);
            Extends(f, s.file, t.events, t.store.file)
  {
    hide Extends, StoreDo;
    var t := AssertCredential(s, env, i, c, hash, disc, total);
    DidExtends(f, s, env.others(i), Increment(c.credentialId), env.access(i), t.events[1..]);
    assert t.events == [t.events[0]] + t.events[1..];
  }

  lemma {:induction false} AssertFirstExtends(
    f: File, s: Store, env: Env, cs: seq<Credential>, n: nat, hash: seq<Byte>, disc: bool)
    requires n <= |cs|
    ensures var b := AssertFirst(s, env, cs, n, hash, disc); Extends(f, s.file, b.events, b.store.file)
  {
    hide Extends, AssertCredential;
    if n == 0 {
      NoneExtends(f, s.file);
    } else {
      AssertFirstExtends(f, s, env, cs, n - 1, hash, disc);
      var b := AssertFirst(s, env, cs, n - 1, hash, disc);
      if b.assertions.Some? {
        AssertCredentialExtends(f, b.store, env, n - 1, cs[n - 1], hash, disc, |cs|);
        var t := AssertCredential(b.store, env, n - 1, cs[n - 1], hash, disc, |cs|);
        ExtendsOn(f, s.file, b.events, b.store.file, t.events, t.store.file);
      }
    }
  }

  lemma CreateExtends(f: File, st: State, env: Env, m: Making)
    ensures var o := Create(st, env, m); Extends(f, st.store.file, o.events, o.state.store.file)
  {
    hide Extends, StoreDo;
    var o := Create(st, env, m);
    if o.events == [] {
      NoneExtends(f, st.store.file);
    } else {
      DidExtends(f, st.store, env.others(0), Add(NewCredential(env, m)), env.access(0), o.events[1..]);
      assert o.events == [o.events[0]] + o.events[1..];
    }
  }

  lemma MakingExtends(f: File, st: State, env: Env, p: Params)
    ensures var o := MakeCredential(st, env, p); Extends(f, st.store.file, o.events, o.state.store.file)
  {
    hide Extends, ParseMaking, Excluded, Create;
    NoneExtends(f, st.store.file);
    QuietExtends(f, st.store.file, [Verified(env.verdict)]);
    var m := ParseMaking(p);
    if m.Ok? {
      CreateExtends(f, st, env, m.value);
      var o := Create(st, env, m.value);
      ExtendsOn(f, st.store.file, [Verified(env.verdict)], st.store.file, o.events, o.state.store.file);
    }
  }

  lemma GetAssertionExtends(f: File, st: State, env: Env, p: Params)
    ensures var o := GetAssertion(st, env, p); Extends(f, st.store.file, o.events, o.state.store.file)
  {
    hide Extends, ParseAsserting, L.FindForRp, AssertFirst, SilentAssertion;
    NoneExtends(f, st.store.file);
    QuietExtends(f, st.store.file, [Verified(env.verdict)]);
    var q := ParseAsserting(p);
    if q.Ok? {
      var cs := L.FindForRp(st.store.cache, q.value.rpId, q.value.allowed);
      if cs != [] {
        SilentIsGated(env, cs[0], q.value.hash);
        QuietExtends(f, st.store.file, SilentAssertion(env, cs[0], q.value.hash).0);
        AssertFirstExtends(f, st.store, env, cs, |cs|, q.value.hash, q.value.allowed.None?);
        var b := AssertFirst(st.store, env, cs, |cs|, q.value.hash, q.value.allowed.None?);
        ExtendsOn(f, st.store.file, [Verified(env.verdict)], st.store.file, b.events, b.store.file);
      }
    }
  }

  lemma ResetExtends(f: File, st: State, env: Env)
    ensures var o := Reset(st, env); Extends(f, st.store.file, o.events, o.state.store.file)
  {
    hide Extends, StoreDo;
    NoneExtends(f, st.store.file);
    QuietExtends(f, st.store.file, [Verified(env.verdict)]);
    var (store, reply) := StoreDo(st.store, env.others(0), DestroyAll, env.access(0));
    var did := [Did(env.others(0), DestroyAll, env.access(0), reply)];
    DidExtends(f, st.store, env.others(0), DestroyAll, env.access(0), []);
    assert did + [] == did;
    ExtendsOn(f, st.store.file, [Verified(env.verdict)], st.store.file, did, store.file);
    assert [Verified(env.verdict)] + did == [Verified(env.verdict), did[0]];
  }

  lemma CallExtends(f: File, st: State, env: Env, request: seq<Byte>)
    ensures var o := HandleCbor(st, env, request); Extends(f, st.store.file, o.events, o.state.store.file)
  {
    hide Extends, ParamsOf, MakeCredential, GetAssertion, Reset;
    NoneExtends(f, st.store.file);
    if request != [] && ParamsOf(env, request).Ok? {
      var p := ParamsOf(env, request).value;
      MakingExtends(f, st, env, p);
      GetAssertionExtends(f, st, env, p);
      ResetExtends(f, st, env);
      QuietExtends(f, st.store.file, [Verified(env.verdict)]);
    }
  }

  /** The file of a run is what all operations make of the first file, and every reply fits its place. */
  lemma {:induction false} RunLeads(st0: State, calls: seq<Call>)
    ensures Leads(st0.store.file, Events(st0, calls), StateAfter(st0, calls).store.file)
    decreases |calls|
  {
    hide HandleCbor, Leads;
    var f := st0.store.file;
    if calls == [] {
      NothingLeads(f);
    } else {
      var n := |calls| - 1;
      RunLeads(st0, calls[..n]);
      var st := StateAfter(st0, calls[..n]);
      CallExtends(f, st, calls[n].env, calls[n].request);
    }
  }

  lemma NothingLeads(f: File)
    ensures Leads(f, [], f)
  {
  }

  // ---------- assertions and the increments they come from ----------

  /** An assertion that claims the user, of this credential. */
  predicate IsAsserted(e: Event, id: seq<Byte>) {
    e.Finished? && e.assertion.authData.up && e.assertion.credentialId == id
  }

  predicate IsCounted(e: Event, id: seq<Byte>) {
    e.Did? && e.op == Increment(id) && e.reply.Counter?
  }

  /** Every assertion that claims the user holds the counter that its credential was just given. */
  ghost predicate Paired(events: seq<Event>) {
    forall i :: 0 <= i < |events| && events[i].Finished? && events[i].assertion.authData.up ==>
      i >= 2 && IsCounted(events[i - 2], events[i].assertion.credentialId)
      && events[i - 2].reply.value == events[i].assertion.authData.counter
  }

  /** Every successful increment went into an assertion. */
  ghost predicate AllAsserted(events: seq<Event>) {
    forall i, id :: 0 <= i < |events| && IsCounted(events[i], id) ==>
      i + 2 < |events| && IsAsserted(events[i + 2], id)
  }

  lemma PairedConcat(a: seq<Event>, b: seq<Event>)
    requires Paired(a) && Paired(b)
    ensures Paired(a + b)
    ensures AllAsserted(a) && AllAsserted(b) ==> AllAsserted(a + b)
  {
    var ab := a + b;
    forall i | 0 <= i < |ab| && ab[i].Finished? && ab[i].assertion.authData.up
      ensures i >= 2 && IsCounted(ab[i - 2], ab[i].assertion.credentialId)
      ensures ab[i - 2].reply.value == ab[i].assertion.authData.counter
    {
      if i < |a| { assert a[i] == ab[i]; } else { assert b[i - |a|] == ab[i]; }
    }
    if AllAsserted(a) && AllAsserted(b) {
      forall i, id | 0 <= i < |ab| && IsCounted(ab[i], id)
        ensures i + 2 < |ab| && IsAsserted(ab[i + 2], id)
      {
        if i < |a| { assert a[i] == ab[i]; } else { assert b[i - |a|] == ab[i]; }
      }
    }
  }

  lemma AssertCredentialPairs(s: Store, env: Env, i: nat, c: Credential, hash: seq<Byte>, disc: bool, total: nat)
    ensures var t := AssertCredential(s, env, i, c, hash, disc, total);
            Paired(t.events) && (t.assertion.Some? ==> AllAsserted(t.events))
  {
    hide StoreDo;
  }

  lemma {:induction false} AssertFirstPairs(
    s: Store, env: Env, cs: seq<Credential>, n: nat, hash: seq<Byte>, disc: bool)
    requires n <= |cs|
    ensures var b := AssertFirst(s, env, cs, n, hash, disc);
            Paired(b.events) && (b.assertions.Some? ==> AllAsserted(b.events))
  {
    hide AssertCredential;
    if n > 0 {
      AssertFirstPairs(s, env, cs, n - 1, hash, disc);
      var b := AssertFirst(s, env, cs, n - 1, hash, disc);
      if b.assertions.Some? {
        AssertCredentialPairs(b.store, env, n - 1, cs[n - 1], hash, disc, |cs|);
        var t := AssertCredential(b.store, env, n - 1, cs[n - 1], hash, disc, |cs|);
        hide Paired, AllAsserted;
        PairedConcat(b.events, t.events);
      }
    }
  }

  ghost predicate NoCounting(events: seq<Event>) {
    forall e :: e in events ==>
      !(e.Did? && e.op.Increment?) && !(e.Finished? && e.assertion.authData.up)
  }

  lemma NoCountingPairs(events: seq<Event>)
    requires NoCounting(events)
    ensures Paired(events) && AllAsserted(events)
  {
  }

  lemma GetAssertionPairs(st: State, env: Env, p: Params)
    ensures var o := GetAssertion(st, env, p);
            Paired(o.events) && (o.answer.Answered? ==> AllAsserted(o.events))
  {
    hide ParseAsserting, L.FindForRp, AssertFirst, Paired, AllAsserted;
    var checked := [Verified(env.verdict)];
    NoCountingPairs([]);
    NoCountingPairs(checked);
    var q := ParseAsserting(p);
    if q.Ok? {
      var cs := L.FindForRp(st.store.cache, q.value.rpId, q.value.allowed);
      if cs != [] {
        NoCountingPairs(SilentAssertion(env, cs[0], q.value.hash).0);
        hide SilentAssertion;
        AssertFirstPairs(st.store, env, cs, |cs|, q.value.hash, q.value.allowed.None?);
        PairedConcat(checked, AssertFirst(st.store, env, cs, |cs|, q.value.hash, q.value.allowed.None?).events);
      }
    }
  }

  lemma MakingNeverCounts(st: State, env: Env, p: Params)
    ensures NoCounting(MakeCredential(st, env, p).events)
  {
    hide ParseMaking, Excluded, StoreDo;
  }

  lemma CallPairs(st: State, env: Env, request: seq<Byte>)
    ensures var o := HandleCbor(st, env, request);
            Paired(o.events) && (o.answer.Answered? || NoCounting(o.events) ==> AllAsserted(o.events))
  {
    hide ParamsOf, MakeCredential, GetAssertion, Paired, AllAsserted;
    var o := HandleCbor(st, env, request);
    if request != [] && ParamsOf(env, request).Ok? {
      MakingNeverCounts(st, env, ParamsOf(env, request).value);
      GetAssertionPairs(st, env, ParamsOf(env, request).value);
    }
    if NoCounting(o.events) { NoCountingPairs(o.events); }
  }

  /** A call that counted was answered: no signature and no write of it failed half-way. */
  ghost predicate Finishes(st0: State, calls: seq<Call>) {
    forall k :: 0 <= k < |calls| ==> OutOf(st0, calls, k).answer.Answered? || NoCounting(OutOf(st0, calls, k).events)
  }

  lemma {:induction false} RunPairs(st0: State, calls: seq<Call>)
    ensures Paired(Events(st0, calls))
    ensures Finishes(st0, calls) ==> AllAsserted(Events(st0, calls))
    decreases |calls|
  {
    hide HandleCbor, Paired, AllAsserted, NoCounting;
    if calls == [] {
      EmptyNeverCounts();
      NoCountingPairs([]);
    } else {
      var n: nat := |calls| - 1;
      var init := calls[..n];
      RunPairs(st0, init);
      CallPairs(StateAfter(st0, init), calls[n].env, calls[n].request);
      PairedConcat(Events(st0, init), OutOf(st0, calls, n).events);
      if Finishes(st0, calls) {
        forall k | 0 <= k < |init|
          ensures OutOf(st0, init, k).answer.Answered? || NoCounting(OutOf(st0, init, k).events)
        {
          OutOfPrefix(st0, calls, n, k);
        }
      }
    }
  }

  lemma EmptyNeverCounts()
    ensures NoCounting([])
  {
  }

  // ---------- strictly increasing ----------

  lemma {:induction false} OpsOfPrefix(events: seq<Event>, n: nat)
    requires n <= |events|
    ensures OpsOf(events[..n]) <= OpsOf(events)
    decreases |events|
  {
    if n == |events| {
      assert events[..n] == events;
    } else {
      assert events[..|events| - 1][..n] == events[..n];
      OpsOfPrefix(events[..|events| - 1], n);
    }
  }

  /** Where an operation of the events stands among all operations. */
  function Place(events: seq<Event>, k: nat): int
    requires k < |events|
  {
    |OpsOf(events[..k + 1])| - 1
  }

  lemma PlaceFits(f: File, events: seq<Event>, k: nat)
    requires Sound(f, events) && k < |events| && events[k].Did? && events[k].access.Full?
    ensures 0 <= Place(events, k) < |OpsOf(events)|
    ensures OpsOf(events)[..Place(events, k) + 1] == OpsOf(events[..k + 1])
    ensures OpsOf(events)[Place(events, k)] == events[k].op
    ensures L.ApplyAll(f, OpsOf(events)).1[Place(events, k)] == events[k].reply
    ensures L.ApplyAll(f, OpsOf(events[..k + 1])).1[Place(events, k)] == events[k].reply
  {
    hide Apply, L.ApplyAll, OpsOf;
    var e := events[k];
    var ops := OpsOf(events[..k]) + e.others;
    assert events[..k + 1] == events[..k] + [e];
    OpsOfSnoc(events[..k], e);
    assert OpsOf(events[..k + 1]) == ops + [e.op];
    OpsOfPrefix(events, k + 1);
    L.ApplyAllSnoc(f, ops, e.op);
    L.ReplyPrefix(f, OpsOf(events), |ops| + 1);
  }

  lemma PlacesIncrease(events: seq<Event>, i: nat, j: nat)
    requires i < j < |events| && events[j].Did? && events[j].access.Full?
    ensures Place(events, i) < Place(events, j)
  {
    hide OpsOf;
    assert events[..j + 1] == events[..j] + [events[j]];
    OpsOfSnoc(events[..j], events[j]);
    assert events[..j][..i + 1] == events[..i + 1];
    OpsOfPrefix(events[..j], i + 1);
  }

  /** Only an operation that is saved counts. */
  lemma CountedIsSaved(f: File, events: seq<Event>, k: nat, id: seq<Byte>)
    requires Sound(f, events) && k < |events| && IsCounted(events[k], id)
    ensures events[k].access.Full?
  {
    hide Attempt, OpsOf, L.ApplyAll;
    if !events[k].access.Full? {
      L.UnsavedLeavesFile(L.ApplyAll(f, OpsOf(events[..k]) + events[k].others).0, events[k].op, events[k].access);
    }
  }

  /** The counter of an assertion is a reply among the replies to all operations. */
  lemma AssertedReply(f: File, events: seq<Event>, i: nat, id: seq<Byte>)
    requires Sound(f, events) && Paired(events) && i < |events| && IsAsserted(events[i], id)
    ensures i >= 2 && events[i - 2].Did? && events[i - 2].access.Full?
    ensures var p := Place(events, i - 2);
            && 0 <= p < |OpsOf(events)| && OpsOf(events)[p] == Increment(id)
            && L.ApplyAll(f, OpsOf(events)).1[p] == Counter(events[i].assertion.authData.counter)
  {
    hide OpsOf, Sound, Apply, L.ApplyAll, Place;
    CountedIsSaved(f, events, i - 2, id);
    PlaceFits(f, events, i - 2);
  }

  lemma IncreasingIn(f: File, cs0: seq<Credential>, events: seq<Event>, i: nat, j: nat, id: seq<Byte>)
    requires Sound(f, events) && Paired(events)
    requires Loaded(f) == Some(cs0) && L.DistinctIds(cs0) && L.FreshAdds(cs0, OpsOf(events))
    requires i < j < |events| && IsAsserted(events[i], id) && IsAsserted(events[j], id)
    ensures events[i].assertion.authData.counter < events[j].assertion.authData.counter
  {
    hide OpsOf, L.DistinctIds, L.FreshAdds, Apply, L.ApplyAll, Place, Sound, Paired, Loaded;
    AssertedReply(f, events, i, id);
    AssertedReply(f, events, j, id);
    PlacesIncrease(events, i - 2, j - 2);
    var p, q := Place(events, i - 2), Place(events, j - 2);
    L.CountersIncrease(cs0, OpsOf(events), f, p, q, id);
  }

  /**
   Over any run of commands, with any operations of other processes in between, the counters inside the
   assertions of one credential strictly increase, if no id is ever added twice.
   */
  lemma CountersStrictlyIncrease(
    st0: State, cs0: seq<Credential>, calls: seq<Call>, i: nat, j: nat, id: seq<Byte>)
    requires Loaded(st0.store.file) == Some(cs0) && L.DistinctIds(cs0)
    requires L.FreshAdds(cs0, OpsOf(Events(st0, calls)))
    requires i < j < |Events(st0, calls)|
    requires IsAsserted(Events(st0, calls)[i], id) && IsAsserted(Events(st0, calls)[j], id)
    ensures Events(st0, calls)[i].assertion.authData.counter < Events(st0, calls)[j].assertion.authData.counter
  {
    hide Events, OpsOf, L.DistinctIds, L.FreshAdds, Paired, Sound, Loaded, L.ApplyAll, IsAsserted;
    RunLeads(st0, calls);
    RunPairs(st0, calls);
    IncreasingIn(st0.store.file, cs0, Events(st0, calls), i, j, id);
  }

  // ---------- exactly one, two, three ----------

  function AssertedCount(events: seq<Event>, id: seq<Byte>): nat {
    if events == [] then 0
    else
      AssertedCount(events[..|events| - 1], id) + if IsAsserted(events[|events| - 1], id) then 1 else 0
  }

  function CountedCount(events: seq<Event>, id: seq<Byte>): nat {
    if events == [] then 0
    else CountedCount(events[..|events| - 1], id) + if IsCounted(events[|events| - 1], id) then 1 else 0
  }

  /** Nobody else used the store. */
  ghost predicate Alone(events: seq<Event>) {
    forall e :: e in events && e.Did? ==> e.others == []
  }

  lemma AssertedSnoc(events: seq<Event>, n: nat, id: seq<Byte>)
    requires n < |events|
    ensures AssertedCount(events[..n + 1], id)
            == AssertedCount(events[..n], id) + if IsAsserted(events[n], id) then 1 else 0
  {
    assert events[..n + 1][..n] == events[..n];
  }

  lemma SuccessesSnoc(ops: seq<Op>, replies: seq<Reply>, op: Op, reply: Reply, id: seq<Byte>)
    requires |ops| == |replies|
    ensures L.Successes(ops + [op], replies + [reply], id)
            == L.Successes(ops, replies, id) + if op == Increment(id) && reply.Counter? then 1 else 0
  {
    assert (ops + [op])[..|ops|] == ops && (replies + [reply])[..|ops|] == replies;
  }

  /** With every increment asserted, as many assertions follow two events behind the increments. */
  lemma {:induction false} CountsAgree(events: seq<Event>, n: nat, id: seq<Byte>)
    requires Paired(events) && AllAsserted(events) && n + 2 <= |events|
    ensures CountedCount(events[..n], id) == AssertedCount(events[..n + 2], id)
  {
    AssertedSnoc(events, n + 1, id);
    if n == 0 {
      AssertedSnoc(events, 0, id);
      assert AssertedCount(events[..0], id) == 0;
      assert !IsAsserted(events[0], id) && !IsAsserted(events[1], id);
    } else {
      CountsAgree(events, n - 1, id);
      assert events[..n][..n - 1] == events[..n - 1];
      assert IsAsserted(events[n + 1], id) ==> IsCounted(events[n - 1], id);
      assert IsCounted(events[n - 1], id) ==> IsAsserted(events[n + 1], id);
    }
  }

  lemma {:induction false} CountedIsSuccesses(f: File, events: seq<Event>, id: seq<Byte>)
    requires Sound(f, events) && Alone(events)
    ensures L.Successes(OpsOf(events), L.ApplyAll(f, OpsOf(events)).1, id) == CountedCount(events, id)
  {
    hide Apply, L.Successes, L.ApplyAll, OpsOf, Sound;
    if events == [] {
      NothingSucceeds(f, id);
    } else {
      var n: nat := |events| - 1;
      var e := events[n];
      SoundPrefix(f, events, n);
      CountedIsSuccesses(f, events[..n], id);
      assert events == events[..n] + [e];
      OpsOfSnoc(events[..n], e);
      var ops := OpsOf(events[..n]);
      if e.Did? && e.access.Full? {
        assert ops + (e.others + [e.op]) == ops + [e.op] && ops + e.others == ops;
        L.ApplyAllSnoc(f, ops, e.op);
        assert e.reply == Attempt(L.ApplyAll(f, ops + e.others).0, e.op, Full).1 by { SoundLast(f, events); }
        SuccessesSnoc(ops, L.ApplyAll(f, ops).1, e.op, e.reply, id);
      } else {
        if IsCounted(e, id) { CountedIsSaved(f, events, n, id); }
        assert e.Did? ==> e.others + [] == [];
        assert ops + [] == ops;
      }
    }
  }

  lemma NothingSucceeds(f: File, id: seq<Byte>)
    ensures OpsOf([]) == [] && L.Successes([], L.ApplyAll(f, []).1, id) == 0
  {
  }

  lemma SoundLast(f: File, events: seq<Event>)
    requires Sound(f, events) && events != [] && events[|events| - 1].Did?
    ensures var n, e := |events| - 1, events[|events| - 1];
            e.reply == Attempt(L.ApplyAll(f, OpsOf(events[..n]) + e.others).0, e.op, e.access).1
  {
    hide Apply, L.ApplyAll, OpsOf;
  }

  lemma SoundPrefix(f: File, events: seq<Event>, n: nat)
    requires Sound(f, events) && n <= |events|
    ensures Sound(f, events[..n])
  {
    hide Apply, L.ApplyAll, OpsOf;
    forall k | 0 <= k < n && events[..n][k].Did?
      ensures events[k].reply
              == Attempt(L.ApplyAll(f, OpsOf(events[..n][..k]) + events[k].others).0, events[k].op, events[k].access).1
    {
      assert events[..n][..k] == events[..k];
    }
  }

  /**
   If nobody else uses the store and no call fails after it counted, the assertions of a credential hold the
   counter it came with plus one, two, three and so on.
   */
  lemma CountsIfFinished(st0: State, cs0: seq<Credential>, calls: seq<Call>, j: nat, id: seq<Byte>)
    requires Loaded(st0.store.file) == Some(cs0) && L.DistinctIds(cs0)
    requires L.FreshAdds(cs0, OpsOf(Events(st0, calls)))
    requires Alone(Events(st0, calls)) && Finishes(st0, calls)
    requires j < |Events(st0, calls)| && IsAsserted(Events(st0, calls)[j], id)
    ensures Events(st0, calls)[j].assertion.authData.counter
            == L.Base(cs0, OpsOf(Events(st0, calls)), id) + AssertedCount(Events(st0, calls)[..j + 1], id)
  {
    hide Events, OpsOf, L.DistinctIds, L.FreshAdds, Sound, Paired, AllAsserted, Alone, L.ApplyAll, L.Base, L.Successes,
      Finishes, AssertedCount, CountedCount;
    var f, events := st0.store.file, Events(st0, calls);
    RunLeads(st0, calls);
    RunPairs(st0, calls);
    AssertedCountsSuccesses(f, cs0, events, j, id);
    SoundPrefix(f, events, j - 1);
    assert Alone(events[..j - 1]) by { AlonePrefix(events, j - 1); }
    CountedIsSuccesses(f, events[..j - 1], id);
    CountsAgree(events, j - 1, id);
  }

  lemma AlonePrefix(events: seq<Event>, n: nat)
    requires Alone(events) && n <= |events|
    ensures Alone(events[..n])
  {
  }

  /** The counter of an assertion is the one that its increment replied with. */
  lemma AssertedCountsSuccesses(f: File, cs0: seq<Credential>, events: seq<Event>, j: nat, id: seq<Byte>)
    requires Loaded(f) == Some(cs0) && L.DistinctIds(cs0) && L.FreshAdds(cs0, OpsOf(events))
    requires Sound(f, events) && Paired(events) && j < |events| && IsAsserted(events[j], id)
    ensures j >= 2
    ensures var ops := OpsOf(events[..j - 1]);
            events[j].assertion.authData.counter
            == L.Base(cs0, OpsOf(events), id) + L.Successes(ops, L.ApplyAll(f, ops).1, id)
  {
    hide OpsOf, L.DistinctIds, L.FreshAdds, Sound, Paired, L.ApplyAll, L.Base, L.Known, L.Successes, Place, IsAsserted;
    AssertedReply(f, events, j, id);
    var p := Place(events, j - 2);
    PlaceFits(f, events, j - 2);
    L.IncrementReply(cs0, OpsOf(events), f, p, id);
    L.BaseKept(cs0, OpsOf(events), id, p);
  }

  /** No call adds a credential with a counter. */
  ghost predicate AddsZero(events: seq<Event>) {
    forall e :: e in events && e.Did? && e.op.Add? ==> e.op.credential.signCount == 0
  }

  lemma CallAddsZero(st: State, env: Env, request: seq<Byte>)
    ensures AddsZero(HandleCbor(st, env, request).events)
  {
    hide ParamsOf, MakeCredential, GetAssertion;
    if request != [] && ParamsOf(env, request).Ok? {
      MakingAddsZero(st, env, ParamsOf(env, request).value);
      GetAssertionAddsNothing(st, env, ParamsOf(env, request).value);
    }
  }

  lemma MakingAddsZero(st: State, env: Env, p: Params)
    ensures AddsZero(MakeCredential(st, env, p).events)
  {
    hide ParseMaking, Excluded, StoreDo;
  }

  lemma AssertCredentialAddsNothing(s: Store, env: Env, i: nat, c: Credential, hash: seq<Byte>, disc: bool, total: nat)
    ensures AddsZero(AssertCredential(s, env, i, c, hash, disc, total).events)
  {
    hide StoreDo;
  }

  lemma {:induction false} AssertFirstAddsNothing(
    s: Store, env: Env, cs: seq<Credential>, n: nat, hash: seq<Byte>, disc: bool)
    requires n <= |cs|
    ensures AddsZero(AssertFirst(s, env, cs, n, hash, disc).events)
  {
    hide AssertCredential;
    if n > 0 {
      AssertFirstAddsNothing(s, env, cs, n - 1, hash, disc);
      var b := AssertFirst(s, env, cs, n - 1, hash, disc);
      AssertCredentialAddsNothing(b.store, env, n - 1, cs[n - 1], hash, disc, |cs|);
    }
  }

  lemma GetAssertionAddsNothing(st: State, env: Env, p: Params)
    ensures AddsZero(GetAssertion(st, env, p).events)
  {
    hide ParseAsserting, L.FindForRp, AssertFirst;
    var q := ParseAsserting(p);
    if q.Ok? {
      var cs := L.FindForRp(st.store.cache, q.value.rpId, q.value.allowed);
      AssertFirstAddsNothing(st.store, env, cs, |cs|, q.value.hash, q.value.allowed.None?);
    }
  }

  lemma {:induction false} RunAddsZero(st0: State, calls: seq<Call>)
    ensures AddsZero(Events(st0, calls))
    decreases |calls|
  {
    hide HandleCbor;
    if calls != [] {
      var n := |calls| - 1;
      RunAddsZero(st0, calls[..n]);
      CallAddsZero(StateAfter(st0, calls[..n]), calls[n].env, calls[n].request);
    }
  }

  lemma {:induction false} NewBaseIsZero(cs0: seq<Credential>, events: seq<Event>, id: seq<Byte>)
    requires Alone(events) && AddsZero(events) && IndexOf(cs0, id) == |cs0|
    ensures L.Base(cs0, OpsOf(events), id) == 0
  {
    if events != [] {
      var n: nat := |events| - 1;
      var e := events[n];
      NewBaseIsZero(cs0, events[..n], id);
      if e.Did? && e.access.Full? {
        assert e in events;
        var ops := OpsOf(events[..n]) + [e.op];
        assert OpsOf(events) == ops by { assert e.others + [e.op] == [e.op]; }
        assert ops[..|ops| - 1] == OpsOf(events[..n]);
      } else {
        assert e.Did? ==> e in events && e.others + [] == [];
        assert OpsOf(events) == OpsOf(events[..n]) + [] == OpsOf(events[..n]);
      }
    }
  }

  /** The assertions of a credential made in the run count 1, 2, 3 under the same conditions. */
  lemma CountsFromOneIfFinished(st0: State, cs0: seq<Credential>, calls: seq<Call>, j: nat, id: seq<Byte>)
    requires Loaded(st0.store.file) == Some(cs0) && L.DistinctIds(cs0) && IndexOf(cs0, id) == |cs0|
    requires L.FreshAdds(cs0, OpsOf(Events(st0, calls)))
    requires Alone(Events(st0, calls)) && Finishes(st0, calls)
    requires j < |Events(st0, calls)| && IsAsserted(Events(st0, calls)[j], id)
    ensures Events(st0, calls)[j].assertion.authData.counter == AssertedCount(Events(st0, calls)[..j + 1], id)
  {
    hide Events, OpsOf, L.DistinctIds, L.FreshAdds, L.Base, AssertedCount, Alone, Finishes, AddsZero;
    RunAddsZero(st0, calls);
    NewBaseIsZero(cs0, Events(st0, calls), id);
    CountsIfFinished(st0, cs0, calls, j, id);
  }

  // ---------- what one getAssertion does to the counters ----------

  /** The list with the counters of some of its credentials one higher. */
  ghost predicate Bumped(before: seq<Credential>, after: seq<Credential>, which: seq<Credential>) {
    && |after| == |before|
    && forall i :: 0 <= i < |before| ==>
         after[i] == before[i].(signCount := before[i].signCount + if before[i] in which then 1 else 0)
  }

  lemma {:induction false} DistinctOnce(cs: seq<Credential>, c: Credential)
    requires L.DistinctIds(cs)
    ensures multiset(cs)[c] <= 1
  {
    if cs != [] {
      var init, last := cs[..|cs| - 1], cs[|cs| - 1];
      DistinctOnce(init, c);
      assert cs == init + [last];
      assert last !in init;
    }
  }

  lemma OnceMeansDistinct(cs: seq<Credential>, n: nat)
    requires n < |cs| && forall c :: multiset(cs)[c] <= 1
    ensures cs[n] !in cs[..n]
  {
    assert cs == cs[..n] + [cs[n]] + cs[n + 1..];
    assert multiset(cs)[cs[n]] <= 1;
  }

  lemma BumpedIndex(before: seq<Credential>, now: seq<Credential>, which: seq<Credential>, k: nat)
    requires L.DistinctIds(before) && Bumped(before, now, which) && k < |before|
    ensures IndexOf(now, before[k].credentialId) == k
  {
    assert now[k].credentialId == before[k].credentialId;
    var i := IndexOf(now, before[k].credentialId);
    assert before[i].credentialId == now[i].credentialId;
  }

  lemma BumpAt(before: seq<Credential>, now: seq<Credential>, which: seq<Credential>, k: nat)
    requires L.DistinctIds(before) && Bumped(before, now, which) && k < |before| && before[k] !in which
    ensures Bumped(before, Incremented(now, k), which + [before[k]])
  {
    var c := before[k];
    forall j | 0 <= j < |before|
      ensures before[j] in which + [c] <==> before[j] in which || j == k
    {
      assert before[j] == c ==> j == k;
    }
  }

  /** Incrementing one more of the credentials. */
  lemma BumpOne(before: seq<Credential>, now: seq<Credential>, which: seq<Credential>, c: Credential)
    requires L.DistinctIds(before) && Bumped(before, now, which) && c in before && c !in which
    ensures IndexOf(now, c.credentialId) < |now|
    ensures now[IndexOf(now, c.credentialId)].signCount == c.signCount
    ensures Bumped(before, Incremented(now, IndexOf(now, c.credentialId)), which + [c])
  {
    var k :| 0 <= k < |before| && before[k] == c;
    BumpedIndex(before, now, which, k);
    BumpAt(before, now, which, k);
    hide L.DistinctIds, IndexOf;
    assert now[k].signCount == before[k].signCount;
  }

  /** What it takes for no increment and no signature to fail. */
  ghost predicate Untroubled(env: Env, cs: seq<Credential>) {
    && (forall i :: env.others(i) == [] && env.access(i).Full?)
    && (forall key, authData, hash :: env.sign(key, authData, hash).Some?)
    && (forall c :: c in cs ==> c.signCount + 1 < COUNTER_LIMIT)
  }

  ghost predicate InStep(s: Store) {
    Loaded(s.file) == Some(s.cache)
  }

  lemma IncrementInStep(s: Store, id: seq<Byte>)
    requires InStep(s) && IndexOf(s.cache, id) < |s.cache|
    ensures var (s', reply) := StoreDo(s, [], Increment(id), Full);
            var i := IndexOf(s.cache, id);
            InStep(s') && s'.cache == Incremented(s.cache, i) && reply == Counter(s.cache[i].signCount + 1)
  {
    hide IndexOf, Saved, Loaded;
    L.AppliedList(s.file, Increment(id));
  }

  lemma {:induction false} BatchBumps(
    s: Store, env: Env, cs: seq<Credential>, n: nat, hash: seq<Byte>, disc: bool)
    requires InStep(s) && L.DistinctIds(s.cache) && Untroubled(env, s.cache) && n <= |cs|
    requires forall c :: c in cs ==> c in s.cache
    requires forall c :: multiset(cs)[c] <= 1
    ensures var b := AssertFirst(s, env, cs, n, hash, disc);
            b.assertions.Some? && InStep(b.store) && Bumped(s.cache, b.store.cache, cs[..n])
  {
    hide InStep, StoreDo, L.DistinctIds, IndexOf, Bumped;
    if n == 0 {
      NoneBumped(s.cache);
    } else {
      BatchBumps(s, env, cs, n - 1, hash, disc);
      var b := AssertFirst(s, env, cs, n - 1, hash, disc);
      var c := cs[n - 1];
      OnceMeansDistinct(cs, n - 1);
      BumpOne(s.cache, b.store.cache, cs[..n - 1], c);
      IncrementInStep(b.store, c.credentialId);
      assert cs[..n] == cs[..n - 1] + [c];
      assert env.others(n - 1) == [] && env.access(n - 1).Full? && c in s.cache;
    }
  }

  lemma NoneBumped(cs: seq<Credential>)
    ensures Bumped(cs, cs, [])
  {
  }

  /** Each match is found once, and nothing else. */
  lemma MatchesOnce(cache: seq<Credential>, rpId: string, allowed: Option<seq<seq<Byte>>>)
    requires L.DistinctIds(cache)
    ensures forall c :: c in L.FindForRp(cache, rpId, allowed) <==> c in cache && L.Matches(c, rpId, allowed)
    ensures forall c :: multiset(L.FindForRp(cache, rpId, allowed))[c] <= 1
  {
    hide L.FindForRp, L.DistinctIds;
    var cs := L.FindForRp(cache, rpId, allowed);
    L.FindForRpCharacterized(cache, rpId, allowed, cs);
    forall c
      ensures multiset(cs)[c] <= 1 && (c in cs <==> c in cache && L.Matches(c, rpId, allowed))
    {
      DistinctOnce(cache, c);
      assert c in cs <==> multiset(cs)[c] > 0;
      assert c in cache <==> multiset(cache)[c] > 0;
    }
  }

  /**
   A getAssertion that is not silent and whose face check succeeds adds exactly one to the counter of each
   matched credential and nothing to any other, when nothing fails and nobody else is at the store.
   */
  lemma EachMatchCountsOnce(st: State, env: Env, p: Params)
    requires InStep(st.store) && L.DistinctIds(st.store.cache) && Untroubled(env, st.store.cache)
    requires ParseAsserting(p).Ok? && env.verdict == V.Success
    requires var q := ParseAsserting(p).value;
             q.options.Dict? && Entry(q.options, "up").value != Bool(false)
             && (exists c :: c in st.store.cache && L.Matches(c, q.rpId, q.allowed))
    ensures var q, o := ParseAsserting(p).value, GetAssertion(st, env, p);
            var before, after := st.store.cache, o.state.store.cache;
            && o.answer.Answered? && InStep(o.state.store) && |after| == |before|
            && forall i :: 0 <= i < |before| ==>
                 after[i] == before[i].(signCount := before[i].signCount
                                                     + if L.Matches(before[i], q.rpId, q.allowed) then 1 else 0)
  {
    hide ParseAsserting, L.FindForRp, AssertFirst, InStep, L.DistinctIds, FinishedOf, BatchEvents, BatchFits;
    var q, cache := ParseAsserting(p).value, st.store.cache;
    var cs := L.FindForRp(cache, q.rpId, q.allowed);
    MatchesOnce(cache, q.rpId, q.allowed);
    hide L.Matches;
    assert cs != [];
    BatchBumps(st.store, env, cs, |cs|, q.hash, q.allowed.None?);
    assert cs[..|cs|] == cs;
    BatchShape(st.store, env, cs, |cs|, q.hash, q.allowed.None?);
  }
}
