/** How each command is answered, spelled out on what it meets. */
module AuthenticatorAnswers {
  import opened Bytes
  import opened CredentialStore
  import opened AuthenticatorRequests
  import opened Authenticator
  import L = StoreLaws
  import V = FaceVerifier

  /** A call that does nothing but refuse. */
  ghost predicate Refuses(st: State, env: Env, request: seq<Byte>, error: Err) {
    HandleCbor(st, env, request) == Out(st, [], Refused(error))
  }

  /** What comes before any command: the empty request, CBOR that does not decode or is no map, unknown commands. */
  lemma RefusedBefore(st: State, env: Env, request: seq<Byte>)
    ensures request == [] ==> Refuses(st, env, request, InvalidLength)
    ensures |request| > 1 && env.decode(request[1..]) == None ==> Refuses(st, env, request, InvalidCbor)
    ensures |request| > 1 && env.decode(request[1..]).Some? && !env.decode(request[1..]).value.Dict? ==>
              Refuses(st, env, request, CborUnexpectedType)
    ensures |request| == 1 && request[0] == 0x06 ==> Refuses(st, env, request, PinAuthInvalid)
    ensures |request| == 1 && request[0] !in {0x01, 0x02, 0x04, 0x06, 0x07, 0x08, 0x0B} ==>
              Refuses(st, env, request, InvalidCommand)
    ensures |request| == 1 && request[0] in {0x01, 0x02} ==> Refuses(st, env, request, MissingParameter)
    ensures request == [0x04] ==> HandleCbor(st, env, request) == Out(st, [], Answered(Info))
  {
  }

  /** The request decodes to these parameters. */
  ghost predicate Decodes(env: Env, request: seq<Byte>, p: Params) {
    || (|request| == 1 && p == map[])
    || (|request| > 1 && env.decode(request[1..]).Some? && env.decode(request[1..]).value.Dict?
        && p == env.decode(request[1..]).value.numbered)
  }

  lemma DecodesExactly(env: Env, request: seq<Byte>, p: Params)
    requires request != []
    ensures Decodes(env, request, p) <==> ParamsOf(env, request) == Ok(p)
  {
  }

  /** The first byte is the command, whatever the parameters. */
  lemma CommandsDispatched(st: State, env: Env, request: seq<Byte>, p: Params)
    requires request != [] && Decodes(env, request, p)
    ensures var o := HandleCbor(st, env, request);
            && (request[0] == 0x01 ==> o == MakeCredential(st, env, p))
            && (request[0] == 0x02 ==> o == GetAssertion(st, env, p))
            && (request[0] == 0x04 ==> o == Out(st, [], Answered(Info)))
            && (request[0] == 0x06 ==> o == Out(st, [], Refused(PinAuthInvalid)))
            && (request[0] == 0x07 ==> o == Reset(st, env))
            && (request[0] == 0x08 ==> o == GetNextAssertion(st, env))
            && (request[0] == 0x0B ==> o == Selection(st, env))
  {
    hide MakeCredential, GetAssertion, Reset, GetNextAssertion, Selection, ParamsOf;
    DecodesExactly(env, request, p);
  }

  /**
   reset works in the first 10 seconds only and after a face check; then the store is empty and its file is gone. The
   pending assertions stay.
   */
  lemma ResetExactly(st: State, env: Env)
    ensures var o := Reset(st, env);
            && o.state.pending == st.pending && o.state.pendingTime == st.pendingTime && o.state.started == st.started
            && (env.now - st.started > 10 ==> o == Out(st, [], Refused(NotAllowed)))
            && (env.now - st.started <= 10 && env.verdict != V.Success ==> o.answer.Refused? && o.state == st)
            && (o.answer == Answered(Nothing) <==>
                env.now - st.started <= 10 && env.verdict == V.Success && env.access(0).Full? && env.keysDestroyed)
            && (env.now - st.started <= 10 && env.verdict == V.Success && env.access(0).Full? ==>
                  o.state.store == Store(Missing, []))
            && (o.answer != Answered(Nothing) ==> o.answer.Refused?)
  {
    hide L.ApplyAll, Loaded;
  }

  /** getNextAssertion releases the first pending assertion, without the number of credentials, within 30 seconds. */
  lemma NextExactly(st: State, env: Env)
    ensures var o := GetNextAssertion(st, env);
            if st.pending == [] then o == Out(st, [], Refused(NotAllowed))
            else if env.now - st.pendingTime > 30 then o == Out(st.(pending := []), [], Refused(NotAllowed))
            else
              && o.state == st.(pending := st.pending[1..], pendingTime := env.later) && o.events == []
              && o.answer == Answered(Asserted(st.pending[0].(total := None)))
  {
  }

  /** selection is a face check. */
  lemma SelectionExactly(st: State, env: Env)
    ensures Selection(st, env).state == st && Selection(st, env).events == [Verified(env.verdict)]
    ensures Selection(st, env).answer
            == match env.verdict
               case Success => Answered(Nothing)
               case TimeoutReached => Refused(UserActionTimeout)
               case Cancelled => Refused(KeepaliveCancel)
               case _ => Refused(OperationDenied)
  {
  }

  /** makeCredential for an excluded credential tells so only after a face check; every other failure is an error. */
  lemma MakingRefusals(st: State, env: Env, p: Params)
    requires ParseMaking(p).Ok?
    ensures var m, o := ParseMaking(p).value, MakeCredential(st, env, p);
            && (env.verdict == V.Success && Excluded(st.store.cache, m.rpId, m.exclude) ==>
                  o == Out(st, [Verified(V.Success)], Refused(CredentialExcluded)))
            && (o.answer == Refused(CredentialExcluded) ==>
                  env.verdict == V.Success && Excluded(st.store.cache, m.rpId, m.exclude))
            && (env.verdict != V.Success ==> o.state == st && o.events == [Verified(env.verdict)] && o.answer.Refused?)
  {
    hide ParseMaking, Excluded, StoreDo, NewCredential, MakingAuthData;
  }

  /** getAssertion without a match says so without a face check. A silent one needs a counter of 32 bits and a key. */
  lemma AssertingRefusals(st: State, env: Env, p: Params)
    requires ParseAsserting(p).Ok?
    ensures var q, o := ParseAsserting(p).value, GetAssertion(st, env, p);
            var cs := L.FindForRp(st.store.cache, q.rpId, q.allowed);
            && (!q.options.Dict? ==> o == Out(st, [], Refused(Other)))
            && (q.options.Dict? && cs == [] ==> o == Out(st, [], Refused(NoCredentials)))
            && (q.options.Dict? && cs != [] && Entry(q.options, "up") == Ok(Bool(false)) ==>
                  && o.state == st
                  && (o.answer.Answered? <==>
                      cs[0].signCount < 0x1_0000_0000
                      && var authData := AuthData(cs[0].rpId, false, false, cs[0].signCount, None, None);
                         env.sign(cs[0].keyRef, authData, q.hash).Some?)
                  && (o.answer.Answered? || o.answer == Refused(Other)))
            && (q.options.Dict? && cs != [] && Entry(q.options, "up") != Ok(Bool(false)) ==>
                  o.events != [] && o.events[0] == Verified(env.verdict))
  {
    hide ParseAsserting, L.FindForRp, AssertFirst;
  }

  /**
   The i-th matched credential: its counter is advanced in the store before anything is signed. It is asserted with the
   advanced counter, unless it is unknown to the store, cannot be saved, has run out of 32 bits, or cannot be signed.
   */
  lemma CountedBeforeSigned(
    s: Store, env: Env, i: nat, c: Credential, hash: seq<Byte>, discoverable: bool, total: nat)
    ensures var t := AssertCredential(s, env, i, c, hash, discoverable, total);
            && t.events != [] && t.events[0].Did? && t.events[0].op == Increment(c.credentialId)
            && t.store.file == Attempt(L.ApplyAll(s.file, env.others(i)).0, Increment(c.credentialId), env.access(i)).0
            && (t.assertion.Some? <==>
                && t.events[0].reply.Counter? && t.events[0].reply.value < 0x1_0000_0000
                && env.sign(c.keyRef, AuthData(c.rpId, true, true, t.events[0].reply.value, None, None), hash).Some?)
            && (t.assertion.Some? ==> t.assertion.value.authData.counter == t.events[0].reply.value)
  {
    hide Attempt, CacheAfter, L.ApplyAll;
  }
}
