/** Registration and assertion together: a credential that was made can be asserted. */
module AuthenticatorRoundTrip {
  import opened Bytes
  import opened CredentialStore
  import opened AuthenticatorRequests
  import opened Authenticator
  import L = StoreLaws
  import C = AuthenticatorCounters
  import G = AuthenticatorGate
  import N = StoreContents
  import V = FaceVerifier

  /** The list that add finds when it reloads the file. */
  function Found(st: State, env: Env): Option<seq<Credential>> {
    Loaded(L.ApplyAll(st.store.file, env.others(0)).0)
  }

  /** The id is new to the list; ids in the list are distinct. */
  ghost predicate FreshId(st: State, env: Env) {
    Found(st, env).Some? ==>
      L.DistinctIds(Found(st, env).value) && forall c :: c in Found(st, env).value ==> c.credentialId != env.id
  }

  /** Well-formed, with a face, not excluded, and neither key, store nor signature fails. */
  ghost predicate Granted(st: State, env: Env, p: Params) {
    ParseMaking(p).Ok? && Found(st, env).Some? && env.access(0).Full? && env.key.Some? &&
    var m := ParseMaking(p).value;
    && env.verdict == V.Success && !Excluded(st.store.cache, m.rpId, m.exclude)
    && m.rpName.Some? && m.userName.Some? && m.displayName.Some?
    && env.sign(
         env.key.value.0,
         AuthData(m.rpId, true, true, 0, Some(Attested(env.id, env.key.value.1)),
                  if m.outputsProtection then Some(m.credProtect) else None),
         m.hash).Some?
  }

  /**
   makeCredential succeeds exactly when it is granted. It has then stored, as the last credential of the file, one with
   the names, the residency and the protection asked for, counter 0 and the new id and key; what it attests are that id
   and key, for that relying party, with UP and UV, signed by the key.
   */
  lemma MadeIsStored(st: State, env: Env, p: Params)
    ensures MakeCredential(st, env, p).answer.Answered? <==> Granted(st, env, p)
    ensures Granted(st, env, p) ==>
              var m, o := ParseMaking(p).value, MakeCredential(st, env, p);
              var cs := o.state.store.cache;
              && cs != []
              && cs[|cs| - 1] == Credential(
                                   env.id, m.rpId, m.rpName.value, m.userId, m.userName.value, m.displayName.value,
                                   env.key.value.1, env.key.value.0, 0, m.resident, m.credProtect, -7, env.createdAt)
              && cs == Added(Found(st, env).value, cs[|cs| - 1])
              && (forall x :: x in cs <==> x == cs[|cs| - 1] || (x in Found(st, env).value
                                                                && (x.rpId != m.rpId || x.userHandle != m.userId)))
              && C.InStep(o.state.store)
              && o.answer.response.Made?
              && o.answer.response.authData
                 == AuthData(m.rpId, true, true, 0, Some(Attested(env.id, env.key.value.1)),
                             if m.outputsProtection then Some(m.credProtect) else None)
              && env.sign(env.key.value.0, o.answer.response.authData, m.hash) == Some(o.answer.response.signature)
  {
    hide ParseMaking, Excluded, L.ApplyAll, Loaded, Saved, WithoutAccount;
    var m := ParseMaking(p);
    if m.Ok? && Found(st, env).Some? && env.key.Some?
       && m.value.rpName.Some? && m.value.userName.Some? && m.value.displayName.Some?
    {
      var f, c := L.ApplyAll(st.store.file, env.others(0)).0, NewCredential(env, m.value);
      L.AppliedList(f, Add(c));
      L.WithoutAccountMembers(Found(st, env).value, c);
    }
  }

  /**
   The same from the request itself: a successful makeCredential has stored a credential for the relying party and user
   it names, resident exactly if its option "rk" is set, and attests it.
   */
  lemma MadeFromRequest(st: State, env: Env, p: Params)
    requires MakeCredential(st, env, p).answer.Answered?
    ensures env.key.Some? && 1 in p && p[1].ByteString?
    ensures var o := MakeCredential(st, env, p);
            && Loaded(o.state.store.file).Some? && Loaded(o.state.store.file).value != []
            && var cs := Loaded(o.state.store.file).value;
               var c, level := cs[|cs| - 1], if Protects(p) then p[6].named["credProtect"] else Number(1.0);
               && Holds(p, 2, "id", Text(c.rpId)) && Holds(p, 3, "id", ByteString(c.userHandle))
               && 1 <= |c.userHandle| <= 64
               && Named(Some(c.rpName), p, 2, "name") && Named(Some(c.userName), p, 3, "name")
               && Named(Some(c.userDisplayName), p, 3, "displayName")
               && (c.resident <==> AsksResident(p))
               && (level == Number(c.credProtect as real) || (level == Bool(true) && c.credProtect == 1))
               && c.credentialId == env.id && c.cosePublicKey == env.key.value.1 && c.keyRef == env.key.value.0
               && c.signCount == 0 && c.algorithm == -7 && c.createdAt == env.createdAt
               && o.answer.response.Made?
               && o.answer.response.authData
                  == AuthData(c.rpId, true, true, 0, Some(Attested(env.id, env.key.value.1)),
                              if Protects(p) then Some(c.credProtect) else None)
               && env.sign(c.keyRef, o.answer.response.authData, p[1].bytes) == Some(o.answer.response.signature)
  {
    hide ParseMaking, MakeCredential, Loaded, Excluded, Named, Added;
    MadeIsStored(st, env, p);
    MakingRead(p);
    assert 1 in p;
  }

  /** The request gives a level of protection. */
  predicate Protects(p: Params) {
    6 in p && p[6].Dict? && "credProtect" in p[6].named
  }

  /** The option "rk" of the request is set, to anything that Python takes for true. */
  predicate AsksResident(p: Params) {
    7 in p && p[7].Dict? && "rk" in p[7].named && !Falsy(p[7].named["rk"])
  }

  /** Among credentials with distinct ids, an allow list of one id finds just the credential with that id. */
  lemma FindsOnly(cs: seq<Credential>, c: Credential)
    requires L.DistinctIds(cs) && c in cs
    ensures L.FindForRp(cs, c.rpId, Some([c.credentialId])) == [c]
  {
    var allowed := Some([c.credentialId]);
    var found := L.FindForRp(cs, c.rpId, allowed);
    L.FindForRpCharacterized(cs, c.rpId, allowed, found);
    forall x
      ensures multiset(found)[x] == if x == c then 1 else 0
    {
      C.DistinctOnce(cs, x);
      assert x in cs <==> multiset(cs)[x] > 0;
      assert L.Matches(x, c.rpId, allowed) && x in cs <==> x == c;
    }
    hide L.DistinctIds, L.FindForRp;
    assert multiset(found) == multiset{c};
    assert |found| == |multiset(found)| == 1;
    assert found[0] in multiset(found);
  }

  lemma AddedIsDistinct(cs: seq<Credential>, c: Credential)
    requires L.DistinctIds(cs) && forall x :: x in cs ==> x.credentialId != c.credentialId
    ensures L.DistinctIds(Added(cs, c)) && c in Added(cs, c)
  {
    L.WithoutAccountKeeps(cs, c);
    var kept := WithoutAccount(cs, c);
    forall i | 0 <= i < |kept|
      ensures kept[i].credentialId != c.credentialId
    {
      assert kept[i] in kept;
    }
  }

  /** The assertion of a credential with the next counter, if every signature succeeds. */
  ghost function NextOf(env: Env, c: Credential, hash: seq<Byte>, discoverable: bool, total: nat): Assertion
    requires forall key, authData, hash :: env.sign(key, authData, hash).Some?
  {
    var authData := AuthData(c.rpId, true, true, c.signCount + 1, None, None);
    Assertion(
      c.credentialId, authData, env.sign(c.keyRef, authData, hash).value,
      if !discoverable then None
      else Some(User(c.userHandle, if total > 1 then Some((c.userName, c.userDisplayName)) else None)),
      if total > 1 then Some(total) else None)
  }

  lemma AssertsNext(s: Store, env: Env, i: nat, c: Credential, hash: seq<Byte>, disc: bool, total: nat)
    requires C.InStep(s) && env.others(i) == [] && env.access(i).Full? && c.signCount + 1 < COUNTER_LIMIT
    requires forall key, authData, hash :: env.sign(key, authData, hash).Some?
    requires IndexOf(s.cache, c.credentialId) < |s.cache|
    requires s.cache[IndexOf(s.cache, c.credentialId)].signCount == c.signCount
    ensures AssertCredential(s, env, i, c, hash, disc, total).assertion == Some(NextOf(env, c, hash, disc, total))
  {
    hide C.InStep, StoreDo, IndexOf;
    C.IncrementInStep(s, c.credentialId);
  }

  /** A batch over a store that is in step asserts each of its credentials with the next counter. */
  lemma {:induction false} BatchAsserts(
    s: Store, env: Env, cs: seq<Credential>, n: nat, hash: seq<Byte>, disc: bool)
    requires C.InStep(s) && L.DistinctIds(s.cache) && C.Untroubled(env, s.cache) && n <= |cs|
    requires forall c :: c in cs ==> c in s.cache
    requires forall c :: multiset(cs)[c] <= 1
    ensures var b := AssertFirst(s, env, cs, n, hash, disc);
            && b.assertions.Some? && |b.assertions.value| == n
            && forall i :: 0 <= i < n ==> b.assertions.value[i] == NextOf(env, cs[i], hash, disc, |cs|)
  {
    hide C.InStep, AssertCredential, NextOf, L.DistinctIds, IndexOf, C.Bumped;
    if n > 0 {
      BatchAsserts(s, env, cs, n - 1, hash, disc);
      C.BatchBumps(s, env, cs, n - 1, hash, disc);
      var b := AssertFirst(s, env, cs, n - 1, hash, disc);
      var c := cs[n - 1];
      C.OnceMeansDistinct(cs, n - 1);
      C.BumpOne(s.cache, b.store.cache, cs[..n - 1], c);
      assert env.others(n - 1) == [] && env.access(n - 1).Full? && c in s.cache;
      AssertsNext(b.store, env, n - 1, c, hash, disc, |cs|);
    }
  }

  /** The assertions that an answered getAssertion releases, now or by getNextAssertion. */
  function ReleasedBy(o: Out): seq<Assertion>
    requires o.answer.Answered? && o.answer.response.Asserted?
  {
    [o.answer.response.assertion] + o.state.pending
  }

  /** A getAssertion with a face releases the next assertion of each match, newest first. */
  lemma ReleasesMatches(st: State, env: Env, p: Params)
    requires C.InStep(st.store) && L.DistinctIds(st.store.cache) && C.Untroubled(env, st.store.cache)
    requires ParseAsserting(p).Ok? && env.verdict == V.Success
    requires var q := ParseAsserting(p).value;
             q.options.Dict? && Entry(q.options, "up").value != Bool(false)
             && L.FindForRp(st.store.cache, q.rpId, q.allowed) != []
    ensures var q, o := ParseAsserting(p).value, GetAssertion(st, env, p);
            var cs := L.FindForRp(st.store.cache, q.rpId, q.allowed);
            && o.answer.Answered? && o.answer.response.Asserted? && |ReleasedBy(o)| == |cs|
            && forall i :: 0 <= i < |cs| ==>
                 var a, c := ReleasedBy(o)[i], cs[i];
                 && a.credentialId == c.credentialId
                 && a.authData == AuthData(c.rpId, true, true, c.signCount + 1, None, None)
                 && Some(a.signature) == env.sign(c.keyRef, a.authData, q.hash)
                 && a.user == (if q.allowed.Some? then None
                               else Some(User(c.userHandle,
                                              if |cs| > 1 then Some((c.userName, c.userDisplayName)) else None)))
                 && a.total == (if |cs| > 1 then Some(|cs|) else None)
  {
    hide ParseAsserting, L.FindForRp, L.Matches, AssertFirst, C.InStep, L.DistinctIds;
    var q, cache := ParseAsserting(p).value, st.store.cache;
    var cs := L.FindForRp(cache, q.rpId, q.allowed);
    C.MatchesOnce(cache, q.rpId, q.allowed);
    BatchAsserts(st.store, env, cs, |cs|, q.hash, q.allowed.None?);
    var made := AssertFirst(st.store, env, cs, |cs|, q.hash, q.allowed.None?).assertions.value;
    assert made == [made[0]] + made[1..];
  }

  /**
   A credential that was just made is asserted by the next getAssertion for its relying party that lists its id or, if
   it was asked to be resident, that has no list: the counter is one, and the signature is by the key whose public part
   the registration attested. It is released at once, or by getNextAssertion if others match too.
   */
  lemma RegisteredCanSign(st: State, env: Env, p: Params, env': Env, p': Params)
    requires Granted(st, env, p) && FreshId(st, env) && ParseAsserting(p').Ok? && env'.verdict == V.Success
    requires C.Untroubled(env', MakeCredential(st, env, p).state.store.cache)
    requires var q := ParseAsserting(p').value;
             && Holds(p, 2, "id", Text(q.rpId))
             && (if q.allowed.Some? then env.id in q.allowed.value else AsksResident(p))
             && q.options.Dict? && Entry(q.options, "up").value != Bool(false)
    ensures var o := MakeCredential(st, env, p);
            && o.answer.Answered? && o.answer.response.Made?
            && o.answer.response.authData.attested == Some(Attested(env.id, env.key.value.1))
    ensures var o' := GetAssertion(MakeCredential(st, env, p).state, env', p');
            var q := ParseAsserting(p').value;
            var authData := AuthData(q.rpId, true, true, 1, None, None);
            && o'.answer.Answered? && o'.answer.response.Asserted?
            && (exists a :: a in ReleasedBy(o') && a.credentialId == env.id && a.authData == authData
                            && a.signature == env'.sign(env.key.value.0, authData, q.hash).value)
            && (q.allowed == Some([env.id]) ==>
                  ReleasedBy(o') == [Assertion(
                    env.id, authData, env'.sign(env.key.value.0, authData, q.hash).value, None, None)])
  {
    hide ParseMaking, ParseAsserting, MakeCredential, GetAssertion, L.FindForRp, L.DistinctIds, C.InStep, C.Untroubled,
      Found, FreshId, Granted;
    var st', q := MakeCredential(st, env, p).state, ParseAsserting(p').value;
    RegisteredIsFound(st, env, p, q);
    var c, cs := Newest(st'.store.cache), L.FindForRp(st'.store.cache, q.rpId, q.allowed);
    ReleasesMatches(st', env', p');
    var released := ReleasedBy(GetAssertion(st', env', p'));
    var i :| 0 <= i < |cs| && cs[i] == c;
    assert released[i] in released;
    if q.allowed == Some([env.id]) { FindsOnly(st'.store.cache, c); }
  }

  /** The stored credential is among the matches of such a request. */
  lemma RegisteredIsFound(st: State, env: Env, p: Params, q: Asserting)
    requires Granted(st, env, p) && FreshId(st, env) && Holds(p, 2, "id", Text(q.rpId))
    requires if q.allowed.Some? then env.id in q.allowed.value else AsksResident(p)
    ensures env.key.Some?
    ensures var o := MakeCredential(st, env, p);
            && o.answer.Answered? && o.answer.response.Made?
            && o.answer.response.authData.attested == Some(Attested(env.id, env.key.value.1))
            && C.InStep(o.state.store) && L.DistinctIds(o.state.store.cache) && o.state.store.cache != []
            && var c := Newest(o.state.store.cache);
               && c.credentialId == env.id && c.keyRef == env.key.value.0 && c.signCount == 0 && c.rpId == q.rpId
               && c in o.state.store.cache && c in L.FindForRp(o.state.store.cache, q.rpId, q.allowed)
  {
    hide ParseMaking, MakeCredential, L.FindForRp, L.DistinctIds, C.InStep, Loaded, WithoutAccount, Excluded, Named;
    MadeIsStored(st, env, p);
    MakingRead(p);
    var cache := MakeCredential(st, env, p).state.store.cache;
    AddedIsDistinct(Found(st, env).value, Newest(cache));
    hide Added;
    C.MatchesOnce(cache, q.rpId, q.allowed);
  }

  function Newest(cs: seq<Credential>): Credential
    requires cs != []
  {
    cs[|cs| - 1]
  }

  /** One that was not asked to be resident is not found, nor asserted, without a list. */
  lemma NotResidentIsHidden(st: State, env: Env, p: Params, env': Env, p': Params)
    requires Granted(st, env, p) && FreshId(st, env) && !AsksResident(p)
    requires ParseAsserting(p').Ok? && !Has(p', 3)
    ensures var cache, rpId := MakeCredential(st, env, p).state.store.cache, ParseAsserting(p').value.rpId;
            forall x :: x in L.FindForRp(cache, rpId, None) ==> x.credentialId != env.id
    ensures var o' := GetAssertion(MakeCredential(st, env, p).state, env', p');
            o'.answer.Answered? ==> o'.answer.response.Asserted? && o'.answer.response.assertion.credentialId != env.id
  {
    hide ParseMaking, ParseAsserting, MakeCredential, GetAssertion, L.FindForRp, L.DistinctIds, C.InStep, Loaded,
      WithoutAccount, Excluded, Named;
    MadeIsStored(st, env, p);
    MakingRead(p);
    AssertingAccepted(p');
    var st', q := MakeCredential(st, env, p).state, ParseAsserting(p').value;
    AddedIsDistinct(Found(st, env).value, Newest(st'.store.cache));
    hide Added;
    C.MatchesOnce(st'.store.cache, q.rpId, q.allowed);
    if GetAssertion(st', env', p').answer.Answered? { AnswersNewest(st', env', p'); }
  }

  /** An answer is for the newest match. */
  lemma AnswersNewest(st: State, env: Env, p: Params)
    requires GetAssertion(st, env, p).answer.Answered?
    ensures ParseAsserting(p).Ok? && GetAssertion(st, env, p).answer.response.Asserted?
    ensures var q := ParseAsserting(p).value;
            var cs := L.FindForRp(st.store.cache, q.rpId, q.allowed);
            cs != [] && GetAssertion(st, env, p).answer.response.assertion.credentialId == cs[0].credentialId
  {
    G.GetAssertionClaims(st, env, p);
    hide ParseAsserting, L.FindForRp, AssertAll, SilentAssertion;
    assert ParseAsserting(p).Ok? && ParseAsserting(p).value.options.Dict?;
    hide GetAssertion;
    G.SilentExactly(st, env, p);
    if G.SawFace(GetAssertion(st, env, p).events) { G.FirstOfBatch(st, env, p); }
  }

  /**
   Over any run, with other processes at the store and failures, a credential in the file stays there, up to its
   counter, unless it is replaced by one for its account, removed, or all are destroyed.
   */
  lemma RunKeepsCredential(st0: State, calls: seq<G.Call>, c: Credential) returns (x: Credential)
    requires Loaded(st0.store.file).Some? && c in Loaded(st0.store.file).value
    requires forall op :: op in C.OpsOf(C.Events(st0, calls)) ==> !N.TakesOut(op, c)
    ensures var file := G.StateAfter(st0, calls).store.file;
            && Loaded(file).Some? && x in Loaded(file).value
            && x.(signCount := c.signCount) == c && x.signCount >= c.signCount
  {
    hide G.StateAfter, C.Events, C.OpsOf, Loaded, L.ApplyAll, N.TakesOut, C.Sound;
    C.RunLeads(st0, calls);
    x := N.StaysStored(st0.store.file, C.OpsOf(C.Events(st0, calls)), c);
  }
}
