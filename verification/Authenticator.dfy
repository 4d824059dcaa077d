/** The authenticator: its commands as functions on values, and the object that carries them out step by step. */
module Authenticator {
  import opened Bytes
  import opened CredentialStore
  import opened AuthenticatorRequests
  import L = StoreLaws
  import V = FaceVerifier

  const CMD_MAKE_CREDENTIAL: Byte := 0x01
  const CMD_GET_ASSERTION: Byte := 0x02
  const CMD_GET_INFO: Byte := 0x04
  const CMD_CLIENT_PIN: Byte := 0x06
  const CMD_RESET: Byte := 0x07
  const CMD_GET_NEXT_ASSERTION: Byte := 0x08
  const CMD_SELECTION: Byte := 0x0B

  const RESET_WINDOW := 10
  const NEXT_ASSERTION_WINDOW := 30
  const COUNTER_LIMIT := 0x1_0000_0000

  datatype Attested = Attested(credentialId: seq<Byte>, coseKey: seq<Byte>)

  /** Authenticator data; AT is set with attested, ED with protection. */
  datatype AuthData = AuthData(
    rpId: string, up: bool, uv: bool, counter: nat, attested: Option<Attested>, protection: Option<int>)

  datatype User = User(id: seq<Byte>, names: Option<(string, string)>)

  datatype Assertion = Assertion(
    credentialId: seq<Byte>, authData: AuthData, signature: seq<Byte>, user: Option<User>, total: Option<nat>)

  datatype Response = Info | Nothing | Made(authData: AuthData, signature: seq<Byte>) | Asserted(assertion: Assertion)
  datatype Answer = Answered(response: Response) | Refused(error: Err)

  /**
   What a call does, in order: the face check and its result, an operation on the store (after operations of
   other processes, and with a write that may fail), authenticator data being built, an assertion being finished.
   */
  datatype Event =
    | Verified(result: V.VerificationResult)
    | Did(others: seq<Op>, op: Op, access: Access, reply: Reply)
    | Built(authData: AuthData)
    | Finished(assertion: Assertion)

  /** What a call meets: the clock when it starts and ends, and what everything outside it answers. */
  datatype Env = Env(
    now: int, later: int,
    verdict: V.VerificationResult,
    key: Option<(string, seq<Byte>)>, id: seq<Byte>, createdAt: real,
    sign: (string, AuthData, seq<Byte>) -> Option<seq<Byte>>,
    others: nat -> seq<Op>,          // operations of other processes before the i-th store operation of the call
    access: nat -> Access,           // how far the i-th store operation of the call gets
    keysDestroyed: bool,
    decode: seq<Byte> -> Option<Value>)

  datatype Store = Store(file: File, cache: seq<Credential>)
  datatype State = State(store: Store, started: int, pending: seq<Assertion>, pendingTime: int)
  datatype Out = Out(state: State, events: seq<Event>, answer: Answer)

  // ---------- the pieces ----------

  function VerificationError(r: V.VerificationResult): Err {
    match r
    case TimeoutReached => UserActionTimeout
    case Cancelled => KeepaliveCancel
    case _ => OperationDenied
  }

  /** One operation of the store, after others of other processes; access says how far it gets. */
  function StoreDo(s: Store, others: seq<Op>, op: Op, access: Access): (Store, Reply) {
    var f := L.ApplyAll(s.file, others).0;
    (Store(Attempt(f, op, access).0, CacheAfter(s.cache, f, op, access)), Attempt(f, op, access).1)
  }

  /** Whether the first cached credential with some listed id belongs to the relying party. */
  predicate Excluded(cache: seq<Credential>, rpId: string, ids: seq<seq<Byte>>) {
    exists id :: id in ids && var i := IndexOf(cache, id); i < |cache| && cache[i].rpId == rpId
  }

  function NewCredential(env: Env, m: Making): Credential
    requires env.key.Some? && m.rpName.Some? && m.userName.Some? && m.displayName.Some?
  {
    Credential(env.id, m.rpId, m.rpName.value, m.userId, m.userName.value, m.displayName.value,
               env.key.value.1, env.key.value.0, 0, m.resident, m.credProtect, -7, env.createdAt)
  }

  function MakingAuthData(env: Env, m: Making): AuthData
    requires env.key.Some?
  {
    AuthData(m.rpId, true, true, 0, Some(Attested(env.id, env.key.value.1)),
             if m.outputsProtection then Some(m.credProtect) else None)
  }

  /** makeCredential after the face check let it through. */
  function Create(st: State, env: Env, m: Making): Out {
    if env.key.None? || m.rpName.None? || m.userName.None? || m.displayName.None? then Out(st, [], Refused(Other))
    else
      var c := NewCredential(env, m);
      var (store, reply) := StoreDo(st.store, env.others(0), Add(c), env.access(0));
      var st' := st.(store := store);
      var did := Did(env.others(0), Add(c), env.access(0), reply);
      if reply == Failed then Out(st', [did], Refused(Other))
      else
        var authData := MakingAuthData(env, m);
        var signature := env.sign(c.keyRef, authData, m.hash);
        Out(st', [did, Built(authData)],
            if signature.None? then Refused(Other) else Answered(Made(authData, signature.value)))
  }

  function MakeCredential(st: State, env: Env, p: Params): Out {
    var m := ParseMaking(p);
    if m.Raised? then Out(st, [], Refused(m.error))
    else
      var checked := [Verified(env.verdict)];
      if env.verdict != V.Success then Out(st, checked, Refused(VerificationError(env.verdict)))
      else if Excluded(st.store.cache, m.value.rpId, m.value.exclude) then Out(st, checked, Refused(CredentialExcluded))
      else
        var o := Create(st, env, m.value);
        o.(events := checked + o.events)
  }

  function SilentAssertion(env: Env, c: Credential, hash: seq<Byte>): (seq<Event>, Answer) {
    if c.signCount >= COUNTER_LIMIT then ([], Refused(Other))
    else
      var authData := AuthData(c.rpId, false, false, c.signCount, None, None);
      var signature := env.sign(c.keyRef, authData, hash);
      if signature.None? then ([Built(authData)], Refused(Other))
      else
        var a := Assertion(c.credentialId, authData, signature.value, None, None);
        ([Built(authData), Finished(a)], Answered(Asserted(a)))
  }

  /** The assertion of one matched credential of total, once its counter is known. */
  function AssertionOf(c: Credential, counter: nat, signature: seq<Byte>, discoverable: bool, total: nat): Assertion {
    Assertion(
      c.credentialId, AuthData(c.rpId, true, true, counter, None, None), signature,
      if !discoverable then None
      else Some(User(c.userHandle, if total > 1 then Some((c.userName, c.userDisplayName)) else None)),
      if total > 1 then Some(total) else None)
  }

  datatype Step = Step(store: Store, events: seq<Event>, assertion: Option<Assertion>)

  function AssertCredential(
    s: Store, env: Env, i: nat, c: Credential, hash: seq<Byte>, discoverable: bool, total: nat): Step
  {
    var (s', reply) := StoreDo(s, env.others(i), Increment(c.credentialId), env.access(i));
    var did := Did(env.others(i), Increment(c.credentialId), env.access(i), reply);
    if !reply.Counter? || reply.value >= COUNTER_LIMIT then Step(s', [did], None)
    else
      var authData := AuthData(c.rpId, true, true, reply.value, None, None);
      var signature := env.sign(c.keyRef, authData, hash);
      if signature.None? then Step(s', [did, Built(authData)], None)
      else
        var a := AssertionOf(c, reply.value, signature.value, discoverable, total);
        Step(s', [did, Built(authData), Finished(a)], Some(a))
  }

  datatype Batch = Batch(store: Store, events: seq<Event>, assertions: Option<seq<Assertion>>)

  /** The first n credentials one after the other; the first failure ends it. */
  function AssertFirst(
    s: Store, env: Env, cs: seq<Credential>, n: nat, hash: seq<Byte>, discoverable: bool): Batch
    requires n <= |cs|
  {
    if n == 0 then Batch(s, [], Some([]))
    else
      var b := AssertFirst(s, env, cs, n - 1, hash, discoverable);
      if b.assertions.None? then b
      else
        var t := AssertCredential(b.store, env, n - 1, cs[n - 1], hash, discoverable, |cs|);
        Batch(t.store, b.events + t.events,
              if t.assertion.Some? then Some(b.assertions.value + [t.assertion.value]) else None)
  }

  /** getAssertion once its credentials are known. */
  function AssertAll(st: State, env: Env, q: Asserting, cs: seq<Credential>): Out
    requires cs != []
  {
    var checked := [Verified(env.verdict)];
    if env.verdict != V.Success then Out(st, checked, Refused(VerificationError(env.verdict)))
    else
      var b := AssertFirst(st.store, env, cs, |cs|, q.hash, q.allowed.None?);
      var st' := st.(store := b.store);
      if b.assertions.None? || b.assertions.value == [] then Out(st', checked + b.events, Refused(Other))
      else
        Out(st'.(pending := b.assertions.value[1..], pendingTime := env.later), checked + b.events,
            Answered(Asserted(b.assertions.value[0])))
  }

  function GetAssertion(st: State, env: Env, p: Params): Out {
    var q := ParseAsserting(p);
    if q.Raised? then Out(st, [], Refused(q.error))
    else
      var cs := L.FindForRp(st.store.cache, q.value.rpId, q.value.allowed);
      if q.value.options.Dict? then
        if cs == [] then Out(st, [], Refused(NoCredentials))
        else if Entry(q.value.options, "up").value == Bool(false) then
          var (events, answer) := SilentAssertion(env, cs[0], q.value.hash);
          Out(st, events, answer)
        else AssertAll(st, env, q.value, cs)
      else Out(st, [], Refused(Other))
  }

  function GetNextAssertion(st: State, env: Env): Out {
    if st.pending == [] then Out(st, [], Refused(NotAllowed))
    else if env.now - st.pendingTime > NEXT_ASSERTION_WINDOW then Out(st.(pending := []), [], Refused(NotAllowed))
    else
      Out(st.(pending := st.pending[1..], pendingTime := env.later), [],
          Answered(Asserted(st.pending[0].(total := None))))
  }

  function Reset(st: State, env: Env): Out {
    if env.now - st.started > RESET_WINDOW then Out(st, [], Refused(NotAllowed))
    else if env.verdict != V.Success then
      Out(st, [Verified(env.verdict)], Refused(VerificationError(env.verdict)))
    else
      var (store, reply) := StoreDo(st.store, env.others(0), DestroyAll, env.access(0));
      Out(st.(store := store), [Verified(env.verdict), Did(env.others(0), DestroyAll, env.access(0), reply)],
          if reply != Failed && env.keysDestroyed then Answered(Nothing) else Refused(Other))
  }

  function Selection(st: State, env: Env): Out {
    Out(st, [Verified(env.verdict)],
        if env.verdict == V.Success then Answered(Nothing) else Refused(VerificationError(env.verdict)))
  }

  function Dispatch(st: State, env: Env, command: Byte, p: Params): Out {
    if command == CMD_MAKE_CREDENTIAL then MakeCredential(st, env, p)
    else if command == CMD_GET_ASSERTION then GetAssertion(st, env, p)
    else if command == CMD_GET_INFO then Out(st, [], Answered(Info))
    else if command == CMD_RESET then Reset(st, env)
    else if command == CMD_GET_NEXT_ASSERTION then GetNextAssertion(st, env)
    else if command == CMD_SELECTION then Selection(st, env)
    else if command == CMD_CLIENT_PIN then Out(st, [], Refused(PinAuthInvalid))
    else Out(st, [], Refused(InvalidCommand))
  }

  function ParamsOf(env: Env, request: seq<Byte>): Result<Params>
    requires request != []
  {
    if |request| == 1 then Ok(map[])
    else
      var v := env.decode(request[1..]);
      if v.None? then Raised(InvalidCbor)
      else if !v.value.Dict? then Raised(CborUnexpectedType)
      else Ok(v.value.numbered)
  }

  function HandleCbor(st: State, env: Env, request: seq<Byte>): Out {
    if request == [] then Out(st, [], Refused(InvalidLength))
    else
      var p := ParamsOf(env, request);
      if p.Raised? then Out(st, [], Refused(p.error)) else Dispatch(st, env, request[0], p.value)
  }

  // ---------- the object ----------

  class Authenticator {
    const store: CredentialStore
    const started: int
    var nextAssertions: seq<Assertion>
    var nextAssertionTime: int

    constructor (store: CredentialStore, now: int)
      ensures this.store == store && Snapshot() == State(Store(store.disk.file, store.credentials), now, [], 0)
    {
      this.store := store;
      started := now;
      nextAssertions := [];
      nextAssertionTime := 0;
    }

    ghost function Stored(): Store
      reads store, store.disk
    {
      Store(store.disk.file, store.credentials)
    }

    ghost function Snapshot(): State
      reads this, store, store.disk
    {
      State(Stored(), started, nextAssertions, nextAssertionTime)
    }

    /** The one place that runs the face check. */
    method VerifyUser(env: Env) returns (events: seq<Event>, error: Option<Err>)
      ensures events == [Verified(env.verdict)]
      ensures error == if env.verdict == V.Success then None else Some(VerificationError(env.verdict))
    {
      events := [Verified(env.verdict)];
      error := None;
      if env.verdict != V.Success { error := Some(VerificationError(env.verdict)); }
    }

    /** Other processes get at the file between two operations of this one. */
    method OthersAct(ops: seq<Op>)
      modifies store.disk
      ensures store.disk.file == L.ApplyAll(old(store.disk.file), ops).0
    {
      store.disk.file := L.ApplyAll(store.disk.file, ops).0;
    }

    method Matching(rpId: string, allowed: Option<seq<seq<Byte>>>) returns (cs: seq<Credential>)
      ensures cs == L.FindForRp(store.credentials, rpId, allowed)
    {
      cs := L.FindForRp(store.credentials, rpId, allowed);
    }

    method IsExcluded(rpId: string, ids: seq<seq<Byte>>) returns (found: bool)
      ensures found <==> Excluded(store.credentials, rpId, ids)
    {
      for k := 0 to |ids|
        invariant forall j :: 0 <= j < k ==>
                    var i := IndexOf(store.credentials, ids[j]);
                    !(i < |store.credentials| && store.credentials[i].rpId == rpId)
      {
        var i := store.FindById(ids[k]);
        if i < |store.credentials| && store.credentials[i].rpId == rpId {
          assert ids[k] in ids;
          return true;
        }
      }
      found := false;
    }

    method Remember(env: Env, c: Credential) returns (reply: Reply)
      modifies store, store.disk
      ensures (Stored(), reply) == StoreDo(old(Stored()), env.others(0), Add(c), env.access(0))
    {
      hide Attempt, CacheAfter, L.ApplyAll;
      OthersAct(env.others(0));
      reply := store.AddCredential(c, env.access(0));
    }

    method Advance(env: Env, i: nat, id: seq<Byte>) returns (reply: Reply)
      modifies store, store.disk
      ensures (Stored(), reply) == StoreDo(old(Stored()), env.others(i), Increment(id), env.access(i))
    {
      hide Attempt, CacheAfter, L.ApplyAll;
      OthersAct(env.others(i));
      reply := store.IncrementCounter(id, env.access(i));
    }

    method CreateCredential(env: Env, m: Making) returns (events: seq<Event>, answer: Answer)
      modifies store, store.disk
      ensures Out(Snapshot(), events, answer) == Create(old(Snapshot()), env, m)
    {
      hide StoreDo;
      if env.key.None? || m.rpName.None? || m.userName.None? || m.displayName.None? {
        return [], Refused(Other);
      }
      var credential := NewCredential(env, m);
      var reply := Remember(env, credential);
      events := [Did(env.others(0), Add(credential), env.access(0), reply)];
      if reply == Failed { return events, Refused(Other); }
      var authData := MakingAuthData(env, m);
      events := events + [Built(authData)];
      var signature := env.sign(credential.keyRef, authData, m.hash);
      if signature.None? { return events, Refused(Other); }
      answer := Answered(Made(authData, signature.value));
    }

    method MakeNew(env: Env, p: Params) returns (events: seq<Event>, answer: Answer)
      modifies this, store, store.disk
      ensures Out(Snapshot(), events, answer) == MakeCredential(old(Snapshot()), env, p)
    {
      hide ParseMaking, Create, Excluded;
      var parsed := ParseMaking(p);
      if parsed.Raised? { return [], Refused(parsed.error); }
      var m := parsed.value;
      var excluded := IsExcluded(m.rpId, m.exclude);
      if excluded {
        var error;
        events, error := VerifyUser(env);
        if error.Some? { return events, Refused(error.value); }
        return events, Refused(CredentialExcluded);
      }
      var checked, error := VerifyUser(env);
      if error.Some? { return checked, Refused(error.value); }
      events, answer := CreateCredential(env, m);
      events := checked + events;
    }

    method Assert(env: Env, i: nat, c: Credential, hash: seq<Byte>, discoverable: bool, total: nat)
      returns (events: seq<Event>, assertion: Option<Assertion>)
      modifies store, store.disk
      ensures Step(Stored(), events, assertion) == AssertCredential(old(Stored()), env, i, c, hash, discoverable, total)
    {
      hide StoreDo;
      var reply := Advance(env, i, c.credentialId);
      events := [Did(env.others(i), Increment(c.credentialId), env.access(i), reply)];
      if !reply.Counter? || reply.value >= COUNTER_LIMIT { return events, None; }
      var authData := AuthData(c.rpId, true, true, reply.value, None, None);
      events := events + [Built(authData)];
      var signature := env.sign(c.keyRef, authData, hash);
      if signature.None? { return events, None; }
      var a := AssertionOf(c, reply.value, signature.value, discoverable, total);
      events := events + [Finished(a)];
      assertion := Some(a);
    }

    method AssertEach(env: Env, cs: seq<Credential>, hash: seq<Byte>, discoverable: bool)
      returns (events: seq<Event>, assertions: Option<seq<Assertion>>)
      modifies store, store.disk
      ensures Batch(Stored(), events, assertions) == AssertFirst(old(Stored()), env, cs, |cs|, hash, discoverable)
    {
      hide AssertCredential;
      events := [];
      var made := [];
      for i := 0 to |cs|
        invariant Batch(Stored(), events, Some(made)) == AssertFirst(old(Stored()), env, cs, i, hash, discoverable)
      {
        var more, a := Assert(env, i, cs[i], hash, discoverable, |cs|);
        events := events + more;
        if a.None? {
          assertions := None;
          FailureStays(old(Stored()), env, cs, i + 1, hash, discoverable);
          return;
        }
        made := made + [a.value];
      }
      assertions := Some(made);
    }

    method GetAssertions(env: Env, p: Params) returns (events: seq<Event>, answer: Answer)
      modifies this, store, store.disk
      ensures Out(Snapshot(), events, answer) == GetAssertion(old(Snapshot()), env, p)
    {
      hide ParseAsserting, L.FindForRp, AssertFirst, SilentAssertion;
      var parsed := ParseAsserting(p);
      if parsed.Raised? { return [], Refused(parsed.error); }
      var q := parsed.value;
      var credentials := Matching(q.rpId, q.allowed);
      if !q.options.Dict? { return [], Refused(Other); }
      var silent := Entry(q.options, "up").value == Bool(false);
      if credentials == [] { return [], Refused(NoCredentials); }
      if silent {
        var r := SilentAssertion(env, credentials[0], q.hash);
        return r.0, r.1;
      }
      var checked, error := VerifyUser(env);
      if error.Some? { return checked, Refused(error.value); }
      var assertions;
      events, assertions := AssertEach(env, credentials, q.hash, q.allowed.None?);
      events := checked + events;
      if assertions.None? || assertions.value == [] { return events, Refused(Other); }
      nextAssertions := assertions.value[1..];
      nextAssertionTime := env.later;
      answer := Answered(Asserted(assertions.value[0]));
    }

    method NextAssertion(env: Env) returns (answer: Answer)
      modifies this
      ensures Out(Snapshot(), [], answer) == GetNextAssertion(old(Snapshot()), env)
    {
      if nextAssertions == [] { return Refused(NotAllowed); }
      if env.now - nextAssertionTime > NEXT_ASSERTION_WINDOW {
        nextAssertions := [];
        return Refused(NotAllowed);
      }
      var response := nextAssertions[0];
      nextAssertions := nextAssertions[1..];
      nextAssertionTime := env.later;
      answer := Answered(Asserted(response.(total := None)));
    }

    method ResetAll(env: Env) returns (events: seq<Event>, answer: Answer)
      modifies this, store, store.disk
      ensures Out(Snapshot(), events, answer) == Reset(old(Snapshot()), env)
    {
      hide Attempt, CacheAfter, L.ApplyAll;
      if env.now - started > RESET_WINDOW { return [], Refused(NotAllowed); }
      var error;
      events, error := VerifyUser(env);
      if error.Some? { return events, Refused(error.value); }
      OthersAct(env.others(0));
      var reply := store.DestroyAllCredentials(env.access(0));
      events := events + [Did(env.others(0), DestroyAll, env.access(0), reply)];
      if reply == Failed { return events, Refused(Other); }
      answer := if env.keysDestroyed then Answered(Nothing) else Refused(Other);
    }

    method Handle(env: Env, request: seq<Byte>) returns (events: seq<Event>, answer: Answer)
      modifies this, store, store.disk
      ensures Out(Snapshot(), events, answer) == HandleCbor(old(Snapshot()), env, request)
    {
      hide MakeCredential, GetAssertion, GetNextAssertion, Reset;
      if request == [] { return [], Refused(InvalidLength); }
      var command := request[0];
      var p := ParamsOf(env, request);
      if p.Raised? { return [], Refused(p.error); }
      events := [];
      if command == CMD_MAKE_CREDENTIAL {
        events, answer := MakeNew(env, p.value);
      } else if command == CMD_GET_ASSERTION {
        events, answer := GetAssertions(env, p.value);
      } else if command == CMD_GET_INFO {
        answer := Answered(Info);
      } else if command == CMD_RESET {
        events, answer := ResetAll(env);
      } else if command == CMD_GET_NEXT_ASSERTION {
        answer := NextAssertion(env);
      } else if command == CMD_SELECTION {
        var error;
        events, error := VerifyUser(env);
        answer := if error.Some? then Refused(error.value) else Answered(Nothing);
      } else if command == CMD_CLIENT_PIN {
        answer := Refused(PinAuthInvalid);
      } else {
        answer := Refused(InvalidCommand);
      }
    }
  }

  lemma {:induction false} FailureStays(
    s: Store, env: Env, cs: seq<Credential>, n: nat, hash: seq<Byte>, discoverable: bool)
    requires n <= |cs| && AssertFirst(s, env, cs, n, hash, discoverable).assertions.None?
    ensures AssertFirst(s, env, cs, |cs|, hash, discoverable) == AssertFirst(s, env, cs, n, hash, discoverable)
    decreases |cs| - n
  {
    hide AssertCredential;
    if n < |cs| { FailureStays(s, env, cs, n + 1, hash, discoverable); }
  }
}
