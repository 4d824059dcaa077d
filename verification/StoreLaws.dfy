/** Laws of the credential store over any sequence of operations, and of its lookup. */
module StoreLaws {
  import opened Bytes
  import opened CredentialStore

  /** Operations one after the other, and their replies. */
  function ApplyAll(f: File, ops: seq<Op>): (r: (File, seq<Reply>))
    ensures |r.1| == |ops|
  {
    if ops == [] then (f, [])
    else
      var (f', replies) := ApplyAll(f, ops[..|ops| - 1]);
      var (f'', reply) := Apply(f', ops[|ops| - 1]);
      (f'', replies + [reply])
  }

  lemma ApplyAllSnoc(f: File, ops: seq<Op>, op: Op)
    ensures ApplyAll(f, ops + [op]).0 == Apply(ApplyAll(f, ops).0, op).0
    ensures ApplyAll(f, ops + [op]).1 == ApplyAll(f, ops).1 + [Apply(ApplyAll(f, ops).0, op).1]
  {
    hide Apply;
    assert (ops + [op])[..|ops + [op]| - 1] == ops;
  }

  lemma {:induction false} ApplyAllConcat(f: File, a: seq<Op>, b: seq<Op>)
    ensures ApplyAll(f, a + b).0 == ApplyAll(ApplyAll(f, a).0, b).0
    ensures ApplyAll(f, a + b).1[..|a|] == ApplyAll(f, a).1
    decreases |b|
  {
    hide Apply;
    if b == [] {
      assert a + b == a;
    } else {
      var n := |b| - 1;
      assert (a + b)[..|a + b| - 1] == a + b[..n];
      ApplyAllConcat(f, a, b[..n]);
    }
  }

  ghost predicate DistinctIds(cs: seq<Credential>) {
    forall i, j :: 0 <= i < j < |cs| ==> cs[i].credentialId != cs[j].credentialId
  }

  ghost predicate OnePerAccount(cs: seq<Credential>) {
    forall i, j :: 0 <= i < j < |cs| ==> !SameAccount(cs[i], cs[j])
  }

  lemma DistinctIdsLast(init: seq<Credential>, last: Credential)
    requires DistinctIds(init + [last])
    ensures DistinctIds(init)
    ensures forall x :: x in init ==> x.credentialId != last.credentialId
  {
    var cs := init + [last];
    assert cs[|init|] == last && forall i :: 0 <= i < |init| ==> cs[i] == init[i];
  }

  lemma DistinctIdsSnoc(cs: seq<Credential>, c: Credential)
    requires DistinctIds(cs) && forall x :: x in cs ==> x.credentialId != c.credentialId
    ensures DistinctIds(cs + [c])
  {
  }

  lemma OnePerAccountLast(init: seq<Credential>, last: Credential)
    requires OnePerAccount(init + [last])
    ensures OnePerAccount(init)
    ensures forall x :: x in init ==> !SameAccount(x, last)
  {
    var cs := init + [last];
    assert cs[|init|] == last && forall i :: 0 <= i < |init| ==> cs[i] == init[i];
  }

  lemma OnePerAccountSnoc(cs: seq<Credential>, c: Credential)
    requires OnePerAccount(cs) && forall x :: x in cs ==> !SameAccount(x, c)
    ensures OnePerAccount(cs + [c])
  {
  }

  lemma {:induction false} WithoutAccountMembers(cs: seq<Credential>, c: Credential)
    ensures forall x :: x in WithoutAccount(cs, c) <==> x in cs && !SameAccount(x, c)
  {
    if cs != [] {
      var init, last := cs[..|cs| - 1], cs[|cs| - 1];
      WithoutAccountMembers(init, c);
      assert cs == init + [last];
    }
  }

  lemma {:induction false} WithoutAccountKeepsIds(cs: seq<Credential>, c: Credential)
    requires DistinctIds(cs)
    ensures DistinctIds(WithoutAccount(cs, c))
  {
    if cs != [] {
      hide DistinctIds;
      assert cs == cs[..|cs| - 1] + [cs[|cs| - 1]];
      DistinctIdsLast(cs[..|cs| - 1], cs[|cs| - 1]);
      WithoutAccountKeepsIds(cs[..|cs| - 1], c);
      WithoutAccountMembers(cs[..|cs| - 1], c);
      var kept := WithoutAccount(cs[..|cs| - 1], c);
      DistinctIdsSnoc(kept, cs[|cs| - 1]);
      assert kept + [] == kept;
    }
  }

  lemma {:induction false} WithoutAccountKeepsAccounts(cs: seq<Credential>, c: Credential)
    requires OnePerAccount(cs)
    ensures OnePerAccount(WithoutAccount(cs, c))
  {
    if cs != [] {
      hide OnePerAccount, SameAccount;
      assert cs == cs[..|cs| - 1] + [cs[|cs| - 1]];
      OnePerAccountLast(cs[..|cs| - 1], cs[|cs| - 1]);
      WithoutAccountKeepsAccounts(cs[..|cs| - 1], c);
      WithoutAccountMembers(cs[..|cs| - 1], c);
      var kept := WithoutAccount(cs[..|cs| - 1], c);
      OnePerAccountSnoc(kept, cs[|cs| - 1]);
      assert kept + [] == kept;
    }
  }

  lemma WithoutAccountKeeps(cs: seq<Credential>, c: Credential)
    ensures forall x :: x in WithoutAccount(cs, c) <==> x in cs && !SameAccount(x, c)
    ensures DistinctIds(cs) ==> DistinctIds(WithoutAccount(cs, c))
    ensures OnePerAccount(cs) ==> OnePerAccount(WithoutAccount(cs, c))
  {
    hide DistinctIds, OnePerAccount, SameAccount, WithoutAccount;
    WithoutAccountMembers(cs, c);
    if DistinctIds(cs) { WithoutAccountKeepsIds(cs, c); }
    if OnePerAccount(cs) { WithoutAccountKeepsAccounts(cs, c); }
  }

  lemma {:induction false} WithoutIdMembers(cs: seq<Credential>, id: seq<Byte>)
    ensures forall x :: x in WithoutId(cs, id) <==> x in cs && x.credentialId != id
  {
    if cs != [] {
      var init, last := cs[..|cs| - 1], cs[|cs| - 1];
      WithoutIdMembers(init, id);
      assert cs == init + [last];
    }
  }

  lemma {:induction false} WithoutIdKeepsIds(cs: seq<Credential>, id: seq<Byte>)
    requires DistinctIds(cs)
    ensures DistinctIds(WithoutId(cs, id))
  {
    if cs != [] {
      hide DistinctIds;
      assert cs == cs[..|cs| - 1] + [cs[|cs| - 1]];
      DistinctIdsLast(cs[..|cs| - 1], cs[|cs| - 1]);
      WithoutIdKeepsIds(cs[..|cs| - 1], id);
      WithoutIdMembers(cs[..|cs| - 1], id);
      var kept := WithoutId(cs[..|cs| - 1], id);
      DistinctIdsSnoc(kept, cs[|cs| - 1]);
      assert kept + [] == kept;
    }
  }

  lemma {:induction false} WithoutIdKeepsAccounts(cs: seq<Credential>, id: seq<Byte>)
    requires OnePerAccount(cs)
    ensures OnePerAccount(WithoutId(cs, id))
  {
    if cs != [] {
      hide OnePerAccount, SameAccount;
      assert cs == cs[..|cs| - 1] + [cs[|cs| - 1]];
      OnePerAccountLast(cs[..|cs| - 1], cs[|cs| - 1]);
      WithoutIdKeepsAccounts(cs[..|cs| - 1], id);
      WithoutIdMembers(cs[..|cs| - 1], id);
      var kept := WithoutId(cs[..|cs| - 1], id);
      OnePerAccountSnoc(kept, cs[|cs| - 1]);
      assert kept + [] == kept;
    }
  }

  lemma WithoutIdKeeps(cs: seq<Credential>, id: seq<Byte>)
    ensures forall x :: x in WithoutId(cs, id) <==> x in cs && x.credentialId != id
    ensures DistinctIds(cs) ==> DistinctIds(WithoutId(cs, id))
    ensures OnePerAccount(cs) ==> OnePerAccount(WithoutId(cs, id))
  {
    hide DistinctIds, OnePerAccount, SameAccount, WithoutId;
    WithoutIdMembers(cs, id);
    if DistinctIds(cs) { WithoutIdKeepsIds(cs, id); }
    if OnePerAccount(cs) { WithoutIdKeepsAccounts(cs, id); }
  }

  /** What Apply leaves is readable, and is the changed list. */
  lemma AppliedList(f: File, op: Op)
    requires Loaded(f).Some?
    ensures var cs := Loaded(f).value;
            var (cs', reply) := Mutated(cs, op);
            Apply(f, op).1 == reply && Loaded(Apply(f, op).0) == Some(if cs'.Some? then cs'.value else cs)
  {
    hide Mutated, Saved;
    var cs' := Mutated(Loaded(f).value, op).0;
    if cs'.Some? { LoadRestoresSaved(cs'.value); }
    if op.DestroyAll? { DestroyedList(Loaded(f).value); }
  }

  /** An operation that does not save leaves the file and counts nothing. */
  lemma UnsavedLeavesFile(f: File, op: Op, access: Access)
    requires !access.Full?
    ensures Attempt(f, op, access).0 == f && !Attempt(f, op, access).1.Counter?
  {
    hide Loaded, Saved;
  }

  lemma DestroyedList(cs: seq<Credential>)
    ensures Mutated(cs, DestroyAll) == (Some([]), Done)
  {
  }

  lemma MutatedKeepsAccounts(cs: seq<Credential>, op: Op)
    requires OnePerAccount(cs)
    ensures Mutated(cs, op).0.Some? ==> OnePerAccount(Mutated(cs, op).0.value)
  {
    match op
    case Add(c) =>
      WithoutAccountKeeps(cs, c);
      var kept := WithoutAccount(cs, c);
      forall i | 0 <= i < |kept|
        ensures !SameAccount(kept[i], c)
      {
        assert kept[i] in kept;
      }
    case Increment(id) =>
    case Remove(id) => WithoutIdKeeps(cs, id);
    case DestroyAll =>
  }

  /** Whatever is done to a store that starts empty, it holds at most one credential per RP and user handle. */
  lemma {:induction false} AccountsStayUnique(ops: seq<Op>)
    ensures Loaded(ApplyAll(Missing, ops).0).Some?
    ensures OnePerAccount(Loaded(ApplyAll(Missing, ops).0).value)
    decreases |ops|
  {
    hide Mutated, Apply, OnePerAccount;
    if ops == [] {
      EmptyIsUnique();
    } else {
      AccountsStayUnique(ops[..|ops| - 1]);
      var f := ApplyAll(Missing, ops[..|ops| - 1]).0;
      AppliedList(f, ops[|ops| - 1]);
      MutatedKeepsAccounts(Loaded(f).value, ops[|ops| - 1]);
    }
  }

  lemma EmptyIsUnique()
    ensures OnePerAccount([])
  {
  }

  // ---------- counters ----------

  /** The ids that the store started with or was ever given. */
  ghost predicate Known(cs0: seq<Credential>, ops: seq<Op>, id: seq<Byte>) {
    if ops == [] then IndexOf(cs0, id) < |cs0|
    else
      var last := ops[|ops| - 1];
      Known(cs0, ops[..|ops| - 1], id) || (last.Add? && last.credential.credentialId == id)
  }

  /** No known id is ever added again. */
  ghost predicate FreshAdds(cs0: seq<Credential>, ops: seq<Op>) {
    ops != [] ==>
      var init, last := ops[..|ops| - 1], ops[|ops| - 1];
      FreshAdds(cs0, init) && (last.Add? ==> !Known(cs0, init, last.credential.credentialId))
  }

  /** The counter a credential came with. */
  function Base(cs0: seq<Credential>, ops: seq<Op>, id: seq<Byte>): nat {
    if ops == [] then (if IndexOf(cs0, id) < |cs0| then cs0[IndexOf(cs0, id)].signCount else 0)
    else
      var last := ops[|ops| - 1];
      if last.Add? && last.credential.credentialId == id then last.credential.signCount
      else Base(cs0, ops[..|ops| - 1], id)
  }

  /** How many increments of this id have succeeded. */
  function Successes(ops: seq<Op>, replies: seq<Reply>, id: seq<Byte>): nat
    requires |ops| == |replies|
  {
    if ops == [] then 0
    else
      var n := |ops| - 1;
      Successes(ops[..n], replies[..n], id) + if ops[n] == Increment(id) && replies[n].Counter? then 1 else 0
  }

  /** Distinct ids, all known, each counter its base plus its successful increments. */
  ghost predicate Counted(cs0: seq<Credential>, ops: seq<Op>, replies: seq<Reply>, cs: seq<Credential>)
    requires |ops| == |replies|
  {
    && DistinctIds(cs)
    && forall c :: c in cs ==>
         Known(cs0, ops, c.credentialId)
         && c.signCount == Base(cs0, ops, c.credentialId) + Successes(ops, replies, c.credentialId)
  }

  lemma {:induction false} UnknownNeverCounted(cs0: seq<Credential>, ops: seq<Op>, id: seq<Byte>, f: File)
    requires Loaded(f) == Some(cs0) && DistinctIds(cs0) && FreshAdds(cs0, ops) && !Known(cs0, ops, id)
    ensures Successes(ops, ApplyAll(f, ops).1, id) == 0
    decreases |ops|
  {
    hide Apply;
    if ops != [] {
      var n := |ops| - 1;
      var init := ops[..n];
      UnknownNeverCounted(cs0, init, id, f);
      CountersCount(cs0, init, f);
      assert ApplyAll(f, ops).1[..n] == ApplyAll(f, init).1;
      if ops[n] == Increment(id) {
        var cs := Loaded(ApplyAll(f, init).0).value;
        AppliedList(ApplyAll(f, init).0, ops[n]);
        assert forall c :: c in cs ==> c.credentialId != id;
      }
    }
  }

  /** One more operation. */
  lemma CountedStep(cs0: seq<Credential>, ops: seq<Op>, replies: seq<Reply>, cs: seq<Credential>)
    requires |ops| == |replies| > 0 && FreshAdds(cs0, ops)
    requires Counted(cs0, ops[..|ops| - 1], replies[..|ops| - 1], cs)
    requires Mutated(cs, ops[|ops| - 1]).1 == replies[|ops| - 1]
    requires ops[|ops| - 1].Add? ==>
               Successes(ops[..|ops| - 1], replies[..|ops| - 1], ops[|ops| - 1].credential.credentialId) == 0
               && !Known(cs0, ops[..|ops| - 1], ops[|ops| - 1].credential.credentialId)
    ensures var cs' := Mutated(cs, ops[|ops| - 1]).0;
            Counted(cs0, ops, replies, if cs'.Some? then cs'.value else cs)
  {
    match ops[|ops| - 1] {
      case Add(c) => CountedAdd(cs0, ops, replies, cs);
      case Increment(id) => CountedIncrement(cs0, ops, replies, cs, id);
      case Remove(id) => WithoutIdKeeps(cs, id);
      case DestroyAll =>
    }
  }

  lemma CountedIncrement(cs0: seq<Credential>, ops: seq<Op>, replies: seq<Reply>, cs: seq<Credential>, id: seq<Byte>)
    requires |ops| == |replies| > 0 && ops[|ops| - 1] == Increment(id)
    requires Counted(cs0, ops[..|ops| - 1], replies[..|ops| - 1], cs)
    requires Mutated(cs, Increment(id)).1 == replies[|ops| - 1]
    ensures var cs' := Mutated(cs, Increment(id)).0;
            Counted(cs0, ops, replies, if cs'.Some? then cs'.value else cs)
  {
    var i := IndexOf(cs, id);
    if i < |cs| {
      var now := Incremented(cs, i);
      forall c | c in now
        ensures Known(cs0, ops, c.credentialId)
        ensures c.signCount == Base(cs0, ops, c.credentialId) + Successes(ops, replies, c.credentialId)
      {
        var k :| 0 <= k < |now| && now[k] == c;
        assert cs[k] in cs;
      }
    }
  }

  lemma CountedAdd(cs0: seq<Credential>, ops: seq<Op>, replies: seq<Reply>, cs: seq<Credential>)
    requires |ops| == |replies| > 0 && ops[|ops| - 1].Add?
    requires Counted(cs0, ops[..|ops| - 1], replies[..|ops| - 1], cs)
    requires Successes(ops[..|ops| - 1], replies[..|ops| - 1], ops[|ops| - 1].credential.credentialId) == 0
    requires !Known(cs0, ops[..|ops| - 1], ops[|ops| - 1].credential.credentialId)
    ensures Counted(cs0, ops, replies, Added(cs, ops[|ops| - 1].credential))
  {
    var n := |ops| - 1;
    var c := ops[n].credential;
    var kept := WithoutAccount(cs, c);
    WithoutAccountKeeps(cs, c);
    assert Known(cs0, ops, c.credentialId);
    forall x | x in kept
      ensures Known(cs0, ops, x.credentialId) && x.credentialId != c.credentialId
      ensures x.signCount == Base(cs0, ops, x.credentialId) + Successes(ops, replies, x.credentialId)
    {
      assert x in cs;
    }
    forall i | 0 <= i < |kept|
      ensures kept[i].credentialId != c.credentialId
    {
      assert kept[i] in kept;
    }
  }

  /**
   For every sequence of operations that never re-adds an id, every stored counter is the counter the
   credential came with plus the number of increments of it that succeeded.
   */
  lemma {:induction false} CountersCount(cs0: seq<Credential>, ops: seq<Op>, f: File)
    requires Loaded(f) == Some(cs0) && DistinctIds(cs0) && FreshAdds(cs0, ops)
    ensures var (f', replies) := ApplyAll(f, ops);
            Loaded(f').Some? && Counted(cs0, ops, replies, Loaded(f').value)
    decreases |ops|
  {
    hide Apply, Mutated;
    if ops == [] {
      forall c | c in cs0
        ensures Known(cs0, [], c.credentialId) && c.signCount == Base(cs0, [], c.credentialId)
      {
        var k :| 0 <= k < |cs0| && cs0[k] == c;
        assert IndexOf(cs0, c.credentialId) == k;
      }
    } else {
      var n := |ops| - 1;
      var init := ops[..n];
      CountersCount(cs0, init, f);
      var (f', replies') := ApplyAll(f, init);
      AppliedList(f', ops[n]);
      var replies := ApplyAll(f, ops).1;
      assert replies[..n] == replies';
      if ops[n].Add? {
        UnknownNeverCounted(cs0, init, ops[n].credential.credentialId, f);
      }
      CountedStep(cs0, ops, replies, Loaded(f').value);
    }
  }

  lemma LastIncrementReply(cs0: seq<Credential>, ops: seq<Op>, f: File, id: seq<Byte>)
    requires Loaded(f) == Some(cs0) && DistinctIds(cs0) && ops != [] && FreshAdds(cs0, ops[..|ops| - 1])
    requires ops[|ops| - 1] == Increment(id) && ApplyAll(f, ops).1[|ops| - 1].Counter?
    ensures ApplyAll(f, ops).1[|ops| - 1].value
            == Base(cs0, ops[..|ops| - 1], id) + Successes(ops, ApplyAll(f, ops).1, id)
    ensures Known(cs0, ops[..|ops| - 1], id)
  {
    hide Apply, FreshAdds, Known, Base, DistinctIds;
    var init := ops[..|ops| - 1];
    CountersCount(cs0, init, f);
    var cs := Loaded(ApplyAll(f, init).0).value;
    AppliedList(ApplyAll(f, init).0, Increment(id));
    assert cs[IndexOf(cs, id)] in cs;
    assert ApplyAll(f, ops).1[..|ops| - 1] == ApplyAll(f, init).1;
  }

  /** A successful increment replies with the base of the credential plus its successes so far. */
  lemma IncrementReply(cs0: seq<Credential>, ops: seq<Op>, f: File, i: nat, id: seq<Byte>)
    requires Loaded(f) == Some(cs0) && DistinctIds(cs0) && FreshAdds(cs0, ops)
    requires i < |ops| && ops[i] == Increment(id) && ApplyAll(f, ops).1[i].Counter?
    ensures ApplyAll(f, ops).1[i].value
            == Base(cs0, ops[..i], id) + Successes(ops[..i + 1], ApplyAll(f, ops[..i + 1]).1, id)
    ensures Known(cs0, ops[..i], id)
  {
    hide Apply, ApplyAll, FreshAdds, Known, Base, DistinctIds, Successes;
    ReplyPrefix(f, ops, i + 1);
    assert ops[..i + 1][..i] == ops[..i];
    FreshPrefix(cs0, ops, i);
    LastIncrementReply(cs0, ops[..i + 1], f, id);
  }

  lemma {:induction false} ReplyPrefix(f: File, ops: seq<Op>, n: nat)
    requires n <= |ops|
    ensures ApplyAll(f, ops[..n]).1 == ApplyAll(f, ops).1[..n]
    decreases |ops|
  {
    hide Apply;
    if n == |ops| {
      assert ops[..n] == ops;
    } else {
      assert ops[..|ops| - 1][..n] == ops[..n];
      ReplyPrefix(f, ops[..|ops| - 1], n);
    }
  }

  lemma {:induction false} SuccessesGrow(ops: seq<Op>, replies: seq<Reply>, id: seq<Byte>, n: nat)
    requires |ops| == |replies| && n < |ops|
    requires ops[|ops| - 1] == Increment(id) && replies[|ops| - 1].Counter?
    ensures Successes(ops[..n], replies[..n], id) < Successes(ops, replies, id)
  {
    SuccessesMonotone(ops[..|ops| - 1], replies[..|ops| - 1], id, n);
    assert ops[..|ops| - 1][..n] == ops[..n] && replies[..|ops| - 1][..n] == replies[..n];
  }

  lemma {:induction false} SuccessesMonotone(ops: seq<Op>, replies: seq<Reply>, id: seq<Byte>, n: nat)
    requires |ops| == |replies| && n <= |ops|
    ensures Successes(ops[..n], replies[..n], id) <= Successes(ops, replies, id)
    decreases |ops|
  {
    if n == |ops| {
      assert ops[..n] == ops && replies[..n] == replies;
    } else {
      SuccessesMonotone(ops[..|ops| - 1], replies[..|ops| - 1], id, n);
      assert ops[..|ops| - 1][..n] == ops[..n] && replies[..|ops| - 1][..n] == replies[..n];
    }
  }

  lemma {:induction false} BaseKept(cs0: seq<Credential>, ops: seq<Op>, id: seq<Byte>, n: nat)
    requires n <= |ops| && FreshAdds(cs0, ops) && Known(cs0, ops[..n], id)
    ensures Base(cs0, ops, id) == Base(cs0, ops[..n], id)
    decreases |ops|
  {
    if n == |ops| {
      assert ops[..n] == ops;
    } else {
      assert ops[..|ops| - 1][..n] == ops[..n];
      BaseKept(cs0, ops[..|ops| - 1], id, n);
      KnownPrefix(cs0, ops[..|ops| - 1], id, n);
    }
  }

  lemma {:induction false} KnownPrefix(cs0: seq<Credential>, ops: seq<Op>, id: seq<Byte>, n: nat)
    requires n <= |ops| && Known(cs0, ops[..n], id)
    ensures Known(cs0, ops, id)
    decreases |ops|
  {
    if n == |ops| {
      assert ops[..n] == ops;
    } else {
      assert ops[..|ops| - 1][..n] == ops[..n];
      KnownPrefix(cs0, ops[..|ops| - 1], id, n);
    }
  }

  lemma SuccessesBetween(ops: seq<Op>, f: File, i: nat, j: nat, id: seq<Byte>)
    requires i < j < |ops| && ops[j] == Increment(id) && ApplyAll(f, ops).1[j].Counter?
    ensures Successes(ops[..i + 1], ApplyAll(f, ops[..i + 1]).1, id)
            < Successes(ops[..j + 1], ApplyAll(f, ops[..j + 1]).1, id)
  {
    hide ApplyAll, Successes;
    var opsJ := ops[..j + 1];
    ReplyPrefix(f, ops, j + 1);
    ReplyPrefix(f, opsJ, i + 1);
    assert opsJ[..i + 1] == ops[..i + 1];
    SuccessesGrow(opsJ, ApplyAll(f, opsJ).1, id, i + 1);
  }

  lemma BaseBetween(cs0: seq<Credential>, ops: seq<Op>, i: nat, j: nat, id: seq<Byte>)
    requires i < j < |ops| && FreshAdds(cs0, ops) && Known(cs0, ops[..i], id)
    ensures Base(cs0, ops[..j], id) == Base(cs0, ops[..i], id)
  {
    hide FreshAdds, Known, Base;
    FreshPrefix(cs0, ops, j);
    assert ops[..j][..i] == ops[..i];
    BaseKept(cs0, ops[..j], id, i);
  }

  /** Of two successful increments of one credential the later replies with the larger value. */
  lemma CountersIncrease(cs0: seq<Credential>, ops: seq<Op>, f: File, i: nat, j: nat, id: seq<Byte>)
    requires Loaded(f) == Some(cs0) && DistinctIds(cs0) && FreshAdds(cs0, ops)
    requires i < j < |ops| && ops[i] == Increment(id) && ops[j] == Increment(id)
    requires ApplyAll(f, ops).1[i].Counter? && ApplyAll(f, ops).1[j].Counter?
    ensures ApplyAll(f, ops).1[i].value < ApplyAll(f, ops).1[j].value
  {
    hide ApplyAll, FreshAdds, Known, Base, DistinctIds, Successes, Loaded;
    IncrementReply(cs0, ops, f, i, id);
    IncrementReply(cs0, ops, f, j, id);
    SuccessesBetween(ops, f, i, j, id);
    BaseBetween(cs0, ops, i, j, id);
  }

  lemma {:induction false} FreshPrefix(cs0: seq<Credential>, ops: seq<Op>, n: nat)
    requires FreshAdds(cs0, ops) && n <= |ops|
    ensures FreshAdds(cs0, ops[..n])
    decreases |ops|
  {
    if n == |ops| {
      assert ops[..n] == ops;
    } else {
      assert ops[..|ops| - 1][..n] == ops[..n];
      FreshPrefix(cs0, ops[..|ops| - 1], n);
    }
  }

  // ---------- lookup ----------

  /** find_for_rp's filter: allow-listed ids when a list is given, resident credentials when it is absent. */
  predicate Matches(c: Credential, rpId: string, allowed: Option<seq<seq<Byte>>>) {
    c.rpId == rpId && if allowed.Some? then c.credentialId in allowed.value else c.resident
  }

  function Matching(cs: seq<Credential>, rpId: string, allowed: Option<seq<seq<Byte>>>): seq<Credential> {
    if cs == [] then []
    else (if Matches(cs[0], rpId, allowed) then [cs[0]] else []) + Matching(cs[1..], rpId, allowed)
  }

  /** Puts a credential before the first one that is not newer. */
  function Insert(c: Credential, cs: seq<Credential>): (r: seq<Credential>)
    ensures |r| == |cs| + 1
  {
    if cs == [] || cs[0].createdAt <= c.createdAt then [c] + cs else [cs[0]] + Insert(c, cs[1..])
  }

  /** sorted(..., key=created_at, reverse=True), which keeps the order of equal keys. */
  function Sorted(cs: seq<Credential>): (r: seq<Credential>)
    ensures |r| == |cs|
  {
    if cs == [] then [] else Insert(cs[0], Sorted(cs[1..]))
  }

  function FindForRp(cs: seq<Credential>, rpId: string, allowed: Option<seq<seq<Byte>>>): seq<Credential> {
    Sorted(Matching(cs, rpId, allowed))
  }

  ghost predicate NewestFirst(cs: seq<Credential>) {
    forall i, j :: 0 <= i < j < |cs| ==> cs[i].createdAt >= cs[j].createdAt
  }

  /** The credentials of one creation time, in their order. */
  function CreatedAt(cs: seq<Credential>, t: real): seq<Credential> {
    if cs == [] then [] else (if cs[0].createdAt == t then [cs[0]] else []) + CreatedAt(cs[1..], t)
  }

  lemma {:induction false} InsertPermutes(c: Credential, cs: seq<Credential>)
    ensures multiset(Insert(c, cs)) == multiset{c} + multiset(cs)
  {
    if cs != [] && !(cs[0].createdAt <= c.createdAt) {
      InsertPermutes(c, cs[1..]);
      assert cs == [cs[0]] + cs[1..];
    }
  }

  lemma CreatedAtCons(c: Credential, cs: seq<Credential>, t: real)
    ensures CreatedAt([c] + cs, t) == (if c.createdAt == t then [c] else []) + CreatedAt(cs, t)
  {
    assert ([c] + cs)[1..] == cs;
  }

  lemma {:induction false} InsertIsStable(c: Credential, cs: seq<Credential>, t: real)
    ensures CreatedAt(Insert(c, cs), t) == CreatedAt([c] + cs, t)
  {
    if cs != [] && !(cs[0].createdAt <= c.createdAt) {
      var rest := cs[1..];
      InsertIsStable(c, rest, t);
      assert cs == [cs[0]] + rest;
      CreatedAtCons(c, cs, t);
      CreatedAtCons(c, rest, t);
      CreatedAtCons(cs[0], rest, t);
      CreatedAtCons(cs[0], Insert(c, rest), t);
    }
  }

  lemma {:induction false} InsertMembers(c: Credential, cs: seq<Credential>)
    ensures forall x :: x in Insert(c, cs) ==> x == c || x in cs
  {
    if cs != [] && !(cs[0].createdAt <= c.createdAt) { InsertMembers(c, cs[1..]); }
  }

  lemma {:induction false} InsertOrders(c: Credential, cs: seq<Credential>)
    requires NewestFirst(cs)
    ensures NewestFirst(Insert(c, cs))
  {
    if cs != [] && !(cs[0].createdAt <= c.createdAt) {
      var rest, tail := cs[1..], Insert(c, cs[1..]);
      InsertOrders(c, rest);
      InsertMembers(c, rest);
      forall k | 0 <= k < |tail|
        ensures cs[0].createdAt >= tail[k].createdAt
      {
        assert tail[k] in tail;
      }
    }
  }

  /** The sort returns a newest-first permutation that keeps the order of credentials of the same time. */
  lemma {:induction false} SortedIsStable(cs: seq<Credential>, t: real)
    ensures NewestFirst(Sorted(cs)) && multiset(Sorted(cs)) == multiset(cs)
    ensures CreatedAt(Sorted(cs), t) == CreatedAt(cs, t)
  {
    if cs != [] {
      SortedIsStable(cs[1..], t);
      InsertPermutes(cs[0], Sorted(cs[1..]));
      InsertIsStable(cs[0], Sorted(cs[1..]), t);
      InsertOrders(cs[0], Sorted(cs[1..]));
      assert cs == [cs[0]] + cs[1..];
      assert ([cs[0]] + Sorted(cs[1..]))[1..] == Sorted(cs[1..]);
    }
  }

  lemma {:induction false} MatchingIsFilter(
    cs: seq<Credential>, rpId: string, allowed: Option<seq<seq<Byte>>>, c: Credential)
    ensures multiset(Matching(cs, rpId, allowed))[c] == if Matches(c, rpId, allowed) then multiset(cs)[c] else 0
  {
    if cs != [] {
      MatchingIsFilter(cs[1..], rpId, allowed, c);
      assert cs == [cs[0]] + cs[1..];
    }
  }

  /** A newest-first list with the same credentials of every time in the same order. */
  ghost predicate StableOrderOf(a: seq<Credential>, cs: seq<Credential>) {
    NewestFirst(a) && |a| == |cs| && forall t :: CreatedAt(a, t) == CreatedAt(cs, t)
  }

  /** There is only one. */
  lemma {:induction false} StableOrderIsUnique(a: seq<Credential>, b: seq<Credential>)
    requires StableOrderOf(a, b) && NewestFirst(b)
    ensures a == b
  {
    if a != [] {
      AtOwnTime(a, b);
      AtOwnTime(b, a);
      assert a[0] == CreatedAt(a, a[0].createdAt)[0];
      forall t
        ensures CreatedAt(a[1..], t) == CreatedAt(b[1..], t)
      {
        assert CreatedAt(a, t) == CreatedAt(b, t);
        if t == a[0].createdAt {
          assert CreatedAt(a[1..], t) == CreatedAt(a, t)[1..] && CreatedAt(b[1..], t) == CreatedAt(b, t)[1..];
        } else {
          assert [] + CreatedAt(a[1..], t) == CreatedAt(a[1..], t) && [] + CreatedAt(b[1..], t) == CreatedAt(b[1..], t);
        }
      }
      StableOrderIsUnique(a[1..], b[1..]);
      assert a == [a[0]] + a[1..] && b == [b[0]] + b[1..];
    }
  }

  /** The newest of a list is not older than the newest of another with the same times. */
  lemma AtOwnTime(a: seq<Credential>, b: seq<Credential>)
    requires NewestFirst(a) && a != [] && b != []
    requires forall t :: CreatedAt(a, t) == CreatedAt(b, t)
    ensures a[0].createdAt >= b[0].createdAt
    ensures CreatedAt(a, a[0].createdAt)[..1] == [a[0]]
  {
    assert CreatedAt(b, b[0].createdAt)[0] == b[0];
    CreatedAtMember(a, b[0].createdAt);
  }

  lemma {:induction false} CreatedAtMember(cs: seq<Credential>, t: real)
    ensures forall c :: c in CreatedAt(cs, t) ==> c in cs && c.createdAt == t
  {
    if cs != [] { CreatedAtMember(cs[1..], t); }
  }

  lemma SortedIsStableOrder(cs: seq<Credential>)
    ensures StableOrderOf(Sorted(cs), cs)
  {
    hide CreatedAt, NewestFirst, Sorted;
    SortedIsStable(cs, 0.0);
    forall t
      ensures CreatedAt(Sorted(cs), t) == CreatedAt(cs, t)
    {
      SortedIsStable(cs, t);
    }
  }

  lemma SameStableOrder(a: seq<Credential>, cs: seq<Credential>)
    requires StableOrderOf(a, cs)
    ensures a == Sorted(cs)
  {
    hide CreatedAt, NewestFirst, Sorted;
    SortedIsStableOrder(cs);
    StableOrderIsUnique(a, Sorted(cs));
  }

  /**
   find_for_rp returns the stable newest-first permutation of exactly the matching credentials; any list
   with these properties is the same list.
   */
  lemma FindForRpCharacterized(
    cs: seq<Credential>, rpId: string, allowed: Option<seq<seq<Byte>>>, found: seq<Credential>)
    ensures found == FindForRp(cs, rpId, allowed) <==> StableOrderOf(found, Matching(cs, rpId, allowed))
    ensures forall c :: multiset(FindForRp(cs, rpId, allowed))[c]
                        == if c.rpId == rpId && (if allowed.Some? then c.credentialId in allowed.value else c.resident)
                           then multiset(cs)[c] else 0
    ensures var all := FindForRp(cs, rpId, allowed);
            forall i, j :: 0 <= i < j < |all| ==> all[i].createdAt >= all[j].createdAt
  {
    hide StableOrderOf, Matching, Sorted;
    var ms := Matching(cs, rpId, allowed);
    SortedIsStableOrder(ms);
    SortedIsStable(ms, 0.0);
    if StableOrderOf(found, ms) { SameStableOrder(found, ms); }
    forall c
      ensures multiset(Sorted(ms))[c] == if Matches(c, rpId, allowed) then multiset(cs)[c] else 0
    {
      MatchingIsFilter(cs, rpId, allowed, c);
    }
  }
}
