/** What the store operations do to the credentials in the file, credential by credential. */
module StoreContents {
  import opened Bytes
  import opened CredentialStore
  import L = StoreLaws

  // ---------- the file ----------

  lemma {:induction false} FromDictsEach(rs: seq<Record>)
    ensures FromDicts(rs).Some? <==> forall i :: 0 <= i < |rs| ==> FromDict(rs[i]).Some?
    ensures FromDicts(rs).Some? ==>
              && |FromDicts(rs).value| == |rs|
              && forall i :: 0 <= i < |rs| ==> FromDict(rs[i]) == Some(FromDicts(rs).value[i])
  {
    hide FromDict;
    if rs != [] {
      var init := rs[..|rs| - 1];
      FromDictsEach(init);
      assert forall i :: 0 <= i < |init| ==> rs[i] == init[i];
    }
  }

  /** A missing file is an empty store; any other is read exactly if its version is 1 and every record can be read. */
  lemma LoadedExactly(f: File)
    ensures f == Missing ==> Loaded(f) == Some([])
    ensures f == Unreadable ==> Loaded(f) == None
    ensures f.Stored? ==>
              (Loaded(f).Some? <==> f.version == 1 && forall i :: 0 <= i < |f.records| ==> FromDict(f.records[i]).Some?)
    ensures f.Stored? && Loaded(f).Some? ==>
              && |Loaded(f).value| == |f.records|
              && forall i :: 0 <= i < |f.records| ==> FromDict(f.records[i]) == Some(Loaded(f).value[i])
  {
    hide FromDict, FromDicts;
    if f.Stored? { FromDictsEach(f.records); }
  }

  // ---------- one operation ----------

  /** The second list is the first one at these positions, in order. */
  ghost predicate Picks(cs: seq<Credential>, picked: seq<Credential>, at: seq<nat>) {
    && |picked| == |at|
    && (forall i, j :: 0 <= i < j < |at| ==> at[i] < at[j])
    && (forall i :: 0 <= i < |at| ==> at[i] < |cs| && picked[i] == cs[at[i]])
  }

  lemma PicksSnoc(cs: seq<Credential>, picked: seq<Credential>, at: seq<nat>, keep: bool)
    requires cs != [] && Picks(cs[..|cs| - 1], picked, at)
    ensures Picks(cs, picked + if keep then [cs[|cs| - 1]] else [], at + if keep then [|cs| - 1] else [])
  {
  }

  lemma {:induction false} WithoutAccountPicks(cs: seq<Credential>, c: Credential) returns (at: seq<nat>)
    ensures Picks(cs, WithoutAccount(cs, c), at)
    ensures forall k :: 0 <= k < |cs| ==> (k in at <==> cs[k].rpId != c.rpId || cs[k].userHandle != c.userHandle)
  {
    at := [];
    if cs != [] {
      var n := |cs| - 1;
      at := WithoutAccountPicks(cs[..n], c);
      var keep := cs[n].rpId != c.rpId || cs[n].userHandle != c.userHandle;
      hide Picks;
      PicksSnoc(cs, WithoutAccount(cs[..n], c), at, keep);
      at := at + if keep then [n] else [];
    }
  }

  lemma {:induction false} WithoutIdPicks(cs: seq<Credential>, id: seq<Byte>) returns (at: seq<nat>)
    ensures Picks(cs, WithoutId(cs, id), at)
    ensures forall k :: 0 <= k < |cs| ==> (k in at <==> cs[k].credentialId != id)
  {
    at := [];
    if cs != [] {
      var n := |cs| - 1;
      at := WithoutIdPicks(cs[..n], id);
      var keep := cs[n].credentialId != id;
      hide Picks;
      PicksSnoc(cs, WithoutId(cs[..n], id), at, keep);
      at := at + if keep then [n] else [];
    }
  }

  /** An unreadable file stays as it is, unless it is destroyed. */
  lemma UnreadableStays(f: File, op: Op)
    requires Loaded(f).None? && op != DestroyAll
    ensures Apply(f, op) == (f, Failed)
  {
  }

  /** add drops the credentials for the same relying party and user handle, keeps all others in order, and appends. */
  lemma AddKeepsOthers(f: File, c: Credential) returns (at: seq<nat>)
    requires Loaded(f).Some?
    ensures var cs, (f', reply) := Loaded(f).value, Apply(f, Add(c));
            && reply == Done && Loaded(f').Some?
            && var cs' := Loaded(f').value;
               && cs' != [] && cs'[|cs'| - 1] == c && Picks(cs, cs'[..|cs'| - 1], at)
               && (forall k :: 0 <= k < |cs| ==>
                     (k in at <==> cs[k].rpId != c.rpId || cs[k].userHandle != c.userHandle))
               && (forall x :: x in cs' <==>
                     x == c || (x in cs && (x.rpId != c.rpId || x.userHandle != c.userHandle)))
  {
    hide Loaded, Saved, Picks;
    L.AppliedList(f, Add(c));
    var cs := Loaded(f).value;
    at := WithoutAccountPicks(cs, c);
    L.WithoutAccountMembers(cs, c);
    var kept := WithoutAccount(cs, c);
    assert (kept + [c])[..|kept|] == kept;
  }

  /** remove drops the credentials with this id and keeps all others in order; it says whether there were any. */
  lemma RemoveTakesId(f: File, id: seq<Byte>) returns (at: seq<nat>)
    requires Loaded(f).Some?
    ensures var cs, (f', reply) := Loaded(f).value, Apply(f, Remove(id));
            && reply == Removed(exists x :: x in cs && x.credentialId == id)
            && (reply == Removed(false) ==> f' == f)
            && Loaded(f').Some? && Picks(cs, Loaded(f').value, at)
            && (forall k :: 0 <= k < |cs| ==> (k in at <==> cs[k].credentialId != id))
            && (forall x :: x in Loaded(f').value <==> x in cs && x.credentialId != id)
  {
    hide Loaded, Saved, Picks;
    L.AppliedList(f, Remove(id));
    var cs := Loaded(f).value;
    at := WithoutIdPicks(cs, id);
    L.WithoutIdMembers(cs, id);
    NothingRemoved(cs, id);
    if |WithoutId(cs, id)| == |cs| {
      assert forall x :: x in cs ==> x in WithoutId(cs, id);
    } else if forall x :: x in cs ==> x.credentialId != id {
      AllKept(cs, id);
    }
  }

  lemma {:induction false} AllKept(cs: seq<Credential>, id: seq<Byte>)
    requires forall x :: x in cs ==> x.credentialId != id
    ensures |WithoutId(cs, id)| == |cs|
  {
    if cs != [] {
      assert cs == cs[..|cs| - 1] + [cs[|cs| - 1]];
      AllKept(cs[..|cs| - 1], id);
    }
  }

  /** increment_counter adds one to the counter of the first credential with this id, and to nothing else. */
  lemma IncrementCountsOne(f: File, id: seq<Byte>) returns (i: nat)
    requires Loaded(f).Some?
    ensures var cs := Loaded(f).value;
            if forall x :: x in cs ==> x.credentialId != id then Apply(f, Increment(id)) == (f, Failed)
            else
              && i < |cs| && cs[i].credentialId == id && (forall j :: 0 <= j < i ==> cs[j].credentialId != id)
              && Apply(f, Increment(id)).1 == Counter(cs[i].signCount + 1)
              && Loaded(Apply(f, Increment(id)).0) == Some(cs[i := cs[i].(signCount := cs[i].signCount + 1)])
  {
    hide Loaded, Saved;
    L.AppliedList(f, Increment(id));
    var cs := Loaded(f).value;
    i := IndexOf(cs, id);
    if i < |cs| { assert cs[i] in cs; }
  }

  /** destroy_all removes the file, readable or not; no file is an empty store. */
  lemma DestroyEmpties(f: File)
    ensures Apply(f, DestroyAll) == (Missing, Done) && Loaded(Missing) == Some([])
  {
  }

  /**
   An operation that cannot have the lock does nothing. One that cannot write leaves the file, and the cache is what it
   would have saved; otherwise the file is what the operation makes of it, and the cache is the list in it.
   */
  lemma AttemptExactly(cache: seq<Credential>, f: File, op: Op, access: Access)
    ensures access == Unlockable ==> Attempt(f, op, access) == (f, Failed) && CacheAfter(cache, f, op, access) == cache
    ensures access == Full ==> Attempt(f, op, access) == Apply(f, op)
    ensures access == Unwritable ==>
              Attempt(f, op, access).0 == f
              && (Apply(f, op).0 != f || op.DestroyAll? ==> Attempt(f, op, access).1 == Failed)
              && (Apply(f, op).1 == Removed(false) ==> Attempt(f, op, access).1 == Removed(false))
    ensures access != Unlockable && Loaded(Apply(f, op).0).Some? ==>
              CacheAfter(cache, f, op, access) == Loaded(Apply(f, op).0).value
    ensures access != Unlockable && Loaded(Apply(f, op).0).None? ==> CacheAfter(cache, f, op, access) == cache
  {
    hide Saved, Mutated, FromDicts;
    if Loaded(f).Some? {
      L.AppliedList(f, op);
    }
    L.DestroyedList([]);
    if Apply(f, op).1 == Removed(false) { NothingFound(f, op); }
  }

  lemma NothingFound(f: File, op: Op)
    requires Apply(f, op).1 == Removed(false)
    ensures !Writes(f, op)
  {
    hide Loaded, Saved;
  }

  // ---------- any run ----------

  /** The operation takes the credential out: an add for its account, a remove of its id, or a destroy_all. */
  predicate TakesOut(op: Op, c: Credential) {
    match op
    case Add(d) => d.rpId == c.rpId && d.userHandle == c.userHandle
    case Increment(_) => false
    case Remove(id) => id == c.credentialId
    case DestroyAll => true
  }

  lemma StaysInStep(f: File, op: Op, x: Credential) returns (y: Credential)
    requires Loaded(f).Some? && x in Loaded(f).value && !TakesOut(op, x)
    ensures Loaded(Apply(f, op).0).Some? && y in Loaded(Apply(f, op).0).value
    ensures y.(signCount := x.signCount) == x && y.signCount >= x.signCount
  {
    hide Loaded, Apply, Picks;
    y := x;
    match op
    case Add(c) => var _ := AddKeepsOthers(f, c);
    case Remove(id) => var _ := RemoveTakesId(f, id);
    case Increment(id) =>
      var i := IncrementCountsOne(f, id);
      var cs := Loaded(f).value;
      var k :| 0 <= k < |cs| && cs[k] == x;
      if exists d :: d in cs && d.credentialId == id {
        var cs' := cs[i := cs[i].(signCount := cs[i].signCount + 1)];
        y := cs'[k];
      }
  }

  /**
   A stored credential is there, up to its counter, after any operations without an add for its account, a remove of
   its id or a destroy_all.
   */
  lemma {:induction false} StaysStored(f: File, ops: seq<Op>, c: Credential) returns (x: Credential)
    requires Loaded(f).Some? && c in Loaded(f).value
    requires forall i :: 0 <= i < |ops| ==> !TakesOut(ops[i], c)
    ensures Loaded(L.ApplyAll(f, ops).0).Some? && x in Loaded(L.ApplyAll(f, ops).0).value
    ensures x.(signCount := c.signCount) == c && x.signCount >= c.signCount
    decreases |ops|
  {
    hide Loaded, Apply;
    x := c;
    if ops != [] {
      var n := |ops| - 1;
      assert forall i :: 0 <= i < n ==> ops[..n][i] == ops[i];
      x := StaysStored(f, ops[..n], c);
      x := StaysInStep(L.ApplyAll(f, ops[..n]).0, ops[n], x);
    }
  }

  /** Up to its counter it is one that was in the file or was added. */
  ghost predicate Known(cs: seq<Credential>, ops: seq<Op>, x: Credential) {
    || (exists c :: c in cs && c == x.(signCount := c.signCount))
    || exists i :: 0 <= i < |ops| && ops[i].Add? && ops[i].credential == x.(signCount := ops[i].credential.signCount)
  }

  lemma ComesFromStep(f: File, op: Op, y: Credential) returns (x: Credential)
    requires Loaded(f).Some? && Loaded(Apply(f, op).0).Some? && y in Loaded(Apply(f, op).0).value
    ensures y == x.(signCount := y.signCount)
    ensures x in Loaded(f).value || op == Add(x)
  {
    hide Loaded, Apply, Picks;
    x := y;
    match op
    case Add(c) => var _ := AddKeepsOthers(f, c);
    case Remove(id) => var _ := RemoveTakesId(f, id);
    case DestroyAll => DestroyEmpties(f);
    case Increment(id) =>
      var i := IncrementCountsOne(f, id);
      var cs, cs' := Loaded(f).value, Loaded(Apply(f, op).0).value;
      if exists d :: d in cs && d.credentialId == id {
        var k :| 0 <= k < |cs'| && cs'[k] == y;
        x := cs[k];
      }
  }

  /** Nothing else gets into the file. */
  lemma {:induction false} ComesFrom(f: File, ops: seq<Op>, x: Credential)
    requires Loaded(f).Some? && Loaded(L.ApplyAll(f, ops).0).Some? && x in Loaded(L.ApplyAll(f, ops).0).value
    ensures Known(Loaded(f).value, ops, x)
    decreases |ops|
  {
    hide Loaded, Apply;
    if ops != [] {
      var n := |ops| - 1;
      var f' := L.ApplyAll(f, ops[..n]).0;
      StaysReadable(f, ops[..n]);
      var y := ComesFromStep(f', ops[n], x);
      if y in Loaded(f').value {
        ComesFrom(f, ops[..n], y);
        assert forall i :: 0 <= i < n ==> ops[..n][i] == ops[i];
      }
    }
  }

  lemma {:induction false} StaysReadable(f: File, ops: seq<Op>)
    requires Loaded(f).Some?
    ensures Loaded(L.ApplyAll(f, ops).0).Some?
    decreases |ops|
  {
    hide Loaded, Apply;
    if ops != [] {
      StaysReadable(f, ops[..|ops| - 1]);
      L.AppliedList(L.ApplyAll(f, ops[..|ops| - 1]).0, ops[|ops| - 1]);
    }
  }
}
