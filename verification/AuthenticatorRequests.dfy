/** Decoded CBOR requests, and how makeCredential and getAssertion read their parameters. */
module AuthenticatorRequests {
  import opened Bytes

  const ES256_ALGORITHM := -7.0

  /** A decoded CBOR item. Numbers are compared by value; a map is looked up by number or by text only. */
  datatype Value =
    | Null
    | Bool(flag: bool)
    | Number(number: real)
    | ByteString(bytes: seq<Byte>)
    | Text(text: string)
    | List(items: seq<Value>)
    | Dict(numbered: map<int, Value>, named: map<string, Value>, others: nat)

  type Params = map<int, Value>

  datatype Err =
    | InvalidLength | InvalidCbor | CborUnexpectedType | InvalidCommand | PinAuthInvalid | PinNotSet
    | MissingParameter | InvalidParameter | InvalidOption | UnsupportedAlgorithm
    | CredentialExcluded | NoCredentials | NotAllowed
    | UserActionTimeout | KeepaliveCancel | OperationDenied
    | Other

  datatype Result<T> = Ok(value: T) | Raised(error: Err)

  function Param(p: Params, k: int): Value {
    if k in p then p[k] else Null
  }

  /** get on a value that must be a map; on anything else it is an unexpected error. */
  function Entry(v: Value, name: string): Result<Value> {
    if !v.Dict? then Raised(Other) else Ok(if name in v.named then v.named[name] else Null)
  }

  predicate Truthy(v: Value) {
    match v
    case Null => false
    case Bool(b) => b
    case Number(n) => n != 0.0
    case ByteString(bs) => bs != []
    case Text(t) => t != ""
    case List(items) => items != []
    case Dict(numbered, named, others) => numbered != map[] || named != map[] || others != 0
  }

  function OrElse(v: Value, default: Value): Value {
    if Truthy(v) then v else default
  }

  const EmptyDict := Dict(map[], map[], 0)

  /** The number a value equals: True equals 1. */
  function Numeric(v: Value): Option<real> {
    match v
    case Bool(b) => Some(if b then 1.0 else 0.0)
    case Number(n) => Some(n)
    case _ => None
  }

  function CheckPinUvAuthParam(v: Value): Result<()> {
    match v
    case Null => Ok(())
    case Bool(_) => Raised(Other)
    case Number(_) => Raised(Other)
    case _ => if Truthy(v) then Ok(()) else Raised(PinNotSet)
  }

  /** any(...) over the key parameters: the first entry that is not a map raises, unless a match comes before it. */
  function OffersES256(items: seq<Value>): Result<bool> {
    if items == [] then Ok(false)
    else if !items[0].Dict? then Raised(Other)
    else if Entry(items[0], "type") == Ok(Text("public-key"))
            && Numeric(Entry(items[0], "alg").value) == Some(ES256_ALGORITHM) then Ok(true)
    else OffersES256(items[1..])
  }

  /** Exactly when a match comes before any entry that is not a map. */
  predicate IsES256(v: Value) {
    && v.Dict? && "type" in v.named && v.named["type"] == Text("public-key")
    && "alg" in v.named && v.named["alg"] == Number(-7.0)
  }

  lemma {:induction false} OffersES256Characterized(items: seq<Value>)
    ensures OffersES256(items) == Ok(true) <==>
            exists i :: 0 <= i < |items| && IsES256(items[i]) && forall j :: 0 <= j < i ==> items[j].Dict?
    ensures OffersES256(items) == Ok(false) <==>
            forall i :: 0 <= i < |items| ==> items[i].Dict? && !IsES256(items[i])
  {
    if items != [] {
      var rest := items[1..];
      OffersES256Characterized(rest);
      if OffersES256(rest) == Ok(true) && items[0].Dict? {
        var i :| 0 <= i < |rest| && IsES256(rest[i]) && forall j :: 0 <= j < i ==> rest[j].Dict?;
        assert IsES256(items[i + 1]);
        assert forall j :: 0 < j < i + 1 ==> items[j] == rest[j - 1];
      }
      if i :| 0 <= i < |items| && IsES256(items[i]) && forall j :: 0 <= j < i ==> items[j].Dict? {
        if i > 0 {
          assert IsES256(rest[i - 1]);
          assert forall j :: 0 <= j < i - 1 ==> rest[j] == items[j + 1];
        }
      }
      if OffersES256(items) != Ok(false) && items[0].Dict? && !IsES256(items[0]) {
        var i :| 0 <= i < |rest| && (!rest[i].Dict? || IsES256(rest[i]));
        assert items[i + 1] == rest[i];
      }
    }
  }

  /** The ids named by the well-formed entries of a list; iterating a map or a string names none. */
  function ListedIds(v: Value): Result<seq<seq<Byte>>> {
    match v
    case List(items) => Ok(IdsOf(items))
    case Null => Raised(Other)
    case Bool(_) => Raised(Other)
    case Number(_) => Raised(Other)
    case _ => Ok([])
  }

  function IdsOf(items: seq<Value>): seq<seq<Byte>> {
    if items == [] then []
    else
      var id := Entry(items[0], "id");
      (if id.Ok? && id.value.ByteString? then [id.value.bytes] else []) + IdsOf(items[1..])
  }

  /** A name as it is stored; only texts are. */
  function NameOf(v: Value): Option<string> {
    if !Truthy(v) then Some("") else if v.Text? then Some(v.text) else None
  }

  /** What makeCredential has read when it looks at the exclude list. */
  datatype Making = Making(
    hash: seq<Byte>, rpId: string, userId: seq<Byte>,
    rpName: Option<string>, userName: Option<string>, displayName: Option<string>,
    resident: bool, credProtect: int, outputsProtection: bool, exclude: seq<seq<Byte>>)

  function ParseMaking(p: Params): Result<Making> {
    var hash, rp, user, keys := Param(p, 1), Param(p, 2), Param(p, 3), Param(p, 4);
    if !hash.ByteString? || !rp.Dict? || !user.Dict? || !keys.List? then Raised(MissingParameter)
    else if CheckPinUvAuthParam(Param(p, 8)).Raised? then Raised(CheckPinUvAuthParam(Param(p, 8)).error)
    else
      var rpId, userId := Entry(rp, "id").value, Entry(user, "id").value;
      if !rpId.Text? || !userId.ByteString? || !(1 <= |userId.bytes| <= 64) then Raised(InvalidParameter)
      else
        var options, extensions := OrElse(Param(p, 7), EmptyDict), OrElse(Param(p, 6), EmptyDict);
        if !options.Dict? then Raised(Other)
        else if Entry(options, "up").value == Bool(false) then Raised(InvalidOption)
        else if OffersES256(keys.items).Raised? then Raised(Other)
        else if !OffersES256(keys.items).value then Raised(UnsupportedAlgorithm)
        else if !extensions.Dict? then Raised(Other)
        else
          var given := "credProtect" in extensions.named;
          var level := if given then Numeric(extensions.named["credProtect"]) else Some(1.0);
          if level !in {Some(1.0), Some(2.0), Some(3.0)} then Raised(InvalidOption)
          else
            var exclude := ListedIds(OrElse(Param(p, 5), List([])));
            if exclude.Raised? then Raised(exclude.error)
            else
              Ok(Making(hash.bytes, rpId.text, userId.bytes,
                        NameOf(Entry(rp, "name").value), NameOf(Entry(user, "name").value),
                        NameOf(Entry(user, "displayName").value),
                        Truthy(Entry(options, "rk").value), level.value.Floor, given, exclude.value))
  }

  /** What getAssertion has read when it looks up the credentials. */
  datatype Asserting = Asserting(rpId: string, hash: seq<Byte>, allowed: Option<seq<seq<Byte>>>, options: Value)

  function ParseAsserting(p: Params): Result<Asserting> {
    var rpId, hash, allow := Param(p, 1), Param(p, 2), Param(p, 3);
    if !rpId.Text? || !hash.ByteString? then Raised(MissingParameter)
    else if CheckPinUvAuthParam(Param(p, 6)).Raised? then Raised(CheckPinUvAuthParam(Param(p, 6)).error)
    else if allow.Null? then Ok(Asserting(rpId.text, hash.bytes, None, OrElse(Param(p, 5), EmptyDict)))
    else
      var ids := ListedIds(allow);
      if ids.Raised? then Raised(ids.error)
      else Ok(Asserting(rpId.text, hash.bytes, Some(ids.value), OrElse(Param(p, 5), EmptyDict)))
  }

  // ---------- which requests are read, and how ----------

  predicate Has(p: Params, k: int) {
    k in p && p[k] != Null
  }

  /** A map with this entry. */
  predicate Holds(p: Params, k: int, name: string, v: Value) {
    k in p && p[k].Dict? && name in p[k].named && p[k].named[name] == v
  }

  /** The zero-length pinUvAuthParam, by which a platform asks for the state of the PIN. */
  predicate ProbesPin(v: Value) {
    match v
    case ByteString(bytes) => |bytes| == 0
    case Text(text) => |text| == 0
    case List(items) => |items| == 0
    case Dict(numbered, named, others) => |numbered| == 0 && |named| == 0 && others == 0
    case _ => false
  }

  predicate HasNoLength(v: Value) {
    v.Bool? || v.Number?
  }

  /** Python's falsy values. */
  predicate Falsy(v: Value) {
    v == Null || v == Bool(false) || v == Number(0.0) || ProbesPin(v)
  }

  lemma FalsyIsNotTruthy(v: Value)
    ensures Falsy(v) <==> !Truthy(v)
  {
    if v.Dict? {
      assert |v.numbered| == 0 <==> v.numbered == map[];
      assert |v.named| == 0 <==> v.named == map[];
    }
  }

  /** Absent, falsy or a map. */
  predicate MapOrNothing(p: Params, k: int) {
    k !in p || Falsy(p[k]) || p[k].Dict?
  }

  /** The parameters that makeCredential cannot do without. */
  predicate HasMakingParts(p: Params) {
    && 1 in p && p[1].ByteString? && 2 in p && p[2].Dict? && 3 in p && p[3].Dict? && 4 in p && p[4].List?
  }

  predicate HasMakingIds(p: Params) {
    && 2 in p && p[2].Dict? && "id" in p[2].named && p[2].named["id"].Text?
    && 3 in p && p[3].Dict? && "id" in p[3].named && p[3].named["id"].ByteString?
    && 1 <= |p[3].named["id"].bytes| <= 64
  }

  ghost predicate OffersKey(items: seq<Value>) {
    exists i :: 0 <= i < |items| && IsES256(items[i]) && forall j :: 0 <= j < i ==> items[j].Dict?
  }

  predicate ProtectionFits(p: Params) {
    6 in p && p[6].Dict? && "credProtect" in p[6].named ==>
      p[6].named["credProtect"] in {Number(1.0), Number(2.0), Number(3.0), Bool(true)}
  }

  /** A list of credentials can be gone through: it is absent, falsy or has items. */
  predicate Iterable(p: Params, k: int) {
    k in p ==> Falsy(p[k]) || !HasNoLength(p[k])
  }

  /** makeCredential gets as far as the exclude list exactly for such requests. */
  lemma MakingAccepted(p: Params)
    ensures ParseMaking(p).Ok? <==>
            && HasMakingParts(p) && (8 in p ==> !ProbesPin(p[8]) && !HasNoLength(p[8])) && HasMakingIds(p)
            && MapOrNothing(p, 7) && !Holds(p, 7, "up", Bool(false)) && OffersKey(p[4].items)
            && MapOrNothing(p, 6) && ProtectionFits(p) && Iterable(p, 5)
  {
    forall v: Value
      ensures Falsy(v) <==> !Truthy(v)
    {
      FalsyIsNotTruthy(v);
    }
    if 4 in p && p[4].List? { OffersES256Characterized(p[4].items); }
  }

  /** The error of a makeCredential that does not get there: the first condition that fails. */
  lemma MakingRefused(p: Params)
    ensures !HasMakingParts(p) ==> ParseMaking(p) == Raised(MissingParameter)
    ensures HasMakingParts(p) && 8 in p && ProbesPin(p[8]) ==> ParseMaking(p) == Raised(PinNotSet)
    ensures HasMakingParts(p) && 8 in p && HasNoLength(p[8]) ==> ParseMaking(p) == Raised(Other)
    ensures HasMakingParts(p) && 8 !in p && !HasMakingIds(p) ==> ParseMaking(p) == Raised(InvalidParameter)
    ensures HasMakingParts(p) && 8 !in p && HasMakingIds(p) && Holds(p, 7, "up", Bool(false)) ==>
              ParseMaking(p) == Raised(InvalidOption)
    ensures HasMakingParts(p) && 8 !in p && HasMakingIds(p) && 7 !in p ==>
              && (!OffersKey(p[4].items) && (forall v :: v in p[4].items ==> v.Dict?) ==>
                    ParseMaking(p) == Raised(UnsupportedAlgorithm))
              && (OffersKey(p[4].items) && !ProtectionFits(p) ==> ParseMaking(p) == Raised(InvalidOption))
  {
    if 4 in p && p[4].List? { OffersES256Characterized(p[4].items); }
    if 8 in p { FalsyIsNotTruthy(p[8]); }
    if 7 in p { FalsyIsNotTruthy(p[7]); }
    if 6 in p { FalsyIsNotTruthy(p[6]); }
  }

  /** The name of an entity: absent or falsy is the empty string, and only a text is one otherwise. */
  ghost predicate Named(name: Option<string>, p: Params, k: int, key: string) {
    && k in p && p[k].Dict?
    && if key !in p[k].named || Falsy(p[k].named[key]) then name == Some("")
       else if p[k].named[key].Text? then name == Some(p[k].named[key].text)
       else name == None
  }

  /** Some entry of the list is a map that has this id. */
  ghost predicate Lists(p: Params, k: int, id: seq<Byte>) {
    k in p && p[k].List? && exists v :: v in p[k].items && v.Dict? && "id" in v.named && v.named["id"] == ByteString(id)
  }

  lemma {:induction false} IdsOfExactly(items: seq<Value>, id: seq<Byte>)
    ensures id in IdsOf(items) <==>
            exists v :: v in items && v.Dict? && "id" in v.named && v.named["id"] == ByteString(id)
  {
    if items != [] {
      IdsOfExactly(items[1..], id);
      assert items == [items[0]] + items[1..];
      if v :| v in items && v.Dict? && "id" in v.named && v.named["id"] == ByteString(id) {
        assert v == items[0] || v in items[1..];
      }
    }
  }

  /** What makeCredential reads from a request that it accepts. */
  lemma MakingRead(p: Params)
    requires ParseMaking(p).Ok?
    ensures var m := ParseMaking(p).value;
            && Param(p, 1) == ByteString(m.hash)
            && Holds(p, 2, "id", Text(m.rpId)) && Holds(p, 3, "id", ByteString(m.userId))
            && 1 <= |m.userId| <= 64
            && Named(m.rpName, p, 2, "name") && Named(m.userName, p, 3, "name")
            && Named(m.displayName, p, 3, "displayName")
            && (m.resident <==> 7 in p && p[7].Dict? && "rk" in p[7].named && !Falsy(p[7].named["rk"]))
            && (m.outputsProtection <==> 6 in p && p[6].Dict? && "credProtect" in p[6].named)
            && (m.outputsProtection ==>
                  var level := p[6].named["credProtect"];
                  level == Number(m.credProtect as real) || (level == Bool(true) && m.credProtect == 1))
            && (!m.outputsProtection ==> m.credProtect == 1)
            && 1 <= m.credProtect <= 3
            && (forall id :: id in m.exclude <==> Lists(p, 5, id))
  {
    var m := ParseMaking(p).value;
    forall v: Value
      ensures Falsy(v) <==> !Truthy(v)
    {
      FalsyIsNotTruthy(v);
    }
    forall id
      ensures id in m.exclude <==> Lists(p, 5, id)
    {
      if 5 in p && p[5].List? { IdsOfExactly(p[5].items, id); }
    }
  }

  /** What getAssertion accepts and reads. */
  lemma AssertingAccepted(p: Params)
    ensures ParseAsserting(p).Ok? <==>
            && 1 in p && p[1].Text? && 2 in p && p[2].ByteString? && (6 in p ==> !ProbesPin(p[6]) && !HasNoLength(p[6]))
            && (3 in p ==> !HasNoLength(p[3]))
    ensures ParseAsserting(p).Ok? ==>
              var q := ParseAsserting(p).value;
              && p[1] == Text(q.rpId) && p[2] == ByteString(q.hash)
              && (q.allowed.None? <==> !Has(p, 3))
              && (q.allowed.Some? ==> forall id :: id in q.allowed.value <==> Lists(p, 3, id))
              && (q.options.Dict? <==> MapOrNothing(p, 5))
              && (q.options.Dict? ==>
                    (Entry(q.options, "up") == Ok(Bool(false)) <==> Holds(p, 5, "up", Bool(false))))
    ensures !(1 in p && p[1].Text? && 2 in p && p[2].ByteString?) ==> ParseAsserting(p) == Raised(MissingParameter)
    ensures 1 in p && p[1].Text? && 2 in p && p[2].ByteString? && 6 in p && ProbesPin(p[6]) ==>
              ParseAsserting(p) == Raised(PinNotSet)
  {
    forall v: Value
      ensures Falsy(v) <==> !Truthy(v)
    {
      FalsyIsNotTruthy(v);
    }
    if 3 in p && p[3].List? {
      forall id
        ensures id in IdsOf(p[3].items) <==> Lists(p, 3, id)
      {
        IdsOfExactly(p[3].items, id);
      }
    }
  }
}
