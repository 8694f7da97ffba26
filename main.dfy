/** The home-address resource: four handlers (create, read, update, delete)
    over a store that maps a phone key to the hash of an address's fields.
    Each handler checks the store, then acts on it, and answers with one
    outcome. `Create`, `Read`, `Update` and `Delete` state each handler at the
    level of records; the class `AddressBook` runs the handlers step by step
    with the store's hash commands and is proved to agree with them. */
module HomeAddressService {
  import opened DataTypes
  import opened RedisHash

  /** What a handler answers. */
  datatype Outcome =
    | Created                      // 201, body null: no address in it
    | Found(address: HomeAddress)  // 200, the stored address as body
    | Updated                      // 200, body null: no address in it
    | NoContent                    // 204, empty body
    | Conflict(phone: Phone)       // 409, the phone already has an address
    | NotFound(phone: Phone)       // 404, the phone has no address
    | InvalidResponse              // 500, the stored hash does not validate as an address
  {
    /** The HTTP status code of the answer. */
    function Status(): (code: int)
      ensures code in {200, 201, 204, 404, 409, 500}
      ensures code >= 400 <==> Conflict? || NotFound? || InvalidResponse?
      ensures code == 200 <==> Found? || Updated?
    {
      match this
      case Created => 201
      case Found(_) => 200
      case Updated => 200
      case NoContent => 204
      case Conflict(_) => 409
      case NotFound(_) => 404
      case InvalidResponse => 500
    }
  }

  const DetailPrefix := "Извините, ваш телефон ("
  const ConflictSuffix := ") уже в базе данных."
  const NotFoundSuffix := ") не найден."

  /** The human-readable detail message of an error answer; it embeds the phone. */
  function Detail(o: Outcome): (d: string)
    requires o.Conflict? || o.NotFound?
    ensures var suffix := if o.Conflict? then ConflictSuffix else NotFoundSuffix;
            |d| == |DetailPrefix| + |o.phone| + |suffix|
            && d[..|DetailPrefix|] == DetailPrefix
            && d[|d| - |suffix|..] == suffix
  {
    DetailPrefix + o.phone + (if o.Conflict? then ConflictSuffix else NotFoundSuffix)
  }

  /** The phone appears in the detail message right after the fixed prefix. */
  lemma DetailNamesPhone(o: Outcome)
    requires o.Conflict? || o.NotFound?
    ensures |DetailPrefix| + |o.phone| <= |Detail(o)|
    ensures Detail(o)[|DetailPrefix|..|DetailPrefix| + |o.phone|] == o.phone
  {
  }

  /** A conflict message never reads like a not-found message: twelve
      characters from the end, one has ')' and the other does not. */
  lemma ConflictAndNotFoundDetailsDiffer(p: Phone, q: Phone)
    ensures DetailPrefix + p + ConflictSuffix != DetailPrefix + q + NotFoundSuffix
  {
    var d := DetailPrefix + p + ConflictSuffix;
    var e := DetailPrefix + q + NotFoundSuffix;
    var n := |NotFoundSuffix|;
    assert d[|d| - n] == ConflictSuffix[|ConflictSuffix| - n] != ')';
    assert e[|e| - n] == NotFoundSuffix[0] == ')';
  }

  /** The detail message tells both the kind of error and the phone: two error
      answers with the same message are the same answer. */
  lemma DetailInjective(o: Outcome, o': Outcome)
    requires o.Conflict? || o.NotFound?
    requires o'.Conflict? || o'.NotFound?
    ensures Detail(o) == Detail(o') <==> o == o'
  {
    if Detail(o) == Detail(o') {
      var d := Detail(o);
      var s := if o.Conflict? then ConflictSuffix else NotFoundSuffix;
      var s' := if o'.Conflict? then ConflictSuffix else NotFoundSuffix;
      assert d == DetailPrefix + o.phone + s;
      assert d == DetailPrefix + o'.phone + s';
      ConflictAndNotFoundDetailsDiffer(o.phone, o'.phone);
      ConflictAndNotFoundDetailsDiffer(o'.phone, o.phone);
      assert |o.phone| == |o'.phone|;
      DetailNamesPhone(o);
      DetailNamesPhone(o');
    }
  }

  /** A handler's answer together with the store it leaves behind. */
  datatype Transition = Transition(outcome: Outcome, store: Db)

  /** Every hash in the store is exactly the six fields of an address: what
      a store written only by these handlers looks like. */
  ghost predicate HoldsOnlyAddresses(s: Db) {
    forall k :: k in s ==> s[k].Keys == FieldNames
  }

  /** Create: refuses a phone that is already present, otherwise writes the
      six fields of the address under it. */
  function Create(s: Db, phone: Phone, a: HomeAddress): (t: Transition)
    ensures t.outcome == Conflict(phone) || t.outcome == Created
    ensures t.outcome.Conflict? <==> phone in s
    ensures t.outcome.Status() == (if phone in s then 409 else 201)
    ensures phone in s ==> t.store == s
    ensures phone !in s ==> phone in t.store && t.store[phone] == ModelDump(a)
    ensures AgreeExcept(s, t.store, phone)
    ensures NoEmptyHash(s) ==> NoEmptyHash(t.store)
  {
    if phone in s then Transition(Conflict(phone), s)
    else Transition(Created, s[phone := ModelDump(a)])
  }

  /** Read: answers 404 for an absent phone, otherwise the stored address as
      the response model sees it (extra fields dropped, a missing one fatal). */
  function Read(s: Db, phone: Phone): (o: Outcome)
    ensures o.NotFound? || o.Found? || o.InvalidResponse?
    ensures o.NotFound? <==> phone !in s
    ensures o.NotFound? ==> o.phone == phone
    ensures o.Found? ==> phone in s && SubMap(ModelDump(o.address), s[phone])
    ensures o.InvalidResponse? <==> phone in s && !(FieldNames <= s[phone].Keys)
  {
    if phone !in s then NotFound(phone)
    else match FromFields(s[phone])
      case Some(a) => Found(a)
      case None => InvalidResponse
  }

  /** Update: answers 404 for an absent phone, otherwise writes the six fields
      of the address over the stored hash. */
  function Update(s: Db, phone: Phone, a: HomeAddress): (t: Transition)
    ensures t.outcome == NotFound(phone) || t.outcome == Updated
    ensures t.outcome.NotFound? <==> phone !in s
    ensures t.outcome.Status() == (if phone in s then 200 else 404)
    ensures phone !in s ==> t.store == s
    ensures phone in s ==> phone in t.store && SubMap(ModelDump(a), t.store[phone])
    ensures phone in s ==> t.store[phone].Keys == s[phone].Keys + FieldNames
    ensures phone in s ==> forall f :: f in s[phone] && f !in FieldNames ==>
              f in t.store[phone] && t.store[phone][f] == s[phone][f]
    ensures AgreeExcept(s, t.store, phone)
    ensures NoEmptyHash(s) ==> NoEmptyHash(t.store)
  {
    if phone !in s then Transition(NotFound(phone), s)
    else Transition(Updated, s[phone := s[phone] + ModelDump(a)])
  }

  /** Delete: answers 404 for a phone without fields, otherwise removes the
      whole record. Either way the phone is absent afterwards. */
  function Delete(s: Db, phone: Phone): (t: Transition)
    ensures t.outcome == NotFound(phone) || t.outcome == NoContent
    ensures t.outcome.NotFound? <==> phone !in s
    ensures NoEmptyHash(s) ==> (t.outcome.NotFound? <==> HKeys(s, phone) == {})
    ensures t.outcome.Status() == (if phone in s then 204 else 404)
    ensures t.store.Keys == s.Keys - {phone}
    ensures AgreeExcept(s, t.store, phone)
    ensures NoEmptyHash(s) ==> NoEmptyHash(t.store)
  {
    if phone !in s then Transition(NotFound(phone), s)
    else Transition(NoContent, s - {phone})
  }

  /** The store as the service sees it, with the handlers as methods that
      issue the store's commands in the order the source does. */
  class AddressBook {
    var db: Db

    ghost predicate Valid()
      reads this
    {
      NoEmptyHash(db)
    }

    /** Connects to a store holding `contents`. */
    constructor (contents: Db)
      requires NoEmptyHash(contents)
      ensures Valid() && db == contents
    {
      db := contents;
    }

    /** EXISTS, then HMSET of the six fields when the phone is new. */
    method CreateAddress(phone: Phone, address: HomeAddress) returns (o: Outcome)
      requires Valid()
      modifies this
      ensures Valid()
      ensures Transition(o, db) == Create(old(db), phone, address)
    {
      if Exists(db, phone) {
        return Conflict(phone);
      }
      assert HGetAll(db, phone) + ModelDump(address) == ModelDump(address);
      db := HMSet(db, phone, ModelDump(address));
      o := Created;
    }

    /** EXISTS, then HGETALL validated against the address model; changes nothing. */
    method ReadAddress(phone: Phone) returns (o: Outcome)
      ensures o == Read(db, phone)
    {
      var present := Exists(db, phone);
      if !present {
        return NotFound(phone);
      }
      var fields := HGetAll(db, phone);
      match FromFields(fields)
      case Some(a) => o := Found(a);
      case None => o := InvalidResponse;
    }

    /** EXISTS, then HMSET of the six fields when the phone is present. */
    method UpdateAddress(phone: Phone, address: HomeAddress) returns (o: Outcome)
      requires Valid()
      modifies this
      ensures Valid()
      ensures Transition(o, db) == Update(old(db), phone, address)
    {
      if !Exists(db, phone) {
        return NotFound(phone);
      }
      db := HMSet(db, phone, ModelDump(address));
      o := Updated;
    }

    /** HKEYS, then HDEL of every listed field when there is any. */
    method DeleteAddress(phone: Phone) returns (o: Outcome)
      requires Valid()
      modifies this
      ensures Valid()
      ensures Transition(o, db) == Delete(old(db), phone)
    {
      ExistsIffHasFields(db, phone);
      var keys := HKeys(db, phone);
      if keys == {} {
        return NotFound(phone);
      }
      DeleteAllFieldsRemovesKey(db, phone);
      db := HDel(db, phone, keys);
      o := NoContent;
    }
  }

  /** Create followed by Read of the same phone returns exactly the address written. */
  lemma CreateThenRead(s: Db, phone: Phone, a: HomeAddress)
    requires phone !in s
    ensures Create(s, phone, a).outcome == Created
    ensures Read(Create(s, phone, a).store, phone) == Found(a)
  {
  }

  /** A second Create of the same phone is refused and changes nothing. */
  lemma CreateTwiceConflicts(s: Db, phone: Phone, a: HomeAddress, b: HomeAddress)
    ensures var t := Create(s, phone, a).store;
            Create(t, phone, b) == Transition(Conflict(phone), t)
  {
  }

  /** Update followed by Read returns the new address, none of the old values mixed in. */
  lemma UpdateThenRead(s: Db, phone: Phone, a: HomeAddress)
    requires phone in s
    ensures Read(Update(s, phone, a).store, phone) == Found(a)
  {
  }

  /** In a store holding only addresses, Update replaces the record outright. */
  lemma UpdateOverwrites(s: Db, phone: Phone, a: HomeAddress)
    requires HoldsOnlyAddresses(s) && phone in s
    ensures Update(s, phone, a).store == s[phone := ModelDump(a)]
  {
    var merged := s[phone] + ModelDump(a);
    assert merged.Keys == ModelDump(a).Keys;
    assert merged == ModelDump(a);
  }

  /** Delete followed by Read answers 404. */
  lemma DeleteThenRead(s: Db, phone: Phone)
    ensures Read(Delete(s, phone).store, phone) == NotFound(phone)
  {
  }

  /** Deleting a freshly created record gives back the store as it was. */
  lemma CreateThenDeleteRestores(s: Db, phone: Phone, a: HomeAddress)
    requires phone !in s
    ensures Delete(Create(s, phone, a).store, phone) == Transition(NoContent, s)
  {
  }

  /** The handlers keep a store that holds only addresses, and in
      such a store Read never fails the response model. */
  lemma HandlersKeepOnlyAddresses(s: Db, phone: Phone, a: HomeAddress)
    requires HoldsOnlyAddresses(s)
    ensures HoldsOnlyAddresses(Create(s, phone, a).store)
    ensures HoldsOnlyAddresses(Update(s, phone, a).store)
    ensures HoldsOnlyAddresses(Delete(s, phone).store)
    ensures !Read(s, phone).InvalidResponse?
  {
  }

  /** Create, Read, Delete, Read of one example record answer 201, 200 with
      the same address, 204 and 404, and leave the store as it was. */
  lemma ExampleLifecycle(s: Db)
    requires "tel:+7-999-999-99-99" !in s
    ensures var phone := "tel:+7-999-999-99-99";
            var a := HomeAddress("Кошкина 11", "12 б.", "Москва", "", "770000", "Russia");
            var c := Create(s, phone, a);
            var r1 := Read(c.store, phone);
            var d := Delete(c.store, phone);
            var r2 := Read(d.store, phone);
            c.outcome.Status() == 201 && r1 == Found(a) && r1.Status() == 200
            && d.outcome.Status() == 204 && r2.Status() == 404 && d.store == s
  {
  }

  /** One request to the service, as the four endpoints receive it. */
  datatype Request =
    | CreateRequest(phone: Phone, address: HomeAddress)
    | ReadRequest(phone: Phone)
    | UpdateRequest(phone: Phone, address: HomeAddress)
    | DeleteRequest(phone: Phone)

  /** Handles one request: only the named phone's record may change, a read
      changes nothing, and the store keeps its invariant. */
  function Handle(s: Db, r: Request): (t: Transition)
    ensures AgreeExcept(s, t.store, r.phone)
    ensures r.ReadRequest? ==> t.store == s
    ensures NoEmptyHash(s) ==> NoEmptyHash(t.store)
  {
    match r
    case CreateRequest(p, a) => Create(s, p, a)
    case ReadRequest(p) => Transition(Read(s, p), s)
    case UpdateRequest(p, a) => Update(s, p, a)
    case DeleteRequest(p) => Delete(s, p)
  }

  /** The store after handling `rs` one after another, each as one atomic step. */
  function Run(s: Db, rs: seq<Request>): Db
    decreases |rs|
  {
    if rs == [] then s else Run(Handle(s, rs[0]).store, rs[1..])
  }

  /** Requests that never name `phone` leave its record as it was. */
  lemma {:induction false} OtherPhonesUnaffected(s: Db, rs: seq<Request>, phone: Phone)
    requires forall i :: 0 <= i < |rs| ==> rs[i].phone != phone
    ensures phone in Run(s, rs) <==> phone in s
    ensures phone in s ==> Run(s, rs)[phone] == s[phone]
    decreases |rs|
  {
    if rs != [] {
      var t := Handle(s, rs[0]).store;
      OtherPhonesUnaffected(t, rs[1..], phone);
    }
  }

  /** Any sequence of requests keeps the store without empty hashes. */
  lemma {:induction false} RunKeepsNoEmptyHash(s: Db, rs: seq<Request>)
    requires NoEmptyHash(s)
    ensures NoEmptyHash(Run(s, rs))
    decreases |rs|
  {
    if rs != [] {
      RunKeepsNoEmptyHash(Handle(s, rs[0]).store, rs[1..]);
    }
  }

  /** Any sequence of requests keeps a store whose hashes hold exactly the six
      address fields. */
  lemma {:induction false} RunKeepsOnlyAddresses(s: Db, rs: seq<Request>)
    requires HoldsOnlyAddresses(s)
    ensures HoldsOnlyAddresses(Run(s, rs))
    decreases |rs|
  {
    if rs != [] {
      match rs[0] {
        case CreateRequest(p, a) => HandlersKeepOnlyAddresses(s, p, a);
        case UpdateRequest(p, a) => HandlersKeepOnlyAddresses(s, p, a);
        case _ =>
      }
      RunKeepsOnlyAddresses(Handle(s, rs[0]).store, rs[1..]);
    }
  }
}
