/** The validators of the Author record: `validate_name` and
    `validate_phone_number`. The record's id is `None` until it is saved; the
    lookup of other authors by name reads an explicit store of (id, name) rows,
    in the order the database returns them. */
module Author {
  import opened Wrappers
  import opened PyStr

  const NameRequired := "Name is required"
  const NameNotUnique := "Author name must be unique"
  const PhoneRequired := "Phone number is required"
  const PhoneDigitsOnly := "Phone number must contain only digits"
  const PhoneTenDigits := "Phone number must be exactly 10 digits"

  /** A stored author, as the name lookup sees it: its id and its name. */
  type Row = (int, string)

  /** Row `k` is the first row of `store` whose name is `name`. */
  ghost predicate FirstMatchAt(store: seq<Row>, name: string, k: int) {
    && 0 <= k < |store|
    && store[k].1 == name
    && forall j :: 0 <= j < k ==> store[j].1 != name
  }

  /** No two rows share a name, as the `unique` column promises. */
  ghost predicate UniqueNames(store: seq<Row>) {
    forall j, k :: 0 <= j < k < |store| ==> store[j].1 != store[k].1
  }

  /** No two rows share an id, as the primary key promises. */
  ghost predicate UniqueIds(store: seq<Row>) {
    forall j, k :: 0 <= j < k < |store| ==> store[j].0 != store[k].0
  }

  /** `Author.query.filter_by(name=name).first()`, reduced to the id of the
      row it finds. */
  function FirstWithName(store: seq<Row>, name: string): (r: Option<int>)
    ensures r.None? <==> forall k :: 0 <= k < |store| ==> store[k].1 != name
    ensures r.Some? ==> exists k :: FirstMatchAt(store, name, k) && store[k].0 == r.value
  {
    if store == [] then
      None
    else if store[0].1 == name then
      assert FirstMatchAt(store, name, 0);
      Some(store[0].0)
    else
      var r := FirstWithName(store[1..], name);
      assert forall k :: 1 <= k < |store| ==> store[k] == store[1..][k - 1];
      assert r.Some? ==> exists k :: FirstMatchAt(store[1..], name, k) && FirstMatchAt(store, name, k + 1)
                                     && store[1..][k].0 == r.value;
      r
  }

  /** `validate_name`: a blank name is refused before the store is consulted;
      otherwise the name is refused when the first stored author holding it
      is a different record. A record without an id differs from every
      stored author. */
  function ValidateName(name: string, store: seq<Row>, selfId: Option<int>): (r: Result<string>)
    ensures r.Ok? ==> r.value == name
    ensures r == Err(NameRequired) <==> AllSpace(name)
    ensures r == Err(NameNotUnique) <==>
              !AllSpace(name) && exists k :: FirstMatchAt(store, name, k) && Some(store[k].0) != selfId
    ensures r.Ok? || r == Err(NameRequired) || r == Err(NameNotUnique)
  {
    if |name| == 0 || Strip(name) == "" then
      Err(NameRequired)
    else
      match FirstWithName(store, name)
      case Some(id) =>
        assert forall k :: FirstMatchAt(store, name, k) ==> store[k].0 == id;
        if Some(id) != selfId then Err(NameNotUnique) else Ok(name)
      case None =>
        Ok(name)
  }

  /** `validate_phone_number`: the number is required, must be all digits,
      and must be exactly ten of them, checked in that order. */
  function ValidatePhoneNumber(phone: string): (r: Result<string>)
    ensures r.Ok? <==> |phone| == 10 && forall i :: 0 <= i < |phone| ==> IsDecimalDigit(phone[i])
    ensures r.Ok? ==> r.value == phone
    ensures r == Err(PhoneRequired) <==> phone == []
    ensures r == Err(PhoneDigitsOnly) <==> exists i :: 0 <= i < |phone| && !IsDecimalDigit(phone[i])
    ensures r == Err(PhoneTenDigits) <==>
              phone != [] && |phone| != 10 && forall i :: 0 <= i < |phone| ==> IsDecimalDigit(phone[i])
  {
    if |phone| == 0 then
      Err(PhoneRequired)
    else if !IsDigit(phone) then
      Err(PhoneDigitsOnly)
    else if |phone| != 10 then
      Err(PhoneTenDigits)
    else
      Ok(phone)
  }

  /** A blank name gets the same answer whatever the store holds and whoever
      asks: the uniqueness lookup never decides it. */
  lemma BlankNameIgnoresStore(name: string, store1: seq<Row>, self1: Option<int>,
                              store2: seq<Row>, self2: Option<int>)
    requires AllSpace(name)
    ensures ValidateName(name, store1, self1) == ValidateName(name, store2, self2) == Err(NameRequired)
  {}

  /** Giving a saved record the name it already holds is accepted, provided
      the store holds each name at most once. */
  lemma {:induction false} OwnNameAccepted(name: string, store: seq<Row>, id: int)
    requires !AllSpace(name)
    requires UniqueNames(store)
    requires (id, name) in store
    ensures ValidateName(name, store, Some(id)) == Ok(name)
  {
    var m :| 0 <= m < |store| && store[m] == (id, name);
    forall k | FirstMatchAt(store, name, k) ensures store[k].0 == id {
      assert k == m;
    }
  }

  /** A record that has not been saved yet is refused any name a stored
      author already holds. */
  lemma {:induction false} NewRecordRefusedTakenName(name: string, store: seq<Row>)
    requires !AllSpace(name)
    requires exists k :: 0 <= k < |store| && store[k].1 == name
    ensures ValidateName(name, store, None) == Err(NameNotUnique)
  {
    var r := FirstWithName(store, name);
    var k :| FirstMatchAt(store, name, k) && store[k].0 == r.value;
  }

  /** Only the first matching row counts: with two rows named "Ann", the
      record of the second row is refused and that of the first accepted. */
  lemma FirstMatchDecides()
    ensures ValidateName("Ann", [(1, "Ann"), (2, "Ann")], Some(2)) == Err(NameNotUnique)
    ensures ValidateName("Ann", [(1, "Ann"), (2, "Ann")], Some(1)) == Ok("Ann")
  {
    assert FirstMatchAt([(1, "Ann"), (2, "Ann")], "Ann", 0);
  }

  /** Saving a new author whose name was accepted keeps the names unique. */
  lemma {:induction false} InsertKeepsNamesUnique(name: string, store: seq<Row>, newId: int)
    requires UniqueNames(store)
    requires ValidateName(name, store, None).Ok?
    ensures UniqueNames(store + [(newId, name)])
  {
    assert FirstWithName(store, name).None?;
  }

  /** Renaming a stored author to a name that was accepted for it keeps the
      names unique, given that ids identify rows. */
  lemma {:induction false} RenameKeepsNamesUnique(name: string, store: seq<Row>, m: int)
    requires UniqueNames(store) && UniqueIds(store)
    requires 0 <= m < |store|
    requires ValidateName(name, store, Some(store[m].0)).Ok?
    ensures UniqueNames(store[m := (store[m].0, name)])
  {
    var r := FirstWithName(store, name);
    if r.Some? {
      var k :| FirstMatchAt(store, name, k) && store[k].0 == r.value;
      assert k == m;
    }
  }

  /** A phone number written with dashes is refused for its dashes even
      though its length is also wrong; the plain digits are accepted. */
  lemma PhoneExamples()
    ensures ValidatePhoneNumber("555-123-4567") == Err(PhoneDigitsOnly)
    ensures ValidatePhoneNumber("5551234567") == Ok("5551234567")
    ensures ValidatePhoneNumber("555123456") == Err(PhoneTenDigits)
  {
    assert !IsDecimalDigit("555-123-4567"[3]);
  }
}
