/**
 * The Google user table and the two service operations that write it: createGoogleUser and
 * findOrCreateGoogleUser. The table keeps googleId and email unique (both are looked up with
 * `findUnique`), and a write that would break that fails the way the database rejects it.
 */
module GoogleUsers {
  import opened Wrappers

  datatype UserType = Buyer | Admin

  datatype GoogleUser = GoogleUser(
    id: nat,
    googleId: string,
    email: string,
    name: string,
    avatar: Option<string>,
    discounts: Option<seq<string>>,
    typeUser: UserType)

  /** The payload of both operations; avatar, discounts and typeUser may be left out. */
  datatype UserData = UserData(
    googleId: string,
    email: string,
    name: string,
    avatar: Option<string>,
    discounts: Option<seq<string>>,
    typeUser: Option<UserType>)

  /** The prefix of every message findOrCreateGoogleUser fails with. */
  const FindOrCreatePrefix: string := "Error finding or creating Google user: "
  /** The prefix of every message createGoogleUser fails with. */
  const CreatePrefix: string := "Error creating Google user: "
  /** The cause the database gives when a write would duplicate a unique field. */
  const UniqueViolation: string := "Unique constraint failed"

  /** googleIds, emails and ids are each unique, and every id is below the next one handed out. */
  predicate Unique(users: seq<GoogleUser>, nextId: nat) {
    && (forall i :: 0 <= i < |users| ==> users[i].id < nextId)
    && (forall i, j :: 0 <= i < j < |users| ==>
          users[i].id != users[j].id && users[i].googleId != users[j].googleId && users[i].email != users[j].email)
  }

  /** The two unique columns `findUnique` is called with. */
  datatype UniqueField = ByGoogleId | ByEmail

  function FieldOf(u: GoogleUser, f: UniqueField): string {
    match f
    case ByGoogleId => u.googleId
    case ByEmail => u.email
  }

  /** `findUnique({ where: { googleId } })` or `findUnique({ where: { email } })`. */
  function FindUnique(users: seq<GoogleUser>, f: UniqueField, key: string): (r: Option<nat>)
    ensures r.Some? ==> r.value < |users| && FieldOf(users[r.value], f) == key
    ensures r.None? ==> forall i :: 0 <= i < |users| ==> FieldOf(users[i], f) != key
  {
    if users == [] then None
    else if FieldOf(users[0], f) == key then Some(0)
    else match FindUnique(users[1..], f, key)
      case None => None
      case Some(k) => Some(k + 1)
  }

  /** The lookup of findOrCreateGoogleUser: by googleId first, by email only when that finds nobody. */
  function Lookup(users: seq<GoogleUser>, data: UserData): (r: Option<nat>)
    ensures FindUnique(users, ByGoogleId, data.googleId).Some? ==> r == FindUnique(users, ByGoogleId, data.googleId)
    ensures FindUnique(users, ByGoogleId, data.googleId).None? ==> r == FindUnique(users, ByEmail, data.email)
  {
    match FindUnique(users, ByGoogleId, data.googleId)
    case Some(i) => Some(i)
    case None => FindUnique(users, ByEmail, data.email)
  }

  /** The row a create writes: absent avatar and discounts stay unset and typeUser defaults to BUYER. */
  function NewUser(id: nat, data: UserData): (u: GoogleUser)
    ensures u.typeUser == (if data.typeUser.Some? then data.typeUser.value else Buyer)
    ensures u.googleId == data.googleId && u.email == data.email && u.name == data.name
  {
    GoogleUser(id, data.googleId, data.email, data.name, data.avatar, data.discounts, data.typeUser.GetOr(Buyer))
  }

  /**
   * The row an update writes: googleId, email and name are replaced, an absent avatar or
   * discounts leaves the stored one, and an absent typeUser keeps the stored type.
   */
  function UpdatedUser(u: GoogleUser, data: UserData): (r: GoogleUser)
    ensures r.id == u.id && r.googleId == data.googleId && r.email == data.email && r.name == data.name
    ensures r.typeUser == (if data.typeUser.Some? then data.typeUser.value else u.typeUser)
    ensures r.avatar == (if data.avatar.Some? then data.avatar else u.avatar)
    ensures r.discounts == (if data.discounts.Some? then data.discounts else u.discounts)
  {
    GoogleUser(u.id, data.googleId, data.email, data.name,
               if data.avatar.Some? then data.avatar else u.avatar,
               if data.discounts.Some? then data.discounts else u.discounts,
               data.typeUser.GetOr(u.typeUser))
  }

  /** Whether some user other than the one at index i already has this email. */
  predicate EmailTakenByOther(users: seq<GoogleUser>, i: nat, email: string) {
    exists j :: 0 <= j < |users| && j != i && users[j].email == email
  }

  /**
   * findOrCreateGoogleUser as a state transition: when the lookup finds a user, that record is
   * updated in place (failing if the new email belongs to someone else); otherwise one user is
   * created under the next id. Every failure carries the findOrCreate prefix.
   */
  function AfterFindOrCreate(users: seq<GoogleUser>, nextId: nat, data: UserData)
    : (r: Result<(seq<GoogleUser>, nat, GoogleUser), string>)
    ensures r.Err? ==> r.error == FindOrCreatePrefix + UniqueViolation
    ensures r.Ok? && Lookup(users, data).None? ==>
      r.value == (users + [NewUser(nextId, data)], nextId + 1, NewUser(nextId, data))
    ensures r.Ok? && Lookup(users, data).Some? ==>
      var i := Lookup(users, data).value;
      r.value == (users[i := UpdatedUser(users[i], data)], nextId, UpdatedUser(users[i], data))
    ensures Lookup(users, data).None? ==> r.Ok?
    ensures Lookup(users, data).Some? ==> (r.Err? <==> EmailTakenByOther(users, Lookup(users, data).value, data.email))
  {
    match Lookup(users, data)
    case None =>
      var u := NewUser(nextId, data);
      Ok((users + [u], nextId + 1, u))
    case Some(i) =>
      if EmailTakenByOther(users, i, data.email) then Err(FindOrCreatePrefix + UniqueViolation)
      else
        var u := UpdatedUser(users[i], data);
        Ok((users[i := u], nextId, u))
  }

  /**
   * findOrCreateGoogleUser adds at most one user per call; it creates one exactly when nobody
   * has the googleId or the email; an update keeps the record's id and position and changes
   * no other user; and googleIds, emails and ids stay unique.
   */
  lemma FindOrCreateEffect(users: seq<GoogleUser>, nextId: nat, data: UserData)
    requires Unique(users, nextId)
    requires AfterFindOrCreate(users, nextId, data).Ok?
    ensures var (users', nextId', u) := AfterFindOrCreate(users, nextId, data).value;
      && Unique(users', nextId')
      && |users| <= |users'| <= |users| + 1
      && (|users'| == |users| + 1 <==>
            (forall i :: 0 <= i < |users| ==> users[i].googleId != data.googleId && users[i].email != data.email))
      && (|users'| == |users| ==>
            var i := Lookup(users, data).value;
            u.id == users[i].id && users'[i] == u
            && forall j :: 0 <= j < |users| && j != i ==> users'[j] == users[j])
      && u.googleId == data.googleId && u.email == data.email && u.name == data.name
  {
    var (users', nextId', u) := AfterFindOrCreate(users, nextId, data).value;
    match Lookup(users, data)
    case None =>
      assert forall i :: 0 <= i < |users| ==> users'[i] == users[i];
    case Some(i) =>
      assert !EmailTakenByOther(users, i, data.email);
      if FindUnique(users, ByGoogleId, data.googleId).None? {
        assert users[i].email == data.email;
      }
      forall j | 0 <= j < |users| && j != i ensures users[j].googleId != data.googleId {
        if FindUnique(users, ByGoogleId, data.googleId).Some? {
          assert FindUnique(users, ByGoogleId, data.googleId).value == i;
        }
      }
  }

  /** The typeUser a findOrCreate call stores: the supplied one, else the stored one on update, else BUYER. */
  lemma FindOrCreateTypeUser(users: seq<GoogleUser>, nextId: nat, data: UserData)
    requires AfterFindOrCreate(users, nextId, data).Ok?
    ensures var u := AfterFindOrCreate(users, nextId, data).value.2;
      u.typeUser ==
        if data.typeUser.Some? then data.typeUser.value
        else if Lookup(users, data).Some? then users[Lookup(users, data).value].typeUser
        else Buyer
  {
  }

  /**
   * createGoogleUser as a state transition: a new user under the next id, typeUser defaulting to
   * BUYER; a googleId or email already in use fails with the create prefix.
   */
  function AfterCreate(users: seq<GoogleUser>, nextId: nat, data: UserData): (r: Result<(seq<GoogleUser>, nat, GoogleUser), string>)
    ensures r.Err? <==> FindUnique(users, ByGoogleId, data.googleId).Some? || FindUnique(users, ByEmail, data.email).Some?
    ensures r.Err? ==> r.error == CreatePrefix + UniqueViolation
    ensures r.Ok? ==> r.value.0 == users + [r.value.2] && r.value.1 == nextId + 1
    ensures r.Ok? ==> r.value.2.id == nextId && r.value.2.typeUser == data.typeUser.GetOr(Buyer)
  {
    if FindUnique(users, ByGoogleId, data.googleId).Some? || FindUnique(users, ByEmail, data.email).Some? then
      Err(CreatePrefix + UniqueViolation)
    else
      var u := NewUser(nextId, data);
      Ok((users + [u], nextId + 1, u))
  }

  /** A successful create keeps googleIds, emails and ids unique. */
  lemma CreateKeepsUnique(users: seq<GoogleUser>, nextId: nat, data: UserData)
    requires Unique(users, nextId) && AfterCreate(users, nextId, data).Ok?
    ensures var (users', nextId', _) := AfterCreate(users, nextId, data).value;
      Unique(users', nextId')
  {
    var (users', nextId', u) := AfterCreate(users, nextId, data).value;
    assert forall i :: 0 <= i < |users| ==> users'[i] == users[i];
  }

  /** The `google` table. */
  class GoogleUserTable {
    var users: seq<GoogleUser>
    var nextId: nat

    ghost predicate Valid()
      reads this
    {
      Unique(users, nextId)
    }

    constructor ()
      ensures Valid() && users == [] && nextId == 0
    {
      users := [];
      nextId := 0;
    }
  }

  /** createGoogleUser: insert one row; the database rejects a duplicate googleId or email. */
  method CreateGoogleUser(table: GoogleUserTable, data: UserData) returns (r: Result<GoogleUser, string>)
    requires table.Valid()
    modifies table
    ensures table.Valid()
    ensures match AfterCreate(old(table.users), old(table.nextId), data)
      case Ok((users', nextId', u)) => r == Ok(u) && table.users == users' && table.nextId == nextId'
      case Err(e) => r == Err(e) && table.users == old(table.users) && table.nextId == old(table.nextId)
  {
    if FindUnique(table.users, ByGoogleId, data.googleId).Some? || FindUnique(table.users, ByEmail, data.email).Some? {
      return Err(CreatePrefix + UniqueViolation);
    }
    CreateKeepsUnique(table.users, table.nextId, data);
    var u := NewUser(table.nextId, data);
    table.users := table.users + [u];
    table.nextId := table.nextId + 1;
    r := Ok(u);
  }

  /** findOrCreateGoogleUser: look up by googleId, then by email, then update the match or create. */
  method FindOrCreateGoogleUser(table: GoogleUserTable, data: UserData) returns (r: Result<GoogleUser, string>)
    requires table.Valid()
    modifies table
    ensures table.Valid()
    ensures match AfterFindOrCreate(old(table.users), old(table.nextId), data)
      case Ok((users', nextId', u)) => r == Ok(u) && table.users == users' && table.nextId == nextId'
      case Err(e) => r == Err(e) && table.users == old(table.users) && table.nextId == old(table.nextId)
  {
    var found := FindUnique(table.users, ByGoogleId, data.googleId);
    if found.None? {
      found := FindUnique(table.users, ByEmail, data.email);
    }
    if found.None? {
      FindOrCreateEffect(table.users, table.nextId, data);
      var u := NewUser(table.nextId, data);
      table.users := table.users + [u];
      table.nextId := table.nextId + 1;
      return Ok(u);
    }
    var i := found.value;
    if EmailTakenByOther(table.users, i, data.email) {
      return Err(FindOrCreatePrefix + UniqueViolation);
    }
    FindOrCreateEffect(table.users, table.nextId, data);
    var u := UpdatedUser(table.users[i], data);
    table.users := table.users[i := u];
    r := Ok(u);
  }
}
