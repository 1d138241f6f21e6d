/** The persistence layer (UserRepository, ApartmentRepository and the parking
    table behind ParkingService) as one in-memory store. Queries follow the
    repository method names and their JPQL; `save` inserts when the entity has
    no id (or an id the store does not hold) and overwrites otherwise.

    The store enforces the unique constraints the controllers rely on when they
    catch constraint violations: username and email are unique among users.
    Space numbers are taken to be unique among parking spaces (Parking.java is
    not part of this model). Ids are generated from a counter, as IDENTITY
    columns are. */
module Repository {
  import opened Common
  import opened Accounts
  import opened Parkings
  import opened Apartments

  /** A unique-constraint violation reported by the store. */
  datatype StoreError = DuplicateKey

  ghost predicate UniqueAccounts(users: map<nat, User>)
  {
    forall i, j :: i in users && j in users && i != j ==>
      users[i].username != users[j].username && users[i].email != users[j].email
  }

  ghost predicate UniqueSpaceNumbers(ps: seq<Parking>)
  {
    forall i, j :: 0 <= i < j < |ps| ==> ps[i].spaceNumber != ps[j].spaceNumber
  }

  predicate UsernameTaken(users: map<nat, User>, name: string)
  {
    exists id :: id in users && users[id].username == name
  }

  predicate EmailTaken(users: map<nat, User>, email: string)
  {
    exists id :: id in users && users[id].email == email
  }

  /** The id of the user with that username, if any (unique in a valid store). */
  ghost function IdOf(users: map<nat, User>, name: string): (r: Option<nat>)
    ensures r.Some? <==> UsernameTaken(users, name)
    ensures r.Some? ==> r.value in users && users[r.value].username == name
  {
    if UsernameTaken(users, name) then
      var id :| id in users && users[id].username == name; Some(id)
    else None
  }

  /** Storing `u` under `id` would break a unique constraint. */
  predicate ClashesWithOthers(users: map<nat, User>, id: nat, u: User)
  {
    exists j :: j in users && j != id && (users[j].username == u.username || users[j].email == u.email)
  }

  predicate SpaceNumberTaken(ps: seq<Parking>, number: string)
  {
    exists i :: 0 <= i < |ps| && ps[i].spaceNumber == number
  }

  /** The ids of the users satisfying `f`. */
  function UserIdsWhere(users: map<nat, User>, f: User -> bool): (r: set<nat>)
    ensures forall id :: id in r <==> id in users && f(users[id])
  {
    set id | id in users && f(users[id])
  }

  class Store {
    var users: map<nat, User>
    var nextUserId: nat
    var apartments: map<nat, ApartmentRow>
    var nextApartmentId: nat
    var parkings: seq<Parking>

    ghost predicate Valid()
      reads this
    {
      && (forall id :: id in users ==> id < nextUserId)
      && (forall id :: id in apartments ==> id < nextApartmentId)
      && UniqueAccounts(users)
      && UniqueSpaceNumbers(parkings)
    }

    constructor ()
      ensures Valid()
      ensures users == map[] && apartments == map[] && parkings == []
    {
      users, nextUserId := map[], 0;
      apartments, nextApartmentId := map[], 0;
      parkings := [];
    }

    // -------------------------------------------------------------------
    // UserRepository

    predicate ExistsByUsername(name: string)
      reads this
    {
      UsernameTaken(users, name)
    }

    predicate ExistsByEmail(email: string)
      reads this
    {
      EmailTaken(users, email)
    }

    /** findByUsername: the one user with that name, if any. */
    method FindByUsername(name: string) returns (r: Option<nat>)
      requires Valid()
      ensures r.Some? <==> ExistsByUsername(name)
      ensures r.Some? ==> r.value in users && users[r.value].username == name
      ensures r.Some? ==> forall id :: id in users && users[id].username == name ==> id == r.value
      ensures r == IdOf(users, name)
    {
      if ExistsByUsername(name) {
        var id :| id in users && users[id].username == name;
        r := Some(id);
      } else {
        r := None;
      }
    }

    /** save(user) for a new user, or for `id` when the store holds it. A
        unique-constraint violation leaves the store unchanged. */
    method SaveUserRow(id: Option<nat>, u: User) returns (r: Result<nat, StoreError>)
      requires Valid()
      modifies this
      ensures Valid()
      ensures apartments == old(apartments) && parkings == old(parkings)
      ensures id.Some? && id.value in old(users) ==>
        if ClashesWithOthers(old(users), id.value, u) then r.Err? && users == old(users)
        else r == Ok(id.value) && users == old(users)[id.value := u]
      ensures !(id.Some? && id.value in old(users)) ==>
        if UsernameTaken(old(users), u.username) || EmailTaken(old(users), u.email)
        then r.Err? && users == old(users)
        else r.Ok? && r.value !in old(users) && users == old(users)[r.value := u]
      ensures r.Err? ==> unchanged(this)
    {
      if id.Some? && id.value in users {
        if ClashesWithOthers(users, id.value, u) {
          r := Err(DuplicateKey);
        } else {
          users := users[id.value := u];
          r := Ok(id.value);
        }
      } else {
        if UsernameTaken(users, u.username) || EmailTaken(users, u.email) {
          r := Err(DuplicateKey);
        } else {
          r := Ok(nextUserId);
          users := users[nextUserId := u];
          nextUserId := nextUserId + 1;
        }
      }
    }

    /** deleteById: removes the user if present, and does nothing otherwise. */
    method DeleteUserRow(id: nat)
      requires Valid()
      modifies this
      ensures Valid()
      ensures users == old(users) - {id}
      ensures apartments == old(apartments) && parkings == old(parkings)
    {
      users := users - {id};
    }

    // -------------------------------------------------------------------
    // ApartmentRepository

    /** save(apartment): overwrites the row under `id` when the store holds it,
        and inserts under a fresh id otherwise; returns the row's id. */
    method SaveApartmentRow(id: Option<nat>, a: ApartmentRow) returns (r: nat)
      requires Valid()
      modifies this
      ensures Valid()
      ensures id.Some? && id.value in old(apartments) ==> r == id.value
      ensures !(id.Some? && id.value in old(apartments)) ==> r !in old(apartments)
      ensures apartments == old(apartments)[r := a]
      ensures users == old(users) && parkings == old(parkings)
    {
      if id.Some? && id.value in apartments {
        r := id.value;
      } else {
        r := nextApartmentId;
        nextApartmentId := nextApartmentId + 1;
      }
      apartments := apartments[r := a];
    }

    /** deleteById for apartments. */
    method DeleteApartmentRow(id: nat)
      requires Valid()
      modifies this
      ensures Valid()
      ensures apartments == old(apartments) - {id}
      ensures users == old(users) && parkings == old(parkings)
    {
      apartments := apartments - {id};
    }

    // -------------------------------------------------------------------
    // Parking spaces (the ParkingService operations the core calls)

    /** createParkingSpace: appends the space; a space number already in use is
        a constraint violation and stores nothing. */
    method CreateParkingSpace(p: Parking) returns (r: Result<nat, StoreError>)
      requires Valid()
      modifies this
      ensures Valid()
      ensures users == old(users) && apartments == old(apartments)
      ensures SpaceNumberTaken(old(parkings), p.spaceNumber) ==> r.Err? && parkings == old(parkings)
      ensures !SpaceNumberTaken(old(parkings), p.spaceNumber) ==>
        r == Ok(|old(parkings)|) && parkings == old(parkings) + [p]
    {
      if SpaceNumberTaken(parkings, p.spaceNumber) {
        r := Err(DuplicateKey);
      } else {
        r := Ok(|parkings|);
        parkings := parkings + [p];
      }
    }

    /** assignParkingSpaceToTenant */
    method AssignParkingSpaceToTenant(k: nat, uid: nat)
      requires Valid() && k < |parkings|
      modifies this
      ensures Valid()
      ensures parkings == AssignToTenant(old(parkings), k, uid)
      ensures users == old(users) && apartments == old(apartments)
    {
      parkings := AssignToTenant(parkings, k, uid);
    }
  }
}
