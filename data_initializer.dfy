/** DataInitializer: the start-up seeding of the store. A run that finds no
    "admin" account creates it (with up to three attempts), the two sample
    clients, five sample apartments and eight sample parking spaces; a run that
    finds "admin" only tops up apartments and parking spaces when there are
    none. The static `initialized` flag is a field of the DataInitializer
    object, and a run that succeeds sets it.

    Inputs the code gets from its environment are parameters: `dbReady` is
    whether the readiness probe (a user count) succeeds, and `outage[a]` says
    that attempt a (from 0) of saving the admin account fails with a transient
    database error. The sleeps between steps are left out. */
module DataInitializer {
  import opened Common
  import opened Accounts
  import opened Parkings
  import opened Apartments
  import opened Repository
  import opened UserService

  // ---------------------------------------------------------------------
  // Sample data

  const AdminUsername := "admin"
  const AdminEmail := "admin@apartmentsales.com"

  const AdminAccount := User(AdminUsername, AdminEmail, Some("admin123"), "Admin", "User",
                             Some("(555) 123-4567"), Admin, true, {})

  const JohnAccount := User("john.doe", "john.doe@email.com", Some("password123"), "John", "Doe",
                            Some("(555) 234-5678"), Client, true, {})

  const JaneAccount := User("jane.smith", "jane.smith@email.com", Some("password123"), "Jane", "Smith",
                            Some("(555) 345-6789"), Client, true, {})

  // The sample descriptions, each written as a concatenation of short pieces.
  const Description1 := "Beautiful 2-bedroom apartment in the heart of "
    + "downtown with stunning city views. Recently "
    + "renovated with modern amenities."
  const Description2 := "Charming 3-bedroom apartment in a quiet suburban "
    + "neighborhood. Perfect for families with excellent "
    + "schools nearby."
  const Description3 := "Contemporary 1-bedroom apartment with "
    + "floor-to-ceiling windows and panoramic city views. "
    + "Ideal for young professionals."
  const Description4 := "Exclusive 4-bedroom waterfront apartment with "
    + "private balcony and marina access. Premium location "
    + "with stunning ocean views."
  const Description5 := "Charming 2-bedroom apartment in a historic "
    + "building with original architectural details. "
    + "Located in a vibrant neighborhood."

  const Title1 := "Luxury Downtown Apartment"
  const Title2 := "Cozy Suburban Home"
  const Title3 := "Modern City View Apartment"
  const Title4 := "Waterfront Luxury Apartment"
  const Title5 := "Historic District Apartment"
  const Street1 := "123 Main Street"
  const Street2 := "456 Oak Avenue"
  const Street3 := "789 Park Boulevard"
  const Street4 := "321 Harbor Drive"
  const Street5 := "654 Heritage Lane"

  /** Apartments 1, 2 and 5, owned by john.doe. */
  function JohnApartments(john: nat): (r: seq<ApartmentRow>)
    ensures |r| == 3
  {
    [ ApartmentRow(Title1, Description1, Street1, "New York", "NY", "10001",
                   Decimal(750000, 0), 2, 2, 1200, ApartmentStatus.Available, None, Some(john)),
      ApartmentRow(Title2, Description2, Street2, "Los Angeles", "CA", "90210",
                   Decimal(650000, 0), 3, 2, 1500, ApartmentStatus.Available, None, Some(john)),
      ApartmentRow(Title5, Description5, Street5, "Boston", "MA", "02101",
                   Decimal(550000, 0), 2, 1, 1100, ApartmentStatus.Available, None, Some(john)) ]
  }

  /** Apartments 3 and 4, owned by jane.smith; apartment 4 is under contract. */
  function JaneApartments(jane: nat): (r: seq<ApartmentRow>)
    ensures |r| == 2
  {
    [ ApartmentRow(Title3, Description3, Street3, "Chicago", "IL", "60601",
                   Decimal(450000, 0), 1, 1, 800, ApartmentStatus.Available, None, Some(jane)),
      ApartmentRow(Title4, Description4, Street4, "Miami", "FL", "33101",
                   Decimal(1200000, 0), 4, 3, 2200, UnderContract, None, Some(jane)) ]
  }

  /** The apartments createSampleApartments saves, in order, given the ids of
      john.doe and jane.smith when they exist. */
  function SampleApartments(john: Option<nat>, jane: Option<nat>): (r: seq<ApartmentRow>)
    ensures |r| == (if john.Some? then 3 else 0) + (if jane.Some? then 2 else 0)
  {
    (if john.Some? then JohnApartments(john.value) else [])
    + (if jane.Some? then JaneApartments(jane.value) else [])
  }

  const BuildingA1 := "Building A, Level 1"
  const BuildingA2 := "Building A, Level 2"
  const BuildingB1 := "Building B, Level 1"
  const BuildingC1 := "Building C, Level 1"
  const BuildingC2 := "Building C, Level 2"
  const Notes1 := "Standard parking space near main entrance"
  const Notes2 := "Covered large parking space"
  const Notes3 := "Electric vehicle charging station"
  const Notes4 := "Compact parking space for small vehicles"
  const Notes5 := "Handicap accessible parking space"
  const Notes6 := "Motorcycle parking space"
  const Notes7 := "Premium covered parking with electric charging"
  const Notes8 := "Under maintenance - lighting repair"

  /** The eight parking spaces createSampleParkingSpaces creates, in order;
      P-002 gets john.doe and P-003 jane.smith as tenant when they exist.
      Fees are in cents. */
  function SampleParkingSpaces(john: Option<nat>, jane: Option<nat>): (r: seq<Parking>)
    ensures |r| == 8
  {
    [ Parking("P-001", BuildingA1, 5000, Standard, ParkingStatus.Available, false, false, Notes1, None),
      Parking("P-002", BuildingA1, 6000, Large, Occupied, true, false, Notes2, john),
      Parking("P-003", BuildingA2, 7500, Electric, Occupied, true, true, Notes3, jane),
      Parking("P-004", BuildingB1, 4000, Compact, ParkingStatus.Available, false, false, Notes4, None),
      Parking("P-005", BuildingB1, 4500, Handicap, ParkingStatus.Available, false, false, Notes5, None),
      Parking("P-006", BuildingC1, 3000, Motorcycle, ParkingStatus.Available, false, false, Notes6, None),
      Parking("P-007", BuildingC2, 10000, Premium, Reserved, true, true, Notes7, None),
      Parking("P-008", BuildingA2, 5500, Standard, Maintenance, false, false, Notes8, None) ]
  }

  // ---------------------------------------------------------------------
  // Properties of the sample data

  /** P-002 and P-003 are seeded OCCUPIED whether or not their tenant was found,
      so OCCUPIED does not imply a tenant; P-007 is RESERVED with no tenant. */
  lemma SeededStatusWithoutTenant(john: Option<nat>, jane: Option<nat>)
    ensures var ps := SampleParkingSpaces(john, jane);
      && ps[1].status == Occupied && (ps[1].tenant.None? <==> john.None?)
      && ps[2].status == Occupied && (ps[2].tenant.None? <==> jane.None?)
      && ps[6].status == Reserved && ps[6].tenant.None?
    ensures var ps := SampleParkingSpaces(None, None);
      exists k :: 0 <= k < |ps| && ps[k].status == Occupied && ps[k].tenant.None?
  {
    var ps := SampleParkingSpaces(None, None);
    assert ps[1].status == Occupied && ps[1].tenant.None?;
  }

  /** Every sample apartment meets the entity's numeric constraints (a price
      above zero, and positive bedrooms, bathrooms and square feet), has the
      owner it was created for and no image; only the last of jane.smith's
      is not AVAILABLE. */
  lemma SampleApartmentsWellFormed(john: Option<nat>, jane: Option<nat>)
    ensures var rows := SampleApartments(john, jane);
      forall i :: 0 <= i < |rows| ==>
        && rows[i].price.unscaled > 0 && rows[i].bedrooms > 0 && rows[i].bathrooms > 0 && rows[i].squareFeet > 0
        && rows[i].imageUrl.None?
        && rows[i].owner == (if john.Some? && i < 3 then john else jane)
        && (rows[i].status == ApartmentStatus.Available <==> !(jane.Some? && i == |rows| - 1))
  {
    var rows := SampleApartments(john, jane);
    forall i | 0 <= i < |rows|
      ensures rows[i].price.unscaled > 0 && rows[i].bedrooms > 0 && rows[i].bathrooms > 0 && rows[i].squareFeet > 0
      ensures rows[i].imageUrl.None?
      ensures rows[i].owner == (if john.Some? && i < 3 then john else jane)
      ensures rows[i].status == ApartmentStatus.Available <==> !(jane.Some? && i == |rows| - 1)
    {
      if john.Some? && i < 3 {
        assert rows[i] == JohnApartments(john.value)[i];
      } else {
        var k := if john.Some? then i - 3 else i;
        assert rows[i] == JaneApartments(jane.value)[k];
      }
    }
  }

  /** Every sample apartment passes the entity's validation constraints, so
      none of the saves in createSampleApartments is refused by them. */
  lemma SampleApartmentsValid(john: Option<nat>, jane: Option<nat>)
    ensures var rows := SampleApartments(john, jane);
      forall i :: 0 <= i < |rows| ==> ValidApartment(rows[i])
  {
    var rows := SampleApartments(john, jane);
    forall i | 0 <= i < |rows|
      ensures ValidApartment(rows[i])
    {
      if john.Some? && i < 3 {
        JohnApartmentsValid(john.value, i);
        assert rows[i] == JohnApartments(john.value)[i];
      } else {
        var k := if john.Some? then i - 3 else i;
        JaneApartmentsValid(jane.value, k);
        assert rows[i] == JaneApartments(jane.value)[k];
      }
    }
  }

  lemma JohnApartmentsValid(john: nat, i: nat)
    requires i < 3
    ensures ValidApartment(JohnApartments(john)[i])
  {
    var rows := JohnApartments(john);
    if i == 0 {
      ValidByLastCharacters(rows[0]);
    } else if i == 1 {
      ValidByLastCharacters(rows[1]);
    } else {
      ValidByLastCharacters(rows[2]);
    }
  }

  lemma JaneApartmentsValid(jane: nat, i: nat)
    requires i < 2
    ensures ValidApartment(JaneApartments(jane)[i])
  {
    var rows := JaneApartments(jane);
    if i == 0 {
      ValidByLastCharacters(rows[0]);
    } else {
      ValidByLastCharacters(rows[1]);
    }
  }

  /** The free spaces of a freshly seeded parking table are P-001, P-004,
      P-005 and P-006, in that order. */
  lemma SeededFreeSpaces(john: Option<nat>, jane: Option<nat>)
    ensures UnassignedAvailable(SampleParkingSpaces(john, jane)) == [0, 3, 4, 5]
  {
    var ps := SampleParkingSpaces(john, jane);
    assert IsFree(ps[0]) && !IsFree(ps[1]) && !IsFree(ps[2]) && IsFree(ps[3]);
    assert IsFree(ps[4]) && IsFree(ps[5]) && !IsFree(ps[6]) && !IsFree(ps[7]);
    FreeAtZeroThreeFourFive(ps);
  }

  /** After seeding, the first new client is given P-001, and of any number of
      distinct new clients at most four get a space. */
  lemma SeededParkingCapacity(john: Option<nat>, jane: Option<nat>, uid: nat, uids: seq<nat>)
    requires forall i, j :: 0 <= i < j < |uids| ==> uids[i] != uids[j]
    requires forall i :: 0 <= i < |uids| ==> SpacesOf(SampleParkingSpaces(john, jane), uids[i]) == []
    requires SpacesOf(SampleParkingSpaces(john, jane), uid) == []
    ensures var ps := SampleParkingSpaces(john, jane);
      var (qs, granted) := AutoAssign(ps, uid, Client);
      granted && qs[0].tenant == Some(uid) && qs[0].spaceNumber == "P-001"
    ensures AdmitAll(SampleParkingSpaces(john, jane), uids).1 == if |uids| < 4 then |uids| else 4
  {
    var ps := SampleParkingSpaces(john, jane);
    SeededFreeSpaces(john, jane);
    AutoAssignBindsFirstCandidate(ps, uid);
    AdmitAllAssignsUpToCapacity(ps, uids);
  }

  // ---------------------------------------------------------------------
  // The seeding steps

  /** `after` is `before` with `rows` added under the new, distinct `ids`, and
      every row `before` held kept. */
  ghost predicate AddedRows(before: map<nat, ApartmentRow>, after: map<nat, ApartmentRow>,
                            ids: seq<nat>, rows: seq<ApartmentRow>)
  {
    && |ids| == |rows|
    && (forall i :: 0 <= i < |ids| ==> ids[i] !in before)
    && (forall i, j :: 0 <= i < j < |ids| ==> ids[i] != ids[j])
    && (forall i :: 0 <= i < |ids| ==> ids[i] in after && after[ids[i]] == rows[i])
    && after.Keys == before.Keys + Elements(ids)
    && (forall id :: id in before ==> after[id] == before[id])
  }

  lemma AddedRowsStep(before: map<nat, ApartmentRow>, mid: map<nat, ApartmentRow>, ids: seq<nat>,
                      rows: seq<ApartmentRow>, id: nat, row: ApartmentRow)
    requires AddedRows(before, mid, ids, rows) && id !in mid
    ensures AddedRows(before, mid[id := row], ids + [id], rows + [row])
  {
    assert Elements(ids + [id]) == Elements(ids) + {id};
  }

  /** Adding rows under new distinct ids grows the table by their number. */
  lemma AddedRowsCount(before: map<nat, ApartmentRow>, after: map<nat, ApartmentRow>,
                       ids: seq<nat>, rows: seq<ApartmentRow>)
    requires AddedRows(before, after, ids, rows)
    ensures |after| == |before| + |rows|
  {
    DistinctElementsCount(ids);
    assert after.Keys == before.Keys + Elements(ids);
    assert before.Keys * Elements(ids) == {};
    DisjointUnionSize(before.Keys, Elements(ids));
  }

  /** Adding `rows` and then `more` is adding their concatenation. */
  lemma AddedRowsConcat(before: map<nat, ApartmentRow>, mid: map<nat, ApartmentRow>, after: map<nat, ApartmentRow>,
                        ids: seq<nat>, rows: seq<ApartmentRow>, ids2: seq<nat>, more: seq<ApartmentRow>)
    requires AddedRows(before, mid, ids, rows) && AddedRows(mid, after, ids2, more)
    ensures AddedRows(before, after, ids + ids2, rows + more)
  {
    ElementsConcat(ids, ids2);
    ConcatIdsDistinct(before, mid, ids, rows, ids2);
    ConcatRowsStored(before, mid, after, ids, rows, ids2, more);
  }

  lemma ConcatIdsDistinct(before: map<nat, ApartmentRow>, mid: map<nat, ApartmentRow>,
                          ids: seq<nat>, rows: seq<ApartmentRow>, ids2: seq<nat>)
    requires AddedRows(before, mid, ids, rows)
    requires forall i :: 0 <= i < |ids2| ==> ids2[i] !in mid
    requires forall i, j :: 0 <= i < j < |ids2| ==> ids2[i] != ids2[j]
    ensures forall i, j :: 0 <= i < j < |ids + ids2| ==> (ids + ids2)[i] != (ids + ids2)[j]
  {
    var all := ids + ids2;
    forall i, j | 0 <= i < j < |all| ensures all[i] != all[j] {
      if j < |ids| {
        assert all[i] == ids[i] && all[j] == ids[j];
      } else if i >= |ids| {
        assert all[i] == ids2[i - |ids|] && all[j] == ids2[j - |ids|];
      } else {
        assert all[i] == ids[i] && ids[i] in mid;
        assert all[j] == ids2[j - |ids|];
      }
    }
  }

  lemma ConcatRowsStored(before: map<nat, ApartmentRow>, mid: map<nat, ApartmentRow>, after: map<nat, ApartmentRow>,
                         ids: seq<nat>, rows: seq<ApartmentRow>, ids2: seq<nat>, more: seq<ApartmentRow>)
    requires AddedRows(before, mid, ids, rows) && AddedRows(mid, after, ids2, more)
    ensures forall i :: 0 <= i < |ids + ids2| ==>
      (ids + ids2)[i] !in before && (ids + ids2)[i] in after && after[(ids + ids2)[i]] == (rows + more)[i]
  {
    var all := ids + ids2;
    forall i | 0 <= i < |all| ensures all[i] !in before && all[i] in after && after[all[i]] == (rows + more)[i] {
      if i < |ids| {
        assert all[i] == ids[i] && (rows + more)[i] == rows[i];
        assert ids[i] in mid;
      } else {
        assert all[i] == ids2[i - |ids|] && (rows + more)[i] == more[i - |ids|];
      }
    }
  }

  /** Saves each row as a new apartment, in order, returning their ids. */
  method SaveNewRows(store: Store, rows: seq<ApartmentRow>) returns (ids: seq<nat>)
    requires store.Valid()
    modifies store
    ensures store.Valid()
    ensures store.users == old(store.users) && store.parkings == old(store.parkings)
    ensures AddedRows(old(store.apartments), store.apartments, ids, rows)
  {
    ids := [];
    assert Elements(ids) == {};
    for k := 0 to |rows|
      invariant store.Valid()
      invariant store.users == old(store.users) && store.parkings == old(store.parkings)
      invariant AddedRows(old(store.apartments), store.apartments, ids, rows[..k])
    {
      ghost var mid := store.apartments;
      var id := store.SaveApartmentRow(None, rows[k]);
      AddedRowsStep(old(store.apartments), mid, ids, rows[..k], id, rows[k]);
      assert rows[..k + 1] == rows[..k] + [rows[k]];
      ids := ids + [id];
    }
    assert rows[..|rows|] == rows;
  }

  /** createSampleApartments: saves john.doe's three apartments if he exists,
      then jane.smith's two if she exists, each as a new row. Returns the new
      ids in order. */
  method CreateSampleApartments(store: Store) returns (ids: seq<nat>)
    requires store.Valid()
    modifies store
    ensures store.Valid()
    ensures store.users == old(store.users) && store.parkings == old(store.parkings)
    ensures AddedRows(old(store.apartments), store.apartments, ids,
                      SampleApartments(IdOf(old(store.users), "john.doe"), IdOf(old(store.users), "jane.smith")))
  {
    var john := store.FindByUsername("john.doe");
    var jane := store.FindByUsername("jane.smith");
    var mine := if john.Some? then JohnApartments(john.value) else [];
    var hers := if jane.Some? then JaneApartments(jane.value) else [];
    ghost var start := store.apartments;
    var ids1 := SaveNewRows(store, mine);
    ghost var mid := store.apartments;
    var ids2 := SaveNewRows(store, hers);
    AddedRowsConcat(start, mid, store.apartments, ids1, mine, ids2, hers);
    ids := ids1 + ids2;
  }

  /** Creates `samples` in order until the first creation that fails. Returns
      how many were created. */
  method CreateSpaces(store: Store, samples: seq<Parking>) returns (n: nat)
    requires store.Valid()
    modifies store
    ensures store.Valid()
    ensures store.users == old(store.users) && store.apartments == old(store.apartments)
    ensures n <= |samples| && store.parkings == old(store.parkings) + samples[..n]
    ensures n < |samples| ==> SpaceNumberTaken(old(store.parkings) + samples[..n], samples[n].spaceNumber)
  {
    n := 0;
    while n < |samples|
      invariant n <= |samples|
      invariant store.Valid()
      invariant store.users == old(store.users) && store.apartments == old(store.apartments)
      invariant store.parkings == old(store.parkings) + samples[..n]
    {
      var r := store.CreateParkingSpace(samples[n]);
      if r.Err? {
        return;
      }
      assert samples[..n + 1] == samples[..n] + [samples[n]];
      n := n + 1;
    }
  }

  /** createSampleParkingSpaces: creates the eight sample spaces in order; the
      first creation that fails (a space number already in use) ends the
      method, and the spaces created before it stay. Into an empty parking
      table all eight are created. Returns how many were created. */
  method CreateSampleParkingSpaces(store: Store) returns (n: nat)
    requires store.Valid()
    modifies store
    ensures store.Valid()
    ensures store.users == old(store.users) && store.apartments == old(store.apartments)
    ensures var samples := SampleParkingSpaces(IdOf(old(store.users), "john.doe"), IdOf(old(store.users), "jane.smith"));
      && n <= |samples|
      && store.parkings == old(store.parkings) + samples[..n]
      && (n < |samples| ==> SpaceNumberTaken(old(store.parkings) + samples[..n], samples[n].spaceNumber))
      && (old(store.parkings) == [] ==> n == |samples|)
  {
    var john := store.FindByUsername("john.doe");
    var jane := store.FindByUsername("jane.smith");
    var samples := SampleParkingSpaces(john, jane);
    n := CreateSpaces(store, samples);
    SampleSpaceNumbersUnique(john, jane);
    UniqueSpaceNumbersNoClash(samples, n);
  }

  /** The eight sample space numbers differ. */
  lemma SampleSpaceNumbersUnique(john: Option<nat>, jane: Option<nat>)
    ensures UniqueSpaceNumbers(SampleParkingSpaces(john, jane))
  {
    var ps := SampleParkingSpaces(john, jane);
    var digits := "12345678";
    assert forall i :: 0 <= i < 8 ==> |ps[i].spaceNumber| == 5 && ps[i].spaceNumber[4] == digits[i];
  }

  /** In a list of distinct space numbers, no entry's number is taken by the
      entries before it. */
  lemma UniqueSpaceNumbersNoClash(ps: seq<Parking>, n: nat)
    requires UniqueSpaceNumbers(ps)
    ensures n < |ps| ==> !SpaceNumberTaken([] + ps[..n], ps[n].spaceNumber)
  {
    if n < |ps| {
      assert [] + ps[..n] == ps[..n];
    }
  }

  /** checkAndCreateSampleParkingSpaces: seeds parking only into an empty
      parking table. */
  method CheckAndCreateSampleParkingSpaces(store: Store)
    requires store.Valid()
    modifies store
    ensures store.Valid()
    ensures store.users == old(store.users) && store.apartments == old(store.apartments)
    ensures old(store.parkings) != [] ==> store.parkings == old(store.parkings)
    ensures old(store.parkings) == [] ==>
      store.parkings == SampleParkingSpaces(IdOf(old(store.users), "john.doe"), IdOf(old(store.users), "jane.smith"))
  {
    if |store.parkings| == 0 {
      var _ := CreateSampleParkingSpaces(store);
    }
  }

  /** checkAndCreateSampleApartments: seeds apartments only into an empty
      apartment table, then does the same for parking. */
  method CheckAndCreateSampleApartments(store: Store)
    requires store.Valid()
    modifies store
    ensures store.Valid()
    ensures store.users == old(store.users)
    ensures old(store.apartments) != map[] ==> store.apartments == old(store.apartments)
    ensures old(store.apartments) == map[] ==>
      |store.apartments| == |SampleApartments(IdOf(old(store.users), "john.doe"), IdOf(old(store.users), "jane.smith"))|
    ensures old(store.apartments) == map[] ==>
      exists ids :: AddedRows(map[], store.apartments, ids,
                              SampleApartments(IdOf(old(store.users), "john.doe"), IdOf(old(store.users), "jane.smith")))
    ensures old(store.parkings) != [] ==> store.parkings == old(store.parkings)
    ensures old(store.parkings) == [] ==>
      store.parkings == SampleParkingSpaces(IdOf(old(store.users), "john.doe"), IdOf(old(store.users), "jane.smith"))
  {
    if |store.apartments| == 0 {
      ghost var before := store.apartments;
      ghost var users := store.users;
      var ids := CreateSampleApartments(store);
      AddedRowsCount(before, store.apartments, ids, SampleApartments(IdOf(users, "john.doe"), IdOf(users, "jane.smith")));
    }
    CheckAndCreateSampleParkingSpaces(store);
  }

  /** The repeated admin check before creating it: up to three reads of
      existsByUsername("admin"), stopping at the first that finds it. */
  method CheckAdminExists(store: Store) returns (adminExists: bool)
    ensures adminExists == store.ExistsByUsername(AdminUsername)
  {
    adminExists := false;
    var i := 0;
    while i < 3
      invariant 0 <= i <= 3
      invariant !adminExists
      invariant i > 0 ==> !store.ExistsByUsername(AdminUsername)
    {
      adminExists := store.ExistsByUsername(AdminUsername);
      if adminExists {
        break;
      }
      i := i + 1;
    }
  }

  /** Attempt `a` (from 0) of saving the admin account meets a transient
      database error. */
  predicate Outage(outage: seq<bool>, a: nat)
  {
    a < |outage| && outage[a]
  }

  /** The first of the three attempts without a transient error, or 3 when all
      three meet one. */
  function FirstClearAttempt(outage: seq<bool>): (r: nat)
    ensures r <= 3
    ensures forall a: nat :: a < r ==> Outage(outage, a)
    ensures r < 3 ==> !Outage(outage, r)
  {
    if !Outage(outage, 0) then 0
    else if !Outage(outage, 1) then 1
    else if !Outage(outage, 2) then 2
    else 3
  }

  /** createAdminUserWithRetry: at most three attempts; an attempt that finds
      "admin" reports success without creating it; a failed save (a transient
      outage, or the admin email already in use) changes nothing and moves on to
      the next attempt. Returns whether "admin" exists at the end, the
      number of attempts made and, when it created the account, its id. */
  method CreateAdminUserWithRetry(store: Store, encode: string -> string, outage: seq<bool>)
    returns (created: bool, attempts: nat, ghost admin: nat)
    requires store.Valid()
    modifies store
    ensures store.Valid()
    ensures 1 <= attempts <= 3
    ensures created <==> store.ExistsByUsername(AdminUsername)
    ensures UsernameTaken(old(store.users), AdminUsername) ==>
      created && attempts == 1 && unchanged(store)
    ensures !created ==> unchanged(store) && attempts == 3
    ensures !UsernameTaken(old(store.users), AdminUsername) && EmailTaken(old(store.users), AdminEmail) ==> !created
    ensures !UsernameTaken(old(store.users), AdminUsername) && !EmailTaken(old(store.users), AdminEmail) ==>
      && (created <==> FirstClearAttempt(outage) < 3)
      && (created ==> attempts == FirstClearAttempt(outage) + 1)
    ensures created && !UsernameTaken(old(store.users), AdminUsername) ==>
      && store.apartments == old(store.apartments) && store.parkings == old(store.parkings)
      && admin !in old(store.users)
      && store.users == old(store.users)[admin := AdminAccount.(password := Some(encode("admin123")))]
  {
    admin := 0;
    var attempt := 1;
    while attempt <= 3
      invariant 1 <= attempt <= 4
      invariant unchanged(store)
      invariant attempt > 1 ==> !UsernameTaken(store.users, AdminUsername)
      invariant !UsernameTaken(store.users, AdminUsername) && !EmailTaken(store.users, AdminEmail) ==>
        attempt - 1 <= FirstClearAttempt(outage)
    {
      attempts := attempt;
      if store.ExistsByUsername(AdminUsername) {
        return true, attempts, admin;
      }
      if !Outage(outage, attempt - 1) {
        var r := SaveUser(store, encode, AdminAccount);
        if r.Ok? {
          return true, attempts, r.value;
        }
      }
      attempt := attempt + 1;
    }
    created, attempts := false, 3;
  }

  // ---------------------------------------------------------------------
  // initializeData and run

  /** How initializeData ends when it returns normally. */
  datatype InitOutcome = AdminAlreadyPresent | AdminNotCreated | Seeded

  /** Saving `u` fails in initializeData: its username is free (so it is
      saved) but its email is in use. */
  predicate EmailBlocks(users: map<nat, User>, u: User)
  {
    !UsernameTaken(users, u.username) && EmailTaken(users, u.email)
  }

  /** Saving `u` succeeds: neither its username nor its email is in use. */
  predicate SavesAsNew(users: map<nat, User>, u: User)
  {
    !UsernameTaken(users, u.username) && !EmailTaken(users, u.email)
  }

  /** An account as saveUser stores it: with its password encoded. */
  function SavedAccount(encode: string -> string, u: User): User
    requires u.password.Some?
  {
    u.(password := Some(encode(u.password.value)))
  }

  /** `users` with `u` added under `id` when there was a save. */
  function WithSaved(users: map<nat, User>, id: Option<nat>, u: User): map<nat, User>
  {
    if id.Some? then users[id.value := u] else users
  }

  /** The parking table after saveUser's automatic assignment to the client
      saved under `id`, if any. */
  function AssignedTo(ps: seq<Parking>, id: Option<nat>): seq<Parking>
  {
    if id.Some? then AutoAssign(ps, id.value, Client).0 else ps
  }

  /** Adding an account under a new id takes exactly its username and email. */
  lemma TakenAfterAdding(users: map<nat, User>, id: nat, v: User, name: string, email: string)
    requires id !in users
    ensures UsernameTaken(users[id := v], name) <==> UsernameTaken(users, name) || v.username == name
    ensures EmailTaken(users[id := v], email) <==> EmailTaken(users, email) || v.email == email
  {
    var after := users[id := v];
    if UsernameTaken(users, name) {
      var j :| j in users && users[j].username == name;
      assert j in after && after[j] == users[j];
    }
    if EmailTaken(users, email) {
      var j :| j in users && users[j].email == email;
      assert j in after && after[j] == users[j];
    }
    assert id in after && after[id] == v;
  }

  /** Adding an account whose username and email differ from u's leaves the
      outcome of saving u as it was. */
  lemma SaveOutcomeAfterAdding(users: map<nat, User>, id: nat, v: User, u: User)
    requires id !in users && v.username != u.username && v.email != u.email
    ensures EmailBlocks(users[id := v], u) <==> EmailBlocks(users, u)
    ensures SavesAsNew(users[id := v], u) <==> SavesAsNew(users, u)
  {
    TakenAfterAdding(users, id, v, u.username, u.email);
  }

  /** One sample client of initializeData: saved by saveUser only when its
      username is absent; the save fails when its email is in use. `id` is
      the id of the saved account. */
  method SaveClientIfAbsent(store: Store, encode: string -> string, u: User)
    returns (r: Result<(), SaveError>, ghost id: Option<nat>)
    requires store.Valid()
    requires u.password.Some? && u.role == Client
    modifies store
    ensures store.Valid()
    ensures r.Err? <==> EmailBlocks(old(store.users), u)
    ensures r.Err? ==> r.error == EmailExists
    ensures id.Some? <==> SavesAsNew(old(store.users), u)
    ensures id.Some? ==> id.value !in old(store.users)
    ensures store.users == WithSaved(old(store.users), id, SavedAccount(encode, u))
    ensures forall k :: k in old(store.users) ==> k in store.users && store.users[k] == old(store.users)[k]
    ensures store.parkings == AssignedTo(old(store.parkings), id)
    ensures store.apartments == old(store.apartments)
    ensures |store.parkings| == |old(store.parkings)|
    ensures forall j :: 0 <= j < |old(store.parkings)| && old(store.parkings)[j].tenant.Some? ==>
      store.parkings[j] == old(store.parkings)[j]
    ensures r.Ok? ==> store.ExistsByUsername(u.username)
  {
    id := None;
    if store.ExistsByUsername(u.username) {
      return Ok(()), id;
    }
    ghost var ps := store.parkings;
    var saved := SaveUser(store, encode, u);
    if saved.Err? {
      return Err(saved.error), id;
    }
    id := Some(saved.value);
    AutoAssignKeepsTenants(ps, saved.value, Client);
    r := Ok(());
  }

  /** `after` is `before` with the sample clients saveUser stored: john.doe
      under `john` when his username and email were free, then jane.smith
      under `jane` when john.doe's save did not fail and hers were free. */
  ghost predicate ClientsAdded(before: map<nat, User>, after: map<nat, User>, encode: string -> string,
                               john: Option<nat>, jane: Option<nat>)
  {
    && (john.Some? <==> SavesAsNew(before, JohnAccount))
    && (jane.Some? <==> !EmailBlocks(before, JohnAccount) && SavesAsNew(before, JaneAccount))
    && (john.Some? ==> john.value !in before)
    && (jane.Some? ==> jane.value !in WithSaved(before, john, SavedAccount(encode, JohnAccount)))
    && after ==
         WithSaved(WithSaved(before, john, SavedAccount(encode, JohnAccount)), jane, SavedAccount(encode, JaneAccount))
  }

  /** The catalogue seeding of a store whose users are `users`: the sample
      apartments added to `apBefore` under `ids`, and the first `n` sample
      parking spaces appended to `psBefore`, stopping only at a space number
      already in use. */
  ghost predicate CatalogueAdded(users: map<nat, User>, apBefore: map<nat, ApartmentRow>,
                                 apAfter: map<nat, ApartmentRow>, ids: seq<nat>,
                                 psBefore: seq<Parking>, psAfter: seq<Parking>, n: nat)
  {
    var john := IdOf(users, "john.doe");
    var jane := IdOf(users, "jane.smith");
    var samples := SampleParkingSpaces(john, jane);
    && AddedRows(apBefore, apAfter, ids, SampleApartments(john, jane))
    && n <= |samples|
    && psAfter == psBefore + samples[..n]
    && (n < |samples| ==> SpaceNumberTaken(psBefore + samples[..n], samples[n].spaceNumber))
    && (psBefore == [] ==> n == |samples|)
  }

  /** With both sample clients present the catalogue seeding adds five
      apartments; into an empty parking table it puts all eight spaces; the
      spaces that were there stay first. */
  lemma CatalogueAddedFacts(users: map<nat, User>, apBefore: map<nat, ApartmentRow>,
                            apAfter: map<nat, ApartmentRow>, ids: seq<nat>,
                            psBefore: seq<Parking>, psAfter: seq<Parking>, n: nat)
    requires CatalogueAdded(users, apBefore, apAfter, ids, psBefore, psAfter, n)
    ensures UsernameTaken(users, "john.doe") && UsernameTaken(users, "jane.smith") ==>
      |apAfter| == |apBefore| + 5
    ensures psBefore == [] ==>
      psAfter == SampleParkingSpaces(IdOf(users, "john.doe"), IdOf(users, "jane.smith"))
    ensures |psBefore| <= |psAfter| && psAfter[..|psBefore|] == psBefore
  {
    AddedRowsCount(apBefore, apAfter, ids, SampleApartments(IdOf(users, "john.doe"), IdOf(users, "jane.smith")));
  }

  /** The automatic assignment keeps the table's length. */
  lemma AssignedToLength(ps: seq<Parking>, id: Option<nat>)
    ensures |AssignedTo(ps, id)| == |ps|
  {
    if id.Some? {
      AutoAssignKeepsTenants(ps, id.value, Client);
    }
  }

  /** The sample-client part of initializeData: john.doe, then jane.smith,
      each saved only when the username is absent, with the automatic parking
      assignment saveUser makes for a client. A failed save ends it with the
      error; what was saved before stays. `john` and `jane` are the ids of the
      accounts it saved. */
  method CreateSampleClients(store: Store, encode: string -> string)
    returns (r: Result<(), SaveError>, ghost john: Option<nat>, ghost jane: Option<nat>)
    requires store.Valid()
    modifies store
    ensures store.Valid()
    ensures r.Err? <==> EmailBlocks(old(store.users), JohnAccount) || EmailBlocks(old(store.users), JaneAccount)
    ensures r.Err? ==> r.error == EmailExists
    ensures ClientsAdded(old(store.users), store.users, encode, john, jane)
    ensures store.parkings == AssignedTo(AssignedTo(old(store.parkings), john), jane)
    ensures store.apartments == old(store.apartments)
    ensures forall id :: id in old(store.users) ==> id in store.users && store.users[id] == old(store.users)[id]
    ensures |store.parkings| == |old(store.parkings)|
    ensures forall j :: 0 <= j < |old(store.parkings)| && old(store.parkings)[j].tenant.Some? ==>
      store.parkings[j] == old(store.parkings)[j]
    ensures r.Ok? ==> store.ExistsByUsername("john.doe") && store.ExistsByUsername("jane.smith")
  {
    ghost var users0 := store.users;
    ghost var ps0 := store.parkings;
    jane := None;
    r, john := SaveClientIfAbsent(store, encode, JohnAccount);
    if r.Err? {
      return;
    }
    if john.Some? {
      SaveOutcomeAfterAdding(users0, john.value, SavedAccount(encode, JohnAccount), JaneAccount);
    }
    ghost var users1 := store.users;
    ghost var ps1 := store.parkings;
    r, jane := SaveClientIfAbsent(store, encode, JaneAccount);
    TenantsKeptThroughTwo(ps0, ps1, store.parkings);
    forall k | k in users0
      ensures k in store.users && store.users[k] == users0[k]
    {
      assert k in users1 && users1[k] == users0[k];
    }
    if r.Ok? {
      assert UsernameTaken(users1, "john.doe");
      ghost var j :| j in users1 && users1[j].username == "john.doe";
      assert j in store.users && store.users[j] == users1[j];
    }
  }

  /** Spaces with a tenant that two steps each keep are kept by both. */
  lemma TenantsKeptThroughTwo(ps0: seq<Parking>, ps1: seq<Parking>, ps2: seq<Parking>)
    requires |ps1| == |ps0| && |ps2| == |ps1|
    requires forall j :: 0 <= j < |ps0| && ps0[j].tenant.Some? ==> ps1[j] == ps0[j]
    requires forall j :: 0 <= j < |ps1| && ps1[j].tenant.Some? ==> ps2[j] == ps1[j]
    ensures forall j :: 0 <= j < |ps0| && ps0[j].tenant.Some? ==> ps2[j] == ps0[j]
  {
  }

  /** The last two steps of initializeData: createSampleApartments, then
      createSampleParkingSpaces. Returns the new apartment ids and the number
      of spaces created. */
  method SeedCatalogue(store: Store) returns (ids: seq<nat>, n: nat)
    requires store.Valid()
    modifies store
    ensures store.Valid()
    ensures store.users == old(store.users)
    ensures CatalogueAdded(old(store.users), old(store.apartments), store.apartments, ids,
                           old(store.parkings), store.parkings, n)
  {
    ids := CreateSampleApartments(store);
    n := CreateSampleParkingSpaces(store);
  }

  /** Spaces with a tenant that one step keeps stay kept when spaces are then
      appended. */
  lemma TenantsKeptThroughAppend(ps0: seq<Parking>, ps1: seq<Parking>, ps2: seq<Parking>)
    requires |ps1| == |ps0| && |ps1| <= |ps2| && ps2[..|ps1|] == ps1
    requires forall j :: 0 <= j < |ps0| && ps0[j].tenant.Some? ==> ps1[j] == ps0[j]
    ensures forall j :: 0 <= j < |ps0| && ps0[j].tenant.Some? ==> ps2[j] == ps0[j]
  {
    forall j | 0 <= j < |ps0| && ps0[j].tenant.Some?
      ensures ps2[j] == ps0[j]
    {
      assert ps2[j] == ps2[..|ps1|][j];
    }
  }

  /** The part of initializeData after the admin account exists: the sample
      clients, then the sample apartments and parking spaces. A failed client
      save ends it before the catalogue is touched. */
  method SeedClientsAndCatalogue(store: Store, encode: string -> string)
    returns (r: Result<(), SaveError>, ghost john: Option<nat>, ghost jane: Option<nat>,
             ghost ids: seq<nat>, ghost n: nat)
    requires store.Valid()
    modifies store
    ensures store.Valid()
    ensures r.Err? <==> EmailBlocks(old(store.users), JohnAccount) || EmailBlocks(old(store.users), JaneAccount)
    ensures r.Err? ==> r.error == EmailExists
    ensures ClientsAdded(old(store.users), store.users, encode, john, jane)
    ensures forall id :: id in old(store.users) ==> id in store.users && store.users[id] == old(store.users)[id]
    ensures r.Err? ==>
      store.apartments == old(store.apartments) &&
      store.parkings == AssignedTo(AssignedTo(old(store.parkings), john), jane)
    ensures r.Ok? ==>
      && store.ExistsByUsername("john.doe") && store.ExistsByUsername("jane.smith")
      && CatalogueAdded(store.users, old(store.apartments), store.apartments, ids,
                        AssignedTo(AssignedTo(old(store.parkings), john), jane), store.parkings, n)
    ensures |old(store.parkings)| <= |store.parkings|
    ensures r.Ok? ==>
      forall j :: 0 <= j < |old(store.parkings)| && old(store.parkings)[j].tenant.Some? ==>
        store.parkings[j] == old(store.parkings)[j]
  {
    ids, n := [], 0;
    ghost var ps0 := store.parkings;
    r, john, jane := CreateSampleClients(store, encode);
    if r.Err? {
      return;
    }
    ghost var ps1 := store.parkings;
    ghost var users1 := store.users;
    ghost var ap1 := store.apartments;
    var newIds, created := SeedCatalogue(store);
    ids, n := newIds, created;
    CatalogueAddedFacts(users1, ap1, store.apartments, ids, ps1, store.parkings, n);
    TenantsKeptThroughAppend(ps0, ps1, store.parkings);
  }

  /** initializeData: when "admin" is absent, creates it, then the sample
      clients that are missing, the sample apartments and the sample parking
      spaces. Finding "admin" or failing to create it ends the method with
      nothing written. A sample client whose save fails (its email is in use)
      ends it with an exception, after admin (and possibly john.doe) was
      stored. The ghost results name what was stored: the admin's id, the ids
      of the clients saved, the new apartment ids and the number of parking
      spaces created. */
  method InitializeData(store: Store, encode: string -> string, outage: seq<bool>)
    returns (r: Result<InitOutcome, SaveError>, ghost admin: nat, ghost john: Option<nat>,
             ghost jane: Option<nat>, ghost ids: seq<nat>, ghost n: nat)
    requires store.Valid()
    modifies store
    ensures store.Valid()
    ensures r == Ok(AdminAlreadyPresent) <==> UsernameTaken(old(store.users), AdminUsername)
    ensures r == Ok(AdminAlreadyPresent) ==> unchanged(store)
    ensures r == Ok(AdminNotCreated) <==>
      !UsernameTaken(old(store.users), AdminUsername) &&
      (EmailTaken(old(store.users), AdminEmail) || FirstClearAttempt(outage) == 3)
    ensures r == Ok(AdminNotCreated) ==> unchanged(store)
    ensures SavesAsNew(old(store.users), AdminAccount) && FirstClearAttempt(outage) < 3 ==>
      (r.Err? <==> EmailBlocks(old(store.users), JohnAccount) || EmailBlocks(old(store.users), JaneAccount))
    ensures r.Err? ==> r.error == EmailExists && store.ExistsByUsername(AdminUsername)
    ensures r.Err? || r == Ok(Seeded) ==>
      && admin !in old(store.users)
      && ClientsAdded(old(store.users)[admin := SavedAccount(encode, AdminAccount)], store.users, encode, john, jane)
    ensures r.Err? ==>
      store.apartments == old(store.apartments) &&
      store.parkings == AssignedTo(AssignedTo(old(store.parkings), john), jane)
    ensures r == Ok(Seeded) ==>
      && store.ExistsByUsername(AdminUsername)
      && store.ExistsByUsername("john.doe") && store.ExistsByUsername("jane.smith")
      && CatalogueAdded(store.users, old(store.apartments), store.apartments, ids,
                        AssignedTo(AssignedTo(old(store.parkings), john), jane), store.parkings, n)
      && |store.apartments| == |old(store.apartments)| + 5
      && (old(store.parkings) == [] ==>
            store.parkings == SampleParkingSpaces(IdOf(store.users, "john.doe"), IdOf(store.users, "jane.smith")))
    ensures |old(store.parkings)| <= |store.parkings|
    ensures r == Ok(Seeded) ==>
      forall j :: 0 <= j < |old(store.parkings)| && old(store.parkings)[j].tenant.Some? ==>
        store.parkings[j] == old(store.parkings)[j]
  {
    admin, john, jane, ids, n := 0, None, None, [], 0;
    var adminExists := CheckAdminExists(store);
    if adminExists {
      return Ok(AdminAlreadyPresent), admin, john, jane, ids, n;
    }
    var created, attempts;
    created, attempts, admin := CreateAdminUserWithRetry(store, encode, outage);
    if !created {
      return Ok(AdminNotCreated), admin, john, jane, ids, n;
    }
    SaveOutcomeAfterAdding(old(store.users), admin, SavedAccount(encode, AdminAccount), JohnAccount);
    SaveOutcomeAfterAdding(old(store.users), admin, SavedAccount(encode, AdminAccount), JaneAccount);
    ghost var withAdmin := store.users;
    ghost var ap0 := store.apartments;
    var seeded;
    seeded, john, jane, ids, n := SeedClientsAndCatalogue(store, encode);
    if seeded.Err? {
      return Err(seeded.error), admin, john, jane, ids, n;
    }
    assert admin in store.users && store.users[admin] == withAdmin[admin];
    ghost var afterClients := AssignedTo(AssignedTo(old(store.parkings), john), jane);
    AssignedToLength(old(store.parkings), john);
    AssignedToLength(AssignedTo(old(store.parkings), john), jane);
    CatalogueAddedFacts(store.users, ap0, store.apartments, ids, afterClients, store.parkings, n);
    r := Ok(Seeded);
  }

  /** How run ends. */
  datatype RunOutcome = AlreadyInitialized | DatabaseNotReady | Completed | Failed

  /** The DataInitializer component; `initialized` is its static flag. */
  class Initializer {
    var initialized: bool

    constructor ()
      ensures !initialized
    {
      initialized := false;
    }

    /** run: does nothing once initialized or while the database is not ready;
        otherwise seeds everything when "admin" is absent, and only tops up
        apartments and parking spaces when it is present. The flag is set
        unless initializeData ends with an exception. */
    method Run(store: Store, encode: string -> string, dbReady: bool, outage: seq<bool>)
      returns (outcome: RunOutcome)
      requires store.Valid()
      modifies this, store
      ensures store.Valid()
      ensures old(initialized) ==> outcome == AlreadyInitialized && initialized && unchanged(store)
      ensures !old(initialized) && !dbReady ==> outcome == DatabaseNotReady && !initialized && unchanged(store)
      ensures initialized <==> old(initialized) || outcome == Completed
      ensures outcome == Failed ==> !old(initialized) && dbReady && !UsernameTaken(old(store.users), AdminUsername)
      ensures !old(initialized) && dbReady && UsernameTaken(old(store.users), AdminUsername) ==>
        && outcome == Completed
        && store.users == old(store.users)
        && (old(store.apartments) != map[] ==> store.apartments == old(store.apartments))
        && (old(store.parkings) != [] ==> store.parkings == old(store.parkings))
        && (old(store.apartments) == map[] ==>
              exists ids :: AddedRows(map[], store.apartments, ids,
                                      SampleApartments(IdOf(old(store.users), "john.doe"), IdOf(old(store.users), "jane.smith"))))
        && (old(store.parkings) == [] ==>
              store.parkings == SampleParkingSpaces(IdOf(old(store.users), "john.doe"), IdOf(old(store.users), "jane.smith")))
      ensures !old(initialized) && dbReady && !UsernameTaken(old(store.users), AdminUsername) ==>
        && (outcome == Completed || outcome == Failed)
        && (outcome == Failed <==>
              SavesAsNew(old(store.users), AdminAccount) && FirstClearAttempt(outage) < 3 &&
              (EmailBlocks(old(store.users), JohnAccount) || EmailBlocks(old(store.users), JaneAccount)))
        && (store.ExistsByUsername(AdminUsername) <==>
              SavesAsNew(old(store.users), AdminAccount) && FirstClearAttempt(outage) < 3)
        && (outcome == Completed && !store.ExistsByUsername(AdminUsername) ==> unchanged(store))
        && (outcome == Completed && store.ExistsByUsername(AdminUsername) ==>
              && store.ExistsByUsername("john.doe") && store.ExistsByUsername("jane.smith")
              && |store.apartments| == |old(store.apartments)| + 5)
    {
      if initialized {
        return AlreadyInitialized;
      }
      if !dbReady {
        return DatabaseNotReady;
      }
      var adminExists := store.ExistsByUsername(AdminUsername);
      if !adminExists {
        var r, _, _, _, _, _ := InitializeData(store, encode, outage);
        if r.Err? {
          return Failed;
        }
        assert r.value != AdminAlreadyPresent;
      } else {
        CheckAndCreateSampleApartments(store);
      }
      initialized := true;
      outcome := Completed;
    }
  }
}
