/** Parking spaces and the part of ParkingService the core calls.
    ParkingService.java and Parking.java are not part of this model. What the
    core relies on is taken as follows (assumptions, not source):
    - the store keeps spaces in a sequence; a space's id is its position, and
      every list the service returns is in that order;
    - getParkingSpacesByTenant(u) lists the spaces whose tenant is u;
    - getUnassignedAvailableSpaces() lists the spaces that are AVAILABLE and
      have no tenant;
    - assignParkingSpaceToTenant(id, u) sets that space's tenant to u and its
      status to OCCUPIED, and changes nothing else.
    Vehicle dimensions (Double) are left out; the monthly fee is in cents. */
module Parkings {
  import opened Common
  import opened Accounts

  datatype ParkingType = Standard | Compact | Large | Handicap | Motorcycle | Electric | Premium

  datatype ParkingStatus = Available | Occupied | Reserved | Maintenance

  datatype Parking = Parking(
    spaceNumber: string,
    location: string,
    monthlyFeeCents: nat,
    kind: ParkingType,
    status: ParkingStatus,
    covered: bool,
    electricCharging: bool,
    notes: string,
    tenant: Option<nat>)

  /** A space getUnassignedAvailableSpaces lists. */
  predicate IsFree(p: Parking)
  {
    p.status == Available && p.tenant == None
  }

  function HeldBy(uid: nat): Parking -> bool
  {
    (p: Parking) => p.tenant == Some(uid)
  }

  /** The ids (positions) of the spaces satisfying `f`, in store order. */
  function Positions(ps: seq<Parking>, f: Parking -> bool): (r: seq<nat>)
    ensures forall i :: 0 <= i < |r| ==> r[i] < |ps| && f(ps[r[i]])
    ensures forall k :: 0 <= k < |ps| && f(ps[k]) ==> k in r
    ensures forall i, j :: 0 <= i < j < |r| ==> r[i] < r[j]
    decreases |ps|
  {
    if ps == [] then []
    else
      var r' := Positions(ps[..|ps| - 1], f);
      if f(ps[|ps| - 1]) then r' + [|ps| - 1] else r'
  }

  /** getParkingSpacesByTenant: exactly the spaces whose tenant is `uid`,
      in store order. */
  function SpacesOf(ps: seq<Parking>, uid: nat): (r: seq<nat>)
    ensures forall i :: 0 <= i < |r| ==> r[i] < |ps| && ps[r[i]].tenant == Some(uid)
    ensures forall k :: 0 <= k < |ps| && ps[k].tenant == Some(uid) ==> k in r
    ensures forall i, j :: 0 <= i < j < |r| ==> r[i] < r[j]
  {
    Positions(ps, HeldBy(uid))
  }

  /** getUnassignedAvailableSpaces: exactly the spaces with no tenant and
      status Available, in store order. */
  function UnassignedAvailable(ps: seq<Parking>): (r: seq<nat>)
    ensures forall i :: 0 <= i < |r| ==> r[i] < |ps| && ps[r[i]].tenant.None? && ps[r[i]].status == Available
    ensures forall k :: 0 <= k < |ps| && ps[k].tenant.None? && ps[k].status == Available ==> k in r
    ensures forall i, j :: 0 <= i < j < |r| ==> r[i] < r[j]
  {
    Positions(ps, IsFree)
  }

  /** assignParkingSpaceToTenant */
  function AssignToTenant(ps: seq<Parking>, k: nat, uid: nat): (r: seq<Parking>)
    requires k < |ps|
    ensures |r| == |ps| && r[k].tenant == Some(uid) && r[k].status == Occupied
    ensures r[k].spaceNumber == ps[k].spaceNumber
    ensures forall j :: 0 <= j < |ps| && j != k ==> r[j] == ps[j]
  {
    ps[k := ps[k].(tenant := Some(uid), status := Occupied)]
  }

  /** What assignParkingSlotToNewCustomer does to the spaces, and what it
      returns, for the user stored under `uid` with role `role`. */
  function AutoAssign(ps: seq<Parking>, uid: nat, role: UserRole): (r: (seq<Parking>, bool))
    ensures |r.0| == |ps|
    ensures r.1 <==> role == Client && (SpacesOf(ps, uid) != [] || UnassignedAvailable(ps) != [])
    ensures r.0 != ps ==> r.1 && SpacesOf(ps, uid) == []
    ensures forall k :: 0 <= k < |ps| && r.0[k] != ps[k] ==> IsFree(ps[k]) && r.0[k].tenant == Some(uid)
  {
    if role != Client then (ps, false)
    else if SpacesOf(ps, uid) != [] then (ps, true)
    else
      var free := UnassignedAvailable(ps);
      if free == [] then (ps, false) else (AssignToTenant(ps, free[0], uid), true)
  }

  // ---------------------------------------------------------------------
  // Properties of the candidate list and of the automatic assignment

  /** The candidate the code takes (element 0) is the free space with the
      smallest id; nothing before it is free. */
  lemma FirstCandidateIsLowest(ps: seq<Parking>)
    requires UnassignedAvailable(ps) != []
    ensures IsFree(ps[UnassignedAvailable(ps)[0]])
    ensures forall k :: 0 <= k < UnassignedAvailable(ps)[0] ==> !IsFree(ps[k])
  {
    var free := UnassignedAvailable(ps);
    forall k | 0 <= k < free[0]
      ensures !IsFree(ps[k])
    {
      forall i | 0 <= i < |free|
        ensures free[i] != k
      {
        assert i > 0 ==> free[0] < free[i];
      }
    }
  }

  lemma {:induction false} EmptyPositions(ps: seq<Parking>, f: Parking -> bool)
    requires forall k :: 0 <= k < |ps| ==> !f(ps[k])
    ensures Positions(ps, f) == []
    decreases |ps|
  {
    if ps != [] {
      EmptyPositions(ps[..|ps| - 1], f);
    }
  }

  /** When exactly one space satisfies `f`, the list is that one id. */
  lemma {:induction false} SinglePosition(ps: seq<Parking>, f: Parking -> bool, k: nat)
    requires k < |ps| && f(ps[k])
    requires forall j :: 0 <= j < |ps| && j != k ==> !f(ps[j])
    ensures Positions(ps, f) == [k]
    decreases |ps|
  {
    var n := |ps| - 1;
    if k == n {
      EmptyPositions(ps[..n], f);
    } else {
      SinglePosition(ps[..n], f, k);
    }
  }

  /** Changing one space from satisfying `f` to not satisfying it removes
      exactly one entry from the list of spaces satisfying `f`. */
  lemma {:induction false} PositionsLoseOne(ps: seq<Parking>, k: nat, p: Parking, f: Parking -> bool)
    requires k < |ps| && f(ps[k]) && !f(p)
    ensures |Positions(ps[k := p], f)| == |Positions(ps, f)| - 1
    decreases |ps|
  {
    var qs := ps[k := p];
    var n := |ps| - 1;
    assert qs[..n] == if k == n then ps[..n] else ps[..n][k := p];
    if k < n {
      PositionsLoseOne(ps[..n], k, p, f);
    }
  }

  /** Changing a space that does not satisfy `f` into one that still does not
      leaves the list of spaces satisfying `f` unchanged. */
  lemma {:induction false} PositionsKeep(ps: seq<Parking>, k: nat, p: Parking, f: Parking -> bool)
    requires k < |ps| && !f(ps[k]) && !f(p)
    ensures Positions(ps[k := p], f) == Positions(ps, f)
    decreases |ps|
  {
    var qs := ps[k := p];
    var n := |ps| - 1;
    assert qs[..n] == if k == n then ps[..n] else ps[..n][k := p];
    if k < n {
      PositionsKeep(ps[..n], k, p, f);
    }
  }

  /** A new assignment binds exactly the first candidate, only that space
      changes, the new tenant then holds exactly that one space, and one fewer
      space is free. */
  lemma AutoAssignBindsFirstCandidate(ps: seq<Parking>, uid: nat)
    requires SpacesOf(ps, uid) == [] && UnassignedAvailable(ps) != []
    ensures var k := UnassignedAvailable(ps)[0];
      var (qs, granted) := AutoAssign(ps, uid, Client);
      && granted
      && |qs| == |ps|
      && IsFree(ps[k])
      && (forall j :: 0 <= j < k ==> !IsFree(ps[j]))
      && qs[k] == ps[k].(tenant := Some(uid), status := Occupied)
      && (forall j :: 0 <= j < |ps| && j != k ==> qs[j] == ps[j])
      && SpacesOf(qs, uid) == [k]
      && |UnassignedAvailable(qs)| == |UnassignedAvailable(ps)| - 1
  {
    var k := UnassignedAvailable(ps)[0];
    var qs := AssignToTenant(ps, k, uid);
    FirstCandidateIsLowest(ps);
    forall j | 0 <= j < |qs| && j != k
      ensures !HeldBy(uid)(qs[j])
    {
      assert qs[j] == ps[j];
      assert j !in SpacesOf(ps, uid);
    }
    assert HeldBy(uid)(qs[k]);
    SinglePosition(qs, HeldBy(uid), k);
    PositionsLoseOne(ps, k, qs[k], IsFree);
  }

  /** assignParkingSlotToNewCustomer is idempotent: calling it again for the
      same user changes nothing more and reports the same outcome. */
  lemma AutoAssignIdempotent(ps: seq<Parking>, uid: nat, role: UserRole)
    ensures var (qs, granted) := AutoAssign(ps, uid, role);
      AutoAssign(qs, uid, role) == (qs, granted)
  {
    if role == Client && SpacesOf(ps, uid) == [] && UnassignedAvailable(ps) != [] {
      AutoAssignBindsFirstCandidate(ps, uid);
    }
  }

  /** A space that already had a tenant is never taken over. */
  lemma AutoAssignKeepsTenants(ps: seq<Parking>, uid: nat, role: UserRole)
    ensures var qs := AutoAssign(ps, uid, role).0;
      |qs| == |ps| && forall j :: 0 <= j < |ps| && ps[j].tenant.Some? ==> qs[j] == ps[j]
  {
    if role == Client && SpacesOf(ps, uid) == [] && UnassignedAvailable(ps) != [] {
      AutoAssignBindsFirstCandidate(ps, uid);
    }
  }

  /** A sequence of admissions of CLIENT users, one after another; the count is
      the number of calls that returned true. */
  function AdmitAll(ps: seq<Parking>, uids: seq<nat>): (seq<Parking>, nat)
    decreases |uids|
  {
    if uids == [] then (ps, 0)
    else
      var (qs, granted) := AutoAssign(ps, uids[0], Client);
      var (rs, n) := AdmitAll(qs, uids[1..]);
      (rs, n + if granted then 1 else 0)
  }

  /** Admitting distinct new clients one after another assigns a space to
      exactly min(clients, free spaces) of them: the rest get false. */
  lemma {:induction false} AdmitAllAssignsUpToCapacity(ps: seq<Parking>, uids: seq<nat>)
    requires forall i, j :: 0 <= i < j < |uids| ==> uids[i] != uids[j]
    requires forall i :: 0 <= i < |uids| ==> SpacesOf(ps, uids[i]) == []
    ensures var n := AdmitAll(ps, uids).1;
      var free := |UnassignedAvailable(ps)|;
      n == if |uids| < free then |uids| else free
    decreases |uids|
  {
    if uids != [] {
      var u := uids[0];
      var (qs, granted) := AutoAssign(ps, u, Client);
      if UnassignedAvailable(ps) == [] {
        assert qs == ps && !granted;
      } else {
        AutoAssignBindsFirstCandidate(ps, u);
        var k := UnassignedAvailable(ps)[0];
        forall i | 0 <= i < |uids[1..]|
          ensures SpacesOf(qs, uids[1..][i]) == []
        {
          var v := uids[1..][i];
          assert v == uids[i + 1] && v != u;
          forall j | 0 <= j < |qs|
            ensures !HeldBy(v)(qs[j])
          {
            if j != k {
              assert qs[j] == ps[j];
              assert j !in SpacesOf(ps, v);
            }
          }
          EmptyPositions(qs, HeldBy(v));
        }
      }
      AdmitAllAssignsUpToCapacity(qs, uids[1..]);
    }
  }

  /** A table whose free spaces are at 0, 3, 4 and 5 offers exactly those,
      in that order. */
  lemma FreeAtZeroThreeFourFive(ps: seq<Parking>)
    requires |ps| == 8
    requires IsFree(ps[0]) && !IsFree(ps[1]) && !IsFree(ps[2]) && IsFree(ps[3])
    requires IsFree(ps[4]) && IsFree(ps[5]) && !IsFree(ps[6]) && !IsFree(ps[7])
    ensures UnassignedAvailable(ps) == [0, 3, 4, 5]
  {
    FreeAmongFirstFour(ps);
    PositionsStep(ps, 5);
    assert Positions(ps[..5], IsFree) == [0, 3, 4];
    PositionsStep(ps, 6);
    assert Positions(ps[..6], IsFree) == [0, 3, 4, 5];
    PositionsStep(ps, 7);
    PositionsStep(ps, 8);
    assert ps[..8] == ps;
  }

  /** Of the first four spaces, the free ones are at 0 and 3. */
  lemma FreeAmongFirstFour(ps: seq<Parking>)
    requires |ps| >= 4
    requires IsFree(ps[0]) && !IsFree(ps[1]) && !IsFree(ps[2]) && IsFree(ps[3])
    ensures Positions(ps[..4], IsFree) == [0, 3]
  {
    assert ps[..0] == [];
    PositionsStep(ps, 1);
    PositionsStep(ps, 2);
    PositionsStep(ps, 3);
    assert Positions(ps[..3], IsFree) == [0];
    PositionsStep(ps, 4);
  }

  /** The free positions of a prefix one longer. */
  lemma PositionsStep(ps: seq<Parking>, n: nat)
    requires 0 < n <= |ps|
    ensures Positions(ps[..n], IsFree) ==
      Positions(ps[..n - 1], IsFree) + (if IsFree(ps[n - 1]) then [n - 1] else [])
  {
    assert ps[..n][..n - 1] == ps[..n - 1];
  }
}
