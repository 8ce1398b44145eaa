/**
  `services.RentalService`: the catalogue, the open rentals, the return records and the
  rental counter, with the guarded transitions over them. The session comes from the
  authentication service it is built with. Loading and saving (`FileHandler`) is not
  modelled: the loaded lists are the constructor's arguments and saving is a no-op.
  `LocalDate.now()` is the `today` argument (an epoch day).
*/
module Rentals {
  import opened Wrappers
  import opened Strings
  import opened Ids
  import opened Seqs
  import opened ValidationUtils
  import opened UserModel
  import opened EquipmentModel
  import opened RentalModel
  import opened ReturnRecordModel
  import opened Authentication
  import opened Ledger

  /** `Constants.LATE_FEE_PER_DAY` */
  const LateFeePerDay: real := 50.0

  /** The floor of the equipment-ID scan: the first generated ID is E101. */
  const EquipmentIdFloor: nat := 100

  /**
    The fee charged on closing a rental on `today`: fifty per day past the expected return
    date, nothing when returned on time.
  */
  function LateFee(r: Rental, today: int): (fee: real)
    ensures fee >= 0.0
    ensures fee > 0.0 <==> r.IsOverdue(today)
    ensures r.IsOverdue(today) ==> fee == ((today - (r.startDate + r.daysRented)) as real) * LateFeePerDay
  {
    if r.IsOverdue(today) then (r.DaysOverdue(today) as real) * LateFeePerDay else 0.0
  }

  /** The cost of a rental: the daily rate times the number of days. */
  function RentalCost(rentPerDay: real, days: int): real
  {
    rentPerDay * (days as real)
  }

  /** Force-returned equipment in this condition goes to maintenance. */
  predicate IsDamageOrLost(condition: string)
  {
    EqualsIgnoreCase("Damage", condition) || EqualsIgnoreCase("Lost", condition)
  }

  /** The status a force-returned item takes: never Rented. */
  function ForceReturnStatus(condition: string): (status: string)
    ensures status == Maintenance <==> IsDamageOrLost(condition)
    ensures status == Available <==> !IsDamageOrLost(condition)
  {
    if IsDamageOrLost(condition) then Maintenance else Available
  }

  /** The outcome of `rentEquipment`; `Message` is the string the source returns. */
  datatype RentOutcome =
    | RentNotLoggedIn
    | NotCustomer
    | RentEquipmentNotFound
    | NotAvailable
    | InvalidDays(days: int)
    | RentSucceeded(rentalId: string, totalCost: real)
  {
    /** For a success, the message up to the `%.2f`-formatted cost. */
    function Message(): string
    {
      match this
      case RentNotLoggedIn => "Please log in first."
      case NotCustomer => "Only customers can rent equipment."
      case RentEquipmentNotFound => "Equipment not found."
      case NotAvailable => "Equipment is not available for rent."
      case InvalidDays(days) => "Invalid rental days: " + IntToString(days)
      case RentSucceeded(rentalId, _) => "Equipment rented successfully. Rental ID: " + rentalId + ", Total Cost: $"
    }
  }

  /** The outcome of `returnEquipment`. */
  datatype ReturnOutcome =
    | ReturnNotLoggedIn
    | ReturnRentalNotFound
    | NotOwnRental
    | ReturnEquipmentNotFound
    | ReturnSucceeded(lateFee: real, totalAmount: real)
  {
    /** For a success, the first sentence; the amounts follow in `%.2f` form. */
    function Message(): string
    {
      match this
      case ReturnNotLoggedIn => "Please log in first."
      case ReturnRentalNotFound => "Rental not found."
      case NotOwnRental => "You can only return your own rentals."
      case ReturnEquipmentNotFound => "Equipment not found."
      case ReturnSucceeded(_, _) => "Equipment returned successfully."
    }
  }

  /**
    The outcome of `forceReturnEquipment`: on success, whether the message shows a fee total
    and that total (late fee plus the additional fees, which are not stored anywhere).
  */
  datatype ForceReturnOutcome =
    | AccessDenied
    | ForceRentalNotFound
    | ForceEquipmentNotFound
    | ForceReturnSucceeded(condition: string, feesShown: bool, totalFees: real)
  {
    /** For a success, the message up to the optional fee line. */
    function Message(): string
    {
      match this
      case AccessDenied => "Access denied"
      case ForceRentalNotFound => "Rental not found."
      case ForceEquipmentNotFound => "Equipment not found."
      case ForceReturnSucceeded(condition, _, _) => "Equipment force-returned. Condition: " + condition
    }
  }

  /** The first catalogue index with this ID (`stream().filter(...).findFirst()`), or `|es|`. */
  function FindEquipmentIndex(es: seq<Equipment>, id: string): (k: nat)
    ensures k <= |es|
    ensures k < |es| ==> es[k].id == id
    ensures forall j :: 0 <= j < k ==> es[j].id != id
  {
    if es == [] then 0
    else if es[0].id == id then 0
    else 1 + FindEquipmentIndex(es[1..], id)
  }

  /** The first open-rental index with this rental ID, or `|rs|`. */
  function FindRentalIndex(rs: seq<Rental>, rentalId: string): (k: nat)
    ensures k <= |rs|
    ensures k < |rs| ==> rs[k].rentalId == rentalId
    ensures forall j :: 0 <= j < k ==> rs[j].rentalId != rentalId
  {
    if rs == [] then 0
    else if rs[0].rentalId == rentalId then 0
    else 1 + FindRentalIndex(rs[1..], rentalId)
  }

  /*
    The four stream filters below keep exactly the matching elements, each as often as it
    occurs (the `...Count` lemmas), and in their original order: the `...Append` lemmas
    show that filtering a concatenation filters each part in turn.
  */

  /** The rentals of one customer (`filter(r -> r.getCustomerId().equals(id))`). */
  function RentalsOf(rs: seq<Rental>, customerId: string): (out: seq<Rental>)
    ensures |out| <= |rs|
    ensures forall r :: r in out <==> r in rs && r.customerId == customerId
  {
    if rs == [] then []
    else (if rs[0].customerId == customerId then [rs[0]] else []) + RentalsOf(rs[1..], customerId)
  }

  lemma {:induction false} RentalsOfAppend(a: seq<Rental>, b: seq<Rental>, customerId: string)
    ensures RentalsOf(a + b, customerId) == RentalsOf(a, customerId) + RentalsOf(b, customerId)
  {
    if a == [] {
      assert a + b == b;
    } else {
      assert (a + b)[1..] == a[1..] + b;
      RentalsOfAppend(a[1..], b, customerId);
    }
  }

  lemma {:induction false} RentalsOfCount(rs: seq<Rental>, customerId: string, r: Rental)
    ensures multiset(RentalsOf(rs, customerId))[r] == if r.customerId == customerId then multiset(rs)[r] else 0
  {
    if rs != [] {
      assert rs == [rs[0]] + rs[1..];
      RentalsOfCount(rs[1..], customerId, r);
    }
  }

  /** The return records of one customer. */
  function ReturnsOf(rs: seq<ReturnRecord>, customerId: string): (out: seq<ReturnRecord>)
    ensures |out| <= |rs|
    ensures forall i :: 0 <= i < |out| ==> out[i] in rs && out[i].customerId == customerId
    ensures forall i :: 0 <= i < |rs| && rs[i].customerId == customerId ==> rs[i] in out
  {
    if rs == [] then []
    else (if rs[0].customerId == customerId then [rs[0]] else []) + ReturnsOf(rs[1..], customerId)
  }

  lemma {:induction false} ReturnsOfAppend(a: seq<ReturnRecord>, b: seq<ReturnRecord>, customerId: string)
    ensures ReturnsOf(a + b, customerId) == ReturnsOf(a, customerId) + ReturnsOf(b, customerId)
  {
    if a == [] {
      assert a + b == b;
    } else {
      assert (a + b)[1..] == a[1..] + b;
      ReturnsOfAppend(a[1..], b, customerId);
    }
  }

  lemma {:induction false} ReturnsOfCount(rs: seq<ReturnRecord>, customerId: string, r: ReturnRecord)
    ensures multiset(ReturnsOf(rs, customerId))[r] == if r.customerId == customerId then multiset(rs)[r] else 0
  {
    if rs != [] {
      assert rs == [rs[0]] + rs[1..];
      ReturnsOfCount(rs[1..], customerId, r);
    }
  }

  /** The rentals overdue on `today`. */
  function OverdueRentals(rs: seq<Rental>, today: int): (out: seq<Rental>)
    ensures |out| <= |rs|
    ensures forall r :: r in out <==> r in rs && r.IsOverdue(today)
  {
    if rs == [] then []
    else (if rs[0].IsOverdue(today) then [rs[0]] else []) + OverdueRentals(rs[1..], today)
  }

  lemma {:induction false} OverdueRentalsAppend(a: seq<Rental>, b: seq<Rental>, today: int)
    ensures OverdueRentals(a + b, today) == OverdueRentals(a, today) + OverdueRentals(b, today)
  {
    if a == [] {
      assert a + b == b;
    } else {
      assert (a + b)[1..] == a[1..] + b;
      OverdueRentalsAppend(a[1..], b, today);
    }
  }

  lemma {:induction false} OverdueRentalsCount(rs: seq<Rental>, today: int, r: Rental)
    ensures multiset(OverdueRentals(rs, today))[r] == if r.IsOverdue(today) then multiset(rs)[r] else 0
  {
    if rs != [] {
      assert rs == [rs[0]] + rs[1..];
      OverdueRentalsCount(rs[1..], today, r);
    }
  }

  /** The search rule: the lower-cased term occurs in the lower-cased name, ID or category. */
  predicate MatchesSearch(e: Equipment, term: string)
  {
    var t := ToLower(term);
    Contains(ToLower(e.name), t) || Contains(ToLower(e.id), t) || Contains(ToLower(e.category), t)
  }

  function SearchMatches(es: seq<Equipment>, term: string): (out: seq<Equipment>)
    ensures |out| <= |es|
    ensures forall i :: 0 <= i < |out| ==> out[i] in es && MatchesSearch(out[i], term)
    ensures forall i :: 0 <= i < |es| && MatchesSearch(es[i], term) ==> es[i] in out
  {
    if es == [] then []
    else (if MatchesSearch(es[0], term) then [es[0]] else []) + SearchMatches(es[1..], term)
  }

  lemma {:induction false} SearchMatchesAppend(a: seq<Equipment>, b: seq<Equipment>, term: string)
    ensures SearchMatches(a + b, term) == SearchMatches(a, term) + SearchMatches(b, term)
  {
    if a == [] {
      assert a + b == b;
    } else {
      assert (a + b)[1..] == a[1..] + b;
      SearchMatchesAppend(a[1..], b, term);
    }
  }

  lemma {:induction false} SearchMatchesCount(es: seq<Equipment>, term: string, e: Equipment)
    ensures multiset(SearchMatches(es, term))[e] == if MatchesSearch(e, term) then multiset(es)[e] else 0
  {
    if es != [] {
      assert es == [es[0]] + es[1..];
      SearchMatchesCount(es[1..], term, e);
    }
  }

  /** The first IDs each allocator issues on an empty store. */
  lemma FirstIssuedIds()
    ensures FormatId('E', MaxSuffix([], 'E', EquipmentIdFloor) + 1) == "E101"
    ensures FormatId('R', MaxSuffix([], 'R', 0) + 1) == "R001"
    ensures FormatId('C', MaxSuffix([], 'C', 0) + 1) == "C001"
  {
    assert NatToDecimal(101) == "101" by {
      assert NatToDecimal(10) == "10" by { assert NatToDecimal(1) == "1"; }
    }
    assert Format3(1) == "001" by { assert NatToDecimal(1) == "1"; assert Zeros(2) == "00"; }
  }

  class RentalService {
    const auth: AuthenticationService
    var equipment: seq<Equipment>
    var rentals: seq<Rental>
    var returnRecords: seq<ReturnRecord>
    var rentalCounter: nat

    /** The counter is positive and above every rental-ID suffix in use. */
    ghost predicate Valid()
      reads this`rentalCounter, this`rentals, this`returnRecords
    {
      rentalCounter >= 1 && CounterAbove(RentalIds(rentals) + ReturnIds(returnRecords), rentalCounter)
    }

    ghost function Availabilities(): (a: seq<string>)
      reads this`equipment, equipment
      ensures |a| == |equipment| && forall i :: 0 <= i < |equipment| ==> a[i] == equipment[i].availability
    {
      Statuses(equipment)
    }

    /** The ledger invariant over the current lists and statuses. */
    ghost predicate Consistent()
      reads this`equipment, this`rentals, this`returnRecords, equipment
    {
      LedgerConsistent(EquipmentIds(equipment), Availabilities(), rentals, ReturnIds(returnRecords))
    }

    /** `loadData` then `initializeRentalCounter`. */
    constructor (auth: AuthenticationService, loadedEquipment: seq<Equipment>, loadedRentals: seq<Rental>,
                 loadedReturns: seq<ReturnRecord>)
      ensures this.auth == auth && equipment == loadedEquipment && rentals == loadedRentals && returnRecords == loadedReturns
      ensures rentalCounter == MaxSuffix(RentalIds(loadedRentals) + ReturnIds(loadedReturns), 'R', 0) + 1
      ensures Valid()
    {
      this.auth := auth;
      equipment := loadedEquipment;
      rentals := loadedRentals;
      returnRecords := loadedReturns;
      rentalCounter := 1;
      new;
      InitializeRentalCounter();
    }

    /**
      `initializeRentalCounter`: one past the largest suffix among the open and the closed
      rental IDs (1 when there is none).
    */
    method InitializeRentalCounter()
      modifies this`rentalCounter
      ensures rentalCounter == MaxSuffix(RentalIds(rentals) + ReturnIds(returnRecords), 'R', 0) + 1
      ensures Valid()
    {
      var open := RentalIds(rentals);
      var closed := ReturnIds(returnRecords);
      var maxOpen := ScanMaxSuffix(open, 'R', 0);
      var maxAll := ScanMaxSuffix(closed, 'R', maxOpen);
      rentalCounter := maxAll + 1;
      MaxSuffixAppend(open, closed, 'R', 0);
      CounterStartAbove(open + closed);
    }

    predicate RequireAdminAccess()
      reads auth`currentUser
    {
      auth.IsCurrentUserAdmin()
    }

    predicate RequireAuthentication()
      reads auth`currentUser
    {
      auth.IsLoggedIn()
    }

    /** `findEquipmentById`: the first item with this ID, or null. */
    function FindEquipmentById(id: string): (eq: Equipment?)
      reads this`equipment
      ensures eq == null <==> id !in EquipmentIds(equipment)
      ensures eq != null ==> eq in equipment && eq.id == id
      ensures eq != null ==> eq == equipment[FindEquipmentIndex(equipment, id)]
    {
      var k := FindEquipmentIndex(equipment, id);
      if k < |equipment| then equipment[k] else null
    }

    /** `findRentalById`: the first open rental with this ID. */
    function FindRentalById(rentalId: string): (r: Option<Rental>)
      reads this`rentals
      ensures r.None? <==> rentalId !in RentalIds(rentals)
      ensures r.Some? ==> r.value in rentals && r.value.rentalId == rentalId
      ensures r.Some? ==> r.value == rentals[FindRentalIndex(rentals, rentalId)]
    {
      var k := FindRentalIndex(rentals, rentalId);
      if k < |rentals| then Some(rentals[k]) else None
    }

    /**
      `generateEquipmentId`: one past the largest equipment number in use, and at least 101,
      hence an ID no item has.
    */
    method GenerateEquipmentId() returns (id: string)
      ensures id == FormatId('E', MaxSuffix(EquipmentIds(equipment), 'E', EquipmentIdFloor) + 1)
      ensures id !in EquipmentIds(equipment)
    {
      var ids := EquipmentIds(equipment);
      var maxId := ScanMaxSuffix(ids, 'E', EquipmentIdFloor);
      id := FormatId('E', maxId + 1);
      NextIdFresh(ids, 'E', EquipmentIdFloor);
    }

    /**
      `addEquipment`: administrators only; appends one fresh Available item with the next
      equipment ID. The rate is not checked here.
    */
    method AddEquipment(name: string, rentPerDay: real, category: string) returns (ok: bool)
      modifies this`equipment
      ensures ok == auth.IsCurrentUserAdmin()
      ensures !ok ==> equipment == old(equipment)
      ensures ok ==> |equipment| == |old(equipment)| + 1 && equipment[..|old(equipment)|] == old(equipment)
      ensures ok ==> var e := equipment[|equipment| - 1];
                fresh(e) && e.name == name && e.rentPerDay == rentPerDay && e.category == category &&
                e.availability == Available &&
                e.id == FormatId('E', MaxSuffix(EquipmentIds(old(equipment)), 'E', EquipmentIdFloor) + 1) &&
                e.id !in EquipmentIds(old(equipment))
      ensures old(Consistent()) ==> Consistent()
    {
      if !RequireAdminAccess() {
        return false;
      }
      var id := GenerateEquipmentId();
      var eq := new Equipment.WithCategory(id, name, rentPerDay, Available, category);
      AppendEquipment(eq);
      return true;
    }

    /** `equipment.add(eq)` for an item with a new ID that is not Rented. */
    method AppendEquipment(eq: Equipment)
      requires eq.id !in EquipmentIds(equipment) && eq.availability != Rented
      modifies this`equipment
      ensures equipment == old(equipment) + [eq]
      ensures old(Consistent()) ==> Consistent()
    {
      ghost var ids0, avail0, wasConsistent := EquipmentIds(equipment), Availabilities(), Consistent();
      equipment := equipment + [eq];
      if wasConsistent {
        assert EquipmentIds(equipment) == ids0 + [eq.id];
        assert Availabilities() == avail0 + [eq.availability];
        AddKeeps(ids0, avail0, rentals, ReturnIds(returnRecords), eq.id, eq.availability);
      }
    }

    /**
      `updateEquipmentStatus`: administrators only; sets any status on an existing item.
      Consistency survives only an edit that keeps the item's Rented-ness.
    */
    method UpdateEquipmentStatus(equipmentId: string, newStatus: string) returns (ok: bool)
      modifies equipment
      ensures ok <==> auth.IsCurrentUserAdmin() && FindEquipmentById(equipmentId) != null
      ensures ok ==> FindEquipmentById(equipmentId).availability == newStatus
      ensures forall e :: e in equipment && (!ok || e != FindEquipmentById(equipmentId)) ==> unchanged(e)
      ensures (old(Consistent()) && (ok ==> (old(FindEquipmentById(equipmentId).availability) == Rented <==> newStatus == Rented)))
                ==> Consistent()
    {
      if !RequireAdminAccess() {
        return false;
      }
      var eq := FindEquipmentById(equipmentId);
      if eq == null {
        return false;
      }
      ghost var avail0, wasConsistent := Availabilities(), Consistent();
      ghost var k := FindEquipmentIndex(equipment, equipmentId);
      ghost var keepsRented := (eq.availability == Rented <==> newStatus == Rented);
      SetStatus(eq, newStatus);
      if wasConsistent && keepsRented {
        StatusKeeps(EquipmentIds(equipment), avail0, rentals, ReturnIds(returnRecords), k, newStatus);
      }
      return true;
    }

    /**
      `eq.setAvailability(status)` on a catalogued item: with unique IDs, exactly its entry of
      the status list changes.
    */
    method SetStatus(eq: Equipment, status: string)
      requires FindEquipmentById(eq.id) == eq
      modifies eq`availability
      ensures eq.availability == status
      ensures Distinct(EquipmentIds(equipment)) ==>
                Availabilities() == old(Availabilities())[FindEquipmentIndex(equipment, eq.id) := status]
    {
      ghost var avail0 := Availabilities();
      eq.SetAvailability(status);
      if Distinct(EquipmentIds(equipment)) {
        var ids := EquipmentIds(equipment);
        var k := FindEquipmentIndex(equipment, eq.id);
        forall j | 0 <= j < |equipment| && j != k
          ensures equipment[j] != eq
        {
          assert ids[j] != ids[k];
        }
        assert Availabilities() == avail0[k := status];
      }
    }

    /**
      `removeEquipment`: administrators only; an existing item with no open rental leaves the
      catalogue, and nothing else changes.
    */
    method RemoveEquipment(equipmentId: string) returns (ok: bool)
      modifies this`equipment
      ensures ok <==> auth.IsCurrentUserAdmin() && equipmentId in EquipmentIds(old(equipment)) &&
                      equipmentId !in RentedIds(rentals)
      ensures ok ==> equipment == RemoveAt(old(equipment), FindEquipmentIndex(old(equipment), equipmentId))
      ensures !ok ==> equipment == old(equipment)
      ensures old(Consistent()) ==> Consistent()
    {
      if !RequireAdminAccess() {
        return false;
      }
      var eq := FindEquipmentById(equipmentId);
      if eq == null {
        return false;
      }
      var isRented := equipmentId in RentedIds(rentals);
      if isRented {
        return false;
      }
      var k := FindEquipmentIndex(equipment, equipmentId);
      equipment := RemoveAt(equipment, k);
      if old(Consistent()) {
        assert EquipmentIds(equipment) == RemoveAt(EquipmentIds(old(equipment)), k);
        assert Availabilities() == RemoveAt(old(Availabilities()), k);
        RemoveKeeps(EquipmentIds(old(equipment)), old(Availabilities()), rentals, ReturnIds(returnRecords), k);
      }
      return true;
    }

    /** May the session user close this rental: administrators any, customers their own. */
    predicate MayReturn(r: Rental)
      reads auth`currentUser
    {
      auth.currentUser != null && (auth.currentUser.IsCustomer() ==> r.customerId == auth.currentUser.userId)
    }

    /**
      `rentEquipment`: the checks in the source's order, each failure changing nothing; on
      success one new open rental (next rental ID, today, the cost rate × days), the counter
      advanced and the item Rented.
    */
    method RentEquipment(equipmentId: string, days: int, today: int) returns (o: RentOutcome)
      requires Valid()
      modifies this`rentals, this`rentalCounter, equipment
      ensures Valid()
      ensures equipment == old(equipment) && returnRecords == old(returnRecords)
      ensures !auth.IsLoggedIn() ==> o == RentNotLoggedIn
      ensures auth.IsLoggedIn() && !auth.IsCurrentUserCustomer() ==> o == NotCustomer
      ensures auth.IsCurrentUserCustomer() && FindEquipmentById(equipmentId) == null ==> o == RentEquipmentNotFound
      ensures var e1 := FindEquipmentById(equipmentId);
              auth.IsCurrentUserCustomer() && e1 != null && !old(e1.IsAvailable()) ==> o == NotAvailable
      ensures var e2 := FindEquipmentById(equipmentId);
              auth.IsCurrentUserCustomer() && e2 != null && old(e2.IsAvailable()) && !IsValidRentDays(days) ==>
                o == InvalidDays(days)
      ensures var e3 := FindEquipmentById(equipmentId);
              o.RentSucceeded? <==> auth.IsCurrentUserCustomer() && e3 != null && old(e3.IsAvailable()) && IsValidRentDays(days)
      ensures !o.RentSucceeded? ==>
                rentals == old(rentals) && rentalCounter == old(rentalCounter) && forall e :: e in equipment ==> unchanged(e)
      ensures var e4 := FindEquipmentById(equipmentId);
              o.RentSucceeded? ==>
                && e4 != null
                && o.rentalId == FormatId('R', old(rentalCounter))
                && o.rentalId !in RentalIds(old(rentals)) + ReturnIds(returnRecords)
                && o.totalCost == RentalCost(e4.rentPerDay, days)
                && rentals == old(rentals) + [NewRental(o.rentalId, equipmentId, auth.currentUser.userId, today, days, o.totalCost)]
                && rentalCounter == old(rentalCounter) + 1
                && e4.availability == Rented
                && forall e :: e in equipment && e != e4 ==> unchanged(e)
      ensures old(Consistent()) ==> Consistent()
    {
      if !RequireAuthentication() {
        return RentNotLoggedIn;
      }
      var currentUser := auth.currentUser;
      if !currentUser.IsCustomer() {
        return NotCustomer;
      }
      var eq := FindEquipmentById(equipmentId);
      if eq == null {
        return RentEquipmentNotFound;
      }
      if !eq.IsAvailable() {
        return NotAvailable;
      }
      if !IsValidRentDays(days) {
        return InvalidDays(days);
      }
      var totalCost := RentalCost(eq.rentPerDay, days);
      var rentalId := OpenRental(eq, currentUser.userId, days, today, totalCost);
      return RentSucceeded(rentalId, totalCost);
    }

    /**
      The success path of `rentEquipment`: the next rental ID is issued, the counter advances,
      the rental is appended and the item becomes Rented.
    */
    method OpenRental(eq: Equipment, customerId: string, days: int, today: int, totalCost: real)
      returns (rentalId: string)
      requires Valid()
      requires eq == FindEquipmentById(eq.id) && IsAvailableStatus(eq.availability)
      modifies this`rentals, this`rentalCounter, eq`availability
      ensures Valid()
      ensures rentalId == FormatId('R', old(rentalCounter))
      ensures rentalId !in RentalIds(old(rentals)) + ReturnIds(returnRecords)
      ensures rentals == old(rentals) + [NewRental(rentalId, eq.id, customerId, today, days, totalCost)]
      ensures rentalCounter == old(rentalCounter) + 1
      ensures eq.availability == Rented
      ensures old(Consistent()) ==> Consistent()
    {
      ghost var rentals0, counter0 := rentals, rentalCounter;
      ghost var wasConsistent := Consistent();
      ghost var avail0 := Availabilities();
      rentalId := FormatId('R', rentalCounter);
      rentalCounter := rentalCounter + 1;
      var rental := NewRental(rentalId, eq.id, customerId, today, days, totalCost);
      rentals := rentals + [rental];
      SetStatus(eq, Rented);
      RentIssuesFreshId(rentals0, returnRecords, counter0, rental);
      if wasConsistent {
        var k := FindEquipmentIndex(equipment, eq.id);
        RentKeeps(EquipmentIds(equipment), avail0, rentals0, ReturnIds(returnRecords), k, rental);
      }
    }

    /** `rec` is the return record of `r` closed on `today`, before any condition is set. */
    ghost predicate RecordOf(rec: ReturnRecord, r: Rental, today: int)
      reads rec
    {
      && rec.rentalId == r.rentalId && rec.equipmentId == r.equipmentId && rec.customerId == r.customerId
      && rec.startDate == r.startDate && rec.endDate == today && rec.totalCost == r.totalCost
      && rec.lateFee == LateFee(r, today)
    }

    /** The record of `rental` closed on `today` with the given condition. */
    method CloseRecord(rental: Rental, today: int, condition: string) returns (record: ReturnRecord)
      ensures fresh(record) && RecordOf(record, rental, today) && record.condition == condition
    {
      var lateFee := 0.0;
      if rental.IsOverdue(today) {
        lateFee := (rental.DaysOverdue(today) as real) * LateFeePerDay;
      }
      record := new ReturnRecord(rental.rentalId, rental.equipmentId, rental.customerId,
                                 rental.startDate, today, rental.totalCost);
      record.SetLateFee(lateFee);
      record.SetCondition(condition);
    }

    /**
      The effect of a successful closure on `today` of the first open rental with this ID:
      exactly that rental leaves the open list, one record of it is appended to the history,
      and its item has `status`.
    */
    ghost predicate ClosedAt(rentals0: seq<Rental>, returns0: seq<ReturnRecord>, rentalId: string, today: int, status: string)
      reads this`equipment, this`rentals, this`returnRecords, equipment, returnRecords
    {
      var i := FindRentalIndex(rentals0, rentalId);
      && i < |rentals0|
      && rentals == RemoveAt(rentals0, i)
      && |returnRecords| == |returns0| + 1 && returnRecords[..|returns0|] == returns0
      && RecordOf(returnRecords[|returns0|], rentals0[i], today)
      && FindEquipmentById(rentals0[i].equipmentId) != null
      && FindEquipmentById(rentals0[i].equipmentId).availability == status
    }

    /**
      `returnEquipment`: the checks in the source's order, each failure changing nothing; on
      success one return record copying the rental (ended today, with its late fee, condition
      "Good"), that rental and only that one removed, and the item Available.
    */
    method ReturnEquipment(rentalId: string, today: int) returns (o: ReturnOutcome)
      requires Valid()
      modifies this`rentals, this`returnRecords, equipment
      ensures Valid()
      ensures equipment == old(equipment)
      ensures !auth.IsLoggedIn() ==> o == ReturnNotLoggedIn
      ensures auth.IsLoggedIn() && old(FindRentalById(rentalId)).None? ==> o == ReturnRentalNotFound
      ensures var f := old(FindRentalById(rentalId));
              auth.IsLoggedIn() && f.Some? && !MayReturn(f.value) ==> o == NotOwnRental
      ensures var f := old(FindRentalById(rentalId));
              auth.IsLoggedIn() && f.Some? && MayReturn(f.value) && FindEquipmentById(f.value.equipmentId) == null ==>
                o == ReturnEquipmentNotFound
      ensures var f := old(FindRentalById(rentalId));
              o.ReturnSucceeded? <==>
                auth.IsLoggedIn() && f.Some? && MayReturn(f.value) && FindEquipmentById(f.value.equipmentId) != null
      ensures !o.ReturnSucceeded? ==>
                rentals == old(rentals) && returnRecords == old(returnRecords) && forall e :: e in equipment ==> unchanged(e)
      ensures o.ReturnSucceeded? ==> ClosedAt(old(rentals), old(returnRecords), rentalId, today, Available)
      ensures o.ReturnSucceeded? ==>
                var rec := returnRecords[|returnRecords| - 1];
                fresh(rec) && rec.condition == DefaultCondition && o == ReturnSucceeded(rec.lateFee, rec.FinalAmount())
      ensures o.ReturnSucceeded? ==>
                forall e :: e in equipment && e.id != old(FindRentalById(rentalId)).value.equipmentId ==> unchanged(e)
      ensures old(Consistent()) ==> Consistent()
    {
      if !RequireAuthentication() {
        return ReturnNotLoggedIn;
      }
      var found := FindRentalById(rentalId);
      if found.None? {
        return ReturnRentalNotFound;
      }
      var rental := found.value;
      var currentUser := auth.currentUser;
      if currentUser.IsCustomer() && rental.customerId != currentUser.userId {
        return NotOwnRental;
      }
      var eq := FindEquipmentById(rental.equipmentId);
      if eq == null {
        return ReturnEquipmentNotFound;
      }
      var i := FindRentalIndex(rentals, rentalId);
      var record := CloseRental(i, eq, today, DefaultCondition, Available);
      return ReturnSucceeded(record.lateFee, rental.totalCost + record.lateFee);
    }

    /**
      `forceReturnEquipment`: administrators only, with no ownership check; like a return,
      but the record keeps the given condition and a damaged or lost item goes to
      maintenance. The additional fees only reach the message.
    */
    method ForceReturnEquipment(rentalId: string, condition: string, additionalFees: real, today: int)
      returns (o: ForceReturnOutcome)
      requires Valid()
      modifies this`rentals, this`returnRecords, equipment
      ensures Valid()
      ensures equipment == old(equipment)
      ensures !auth.IsCurrentUserAdmin() ==> o == AccessDenied
      ensures auth.IsCurrentUserAdmin() && old(FindRentalById(rentalId)).None? ==> o == ForceRentalNotFound
      ensures var f := old(FindRentalById(rentalId));
              auth.IsCurrentUserAdmin() && f.Some? && FindEquipmentById(f.value.equipmentId) == null ==>
                o == ForceEquipmentNotFound
      ensures var f := old(FindRentalById(rentalId));
              o.ForceReturnSucceeded? <==>
                auth.IsCurrentUserAdmin() && f.Some? && FindEquipmentById(f.value.equipmentId) != null
      ensures !o.ForceReturnSucceeded? ==>
                rentals == old(rentals) && returnRecords == old(returnRecords) && forall e :: e in equipment ==> unchanged(e)
      ensures o.ForceReturnSucceeded? ==>
                ClosedAt(old(rentals), old(returnRecords), rentalId, today, ForceReturnStatus(condition))
      ensures o.ForceReturnSucceeded? ==>
                var rec := returnRecords[|returnRecords| - 1];
                fresh(rec) && rec.condition == condition &&
                o == ForceReturnSucceeded(condition, rec.lateFee > 0.0 || additionalFees > 0.0, rec.lateFee + additionalFees)
      ensures o.ForceReturnSucceeded? ==>
                forall e :: e in equipment && e.id != old(FindRentalById(rentalId)).value.equipmentId ==> unchanged(e)
      ensures old(Consistent()) ==> Consistent()
    {
      if !RequireAdminAccess() {
        return AccessDenied;
      }
      var found := FindRentalById(rentalId);
      if found.None? {
        return ForceRentalNotFound;
      }
      var rental := found.value;
      var eq := FindEquipmentById(rental.equipmentId);
      if eq == null {
        return ForceEquipmentNotFound;
      }
      var i := FindRentalIndex(rentals, rentalId);
      var status := if IsDamageOrLost(condition) then Maintenance else Available;
      var record := CloseRental(i, eq, today, condition, status);
      var lateFee := record.lateFee;
      return ForceReturnSucceeded(condition, lateFee > 0.0 || additionalFees > 0.0, lateFee + additionalFees);
    }

    /**
      The shared body of the two closures: the record of the rental at index `i` (late fee
      from `today`, the given condition) joins the history, the rental leaves the open list
      (`List.remove` of the object found, which is the first with its ID) and the item takes
      `status`.
    */
    method CloseRental(i: nat, eq: Equipment, today: int, condition: string, status: string)
      returns (record: ReturnRecord)
      requires Valid()
      requires i < |rentals| && eq == FindEquipmentById(rentals[i].equipmentId) && status != Rented
      modifies this`rentals, this`returnRecords, eq`availability
      ensures Valid()
      ensures fresh(record) && record.condition == condition
      ensures rentals == RemoveAt(old(rentals), i)
      ensures returnRecords == old(returnRecords) + [record]
      ensures RecordOf(record, old(rentals)[i], today)
      ensures eq.availability == status
      ensures old(Consistent()) ==> Consistent()
    {
      ghost var rentals0, returns0 := rentals, returnRecords;
      ghost var wasConsistent := Consistent();
      ghost var avail0 := Availabilities();
      record := CloseRecord(rentals[i], today, condition);
      returnRecords := returnRecords + [record];
      rentals := RemoveAt(rentals, i);
      assert Availabilities() == avail0;
      SetStatus(eq, status);
      CloseIdsMove(rentals0, returns0, i, record);
      if wasConsistent {
        var ids := EquipmentIds(equipment);
        var k := FindEquipmentIndex(equipment, eq.id);
        CloseKeeps(ids, avail0, rentals0, ReturnIds(returns0), i, k, status);
      }
    }

    /** The counter step of a closure: an ID moves from the open list to the history. */
    lemma CloseIdsMove(rentals0: seq<Rental>, returns0: seq<ReturnRecord>, i: nat, record: ReturnRecord)
      requires i < |rentals0| && rentals == RemoveAt(rentals0, i) && returnRecords == returns0 + [record]
      requires record.rentalId == rentals0[i].rentalId
      requires rentalCounter >= 1 && CounterAbove(RentalIds(rentals0) + ReturnIds(returns0), rentalCounter)
      ensures RentalIds(rentals) == RemoveAt(RentalIds(rentals0), i)
      ensures ReturnIds(returnRecords) == ReturnIds(returns0) + [rentals0[i].rentalId]
      ensures Valid()
    {
      assert RentalIds(rentals) == RemoveAt(RentalIds(rentals0), i);
      assert ReturnIds(returnRecords) == ReturnIds(returns0) + [RentalIds(rentals0)[i]];
      CloseKeepsCounter(RentalIds(rentals0), ReturnIds(returns0), i, rentalCounter);
    }

    /** The counter step of `rentEquipment`. */
    lemma RentIssuesFreshId(rentals0: seq<Rental>, returns0: seq<ReturnRecord>, counter0: nat, rental: Rental)
      requires counter0 >= 1 && CounterAbove(RentalIds(rentals0) + ReturnIds(returns0), counter0)
      requires rental.rentalId == FormatId('R', counter0)
      requires rentals == rentals0 + [rental] && returnRecords == returns0 && rentalCounter == counter0 + 1
      ensures rental.rentalId !in RentalIds(rentals0) + ReturnIds(returns0)
      ensures Valid()
    {
      RentKeepsCounter(RentalIds(rentals0), ReturnIds(returns0), counter0);
      assert RentalIds(rentals) + ReturnIds(returnRecords) == RentalIds(rentals0) + [rental.rentalId] + ReturnIds(returns0);
    }

    /** `getActiveRentals`: all open rentals for an administrator, a customer's own otherwise. */
    function GetActiveRentals(): (rs: seq<Rental>)
      reads this`rentals, auth`currentUser
      ensures !auth.IsLoggedIn() ==> rs == []
      ensures auth.IsCurrentUserAdmin() ==> rs == rentals
      ensures auth.IsCurrentUserCustomer() ==>
                forall r :: r in rs <==> r in rentals && r.customerId == auth.currentUser.userId
      ensures auth.IsCurrentUserCustomer() ==> rs == RentalsOf(rentals, auth.currentUser.userId)
    {
      if !RequireAuthentication() then []
      else if auth.currentUser.IsAdmin() then rentals
      else RentalsOf(rentals, auth.currentUser.userId)
    }

    /**
      `getCustomerRentals`: a customer always gets their own rentals, whatever ID is asked
      for; an administrator gets the asked customer's.
    */
    function GetCustomerRentals(customerId: string): (rs: seq<Rental>)
      reads this`rentals, auth`currentUser
      ensures !auth.IsLoggedIn() ==> rs == []
      ensures auth.IsCurrentUserCustomer() ==>
                forall r :: r in rs <==> r in rentals && r.customerId == auth.currentUser.userId
      ensures auth.IsCurrentUserAdmin() ==> forall r :: r in rs <==> r in rentals && r.customerId == customerId
      ensures auth.IsCurrentUserCustomer() ==> rs == RentalsOf(rentals, auth.currentUser.userId)
      ensures auth.IsCurrentUserAdmin() ==> rs == RentalsOf(rentals, customerId)
    {
      if !RequireAuthentication() then []
      else
        var id := if auth.currentUser.IsCustomer() then auth.currentUser.userId else customerId;
        RentalsOf(rentals, id)
    }

    /** `getCustomerHistory`: the same scoping over the return records. */
    function GetCustomerHistory(customerId: string): (rs: seq<ReturnRecord>)
      reads this`returnRecords, auth`currentUser
      ensures !auth.IsLoggedIn() ==> rs == []
      ensures auth.IsCurrentUserCustomer() ==>
                rs == ReturnsOf(returnRecords, auth.currentUser.userId)
      ensures auth.IsCurrentUserAdmin() ==> rs == ReturnsOf(returnRecords, customerId)
    {
      if !RequireAuthentication() then []
      else
        var id := if auth.currentUser.IsCustomer() then auth.currentUser.userId else customerId;
        ReturnsOf(returnRecords, id)
    }

    /** `getOverdueRentals`: administrators only. */
    function GetOverdueRentals(today: int): (rs: seq<Rental>)
      reads this`rentals, auth`currentUser
      ensures !auth.IsCurrentUserAdmin() ==> rs == []
      ensures auth.IsCurrentUserAdmin() ==> forall r :: r in rs <==> r in rentals && r.IsOverdue(today)
      ensures auth.IsCurrentUserAdmin() ==> rs == OverdueRentals(rentals, today)
    {
      if !RequireAdminAccess() then [] else OverdueRentals(rentals, today)
    }

    /** `searchEquipment`: any logged-in user; case-insensitive substring match. */
    function SearchEquipment(searchTerm: string): (es: seq<Equipment>)
      reads this`equipment, auth`currentUser
      ensures !auth.IsLoggedIn() ==> es == []
      ensures auth.IsLoggedIn() ==> es == SearchMatches(equipment, searchTerm)
    {
      if !RequireAuthentication() then [] else SearchMatches(equipment, searchTerm)
    }
  }

  /**
    The worked example of the rental cycle: a customer rents E101 at 20 a day for three
    days and gets rental R001 costing 60; returning it by the end of the window costs
    nothing more, and every day after it adds 50 (five days late: 250, 310 in all).
  */
  method RentReturnScenario(username: string, password: string, today: int, returnDay: int)
    returns (rent: RentOutcome, ret: ReturnOutcome)
    requires !IsBlank(username) && !IsBlank(password)
    ensures rent == RentSucceeded("R001", 60.0)
    ensures returnDay <= today + 3 ==> ret == ReturnSucceeded(0.0, 60.0)
    ensures returnDay > today + 3 ==>
              ret == ReturnSucceeded(((returnDay - today - 3) as real) * 50.0, 60.0 + ((returnDay - today - 3) as real) * 50.0)
  {
    var auth := CustomerSession(username, password);
    var service, item;
    service, item, rent := RentStep(auth, today);
    var rental := NewRental("R001", "E101", "C001", today, 3, 60.0);
    assert service.FindRentalById("R001") == Some(rental) && service.MayReturn(rental);
    ret := service.ReturnEquipment("R001", returnDay);
    assert ret.ReturnSucceeded? && FindRentalIndex([rental], "R001") == 0;
    var record := service.returnRecords[0];
    assert service.RecordOf(record, rental, returnDay);
    assert ret == ReturnSucceeded(record.lateFee, record.FinalAmount());
  }

  /** Logging in to a stored active customer account C001 with its own password. */
  method CustomerSession(username: string, password: string) returns (auth: AuthenticationService)
    requires !IsBlank(username) && !IsBlank(password)
    ensures fresh(auth) && auth.currentUser != null
    ensures auth.currentUser.IsCustomer() && auth.currentUser.userId == "C001"
  {
    var customer := new User.Load("C001", username, PasswordHash(password, username), "Some Customer",
                                  "someone@example.com", Customer, Active, 0);
    auth := new AuthenticationService([customer]);
    assert auth.FindUserByUsername(username) == customer;
    var login := auth.Login(username, password);
  }

  /** The rent half of the worked example, on a catalogue holding only E101 and no rentals. */
  method RentStep(auth: AuthenticationService, today: int)
    returns (service: RentalService, item: Equipment, rent: RentOutcome)
    requires auth.currentUser != null && auth.currentUser.IsCustomer() && auth.currentUser.userId == "C001"
    ensures fresh(service) && service.auth == auth && service.Valid()
    ensures fresh(item) && service.equipment == [item] && item.id == "E101"
    ensures rent == RentSucceeded("R001", 60.0)
    ensures service.rentals == [NewRental("R001", "E101", "C001", today, 3, 60.0)] && service.returnRecords == []
  {
    service, item := StockedService(auth);
    assert service.FindEquipmentById("E101") == item && item.IsAvailable();
    rent := service.RentEquipment("E101", 3, today);
  }

  /** A freshly loaded service whose catalogue is one available drill, E101 at 20 a day. */
  method StockedService(auth: AuthenticationService) returns (service: RentalService, item: Equipment)
    ensures fresh(service) && service.auth == auth && service.Valid()
    ensures fresh(item) && service.equipment == [item]
    ensures item.id == "E101" && item.rentPerDay == 20.0 && item.availability == Available
    ensures service.rentals == [] && service.returnRecords == [] && service.rentalCounter == 1
  {
    item := new Equipment.WithCategory("E101", "Drill", 20.0, Available, "Tools");
    service := new RentalService(auth, [item], [], []);
    FirstIssuedIds();
  }
}
