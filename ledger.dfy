/**
  The consistency the rental service keeps between its catalogue, its open rentals and its
  closed rentals, stated over plain values so that each transition is one lemma:

    * equipment IDs are unique;
    * an item has at most one open rental, and every open rental names a catalogued item;
    * an item's status is "Rented" exactly when it has an open rental;
    * a rental ID occurs once across the open and the closed rentals, so every closure
      produces exactly one return record;

  together with the rental counter staying above every numeric suffix in use.
*/
module Ledger {
  import opened Strings
  import opened Ids
  import opened Seqs
  import opened EquipmentModel
  import opened RentalModel
  import opened ReturnRecordModel

  function EquipmentIds(es: seq<Equipment>): (ids: seq<string>)
    ensures |ids| == |es| && forall i :: 0 <= i < |es| ==> ids[i] == es[i].id
  {
    seq(|es|, i requires 0 <= i < |es| => es[i].id)
  }

  function RentalIds(rs: seq<Rental>): (ids: seq<string>)
    ensures |ids| == |rs| && forall i :: 0 <= i < |rs| ==> ids[i] == rs[i].rentalId
  {
    seq(|rs|, i requires 0 <= i < |rs| => rs[i].rentalId)
  }

  /** The equipment IDs of the open rentals. */
  function RentedIds(rs: seq<Rental>): (ids: seq<string>)
    ensures |ids| == |rs| && forall i :: 0 <= i < |rs| ==> ids[i] == rs[i].equipmentId
  {
    seq(|rs|, i requires 0 <= i < |rs| => rs[i].equipmentId)
  }

  /** The availability status of each catalogued item, in catalogue order. */
  ghost function Statuses(es: seq<Equipment>): (a: seq<string>)
    reads es
    ensures |a| == |es| && forall i :: 0 <= i < |es| ==> a[i] == es[i].availability
  {
    if es == [] then [] else Statuses(es[..|es| - 1]) + [es[|es| - 1].availability]
  }

  /** The rental IDs of the closed rentals. */
  function ReturnIds(rs: seq<ReturnRecord>): (ids: seq<string>)
    ensures |ids| == |rs| && forall i :: 0 <= i < |rs| ==> ids[i] == rs[i].rentalId
  {
    seq(|rs|, i requires 0 <= i < |rs| => rs[i].rentalId)
  }

  /**
    `ids[j]` has status `avail[j]`; `rentals` are open; `closed` are the rental IDs of the
    return records.
  */
  ghost predicate LedgerConsistent(ids: seq<string>, avail: seq<string>, rentals: seq<Rental>, closed: seq<string>)
  {
    && |ids| == |avail|
    && Distinct(ids)
    && Distinct(RentedIds(rentals))
    && Distinct(RentalIds(rentals) + closed)
    && (forall i :: 0 <= i < |rentals| ==> rentals[i].equipmentId in ids)
    && (forall j :: 0 <= j < |ids| ==> (avail[j] == Rented <==> ids[j] in RentedIds(rentals)))
  }

  /** What consistency means for one item: rented iff exactly one open rental names it. */
  lemma RentedMeansOneOpenRental(ids: seq<string>, avail: seq<string>, rentals: seq<Rental>, closed: seq<string>, j: nat)
    requires LedgerConsistent(ids, avail, rentals, closed)
    requires j < |ids|
    ensures avail[j] == Rented <==> exists i :: 0 <= i < |rentals| && rentals[i].equipmentId == ids[j]
    ensures forall a, b ::
              (0 <= a < |rentals| && 0 <= b < |rentals| &&
               rentals[a].equipmentId == ids[j] && rentals[b].equipmentId == ids[j]) ==> a == b
  {
    var rented := RentedIds(rentals);
    if avail[j] == Rented {
      var i :| 0 <= i < |rented| && rented[i] == ids[j];
      assert rentals[i].equipmentId == ids[j];
    }
    forall a, b | 0 <= a < |rentals| && 0 <= b < |rentals| &&
              rentals[a].equipmentId == ids[j] && rentals[b].equipmentId == ids[j]
      ensures a == b
    {
      assert rented[a] == rented[b];
    }
  }

  /** `rentEquipment`: an item with an available status gets one new open rental and becomes Rented. */
  lemma RentKeeps(ids: seq<string>, avail: seq<string>, rentals: seq<Rental>, closed: seq<string>, k: nat, r: Rental)
    requires LedgerConsistent(ids, avail, rentals, closed)
    requires k < |ids| && IsAvailableStatus(avail[k]) && r.equipmentId == ids[k]
    requires r.rentalId !in RentalIds(rentals) + closed
    ensures LedgerConsistent(ids, avail[k := Rented], rentals + [r], closed)
  {
    AvailableStatusIgnoresCase(avail[k]);
    var rentals' := rentals + [r];
    assert RentedIds(rentals') == RentedIds(rentals) + [ids[k]];
    DistinctAppend(RentedIds(rentals), ids[k]);
    var open := RentalIds(rentals);
    assert RentalIds(rentals') + closed == open + [r.rentalId] + closed;
    var s := open + [r.rentalId] + closed;
    forall a, b | 0 <= a < |s| && 0 <= b < |s| && s[a] == s[b]
      ensures a == b
    {
      var t := open + closed;
      assert a != |open| ==> s[a] == t[if a < |open| then a else a - 1];
      assert b != |open| ==> s[b] == t[if b < |open| then b else b - 1];
    }
    forall i | 0 <= i < |rentals'|
      ensures rentals'[i].equipmentId in ids
    {
      if i < |rentals| {
        assert rentals'[i] == rentals[i];
      }
    }
  }

  /**
    `returnEquipment` / `forceReturnEquipment`: the open rental at index `i` closes, its
    item takes a status other than Rented, and its ID moves to the closed list.
  */
  lemma CloseKeeps(ids: seq<string>, avail: seq<string>, rentals: seq<Rental>, closed: seq<string>,
                   i: nat, k: nat, status: string)
    requires LedgerConsistent(ids, avail, rentals, closed)
    requires i < |rentals| && k < |ids| && ids[k] == rentals[i].equipmentId
    requires status != Rented
    ensures LedgerConsistent(ids, avail[k := status], RemoveAt(rentals, i), closed + [rentals[i].rentalId])
  {
    var rentals' := RemoveAt(rentals, i);
    var rented := RentedIds(rentals);
    assert RentedIds(rentals') == RemoveAt(rented, i);
    RemoveAtMembers(rented, i, ids[k]);
    assert RentalIds(rentals') + (closed + [rentals[i].rentalId])
        == RemoveAt(RentalIds(rentals), i) + closed + [RentalIds(rentals)[i]];
    DistinctMoveToEnd(RentalIds(rentals), closed, i);
    forall j | 0 <= j < |ids|
      ensures (avail[k := status][j] == Rented <==> ids[j] in RentedIds(rentals'))
    {
      RemoveAtMembers(rented, i, ids[j]);
    }
    forall a | 0 <= a < |rentals'|
      ensures rentals'[a].equipmentId in ids
    {
      assert rentals'[a] == rentals[if a < i then a else a + 1];
    }
  }

  /** `addEquipment`: a new ID with a status other than Rented. */
  lemma AddKeeps(ids: seq<string>, avail: seq<string>, rentals: seq<Rental>, closed: seq<string>, id: string, status: string)
    requires LedgerConsistent(ids, avail, rentals, closed)
    requires id !in ids && status != Rented
    ensures LedgerConsistent(ids + [id], avail + [status], rentals, closed)
  {
    DistinctAppend(ids, id);
    var rented := RentedIds(rentals);
    forall i | 0 <= i < |rented|
      ensures rented[i] != id
    {
      assert rentals[i].equipmentId in ids;
    }
  }

  /** `removeEquipment`: an item with no open rental leaves the catalogue. */
  lemma RemoveKeeps(ids: seq<string>, avail: seq<string>, rentals: seq<Rental>, closed: seq<string>, k: nat)
    requires LedgerConsistent(ids, avail, rentals, closed)
    requires k < |ids| && ids[k] !in RentedIds(rentals)
    ensures LedgerConsistent(RemoveAt(ids, k), RemoveAt(avail, k), rentals, closed)
  {
    RemoveAtMembers(ids, k, ids[k]);
    forall i | 0 <= i < |rentals|
      ensures rentals[i].equipmentId in RemoveAt(ids, k)
    {
      assert RentedIds(rentals)[i] == rentals[i].equipmentId;
      RemoveAtMembers(ids, k, rentals[i].equipmentId);
    }
  }

  /** `updateEquipmentStatus` keeps consistency when it does not change whether the item is Rented. */
  lemma StatusKeeps(ids: seq<string>, avail: seq<string>, rentals: seq<Rental>, closed: seq<string>, k: nat, status: string)
    requires LedgerConsistent(ids, avail, rentals, closed)
    requires k < |ids| && (avail[k] == Rented <==> status == Rented)
    ensures LedgerConsistent(ids, avail[k := status], rentals, closed)
  {
  }

  /**
    ...and only then: marking an item with no open rental as Rented (or a rented item as
    anything else) breaks the consistency.
  */
  lemma StatusCanBreak()
    ensures LedgerConsistent(["E101"], [Available], [], [])
    ensures !LedgerConsistent(["E101"], [Rented], [], [])
  {
    assert RentedIds([]) == [];
    assert RentalIds([]) + [] == [];
    assert ["E101"][0] !in RentedIds([]) && [Rented][0] == Rented;
  }

  /** The rental counter is above the numeric suffix of every rental ID in use. */
  predicate SuffixBelow(id: string, counter: nat)
  {
    SuffixOf(id, 'R').Some? ==> SuffixOf(id, 'R').value < counter
  }

  ghost predicate CounterAbove(ids: seq<string>, counter: nat)
  {
    forall id :: id in ids ==> SuffixBelow(id, counter)
  }

  /** `initializeRentalCounter` starts the counter above every suffix in use. */
  lemma CounterStartAbove(ids: seq<string>)
    ensures CounterAbove(ids, MaxSuffix(ids, 'R', 0) + 1)
  {
    forall id | id in ids
      ensures SuffixBelow(id, MaxSuffix(ids, 'R', 0) + 1)
    {
      var j :| 0 <= j < |ids| && ids[j] == id;
    }
  }

  /**
    The ID `rentEquipment` issues is unused, and after the increment the counter is again
    above every suffix, the new one included.
  */
  lemma RentKeepsCounter(open: seq<string>, closed: seq<string>, counter: nat)
    requires CounterAbove(open + closed, counter)
    ensures FormatId('R', counter) !in open + closed
    ensures CounterAbove(open + [FormatId('R', counter)] + closed, counter + 1)
  {
    var ids := open + closed;
    forall j | 0 <= j < |ids| && SuffixOf(ids[j], 'R').Some?
      ensures SuffixOf(ids[j], 'R').value < counter
    {
      assert SuffixBelow(ids[j], counter);
    }
    FreshId(ids, 'R', counter);
    SuffixOfFormatId('R', counter);
    forall id | id in open + [FormatId('R', counter)] + closed
      ensures SuffixBelow(id, counter + 1)
    {
      if id != FormatId('R', counter) {
        assert id in ids;
      }
    }
  }

  /** Closing a rental only moves an ID, so the counter stays above every suffix. */
  lemma CloseKeepsCounter(open: seq<string>, closed: seq<string>, i: nat, counter: nat)
    requires CounterAbove(open + closed, counter)
    requires i < |open|
    ensures CounterAbove(RemoveAt(open, i) + (closed + [open[i]]), counter)
  {
    forall id | id in RemoveAt(open, i) + (closed + [open[i]])
      ensures SuffixBelow(id, counter)
    {
      RemoveAtMembers(open, i, id);
      assert id in open + closed;
    }
  }
}
