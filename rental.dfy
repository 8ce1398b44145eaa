/**
  `models.Rental`: an open rental. No caller changes a rental after it is made, so it is a
  value; dates are epoch days and the clock is the `today` argument.
*/
module RentalModel {

  const ActiveStatus := "Active"

  /** The status field is informational: every constructed rental is "Active". */
  datatype Rental = Rental(rentalId: string, equipmentId: string, customerId: string,
                           startDate: int, daysRented: int, status: string, totalCost: real)
  {
    function ExpectedReturnDate(): int
    {
      startDate + daysRented
    }

    /** Overdue strictly after the expected date: returning on that date is on time. */
    predicate IsOverdue(today: int)
    {
      today > ExpectedReturnDate()
    }

    function DaysOverdue(today: int): int
    {
      if !IsOverdue(today) then 0 else today - ExpectedReturnDate()
    }
  }

  /** The constructor: stores every field and starts the rental "Active". */
  function NewRental(rentalId: string, equipmentId: string, customerId: string,
                     startDate: int, daysRented: int, totalCost: real): (r: Rental)
    ensures r.rentalId == rentalId && r.equipmentId == equipmentId && r.customerId == customerId
    ensures r.startDate == startDate && r.daysRented == daysRented && r.totalCost == totalCost
    ensures r.status == ActiveStatus
  {
    Rental(rentalId, equipmentId, customerId, startDate, daysRented, ActiveStatus, totalCost)
  }

  /**
    The days overdue are max(0, today - (startDate + daysRented)): never negative, and
    positive exactly when the rental is overdue.
  */
  lemma DaysOverdueIsClampedLateness(r: Rental, today: int)
    ensures r.DaysOverdue(today) == if today - (r.startDate + r.daysRented) > 0 then today - (r.startDate + r.daysRented) else 0
    ensures r.DaysOverdue(today) >= 0
    ensures r.DaysOverdue(today) > 0 <==> r.IsOverdue(today)
    ensures today <= r.ExpectedReturnDate() ==> !r.IsOverdue(today) && r.DaysOverdue(today) == 0
  {
  }

  /** One more day late is one more day overdue, once overdue. */
  lemma DaysOverdueStep(r: Rental, today: int)
    requires r.IsOverdue(today)
    ensures r.DaysOverdue(today + 1) == r.DaysOverdue(today) + 1
  {
  }
}
