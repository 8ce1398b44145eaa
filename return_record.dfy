/**
  `models.ReturnRecord` (with the fields of its base `RentalTransaction` flattened in): the
  record of a closed rental. The late fee and the condition are set right after
  construction; every other field is fixed.
*/
module ReturnRecordModel {

  const DefaultCondition := "Good"

  class ReturnRecord {
    const rentalId: string
    const equipmentId: string
    const customerId: string
    const startDate: int
    const endDate: int
    const totalCost: real
    var lateFee: real
    var condition: string

    /** Copies the transaction fields; no late fee yet and condition "Good". */
    constructor (rentalId: string, equipmentId: string, customerId: string,
                 startDate: int, endDate: int, totalCost: real)
      ensures this.rentalId == rentalId && this.equipmentId == equipmentId
      ensures this.customerId == customerId && this.startDate == startDate
      ensures this.endDate == endDate && this.totalCost == totalCost
      ensures lateFee == 0.0 && condition == DefaultCondition
      ensures FinalAmount() == totalCost
    {
      this.rentalId := rentalId;
      this.equipmentId := equipmentId;
      this.customerId := customerId;
      this.startDate := startDate;
      this.endDate := endDate;
      this.totalCost := totalCost;
      this.lateFee := 0.0;
      this.condition := DefaultCondition;
    }

    /** Changes the fee only; the amount due follows it. */
    method SetLateFee(lateFee: real)
      modifies this`lateFee
      ensures this.lateFee == lateFee
      ensures FinalAmount() == totalCost + lateFee
    {
      this.lateFee := lateFee;
    }

    method SetCondition(condition: string)
      modifies this`condition
      ensures this.condition == condition
    {
      this.condition := condition;
    }

    /** The amount due on closure: the rental cost plus the late fee. */
    function FinalAmount(): real
      reads this
    {
      totalCost + lateFee
    }
  }
}
