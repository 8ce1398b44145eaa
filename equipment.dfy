/**
  `models.Equipment`: a catalogue item. Only its availability status changes after
  construction (`setAvailability`), so the other fields are constants.
*/
module EquipmentModel {
  import opened Strings

  const Available := "Available"
  const Rented := "Rented"
  const Maintenance := "Maintenance"
  const DefaultCategory := "General"

  /** `"Available".equalsIgnoreCase(status)` */
  predicate IsAvailableStatus(status: string)
  {
    EqualsIgnoreCase(Available, status)
  }

  /**
    Availability ignores case and nothing else: a status is available iff it lower-cases to
    "available"; in particular "Rented" and "Maintenance" are not.
  */
  lemma AvailableStatusIgnoresCase(status: string)
    ensures IsAvailableStatus(status) <==> ToLower(status) == "available"
    ensures IsAvailableStatus(status) ==> status != Rented && status != Maintenance
  {
    EqualsIgnoreCaseIsLowerEquality(Available, status);
    assert ToLower(Available) == "available";
  }

  class Equipment {
    const id: string
    const name: string
    const rentPerDay: real
    var availability: string
    const category: string

    /** The four-argument form files the item under the default category. */
    constructor (id: string, name: string, rentPerDay: real, availability: string)
      ensures this.id == id && this.name == name && this.rentPerDay == rentPerDay
      ensures this.availability == availability && category == DefaultCategory
    {
      this.id := id;
      this.name := name;
      this.rentPerDay := rentPerDay;
      this.availability := availability;
      this.category := DefaultCategory;
    }

    constructor WithCategory(id: string, name: string, rentPerDay: real, availability: string, category: string)
      ensures this.id == id && this.name == name && this.rentPerDay == rentPerDay
      ensures this.availability == availability && this.category == category
    {
      this.id := id;
      this.name := name;
      this.rentPerDay := rentPerDay;
      this.availability := availability;
      this.category := category;
    }

    method SetAvailability(availability: string)
      modifies this`availability
      ensures this.availability == availability
    {
      this.availability := availability;
    }

    predicate IsAvailable()
      reads this`availability
    {
      IsAvailableStatus(availability)
    }
  }
}
