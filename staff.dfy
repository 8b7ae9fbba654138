/** The employee records: an employee's identity and salary, and the rated characteristics
    attached to it. */
module Staff {

  /** A named rating attached to an employee. The rating is carried along and never
      compared or computed on. */
  datatype Characteristic = Characteristic(property: string, rating: real)

  /** An employee. The passport series and number and the salary are fixed at construction;
      the characteristic list grows in place, so every holder of a reference to this
      employee (a container, a sorted or searched view) sees the new entries. */
  class Employee {
    const passportSeries: string
    const passportNumber: string
    /** A decimal amount of money, compared exactly. */
    const salary: real
    var characteristics: seq<Characteristic>

    /** A new employee with the given identity and salary and no characteristics. */
    constructor (passportSeries: string, passportNumber: string, salary: real)
      ensures this.passportSeries == passportSeries
      ensures this.passportNumber == passportNumber
      ensures this.salary == salary
      ensures characteristics == []
    {
      this.passportSeries := passportSeries;
      this.passportNumber := passportNumber;
      this.salary := salary;
      characteristics := [];
    }

    /** Appends one characteristic; the entries already present keep their places and values. */
    method AddCharacteristic(property: string, rating: real)
      modifies this
      ensures characteristics == old(characteristics) + [Characteristic(property, rating)]
      ensures |characteristics| == |old(characteristics)| + 1
      ensures characteristics[|characteristics| - 1].property == property
      ensures characteristics[|characteristics| - 1].rating == rating
      ensures characteristics[..|old(characteristics)|] == old(characteristics)
    {
      characteristics := characteristics + [Characteristic(property, rating)];
    }

    /** The characteristics in the order they were added. */
    function GetCharacteristics(): (r: seq<Characteristic>)
      reads this
      ensures r == characteristics
    {
      characteristics
    }
  }
}
