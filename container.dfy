/** The employee container: an ordered list of employees that grows by appending, shrinks by
    removing every employee with a given passport, and answers searches and sorted views
    without changing its own order. */
module Container {
  import opened Staff
  import opened Sequences
  import opened Sorting

  /** Selects the employees whose passport series and number both equal the given ones. */
  function HasPassport(series: string, number: string): Employee -> bool
  {
    (e: Employee) => e.passportSeries == series && e.passportNumber == number
  }

  /** Selects the employees whose passport differs from the given one in series or number. */
  function LacksPassport(series: string, number: string): Employee -> bool
  {
    (e: Employee) => e.passportSeries != series || e.passportNumber != number
  }

  /** Selects the employees whose salary lies in `[minSalary, maxSalary]`, both ends included. */
  function SalaryWithin(minSalary: real, maxSalary: real): Employee -> bool
  {
    (e: Employee) => minSalary <= e.salary && e.salary <= maxSalary
  }

  /** Removing a passport and then searching for it finds nothing. */
  lemma {:induction false} RemovedPassportNotFound(s: seq<Employee>, series: string, number: string)
    ensures Filter(Filter(s, LacksPassport(series, number)), HasPassport(series, number)) == []
  {
    var kept := Filter(s, LacksPassport(series, number));
    FilterEmpty(kept, HasPassport(series, number));
  }

  /** Removing a passport nobody holds leaves the list as it was. */
  lemma RemoveAbsentPassport(s: seq<Employee>, series: string, number: string)
    requires Filter(s, HasPassport(series, number)) == []
    ensures Filter(s, LacksPassport(series, number)) == s
  {
    FilterEmpty(s, HasPassport(series, number));
    FilterKeepsAll(s, LacksPassport(series, number));
  }

  /** The employees a passport search finds and those its removal keeps make up the whole list. */
  lemma SearchAndRemovePartition(s: seq<Employee>, series: string, number: string)
    ensures |Filter(s, HasPassport(series, number))| + |Filter(s, LacksPassport(series, number))| == |s|
    ensures multiset(Filter(s, HasPassport(series, number))) + multiset(Filter(s, LacksPassport(series, number)))
      == multiset(s)
  {
    FilterPartition(s, HasPassport(series, number), LacksPassport(series, number));
  }

  /** A salary range whose lower bound exceeds its upper bound selects nobody. */
  lemma EmptySalaryRange(s: seq<Employee>, minSalary: real, maxSalary: real)
    requires minSalary > maxSalary
    ensures Filter(s, SalaryWithin(minSalary, maxSalary)) == []
  {
    FilterEmpty(s, SalaryWithin(minSalary, maxSalary));
  }

  class EmployeeContainer {
    /** The employees in container order; enumerating the container yields them front to back. */
    var employees: seq<Employee>

    /** A new container holds no employees. */
    constructor ()
      ensures employees == []
    {
      employees := [];
    }

    /** Appends `employee`; everyone already present keeps their place. */
    method AddEmployee(employee: Employee)
      modifies this
      ensures employees == old(employees) + [employee]
      ensures |employees| == |old(employees)| + 1
      ensures employees[..|old(employees)|] == old(employees)
    {
      employees := employees + [employee];
    }

    /** Removes, in place, every employee whose series and number both match, duplicates
        included; everyone else stays, in the same relative order. */
    method RemoveEmployee(series: string, number: string)
      modifies this
      ensures employees == Filter(old(employees), LacksPassport(series, number))
      ensures IsSubsequence(employees, old(employees))
      ensures forall x :: x in old(employees) ==>
        (multiset(employees)[x] ==
          if x.passportSeries == series && x.passportNumber == number then 0 else multiset(old(employees))[x])
      ensures SearchEmployeesByPassport(series, number) == []
      ensures old(SearchEmployeesByPassport(series, number)) == [] ==> employees == old(employees)
      ensures |employees| + |old(SearchEmployeesByPassport(series, number))| == |old(employees)|
    {
      var before := employees;
      FilterIsSubsequence(before, LacksPassport(series, number));
      FilterCounts(before, LacksPassport(series, number));
      RemovedPassportNotFound(before, series, number);
      SearchAndRemovePartition(before, series, number);
      if Filter(before, HasPassport(series, number)) == [] {
        RemoveAbsentPassport(before, series, number);
      }
      employees := Filter(employees, LacksPassport(series, number));
    }

    /** The employees whose series and number both match: every match, as often as it
        occurs, in container order, and nobody else. */
    function SearchEmployeesByPassport(series: string, number: string): (r: seq<Employee>)
      reads this
      ensures IsSubsequence(r, employees)
      ensures forall i :: 0 <= i < |r| ==> r[i].passportSeries == series && r[i].passportNumber == number
      ensures forall x :: x in employees ==>
        (multiset(r)[x] ==
          if x.passportSeries == series && x.passportNumber == number then multiset(employees)[x] else 0)
    {
      FilterIsSubsequence(employees, HasPassport(series, number));
      FilterCounts(employees, HasPassport(series, number));
      Filter(employees, HasPassport(series, number))
    }

    /** The employees whose salary lies in `[minSalary, maxSalary]`, in container order;
        nobody when the bounds are crossed. */
    function SearchEmployeesBySalary(minSalary: real, maxSalary: real): (r: seq<Employee>)
      reads this
      ensures IsSubsequence(r, employees)
      ensures forall i :: 0 <= i < |r| ==> minSalary <= r[i].salary <= maxSalary
      ensures forall x :: x in employees ==>
        (multiset(r)[x] == if minSalary <= x.salary <= maxSalary then multiset(employees)[x] else 0)
      ensures minSalary > maxSalary ==> r == []
    {
      FilterIsSubsequence(employees, SalaryWithin(minSalary, maxSalary));
      FilterCounts(employees, SalaryWithin(minSalary, maxSalary));
      FilterEmpty(employees, SalaryWithin(minSalary, maxSalary));
      Filter(employees, SalaryWithin(minSalary, maxSalary))
    }

    /** A new list: the employees ordered by series followed by number, ties in container order. */
    function SortEmployeesByPassport(): (r: seq<Employee>)
      reads this
      ensures multiset(r) == multiset(employees)
      ensures Sorted(r, ByPassport)
      ensures Stable(r, employees, ByPassport)
    {
      SortBySorted(employees, ByPassport);
      SortByStable(employees, ByPassport);
      SortBy(employees, ByPassport)
    }

    /** A new list: the employees ordered by salary, ties in container order. */
    function SortEmployeesBySalary(): (r: seq<Employee>)
      reads this
      ensures multiset(r) == multiset(employees)
      ensures Sorted(r, BySalary)
      ensures Stable(r, employees, BySalary)
    {
      SortBySorted(employees, BySalary);
      SortByStable(employees, BySalary);
      SortBy(employees, BySalary)
    }
  }

  /** Adding employees one at a time to a new container leaves them in the order they were
      added, one entry per addition. */
  method AddInOrder(newcomers: seq<Employee>) returns (c: EmployeeContainer)
    ensures fresh(c)
    ensures c.employees == newcomers
  {
    c := new EmployeeContainer();
    var i := 0;
    while i < |newcomers|
      invariant 0 <= i <= |newcomers|
      invariant c.employees == newcomers[..i]
    {
      c.AddEmployee(newcomers[i]);
      i := i + 1;
    }
    assert newcomers[..i] == newcomers;
  }
}
