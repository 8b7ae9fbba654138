# Employee container, modelled in Dafny

This project models the in-memory core of a small console utility that keeps a list of
employees. Each employee has a passport series, a passport number, a salary, and an ordered
list of rated characteristics. The container `EmployeeContainer` owns the ordered list of
employees. It appends employees, removes every employee with a given passport, searches by
passport or by salary range, and hands out stably sorted copies of the list by passport key or
by salary.

Modules, one per concept of the source:

- `Staff` (`staff.dfy`): the `Characteristic` record, a datatype whose constructor builds a
  property/rating pair. It also holds the `Employee` class. An employee's identity and salary
  are `const` fields; the characteristic list is a `seq` field that `AddCharacteristic`
  extends in place.
- `Container` (`container.dfy`): the `EmployeeContainer` class. It has a `seq<Employee>`
  field. `AddEmployee` and `RemoveEmployee` update it with `modifies this`. The searches and
  sorts are functions that read the field and never change it. Employees are references, as in
  the source, so a characteristic added to an employee shows up in the container and in every
  search result or sorted list that holds the same employee.
- `Sequences` (`sequences.dfy`): `Filter`, the order-preserving selection behind
  `Where(...).ToList()` and `RemoveAll`, and its laws.
- `Sorting` (`sorting.dfy`): `SortBy`, a stable insertion sort. It is the reference meaning of
  `OrderBy(key).ToList()` for the two keys. The passport key is the series followed directly
  by the number, compared as one string; the salary key is the salary.
- `Lex` (`lex.dfy`): the string order used for the passport key.

The sort and search contracts are complete. `Sequences.FilterUnique` shows that the search
contracts (an in-order subsequence with exact multiplicities) fit only one list.
`Sorting.StableSortUnique` shows that the sort contracts (a permutation, non-decreasing keys,
and every tie group in input order) fit only one list.

## Model

| member | source | states |
|---|---|---|
| `Staff.Employee.constructor` | KPP6/KPP6/Program.cs:17-23 | a new employee has exactly the given series, number and salary, and an empty characteristic list |
| `Staff.Employee.AddCharacteristic` | KPP6/KPP6/Program.cs:25-28 | the list grows by exactly one entry at the end, holding the given property and rating; earlier entries keep their places and values |
| `Staff.Employee.GetCharacteristics` | KPP6/KPP6/Program.cs:30-33 | returns the employee's current characteristic list, in the order the entries were added |
| `Container.EmployeeContainer.constructor` | KPP6/KPP6/Program.cs:58 | a new container holds no employees |
| `Container.EmployeeContainer.AddEmployee` | KPP6/KPP6/Program.cs:72-75 | the list becomes the old list with the employee appended: one longer, with no earlier element moved or changed |
| `Container.EmployeeContainer.RemoveEmployee` | KPP6/KPP6/Program.cs:105-108 | the new list is the old one filtered to the employees whose series or number differs. It is an in-order subsequence of the old list, keeps each non-match as often as before and no match at all, leaves a passport search for the same key empty, is a no-op when nothing matched, and shrinks by exactly the number of matches |
| `Container.EmployeeContainer.SearchEmployeesByPassport` | KPP6/KPP6/Program.cs:110-113 | an in-order subsequence of the list in which every entry matches both series and number, and every matching employee appears exactly as often as in the list |
| `Container.EmployeeContainer.SearchEmployeesBySalary` | KPP6/KPP6/Program.cs:115-118 | an in-order subsequence in which every salary lies in `[min, max]`, both ends included, and every employee in range appears as often as in the list; empty when `min > max` |
| `Container.EmployeeContainer.SortEmployeesByPassport` | KPP6/KPP6/Program.cs:60-64 | a permutation of the list, non-decreasing in `series + number`, listing every group of equal keys in list order; the field itself is only read |
| `Container.EmployeeContainer.SortEmployeesBySalary` | KPP6/KPP6/Program.cs:66-70 | a permutation of the list, non-decreasing in salary, listing equal salaries in list order; the field itself is only read |
| `Container.AddInOrder` | KPP6/KPP6/Program.cs:72-75 | adding employees one by one to a new container leaves exactly those employees, one entry per addition, in the order added |
| `Container.RemovedPassportNotFound` | KPP6/KPP6/Program.cs:105-113 | after the removal filter, the passport search filter for the same key selects nothing |
| `Container.RemoveAbsentPassport` | KPP6/KPP6/Program.cs:105-108 | when no employee holds the passport, removal returns the list unchanged |
| `Container.SearchAndRemovePartition` | KPP6/KPP6/Program.cs:105-113 | what a passport search finds and what its removal keeps together make up the whole list, in length and as a multiset |
| `Container.EmptySalaryRange` | KPP6/KPP6/Program.cs:115-118 | a salary range with `min > max` selects nobody |
| `Sequences.Filter` | KPP6/KPP6/Program.cs:112 | the selection is no longer than its input, and every element of it satisfies the predicate |
| `Sequences.FilterIsSubsequence` | KPP6/KPP6/Program.cs:112 | the selection keeps its elements in their original relative order |
| `Sequences.FilterCount` | KPP6/KPP6/Program.cs:107 | an element satisfying the predicate survives exactly as often as it occurs, duplicates included; any other element never survives |
| `Sequences.FilterMembership` | KPP6/KPP6/Program.cs:112 | an element is selected if and only if it is in the input and satisfies the predicate |
| `Sequences.FilterEmpty` | KPP6/KPP6/Program.cs:112 | the selection is empty if and only if no input element satisfies the predicate |
| `Sequences.FilterKeepsAll` | KPP6/KPP6/Program.cs:107 | when every element satisfies the predicate, the selection is the input itself |
| `Sequences.FilterPartition` | KPP6/KPP6/Program.cs:107 | selections by two complementary predicates add up to the input, in length and as a multiset |
| `Sequences.SubsequenceMultiset` | KPP6/KPP6/Program.cs:112 | an in-order subsequence never holds an element more often than its source |
| `Sequences.FilterUnique` | KPP6/KPP6/Program.cs:110-118 | any in-order subsequence that keeps every element satisfying the predicate with full multiplicity, and no other element, is the filter itself |
| `Lex.LexLeMeaning` | KPP6/KPP6/Program.cs:62 | the string order holds exactly when the first string is a prefix of the second, or has the smaller character at their first difference |
| `Lex.LexLeReflexive` | KPP6/KPP6/Program.cs:62 | every string sorts no later than itself |
| `Lex.LexLeAntisymmetric` | KPP6/KPP6/Program.cs:62 | two strings that each sort no later than the other are equal |
| `Lex.LexLeTransitive` | KPP6/KPP6/Program.cs:62 | the string order is transitive |
| `Lex.LexLeTotal` | KPP6/KPP6/Program.cs:62 | any two strings are comparable |
| `Sorting.SameKeyMeans` | KPP6/KPP6/Program.cs:60-70 | two employees tie if and only if their concatenated passport strings are equal (passport key) or their salaries are equal (salary key) |
| `Sorting.SplitPassportsTie` | KPP6/KPP6/Program.cs:62 | the passports ("AB", "1") and ("A", "B1") tie under the passport key |
| `Sorting.KeyLeTotal` | KPP6/KPP6/Program.cs:60-70 | any two employees are comparable by either key |
| `Sorting.KeyLeTransitive` | KPP6/KPP6/Program.cs:60-70 | the key order is transitive |
| `Sorting.Insert` | KPP6/KPP6/Program.cs:60-70 | inserting adds exactly the one element, as a multiset |
| `Sorting.SortBy` | KPP6/KPP6/Program.cs:60-70 | the sorted list is a permutation of the input |
| `Sorting.InsertSorted` | KPP6/KPP6/Program.cs:60-70 | inserting into a sorted list keeps it sorted |
| `Sorting.SortBySorted` | KPP6/KPP6/Program.cs:60-70 | the sorted list has non-decreasing keys |
| `Sorting.InsertTies` | KPP6/KPP6/Program.cs:60-70 | insertion puts the element at the front of its own tie group and changes no group's order |
| `Sorting.SortByTies` | KPP6/KPP6/Program.cs:60-70 | for any employee, the employees tying with it appear in the sorted list in input order |
| `Sorting.SortByStable` | KPP6/KPP6/Program.cs:60-70 | the sort is stable: every tie group keeps input order |
| `Sorting.SortedTiesDetermine` | KPP6/KPP6/Program.cs:60-70 | two sorted lists whose tie groups all coincide are equal |
| `Sorting.StableSortUnique` | KPP6/KPP6/Program.cs:60-70 | any sorted, stable permutation of the input is exactly `SortBy` of it, so the sort contracts fit only one list |
| `Sorting.SalarySortSwaps` | KPP6/KPP6/Program.cs:66-70 | employees with salaries 1000.00 then 500.00 come out as the 500.00 one, then the 1000.00 one |

## Left out

- `Serialize` and `Deserialize` (KPP6/KPP6/Program.cs:77-93) are not modelled. They write and read the container as an opaque runtime object graph in a file, so there is no encoder or decoder in the source to model.
- The console driver is not modelled: `Main`, `AutoAddAndSaveData`, `Program.AddEmployee`, `DisplayEmployees` and `DisplaySortedEmployees` (KPP6/KPP6/Program.cs:121-285). They are menu and console I/O, plus number parsing by library routines.
- `Employee.ToString` (KPP6/KPP6/Program.cs:35-38) is not modelled. It depends on culture-specific decimal formatting.
- `GetEnumerator` (KPP6/KPP6/Program.cs:95-103) has no separate member. Enumeration yields the `employees` field front to back, and the field is visible directly; the enumerator object is not modelled.
- The passport sort uses ordinal lexicographic order on Dafny characters (Unicode code points). The source uses the default .NET string comparer, which is culture-sensitive; its collation rules are not modelled. For characters outside the Basic Multilingual Plane, the code-point order also differs from UTF-16 code-unit order.
- Salary is a `real`. A C# `decimal` has a limited precision and range, and arithmetic on it would round, but the core only compares salaries, so those limits do not matter here.
- A characteristic's rating is a `real`. It is a C# `double` that the core never compares or computes on, and NaN and other floating-point values are not modelled.
- Series, number and salary are `const` in the model. The source gives them public setters, but the core never calls them after construction.
- `Staff.Employee.GetCharacteristics` returns the list's value. The source returns the live list object, which a caller could then change; that aliasing is not modelled.
- Null employees are not modelled. The source's generic list would accept a null reference, and a later search or sort would then fail on it.
- The container is not generic. The source's `EmployeeContainer<T> where T : Employee` is modelled for `T = Employee`; the core uses only the fields `Employee` declares.
- `Sorting.SortBy` is not the sorting algorithm .NET uses. It is an insertion sort standing for the result `OrderBy(...).ToList()` promises; `Sorting.StableSortUnique` shows that every stable sort gives this same list.
