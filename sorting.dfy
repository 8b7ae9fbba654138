/** Stable ascending sort of employees by a key: the semantics of LINQ's
    `OrderBy(key).ToList()`, which keeps the input order among equal keys. */
module Sorting {
  import opened Staff
  import opened Lex
  import opened Sequences

  /** The two keys the container sorts by. */
  datatype SortKey = ByPassport | BySalary

  /** The passport key: the series followed directly by the number, compared as one string. */
  function PassportKey(e: Employee): string
  {
    e.passportSeries + e.passportNumber
  }

  /** `a`'s key is no greater than `b`'s. */
  predicate KeyLe(key: SortKey, a: Employee, b: Employee)
  {
    match key
    case ByPassport => LexLe(PassportKey(a), PassportKey(b))
    case BySalary => a.salary <= b.salary
  }

  /** `a` and `b` tie: each key is no greater than the other. */
  predicate SameKey(key: SortKey, a: Employee, b: Employee)
  {
    KeyLe(key, a, b) && KeyLe(key, b, a)
  }

  /** A tie is exactly an equal key: equal concatenated passport strings, or equal salaries. */
  lemma SameKeyMeans(key: SortKey, a: Employee, b: Employee)
    ensures SameKey(key, a, b) <==>
      match key
      case ByPassport => PassportKey(a) == PassportKey(b)
      case BySalary => a.salary == b.salary
  {
    if key == ByPassport {
      if SameKey(key, a, b) {
        LexLeAntisymmetric(PassportKey(a), PassportKey(b));
      } else {
        LexLeReflexive(PassportKey(a));
      }
    }
  }

  /** Two different passports whose concatenations coincide tie under the passport key. */
  lemma SplitPassportsTie(a: Employee, b: Employee)
    requires a.passportSeries == "AB" && a.passportNumber == "1"
    requires b.passportSeries == "A" && b.passportNumber == "B1"
    ensures SameKey(ByPassport, a, b)
  {
    SameKeyMeans(ByPassport, a, b);
  }

  lemma KeyLeReflexive(key: SortKey, a: Employee)
    ensures KeyLe(key, a, a)
  {
    if key == ByPassport { LexLeReflexive(PassportKey(a)); }
  }

  lemma KeyLeTotal(key: SortKey, a: Employee, b: Employee)
    ensures KeyLe(key, a, b) || KeyLe(key, b, a)
  {
    if key == ByPassport { LexLeTotal(PassportKey(a), PassportKey(b)); }
  }

  lemma KeyLeTransitive(key: SortKey, a: Employee, b: Employee, c: Employee)
    requires KeyLe(key, a, b) && KeyLe(key, b, c)
    ensures KeyLe(key, a, c)
  {
    if key == ByPassport { LexLeTransitive(PassportKey(a), PassportKey(b), PassportKey(c)); }
  }

  /** Keys never decrease from left to right. */
  ghost predicate Sorted(s: seq<Employee>, key: SortKey)
  {
    forall i, j :: 0 <= i < j < |s| ==> KeyLe(key, s[i], s[j])
  }

  /** Selects the employees that tie with `e`. */
  function TieClass(key: SortKey, e: Employee): Employee -> bool
  {
    (y: Employee) => SameKey(key, y, e)
  }

  /** Within the group of employees tying with any employee of `s`, `r` lists them in the
      same order as `s`. */
  ghost predicate Stable(r: seq<Employee>, s: seq<Employee>, key: SortKey)
  {
    forall e :: e in s ==> Filter(r, TieClass(key, e)) == Filter(s, TieClass(key, e))
  }

  /** Puts `x` in front of the first element whose key is no smaller than its own. */
  function Insert(x: Employee, t: seq<Employee>, key: SortKey): (r: seq<Employee>)
    ensures multiset(r) == multiset(t) + multiset{x}
  {
    if t == [] || KeyLe(key, x, t[0]) then [x] + t
    else assert t == [t[0]] + t[1..]; [t[0]] + Insert(x, t[1..], key)
  }

  /** Insertion sort: each element is inserted, from the back of `s` to the front, ahead of
      every element with an equal key already placed, which keeps ties in input order. */
  function SortBy(s: seq<Employee>, key: SortKey): (r: seq<Employee>)
    ensures multiset(r) == multiset(s)
  {
    if s == [] then []
    else assert s == [s[0]] + s[1..]; Insert(s[0], SortBy(s[1..], key), key)
  }

  lemma {:induction false} InsertSorted(x: Employee, t: seq<Employee>, key: SortKey)
    requires Sorted(t, key)
    ensures Sorted(Insert(x, t, key), key)
  {
    var r := Insert(x, t, key);
    if t == [] || KeyLe(key, x, t[0]) {
      forall i, j | 0 <= i < j < |r| ensures KeyLe(key, r[i], r[j]) {
        if i == 0 && j > 1 { KeyLeTransitive(key, x, t[0], r[j]); }
      }
    } else {
      KeyLeTotal(key, x, t[0]);
      InsertSorted(x, t[1..], key);
      var u := Insert(x, t[1..], key);
      assert r == [t[0]] + u;
      forall j | 0 <= j < |u| ensures KeyLe(key, t[0], u[j]) {
        assert u[j] in multiset(u);
        if u[j] != x {
          assert u[j] in t[1..];
        }
      }
    }
  }

  /** The sort puts keys in non-decreasing order. */
  lemma {:induction false} SortBySorted(s: seq<Employee>, key: SortKey)
    ensures Sorted(SortBy(s, key), key)
  {
    if s != [] {
      SortBySorted(s[1..], key);
      InsertSorted(s[0], SortBy(s[1..], key), key);
    }
  }

  /** Inserting `x` adds it at the front of its own tie group and leaves every group's order alone. */
  lemma {:induction false} InsertTies(x: Employee, t: seq<Employee>, key: SortKey, e: Employee)
    ensures Filter(Insert(x, t, key), TieClass(key, e)) ==
      if SameKey(key, x, e) then [x] + Filter(t, TieClass(key, e)) else Filter(t, TieClass(key, e))
  {
    var p := TieClass(key, e);
    if t == [] || KeyLe(key, x, t[0]) {
      assert ([x] + t)[1..] == t;
    } else {
      InsertTies(x, t[1..], key, e);
      assert ([t[0]] + Insert(x, t[1..], key))[1..] == Insert(x, t[1..], key);
      if SameKey(key, x, e) && p(t[0]) {
        KeyLeTransitive(key, x, e, t[0]);
        assert false;
      }
    }
  }

  /** The sort lists the employees tying with `e` in input order. */
  lemma {:induction false} SortByTies(s: seq<Employee>, key: SortKey, e: Employee)
    ensures Filter(SortBy(s, key), TieClass(key, e)) == Filter(s, TieClass(key, e))
  {
    if s != [] {
      SortByTies(s[1..], key, e);
      InsertTies(s[0], SortBy(s[1..], key), key, e);
    }
  }

  /** The sort keeps every tie group in input order. */
  lemma SortByStable(s: seq<Employee>, key: SortKey)
    ensures Stable(SortBy(s, key), s, key)
  {
    forall e | e in s ensures Filter(SortBy(s, key), TieClass(key, e)) == Filter(s, TieClass(key, e)) {
      SortByTies(s, key, e);
    }
  }

  /** If `r[0]`'s tie group is the same in `r` and in the sorted `t`, then `t` starts with a
      key no greater than `r[0]`'s. */
  lemma GroupHeadBound(r: seq<Employee>, t: seq<Employee>, key: SortKey)
    requires r != [] && Sorted(t, key)
    requires Filter(r, TieClass(key, r[0])) == Filter(t, TieClass(key, r[0]))
    ensures t != [] && KeyLe(key, t[0], r[0])
  {
    var a, p := r[0], TieClass(key, r[0]);
    KeyLeReflexive(key, a);
    FilterCons(r, p);
    assert a in Filter(t, p);
    FilterMembership(t, p, a);
    var i :| 0 <= i < |t| && t[i] == a;
    if i == 0 { KeyLeReflexive(key, a); }
  }

  /** Two sorted sequences that agree on the tie groups of their heads start alike. */
  lemma SortedHeadsAgree(r: seq<Employee>, t: seq<Employee>, key: SortKey)
    requires r != [] && t != [] && Sorted(r, key) && Sorted(t, key)
    requires Filter(r, TieClass(key, r[0])) == Filter(t, TieClass(key, r[0]))
    requires Filter(r, TieClass(key, t[0])) == Filter(t, TieClass(key, t[0]))
    ensures r[0] == t[0]
  {
    GroupHeadBound(r, t, key);
    GroupHeadBound(t, r, key);
    var a, p := r[0], TieClass(key, r[0]);
    KeyLeReflexive(key, a);
    assert p(a) && p(t[0]);
    FilterCons(r, p);
    FilterCons(t, p);
    assert a == Filter(r, p)[0] == Filter(t, p)[0] == t[0];
  }

  /** Two sorted sequences whose tie groups all coincide are the same sequence. */
  lemma {:induction false} SortedTiesDetermine(r: seq<Employee>, t: seq<Employee>, key: SortKey)
    requires Sorted(r, key) && Sorted(t, key)
    requires forall e :: e in r || e in t ==> Filter(r, TieClass(key, e)) == Filter(t, TieClass(key, e))
    ensures r == t
  {
    if r != [] || t != [] {
      var u, v := if r != [] then r else t, if r != [] then t else r;
      assert u[0] in u;
      GroupHeadBound(u, v, key);
      assert r[0] in r && t[0] in t;
      SortedHeadsAgree(r, t, key);
      forall e | e in r[1..] || e in t[1..]
        ensures Filter(r[1..], TieClass(key, e)) == Filter(t[1..], TieClass(key, e))
      {
        assert e in r || e in t;
        FilterSameHead(r, t, TieClass(key, e));
      }
      SortedTiesDetermine(r[1..], t[1..], key);
    }
  }

  /** The sort is the one stable sort: any sorted arrangement of `s` that keeps every tie group
      in input order is exactly `SortBy(s, key)`. */
  lemma StableSortUnique(r: seq<Employee>, s: seq<Employee>, key: SortKey)
    requires multiset(r) == multiset(s) && Sorted(r, key) && Stable(r, s, key)
    ensures r == SortBy(s, key)
  {
    SortBySorted(s, key);
    SortByStable(s, key);
    forall e | e in r || e in SortBy(s, key) ensures e in s {
      assert e in multiset(s);
    }
    SortedTiesDetermine(r, SortBy(s, key), key);
  }

  /** Sorting two employees whose salaries are out of order swaps them. */
  lemma SalarySortSwaps(a: Employee, b: Employee)
    requires a.salary == 1000.00 && b.salary == 500.00
    ensures SortBy([a, b], BySalary) == [b, a]
  {
    assert [a, b][1..] == [b];
  }
}
