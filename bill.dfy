/** The bill page: a roster of people, a list of orders each split equally
    among the people selected for it, the pending selection for the next
    order, and the summary of what each person pays. Amounts are exact reals
    (the page parses and rounds them only for input and display). */
module Bill {
  import opened Common

  /** A roster entry; `value` is always 0 (the page no longer shows it). */
  datatype Person = Person(name: string, value: real)

  /** An order and the names of the people it is split between. */
  datatype Order = Order(name: string, value: real, selectedPeople: seq<string>)

  // ---------------------------------------------------------------------
  // List operations used by the handlers
  // ---------------------------------------------------------------------

  /** `s.filter((_, i) => i !== index)` */
  function RemoveAt<T>(s: seq<T>, index: int): seq<T>
    decreases |s|
  {
    if s == [] then []
    else (if index == 0 then [] else [s[0]]) + RemoveAt(s[1..], index - 1)
  }

  /** Removing by index drops exactly the element at that index and keeps the
      others in order; an index outside the list removes nothing. */
  lemma RemoveAtSlices<T>(s: seq<T>, index: int)
    ensures RemoveAt(s, index) == if 0 <= index < |s| then s[..index] + s[index + 1..] else s
  {
    if 0 <= index < |s| {
      RemoveAtInside(s, index);
    } else {
      RemoveAtOutside(s, index);
    }
  }

  lemma {:induction false} RemoveAtOutside<T>(s: seq<T>, index: int)
    requires index < 0 || index >= |s|
    ensures RemoveAt(s, index) == s
    decreases |s|
  {
    if s != [] {
      RemoveAtOutside(s[1..], index - 1);
      assert [s[0]] + s[1..] == s;
    }
  }

  lemma {:induction false} RemoveAtInside<T>(s: seq<T>, index: int)
    requires 0 <= index < |s|
    ensures RemoveAt(s, index) == s[..index] + s[index + 1..]
    decreases |s|
  {
    var tail := s[1..];
    if index == 0 {
      RemoveAtOutside(tail, -1);
    } else {
      RemoveAtInside(tail, index - 1);
      assert [s[0]] + tail[..index - 1] == s[..index];
      assert tail[index..] == s[index + 1..];
    }
  }

  /** `s.filter(n => n !== name)` */
  function RemoveName(s: seq<string>, name: string): (r: seq<string>)
    ensures |r| <= |s|
    decreases |s|
  {
    if s == [] then []
    else (if s[0] == name then [] else [s[0]]) + RemoveName(s[1..], name)
  }

  /** The names kept are exactly the others. */
  lemma {:induction false} RemoveNameMembership(s: seq<string>, name: string, x: string)
    ensures x in RemoveName(s, name) <==> x in s && x != name
    decreases |s|
  {
    if s != [] {
      RemoveNameMembership(s[1..], name, x);
      assert s == [s[0]] + s[1..];
    }
  }

  /** Filtering out a name that is not there changes nothing. */
  lemma {:induction false} RemoveNameAbsent(s: seq<string>, name: string)
    requires name !in s
    ensures RemoveName(s, name) == s
    decreases |s|
  {
    if s != [] {
      RemoveNameAbsent(s[1..], name);
      assert [s[0]] + s[1..] == s;
    }
  }

  lemma NoDuplicatesCons(x: string, s: seq<string>)
    requires x !in s && NoDuplicates(s)
    ensures NoDuplicates([x] + s)
  {
    var t := [x] + s;
    forall i, j | 0 <= i < j < |t| ensures t[i] != t[j] {
      if i == 0 {
        assert t[j] == s[j - 1];
      } else {
        assert t[i] == s[i - 1] && t[j] == s[j - 1];
      }
    }
  }

  /** Removing a name from a list without repeats removes one entry and
      leaves no repeats. */
  lemma {:induction false} RemoveNameDistinct(s: seq<string>, name: string)
    requires NoDuplicates(s)
    ensures NoDuplicates(RemoveName(s, name))
    ensures name in s ==> |RemoveName(s, name)| == |s| - 1
    decreases |s|
  {
    if s != [] {
      var tail := s[1..];
      assert NoDuplicates(tail) by {
        forall i, j | 0 <= i < j < |tail| ensures tail[i] != tail[j] {
          assert tail[i] == s[i + 1] && tail[j] == s[j + 1];
        }
      }
      assert s[0] !in tail by {
        forall j | 0 <= j < |tail| ensures tail[j] != s[0] {
          assert tail[j] == s[j + 1];
        }
      }
      RemoveNameDistinct(tail, name);
      RemoveNameMembership(tail, name, s[0]);
      if s[0] != name {
        NoDuplicatesCons(s[0], RemoveName(tail, name));
        assert name in s ==> name in tail;
      } else {
        RemoveNameAbsent(tail, name);
        assert [] + RemoveName(tail, name) == RemoveName(tail, name);
      }
    }
  }

  lemma {:induction false} RemoveNameAppend(a: seq<string>, b: seq<string>, name: string)
    ensures RemoveName(a + b, name) == RemoveName(a, name) + RemoveName(b, name)
    decreases |a|
  {
    if a == [] {
      assert a + b == b;
    } else {
      var ab := a + b;
      assert ab[0] == a[0] && ab[1..] == a[1..] + b;
      RemoveNameAppend(a[1..], b, name);
      if a[0] == name {
        assert RemoveName(ab, name) == RemoveName(a[1..] + b, name);
      } else {
        assert RemoveName(ab, name) == [a[0]] + RemoveName(a[1..] + b, name);
      }
    }
  }

  /** The selection toggle: a selected name is deselected, any other name is
      appended. */
  function Toggle(selected: seq<string>, name: string): seq<string> {
    if name in selected then RemoveName(selected, name) else selected + [name]
  }

  /** After a toggle the name is selected exactly when it was not before, and
      every other name is as it was. */
  lemma ToggleMembership(selected: seq<string>, name: string, x: string)
    ensures x == name ==> (x in Toggle(selected, name) <==> name !in selected)
    ensures x != name ==> (x in Toggle(selected, name) <==> x in selected)
  {
    RemoveNameMembership(selected, name, x);
  }

  /** A toggle keeps a duplicate-free selection duplicate-free. */
  lemma ToggleNoDuplicates(selected: seq<string>, name: string)
    requires NoDuplicates(selected)
    ensures NoDuplicates(Toggle(selected, name))
  {
    if name in selected {
      RemoveNameDistinct(selected, name);
    } else {
      NoDuplicatesAppend(selected, name);
    }
  }

  lemma NoDuplicatesAppend(s: seq<string>, x: string)
    requires x !in s && NoDuplicates(s)
    ensures NoDuplicates(s + [x])
  {
    var t := s + [x];
    forall i, j | 0 <= i < j < |t| ensures t[i] != t[j] {
      assert t[i] == s[i];
    }
  }

  /** Toggling a name that is not selected twice restores the selection. */
  lemma ToggleTwice(selected: seq<string>, name: string)
    requires name !in selected
    ensures Toggle(Toggle(selected, name), name) == selected
  {
    RemoveNameAppend(selected, [name], name);
    RemoveNameAbsent(selected, name);
    assert RemoveName([name], name) == [];
  }

  // ---------------------------------------------------------------------
  // The summary
  // ---------------------------------------------------------------------

  /** Every order is split between at least one person. */
  predicate SplitsNonEmpty(orders: seq<Order>) {
    forall k :: 0 <= k < |orders| ==> |orders[k].selectedPeople| > 0
  }

  /** What one order costs the named person: the order's equal share if they
      are among its people, otherwise nothing. */
  function Share(order: Order, name: string): real {
    if name in order.selectedPeople then order.value / (|order.selectedPeople| as real) else 0.0
  }

  /** Someone outside the order pays nothing for it; each of its people pays
      an equal part, and the parts of all its people make up its amount. */
  lemma ShareIsEqualPart(order: Order, name: string)
    ensures name !in order.selectedPeople ==> Share(order, name) == 0.0
    ensures name in order.selectedPeople ==>
      Share(order, name) * (|order.selectedPeople| as real) == order.value
  {
  }

  /** A person's total, the `reduce` over the orders from left to right. */
  function PersonTotal(orders: seq<Order>, name: string): real
    decreases |orders|
  {
    if |orders| == 0 then 0.0
    else PersonTotal(orders[..|orders| - 1], name) + Share(orders[|orders| - 1], name)
  }

  /** The "Total Orders" figure, the `reduce` of the order values. */
  function TotalOrders(orders: seq<Order>): real
    decreases |orders|
  {
    if |orders| == 0 then 0.0 else TotalOrders(orders[..|orders| - 1]) + orders[|orders| - 1].value
  }

  /** `people.map(person => personTotal)` */
  function PersonTotals(people: seq<Person>, orders: seq<Order>): (totals: seq<real>)
    ensures |totals| == |people|
    ensures forall k :: 0 <= k < |people| ==> totals[k] == PersonTotal(orders, people[k].name)
    decreases |people|
  {
    if people == [] then [] else [PersonTotal(orders, people[0].name)] + PersonTotals(people[1..], orders)
  }

  function Names(people: seq<Person>): (names: seq<string>)
    ensures |names| == |people|
    ensures forall k :: 0 <= k < |people| ==> names[k] == people[k].name
    decreases |people|
  {
    if people == [] then [] else [people[0].name] + Names(people[1..])
  }

  function Sum(xs: seq<real>): real
    decreases |xs|
  {
    if xs == [] then 0.0 else xs[0] + Sum(xs[1..])
  }

  lemma {:induction false} PersonTotalConcat(a: seq<Order>, b: seq<Order>, name: string)
    requires SplitsNonEmpty(a) && SplitsNonEmpty(b)
    ensures SplitsNonEmpty(a + b)
    ensures PersonTotal(a + b, name) == PersonTotal(a, name) + PersonTotal(b, name)
    decreases |b|
  {
    if b == [] {
      assert a + b == a;
    } else {
      var b' := b[..|b| - 1];
      assert (a + b)[..|a + b| - 1] == a + b';
      PersonTotalConcat(a, b', name);
    }
  }

  lemma {:induction false} TotalOrdersConcat(a: seq<Order>, b: seq<Order>)
    ensures TotalOrders(a + b) == TotalOrders(a) + TotalOrders(b)
    decreases |b|
  {
    if b == [] {
      assert a + b == a;
    } else {
      var b' := b[..|b| - 1];
      assert (a + b)[..|a + b| - 1] == a + b';
      TotalOrdersConcat(a, b');
    }
  }

  /** A person that no order is split with pays nothing. */
  lemma {:induction false} PersonTotalWithoutOrders(orders: seq<Order>, name: string)
    requires forall k :: 0 <= k < |orders| ==> name !in orders[k].selectedPeople
    ensures PersonTotal(orders, name) == 0.0
    decreases |orders|
  {
    if |orders| > 0 {
      PersonTotalWithoutOrders(orders[..|orders| - 1], name);
    }
  }

  /** With non-negative amounts, a person never pays more than the whole bill. */
  lemma {:induction false} PersonTotalBounds(orders: seq<Order>, name: string)
    requires forall k :: 0 <= k < |orders| ==> orders[k].value >= 0.0
    ensures 0.0 <= PersonTotal(orders, name) <= TotalOrders(orders)
    decreases |orders|
  {
    if |orders| > 0 {
      var o := orders[|orders| - 1];
      PersonTotalBounds(orders[..|orders| - 1], name);
      if name in o.selectedPeople {
        var n := |o.selectedPeople| as real;
        assert o.value / n <= o.value by {
          assert n >= 1.0;
          assert o.value / n * n == o.value;
        }
      }
    }
  }

  /** Each order is split between people named once each. */
  predicate SelectionsDistinct(orders: seq<Order>) {
    forall k :: 0 <= k < |orders| ==> NoDuplicates(orders[k].selectedPeople)
  }

  /** After removing the element at `index`, the elements before it keep
      their positions and those after it move up by one. */
  lemma RemoveAtIndex<T>(s: seq<T>, index: int, k: int)
    requires 0 <= index < |s| && 0 <= k < |s| - 1
    ensures |RemoveAt(s, index)| == |s| - 1
    ensures RemoveAt(s, index)[k] == if k < index then s[k] else s[k + 1]
  {
    RemoveAtInside(s, index);
  }

  /** Removing an order keeps every remaining order split between at least
      one person, each named once. */
  lemma RemoveAtKeepsSplits(orders: seq<Order>, index: int)
    requires SplitsNonEmpty(orders)
    ensures SplitsNonEmpty(RemoveAt(orders, index))
    ensures SelectionsDistinct(orders) ==> SelectionsDistinct(RemoveAt(orders, index))
  {
    if 0 <= index < |orders| {
      var r := RemoveAt(orders, index);
      RemoveAtInside(orders, index);
      forall k | 0 <= k < |r|
        ensures r[k] == orders[if k < index then k else k + 1]
      {
        RemoveAtIndex(orders, index, k);
      }
    } else {
      RemoveAtOutside(orders, index);
    }
  }

  /** Removing order `index` takes its share off each person's total and its
      amount off the bill's total. */
  lemma RemoveOrderTotals(orders: seq<Order>, index: int, name: string)
    requires SplitsNonEmpty(orders)
    requires 0 <= index < |orders|
    ensures SplitsNonEmpty(RemoveAt(orders, index))
    ensures PersonTotal(RemoveAt(orders, index), name) == PersonTotal(orders, name) - Share(orders[index], name)
    ensures TotalOrders(RemoveAt(orders, index)) == TotalOrders(orders) - orders[index].value
  {
    RemoveAtInside(orders, index);
    var a, o, b := orders[..index], orders[index], orders[index + 1..];
    SlicesSplitNonEmpty(orders, index);
    assert a + [o] + b == orders by {
      assert orders == orders[..index] + orders[index..];
      assert orders[index..] == [o] + b;
    }
    TotalsWithout(orders, RemoveAt(orders, index), a, o, b, name);
  }

  lemma SlicesSplitNonEmpty(orders: seq<Order>, index: int)
    requires SplitsNonEmpty(orders) && 0 <= index < |orders|
    ensures SplitsNonEmpty(orders[..index]) && SplitsNonEmpty(orders[index + 1..])
  {
    var b := orders[index + 1..];
    forall k | 0 <= k < |b| ensures |b[k].selectedPeople| > 0 {
      assert b[k] == orders[index + 1 + k];
    }
  }

  lemma TotalsWithout(orders: seq<Order>, r: seq<Order>, a: seq<Order>, o: Order, b: seq<Order>, name: string)
    requires SplitsNonEmpty(a) && |o.selectedPeople| > 0 && SplitsNonEmpty(b)
    requires orders == a + [o] + b && r == a + b
    ensures SplitsNonEmpty(r) && SplitsNonEmpty(orders)
    ensures PersonTotal(r, name) == PersonTotal(orders, name) - Share(o, name)
    ensures TotalOrders(r) == TotalOrders(orders) - o.value
  {
    PersonTotalConcat(a, b, name);
    TotalOrdersConcat(a, b);
    PersonTotalAround(a, o, b, name);
    TotalOrdersAround(a, o, b);
  }

  lemma PersonTotalAround(a: seq<Order>, o: Order, b: seq<Order>, name: string)
    requires SplitsNonEmpty(a) && |o.selectedPeople| > 0 && SplitsNonEmpty(b)
    ensures SplitsNonEmpty(a + [o] + b)
    ensures PersonTotal(a + [o] + b, name) == PersonTotal(a, name) + Share(o, name) + PersonTotal(b, name)
  {
    assert SplitsNonEmpty(a + [o]);
    PersonTotalConcat(a + [o], b, name);
    assert (a + [o])[..|a|] == a;
  }

  lemma TotalOrdersAround(a: seq<Order>, o: Order, b: seq<Order>)
    ensures TotalOrders(a + [o] + b) == TotalOrders(a) + o.value + TotalOrders(b)
  {
    TotalOrdersConcat(a + [o], b);
    assert (a + [o])[..|a|] == a;
  }

  // ---------------------------------------------------------------------
  // Conservation: the person totals add up to the bill
  // ---------------------------------------------------------------------

  /** How many people of the roster are among the given names. */
  function CountSelected(people: seq<Person>, selected: seq<string>): nat
    decreases |people|
  {
    if people == [] then 0
    else (if people[0].name in selected then 1 else 0) + CountSelected(people[1..], selected)
  }

  /** Dropping a name that is nobody's in the roster does not change the count. */
  lemma {:induction false} CountIgnoresOutsider(people: seq<Person>, selected: seq<string>, name: string)
    requires name !in Names(people)
    ensures CountSelected(people, RemoveName(selected, name)) == CountSelected(people, selected)
    decreases |people|
  {
    if people != [] {
      assert Names(people)[0] == people[0].name;
      assert Names(people[1..]) == Names(people)[1..];
      RemoveNameMembership(selected, name, people[0].name);
      CountIgnoresOutsider(people[1..], selected, name);
    }
  }

  lemma {:induction false} CountNothingSelected(people: seq<Person>)
    ensures CountSelected(people, []) == 0
    decreases |people|
  {
    if people != [] {
      CountNothingSelected(people[1..]);
    }
  }

  /** A selected name that belongs to exactly one person of the roster adds
      one to the count. */
  lemma {:induction false} CountOneSelected(people: seq<Person>, selected: seq<string>, name: string)
    requires NoDuplicates(Names(people))
    requires name in Names(people) && name in selected
    ensures CountSelected(people, selected) == CountSelected(people, RemoveName(selected, name)) + 1
    decreases |people|
  {
    var p, rest := people[0], people[1..];
    assert Names(people) == [p.name] + Names(rest);
    RemoveNameMembership(selected, name, p.name);
    if p.name == name {
      forall j | 0 <= j < |rest| ensures Names(rest)[j] != name {
        assert Names(rest)[j] == Names(people)[j + 1];
      }
      CountIgnoresOutsider(rest, selected, name);
    } else {
      assert NoDuplicates(Names(rest)) by {
        forall i, j | 0 <= i < j < |rest| ensures Names(rest)[i] != Names(rest)[j] {
          assert Names(rest)[i] == Names(people)[i + 1] && Names(rest)[j] == Names(people)[j + 1];
        }
      }
      CountOneSelected(rest, selected, name);
    }
  }

  /** When the roster names are distinct and a duplicate-free selection
      names only people of the roster, each selected name is counted once. */
  lemma {:induction false} CountAllSelected(people: seq<Person>, selected: seq<string>)
    requires NoDuplicates(Names(people))
    requires NoDuplicates(selected)
    requires forall n :: n in selected ==> n in Names(people)
    ensures CountSelected(people, selected) == |selected|
    decreases |selected|
  {
    if selected == [] {
      CountNothingSelected(people);
    } else {
      var name := selected[0];
      assert name in selected;
      var others := RemoveName(selected, name);
      CountOneSelected(people, selected, name);
      RemoveNameDistinct(selected, name);
      forall n | n in others ensures n in Names(people) {
        RemoveNameMembership(selected, name, n);
      }
      CountAllSelected(people, others);
    }
  }

  /** The shares of one order over the whole roster. */
  function ShareSum(people: seq<Person>, order: Order): real
    decreases |people|
  {
    if people == [] then 0.0 else Share(order, people[0].name) + ShareSum(people[1..], order)
  }

  lemma {:induction false} ShareSumIsCount(people: seq<Person>, order: Order)
    requires |order.selectedPeople| > 0
    ensures ShareSum(people, order)
         == (CountSelected(people, order.selectedPeople) as real) * (order.value / (|order.selectedPeople| as real))
    decreases |people|
  {
    if people != [] {
      ShareSumIsCount(people[1..], order);
    }
  }

  /** The roster's totals over the orders plus one more order are the totals
      over the orders plus that order's shares. */
  lemma {:induction false} SumTotalsAppend(people: seq<Person>, orders: seq<Order>, order: Order)
    requires SplitsNonEmpty(orders) && |order.selectedPeople| > 0
    ensures SplitsNonEmpty(orders + [order])
    ensures Sum(PersonTotals(people, orders + [order])) == Sum(PersonTotals(people, orders)) + ShareSum(people, order)
    decreases |people|
  {
    var all := orders + [order];
    assert all[..|all| - 1] == orders;
    if people != [] {
      SumTotalsAppend(people[1..], orders, order);
    }
  }

  /** The orders refer to the roster consistently: names in the roster are
      distinct, and every order is split between distinct roster names. */
  predicate ConsistentWithRoster(people: seq<Person>, orders: seq<Order>) {
    && NoDuplicates(Names(people))
    && forall k :: 0 <= k < |orders| ==>
         && NoDuplicates(orders[k].selectedPeople)
         && forall n :: n in orders[k].selectedPeople ==> n in Names(people)
  }

  /** Under a consistent roster, what the people pay adds up to the
      "Total Orders" figure. */
  lemma {:induction false} Conservation(people: seq<Person>, orders: seq<Order>)
    requires SplitsNonEmpty(orders)
    requires ConsistentWithRoster(people, orders)
    ensures Sum(PersonTotals(people, orders)) == TotalOrders(orders)
    decreases |orders|
  {
    if |orders| == 0 {
      SumOfZeros(people, orders);
    } else {
      var prefix, o := orders[..|orders| - 1], orders[|orders| - 1];
      assert orders == prefix + [o];
      ConsistentPrefix(people, orders);
      Conservation(people, prefix);
      SumTotalsAppend(people, prefix, o);
      OrderSharesAddUp(people, o);
    }
  }

  lemma ConsistentPrefix(people: seq<Person>, orders: seq<Order>)
    requires |orders| > 0
    requires SplitsNonEmpty(orders) && ConsistentWithRoster(people, orders)
    ensures SplitsNonEmpty(orders[..|orders| - 1]) && ConsistentWithRoster(people, orders[..|orders| - 1])
    ensures NoDuplicates(orders[|orders| - 1].selectedPeople)
    ensures forall n :: n in orders[|orders| - 1].selectedPeople ==> n in Names(people)
  {
  }

  /** The shares of one order over a consistent roster add up to its amount. */
  lemma OrderSharesAddUp(people: seq<Person>, order: Order)
    requires |order.selectedPeople| > 0
    requires NoDuplicates(Names(people)) && NoDuplicates(order.selectedPeople)
    requires forall n :: n in order.selectedPeople ==> n in Names(people)
    ensures ShareSum(people, order) == order.value
  {
    ShareSumIsCount(people, order);
    CountAllSelected(people, order.selectedPeople);
    EqualShares(order.value, |order.selectedPeople|);
  }

  lemma EqualShares(value: real, n: nat)
    requires n > 0
    ensures (n as real) * (value / (n as real)) == value
  {
  }

  lemma {:induction false} SumOfZeros(people: seq<Person>, orders: seq<Order>)
    requires orders == []
    ensures Sum(PersonTotals(people, orders)) == 0.0
    decreases |people|
  {
    if people != [] {
      SumOfZeros(people[1..], orders);
    }
  }

  lemma {:induction false} SumConcat(xs: seq<real>, ys: seq<real>)
    ensures Sum(xs + ys) == Sum(xs) + Sum(ys)
    decreases |xs|
  {
    if xs == [] {
      assert xs + ys == ys;
    } else {
      assert (xs + ys)[1..] == xs[1..] + ys;
      SumConcat(xs[1..], ys);
    }
  }

  /** Removing one entry from a list of amounts takes that entry off the sum. */
  lemma SumRemoveAt(xs: seq<real>, index: int)
    requires 0 <= index < |xs|
    ensures Sum(RemoveAt(xs, index)) == Sum(xs) - xs[index]
  {
    RemoveAtInside(xs, index);
    var a, x, b := xs[..index], xs[index], xs[index + 1..];
    assert a + [x] + b == xs by {
      assert xs == xs[..index] + xs[index..];
      assert xs[index..] == [x] + b;
    }
    SumWithout(xs, RemoveAt(xs, index), a, x, b);
  }

  lemma SumWithout(xs: seq<real>, r: seq<real>, a: seq<real>, x: real, b: seq<real>)
    requires xs == a + [x] + b && r == a + b
    ensures Sum(r) == Sum(xs) - x
  {
    SumConcat(a, b);
    SumConcat(a + [x], b);
    SumConcat(a, [x]);
    assert Sum([x]) == x + Sum([]);
  }

  /** Removing a person from the roster removes their line from the summary
      and leaves every other person's total as it was. */
  lemma RemovePersonTotals(people: seq<Person>, orders: seq<Order>, index: int)
    requires SplitsNonEmpty(orders)
    requires 0 <= index < |people|
    ensures PersonTotals(RemoveAt(people, index), orders) == RemoveAt(PersonTotals(people, orders), index)
    ensures Sum(PersonTotals(RemoveAt(people, index), orders))
         == Sum(PersonTotals(people, orders)) - PersonTotal(orders, people[index].name)
  {
    var before := PersonTotals(people, orders);
    var after := PersonTotals(RemoveAt(people, index), orders);
    RemoveAtInside(people, index);
    RemoveAtInside(before, index);
    forall k | 0 <= k < |after| ensures after[k] == RemoveAt(before, index)[k] {
      RemoveAtIndex(people, index, k);
      RemoveAtIndex(before, index, k);
    }
    SumRemoveAt(before, index);
  }

  /** Since removing a person does not touch the orders, the summary of a
      consistent roster falls short of "Total Orders" after a removal by
      exactly the removed person's total. */
  lemma RemovedPersonLeavesGap(people: seq<Person>, orders: seq<Order>, index: int)
    requires SplitsNonEmpty(orders)
    requires ConsistentWithRoster(people, orders)
    requires 0 <= index < |people|
    ensures Sum(PersonTotals(RemoveAt(people, index), orders))
         == TotalOrders(orders) - PersonTotal(orders, people[index].name)
  {
    RemovePersonTotals(people, orders, index);
    Conservation(people, orders);
  }

  /** An instance of the gap: splitting 100 between A and B and then removing
      B leaves a summary of 50. */
  lemma RemovedPersonExample()
    ensures var people := [Person("A", 0.0), Person("B", 0.0)];
            var orders := [Order("Lunch", 100.0, ["A", "B"])];
            Sum(PersonTotals(RemoveAt(people, 1), orders)) == 50.0 && TotalOrders(orders) == 100.0
  {
    var people := [Person("A", 0.0), Person("B", 0.0)];
    var orders := [Order("Lunch", 100.0, ["A", "B"])];
    RemoveAtSlices(people, 1);
    assert RemoveAt(people, 1) == [Person("A", 0.0)];
    assert orders[..0] == [];
  }

  // ---------------------------------------------------------------------
  // The page's state and its handlers
  // ---------------------------------------------------------------------

  class BillPage {
    var people: seq<Person>
    var orders: seq<Order>
    var selectedPeople: seq<string>

    /** What every handler keeps: each order is split between at least one
        person, no name twice, and the pending selection has no name twice. */
    ghost predicate Valid()
      reads this
    {
      && SplitsNonEmpty(orders)
      && SelectionsDistinct(orders)
      && NoDuplicates(selectedPeople)
    }

    constructor ()
      ensures Valid()
      ensures people == [] && orders == [] && selectedPeople == []
    {
      people, orders, selectedPeople := [], [], [];
    }

    /** "Add Person": any non-empty name is appended with value 0, even one
        already on the roster. */
    method AddPerson(newName: string)
      requires Valid()
      modifies this
      ensures Valid()
      ensures people == if newName != "" then old(people) + [Person(newName, 0.0)] else old(people)
      ensures orders == old(orders) && selectedPeople == old(selectedPeople)
    {
      if newName != "" {
        people := people + [Person(newName, 0.0)];
      }
    }

    /** "Remove" on a person: drops the entry at `index` and nothing else, so
        orders and the pending selection keep the person's name. */
    method RemovePerson(index: int)
      requires Valid()
      modifies this
      ensures Valid()
      ensures people == RemoveAt(old(people), index)
      ensures orders == old(orders) && selectedPeople == old(selectedPeople)
    {
      var newPeople := RemoveAt(people, index);
      people := newPeople;
    }

    /** "Add Order": `newOrderValue` is the parsed amount field, `None` when
        the field is empty. With a name, an amount and a selection the order
        is appended with a copy of the selection, which is then cleared. */
    method AddOrder(newOrder: string, newOrderValue: Option<real>) returns (added: bool)
      requires Valid()
      modifies this
      ensures Valid()
      ensures added <==> newOrder != "" && newOrderValue.Some? && |old(selectedPeople)| > 0
      ensures added ==>
        orders == old(orders) + [Order(newOrder, newOrderValue.value, old(selectedPeople))] && selectedPeople == []
      ensures !added ==> orders == old(orders) && selectedPeople == old(selectedPeople)
      ensures people == old(people)
    {
      added := newOrder != "" && newOrderValue.Some? && |selectedPeople| > 0;
      if added {
        orders := orders + [Order(newOrder, newOrderValue.value, selectedPeople)];
        selectedPeople := [];
      }
    }

    /** A person button in the split selection. */
    method TogglePersonSelection(name: string)
      requires Valid()
      modifies this
      ensures Valid()
      ensures selectedPeople == Toggle(old(selectedPeople), name)
      ensures people == old(people) && orders == old(orders)
    {
      ToggleNoDuplicates(selectedPeople, name);
      if name in selectedPeople {
        selectedPeople := RemoveName(selectedPeople, name);
      } else {
        selectedPeople := selectedPeople + [name];
      }
    }

    /** "Remove" on an order: drops the order at `index` and nothing else. */
    method RemoveOrder(index: int)
      requires Valid()
      modifies this
      ensures Valid()
      ensures orders == RemoveAt(old(orders), index)
      ensures people == old(people) && selectedPeople == old(selectedPeople)
    {
      RemoveAtKeepsSplits(orders, index);
      orders := RemoveAt(orders, index);
    }

    /** The "Per person" line of order `index`: its amount over the number of
        people it is split between, never a division by zero. */
    function PerPerson(index: int): (share: real)
      reads this
      requires Valid()
      requires 0 <= index < |orders|
      ensures share * (|orders[index].selectedPeople| as real) == orders[index].value
    {
      orders[index].value / (|orders[index].selectedPeople| as real)
    }

    /** The summary: each person's total, in roster order. */
    function Summary(): (totals: seq<real>)
      reads this
      requires Valid()
      ensures |totals| == |people|
      ensures forall k :: 0 <= k < |people| ==> totals[k] == PersonTotal(orders, people[k].name)
      ensures ConsistentWithRoster(people, orders) ==> Sum(totals) == TotalOrders(orders)
    {
      ConservationWhenConsistent(people, orders);
      PersonTotals(people, orders)
    }
  }

  /** Conservation, when it applies. */
  lemma ConservationWhenConsistent(people: seq<Person>, orders: seq<Order>)
    requires SplitsNonEmpty(orders)
    ensures ConsistentWithRoster(people, orders) ==> Sum(PersonTotals(people, orders)) == TotalOrders(orders)
  {
    if ConsistentWithRoster(people, orders) {
      Conservation(people, orders);
    }
  }
}
