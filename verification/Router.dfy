/**
 The router's middleware order.  A middleware is named by the number of the `Use` call that
 registered it; a wrapped handler is a chain of middlewares around the original handler.
 */
module Router {

  /** `MiddlewareOrder` is an `int8`. */
  type Order = o: int | -128 <= o <= 127

  datatype Handler = Original | Wrapped(middleware: nat, next: Handler)

  /** The middlewares a request enters, outermost first. */
  function Entered(h: Handler): seq<nat> {
    match h
    case Original => []
    case Wrapped(m, next) => [m] + Entered(next)
  }

  // ----- the promised order -----

  /** Lower order first; within an order, first registered first.  `log[i]` is the order given to call `i`. */
  predicate Precedes(log: seq<Order>, a: nat, b: nat)
    requires a < |log| && b < |log|
  {
    log[a] < log[b] || (log[a] == log[b] && a < b)
  }

  predicate Sorted(log: seq<Order>, out: seq<nat>) {
    && (forall i :: 0 <= i < |out| ==> out[i] < |log|)
    && (forall i, j :: 0 <= i < j < |out| ==> Precedes(log, out[i], out[j]))
  }

  /** `out` is the stable sort of all registrations by ascending order value. */
  ghost predicate IsStableSort(log: seq<Order>, out: seq<nat>) {
    Sorted(log, out) && forall m: nat :: m < |log| ==> m in out
  }

  lemma Member(a: seq<nat>) returns (m: nat)
    requires a != []
    ensures m in a
  {
    m := a[0];
  }

  lemma {:induction false} SortedIsUnique(log: seq<Order>, a: seq<nat>, b: seq<nat>)
    requires Sorted(log, a) && Sorted(log, b) && forall m :: m in a <==> m in b
    ensures a == b
  {
    if a == [] {
      if b != [] { var _ := Member(b); }
    } else {
      assert a[0] in b && b != [] && b[0] in a;
      var i :| 0 <= i < |b| && b[i] == a[0];
      var j :| 0 <= j < |a| && a[j] == b[0];
      assert a[0] == b[0];
      assert forall m :: m in a[1..] <==> m in a && m != a[0] by { TailMembers(log, a); }
      assert forall m :: m in b[1..] <==> m in b && m != b[0] by { TailMembers(log, b); }
      SortedIsUnique(log, a[1..], b[1..]);
    }
  }

  lemma TailMembers(log: seq<Order>, a: seq<nat>)
    requires Sorted(log, a) && a != []
    ensures forall m :: m in a[1..] <==> m in a && m != a[0]
  {
    assert forall m :: m in a <==> m == a[0] || m in a[1..];
    assert forall i :: 0 < i < |a| ==> Precedes(log, a[0], a[i]);
  }

  /** There is only one stable sort. */
  lemma StableSortIsUnique(log: seq<Order>, a: seq<nat>, b: seq<nat>)
    requires IsStableSort(log, a) && IsStableSort(log, b)
    ensures a == b
  {
    SortedIsUnique(log, a, b);
  }

  /** A stable sort lists every registration once, by ascending order value and then by time of registration. */
  lemma StableSortMeans(log: seq<Order>, out: seq<nat>)
    requires IsStableSort(log, out)
    ensures forall m: nat :: m < |log| ==> m in out
    ensures forall i :: 0 <= i < |out| ==> out[i] < |log|
    ensures forall i, j :: 0 <= i < j < |out| ==>
              log[out[i]] < log[out[j]] || (log[out[i]] == log[out[j]] && out[i] < out[j])
  {
    assert forall i, j :: 0 <= i < j < |out| ==> Precedes(log, out[i], out[j]);
  }

  // ----- groups by order -----

  /** The calls that gave order `o`, in the order they were made. */
  function ByOrder(log: seq<Order>, o: Order): seq<nat> {
    if log == [] then []
    else
      var n := |log| - 1;
      ByOrder(log[..n], o) + if log[n] == o then [n] else []
  }

  lemma {:induction false} ByOrderIs(log: seq<Order>, o: Order)
    ensures forall m :: m in ByOrder(log, o) <==> 0 <= m < |log| && log[m] == o
    ensures Sorted(log, ByOrder(log, o))
  {
    if log != [] { ByOrderIs(log[..|log| - 1], o); }
  }

  lemma {:induction false} EmptyOrder(log: seq<Order>, o: Order)
    requires o !in log
    ensures ByOrder(log, o) == []
  {
    if log != [] { EmptyOrder(log[..|log| - 1], o); }
  }

  /** The router's table holds, for each order used, the calls that gave it. */
  ghost predicate TableOk(log: seq<Order>, table: map<Order, seq<nat>>) {
    && (forall o :: o in table <==> o in log)
    && (forall o :: o in table ==> table[o] == ByOrder(log, o))
  }

  predicate Descending(s: seq<Order>) {
    forall i, j :: 0 <= i < j < |s| ==> s[i] > s[j]
  }

  /** One group per order, highest order first. */
  ghost predicate Arranged(log: seq<Order>, orders: seq<Order>, groups: seq<seq<nat>>) {
    && Descending(orders) && |groups| == |orders|
    && (forall o :: o in log <==> o in orders)
    && (forall g :: 0 <= g < |groups| ==> groups[g] == ByOrder(log, orders[g]))
  }

  /** The middlewares entered when groups are applied one after another: the last group is outermost. */
  function Outermost(groups: seq<seq<nat>>): seq<nat> {
    if groups == [] then [] else groups[|groups| - 1] + Outermost(groups[..|groups| - 1])
  }

  lemma {:induction false} OutermostIs(log: seq<Order>, orders: seq<Order>, groups: seq<seq<nat>>)
    requires Descending(orders) && |groups| == |orders|
    requires forall g :: 0 <= g < |groups| ==> groups[g] == ByOrder(log, orders[g])
    ensures Sorted(log, Outermost(groups))
    ensures forall m :: m in Outermost(groups) <==> 0 <= m < |log| && log[m] in orders
  {
    if groups != [] {
      var n := |groups| - 1;
      OutermostIs(log, orders[..n], groups[..n]);
      ByOrderIs(log, orders[n]);
      assert orders == orders[..n] + [orders[n]];
      var first, rest := groups[n], Outermost(groups[..n]);
      forall i, j | 0 <= i < |first| && 0 <= j < |rest| ensures Precedes(log, first[i], rest[j]) {
        assert first[i] in first && rest[j] in rest;
        var k :| 0 <= k < n && orders[..n][k] == log[rest[j]];
        assert orders[k] > orders[n];
      }
      ConcatSorted(log, first, rest);
    }
  }

  lemma ConcatSorted(log: seq<Order>, a: seq<nat>, b: seq<nat>)
    requires Sorted(log, a) && Sorted(log, b)
    requires forall i, j :: 0 <= i < |a| && 0 <= j < |b| ==> Precedes(log, a[i], b[j])
    ensures Sorted(log, a + b)
  {
  }

  lemma ArrangedIsStable(log: seq<Order>, orders: seq<Order>, groups: seq<seq<nat>>)
    requires Arranged(log, orders, groups)
    ensures IsStableSort(log, Outermost(groups))
  {
    OutermostIs(log, orders, groups);
    hide ByOrder, Outermost, Sorted;
    forall m: nat | m < |log| ensures m in Outermost(groups) {
      assert log[m] in log;
      assert log[m] in orders;
    }
  }

  /** One more call adds its number at the end of its own order's list and nowhere else. */
  lemma TableAfterUse(log: seq<Order>, table: map<Order, seq<nat>>, order: Order)
    requires TableOk(log, table)
    ensures var before := if order in table then table[order] else [];
            TableOk(log + [order], table[order := before + [|log|]])
  {
    var after := log + [order];
    assert after[..|log|] == log;
    assert forall o :: o in after <==> o in log || o == order;
    if order !in table {
      ByOrderIs(log, order);
      EmptyOrder(log, order);
    }
  }

  // ----- the code -----

  lemma InsertedDescending(s: seq<Order>, i: nat, o: Order)
    requires Descending(s) && i <= |s| && o !in s
    requires (forall k :: 0 <= k < i ==> s[k] > o) && (i < |s| ==> s[i] < o)
    ensures Descending(s[..i] + [o] + s[i..])
    ensures forall x :: x in s[..i] + [o] + s[i..] <==> x == o || x in s
  {
    var r := s[..i] + [o] + s[i..];
    assert forall k :: 0 <= k < |r| ==> r[k] == if k < i then s[k] else if k == i then o else s[k - 1];
    assert s == s[..i] + s[i..];
  }

  method InsertDescending(s: seq<Order>, o: Order) returns (r: seq<Order>)
    requires Descending(s) && o !in s
    ensures Descending(r) && forall x :: x in r <==> x == o || x in s
  {
    var i := 0;
    while i < |s| && s[i] > o
      invariant 0 <= i <= |s| && forall k :: 0 <= k < i ==> s[k] > o
    {
      i := i + 1;
    }
    r := s[..i] + [o] + s[i..];
    InsertedDescending(s, i, o);
  }

  method SortedOrders(keys: set<Order>) returns (orders: seq<Order>)
    ensures Descending(orders) && forall o :: o in orders <==> o in keys
  {
    orders := [];
    var rest := keys;
    while rest != {}
      invariant rest <= keys && Descending(orders)
      invariant forall o :: o in orders ==> o in keys && o !in rest
      invariant forall o :: o in keys ==> o in orders || o in rest
      decreases rest
    {
      var o :| o in rest;
      orders := InsertDescending(orders, o);
      rest := rest - {o};
    }
  }

  /** The inner loop of `wrap`: last of the group first, so that its first ends up outermost. */
  method WrapGroup(group: seq<nat>, handler: Handler) returns (wrapped: Handler)
    ensures Entered(wrapped) == group + Entered(handler)
  {
    wrapped := handler;
    var i := |group|;
    while i > 0
      invariant 0 <= i <= |group| && Entered(wrapped) == group[i..] + Entered(handler)
    {
      i := i - 1;
      assert group[i..] + Entered(handler) == [group[i]] + (group[i + 1..] + Entered(handler));
      wrapped := Wrapped(group[i], wrapped);
    }
    assert group[0..] == group;
  }

  class Router {
    ghost var log: seq<Order>
    var calls: nat
    var middlewares: map<Order, seq<nat>>
    var sorted: seq<seq<nat>>

    ghost predicate Valid()
      reads this
    {
      calls == |log| && TableOk(log, middlewares) && exists orders :: Arranged(log, orders, sorted)
    }

    constructor ()
      ensures Valid() && log == []
    {
      log, calls, middlewares, sorted := [], 0, map[], [];
      new;
      assert Arranged([], [], sorted);
    }

    /** Registers the next middleware under `order` and rebuilds the sorted groups. */
    method Use(order: Order)
      requires Valid()
      modifies this
      ensures Valid() && log == old(log) + [order]
    {
      hide TableOk, Arranged;
      ghost var table := middlewares;
      TableAfterUse(log, middlewares, order);
      if order !in middlewares {
        middlewares := middlewares[order := []];
      }
      middlewares := middlewares[order := middlewares[order] + [calls]];
      assert middlewares == table[order := (if order in table then table[order] else []) + [|log|]];
      calls := calls + 1;
      log := log + [order];
      Sort();
    }

    /** The orders come out of the map in any order; sorting makes the result unique. */
    method Sort()
      requires calls == |log| && TableOk(log, middlewares)
      modifies this`sorted
      ensures Valid()
    {
      var orders := SortedOrders(middlewares.Keys);
      sorted := [];
      for g := 0 to |orders|
        invariant |sorted| == g && forall k :: 0 <= k < g ==> sorted[k] == ByOrder(log, orders[k])
      {
        assert orders[g] in orders;
        sorted := sorted + [middlewares[orders[g]]];
      }
      assert Arranged(log, orders, sorted);
    }

    /**
     The wrapped handler enters all registered middlewares in the stable sort of their
     registrations by ascending order, before the handler it wraps.
     */
    method Wrap(handler: Handler) returns (wrapped: Handler, ghost out: seq<nat>)
      requires Valid()
      ensures Entered(wrapped) == out + Entered(handler) && IsStableSort(log, out)
      ensures forall m: nat :: m < |log| ==> m in out
      ensures forall i :: 0 <= i < |out| ==> out[i] < |log|
      ensures forall i, j :: 0 <= i < j < |out| ==>
                log[out[i]] < log[out[j]] || (log[out[i]] == log[out[j]] && out[i] < out[j])
    {
      hide ByOrder, Arranged, IsStableSort, TableOk;
      wrapped := handler;
      for g := 0 to |sorted|
        invariant Entered(wrapped) == Outermost(sorted[..g]) + Entered(handler)
      {
        assert sorted[..g + 1][..g] == sorted[..g];
        wrapped := WrapGroup(sorted[g], wrapped);
      }
      assert sorted[..|sorted|] == sorted;
      ghost var orders :| Arranged(log, orders, sorted);
      ArrangedIsStable(log, orders, sorted);
      out := Outermost(sorted);
      StableSortMeans(log, out);
    }
  }
}
