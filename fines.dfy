/**
 * Overdue fines. When users are listed, each user's fine is recomputed from
 * the rows of `Users LEFT JOIN Orders`: every unreturned loan costs two units
 * per whole day past a ten-day loan period.
 */
module Fines {
  import opened Wrappers
  import opened Models
  import opened Seqs

  const LoanPeriodDays := 10
  const FinePerDay := 2
  const SecondsPerDay := 86400

  /**
   * The whole days in a span of `seconds`, truncated toward zero as a
   * .NET `TimeSpan.Days` is (Dafny's `/` rounds toward negative infinity).
   */
  function WholeDays(seconds: int): (d: int)
    ensures seconds >= 0 ==> d * SecondsPerDay <= seconds < (d + 1) * SecondsPerDay
    ensures seconds < 0 ==> (d - 1) * SecondsPerDay < seconds <= d * SecondsPerDay
  {
    if seconds >= 0 then seconds / SecondsPerDay else -((-seconds) / SecondsPerDay)
  }

  /** Days past the due date (order time plus the loan period) at `now`, never negative. */
  function OverdueDays(orderedOn: int, now: int): (d: nat)
    ensures d > 0 <==> now >= orderedOn + (LoanPeriodDays + 1) * SecondsPerDay
  {
    var extra := WholeDays(now - (orderedOn + LoanPeriodDays * SecondsPerDay));
    if extra < 0 then 0 else extra
  }

  /** What one order contributes to its user's fine. */
  function OrderFine(o: OrderRow, now: int): nat {
    if o.returned then 0 else OverdueDays(o.orderedOn, now) * FinePerDay
  }

  /** The fine over a sequence of orders: the sum of their contributions. */
  function OrdersFine(os: seq<OrderRow>, now: int): nat
    decreases |os|
  {
    if |os| == 0 then 0 else OrdersFine(os[..|os| - 1], now) + OrderFine(os[|os| - 1], now)
  }

  function OrderOfUser(uid: int): OrderRow -> bool {
    (o: OrderRow) => o.userId == uid
  }

  /** The orders placed by user `uid`, in table order. */
  function OrdersOf(orders: seq<OrderRow>, uid: int): seq<OrderRow> {
    Filter(orders, OrderOfUser(uid))
  }

  // ----- the LEFT JOIN -----

  /**
   * A row of `Users u LEFT JOIN Orders o ON u.Id = o.UserId`: the user's id,
   * and the order's columns, which are all null for a user without orders.
   */
  datatype JoinRow = JoinRow(userId: int, order: Option<OrderRow>)

  function JoinRowsOf(uid: int, os: seq<OrderRow>): seq<JoinRow> {
    seq(|os|, i requires 0 <= i < |os| => JoinRow(uid, Some(os[i])))
  }

  /** The join rows of one user: one per order of theirs, or a single null row. */
  function UserJoinRows(u: User, orders: seq<OrderRow>): (r: seq<JoinRow>)
    ensures |r| > 0
  {
    var os := OrdersOf(orders, u.id);
    if |os| == 0 then [JoinRow(u.id, None)] else JoinRowsOf(u.id, os)
  }

  /** The whole join, user by user. */
  function LeftJoin(users: seq<User>, orders: seq<OrderRow>): seq<JoinRow>
    decreases |users|
  {
    if |users| == 0 then []
    else LeftJoin(users[..|users| - 1], orders) + UserJoinRows(users[|users| - 1], orders)
  }

  function RowOfUser(uid: int): JoinRow -> bool {
    (r: JoinRow) => r.userId == uid
  }

  /**
   * What one join row adds to the fine: nothing for a null row (BookId is
   * null) or a returned order, otherwise the order's overdue charge.
   */
  function RowFine(r: JoinRow, now: int): nat {
    match r.order
    case None => 0
    case Some(o) => if !o.returned then OverdueDays(o.orderedOn, now) * FinePerDay else 0
  }

  /** The sum of the rows' charges, in the order the fine loop visits them. */
  function RowsFine(rows: seq<JoinRow>, now: int): nat
    decreases |rows|
  {
    if |rows| == 0 then 0 else RowsFine(rows[..|rows| - 1], now) + RowFine(rows[|rows| - 1], now)
  }

  /** User `u` as `GetUsers` lists it: its stored fine raised by the charges of its rows in `join`. */
  function Fined(u: User, join: seq<JoinRow>, now: int): User {
    u.(fine := u.fine + RowsFine(Filter(join, RowOfUser(u.id)), now))
  }

  predicate UniqueUserIds(users: seq<User>) {
    forall i, j :: 0 <= i < j < |users| ==> users[i].id != users[j].id
  }

  // ----- lemmas -----

  lemma {:induction false} RowsFineConcat(a: seq<JoinRow>, b: seq<JoinRow>, now: int)
    ensures RowsFine(a + b, now) == RowsFine(a, now) + RowsFine(b, now)
    decreases |b|
  {
    if |b| > 0 {
      var n := |b| - 1;
      assert (a + b)[..|a + b| - 1] == a + b[..n];
      RowsFineConcat(a, b[..n], now);
    } else {
      assert a + b == a;
    }
  }

  lemma {:induction false} OrdersJoinFine(uid: int, os: seq<OrderRow>, now: int)
    ensures RowsFine(JoinRowsOf(uid, os), now) == OrdersFine(os, now)
    decreases |os|
  {
    if |os| > 0 {
      var n := |os| - 1;
      assert JoinRowsOf(uid, os)[..n] == JoinRowsOf(uid, os[..n]);
      OrdersJoinFine(uid, os[..n], now);
    }
  }

  lemma UserJoinRowsOwned(u: User, orders: seq<OrderRow>)
    ensures forall k :: 0 <= k < |UserJoinRows(u, orders)| ==> UserJoinRows(u, orders)[k].userId == u.id
  {
  }

  /** A user id that no listed user has selects no join row. */
  lemma {:induction false} JoinSelectAbsent(users: seq<User>, orders: seq<OrderRow>, uid: int)
    requires forall i :: 0 <= i < |users| ==> users[i].id != uid
    ensures Filter(LeftJoin(users, orders), RowOfUser(uid)) == []
    decreases |users|
  {
    if |users| > 0 {
      var n := |users| - 1;
      JoinSelectAbsent(users[..n], orders, uid);
      FilterConcat(LeftJoin(users[..n], orders), UserJoinRows(users[n], orders), RowOfUser(uid));
      UserJoinRowsOwned(users[n], orders);
      FilterKeepsNone(UserJoinRows(users[n], orders), RowOfUser(uid));
    }
  }

  /** With unique user ids, the rows the fine loop selects for a user are exactly that user's join rows. */
  lemma {:induction false} JoinSelectUser(users: seq<User>, orders: seq<OrderRow>, i: nat)
    requires UniqueUserIds(users)
    requires i < |users|
    ensures Filter(LeftJoin(users, orders), RowOfUser(users[i].id)) == UserJoinRows(users[i], orders)
    decreases |users|
  {
    var n := |users| - 1;
    var uid := users[i].id;
    FilterConcat(LeftJoin(users[..n], orders), UserJoinRows(users[n], orders), RowOfUser(uid));
    UserJoinRowsOwned(users[n], orders);
    if i == n {
      JoinSelectAbsent(users[..n], orders, uid);
      FilterKeepsAll(UserJoinRows(users[n], orders), RowOfUser(uid));
    } else {
      JoinSelectUser(users[..n], orders, i);
      FilterKeepsNone(UserJoinRows(users[n], orders), RowOfUser(uid));
    }
  }

  /**
   * The fine the loop accumulates for a user over the joined rows equals the
   * fine of that user's own orders: the null row of a user without orders
   * adds nothing, and no other user's rows are counted.
   */
  lemma JoinFineIsOrdersFine(users: seq<User>, orders: seq<OrderRow>, i: nat, now: int)
    requires UniqueUserIds(users)
    requires i < |users|
    ensures RowsFine(Filter(LeftJoin(users, orders), RowOfUser(users[i].id)), now) == OrdersFine(OrdersOf(orders, users[i].id), now)
  {
    JoinSelectUser(users, orders, i);
    if |OrdersOf(orders, users[i].id)| > 0 {
      OrdersJoinFine(users[i].id, OrdersOf(orders, users[i].id), now);
    }
  }

  /** `JoinFineIsOrdersFine` for every user of a fined list at once. */
  lemma JoinFinesAreOrdersFines(users: seq<User>, orders: seq<OrderRow>, fined: seq<User>, now: int)
    requires UniqueUserIds(users)
    requires |fined| == |users|
    requires forall i :: 0 <= i < |users| ==>
               fined[i] == Fined(users[i], LeftJoin(users, orders), now)
    ensures forall i :: 0 <= i < |users| ==>
              fined[i].fine == users[i].fine + OrdersFine(OrdersOf(orders, users[i].id), now)
  {
    forall i | 0 <= i < |users|
      ensures fined[i].fine == users[i].fine + OrdersFine(OrdersOf(orders, users[i].id), now)
    {
      JoinFineIsOrdersFine(users, orders, i, now);
    }
  }

  /** A fine is a sum of non-negative even charges, so it is even. */
  lemma {:induction false} OrdersFineEven(os: seq<OrderRow>, now: int)
    ensures OrdersFine(os, now) % 2 == 0
    decreases |os|
  {
    if |os| > 0 {
      OrdersFineEven(os[..|os| - 1], now);
    }
  }

  /** A user without orders owes nothing. */
  lemma NoOrdersNoFine(orders: seq<OrderRow>, uid: int, now: int)
    requires forall k :: 0 <= k < |orders| ==> orders[k].userId != uid
    ensures OrdersFine(OrdersOf(orders, uid), now) == 0
  {
    FilterKeepsNone(orders, OrderOfUser(uid));
  }

  function IsOpen(o: OrderRow): bool {
    !o.returned
  }

  /** Returned orders contribute nothing: the fine is that of the unreturned orders alone. */
  lemma {:induction false} ReturnedOrdersAreFree(os: seq<OrderRow>, now: int)
    ensures OrdersFine(os, now) == OrdersFine(Filter(os, IsOpen), now)
    decreases |os|
  {
    if |os| > 0 {
      var n := |os| - 1;
      assert os == os[..n] + [os[n]];
      ReturnedOrdersAreFree(os[..n], now);
      FilterConcat(os[..n], [os[n]], IsOpen);
      FilterSingle(os[n], IsOpen);
      var f := Filter(os[..n], IsOpen);
      if IsOpen(os[n]) {
        assert (f + [os[n]])[..|f|] == f;
      } else {
        assert f + [] == f;
      }
    }
  }

  /** An order placed less than eleven whole days before `now` adds nothing. */
  lemma WithinLoanPeriodIsFree(o: OrderRow, now: int)
    requires now < o.orderedOn + (LoanPeriodDays + 1) * SecondsPerDay
    ensures OrderFine(o, now) == 0
  {
  }

  /** An open order is charged exactly `FinePerDay` per whole day past its due date. */
  lemma OverdueCharge(o: OrderRow, now: int, k: nat)
    requires !o.returned
    requires o.orderedOn + (LoanPeriodDays + k) * SecondsPerDay <= now < o.orderedOn + (LoanPeriodDays + k + 1) * SecondsPerDay
    ensures OrderFine(o, now) == FinePerDay * k
  {
    var d := now - (o.orderedOn + LoanPeriodDays * SecondsPerDay);
    assert k * SecondsPerDay <= d < (k + 1) * SecondsPerDay;
  }

  lemma OverdueDaysMonotone(t: int, now1: int, now2: int)
    requires now1 <= now2
    ensures OverdueDays(t, now1) <= OverdueDays(t, now2)
  {
    var d1 := now1 - (t + LoanPeriodDays * SecondsPerDay);
    var d2 := now2 - (t + LoanPeriodDays * SecondsPerDay);
    assert WholeDays(d1) <= WholeDays(d2);
  }

  /** Fines never decrease as time passes. */
  lemma {:induction false} OrdersFineMonotone(os: seq<OrderRow>, now1: int, now2: int)
    requires now1 <= now2
    ensures OrdersFine(os, now1) <= OrdersFine(os, now2)
    decreases |os|
  {
    if |os| > 0 {
      OrdersFineMonotone(os[..|os| - 1], now1, now2);
      OverdueDaysMonotone(os[|os| - 1].orderedOn, now1, now2);
    }
  }
}
