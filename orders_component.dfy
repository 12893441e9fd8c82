/**
 * The all-orders page of the web client: the orders received from the
 * server and the all / pending / returned filter.
 */
module OrdersComponent {
  import opened Seqs

  /**
   * An order as the client receives it. `returned` is the server's integer
   * column; the page tests it the way the browser does, so 0 is "not
   * returned" and any other number is "returned".
   */
  datatype ClientOrder = ClientOrder(
    id: int,
    userid: int,
    name: string,
    bookid: int,
    booktitle: string,
    orderedon: string,
    returned: int)

  /** `value => value`: every order object is truthy. */
  function AnyOrder(o: ClientOrder): bool {
    true
  }

  /** `value.returned == false`. */
  function IsPending(o: ClientOrder): bool {
    o.returned == 0
  }

  /** `value.returned` taken as a condition. */
  function IsReturned(o: ClientOrder): bool {
    o.returned != 0
  }

  /** The orders the filter `value` shows: "all", "pen" for pending, anything else for returned. */
  function Shown(orders: seq<ClientOrder>, value: string): seq<ClientOrder> {
    if value == "all" then Filter(orders, AnyOrder)
    else if value == "pen" then Filter(orders, IsPending)
    else Filter(orders, IsReturned)
  }

  class OrdersComponent {
    var listOfOrders: seq<ClientOrder>
    var ordersToDisplay: seq<ClientOrder>

    constructor ()
      ensures listOfOrders == [] && ordersToDisplay == []
    {
      listOfOrders := [];
      ordersToDisplay := [];
    }

    /** `ngOnInit`: show the received list as it is. */
    method Init(res: seq<ClientOrder>)
      modifies this
      ensures listOfOrders == res && ordersToDisplay == res
    {
      listOfOrders := res;
      ordersToDisplay := listOfOrders;
    }

    method ApplyFilter(value: string)
      modifies this
      ensures listOfOrders == old(listOfOrders)
      ensures ordersToDisplay == Shown(listOfOrders, value)
    {
      if value == "all" {
        ordersToDisplay := Filter(listOfOrders, AnyOrder);
      } else if value == "pen" {
        ordersToDisplay := Filter(listOfOrders, IsPending);
      } else {
        ordersToDisplay := Filter(listOfOrders, IsReturned);
      }
    }
  }

  // ----- lemmas -----

  /** "all" shows every order, in order. */
  lemma ShowAll(orders: seq<ClientOrder>)
    ensures Shown(orders, "all") == orders
  {
    FilterKeepsAll(orders, AnyOrder);
  }

  /** "pen" shows exactly the orders not returned; any other value exactly the returned ones. */
  lemma ShownMembers(orders: seq<ClientOrder>, value: string, j: nat)
    requires j < |orders|
    ensures orders[j] in Shown(orders, "pen") <==> orders[j].returned == 0
    ensures value != "all" && value != "pen" ==> (orders[j] in Shown(orders, value) <==> orders[j].returned != 0)
    ensures forall i :: 0 <= i < |Shown(orders, "pen")| ==> Shown(orders, "pen")[i].returned == 0
    ensures value != "all" && value != "pen" ==> forall i :: 0 <= i < |Shown(orders, value)| ==> Shown(orders, value)[i].returned != 0
  {
    FilterMembers(orders, IsPending);
    FilterMembers(orders, IsReturned);
    if orders[j] in Filter(orders, IsPending) {
      var i :| 0 <= i < |Filter(orders, IsPending)| && Filter(orders, IsPending)[i] == orders[j];
    }
    if orders[j] in Filter(orders, IsReturned) {
      var i :| 0 <= i < |Filter(orders, IsReturned)| && Filter(orders, IsReturned)[i] == orders[j];
    }
  }

  /** The pending and the returned views split the list between them. */
  lemma PendingAndReturnedPartition(orders: seq<ClientOrder>, value: string)
    requires value != "all" && value != "pen"
    ensures multiset(Shown(orders, "pen")) + multiset(Shown(orders, value)) == multiset(orders)
    ensures |Shown(orders, "pen")| + |Shown(orders, value)| == |orders|
  {
    FilterPartition(orders, IsPending, IsReturned);
  }

  /** Filtering keeps relative order: the view of a concatenation is the concatenation of the views. */
  lemma ShownKeepsOrder(a: seq<ClientOrder>, b: seq<ClientOrder>, value: string)
    ensures Shown(a + b, value) == Shown(a, value) + Shown(b, value)
  {
    FilterConcat(a, b, AnyOrder);
    FilterConcat(a, b, IsPending);
    FilterConcat(a, b, IsReturned);
  }
}
