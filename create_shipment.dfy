/** The checks that run before an order shipment is registered, and the record the
    registration step receives. A thrown error is a `ShipmentError` value. */
module CreateShipment {
  import opened Wrappers

  /** The order statuses. */
  datatype OrderStatus = Pending | Completed | Draft | Archived | Canceled | RequiresAction

  datatype OrderItem = OrderItem(id: string, quantity: nat)

  datatype Fulfillment = Fulfillment(id: string)

  /** An order as the workflow queries it; `items` may be absent. */
  datatype Order = Order(
    id: string,
    status: OrderStatus,
    items: Option<seq<OrderItem>>,
    fulfillments: seq<Fulfillment>)

  datatype InputItem = InputItem(id: string, quantity: nat)

  /** The workflow input: the order, the fulfillment to ship, the items and the author. */
  datatype ShipmentInput = ShipmentInput(
    orderId: string,
    fulfillmentId: string,
    items: seq<InputItem>,
    createdBy: Option<string>)

  datatype ShipmentItem = ShipmentItem(id: string, quantity: nat)

  /** The record handed to the shipment registration step. */
  datatype ShipmentData = ShipmentData(
    orderId: string,
    reference: string,
    referenceId: string,
    createdBy: Option<string>,
    items: seq<ShipmentItem>)

  /** `OrderCancelled` and `ItemsNotInOrder` are the invalid-data errors, with the order id
      and the missing item ids; `FulfillmentNotFound` is the plain error of the validation
      step; the last two are the type errors of reading through an absent value. */
  datatype ShipmentError =
    | OrderCancelled(orderId: string)
    | ItemsNotInOrder(missing: seq<string>, orderId: string)
    | FulfillmentNotFound(fulfillmentId: string)
    | FulfillmentUndefined
    | ItemsUndefined

  /** The name of the fulfillment module, the reference of every order shipment. */
  const FulfillmentModule: string := "fulfillment"

  function ItemIds(items: seq<OrderItem>): (r: seq<string>)
    ensures |r| == |items| && forall i :: 0 <= i < |r| ==> r[i] == items[i].id
  {
    seq(|items|, i requires 0 <= i < |items| => items[i].id)
  }

  /** `order.items?.map(i => i.id) ?? []`: an order without items has no item ids. */
  function OrderItemIds(order: Order): seq<string>
  {
    if order.items.Some? then ItemIds(order.items.value) else []
  }

  predicate Distinct(xs: seq<string>)
  {
    forall i, j :: 0 <= i < j < |xs| ==> xs[i] != xs[j]
  }

  /** `arrayDifference(xs, ys)` on the first `n` of `xs`: the ids of `xs` that `ys` lacks,
      each once, in the order they first occur. */
  function Difference(xs: seq<string>, ys: seq<string>, n: nat): (r: seq<string>)
    requires n <= |xs|
    ensures forall x :: x in r <==> (x in xs[..n] && x !in ys)
    ensures Distinct(r)
    decreases n
  {
    if n == 0 then []
    else
      var front := Difference(xs, ys, n - 1);
      assert xs[..n] == xs[..n - 1] + [xs[n - 1]];
      if xs[n - 1] in ys || xs[n - 1] in front then front else front + [xs[n - 1]]
  }

  /** `throwIfOrderIsCancelled`. */
  function CheckNotCancelled(order: Order): (r: Outcome<ShipmentError>)
    ensures r.Fail? <==> order.status == Canceled
    ensures r.Fail? ==> r.error == OrderCancelled(order.id)
  {
    if order.status == Canceled then Fail(OrderCancelled(order.id)) else Pass
  }

  /** `throwIfItemsDoesNotExistsInOrder`: fails exactly when some input id is not an item
      id of the order, listing each missing id once. */
  function CheckItemsInOrder(order: Order, items: seq<InputItem>): (r: Outcome<ShipmentError>)
    ensures r.Pass? <==> forall i :: 0 <= i < |items| ==> items[i].id in OrderItemIds(order)
    ensures r.Fail? ==> r.error.ItemsNotInOrder? && r.error.orderId == order.id
    ensures r.Fail? ==> Distinct(r.error.missing) && |r.error.missing| > 0
    ensures r.Fail? ==> forall x :: x in r.error.missing <==>
                          (exists i :: 0 <= i < |items| && items[i].id == x) && x !in OrderItemIds(order)
  {
    var ids := seq(|items|, i requires 0 <= i < |items| => items[i].id);
    assert forall x :: x in ids <==> exists i :: 0 <= i < |items| && items[i].id == x by {
      forall x | x in ids ensures exists i :: 0 <= i < |items| && items[i].id == x {
        var i :| 0 <= i < |ids| && ids[i] == x;
      }
      forall x | exists i :: 0 <= i < |items| && items[i].id == x ensures x in ids {
        var i :| 0 <= i < |items| && items[i].id == x;
        assert ids[i] == x;
      }
    }
    var diff := Difference(ids, OrderItemIds(order), |ids|);
    assert ids[..|ids|] == ids;
    if |diff| > 0 then
      assert diff[0] in diff;
      Fail(ItemsNotInOrder(diff, order.id))
    else
      assert forall i :: 0 <= i < |items| ==> items[i].id in OrderItemIds(order) by {
        forall i | 0 <= i < |items| ensures items[i].id in OrderItemIds(order) {
          assert ids[i] in ids;
        }
      }
      Pass
  }

  /** `fulfillments.find(f => f.id === id)`: the position of the first fulfillment with
      the id. */
  function FindFulfillment(fs: seq<Fulfillment>, id: string): (r: Option<nat>)
    ensures r.None? <==> forall i :: 0 <= i < |fs| ==> fs[i].id != id
    ensures r.Some? ==> r.value < |fs| && fs[r.value].id == id
    ensures r.Some? ==> forall j :: 0 <= j < r.value ==> fs[j].id != id
  {
    FirstWith(fs, (f: Fulfillment) => f.id, id)
  }

  /** The body of the `validate-order` step: the cancelled check, then the items check,
      then the fulfillment lookup; the first failing check decides the error. */
  function ValidateOrder(order: Order, input: ShipmentInput): (r: Outcome<ShipmentError>)
    ensures r.Pass? <==>
              && order.status != Canceled
              && (forall i :: 0 <= i < |input.items| ==> input.items[i].id in OrderItemIds(order))
              && (exists k :: 0 <= k < |order.fulfillments| && order.fulfillments[k].id == input.fulfillmentId)
    ensures order.status == Canceled ==> r == Fail(OrderCancelled(order.id))
    ensures order.status != Canceled && CheckItemsInOrder(order, input.items).Fail? ==>
              r == CheckItemsInOrder(order, input.items)
    ensures order.status != Canceled && CheckItemsInOrder(order, input.items).Pass? && r.Fail? ==>
              r == Fail(FulfillmentNotFound(input.fulfillmentId))
  {
    match CheckNotCancelled(order)
    case Fail(e) => Fail(e)
    case Pass =>
      match CheckItemsInOrder(order, input.items)
      case Fail(e) => Fail(e)
      case Pass =>
        if FindFulfillment(order.fulfillments, input.fulfillmentId).None? then Fail(FulfillmentNotFound(input.fulfillmentId))
        else Pass
  }

  /** `prepareRegisterShipmentData`: the order id, the fulfillment module as reference, the
      matching fulfillment's id, the author, and the order's own items cut down to id and
      quantity. Reading the id of a missing fulfillment, or mapping absent items, is a
      type error; the fulfillment is read first. */
  function PrepareRegisterShipmentData(order: Order, input: ShipmentInput): (r: Result<ShipmentData, ShipmentError>)
    ensures r.Ok? <==> (exists k :: 0 <= k < |order.fulfillments| && order.fulfillments[k].id == input.fulfillmentId)
                       && order.items.Some?
    ensures r.Err? ==> r.error == (if FindFulfillment(order.fulfillments, input.fulfillmentId).None?
                                   then FulfillmentUndefined else ItemsUndefined)
    ensures r.Ok? ==> && r.value.orderId == order.id
                      && r.value.reference == FulfillmentModule
                      && r.value.referenceId == input.fulfillmentId
                      && r.value.createdBy == input.createdBy
    ensures r.Ok? ==> |r.value.items| == |order.items.value|
    ensures r.Ok? ==> forall i :: 0 <= i < |r.value.items| ==>
                        r.value.items[i] == ShipmentItem(order.items.value[i].id, order.items.value[i].quantity)
  {
    match FindFulfillment(order.fulfillments, input.fulfillmentId)
    case None => Err(FulfillmentUndefined)
    case Some(k) =>
      if order.items.None? then Err(ItemsUndefined)
      else
        var items := order.items.value;
        Ok(ShipmentData(
             order.id,
             FulfillmentModule,
             order.fulfillments[k].id,
             input.createdBy,
             seq(|items|, i requires 0 <= i < |items| => ShipmentItem(items[i].id, items[i].quantity))))
  }

  /** Once an order with items passes validation, the shipment record is built, and every
      item the input names is among the items it carries. */
  lemma ValidatedOrderPrepares(order: Order, input: ShipmentInput)
    requires ValidateOrder(order, input).Pass? && order.items.Some?
    ensures PrepareRegisterShipmentData(order, input).Ok?
    ensures forall i :: 0 <= i < |input.items| ==>
              exists j :: 0 <= j < |PrepareRegisterShipmentData(order, input).value.items| &&
                          PrepareRegisterShipmentData(order, input).value.items[j].id == input.items[i].id
  {
    var data := PrepareRegisterShipmentData(order, input).value;
    var ids := ItemIds(order.items.value);
    forall i | 0 <= i < |input.items|
      ensures exists j :: 0 <= j < |data.items| && data.items[j].id == input.items[i].id
    {
      assert input.items[i].id in ids;
      var j :| 0 <= j < |ids| && ids[j] == input.items[i].id;
      assert data.items[j].id == input.items[i].id;
    }
  }

  /** The shipment carries the items of the order, not those of the input: two inputs for
      the same fulfillment and author give the same record. */
  lemma PrepareIgnoresInputItems(order: Order, input: ShipmentInput, other: ShipmentInput)
    requires input.fulfillmentId == other.fulfillmentId && input.createdBy == other.createdBy
    ensures PrepareRegisterShipmentData(order, input) == PrepareRegisterShipmentData(order, other)
  {
  }

  /** An order without items passes the items check only when the input names no item. */
  lemma NoItemsNoneExist(order: Order, items: seq<InputItem>)
    requires order.items.None? || order.items == Some([])
    ensures CheckItemsInOrder(order, items).Pass? <==> items == []
  {
    if items != [] {
      assert items[0].id !in OrderItemIds(order);
    }
  }
}
