/** The order helpers over the `orders` table: statement building for inserts with an
    optional TTL, lookups and aggregates over query results held in memory, and the JSON
    export and import of one order. JSON is modelled as the value `json.loads` produces and
    `json.dumps` consumes; numbers are whole numbers; a datetime is carried as its ISO text. */
module Orders {
  import opened Wrappers
  import opened Text
  import opened Uuids
  import opened Rows

  /** A row of `orders`. Cassandra stores an empty `list<uuid>` as null and the driver reads
      it back as `None`, so an empty `products` here is the row's null products column. */
  datatype Order = Order(customerName: string, orderId: Uuid, orderDate: string, products: seq<Uuid>, totalValue: int)

  /** A JSON value; an object is a dictionary from keys to values. */
  datatype Json = JNull | JBool(b: bool) | JNum(n: int) | JStr(s: string) | JArr(items: seq<Json>) | JObj(fields: map<string, Json>)

  /** Python truthiness of a decoded JSON value. */
  predicate Truthy(j: Json) {
    match j
    case JNull => false
    case JBool(b) => b
    case JNum(n) => n != 0
    case JStr(s) => s != []
    case JArr(items) => items != []
    case JObj(fields) => fields != map[]
  }

  /** The INSERT statement of `create_order` and `add_order_from_json`, up to layout. */
  const InsertOrder: string :=
    "INSERT INTO orders (customer_name, order_id, order_date, products, total_value) VALUES (%s, %s, %s, %s, %s)"

  const TtlClause: string := " USING TTL "

  /** Python truthiness of `ttl: Optional[int]`. */
  predicate TtlSet(ttl: Option<int>) {
    ttl.Some? && ttl.value != 0
  }

  /** `query += f" USING TTL {ttl}"` when `ttl` is truthy. The clause is appended exactly
      when the TTL is set, and the number it ends with reads back as that TTL. */
  method InsertQuery(ttl: Option<int>) returns (query: string)
    ensures InsertOrder <= query
    ensures TtlSet(ttl) <==> |query| > |InsertOrder|
    ensures !TtlSet(ttl) ==> query == InsertOrder
    ensures TtlSet(ttl) ==>
      TtlClause <= query[|InsertOrder|..] && ParseInt(query[|InsertOrder| + |TtlClause|..]) == Some(ttl.value)
    ensures query == InsertOrderQuery(ttl)
  {
    query := InsertOrder;
    if TtlSet(ttl) {
      query := query + TtlClause + IntToString(ttl.value);
      Suffixes(InsertOrder, TtlClause, IntToString(ttl.value));
      ParseIntToString(ttl.value);
    }
  }

  lemma Suffixes(a: string, b: string, c: string)
    ensures (a + b + c)[|a|..] == b + c && (a + b + c)[|a| + |b|..] == c
  {
  }

  /** The parameters bound into the INSERT: the customer name is whatever value the caller
      passed in. */
  datatype InsertParams = InsertParams(customerName: Json, orderId: Uuid, orderDate: string, products: seq<Uuid>, totalValue: int)

  /** `create_order`: a fresh id (`uuid.uuid4()`) and the current time are inputs. */
  method CreateOrder(customerName: string, products: seq<Uuid>, totalValue: int, ttl: Option<int>, freshId: Uuid, now: string)
    returns (query: string, params: InsertParams, id: Uuid)
    ensures id == freshId
    ensures params == InsertParams(JStr(customerName), freshId, now, products, totalValue)
    ensures InsertOrder <= query && (TtlSet(ttl) <==> query != InsertOrder)
  {
    query := InsertQuery(ttl);
    params := InsertParams(JStr(customerName), freshId, now, products, totalValue);
    id := freshId;
  }

  /** `get_order_by_id`: the first order of the customer with the given id, if any. */
  method GetOrderById(rows: seq<Order>, orderId: Uuid) returns (r: Option<Order>)
    ensures r.None? <==> forall i | 0 <= i < |rows| :: rows[i].orderId != orderId
    ensures r.Some? ==> exists k | 0 <= k < |rows| ::
      rows[k] == r.value && r.value.orderId == orderId && forall j | 0 <= j < k :: rows[j].orderId != orderId
  {
    r := FindFirst(rows, (o: Order) => o.orderId == orderId);
  }

  /** `SELECT SUM(total_value) FROM orders WHERE customer_name = %s` over the table's rows: the
      totals of that customer's orders added up, 0 when there are none. */
  function CustomerSum(table: seq<Order>, customer: string): (total: int)
    ensures (forall i | 0 <= i < |table| :: table[i].totalValue >= 0) ==> total >= 0
  {
    if table == [] then 0
    else (if table[0].customerName == customer then table[0].totalValue else 0) + CustomerSum(table[1..], customer)
  }

  /** `get_customer_total_spent`: the `SUM(total_value)` the query returns, with a null or
      zero sum reported as 0. */
  function TotalSpent(total: Option<int>): (r: int)
    ensures total.None? ==> r == 0
    ensures total.Some? ==> r == total.value
  {
    if total.Some? && total.value != 0 then total.value else 0
  }

  /** A customer who has placed no order has spent 0. */
  lemma {:induction false} TotalSpentNoOrders(table: seq<Order>, customer: string)
    requires forall i | 0 <= i < |table| :: table[i].customerName != customer
    ensures TotalSpent(Some(CustomerSum(table, customer))) == 0
  {
    if table != [] {
      TotalSpentNoOrders(table[1..], customer);
    }
  }

  /** Inserting one more order raises its customer's total by the order's value and leaves
      every other customer's total as it was. */
  lemma {:induction false} TotalSpentAfterInsert(table: seq<Order>, o: Order, customer: string)
    ensures TotalSpent(Some(CustomerSum(table + [o], customer))) ==
      CustomerSum(table, customer) + (if o.customerName == customer then o.totalValue else 0)
  {
    if table == [] {
      assert table + [o] == [o];
      assert [o][1..] == [];
    } else {
      assert (table + [o])[1..] == table[1..] + [o];
      TotalSpentAfterInsert(table[1..], o, customer);
    }
  }

  /** The position `max(orders, key=total_value)` picks: a maximal order, the first of them. */
  function MaxIndex(orders: seq<Order>): (k: nat)
    requires orders != []
    ensures k < |orders|
    ensures forall j | 0 <= j < |orders| :: orders[j].totalValue <= orders[k].totalValue
    ensures forall j | 0 <= j < k :: orders[j].totalValue < orders[k].totalValue
    decreases |orders|
  {
    if |orders| == 1 then 0
    else
      var k := MaxIndex(orders[..|orders| - 1]);
      if orders[|orders| - 1].totalValue > orders[k].totalValue then |orders| - 1 else k
  }

  /** `get_customer_max_order`: `None` for a customer without orders, else the first order
      whose total is the largest. */
  function MaxOrder(orders: seq<Order>): (r: Option<Order>)
    ensures r.None? <==> orders == []
    ensures r.Some? ==> r.value in orders
    ensures r.Some? ==> forall j | 0 <= j < |orders| :: orders[j].totalValue <= r.value.totalValue
  {
    if orders == [] then None else Some(orders[MaxIndex(orders)])
  }

  /** The statement `update_order` issues: new products and total for the order's key. */
  datatype OrderUpdate = OrderUpdate(products: seq<Uuid>, totalValue: int, customerName: string, orderDate: string, orderId: Uuid)

  /** `update_order`: `False` and no statement when the order is not found; otherwise the UPDATE
      with the order's date, and `True` unless executing it raises (`executeFails`). */
  method UpdateOrder(rows: seq<Order>, customerName: string, orderId: Uuid, products: seq<Uuid>, totalValue: int, executeFails: bool)
    returns (ok: bool, update: Option<OrderUpdate>)
    ensures update.None? <==> forall i | 0 <= i < |rows| :: rows[i].orderId != orderId
    ensures ok <==> update.Some? && !executeFails
    ensures update.Some? ==> exists k | 0 <= k < |rows| :: (rows[k].orderId == orderId
      && (forall j | 0 <= j < k :: rows[j].orderId != orderId)
      && update.value == OrderUpdate(products, totalValue, customerName, rows[k].orderDate, orderId))
  {
    var order := GetOrderById(rows, orderId);
    if order.None? {
      return false, None;
    }
    update := Some(OrderUpdate(products, totalValue, customerName, order.value.orderDate, orderId));
    ok := !executeFails;
  }

  function UuidTexts(ids: seq<Uuid>): (r: seq<Json>)
    ensures |r| == |ids|
    ensures forall i | 0 <= i < |ids| :: r[i] == JStr(Format(ids[i]))
  {
    seq(|ids|, i requires 0 <= i < |ids| => JStr(Format(ids[i])))
  }

  /** The `order_dict` of `get_order_as_json`. */
  function OrderToJson(o: Order): (j: Json)
    ensures j.JObj? && j.fields.Keys == {"customer_name", "order_id", "order_date", "products", "total_value"}
  {
    JObj(map[
      "customer_name" := JStr(o.customerName),
      "order_id" := JStr(Format(o.orderId)),
      "order_date" := JStr(o.orderDate),
      "products" := JArr(UuidTexts(o.products)),
      "total_value" := JNum(o.totalValue)])
  }

  /** What `get_order_as_json` makes of a found order: the export, or `None` when the products
      column is null, since iterating `None` raises `TypeError` and the handler returns `None`. */
  function Export(o: Order): (r: Option<Json>)
    ensures r.None? <==> o.products == []
    ensures r.Some? ==> r.value == OrderToJson(o)
  {
    if o.products == [] then None else Some(OrderToJson(o))
  }

  /** `get_order_as_json`: `None` when the order is not found or its products column is null;
      otherwise the export of the first matching order. */
  method GetOrderAsJson(rows: seq<Order>, orderId: Uuid) returns (r: Option<Json>)
    ensures r.None? <==> ((forall i | 0 <= i < |rows| :: rows[i].orderId != orderId)
      || exists k | 0 <= k < |rows| :: (rows[k].orderId == orderId
        && (forall j | 0 <= j < k :: rows[j].orderId != orderId)
        && rows[k].products == []))
    ensures r.Some? ==> exists k | 0 <= k < |rows| :: (rows[k].orderId == orderId
      && (forall j | 0 <= j < k :: rows[j].orderId != orderId)
      && rows[k].products != []
      && r.value == OrderToJson(rows[k]))
  {
    var order := GetOrderById(rows, orderId);
    if order.None? {
      return None;
    }
    r := Export(order.value);
  }

  /** How one step of `add_order_from_json` ends: with a value, with an exception its handler
      catches (`JSONDecodeError`, `ValueError`, `KeyError`: the call returns `None`), or with
      one it does not catch (`TypeError`, `AttributeError`: the call raises). */
  datatype Step<+T> = Ok(value: T) | Caught | Uncaught

  /** `uuid.UUID(j)`: a string must parse; any other value is not a string and raises a
      `TypeError` (for `None`) or an `AttributeError` (no `replace`). */
  function UuidOf(j: Json): (r: Step<Uuid>)
    ensures r.Ok? ==> j.JStr? && Parse(j.s) == Some(r.value)
  {
    match j
    case JStr(s) => if Parse(s).Some? then Ok(Parse(s).value) else Caught
    case _ => Uncaught
  }

  /** `[uuid.UUID(p) for p in items]`, the first failing element deciding the outcome. */
  function UuidList(items: seq<Json>): (r: Step<seq<Uuid>>)
    ensures r.Ok? ==> |r.value| == |items| && forall i | 0 <= i < |items| :: UuidOf(items[i]) == Ok(r.value[i])
  {
    if items == [] then Ok([])
    else match UuidOf(items[0])
      case Caught => Caught
      case Uncaught => Uncaught
      case Ok(u) =>
        match UuidList(items[1..])
        case Ok(us) => Ok([u] + us)
        case Caught => Caught
        case Uncaught => Uncaught
  }

  /** The products of `order_data.get("products", [])`: a missing key is the empty list; a
      string iterates over its characters and an object over its keys, each a one-entry
      text; null, a number or a boolean is not iterable and raises `TypeError`. */
  function ProductsOf(fields: map<string, Json>): (r: Step<seq<Uuid>>)
    ensures "products" !in fields ==> r == Ok([])
  {
    if "products" !in fields then Ok([])
    else match fields["products"]
      case JArr(items) => UuidList(items)
      case JStr(s) => UuidList(seq(|s|, i requires 0 <= i < |s| => JStr([s[i]])))
      case JObj(m) => if m == map[] then Ok([]) else Caught
      case _ => Uncaught
  }

  /** The order date: the given text, or the current time when the key is absent; a value
      that is not text makes `fromisoformat` raise `TypeError`. */
  function DateOf(fields: map<string, Json>, now: string): (r: Step<string>)
    ensures "order_date" !in fields ==> r == Ok(now)
  {
    if "order_date" !in fields then Ok(now)
    else match fields["order_date"]
      case JStr(s) => Ok(s)
      case _ => Uncaught
  }

  /** `float(order_data.get("total_value", 0))`: a missing key is 0; numbers and booleans
      convert; text must read as a number (`ValueError` otherwise); null, lists and objects
      raise `TypeError`. */
  function TotalOf(fields: map<string, Json>): (r: Step<int>)
    ensures "total_value" !in fields ==> r == Ok(0)
  {
    if "total_value" !in fields then Ok(0)
    else match fields["total_value"]
      case JNum(n) => Ok(n)
      case JBool(b) => Ok(if b then 1 else 0)
      case JStr(s) => if ParseInt(s).Some? then Ok(ParseInt(s).value) else Caught
      case _ => Uncaught
  }

  /** `order_data.get("customer_name")` is truthy. */
  predicate HasName(fields: map<string, Json>) {
    "customer_name" in fields && Truthy(fields["customer_name"])
  }

  /** What `add_order_from_json` does: inserts and returns the order id, returns `None`, or
      raises. */
  datatype Import = Inserted(orderId: Uuid, query: string, params: InsertParams) | Rejected | Raises

  /** `add_order_from_json` on the decoded text (`None` when `json.loads` fails). The customer
      name is checked first, then the products, the order id, the date and the total, in the
      source's order; `uuid.uuid4()` and `datetime.now()` are inputs. */
  function ImportOrder(decoded: Option<Json>, ttl: Option<int>, freshId: Uuid, now: string): (r: Import)
    ensures decoded.None? ==> r == Rejected
    ensures decoded.Some? && !decoded.value.JObj? ==> r == Raises
    ensures decoded.Some? && decoded.value.JObj? && !HasName(decoded.value.fields) ==> r == Rejected
    ensures r.Inserted? ==>
      (decoded.Some? && decoded.value.JObj? && HasName(decoded.value.fields)
       && r.params.customerName == decoded.value.fields["customer_name"])
    ensures r.Inserted? && "order_id" !in decoded.value.fields ==> r.orderId == freshId
    ensures r.Inserted? && "total_value" !in decoded.value.fields ==> r.params.totalValue == 0
    ensures r.Inserted? ==> r.orderId == r.params.orderId
  {
    if decoded.None? then Rejected
    else if !decoded.value.JObj? then Raises
    else
      var fields := decoded.value.fields;
      if !HasName(fields) then Rejected
      else
        var products := ProductsOf(fields);
        if !products.Ok? then (if products.Caught? then Rejected else Raises)
        else
          var id := if "order_id" in fields then UuidOf(fields["order_id"]) else Ok(freshId);
          if !id.Ok? then (if id.Caught? then Rejected else Raises)
          else
            var date := DateOf(fields, now);
            if !date.Ok? then (if date.Caught? then Rejected else Raises)
            else
              var total := TotalOf(fields);
              if !total.Ok? then (if total.Caught? then Rejected else Raises)
              else
                Inserted(id.value, InsertOrderQuery(ttl),
                  InsertParams(fields["customer_name"], id.value, date.value, products.value, total.value))
  }

  /** The statement text `add_order_from_json` sends, as `InsertQuery` builds it. */
  function InsertOrderQuery(ttl: Option<int>): (q: string)
    ensures InsertOrder <= q && (TtlSet(ttl) <==> q != InsertOrder)
  {
    if TtlSet(ttl) then InsertOrder + TtlClause + IntToString(ttl.value) else InsertOrder
  }

  lemma {:induction false} UuidListTexts(ids: seq<Uuid>)
    ensures UuidList(UuidTexts(ids)) == Ok(ids)
  {
    if ids != [] {
      ParseFormat(ids[0]);
      UuidListTexts(ids[1..]);
      assert UuidTexts(ids)[1..] == UuidTexts(ids[1..]);
      assert [ids[0]] + ids[1..] == ids;
    }
  }

  /** Exporting an order with a customer name and importing the result inserts the same
      order again: same customer, id, date, products and total. An order whose customer name is
      empty is refused on the way back in. */
  lemma ExportImport(o: Order, ttl: Option<int>, freshId: Uuid, now: string)
    ensures o.customerName != [] ==>
      ImportOrder(Some(OrderToJson(o)), ttl, freshId, now) ==
        Inserted(o.orderId, InsertOrderQuery(ttl), InsertParams(JStr(o.customerName), o.orderId, o.orderDate, o.products, o.totalValue))
    ensures o.customerName == [] ==> ImportOrder(Some(OrderToJson(o)), ttl, freshId, now) == Rejected
  {
    ParseFormat(o.orderId);
    UuidListTexts(o.products);
  }
}
