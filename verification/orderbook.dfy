/**
 * The JSON-file order and trade collections of the token API. Each file holds
 * one array; every operation reads the whole array, changes it, and writes it
 * back, which is modelled here as one step from one `Book` value to the next.
 * The store only keeps rows: it has no fill, cancel or matching logic.
 */
module OrderBook {
  import opened Wrappers

  datatype Side = Buy | Sell

  datatype OrderStatus = Open | Partial | Filled | Cancelled

  /** One order as stored; quantities and prices stay decimal strings. */
  datatype OrderRow = OrderRow(
    id: string,
    token: string,
    owner: string,
    side: Side,
    price: string,
    amount: string,
    filled: string,
    status: OrderStatus,
    createdAt: int,
    lotId: Option<int>,
    quote: Option<string>)

  datatype TradeRow = TradeRow(
    id: string,
    orderId: string,
    token: string,
    price: string,
    amount: string,
    maker: string,
    taker: string,
    createdAt: int)

  /** A partial order: each field the caller supplied, `None` for the others.
      The optional row fields can also be supplied as `undefined`, which the
      spread copies over the row's value: `Some(None)` for those. */
  datatype OrderPatch = OrderPatch(
    id: Option<string>,
    token: Option<string>,
    owner: Option<string>,
    side: Option<Side>,
    price: Option<string>,
    amount: Option<string>,
    filled: Option<string>,
    status: Option<OrderStatus>,
    createdAt: Option<int>,
    lotId: Option<Option<int>>,
    quote: Option<Option<string>>)

  const EmptyPatch := OrderPatch(None, None, None, None, None, None, None, None, None, None, None)

  /** The two files; `None` stands for a file that does not exist yet. */
  datatype Book = Book(orders: Option<seq<OrderRow>>, trades: Option<seq<TradeRow>>)

  datatype BookError =
    | MissingFile       // reading a collection whose file was never created
    | OrderNotFound     // "order_not_found"

  /** The updated store and the merged row `updateOrder` returns. */
  datatype Updated = Updated(book: Book, row: OrderRow)

  /** `ob.init`: create each missing file as an empty array, never touch an existing one. */
  function Init(b: Book): (r: Book)
    ensures r.orders.Some? && r.trades.Some?
    ensures b.orders.Some? ==> r.orders == b.orders
    ensures b.trades.Some? ==> r.trades == b.trades
    ensures b.orders.None? ==> r.orders == Some([])
    ensures b.trades.None? ==> r.trades == Some([])
  {
    Book(if b.orders.Some? then b.orders else Some([]),
         if b.trades.Some? then b.trades else Some([]))
  }

  /** Calling `init` on every start is harmless: a second call changes nothing. */
  lemma InitIdempotent(b: Book)
    ensures Init(Init(b)) == Init(b)
  {
  }

  /** The index of the first row with this id (`findIndex`), or `None`. */
  function FindIndex(rows: seq<OrderRow>, id: string): (r: Option<nat>)
    ensures r.Some? ==> r.value < |rows| && rows[r.value].id == id
    ensures r.Some? ==> forall k :: 0 <= k < r.value ==> rows[k].id != id
    ensures r.None? <==> forall k :: 0 <= k < |rows| ==> rows[k].id != id
  {
    if rows == [] then None
    else if rows[0].id == id then Some(0)
    else match FindIndex(rows[1..], id)
      case None => None
      case Some(i) => Some(i + 1)
  }

  /** `{ ...row, ...patch }`: every field the patch supplies wins, every other
      field keeps the row's value. */
  function Merge(row: OrderRow, p: OrderPatch): (r: OrderRow)
    ensures Overrides(p, r)
    ensures KeepsUnpatched(row, p, r)
  {
    OrderRow(
      p.id.GetOr(row.id),
      p.token.GetOr(row.token),
      p.owner.GetOr(row.owner),
      p.side.GetOr(row.side),
      p.price.GetOr(row.price),
      p.amount.GetOr(row.amount),
      p.filled.GetOr(row.filled),
      p.status.GetOr(row.status),
      p.createdAt.GetOr(row.createdAt),
      p.lotId.GetOr(row.lotId),
      p.quote.GetOr(row.quote))
  }

  /** Every field present in the patch has the patch's value in `r`. */
  predicate Overrides(p: OrderPatch, r: OrderRow) {
    && (p.id.Some? ==> r.id == p.id.value)
    && (p.token.Some? ==> r.token == p.token.value)
    && (p.owner.Some? ==> r.owner == p.owner.value)
    && (p.side.Some? ==> r.side == p.side.value)
    && (p.price.Some? ==> r.price == p.price.value)
    && (p.amount.Some? ==> r.amount == p.amount.value)
    && (p.filled.Some? ==> r.filled == p.filled.value)
    && (p.status.Some? ==> r.status == p.status.value)
    && (p.createdAt.Some? ==> r.createdAt == p.createdAt.value)
    && (p.lotId.Some? ==> r.lotId == p.lotId.value)
    && (p.quote.Some? ==> r.quote == p.quote.value)
  }

  /** Every field absent from the patch is the same in `row` and `r`. */
  predicate KeepsUnpatched(row: OrderRow, p: OrderPatch, r: OrderRow) {
    && (p.id.None? ==> r.id == row.id)
    && (p.token.None? ==> r.token == row.token)
    && (p.owner.None? ==> r.owner == row.owner)
    && (p.side.None? ==> r.side == row.side)
    && (p.price.None? ==> r.price == row.price)
    && (p.amount.None? ==> r.amount == row.amount)
    && (p.filled.None? ==> r.filled == row.filled)
    && (p.status.None? ==> r.status == row.status)
    && (p.createdAt.None? ==> r.createdAt == row.createdAt)
    && (p.lotId.None? ==> r.lotId == row.lotId)
    && (p.quote.None? ==> r.quote == row.quote)
  }

  /** The two predicates pin the merged row down completely: `Merge` is the only
      row that takes the patch's fields and keeps the rest. */
  lemma MergeUnique(row: OrderRow, p: OrderPatch, r: OrderRow)
    requires Overrides(p, r) && KeepsUnpatched(row, p, r)
    ensures r == Merge(row, p)
  {
  }

  /** Merging the same patch twice is merging it once; merging nothing is a no-op. */
  lemma MergeIdempotent(row: OrderRow, p: OrderPatch)
    ensures Merge(Merge(row, p), p) == Merge(row, p)
    ensures Merge(row, EmptyPatch) == row
  {
  }

  /** A patch that carries `lotId: undefined` removes the row's lot id, while a
      patch without the key leaves it. */
  lemma UndefinedClears(row: OrderRow)
    requires row.lotId.Some?
    ensures Merge(row, EmptyPatch.(lotId := Some(None))).lotId == None
    ensures Merge(row, EmptyPatch).lotId == row.lotId
  {
  }

  /** `ob.putOrder`: append one order at the end of the order file. */
  function PutOrder(b: Book, o: OrderRow): (r: Result<Book, BookError>)
    ensures r.Err? <==> b.orders.None?
    ensures r.Err? ==> r.error == MissingFile
    ensures r.Ok? ==> r.value.orders.Some? && |r.value.orders.value| == |b.orders.value| + 1
    ensures r.Ok? ==> r.value.orders.value[..|b.orders.value|] == b.orders.value
    ensures r.Ok? ==> r.value.orders.value[|b.orders.value|] == o
    ensures r.Ok? ==> r.value.trades == b.trades
  {
    match b.orders
    case None => Err(MissingFile)
    case Some(rows) => Ok(b.(orders := Some(rows + [o])))
  }

  /** `ob.getOrder`: the first order with this id, `None` when there is none. */
  function GetOrder(b: Book, id: string): (r: Result<Option<OrderRow>, BookError>)
    ensures r.Err? <==> b.orders.None?
    ensures r.Ok? && r.value.Some? ==>
      exists i :: 0 <= i < |b.orders.value| && b.orders.value[i] == r.value.value
        && forall k :: 0 <= k < i ==> b.orders.value[k].id != id
    ensures r.Ok? && r.value.Some? ==> r.value.value.id == id
    ensures r.Ok? && r.value.None? <==> b.orders.Some? && forall k :: 0 <= k < |b.orders.value| ==> b.orders.value[k].id != id
  {
    match b.orders
    case None => Err(MissingFile)
    case Some(rows) =>
      match FindIndex(rows, id)
      case None => Ok(None)
      case Some(i) => Ok(Some(rows[i]))
  }

  /** `ob.updateOrder`: merge the patch into the first order with this id, write
      the file back, and return the merged row. */
  function UpdateOrder(b: Book, id: string, p: OrderPatch): (r: Result<Updated, BookError>)
    ensures b.orders.None? ==> r == Err(MissingFile)
    ensures b.orders.Some? && (forall k :: 0 <= k < |b.orders.value| ==> b.orders.value[k].id != id)
      ==> r == Err(OrderNotFound)
    ensures r.Ok? ==>
      var rows := b.orders.value;
      var i := FindIndex(rows, id).value;
      && b.orders.Some?
      && rows[i].id == id
      && r.value.book.orders == Some(rows[i := r.value.row])
      && Overrides(p, r.value.row)
      && KeepsUnpatched(rows[i], p, r.value.row)
    ensures r.Ok? ==> r.value.book.trades == b.trades
    ensures r.Ok? <==> b.orders.Some? && exists k :: 0 <= k < |b.orders.value| && b.orders.value[k].id == id
  {
    match b.orders
    case None => Err(MissingFile)
    case Some(rows) =>
      match FindIndex(rows, id)
      case None => Err(OrderNotFound)
      case Some(i) =>
        var merged := Merge(rows[i], p);
        Ok(Updated(b.(orders := Some(rows[i := merged])), merged))
  }

  /** Only the first matching row changes: the length and every other row stay. */
  lemma UpdateOrderFrame(b: Book, id: string, p: OrderPatch, j: int)
    requires UpdateOrder(b, id, p).Ok?
    requires 0 <= j < |b.orders.value|
    requires j != FindIndex(b.orders.value, id).value
    ensures |UpdateOrder(b, id, p).value.book.orders.value| == |b.orders.value|
    ensures UpdateOrder(b, id, p).value.book.orders.value[j] == b.orders.value[j]
  {
  }

  /** A failed update leaves both files as they were (the model returns no new state). */
  lemma UpdateMissingLeavesBook(b: Book, id: string, p: OrderPatch)
    requires b.orders.Some?
    requires forall k :: 0 <= k < |b.orders.value| ==> b.orders.value[k].id != id
    ensures UpdateOrder(b, id, p) == Err(OrderNotFound)
    ensures GetOrder(b, id) == Ok(None)
  {
  }

  /** An empty patch rewrites the file with the same contents. */
  lemma UpdateEmptyPatch(b: Book, id: string)
    requires UpdateOrder(b, id, EmptyPatch).Ok?
    ensures UpdateOrder(b, id, EmptyPatch).value.book == b
  {
    var rows := b.orders.value;
    var i := FindIndex(rows, id).value;
    MergeIdempotent(rows[i], EmptyPatch);
    assert rows[i := rows[i]] == rows;
  }

  /** When the update keeps the id, reading the order back returns exactly the
      row the update returned. */
  lemma {:induction false} GetAfterUpdate(b: Book, id: string, p: OrderPatch)
    requires UpdateOrder(b, id, p).Ok?
    requires p.id.None? || p.id == Some(id)
    ensures GetOrder(UpdateOrder(b, id, p).value.book, id) == Ok(Some(UpdateOrder(b, id, p).value.row))
  {
    var rows := b.orders.value;
    var i := FindIndex(rows, id).value;
    var u := UpdateOrder(b, id, p).value;
    FindIndexAfterWrite(rows, id, i, u.row);
  }

  /** Writing a row with the same id at the first match keeps it the first match. */
  lemma {:induction false} FindIndexAfterWrite(rows: seq<OrderRow>, id: string, i: nat, row: OrderRow)
    requires FindIndex(rows, id) == Some(i)
    requires row.id == id
    ensures FindIndex(rows[i := row], id) == Some(i)
  {
    if i > 0 {
      assert rows[0].id != id;
      assert FindIndex(rows[1..], id) == Some(i - 1);
      FindIndexAfterWrite(rows[1..], id, i - 1, row);
      assert rows[i := row][1..] == rows[1..][i - 1 := row];
    }
  }

  /** `ob.putTrade`: append one trade at the end; the order file is not touched. */
  function PutTrade(b: Book, t: TradeRow): (r: Result<Book, BookError>)
    ensures r.Err? <==> b.trades.None?
    ensures r.Err? ==> r.error == MissingFile
    ensures r.Ok? ==> r.value.trades.Some? && |r.value.trades.value| == |b.trades.value| + 1
    ensures r.Ok? ==> r.value.trades.value[..|b.trades.value|] == b.trades.value
    ensures r.Ok? ==> r.value.trades.value[|b.trades.value|] == t
    ensures r.Ok? ==> r.value.orders == b.orders
  {
    match b.trades
    case None => Err(MissingFile)
    case Some(rows) => Ok(b.(trades := Some(rows + [t])))
  }

  /** Appended orders are found by id unless an earlier order already has that id. */
  lemma GetAfterPut(b: Book, o: OrderRow)
    requires b.orders.Some?
    requires forall k :: 0 <= k < |b.orders.value| ==> b.orders.value[k].id != o.id
    ensures GetOrder(PutOrder(b, o).value, o.id) == Ok(Some(o))
  {
    var rows := b.orders.value + [o];
    assert rows[|rows| - 1] == o;
  }
}
