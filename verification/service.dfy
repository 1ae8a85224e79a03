/** `PortfolioService`: creating a client with a portfolio, replacing a
    client's portfolio, and valuing it against the price history file.
    The two repositories become one abstract store; every operation is a
    function from the store (and the files it reads) to a result. A failed
    operation returns only its error, so it leaves the store as it was. */
module Service {
  import opened Outcomes
  import opened Files
  import opened Stocks
  import opened Validator

  /** One row of the price history file: its first two comma-separated
      fields, the second already parsed as a number. */
  datatype PriceRow = PriceRow(symbol: string, value: real)

  /** The client and stock tables: each client id with the stocks whose
      CLIENT_ID is that id, and the next id the IDENTITY generator issues. */
  datatype Store = Store(clients: map<int, seq<Stock>>, nextId: int)

  datatype Created = Created(clientId: int, store: Store)

  /** Every stock carries `id` as its owner. */
  predicate OwnedBy(stocks: seq<Stock>, id: int) {
    forall k :: 0 <= k < |stocks| ==> stocks[k].clientId == id
  }

  /** The store's invariant: ids are positive and below the next id to be
      generated, and every stored stock is tagged with its owner. */
  predicate Valid(st: Store) {
    && st.nextId >= 1
    && forall id :: id in st.clients ==> 1 <= id < st.nextId && OwnedBy(st.clients[id], id)
  }

  /** `stockRepository.findByClientId`. */
  function Holdings(st: Store, id: int): (r: seq<Stock>)
    ensures Valid(st) ==> OwnedBy(r, id)
    ensures id !in st.clients ==> r == []
  {
    if id in st.clients then st.clients[id] else []
  }

  /** The `forEach(stock -> stock.setClientId(id))` step. */
  function Tag(stocks: seq<Stock>, id: int): (r: seq<Stock>)
    ensures |r| == |stocks| && OwnedBy(r, id)
    ensures forall k :: 0 <= k < |r| ==>
      && r[k].stockId == stocks[k].stockId
      && r[k].stockSymbol == stocks[k].stockSymbol
      && r[k].stockAmount == stocks[k].stockAmount
  {
    seq(|stocks|, k requires 0 <= k < |stocks| => SetClientId(stocks[k], id))
  }

  /** The id the source accepts: present and positive. */
  predicate ValidId(clientId: Option<int>) {
    clientId.Some? && clientId.value > 0
  }

  /** `addNewClientPortfolio`: a missing or empty list is a bad argument;
      otherwise the list is validated before any client is created, and on
      success a new client owns exactly the listed stocks. */
  function AddNewClientPortfolio(st: Store, stocks: Option<seq<Stock>>, supported: Source<string>): (r: Result<Created>)
    ensures stocks.None? || |stocks.value| < 1 ==> r == Err(BadArgument(NoStocks))
    ensures stocks.Some? && |stocks.value| >= 1 ==>
      && (r.Ok? <==> ValidatePortfolio(stocks.value, supported).Pass?)
      && (r.Err? ==> r.error == ValidatePortfolio(stocks.value, supported).error)
    ensures r.Ok? ==>
      var id, after := r.value.clientId, r.value.store;
      && after.clients.Keys == st.clients.Keys + {id}
      && (forall c :: c in st.clients && c != id ==> after.clients[c] == st.clients[c])
      && |Holdings(after, id)| == |stocks.value|
      && OwnedBy(Holdings(after, id), id)
      && (forall k :: 0 <= k < |stocks.value| ==>
            Holdings(after, id)[k] == SetClientId(stocks.value[k], id))
      && (Valid(st) ==> id > 0 && id !in st.clients)
  {
    if stocks.None? || |stocks.value| < 1 then Err(BadArgument(NoStocks))
    else
      match ValidatePortfolio(stocks.value, supported)
      case Fail(e) => Err(e)
      case Pass =>
        var id := st.nextId;
        Ok(Created(id, Store(st.clients[id := Tag(stocks.value, id)], st.nextId + 1)))
  }

  /** `replaceClientPortfolio`. The checks come in a fixed order: a missing
      or non-positive id, then an unknown client, then a missing list or one
      of fewer than TWO stocks, then validation. On success the client's
      stocks are exactly the new list and nothing else changes. */
  function ReplaceClientPortfolio(st: Store, clientId: Option<int>, stocks: Option<seq<Stock>>,
                                  supported: Source<string>): (r: Result<Store>)
    ensures !ValidId(clientId) ==> r == Err(BadArgument(InvalidClientId(clientId)))
    ensures ValidId(clientId) && clientId.value !in st.clients ==> r == Err(NotFound(clientId.value))
    ensures ValidId(clientId) && clientId.value in st.clients && (stocks.None? || |stocks.value| <= 1) ==>
      r == Err(BadArgument(NoStocks))
    ensures r.Ok? <==>
      && ValidId(clientId) && clientId.value in st.clients
      && stocks.Some? && |stocks.value| > 1
      && ValidatePortfolio(stocks.value, supported).Pass?
    ensures ValidId(clientId) && clientId.value in st.clients && stocks.Some? && |stocks.value| > 1 && r.Err? ==>
      r.error == ValidatePortfolio(stocks.value, supported).error
    ensures r.Ok? ==>
      var id, after := clientId.value, r.value;
      && after.clients.Keys == st.clients.Keys
      && after.nextId == st.nextId
      && (forall c :: c in st.clients && c != id ==> after.clients[c] == st.clients[c])
      && |Holdings(after, id)| == |stocks.value|
      && OwnedBy(Holdings(after, id), id)
      && (forall k :: 0 <= k < |stocks.value| ==>
            Holdings(after, id)[k] == SetClientId(stocks.value[k], id))
  {
    if !ValidId(clientId) then Err(BadArgument(InvalidClientId(clientId)))
    else
      var id := clientId.value;
      if id !in st.clients then Err(NotFound(id))
      else if stocks.None? || |stocks.value| <= 1 then Err(BadArgument(NoStocks))
      else
        match ValidatePortfolio(stocks.value, supported)
        case Fail(e) => Err(e)
        case Pass => Ok(Store(st.clients[id := Tag(stocks.value, id)], st.nextId))
  }

  /** Where the scan of the price file ended: an early `return` of the
      value held at that point, or the end of the file. */
  datatype Scan = Returned(value: real) | ReachedEnd

  /** The row loop of `getStockLastValue`, from row `i`: a row for the
      symbol records its value; the first other row after one for the
      symbol returns the value recorded last. */
  function ScanRows(rows: seq<PriceRow>, symbol: string, i: nat, found: bool, value: real): (r: Scan)
    decreases |rows| - i
    ensures !found && (forall k :: i <= k < |rows| ==> rows[k].symbol != symbol) ==> r == ReachedEnd
    ensures r.Returned? ==>
      || (found && r.value == value)
      || exists k :: i <= k < |rows| && rows[k].symbol == symbol && rows[k].value == r.value
  {
    if i >= |rows| then ReachedEnd
    else if rows[i].symbol == symbol then ScanRows(rows, symbol, i + 1, true, rows[i].value)
    else if found then Returned(value)
    else ScanRows(rows, symbol, i + 1, found, value)
  }

  /** The first row at or after `from` that is for `symbol`, or |rows|. */
  function FirstRow(rows: seq<PriceRow>, symbol: string, from: nat): (i: nat)
    requires from <= |rows|
    decreases |rows| - from
    ensures from <= i <= |rows|
    ensures forall k :: from <= k < i ==> rows[k].symbol != symbol
    ensures i < |rows| ==> rows[i].symbol == symbol
  {
    if from == |rows| || rows[from].symbol == symbol then from
    else FirstRow(rows, symbol, from + 1)
  }

  /** The first row at or after `from` that is NOT for `symbol`, or |rows|. */
  function RunEnd(rows: seq<PriceRow>, symbol: string, from: nat): (j: nat)
    requires from <= |rows|
    decreases |rows| - from
    ensures from <= j <= |rows|
    ensures forall k :: from <= k < j ==> rows[k].symbol == symbol
    ensures j < |rows| ==> rows[j].symbol != symbol
  {
    if from == |rows| || rows[from].symbol != symbol then from
    else RunEnd(rows, symbol, from + 1)
  }

  /** The first block of rows for `symbol` is followed by a row for some
      other symbol (rather than by the end of the file). */
  predicate RunClosed(rows: seq<PriceRow>, symbol: string) {
    var i := FirstRow(rows, symbol, 0);
    i < |rows| && RunEnd(rows, symbol, i) < |rows|
  }

  /** The value of the last row of the first block of rows for `symbol`. */
  function RunLast(rows: seq<PriceRow>, symbol: string): real
    requires RunClosed(rows, symbol)
  {
    rows[RunEnd(rows, symbol, FirstRow(rows, symbol, 0)) - 1].value
  }

  /** Inside a block of rows for the symbol, the scan returns the block's
      last value exactly when another symbol follows. */
  lemma {:induction false} ScanInRun(rows: seq<PriceRow>, symbol: string, i: nat, value: real)
    requires 1 <= i <= |rows| && rows[i - 1].symbol == symbol && rows[i - 1].value == value
    decreases |rows| - i
    ensures var j := RunEnd(rows, symbol, i);
      ScanRows(rows, symbol, i, true, value) ==
        (if j < |rows| then Returned(rows[j - 1].value) else ReachedEnd)
  {
    if i < |rows| && rows[i].symbol == symbol {
      ScanInRun(rows, symbol, i + 1, rows[i].value);
    }
  }

  /** Before the first row for the symbol, the scan skips ahead to it. */
  lemma {:induction false} ScanBeforeRun(rows: seq<PriceRow>, symbol: string, i: nat, value: real)
    requires i <= |rows|
    decreases |rows| - i
    ensures var f := FirstRow(rows, symbol, i);
      ScanRows(rows, symbol, i, false, value) ==
        (if f == |rows| then ReachedEnd else ScanRows(rows, symbol, f + 1, true, rows[f].value))
  {
    if i < |rows| && rows[i].symbol != symbol {
      ScanBeforeRun(rows, symbol, i + 1, value);
    }
  }

  /** The whole scan returns exactly when the first block is closed, and
      then returns the block's last value. */
  lemma ScanFindsFirstRun(rows: seq<PriceRow>, symbol: string)
    ensures ScanRows(rows, symbol, 0, false, 0.0) ==
      (if RunClosed(rows, symbol) then Returned(RunLast(rows, symbol)) else ReachedEnd)
  {
    ScanBeforeRun(rows, symbol, 0, 0.0);
    var f := FirstRow(rows, symbol, 0);
    if f < |rows| {
      ScanInRun(rows, symbol, f + 1, rows[f].value);
      assert RunEnd(rows, symbol, f) == RunEnd(rows, symbol, f + 1);
    }
  }

  /** `getStockLastValue`: the value of the last row of the FIRST block of
      rows for the symbol, taken when a row for another symbol follows it.
      A symbol that never occurs, or whose first block runs to the end of
      the file, gives 0.0 -- or an InternalServerError when that final read
      fails. Failing to open or close the file is an InternalServerError. */
  function GetStockLastValue(prices: Source<PriceRow>, symbol: string): (r: Result<real>)
    ensures prices.Unreadable? || prices.closeFails ==> r == Err(InternalServerError)
    ensures prices.Readable? && !prices.closeFails && RunClosed(prices.items, symbol) ==>
      r == Ok(RunLast(prices.items, symbol))
    ensures prices.Readable? && !prices.closeFails && !RunClosed(prices.items, symbol) ==>
      r == (if prices.readFails then Err(InternalServerError) else Ok(0.0))
  {
    match prices
    case Unreadable => Err(InternalServerError)
    case Readable(rows, readFails, closeFails) =>
      ScanFindsFirstRun(rows, symbol);
      var result :=
        match ScanRows(rows, symbol, 0, false, 0.0)
        case Returned(v) => Ok(v)
        case ReachedEnd => if readFails then Err(InternalServerError) else Ok(0.0);
      if closeFails then Err(InternalServerError) else result
  }

  /** The price `getStockLastValue` reports for a symbol from a price file
      read without an I/O error. */
  function QuotedPrice(rows: seq<PriceRow>, symbol: string): real {
    if RunClosed(rows, symbol) then RunLast(rows, symbol) else 0.0
  }

  /** One holding's contribution to a portfolio's value: its amount times a price. */
  function Priced(s: Stock, price: real): real {
    s.stockAmount as real * price
  }

  /** The worth of a list of holdings: each amount times its quoted price. */
  function Worth(stocks: seq<Stock>, rows: seq<PriceRow>): real {
    if |stocks| == 0 then 0.0
    else Priced(stocks[0], QuotedPrice(rows, stocks[0].stockSymbol)) + Worth(stocks[1..], rows)
  }

  /** A lookup that succeeds reports the quoted price, even when a later
      read of the file would have failed. */
  lemma SuccessfulLookupIsQuote(prices: Source<PriceRow>, symbol: string)
    requires prices.Readable? && GetStockLastValue(prices, symbol).Ok?
    ensures GetStockLastValue(prices, symbol).value == QuotedPrice(prices.items, symbol)
  {
  }

  /** The summing loop of `getPortfolioValue`, adding amount times last
      value stock by stock onto `acc`; the first lookup that throws ends it. */
  function SumValues(stocks: seq<Stock>, prices: Source<PriceRow>, acc: real): (r: Result<real>)
    ensures r.Ok? <==> forall k :: 0 <= k < |stocks| ==> GetStockLastValue(prices, stocks[k].stockSymbol).Ok?
    ensures r.Err? ==> r.error == InternalServerError
    ensures prices.Readable? && !prices.readFails && !prices.closeFails ==>
      r == Ok(acc + Worth(stocks, prices.items))
    ensures r.Ok? && prices.Readable? ==> r.value == acc + Worth(stocks, prices.items)
  {
    if |stocks| == 0 then Ok(acc)
    else
      match GetStockLastValue(prices, stocks[0].stockSymbol)
      case Err(e) => Err(e)
      case Ok(v) =>
        var rest := SumValues(stocks[1..], prices, acc + Priced(stocks[0], v));
        assert forall k :: 1 <= k < |stocks| ==> stocks[k] == stocks[1..][k - 1];
        if prices.Readable? then
          SuccessfulLookupIsQuote(prices, stocks[0].stockSymbol);
          rest
        else rest
  }

  /** `getPortfolioValue`: a missing or non-positive id is a bad argument, an
      unknown client is not found; a client with fewer than TWO stocks is
      worth 0.0 without the price file being read; otherwise the worth of
      its stocks at their quoted prices. */
  function GetPortfolioValue(st: Store, clientId: Option<int>, prices: Source<PriceRow>): (r: Result<real>)
    ensures !ValidId(clientId) ==> r == Err(BadArgument(InvalidClientId(clientId)))
    ensures ValidId(clientId) && clientId.value !in st.clients ==> r == Err(NotFound(clientId.value))
    ensures ValidId(clientId) && clientId.value in st.clients && |Holdings(st, clientId.value)| <= 1 ==>
      r == Ok(0.0)
    ensures ValidId(clientId) && clientId.value in st.clients && |Holdings(st, clientId.value)| > 1 ==>
      && (r.Ok? <==> forall k :: 0 <= k < |Holdings(st, clientId.value)| ==>
                       GetStockLastValue(prices, Holdings(st, clientId.value)[k].stockSymbol).Ok?)
      && (r.Err? ==> r.error == InternalServerError)
      && (prices.Readable? && !prices.readFails && !prices.closeFails ==>
            r == Ok(Worth(Holdings(st, clientId.value), prices.items)))
      && (r.Ok? ==> prices.Readable? && r.value == Worth(Holdings(st, clientId.value), prices.items))
  {
    if !ValidId(clientId) then Err(BadArgument(InvalidClientId(clientId)))
    else
      var id := clientId.value;
      if id !in st.clients then Err(NotFound(id))
      else
        var held := Holdings(st, id);
        if |held| > 1 then SumValues(held, prices, 0.0) else Ok(0.0)
  }

  /** Creating a client keeps the store's invariant. */
  lemma AddKeepsStoreValid(st: Store, stocks: Option<seq<Stock>>, supported: Source<string>)
    requires Valid(st)
    requires AddNewClientPortfolio(st, stocks, supported).Ok?
    ensures Valid(AddNewClientPortfolio(st, stocks, supported).value.store)
    ensures AddNewClientPortfolio(st, stocks, supported).value.store.nextId > st.nextId
  {
    var after := AddNewClientPortfolio(st, stocks, supported).value.store;
    assert after.clients == st.clients[st.nextId := Tag(stocks.value, st.nextId)];
  }

  /** Replacing a portfolio keeps the store's invariant. */
  lemma ReplaceKeepsStoreValid(st: Store, clientId: Option<int>, stocks: Option<seq<Stock>>,
                               supported: Source<string>)
    requires Valid(st)
    requires ReplaceClientPortfolio(st, clientId, stocks, supported).Ok?
    ensures Valid(ReplaceClientPortfolio(st, clientId, stocks, supported).value)
  {
  }

  /** Tagging stocks with an owner does not change what they are worth. */
  lemma {:induction false} WorthIgnoresOwner(stocks: seq<Stock>, id: int, rows: seq<PriceRow>)
    ensures Worth(Tag(stocks, id), rows) == Worth(stocks, rows)
  {
    if |stocks| > 0 {
      WorthIgnoresOwner(stocks[1..], id, rows);
      assert Tag(stocks, id)[1..] == Tag(stocks[1..], id);
    }
  }

  /** After a successful replace, the client's value is the worth of the
      new list alone, whatever the client held before. */
  lemma ReplaceThenValue(st: Store, id: int, stocks: seq<Stock>, supported: Source<string>,
                         rows: seq<PriceRow>)
    requires ReplaceClientPortfolio(st, Some(id), Some(stocks), supported).Ok?
    ensures GetPortfolioValue(ReplaceClientPortfolio(st, Some(id), Some(stocks), supported).value,
                              Some(id), Clean(rows)) == Ok(Worth(stocks, rows))
  {
    var after := ReplaceClientPortfolio(st, Some(id), Some(stocks), supported).value;
    assert Holdings(after, id) == Tag(stocks, id);
    WorthIgnoresOwner(stocks, id, rows);
  }

  /** A new client owning at least two stocks is worth exactly those stocks. */
  lemma AddThenValue(st: Store, stocks: seq<Stock>, supported: Source<string>, rows: seq<PriceRow>)
    requires AddNewClientPortfolio(st, Some(stocks), supported).Ok?
    requires |stocks| >= 2
    ensures var c := AddNewClientPortfolio(st, Some(stocks), supported).value;
      GetPortfolioValue(c.store, Some(c.clientId), Clean(rows)) ==
        (if c.clientId > 0 then Ok(Worth(stocks, rows)) else Err(BadArgument(InvalidClientId(Some(c.clientId)))))
  {
    var c := AddNewClientPortfolio(st, Some(stocks), supported).value;
    assert Holdings(c.store, c.clientId) == Tag(stocks, c.clientId);
    WorthIgnoresOwner(stocks, c.clientId, rows);
  }

  /** A second replace overwrites the first entirely. */
  lemma ReplaceTwiceKeepsLast(st: Store, id: int, a: seq<Stock>, b: seq<Stock>, supported: Source<string>)
    requires ReplaceClientPortfolio(st, Some(id), Some(a), supported).Ok?
    requires ReplaceClientPortfolio(st, Some(id), Some(b), supported).Ok?
    ensures ReplaceClientPortfolio(ReplaceClientPortfolio(st, Some(id), Some(a), supported).value,
                                   Some(id), Some(b), supported)
            == ReplaceClientPortfolio(st, Some(id), Some(b), supported)
  {
    var mid := ReplaceClientPortfolio(st, Some(id), Some(a), supported).value;
    assert mid.clients[id := Tag(b, id)] == st.clients[id := Tag(b, id)];
  }

  /** Rows after the first row that closes the symbol's first block are
      never read: later blocks for the same symbol, and read errors past
      that point, change nothing. */
  lemma LaterRowsNeverRead(pre: seq<PriceRow>, run: seq<PriceRow>, next: PriceRow, rest: seq<PriceRow>,
                           symbol: string, readFails: bool)
    requires forall k :: 0 <= k < |pre| ==> pre[k].symbol != symbol
    requires |run| > 0 && forall k :: 0 <= k < |run| ==> run[k].symbol == symbol
    requires next.symbol != symbol
    ensures GetStockLastValue(Readable(pre + run + [next] + rest, readFails, false), symbol)
            == Ok(run[|run| - 1].value)
  {
    var rows := pre + run + [next] + rest;
    var f := FirstRow(rows, symbol, 0);
    assert rows[|pre|] == run[0];
    assert f == |pre|;
    var j := RunEnd(rows, symbol, f);
    assert forall k :: 0 <= k < |run| ==> rows[|pre| + k] == run[k];
    assert rows[|pre| + |run|] == next;
    assert j == |pre| + |run|;
  }

  /** A symbol whose first block runs to the end of the file is quoted at
      0.0, however many rows it has. */
  lemma RunToEndQuotedZero(pre: seq<PriceRow>, run: seq<PriceRow>, symbol: string)
    requires forall k :: 0 <= k < |pre| ==> pre[k].symbol != symbol
    requires forall k :: 0 <= k < |run| ==> run[k].symbol == symbol
    ensures GetStockLastValue(Clean(pre + run), symbol) == Ok(0.0)
  {
    var rows := pre + run;
    var f := FirstRow(rows, symbol, 0);
    if f < |rows| {
      assert f >= |pre|;
      assert forall k :: f <= k < |rows| ==> rows[k].symbol == symbol;
    }
  }

  /** A worked case. With the rows AAA 10, AAA 8, AAA 9, BBB 5, BBB 6, the
      quote for AAA is 9 (the last row of its block) and the quote for BBB
      is 0.0 (its block reaches the end), so a client holding two AAA and
      one BBB is worth 18. */
  lemma ValuationExample()
    ensures var rows := [PriceRow("AAA", 10.0), PriceRow("AAA", 8.0), PriceRow("AAA", 9.0),
                         PriceRow("BBB", 5.0), PriceRow("BBB", 6.0)];
            var st := Store(map[1 := [Stock(1, "AAA", 2, 1), Stock(2, "BBB", 1, 1)]], 2);
            GetPortfolioValue(st, Some(1), Clean(rows)) == Ok(18.0)
  {
    var rows := [PriceRow("AAA", 10.0), PriceRow("AAA", 8.0), PriceRow("AAA", 9.0),
                 PriceRow("BBB", 5.0), PriceRow("BBB", 6.0)];
    LaterRowsNeverRead([], rows[..3], rows[3], rows[4..], "AAA", false);
    assert rows == [] + rows[..3] + [rows[3]] + rows[4..];
    RunToEndQuotedZero(rows[..3], rows[3..], "BBB");
    assert rows == rows[..3] + rows[3..];
    assert QuotedPrice(rows, "AAA") == 9.0;
    assert QuotedPrice(rows, "BBB") == 0.0;
  }

  /** A read error after every holding's first block has closed is never
      reached: with rows AAA 3, BBB 5, CCC 1 and a failing final read, two
      AAA and one BBB are still worth 11. */
  lemma ValueDespiteFailingRead()
    ensures var rows := [PriceRow("AAA", 3.0), PriceRow("BBB", 5.0), PriceRow("CCC", 1.0)];
            var st := Store(map[1 := [Stock(1, "AAA", 2, 1), Stock(2, "BBB", 1, 1)]], 2);
            GetPortfolioValue(st, Some(1), Readable(rows, true, false)) == Ok(11.0)
  {
    var rows := [PriceRow("AAA", 3.0), PriceRow("BBB", 5.0), PriceRow("CCC", 1.0)];
    LaterRowsNeverRead([], rows[..1], rows[1], rows[2..], "AAA", true);
    assert rows == [] + rows[..1] + [rows[1]] + rows[2..];
    LaterRowsNeverRead(rows[..1], rows[1..2], rows[2], [], "BBB", true);
    assert rows == rows[..1] + rows[1..2] + [rows[2]] + [];
    assert QuotedPrice(rows, "AAA") == 3.0;
    assert QuotedPrice(rows, "BBB") == 5.0;
  }
}
