/** The `Stock` entity: one holding of a client, stored in the STOCKS table. */
module Stocks {
  import opened JavaText

  /** A holding. The generated row id, the ticker symbol, the number of
      shares and the owning client's id, as the entity's four columns. */
  datatype Stock = Stock(stockId: int, stockSymbol: string, stockAmount: int, clientId: int)

  /** The constraints the entity declares on its columns: a symbol of two
      to six characters matching ^[A-Z]*$, and an amount of at least one. */
  predicate WellFormed(s: Stock): (r: bool)
    ensures r <==> && 2 <= |s.stockSymbol| <= 6
                   && (forall i :: 0 <= i < |s.stockSymbol| ==> IsUpperLetter(s.stockSymbol[i]))
                   && s.stockAmount >= 1
  {
    && 2 <= |s.stockSymbol| <= 6
    && MatchesUpperPattern(s.stockSymbol)
    && s.stockAmount >= 1
  }

  /** The `Stock(symbol)` constructor: every other column keeps Java's
      default of zero, so the new stock is never well-formed until an
      amount is set. */
  function NewStock(symbol: string): (s: Stock)
    ensures s.stockSymbol == symbol
    ensures s.stockId == 0 && s.stockAmount == 0 && s.clientId == 0
    ensures !WellFormed(s)
  {
    Stock(0, symbol, 0, 0)
  }

  function SetStockId(s: Stock, stockId: int): (r: Stock)
    ensures r.stockId == stockId
    ensures r.stockSymbol == s.stockSymbol && r.stockAmount == s.stockAmount && r.clientId == s.clientId
  {
    s.(stockId := stockId)
  }

  function SetStockSymbol(s: Stock, stockSymbol: string): (r: Stock)
    ensures r.stockSymbol == stockSymbol
    ensures r.stockId == s.stockId && r.stockAmount == s.stockAmount && r.clientId == s.clientId
  {
    s.(stockSymbol := stockSymbol)
  }

  function SetStockAmount(s: Stock, stockAmount: int): (r: Stock)
    ensures r.stockAmount == stockAmount
    ensures r.stockId == s.stockId && r.stockSymbol == s.stockSymbol && r.clientId == s.clientId
  {
    s.(stockAmount := stockAmount)
  }

  function SetClientId(s: Stock, clientId: int): (r: Stock)
    ensures r.clientId == clientId
    ensures r.stockId == s.stockId && r.stockSymbol == s.stockSymbol && r.stockAmount == s.stockAmount
  {
    s.(clientId := clientId)
  }

  /** A Java reference as `equals(Object)` receives it: null, a `Stock`
      object at some address, or an object of another class. */
  datatype Ref = Null | StockRef(address: nat, stock: Stock) | OtherRef(address: nat)

  /** Two references to one address see one object. */
  predicate SameHeap(a: Ref, b: Ref) {
    a.StockRef? && b.StockRef? && a.address == b.address ==> a.stock == b.stock
  }

  /** `Stock.equals`: true for the very same object, false for anything
      that is not a Stock, and otherwise decided by the symbols alone. */
  function Equals(self: Ref, o: Ref): (r: bool)
    requires self.StockRef?
    ensures r <==> o.StockRef? && (o.address == self.address || o.stock.stockSymbol == self.stock.stockSymbol)
  {
    if o.StockRef? && o.address == self.address then true
    else if !o.StockRef? then false
    else o.stock.stockSymbol == self.stock.stockSymbol
  }

  /** An object equals itself. */
  lemma EqualsReflexive(x: Ref)
    requires x.StockRef?
    ensures Equals(x, x)
  {
  }

  /** No stock equals null or an object of another class. */
  lemma EqualsOnlyStocks(x: Ref, o: Ref)
    requires x.StockRef? && !o.StockRef?
    ensures !Equals(x, o)
  {
  }

  /** The identity shortcut never changes the answer: two stocks are equal
      exactly when their symbols are, whatever their ids, amounts and
      owners. */
  lemma EqualsIffSameSymbol(x: Ref, y: Ref)
    requires x.StockRef? && y.StockRef? && SameHeap(x, y)
    ensures Equals(x, y) <==> x.stock.stockSymbol == y.stock.stockSymbol
  {
  }

  lemma EqualsSymmetric(x: Ref, y: Ref)
    requires x.StockRef? && y.StockRef? && SameHeap(x, y)
    ensures Equals(x, y) <==> Equals(y, x)
  {
  }

  lemma EqualsTransitive(x: Ref, y: Ref, z: Ref)
    requires x.StockRef? && y.StockRef? && z.StockRef?
    requires SameHeap(x, y) && SameHeap(y, z) && SameHeap(x, z)
    requires Equals(x, y) && Equals(y, z)
    ensures Equals(x, z)
  {
  }
}
