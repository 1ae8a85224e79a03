/** `PortfolioValidator`: the fail-fast rule checker run over a proposed
    list of stocks before it is stored. */
module Validator {
  import opened Outcomes
  import opened Files
  import opened JavaText
  import opened Stocks

  /** `validateAmount`. */
  function CheckAmount(s: Stock): (r: Outcome)
    ensures r.Pass? <==> s.stockAmount >= 1
    ensures r.Fail? ==> r.error == BadArgument(InvalidAmount(s.stockSymbol, s.stockAmount))
  {
    if s.stockAmount < 1 then Fail(BadArgument(InvalidAmount(s.stockSymbol, s.stockAmount)))
    else Pass
  }

  /** `validateSymbolPattern`. */
  function CheckSymbolPattern(s: Stock): (r: Outcome)
    ensures r.Pass? <==> forall i :: 0 <= i < |s.stockSymbol| ==> IsUpperLetter(s.stockSymbol[i])
    ensures r.Fail? ==> r.error == BadArgument(InvalidSymbol(s.stockSymbol))
  {
    if !MatchesUpperPattern(s.stockSymbol) then Fail(BadArgument(InvalidSymbol(s.stockSymbol)))
    else Pass
  }

  /** What happens when the supported-symbols file is read to its end. */
  function EndOfFile(readFails: bool): Outcome {
    if readFails then Fail(InternalServerError) else Pass
  }

  /** The line loop of `validateStockInFile`. `found` is never reset, and
      the loop throws after the first line that has not (yet) shown the
      symbol; so once the first line names the symbol every later line is
      read without effect. */
  function ScanSupportLines(lines: seq<string>, symbol: string, found: bool, readFails: bool): (r: Outcome)
    decreases |lines|
    ensures found ==> r == EndOfFile(readFails)
    ensures !found && |lines| == 0 ==> r == EndOfFile(readFails)
    ensures !found && |lines| > 0 ==>
      r == (if symbol in Split(lines[0]) then EndOfFile(readFails)
            else Fail(BadArgument(Unsupported(symbol))))
  {
    if |lines| == 0 then EndOfFile(readFails)
    else
      var foundNow := found || symbol in Split(lines[0]);
      if !foundNow then Fail(BadArgument(Unsupported(symbol)))
      else ScanSupportLines(lines[1..], symbol, foundNow, readFails)
  }

  /** The symbol counts as supported: the file is read without an I/O
      error and either has no lines or names the symbol on its FIRST line;
      later lines are never consulted. */
  predicate SupportedBy(file: Source<string>, symbol: string) {
    && file.Readable? && !file.readFails && !file.closeFails
    && (|file.items| == 0 || symbol in Split(file.items[0]))
  }

  /** `validateStockInFile`: an I/O failure opening, reading or closing the
      file is an InternalServerError; a failed close overrides whatever the
      read produced, as Java's `finally` does. */
  function CheckSupported(file: Source<string>, symbol: string): (r: Outcome)
    ensures r.Pass? <==> SupportedBy(file, symbol)
    ensures r.Fail? ==> r.error == InternalServerError || r.error == BadArgument(Unsupported(symbol))
    ensures r == Fail(BadArgument(Unsupported(symbol))) <==>
      file.Readable? && !file.closeFails && |file.items| > 0 && symbol !in Split(file.items[0])
  {
    match file
    case Unreadable => Fail(InternalServerError)
    case Readable(lines, readFails, closeFails) =>
      var scanned := ScanSupportLines(lines, symbol, false, readFails);
      if closeFails then Fail(InternalServerError) else scanned
  }

  /** The three per-stock checks in the order the source runs them:
      amount, then pattern, then support. */
  function CheckEntry(s: Stock, file: Source<string>): (r: Outcome)
    ensures s.stockAmount < 1 ==> r == Fail(BadArgument(InvalidAmount(s.stockSymbol, s.stockAmount)))
    ensures s.stockAmount >= 1 && !MatchesUpperPattern(s.stockSymbol) ==>
      r == Fail(BadArgument(InvalidSymbol(s.stockSymbol)))
    ensures s.stockAmount >= 1 && MatchesUpperPattern(s.stockSymbol) ==>
      r == CheckSupported(file, s.stockSymbol)
    ensures r.Pass? <==>
      s.stockAmount >= 1 && MatchesUpperPattern(s.stockSymbol) && SupportedBy(file, s.stockSymbol)
  {
    match CheckAmount(s)
    case Fail(e) => Fail(e)
    case Pass =>
      match CheckSymbolPattern(s)
      case Fail(e) => Fail(e)
      case Pass => CheckSupported(file, s.stockSymbol)
  }

  /** The `forEach` over the list from index `i`: stops at the first entry
      that fails one of its checks. */
  function CheckEachFrom(stocks: seq<Stock>, file: Source<string>, i: nat): (r: Outcome)
    decreases |stocks| - i
    ensures r.Pass? <==> forall k :: i <= k < |stocks| ==> CheckEntry(stocks[k], file).Pass?
    ensures r.Fail? ==> exists k :: i <= k < |stocks| && r == CheckEntry(stocks[k], file)
                                    && forall m :: i <= m < k ==> CheckEntry(stocks[m], file).Pass?
  {
    if i >= |stocks| then Pass
    else
      match CheckEntry(stocks[i], file)
      case Fail(e) => Fail(e)
      case Pass => CheckEachFrom(stocks, file, i + 1)
  }

  /** Two entries share a symbol. */
  predicate HasRepeat(stocks: seq<Stock>) {
    exists p, q :: 0 <= p < q < |stocks| && stocks[p].stockSymbol == stocks[q].stockSymbol
  }

  /** `i` is the smallest index whose symbol appears again later. */
  predicate FirstRepeat(stocks: seq<Stock>, i: int) {
    && 0 <= i < |stocks|
    && (exists q :: i < q < |stocks| && stocks[q].stockSymbol == stocks[i].stockSymbol)
    && forall p, q :: 0 <= p < i && p < q < |stocks| ==> stocks[p].stockSymbol != stocks[q].stockSymbol
  }

  /** The inner loop of `validateRepeatingStocks`: does the symbol at `i`
      appear at some index from `j` on? */
  function RecursFrom(stocks: seq<Stock>, i: nat, j: nat): (r: bool)
    requires i < |stocks|
    decreases |stocks| - j
    ensures r <==> exists q :: j <= q < |stocks| && stocks[q].stockSymbol == stocks[i].stockSymbol
  {
    if j >= |stocks| then false
    else stocks[j].stockSymbol == stocks[i].stockSymbol || RecursFrom(stocks, i, j + 1)
  }

  /** The outer loop of `validateRepeatingStocks`, from index `i`: the first
      index whose symbol appears again later, if any. */
  function FirstRepeatFrom(stocks: seq<Stock>, i: nat): (r: Option<nat>)
    decreases |stocks| - i
    ensures r.None? <==>
      forall p, q :: i <= p < q < |stocks| ==> stocks[p].stockSymbol != stocks[q].stockSymbol
    ensures r.Some? ==>
      && i <= r.value < |stocks|
      && (exists q :: r.value < q < |stocks| && stocks[q].stockSymbol == stocks[r.value].stockSymbol)
      && forall p, q :: i <= p < r.value && p < q < |stocks| ==> stocks[p].stockSymbol != stocks[q].stockSymbol
  {
    if i >= |stocks| then None
    else if RecursFrom(stocks, i, i + 1) then Some(i)
    else FirstRepeatFrom(stocks, i + 1)
  }

  /** `validateRepeatingStocks`: rejects exactly the lists with a repeated
      symbol, naming the symbol at the smallest index that recurs. */
  function CheckRepeating(stocks: seq<Stock>): (r: Outcome)
    ensures r.Pass? <==> !HasRepeat(stocks)
    ensures r.Fail? ==> exists i :: FirstRepeat(stocks, i) && r.error == BadArgument(Repeated(stocks[i].stockSymbol))
  {
    match FirstRepeatFrom(stocks, 0)
    case None => Pass
    case Some(i) => Fail(BadArgument(Repeated(stocks[i].stockSymbol)))
  }

  /** `validatePortfolio`: every entry passes its three checks and no symbol
      repeats. The first failing entry's error wins, and the repeat check
      runs only once every entry has passed. */
  function ValidatePortfolio(stocks: seq<Stock>, file: Source<string>): (r: Outcome)
    ensures r.Pass? <==>
      (forall k :: 0 <= k < |stocks| ==> CheckEntry(stocks[k], file).Pass?) && !HasRepeat(stocks)
    ensures forall k :: 0 <= k < |stocks| && CheckEntry(stocks[k], file).Fail?
                        && (forall m :: 0 <= m < k ==> CheckEntry(stocks[m], file).Pass?) ==>
      r == CheckEntry(stocks[k], file)
    ensures (forall k :: 0 <= k < |stocks| ==> CheckEntry(stocks[k], file).Pass?) && r.Fail? ==>
      exists i :: FirstRepeat(stocks, i) && r.error == BadArgument(Repeated(stocks[i].stockSymbol))
  {
    match CheckEachFrom(stocks, file, 0)
    case Fail(e) => Fail(e)
    case Pass => CheckRepeating(stocks)
  }

  /** Two indices holding one value make it occur at least twice. */
  lemma TwoIndicesCount<T>(s: seq<T>, p: nat, q: nat)
    requires p < q < |s| && s[p] == s[q]
    ensures multiset(s)[s[p]] >= 2
  {
    assert s == s[..q] + s[q..];
    assert s[p] in s[..q];
    assert s[q] in s[q..];
    assert multiset(s) == multiset(s[..q]) + multiset(s[q..]);
  }

  /** A value that occurs twice sits at two indices. */
  lemma {:induction false} CountTwoIndices<T>(s: seq<T>, x: T)
    requires multiset(s)[x] >= 2
    ensures exists p, q :: 0 <= p < q < |s| && s[p] == x && s[q] == x
  {
    assert s == [s[0]] + s[1..];
    assert multiset(s) == multiset{s[0]} + multiset(s[1..]);
    if s[0] == x {
      assert x in multiset(s[1..]);
      var q :| 0 <= q < |s[1..]| && s[1..][q] == x;
      assert s[q + 1] == x;
    } else {
      CountTwoIndices(s[1..], x);
      var p, q :| 0 <= p < q < |s[1..]| && s[1..][p] == x && s[1..][q] == x;
      assert s[p + 1] == x && s[q + 1] == x;
    }
  }

  /** A repeated symbol survives any reordering of the list. */
  lemma RepeatSurvivesReorder(a: seq<Stock>, b: seq<Stock>)
    requires multiset(a) == multiset(b)
    requires HasRepeat(a)
    ensures HasRepeat(b)
  {
    var p, q :| 0 <= p < q < |a| && a[p].stockSymbol == a[q].stockSymbol;
    var x, y := a[p], a[q];
    if x == y {
      TwoIndicesCount(a, p, q);
      CountTwoIndices(b, x);
      var p', q' :| 0 <= p' < q' < |b| && b[p'] == x && b[q'] == x;
      assert b[p'].stockSymbol == b[q'].stockSymbol;
    } else {
      assert x in multiset(b) && y in multiset(b);
      var i :| 0 <= i < |b| && b[i] == x;
      var j :| 0 <= j < |b| && b[j] == y;
      if i < j {
        assert b[i].stockSymbol == b[j].stockSymbol;
      } else {
        assert b[j].stockSymbol == b[i].stockSymbol;
      }
    }
  }

  /** Whether a list is accepted does not depend on the order of its
      entries; only which error is reported may. */
  lemma ValidationIgnoresOrder(a: seq<Stock>, b: seq<Stock>, file: Source<string>)
    requires multiset(a) == multiset(b)
    ensures ValidatePortfolio(a, file).Pass? <==> ValidatePortfolio(b, file).Pass?
  {
    if HasRepeat(a) { RepeatSurvivesReorder(a, b); }
    if HasRepeat(b) { RepeatSurvivesReorder(b, a); }
    if forall k :: 0 <= k < |a| ==> CheckEntry(a[k], file).Pass? {
      forall k | 0 <= k < |b| ensures CheckEntry(b[k], file).Pass? {
        assert b[k] in multiset(a);
      }
    }
    if forall k :: 0 <= k < |b| ==> CheckEntry(b[k], file).Pass? {
      forall k | 0 <= k < |a| ensures CheckEntry(a[k], file).Pass? {
        assert a[k] in multiset(b);
      }
    }
  }

  /** A well-formed stock passes the amount and pattern checks, so only
      the supported-symbols file can reject it. */
  lemma WellFormedMeetsLocalRules(s: Stock, file: Source<string>)
    requires WellFormed(s)
    ensures CheckEntry(s, file).Pass? <==> SupportedBy(file, s.stockSymbol)
  {
  }

  /** The validator is weaker than the entity's declared constraints: it
      never checks the symbol's length, so with an empty supported-symbols
      file it accepts the empty symbol and a seven-letter one. */
  lemma ValidatorIgnoresLength()
    ensures ValidatePortfolio([Stock(0, "", 1, 0)], Clean([])).Pass?
    ensures ValidatePortfolio([Stock(0, "ABCDEFG", 1, 0)], Clean([])).Pass?
    ensures !WellFormed(Stock(0, "", 1, 0)) && !WellFormed(Stock(0, "ABCDEFG", 1, 0))
  {
    assert !HasRepeat([Stock(0, "", 1, 0)]);
    assert !HasRepeat([Stock(0, "ABCDEFG", 1, 0)]);
    assert MatchesUpperPattern("ABCDEFG");
  }

  /** Only the first line of the supported-symbols file is consulted: a
      symbol listed on the second line alone is refused. */
  lemma SecondLineNeverConsulted()
    ensures CheckSupported(Clean(["AAA", "BBB"]), "BBB") == Fail(BadArgument(Unsupported("BBB")))
    ensures CheckSupported(Clean(["AAA", "BBB"]), "AAA") == Pass
  {
    assert "BBB" !in Split("AAA");
  }
}
