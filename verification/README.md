# Stock portfolio manager — a Dafny model of its business core

The system keeps, for each client, a portfolio of stock holdings: a ticker
symbol and an amount per holding. It can create a client with a new
portfolio, replace a client's portfolio, and value a portfolio against a
price history file. This project models that business core as immutable
datatypes and pure functions, and proves what those functions guarantee.
It covers three parts of the source:

- `PortfolioValidator`: the fail-fast checks on a proposed list of
  stocks. Each entry is checked for amount, then pattern, then support
  against a comma-separated supported-symbols file. After that comes a
  check for repeated symbols.
- `PortfolioService`: create, replace and value, as transitions over an
  abstract store. The store maps each client id to its stocks and holds
  the next generated id. The last-price lookup scans the price rows.
- `Stock`: the holding entity, with its declared constraints, its
  constructor and setters, and its symbol-only `equals`.

Modules: `Outcomes` holds the three exceptions as an `Error` value, with
`Result` and `Outcome`. `Files` holds `Source`, what one read of an
external file delivers, including open, read and close failures.
`JavaText` holds `String.split(",")` and `String.matches("^[A-Z]*$")`.
`Stocks`, `Validator` and `Service` follow the three source files. A
service operation refused for a bad argument, an unknown client or a failed
validation returns only its error and no store. Such a refusal leaves the
store unchanged by construction.

The model follows the code as written, including its quirks:

- Support is decided by the first line of the supported-symbols file
  alone. An empty file supports every symbol.
- The empty symbol matches `^[A-Z]*$`, and the validator never checks the
  2–6 length the entity declares.
- `replaceClientPortfolio` rejects a one-stock list.
- `getPortfolioValue` returns 0.0 for a client with fewer than two
  stocks, without reading the price file.
- `getStockLastValue` quotes the last row of the symbol's FIRST block of
  rows, and only once a row for another symbol follows. A symbol that is
  absent, or whose first block reaches the end of the file, is quoted at
  0.0.

The code has no partial update, no windowed price history and no ranking of
symbols. The validator has no separate rule set for existing portfolios.

## Model

| member | source | states |
|---|---|---|
| JavaText.MatchesUpperPattern | src/main/java/com/fyber/junior/developer/assignment/stock/business/validator/PortfolioValidator.java:49 | The full-match pattern ^[A-Z]*$ accepts exactly the strings made only of A–Z, the empty string included. Any other character rejects the string. |
| JavaText.Fields | src/main/java/com/fyber/junior/developer/assignment/stock/business/validator/PortfolioValidator.java:70 | Splitting at commas gives at least one field, and no field contains a comma. |
| JavaText.DropTrailingEmpty | src/main/java/com/fyber/junior/developer/assignment/stock/business/validator/PortfolioValidator.java:70 | `split` drops trailing empty fields. The result is a prefix of the fields that ends in a non-empty field, and everything dropped is empty. |
| JavaText.Split | src/main/java/com/fyber/junior/developer/assignment/stock/business/validator/PortfolioValidator.java:70 | A line without a comma is one token, the empty line included. Otherwise the tokens are the comma-separated fields with only the trailing empty ones dropped. No token contains a comma. |
| JavaText.JoinFields | src/main/java/com/fyber/junior/developer/assignment/stock/business/validator/PortfolioValidator.java:70 | Rejoining the comma-separated fields with commas gives back the original line. |
| JavaText.FieldsJoin | src/main/java/com/fyber/junior/developer/assignment/stock/business/validator/PortfolioValidator.java:70 | Joining comma-free fields with commas, then splitting, gives back the fields. This is the other half of the round trip. |
| JavaText.SplitTokenIsField | src/main/java/com/fyber/junior/developer/assignment/stock/business/validator/PortfolioValidator.java:70-80 | A non-empty symbol is a token of `split(",")` exactly when it is a whole comma-separated field. There are no partial matches. |
| JavaText.SplitOfJoin | src/main/java/com/fyber/junior/developer/assignment/stock/business/validator/PortfolioValidator.java:70-80 | For a line listing comma-free symbols, a non-empty symbol is a token exactly when it is in the list. |
| Stocks.NewStock | src/main/java/com/fyber/junior/developer/assignment/stock/model/entity/Stock.java:18-20 | `Stock(symbol)` sets only the symbol. Id, amount and client id stay 0, so the new stock violates the declared constraints (amount ≥ 1). |
| Stocks.WellFormed | src/main/java/com/fyber/junior/developer/assignment/stock/model/entity/Stock.java:27-36 | The declared constraints hold iff the symbol has 2 to 6 characters, all in A–Z, and the amount is at least 1. |
| Stocks.SetStockId | src/main/java/com/fyber/junior/developer/assignment/stock/model/entity/Stock.java:65-68 | The setter changes the stock id and leaves every other field as it was. |
| Stocks.SetStockSymbol | src/main/java/com/fyber/junior/developer/assignment/stock/model/entity/Stock.java:75-78 | The setter changes the symbol and leaves every other field as it was. |
| Stocks.SetStockAmount | src/main/java/com/fyber/junior/developer/assignment/stock/model/entity/Stock.java:85-88 | The setter changes the amount and leaves every other field as it was. |
| Stocks.SetClientId | src/main/java/com/fyber/junior/developer/assignment/stock/model/entity/Stock.java:95-98 | The setter changes the client id and leaves every other field as it was. |
| Stocks.Equals | src/main/java/com/fyber/junior/developer/assignment/stock/model/entity/Stock.java:42-58 | `equals` is true iff the argument is a Stock and is either the same object or has the same symbol. |
| Stocks.EqualsReflexive | src/main/java/com/fyber/junior/developer/assignment/stock/model/entity/Stock.java:45-47 | A stock equals itself. |
| Stocks.EqualsOnlyStocks | src/main/java/com/fyber/junior/developer/assignment/stock/model/entity/Stock.java:50-52 | A stock never equals null or an object of another class. |
| Stocks.EqualsIffSameSymbol | src/main/java/com/fyber/junior/developer/assignment/stock/model/entity/Stock.java:44-57 | Two stocks are equal iff their symbols are equal. Id, amount and owner are ignored, and the identity shortcut never changes the answer. |
| Stocks.EqualsSymmetric | src/main/java/com/fyber/junior/developer/assignment/stock/model/entity/Stock.java:57 | `equals` is symmetric on stocks. |
| Stocks.EqualsTransitive | src/main/java/com/fyber/junior/developer/assignment/stock/model/entity/Stock.java:57 | `equals` is transitive on stocks. |
| Validator.ScanSupportLines | src/main/java/com/fyber/junior/developer/assignment/stock/business/validator/PortfolioValidator.java:67-84 | Once the symbol has been found, every later line is read without effect, up to the end of the file or a read error. The first line alone decides between acceptance and rejection. |
| Validator.CheckSupported | src/main/java/com/fyber/junior/developer/assignment/stock/business/validator/PortfolioValidator.java:59-96 | A symbol passes iff the file reads cleanly and either has no lines or lists the symbol on its first line. It is refused as unsupported iff the first line lacks it and the close succeeds. Every other failure is an InternalServerError. |
| Validator.SecondLineNeverConsulted | src/main/java/com/fyber/junior/developer/assignment/stock/business/validator/PortfolioValidator.java:67-84 | A symbol listed only on the second line is refused. A symbol on the first line is accepted. |
| Validator.CheckAmount | src/main/java/com/fyber/junior/developer/assignment/stock/business/validator/PortfolioValidator.java:37-42 | Passes iff the amount is at least 1. Otherwise the error is a bad argument naming the symbol and the amount. |
| Validator.CheckSymbolPattern | src/main/java/com/fyber/junior/developer/assignment/stock/business/validator/PortfolioValidator.java:48-52 | Passes iff every character of the symbol is in A–Z, so the empty symbol passes. Otherwise the error is a bad argument naming the symbol. |
| Validator.CheckEntry | src/main/java/com/fyber/junior/developer/assignment/stock/business/validator/PortfolioValidator.java:24-52 | An amount below 1 is rejected first, naming symbol and amount. A symbol not matching the pattern is rejected next. After both pass, the result is exactly the support check's, error included. The entry passes iff amount ≥ 1, the pattern matches and the file supports the symbol. |
| Validator.CheckEachFrom | src/main/java/com/fyber/junior/developer/assignment/stock/business/validator/PortfolioValidator.java:24-28 | Passes iff every entry passes. Otherwise the reported error is the first failing entry's error, and all earlier entries passed. |
| Validator.RecursFrom | src/main/java/com/fyber/junior/developer/assignment/stock/business/validator/PortfolioValidator.java:105-111 | The inner loop is true iff the symbol at i appears again at some index from j on. |
| Validator.FirstRepeatFrom | src/main/java/com/fyber/junior/developer/assignment/stock/business/validator/PortfolioValidator.java:104-111 | The outer loop finds nothing iff no two entries from i on share a symbol. Otherwise it finds the smallest index whose symbol recurs later. |
| Validator.CheckRepeating | src/main/java/com/fyber/junior/developer/assignment/stock/business/validator/PortfolioValidator.java:102-112 | Rejects iff some i < j share a symbol. The reported symbol is the one at the smallest such i. |
| Validator.ValidatePortfolio | src/main/java/com/fyber/junior/developer/assignment/stock/business/validator/PortfolioValidator.java:23-31 | Accepts iff every entry passes its three checks and no symbol repeats. The first failing entry's error wins. The repeat check is reported only when all entries pass. |
| Validator.ValidationIgnoresOrder | src/main/java/com/fyber/junior/developer/assignment/stock/business/validator/PortfolioValidator.java:23-31 | Whether a list is accepted does not depend on the order of its entries. Any permutation gets the same verdict. |
| Validator.RepeatSurvivesReorder | src/main/java/com/fyber/junior/developer/assignment/stock/business/validator/PortfolioValidator.java:104-111 | A repeated symbol stays repeated under any permutation of the list. |
| Validator.WellFormedMeetsLocalRules | src/main/java/com/fyber/junior/developer/assignment/stock/model/entity/Stock.java:27-36 | A stock meeting the declared constraints passes the amount and pattern checks. Only the supported-symbols file can then reject it. |
| Validator.ValidatorIgnoresLength | src/main/java/com/fyber/junior/developer/assignment/stock/business/validator/PortfolioValidator.java:23-52 | The validator accepts the empty symbol and a seven-letter symbol, both of which violate the entity's declared 2–6 length. |
| Service.AddNewClientPortfolio | src/main/java/com/fyber/junior/developer/assignment/stock/business/services/PortfolioService.java:47-66 | A missing or empty list is a bad argument. Otherwise creation succeeds iff validation passes, and its error is the validator's. On success a new id is added and other clients are untouched. The new client owns exactly the listed stocks, each tagged with that id. The new id is positive and fresh in a valid store. |
| Service.Holdings | src/main/java/com/fyber/junior/developer/assignment/stock/business/services/PortfolioService.java:118 | `findByClientId` returns no stocks for an unknown client. In a valid store, every stock it returns is tagged with the client's id. |
| Service.Tag | src/main/java/com/fyber/junior/developer/assignment/stock/business/services/PortfolioService.java:60 | Tagging keeps the length, id, symbol and amount of every stock, and gives each stock the client's id. |
| Service.ReplaceClientPortfolio | src/main/java/com/fyber/junior/developer/assignment/stock/business/services/PortfolioService.java:68-103 | Errors come in order: bad id, then unknown client, then a missing list or one with at most one stock, then validation. On success the client's stocks are exactly the new list, tagged with its id. All other clients and the id counter are unchanged. |
| Service.ScanRows | src/main/java/com/fyber/junior/developer/assignment/stock/business/services/PortfolioService.java:158-176 | The row loop reaches the end of the file if no row for the symbol is left and none was seen. Any value it returns is either the value already held or the value of a row for the symbol. |
| Service.FirstRow | src/main/java/com/fyber/junior/developer/assignment/stock/business/services/PortfolioService.java:158-170 | Finds the first row for the symbol: every earlier row is for another symbol. |
| Service.RunEnd | src/main/java/com/fyber/junior/developer/assignment/stock/business/services/PortfolioService.java:158-175 | Finds the end of a block: every row in between is for the symbol, and the row at the end is not. |
| Service.ScanInRun | src/main/java/com/fyber/junior/developer/assignment/stock/business/services/PortfolioService.java:158-175 | Inside a block for the symbol, the row loop returns the block's last value iff a row for another symbol follows. |
| Service.ScanBeforeRun | src/main/java/com/fyber/junior/developer/assignment/stock/business/services/PortfolioService.java:158-175 | Before the symbol's first row, the row loop only skips ahead to it. |
| Service.ScanFindsFirstRun | src/main/java/com/fyber/junior/developer/assignment/stock/business/services/PortfolioService.java:158-175 | The row loop returns iff the symbol's first block is followed by another symbol's row. It then returns that block's last value. |
| Service.GetStockLastValue | src/main/java/com/fyber/junior/developer/assignment/stock/business/services/PortfolioService.java:149-189 | Open or close failure gives InternalServerError. A closed first block is quoted at its last row's value. Otherwise the result is 0.0, or InternalServerError if the final read fails. |
| Service.LaterRowsNeverRead | src/main/java/com/fyber/junior/developer/assignment/stock/business/services/PortfolioService.java:172-175 | Rows after the one that closes the first block are never read. Later blocks for the same symbol and later read errors change nothing. |
| Service.RunToEndQuotedZero | src/main/java/com/fyber/junior/developer/assignment/stock/business/services/PortfolioService.java:158-188 | A symbol whose first block runs to the end of the file is quoted at 0.0. |
| Service.SuccessfulLookupIsQuote | src/main/java/com/fyber/junior/developer/assignment/stock/business/services/PortfolioService.java:158-175 | A lookup that succeeds reports the quoted price, even on a file whose final read fails. |
| Service.SumValues | src/main/java/com/fyber/junior/developer/assignment/stock/business/services/PortfolioService.java:122-131 | The summing loop succeeds iff every lookup succeeds, and its only error is InternalServerError. Whenever it succeeds, it yields the accumulator plus Σ amount × quoted price, even if a later read of the file would have failed. |
| Service.GetPortfolioValue | src/main/java/com/fyber/junior/developer/assignment/stock/business/services/PortfolioService.java:111-142 | A bad id is a bad argument, and an unknown client is not found. Fewer than two stocks give 0.0 whatever the price file. Otherwise the result fails iff some lookup fails, with InternalServerError. Whenever it succeeds, it equals Σ amount × quoted price. |
| Service.AddKeepsStoreValid | src/main/java/com/fyber/junior/developer/assignment/stock/business/services/PortfolioService.java:56-65 | Creating a client keeps the store invariant and advances the id counter. The invariant is: positive ids below the counter, every stock tagged with its owner. |
| Service.ReplaceKeepsStoreValid | src/main/java/com/fyber/junior/developer/assignment/stock/business/services/PortfolioService.java:82-92 | Replacing a portfolio keeps the store invariant. |
| Service.WorthIgnoresOwner | src/main/java/com/fyber/junior/developer/assignment/stock/business/services/PortfolioService.java:125-128 | Tagging stocks with an owner does not change their worth. |
| Service.ReplaceThenValue | src/main/java/com/fyber/junior/developer/assignment/stock/business/services/PortfolioService.java:80-92 | After a successful replace, the value on a clean price file is the worth of the new list alone, whatever the client held before. |
| Service.AddThenValue | src/main/java/com/fyber/junior/developer/assignment/stock/business/services/PortfolioService.java:57-65 | A newly created client with at least two stocks is valued at exactly the worth of those stocks. |
| Service.ReplaceTwiceKeepsLast | src/main/java/com/fyber/junior/developer/assignment/stock/business/services/PortfolioService.java:82-92 | Replacing with a, then with b, leaves the same store as replacing with b alone. |
| Service.ValueDespiteFailingRead | src/main/java/com/fyber/junior/developer/assignment/stock/business/services/PortfolioService.java:121-131 | With rows AAA 3, BBB 5, CCC 1 and a failing final read, two AAA plus one BBB are still worth 11, because the failing read is never reached. |
| Service.ValuationExample | src/main/java/com/fyber/junior/developer/assignment/stock/business/services/PortfolioService.java:121-131 | Rows AAA 10, 8, 9 and BBB 5, 6 quote AAA at 9 and BBB at 0.0, so two AAA plus one BBB are worth 18. |

## Left out

- Spring wiring, the REST resource and the HTTP mapping of exceptions: transport glue. The three exceptions become `Outcomes.Error`.
- The repositories and the `Client` entity: Spring Data interfaces with generated bodies. They become `Service.Store`, a map from client id to stocks plus the next generated id.
- Row ids issued by the stock table and JPA merge behaviour for stocks that already carry an id: the model stores each stock with the id the caller gave it.
- `getAllStocks` and `getAllClients`: pass-through copies of repository contents. The commented-out code is not modelled either.
- Null symbols and null list elements: the model's symbol is always a string. Java null is modelled only for the list and the client id, which the source tests. The no-argument `Stock()`, which leaves the symbol null, is not modelled. With a null symbol, an amount below 1 is still rejected as a bad argument that names the symbol as "null". With an amount of at least 1, the pattern check (`PortfolioValidator.java:49`) throws a NullPointerException. A null element in the list throws a NullPointerException in the amount check (`PortfolioValidator.java:38`).
- `hashCode`: the source does not override it.
- Java `int` and `long` widths: amounts and ids are unbounded integers. The source does no arithmetic on them other than converting an amount to `double`.
- Malformed price rows: the model accepts only price files in which every row has a symbol and a number. The source parses the value only on rows for the requested symbol, so it tolerates a bad number on other rows. A line of commas only has no fields at all and throws at `PortfolioService.java:164`.
- Floating point and `Double.parseDouble`: prices and sums are `real`. Price rows arrive already split into a symbol and a value, so a matching line without a second field and an unparsable number are runtime exceptions this model does not show.
- File opening, buffering and concurrent changes to the files: each read of a file sees the same content, given as a `Files.Source`.
- AddNewClientPortfolio: freshness of the new id is stated only for stores meeting `Service.Valid`. That predicate stands in for the database's identity generator.
- Transactions and database failures: creating and replacing a portfolio are each modelled as one atomic step that the database never refuses. The source runs neither in a transaction. `addNewClientPortfolio` saves the new client (`PortfolioService.java:57`) before saving its stocks (`PortfolioService.java:65`). If the second save fails, a client with no stocks remains. `replaceClientPortfolio` deletes the old stocks (`PortfolioService.java:83`) before the save at `PortfolioService.java:92`. A persistence provider that enforces the entity's declared 2–6 symbol length (`Stock.java:27-36`) would refuse, at that save, symbols the validator accepts, such as the empty one or one of seven letters. The model does not show these partial states.
