# Bus ticket system — a verified model of the catalog and purchase logic

The bus ticket system is a console program with two sides:

- **Customers** browse a catalog of bus tickets, search it, buy tickets, and look over their purchase history and a chart of purchases per category.
- **An administrator** adds tickets, changes prices, deletes tickets, and reads purchase and catalog statistics.

The catalog is loaded once from a CSV file into a dict from category name to `Category`. Each `Category` owns an ordered list of `Ticket`s. Purchases are appended to a text log, one line each, and read back line by line.

This project models that core in Dafny:

- **`TicketClasses`**: the `Ticket` and `Category` classes.
  - A ticket's fields are filled from a row map, with the program's defaults for missing columns.
  - Its price is the pence column divided by 100.
  - A category appends tickets in place.
- **`TicketCatalog`**: the catalog dict, as a class holding a sequence of (name, `Category`) pairs in insertion order. It includes:
  - `Shelves()`, a value view of the catalog with its invariants;
  - the three ways the administrator changes the catalog, each written as a function on that view;
  - the category-then-ticket selection that the purchase, edit and delete menus share.
- **`FileHandler`**:
  - `get_unique_categories`;
  - the purchase log, as a class whose state is the file's text. Lines are split the way Python's universal-newline reading splits them.
- **`PurchaseRecords`**: what the reports compute over the stored lines. Decoding a line is a function parameter.
- **`Admin`**: `add_new_ticket`, `edit_ticket_price`, `delete_ticket`, `view_all_purchases` and `view_system_statistics`.
- **`MainProgram`**: `search_tickets`, `purchase_ticket`, `view_my_purchases` and `view_purchase_stats`.
- **`Text`** and **`Numbers`**: the string and number built-ins the program relies on:
  - `str.strip`, `str.lower`, `str.replace` and substring `in`;
  - code-point string order, as `sorted` uses it;
  - `str(n)`, `int()` and `float()` on decimal numerals.

Each prompt's answer is a parameter. Each operation returns an outcome value instead of printing.

The line format of a purchase record belongs to the `Purchase` class, which is not part of this model. So writing a record is an `Encoder` parameter, and reading one is a `Decoder` parameter: a partial function whose `None` stands for any exception `from_file_format` raises.

## Model

| member | source | states |
|---|---|---|
| `TicketClasses.FieldsOf` | ticket_classes.py:4-27 | Each column present in the row is copied as is. Otherwise the default applies: "Unknown" for the two names, "" for ids and descriptions, "N/A" for entitlement, date and passenger-class columns. |
| `TicketClasses.Ticket.constructor` | ticket_classes.py:4-27 | The new ticket's fields are `FieldsOf(row)` and its price is `PriceOf(row)`. |
| `TicketClasses.PenceToPounds` | ticket_classes.py:17-20 | A pence text that `float()` reads as v gives v / 100. One it refuses gives 0. Its properties are the two lemmas below. |
| `TicketClasses.PriceOf` | ticket_classes.py:16-20 | The price of a ticket made from a row: `PenceToPounds` of the pence column, which defaults to "0" when missing. |
| `TicketClasses.PenceColumnGivesPounds` | ticket_classes.py:15-18 | A pence column holding the decimal numeral of n gives a price of n/100 pounds. |
| `TicketClasses.DefaultPriceIsZero` | ticket_classes.py:16-20 | A missing pence column (default "0") or one that `float()` refuses gives price 0. |
| `TicketClasses.Ticket.GetPrice` | ticket_classes.py:43-45 | Returns the stored price; as a function it changes nothing. |
| `TicketClasses.Category.constructor` | ticket_classes.py:55-58 | A new category has the given name and no tickets. |
| `TicketClasses.Category.AddTicket` | ticket_classes.py:60-65 | The tickets become the old tickets followed by the new one. |
| `TicketClasses.Category.GetAllTickets` | ticket_classes.py:67-69 | Returns the category's own ticket list, in the order the tickets were added. |
| `TicketClasses.Category.GetTicketCount` | ticket_classes.py:67-73 | The count equals the length of `get_all_tickets()`. |
| `TicketClasses.Category.Summary` | ticket_classes.py:84-86 | The text is `name + " (" + count + " tickets)"`, where `count` reads back with `int()` as the ticket count. |
| `TicketClasses.BuiltInTest` | ticket_classes.py:89-110 | The file's own test: a 250-pence row gives a 2.50 ticket, and the new "Adult" category holds exactly that ticket. |
| `FileHandler.GetUniqueCategories` | file_handler.py:26-37 | The names come back strictly ascending, so none repeats. A name is listed exactly when some row's "Category" column holds it; rows without the column add nothing. |
| `FileHandler.SortNames` | file_handler.py:37 | `sorted()` of the collected set: strictly ascending, holding exactly the set's names. |
| `FileHandler.MinString` | file_handler.py:37 | The name picked at each step of the sort is in the set and below every other name in it. |
| `FileHandler.Ledger.SavePurchase` | file_handler.py:40-51 | Reports success exactly when the write does not fail. On success the text becomes the old text, the record and "\n"; on failure it is unchanged. |
| `FileHandler.Lines` | file_handler.py:62-63 | Iterating over a text file: the text is cut at each "\n", "\r\n" or lone "\r", and a final piece without a break is a line too. The lines come without their breaks. Python keeps the break on each line, but the `.strip()` at file_handler.py:64 removes it either way, so `StoredRecords` and `LoadPurchases` are the same. |
| `FileHandler.StoredRecords` | file_handler.py:62-64 | The list `load_purchases` builds: every line of the log, each stripped, in file order. |
| `FileHandler.Ledger.LoadPurchases` | file_handler.py:54-72 | The result is every line of the log, each stripped, in file order. An empty or missing log gives []. |
| `FileHandler.SaveThenLoad` | file_handler.py:44-64 | Saving a record with no line break to a log of complete lines, then loading, gives the earlier records followed by the stripped record. The log is still made of complete lines. |
| `FileHandler.LinesAppend` | file_handler.py:62-64 | The lines of a log of complete lines followed by more text are its own lines followed by the lines of that text. |
| `PurchaseRecords.LineTotal` | admin.py:280-289 | The total of one stored line: none when `from_file_format` raises or `float()` refuses the total, otherwise the value `float()` reads. |
| `PurchaseRecords.Revenue` | admin.py:279-291 | `total_revenue` after the loop: the sum of the readable totals, in log order. Lines without one add nothing. |
| `PurchaseRecords.ReadableCount` | admin.py:279-291 | `purchase_count` after the loop: the number of lines whose total reads. |
| `PurchaseRecords.DecodedCategories` | main.py:300-310 | The categories of the lines that decode, in log order. Lines that raise are skipped. |
| `PurchaseRecords.AddUpPurchases` | admin.py:276-291 | The loop total equals `Revenue` over the lines, and its count equals the number of lines whose total reads. |
| `PurchaseRecords.RevenueAppend` | admin.py:279-291 | The revenue of two runs of lines is the sum of their revenues. |
| `PurchaseRecords.ReadableWithinDecoded` | admin.py:279-291 | Lines with a readable total are never more than the decoded lines, which are never more than all lines. |
| `PurchaseRecords.RevenueOfReadableLines` | admin.py:279-291 | When every line's total reads, every line is counted and the revenue is the plain sum of the totals. |
| `PurchaseRecords.SaveAddsToRevenue` | file_handler.py:44-64 | Saving one record changes the revenue by exactly that record's total. It changes the readable count by one when the total reads, and by nothing otherwise. |
| `TicketCatalog.SelectTicket` | admin.py:150-169 | Succeeds exactly when both answers read as numbers, the category is between 1 and the number of categories, and the ticket is between 1 and that category's ticket count; the result is then the pair of zero-based indices. `InvalidCategory` ("Invalid category!") comes exactly from a numeric category that is out of range. `InvalidTicket` ("Invalid ticket!") comes exactly from a numeric ticket that is out of range in a valid category. `NotANumber` (the `ValueError` handler at admin.py:194, "Invalid input!") comes exactly from a category `int()` refuses, or a valid category followed by a ticket `int()` refuses. |
| `TicketCatalog.WithTicketValid` | admin.py:118-121 | Appending a ticket not already in a category keeps the catalog's invariant: distinct names, distinct categories, no ticket twice. |
| `TicketCatalog.WithTicketConsistent` | admin.py:100-121 | Appending a ticket whose category field is the key keeps every ticket filed under its own category's name. |
| `TicketCatalog.WithTicketTotal` | admin.py:118-121 | Appending a ticket adds one to the catalog's ticket total. |
| `TicketCatalog.WithShelfValid` | admin.py:118-120 | Filing a new category under an unused name keeps the invariant. |
| `TicketCatalog.WithShelfConsistent` | admin.py:100-120 | A new category filed under its own name, with a ticket naming it, keeps the catalog consistent. |
| `TicketCatalog.WithShelfTotal` | admin.py:118-121 | A new category holding the new ticket adds one to the ticket total. |
| `TicketCatalog.WithoutTicketValid` | admin.py:247 | Removing a ticket keeps the invariant. |
| `TicketCatalog.WithoutTicketConsistent` | admin.py:247 | Removing a ticket keeps the catalog consistent. |
| `TicketCatalog.WithoutTicketTotal` | admin.py:247 | Removing a ticket takes exactly one from the ticket total. |
| `TicketCatalog.IndexOfKey` | admin.py:118 | The `name not in categories` lookup: the first position holding the key, or None exactly when no position holds it. |
| `TicketCatalog.Catalog.Counts` | admin.py:318-319 | The ticket count of each category, in catalog order. |
| `Admin.CheckPrice` | admin.py:84-94 | A price is accepted exactly when `float()` reads it and it is not below zero, with that value. `NotAPrice` comes exactly when `float()` refuses it. |
| `Admin.ToPence` | admin.py:91 | `int(price_pounds * 100)` for a price at or above zero: the floor of the price in pence. |
| `Admin.PenceRoundsDown` | admin.py:91 | Whole pence lose less than a penny and never add to the price. |
| `Admin.NewId` | admin.py:102-105 | An id is "new-" followed by the name in lower case with each space turned into a hyphen. |
| `Admin.NewIdShape` | admin.py:102-105 | The generated id is "new-" followed by the name in lower case, with each space turned into "-". |
| `Admin.NewTicketRow` | admin.py:100-112 | The row given to the Ticket constructor: the category and ticket names, their ids, "Tickets for <name>", the description or "<type> ticket" when it is empty, the price as `str` of the whole pence, the fixed entitlement of one journey, and the passenger class. |
| `Admin.NewTicketFields` | admin.py:100-115 | The Ticket constructor reads the new row back as the new ticket's fields: the category name, generated ids, "Tickets for <name>", the type, the description (or "<type> ticket" when blank), fixed/journey/"1", "N/A" quantity and dates, and the passenger class. |
| `Admin.NewTicketPrice` | admin.py:100-115 | The new ticket's price is its whole pence divided by 100. |
| `Admin.MakeTicket` | admin.py:115 | `Ticket(new_ticket_data)` is a fresh ticket with those fields and that price. |
| `Admin.FileTicket` | admin.py:118-121 | An existing category gets the ticket appended and nothing else changes. A missing one is created last, as a fresh category whose name is the key, holding only the ticket. The invariant is kept, consistency too when the ticket names the key, and the total grows by one. |
| `Admin.AddToShelf` | admin.py:121 | Appending to the i-th category changes only that category's tickets. |
| `Admin.AddShelf` | admin.py:118-120 | A fresh category named by the key is filed last; the earlier entries are unchanged. |
| `Admin.AddValidTicket` | admin.py:100-121 | The fresh ticket has the new fields and price, and is filed as `FileTicket` states. |
| `Admin.AddNewTicket` | admin.py:62-128 | Each refusal happens exactly under its condition: stripped name empty, stripped type empty, price refused. A refusal changes nothing. Otherwise the stripped answers make the ticket ("Adult" for a blank class), with the typed price cut to whole pence. It goes at the end of the named category, which is created last when missing, as a fresh category whose name is the key. Invariant, consistency and the total (+1) are kept. |
| `Admin.EditTicketPrice` | admin.py:134-196 | The outcome follows the selection, then the price check. Only the chosen ticket's price changes, to the typed value. No other ticket's price changes, and no category or list does. |
| `Admin.RemoveFirstAt` | admin.py:247 | `list.remove` of the j-th of distinct tickets removes position j and keeps the rest in order. |
| `Admin.RemoveFirstMultiset` | admin.py:247 | `list.remove(x)` takes out one copy of x and leaves every other element. |
| `Admin.RemoveTicket` | admin.py:247 | The catalog becomes `WithoutTicket` of its old view: the category stays even if now empty. |
| `Admin.DeleteTicket` | admin.py:202-255 | The outcome follows the selection, then the "yes"/"y" answer in lower case. A deletion removes exactly the chosen ticket at its index and nothing else, and takes one from the total. Every other outcome changes nothing. The invariant holds, and consistency is kept. |
| `Admin.ViewAllPurchases` | admin.py:261-301 | None for an empty log. Otherwise the number of lines whose total reads, and the sum of those totals. |
| `Admin.CountTickets` | admin.py:315-329 | The total is the sum of the per-category list lengths, and each category's count is listed in catalog order. |
| `Admin.AddUpCounts` | admin.py:318-319 | The running total equals the sum of the counts. |
| `Admin.ViewSystemStatistics` | admin.py:307-355 | Gives the category count, the ticket total and the per-category counts. When the log has lines, it adds: purchases = all lines, readable or not; revenue = sum over readable totals; average = revenue / purchases. |
| `MainProgram.SearchTickets` | main.py:88-112 | A term that is empty once lower-cased and stripped gives no search. Otherwise the result is `Found` over the catalog for the lower-cased term. |
| `MainProgram.Matches` | main.py:107-110 | A ticket matches when the term is a substring of its lowered type or of its lowered category field. |
| `MainProgram.Hits` | main.py:105-112 | The matching tickets of one category, each paired with the category's name, in ticket order. |
| `MainProgram.Found` | main.py:103-112 | The matching tickets of the whole catalog: category by category in catalog order, each with the category's name. |
| `MainProgram.SearchCatalog` | main.py:103-112 | The loop over categories builds `Found`: category order, then ticket order. |
| `MainProgram.SearchCategory` | main.py:105-112 | The loop over one category's tickets builds its matching tickets, each paired with the category's name. |
| `MainProgram.FoundMembership` | main.py:103-112 | (name, ticket) is a result exactly when some category of that name holds the ticket, and the term is in its lower-cased type or category. |
| `MainProgram.HitsMembership` | main.py:105-112 | (n, t) is a hit of a category exactly when n is its name, t is one of its tickets and t matches. |
| `MainProgram.FoundDistinct` | main.py:103-112 | In a consistent catalog, no result appears twice. |
| `MainProgram.FoundAtMostTotal` | main.py:103-112 | There are never more results than tickets in the catalog. |
| `MainProgram.EveryTicketMatchesEmpty` | main.py:95-97 | The empty term is in every string, so the guard is what stops an empty search from listing everything. |
| `MainProgram.PurchaseTicket` | main.py:137-221 | A bad selection gives the selection's error. Otherwise the outcome is the checkout of the chosen ticket at its price. The log gains exactly the record and "\n" when the purchase is saved, and is unchanged otherwise. |
| `MainProgram.PickTicket` | main.py:150-180 | The chosen ticket is the one at the selected indices, or the selection's error. |
| `MainProgram.Checkout` | main.py:183-216 | The outcome is `CheckoutOutcome` for the quantity, answer and write. The log grows by the record only when it is saved. |
| `MainProgram.CheckoutOutcome` | main.py:183-216 | After the ticket is chosen: a quantity `int()` refuses, then one not above zero, then an answer other than "yes" or "y", then a failed write, each end the purchase. Otherwise the record the encoder makes is saved. Every outcome past the quantity carries the total, unit price times quantity. |
| `MainProgram.CheckoutOutcomeSpec` | main.py:183-216 | A purchase is saved exactly when the quantity reads, is positive, is confirmed with "yes"/"y" and the write succeeds. Quantity errors occur exactly in their cases. A positive quantity that is not confirmed is cancelled, and a confirmed purchase whose write fails is a failed save, each exactly in that case. Every later outcome carries unit price × quantity, and the saved record is the encoder's line. |
| `MainProgram.SaveRecord` | main.py:207-216 | A failed write reports the failure and leaves the log alone. A successful one appends the record. |
| `MainProgram.PurchaseIsReadBack` | main.py:207 | A saved purchase is read back as one more stripped record, and raises the history's total spent by exactly its total. |
| `MainProgram.ViewMyPurchases` | main.py:229-268 | None for an empty log. Otherwise the sum of the totals that read. |
| `MainProgram.CountByCategory` | main.py:297-310 | The Counter built by the loop is the tally of the categories of the lines that decode, in log order. |
| `MainProgram.Bump` | main.py:307 | `counter[name] += 1` on the Counter as a list of (name, count) in insertion order: an existing name's count goes up in place, and a new name goes last with count 1. |
| `MainProgram.TallyOf` | main.py:300-310 | The Counter after counting each decoded category in turn, starting empty. |
| `MainProgram.BumpEffect` | main.py:307 | `counter[name] += 1` raises that name's count by one and no other, and keeps every name once. The keys stay in place, and a new name is added last. |
| `MainProgram.TallyOfCounts` | main.py:297-310 | Each category appears once, with the number of its occurrences. A category appears exactly when it occurs. The counts sum to the number of decoded lines. The categories come in the order of their first occurrences. |
| `MainProgram.TallyEmpty` | main.py:313-315 | The Counter is empty exactly when no line decodes. |
| `MainProgram.MaxCount` | main.py:323 | `max(counter.values())` is at least every count and is one of them. |
| `MainProgram.MaxCountPositive` | main.py:323-333 | The largest count of a Counter is at least one, so the bar division is defined. |
| `MainProgram.InsertByCount` | main.py:326-328 | One step of the sort: the entry goes before the first entry with a smaller count, so after every entry with a count at least its own. |
| `MainProgram.SortByCount` | main.py:326-328 | `sorted(counter.items(), key=count, reverse=True)`: the Counter's entries inserted one by one in Counter order. Its properties are the four lemmas below. |
| `MainProgram.SortByCountSpec` | main.py:326-328 | The chart order never increases in count and is a permutation of the Counter's entries. Entries with equal counts keep their Counter order (a stable sort). |
| `MainProgram.SortNonIncreasing` | main.py:326-328 | Sorted by count, highest first. |
| `MainProgram.SortMultiset` | main.py:326-328 | The sort keeps exactly the Counter's entries. |
| `MainProgram.SortStable` | main.py:326-328 | For each count, the entries with that count keep their relative order. |
| `MainProgram.InsertNonIncreasing` | main.py:326-328 | One insertion step keeps the order non-increasing. |
| `MainProgram.BarSize` | main.py:333 | The bar length of a count, scaled so that the largest count gets 30. |
| `MainProgram.BarSizeBounds` | main.py:333 | Every bar is between 0 and 30, the largest count gets exactly 30, and a larger count never gets a shorter bar. |
| `MainProgram.ChartRows` | main.py:331-336 | One row per sorted entry, in order: its name, its count and its bar length. |
| `MainProgram.ViewPurchaseStats` | main.py:285-342 | "No data" exactly for an empty log; "no valid data" exactly when lines exist but none decodes. Otherwise one row per category in chart order, with its count and bar; the total is the number of decoded lines. |

## Left out

- Console I/O, the menus and their loops (`display_menu`, `display_admin_menu`, `display_info`, `main`, `admin_panel`), the receipt and every printed message. Each operation returns an outcome value instead.
- `view_categories` (main.py:40-80) and `view_all_tickets` (admin.py:33-56) only print the catalog.
- `admin_login` (admin.py:361-378) is a fixed string comparison with nothing to prove.
- `load_ticket_data` (file_handler.py:3-23): the CSV parsing, file opening and error handling. Rows are given as maps.
- `Purchase` (imported from ticket_classes.py at main.py:10 and admin.py:9) and `load_ticket_objects` (imported at main.py:9 and admin.py:8) are not defined in the files modelled, and are not part of this model. The record format, `to_file_format`, `from_file_format` and the purchase time of a record are parameters (`Encoder`, `Decoder`), so no round trip of the record format is claimed.
- The purchase log does not model failures partway through a write, or reading errors other than a missing file. "" stands for a missing log. A failed write is a boolean parameter.
- Floating point.
  - Prices and totals are exact `real`s.
  - `float()` is modelled for optional surrounding whitespace, an optional sign, and digits with an optional fractional part. It is not modelled for exponents, "inf", "nan", underscores or non-ASCII digits.
  - `int(price_pounds * 100)` is the exact floor, without the float product's rounding.
  - The `:.2f` formatting is not modelled.
- `Numbers.ParseInt`: Python's `int()` also accepts underscores between digits and non-ASCII digits. The model refuses these.
- `MainProgram.BarSize`: the bar length is the exact integer `(count * 30) / max`. Python computes `int((count / max) * 30)` in floating point, which can come out one lower when the float quotient rounds down.
- `Text.Lower` lowers ASCII letters only. Python's `str.lower` also lowers other alphabets and can change a string's length.
- `Text.IsSpace` lists the characters `str.isspace()` accepts, as of Unicode's White_Space and the separator controls. Later Unicode changes are not tracked.
- The `isinstance` check in `add_ticket` (ticket_classes.py:62-65) cannot fail under Dafny's types.
- Display truncation (`[:50]`, `[:8]`) and the per-line printing in the purchase views are left out.
- The question after the purchase history, whether to show the statistics (main.py:271-277), is a menu step. `view_purchase_stats` is modelled on its own.
- A Python `Counter` keeps the order in which names were first counted. The model keeps that order explicitly, in `Bump`.
- `Admin.AddNewTicket`: the price typed by the admin is stripped and then handed to `float()`, which strips again. The contract is stated on the unstripped answer, and `Numbers.ParseFloatIgnoresStrip` shows that this makes no difference.
- The catalog invariant `Valid()` (distinct names, distinct category objects, no ticket twice in a category) is the model's own assumption about the loaded catalog. So is `Consistent()`: each category filed under its own name, and its tickets naming it. `load_ticket_objects` would establish them, but it is not part of this model.
- Prices can be negative. The code refuses negative prices only at the admin prompts (admin.py:87, admin.py:180). A catalog row whose pence column is "-250" gives a ticket priced at -2.50, since `float()` accepts the sign. The model follows the code: `PriceOf` can be negative, and no invariant claims otherwise.
