# Inventory and shopping cart, verified model

A model of a small command-line shop written in Rust. The shop keeps two files:
a catalog of items (`store.csv`) and a shopping cart (`cart.csv`). Both are
comma-separated text with one record `id,name,quantity,value` per line. The value
is the unit price for a catalog item and the line total ("outcome") for a cart
line. The model covers:

- the record codec: `parseCart` / `parseStore`, Rust's `str::parse::<i64>`,
  `str::trim`, and the `format!` that writes a record back;
- the collections `Carts` / `Stores`: upsert by id, sorted export, next id,
  loading a whole file, and writing one out;
- the two commands that change state: adding an item to the cart, and checking
  out;
- `Stores::sell`.

Modules, leaf first:

- `Wrappers` (`wrappers.dfy`): `Option` and `Result`.
- `Text` (`text.dfy`): splitting on a separator, Unicode trimming, and parsing
  and printing i64 decimals, with their round trips.
- `RecordCodec` (`record_codec.dfy`): the `Record` datatype, the two file kinds,
  the parser with its error cases, and the line format.
- `Collections` (`collection.dfy`): the class `Collection`, which stands for
  both `Carts` and `Stores` (they differ only in the file's header and in one
  error label). Also the sorted export, loading, saving, and reload after save.
- `Shop` (`shop.dfy`): the `Cart` and `Checkout` commands and `sell`.

Cart and catalog share one id space: a cart line is keyed by the id of the
catalog item it buys. Adding the same item again replaces the earlier line.

## Model

| member | source | states |
|---|---|---|
| Text.Split | src/main.rs:63 | `str::split` on one character: the pieces between separators, at least one piece (an empty string gives one empty piece); the lemmas below pin it down |
| Text.JoinSplit | src/main.rs:63 | Splitting on a separator loses nothing: joining the pieces back with it gives the original string |
| Text.SplitPieces | src/main.rs:63 | No piece of a split contains the separator |
| Text.SplitJoin | src/main.rs:88 | Splitting a join of separator-free pieces gives back exactly those pieces |
| Text.SplitPiecesWithout | src/main.rs:88 | A character absent from a string is absent from every piece of its split, so a field cut from a line has no line break |
| Text.SplitFirst | src/main.rs:190 | A separator-free prefix followed by the separator becomes the first piece, and the rest splits on its own |
| Text.TrimStart | src/main.rs:78 | The result is a suffix of the input; everything dropped is whitespace; it does not start with whitespace |
| Text.TrimEnd | src/main.rs:208 | The result is a prefix of the input; everything dropped is whitespace; it does not end with whitespace |
| Text.Trim | src/main.rs:78 | `str::trim`: whitespace removed from both ends, the end trim applied to the result of the start trim |
| Text.TrimUnchanged | src/main.rs:78 | A string with no whitespace at either end trims to itself |
| Text.ParseI64 | src/main.rs:66 | What `str::parse::<i64>` accepts is an optional sign followed by at least one digit and nothing else, with a value in the i64 range |
| Text.ParseI64Accepts | src/main.rs:74 | Parsing succeeds if and only if the text is a sign-and-digits literal whose value fits in i64, and then yields that value |
| Text.NatText | src/main.rs:118-122 | The decimal digits of a natural number: at least one digit, all digits, and no leading zero unless the number is 0 |
| Text.FormatInt | src/main.rs:118-122 | The `{}` text of an integer: at least one character, all decimal digits except a leading `-` |
| Text.NatTextValue | src/main.rs:118-122 | The printed digits of a natural number read back as that number |
| Text.ParseFormatInt | src/main.rs:118-122 | Parsing the `{}` text of any i64 gives the same i64 back |
| Text.FormatIntHasNoSeparator | src/main.rs:248-252 | A printed integer contains neither a comma nor a line break |
| Text.FormatIntTrimmed | src/main.rs:248-252 | A printed integer has no whitespace for `trim` to remove |
| RecordCodec.ColumnNames | src/main.rs:111 | The column names of a file: `id,name,stock,outcome` for the cart, `id,name,stock,price` for the catalog (src/main.rs:241) |
| RecordCodec.Header | src/main.rs:241 | The first line of a saved file: its column names followed by a line break |
| RecordCodec.FormatFields | src/main.rs:248-252 | The `{},{},{},{}` text of a record: id, name, quantity and value joined by commas; `ParseFormat` proves it parses back |
| RecordCodec.FormatLine | src/main.rs:118-122 | One saved line: the record's fields and a line break |
| RecordCodec.ParseRecord | src/main.rs:62-83 | Whatever parses has i64 fields and a non-empty name without commas, so it can be written back |
| RecordCodec.ParseRecordAccepts | src/main.rs:189-213 | A line parses if and only if it has at least four fields, the first and third are i64 literals, the second is non-empty, and the fourth is an i64 literal once trimmed. The record then holds exactly those four values |
| RecordCodec.ParseRecordRejects | src/main.rs:62-83 | The first bad field decides the error. A non-integer id, quantity or trimmed fourth field gives `InvalidId` with the integer parser's error kind. A missing or empty name gives `MissingField("name")`. A missing quantity gives `InvalidInput("quantity")`. A missing fourth field gives `InvalidInput("outcome")` or `InvalidInput("price")` |
| RecordCodec.FirstFieldRejected | src/main.rs:65-68 | A first field that is not an i64 fails the whole line with `InvalidId` and the integer parser's own error kind |
| RecordCodec.HeaderRejected | src/main.rs:111 | Both header lines fail to parse, whichever kind of file reads them, because `id` is not an integer |
| RecordCodec.ParseFieldValues | src/main.rs:189-213 | A line whose first four fields parse to a record's values, with a non-empty name, parses to that record |
| RecordCodec.ParseFields | src/main.rs:62-83 | A line whose first four fields are the printed fields of a well-formed record parses to that record |
| RecordCodec.ParseFormat | src/main.rs:118-122 | Round trip: parsing the `id,name,quantity,value` text of a well-formed record gives that record back |
| RecordCodec.ParseIgnoresExtraFields | src/main.rs:77-82 | Fields after the fourth are ignored |
| RecordCodec.ParseFormatParse | src/main.rs:248-252 | Writing a parsed record and parsing the text again gives the same result |
| Collections.Export | src/main.rs:151-158 | `into_vec` as a value: the records of an id-keyed map, strictly ascending by id and each exactly once |
| Collections.ExportIsValues | src/main.rs:52-58 | The sorted export has one entry per key, and holds exactly the map's values |
| Collections.SortedExportExists | src/main.rs:151-158 | Every id-keyed map has a list of its records in strictly ascending id order |
| Collections.SortedExportUnique | src/main.rs:56 | There is only one such list, so sorting by id determines the export |
| Collections.ExportHead | src/main.rs:156 | The export starts with the smallest id |
| Collections.InsertById | src/main.rs:56 | Inserting a new id into an ascending list keeps it ascending, adds one entry, and keeps everything else |
| Collections.ExportInsert | src/main.rs:52-55 | Inserting a record with a new id into the export gives the export of the map with that record added |
| Collections.ExportTail | src/main.rs:52-58 | Without its first record, the export is the export of the map without that record's id |
| Collections.Collection.constructor | src/main.rs:34-37 | A new collection is empty |
| Collections.Collection.Add | src/main.rs:39-41 | After an add, the record sits under its own id, every other id keeps its record, and the size grows by at most one |
| Collections.Collection.Clone | src/main.rs:326 | A clone is a new object of the same kind with the same records |
| Collections.Collection.IntoVec | src/main.rs:151-158 | The returned list is exactly the records, strictly ascending by id |
| Collections.Collection.NextId | src/main.rs:43-50 | The next id is 1 for an empty cart. Otherwise it is one more than an id in use, and greater than every id in use |
| Collections.LastIsGreatest | src/main.rs:45-47 | The last record of the export has the largest id |
| Collections.EmptyExport | src/main.rs:48 | An empty export comes only from an empty map |
| Collections.LineRecord | src/main.rs:89-93 | A line contributes a record only when it is non-empty and parses, and that record can be written back |
| Collections.Outcomes | src/main.rs:88 | Each line has exactly one outcome |
| Collections.OutcomeAt | src/main.rs:88-95 | The `i`-th outcome is what the `i`-th line contributes |
| Collections.FileAll | src/main.rs:91 | Filing records under their own ids keeps every record under its own id |
| Collections.LoadFrom | src/main.rs:215-227 | Loading lines into a map keyed by id keeps it keyed by id, and keeps it writable |
| Collections.LoadFromFirst | src/main.rs:218 | Loading lines is loading the first one, then the rest |
| Collections.LoadText | src/main.rs:215-227 | `parseStores` / `parseCarts` as a value: the lines of the text, split on line breaks, loaded one after the other into an empty map; `LoadedIffParsed` states what it holds |
| Collections.Load | src/main.rs:85-97 | Loading builds a new collection whose records are what the lines contribute, in order; every record can be written back |
| Collections.LoadLine | src/main.rs:219-224 | One line: an empty or unparsable line changes nothing; a parsed record replaces any record with its id |
| Collections.FileAllLastWins | src/main.rs:91 | After filing, an id holds the record of the last outcome with that id, or keeps its earlier record if there is none |
| Collections.LinesLastWins | src/main.rs:218-225 | A loaded id is present if and only if some non-empty line parses with that id. Its record comes from the last such line |
| Collections.LoadedIffParsed | src/main.rs:85-97 | The same for a whole file: loading never aborts; bad lines, the header included, are dropped; the last good line for an id wins |
| Collections.OutcomeParses | src/main.rs:89-91 | A line files a record under an id if and only if it is non-empty and parses with that id |
| Collections.Kept | src/main.rs:115-117 | The records saved are exactly those whose quantity is not 0. Negative quantities are kept |
| Collections.KeptAscending | src/main.rs:244-247 | Dropping zero-quantity records keeps the ascending order |
| Collections.KeptTwice | src/main.rs:245 | Dropping zero-quantity records twice is the same as once |
| Collections.SaveText | src/main.rs:238-255 | The whole saved text: the header, then one line per record with a non-zero quantity, by ascending id |
| Collections.Save | src/main.rs:108-125 | The saved text is the header, then one `id,name,quantity,value` line per record with a non-zero quantity, by ascending id |
| Collections.WriteRecords | src/main.rs:238-255 | The writing loop emits the header, then the line of every record in the list whose quantity is not 0, in list order |
| Collections.SaveStep | src/main.rs:244-253 | One turn of the writing loop: a zero-quantity record is skipped, any other adds its line |
| Collections.FormatFieldsOneLine | src/main.rs:248-252 | A record whose name has no line break is written on one line |
| Collections.SplitRecordLines | src/main.rs:88 | The written records split on line breaks into their line texts, then one empty piece after the final line break |
| Collections.SaveLayout | src/main.rs:108-125 | A saved file splits into the column names, the records' lines, and a final empty piece |
| Collections.LoadRecordLines | src/main.rs:85-97 | Loading the lines of well-formed records adds exactly those records by id |
| Collections.HeaderSkipped | src/main.rs:241 | The header line contributes no record on reload |
| Collections.LoadSavedLines | src/main.rs:215-227 | Loading a rejected header followed by record lines gives exactly those records |
| Collections.ToMapOfExport | src/main.rs:52-58 | The export keyed by id is the map itself |
| Collections.KeptExport | src/main.rs:244-247 | Filtering the export leaves the export of the non-zero records |
| Collections.ReloadAfterSave | src/main.rs:238-255 | Reloading a saved collection gives back the collection minus its zero-quantity records. This holds when every name is non-empty and contains no comma or line break, and every field fits in i64 |
| Collections.SaveIdempotent | src/main.rs:108-125 | Saving, reloading, and saving again writes the same text |
| Collections.LineStorable | src/main.rs:89-91 | A record parsed from a line without a line break can be saved and read back |
| Collections.OutcomesStorable | src/main.rs:88-95 | Every record that lines without line breaks contribute can be saved and read back |
| Collections.FileAllStorable | src/main.rs:91 | Filing such records keeps every record of the map savable |
| Collections.LoadedStorable | src/main.rs:85-97 | Every record a loaded file holds can be saved and read back: its fields fit in i64 and its name is non-empty and has no comma or line break |
| Collections.ReloadLoaded | src/main.rs:215-255 | Saving a loaded collection and loading the text again gives the loaded records minus those with quantity 0, with no condition on the file's text |
| Shop.CartAfterAdd | src/main.rs:300-315 | The cart after an add: the line `{id, name, quantity, price * quantity}` replaces any line for the id when the catalog has the id with enough stock; otherwise the cart as it was |
| Shop.AddToCart | src/main.rs:300-315 | The cart gets the line `{id, name, quantity, price * quantity}` if the catalog has the id with enough stock, replacing any earlier line for it. Otherwise the cart is unchanged. A price is reported if and only if the line was added. The catalog is not modified |
| Shop.RunAddToCart | src/main.rs:296-320 | The `Cart` command from file texts: the saved cart is the loaded cart after the add, and the price is reported exactly when the catalog could supply it |
| Shop.AddKeepsPriced | src/main.rs:303-310 | Adding keeps every cart line priced at the catalog's price, with a quantity the stock covered |
| Shop.AddOutOfStock | src/main.rs:300-302 | An unknown id, or a quantity above the stock, leaves the cart unchanged |
| Shop.Deducted | src/main.rs:332-337 | The catalog item after a cart line is taken from it: the same id, name and price, and the stock less the line's quantity |
| Shop.Total | src/main.rs:327-338 | The amount paid: the sum of the outcomes of the cart lines whose id is in the original catalog with enough stock, starting from 0 |
| Shop.Deductions | src/main.rs:326-344 | The checked-out catalog stays keyed by id |
| Shop.Find | src/main.rs:329 | Finds a cart line with the id, or shows that no line has it |
| Shop.DeductionsAt | src/main.rs:328-344 | At each id, the new catalog holds the deduction for the cart line with that id when it is honoured, and the earlier record otherwise |
| Shop.CheckoutCatalog | src/main.rs:326-344 | Checkout adds and removes no ids. At the ids of honoured lines (in the original catalog with enough stock), stock drops by the line's quantity and name and price stay. Every other item is unchanged |
| Shop.CheckoutConserves | src/main.rs:338 | When lines are at catalog prices, the total paid equals the value of the stock taken out of the catalog |
| Shop.TakenIsTotal | src/main.rs:331-339 | The total equals the value of the stock removed, whenever each honoured line removes its quantity |
| Shop.FindIsTheLine | src/main.rs:328 | In an ascending cart, the line found for an id is the line with that id |
| Shop.CheckoutStockNonNegative | src/main.rs:331-336 | No deducted item's stock goes negative; a catalog without negative stock stays so |
| Shop.PricedCartChecksOut | src/main.rs:296-350 | A cart filled only by adds against this catalog has every line honoured, and its total is the value of the stock taken |
| Shop.Checkout | src/main.rs:322-344 | The new catalog is a fresh copy of the catalog with every honoured cart line's deduction, checked against the original catalog in ascending id order. The total is the sum of the honoured lines' outcomes |
| Shop.CheckoutLine | src/main.rs:329-343 | One cart line: if it is honoured, its deduction goes into the copy and its outcome is paid. Otherwise nothing changes and nothing is paid |
| Shop.SaveEmpty | src/main.rs:347-348 | An empty collection saves as its header alone |
| Shop.RunCheckout | src/main.rs:322-350 | The `Checkout` command from file texts: the catalog written is the checked-out catalog and the total is reported. The cart written is the header alone, even when lines were skipped |
| Shop.CheckoutExample | src/main.rs:326-339 | Stock 10 at price 5 with a cart line of 3 for 15: stock becomes 7 and the total is 15 |
| Shop.SaleOf | src/main.rs:169-184 | What `sell` returns for one item: `(0, 0)` if the request exceeds the stock or the stock is 0, otherwise the price times the quantity and the stock left |
| Shop.SaleAccounts | src/main.rs:166-184 | A sale pays nothing and leaves nothing, or leaves non-negative stock that adds back up to the old stock, at the item's price. A sold-out item or a quantity above its stock pays nothing |
| Shop.Sell | src/main.rs:160-186 | With no item of that name, the result is `(0, 0)`. Otherwise the result is the sale of some item with that name. The caller's catalog is not changed (the method modifies nothing) |
| Shop.Restock | src/main.rs:175-181 | The reduced item is parsed back from its text and put under its id |

## Left out

- File access (`loadCart`, `loadItem`, and the opening, writing and flushing in `saveCart` / `saveItem`). File contents come in as strings and the text to write comes out as a string. An I/O failure aborting a command is not modelled.
- The command-line parsing (`Opt`, `Command`, `main`), and the `List` and `inCart` commands. These two only print the sorted export, which `Collection.IntoVec` models.
- All printed messages: the verbose per-line parse diagnostics, the prices and totals, and the `sell` messages. The price and total are returned as outputs instead.
- The text of `ParseError`'s `Display` messages. The error values themselves are modelled.
- The parser reports every integer that fails to parse as `InvalidId`, with the cause, through the `From<ParseIntError>` conversion, whichever field it is in. `InvalidInput` is used only for a missing quantity or fourth field. The field labels might suggest `InvalidInput` for a malformed quantity or price; the code never produces it there, and the model follows the code.
- The `None => InvalidInput("id - quantity")` branch of `parseCart` / `parseStore` cannot be reached, because splitting always yields at least one field. The model has no such case.
- HashMap iteration order. The model relies only on the sorted export. Where `sell` takes the first of several items sharing a name, the choice depends on that order.
- Sell: states only that the result is the sale of *some* item with the requested name, because which item `HashMap` order picks is not modelled.
- Sell: requires every record to be well formed, and the remaining stock to fit in i64 for every item with that name whose stock is non-zero and covers the request. Those are the items `sell` would reduce. Outside the i64 range the subtraction at src/main.rs:178 overflows: a debug build panics there and a release build wraps. The `unwrap()` at src/main.rs:181 panics only for an empty name or one containing a comma, which the well-formedness requirement excludes.
- `sell` takes the catalog by value, so its `addItem` on the local copy is not visible to the caller. The model adds to a private clone, which is equally invisible.
- i64 overflow in `price * quantity`, in `total +=`, in the stock subtraction, and in `next_Id`'s `id + 1`. The arithmetic is on unbounded integers. A debug build would panic and a release build would wrap.
- AddToCart: does not check that the quantity is positive, as in the source. A zero or negative quantity is added as it is, and a negative cart line raises stock at checkout.
- `into_vec` consuming `self`. `IntoVec` leaves the collection as it was, which a caller of the consuming version cannot observe.
- Rust's `str::trim` uses the Unicode `White_Space` property. The model lists those code points. Strings are sequences of Unicode scalar values, not UTF-8 bytes.
