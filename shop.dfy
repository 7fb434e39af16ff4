/**
 * The shop's commands over a catalog (`Stores`) and a cart (`Carts`): adding
 * an item to the cart, checking the cart out against the catalog, and the
 * catalog's `sell`. Each command loads its collections from text, computes,
 * and produces the text to save.
 */
module Shop {
  import opened Wrappers
  import opened Text
  import opened RecordCodec
  import opened Collections

  // ---------------------------------------------------------------------------
  // Add to cart: the `Cart { id, quantity }` command
  // ---------------------------------------------------------------------------

  /** The cart line for `quantity` units of a catalog item: its id and name, and the price of that many units. */
  function CartLine(item: Record, quantity: int): Record {
    Record(item.id, item.name, quantity, item.value * quantity)
  }

  /** Whether the catalog can supply `quantity` units of item `id`. */
  predicate InStock(catalog: map<int, Record>, id: int, quantity: int) {
    id in catalog && catalog[id].quantity >= quantity
  }

  /** The cart after asking for `quantity` units of item `id`: the line replaces any line for `id` when the catalog can supply it. */
  function CartAfterAdd(catalog: map<int, Record>, cart: map<int, Record>, id: int, quantity: int): map<int, Record> {
    if InStock(catalog, id, quantity) then cart[id := CartLine(catalog[id], quantity)] else cart
  }

  /**
   * The `Cart { id, quantity }` arm: look the id up in the catalog and, when
   * its stock covers the quantity, put the priced line in the cart and report
   * its price. An unknown id or too little stock leaves the cart as it was.
   * The quantity is not required to be positive.
   */
  method AddToCart(stores: Collection, carts: Collection, id: int, quantity: int) returns (price: Option<int>)
    requires stores.Valid() && carts.Valid() && stores != carts
    modifies carts
    ensures carts.Valid()
    ensures carts.items == CartAfterAdd(stores.items, old(carts.items), id, quantity)
    ensures price.Some? <==> InStock(stores.items, id, quantity)
    ensures price.Some? ==> price.value == stores.items[id].value * quantity
  {
    price := None;
    if id in stores.items {
      var x := stores.items[id];
      if x.quantity >= quantity {
        var c := Record(x.id, x.name, quantity, x.value * quantity);
        price := Some(c.value);
        carts.Add(c);
      }
    }
  }

  /**
   * Every line of the cart is what add-to-cart would write against this
   * catalog now: filed under the item's id, with its name, a quantity the
   * stock covers, and the current price of that quantity.
   */
  ghost predicate PricedFrom(catalog: map<int, Record>, cart: map<int, Record>) {
    forall k :: k in cart ==>
      && k in catalog
      && cart[k] == CartLine(catalog[k], cart[k].quantity)
      && cart[k].quantity <= catalog[k].quantity
  }

  /** Adding to the cart keeps every line priced from the catalog. */
  lemma AddKeepsPriced(catalog: map<int, Record>, cart: map<int, Record>, id: int, quantity: int)
    requires KeyedById(catalog)
    requires PricedFrom(catalog, cart)
    ensures PricedFrom(catalog, CartAfterAdd(catalog, cart, id, quantity))
  {
    var after := CartAfterAdd(catalog, cart, id, quantity);
    forall k | k in after
      ensures k in catalog && after[k] == CartLine(catalog[k], after[k].quantity)
      ensures after[k].quantity <= catalog[k].quantity
    {
      if InStock(catalog, id, quantity) && k == id {
        assert after[k] == CartLine(catalog[id], quantity);
      } else {
        assert after[k] == cart[k];
      }
    }
  }

  /** An empty cart is priced from any catalog. */
  lemma EmptyCartPriced(catalog: map<int, Record>)
    ensures PricedFrom(catalog, map[])
  {
  }

  /** A request the catalog cannot supply leaves the cart as it was. */
  lemma AddOutOfStock(catalog: map<int, Record>, cart: map<int, Record>, id: int, quantity: int)
    requires !InStock(catalog, id, quantity)
    ensures CartAfterAdd(catalog, cart, id, quantity) == cart
  {
  }

  /**
   * The whole command: load the catalog and the cart from their texts, add,
   * and give back the cart text to save and the price reported.
   */
  method RunAddToCart(storeText: string, cartText: string, id: int, quantity: int)
    returns (newCartText: string, price: Option<int>)
    ensures var catalog := LoadText(StoreFile, storeText);
      newCartText == SaveText(CartFile, CartAfterAdd(catalog, LoadText(CartFile, cartText), id, quantity))
    ensures var catalog := LoadText(StoreFile, storeText);
      (price.Some? <==> InStock(catalog, id, quantity))
      && (price.Some? ==> price.value == catalog[id].value * quantity)
  {
    var stores := Load(StoreFile, storeText);
    var carts := Load(CartFile, cartText);
    price := AddToCart(stores, carts, id, quantity);
    newCartText := Save(carts);
  }

  // ---------------------------------------------------------------------------
  // Checkout: the `Checkout` command
  // ---------------------------------------------------------------------------

  /** Checkout honours a cart line when its id is in the catalog with at least the line's quantity in stock. */
  predicate Honoured(catalog: map<int, Record>, line: Record) {
    InStock(catalog, line.id, line.quantity)
  }

  /** The catalog item once a cart line is taken from it: less stock, same id, name and price. */
  function Deducted(item: Record, line: Record): Record {
    Record(item.id, item.name, item.quantity - line.quantity, item.value)
  }

  /**
   * The new catalog: the lines in order, each checked against the original
   * `catalog`, and each honoured one writing its deduction into `acc`.
   */
  function Deductions(catalog: map<int, Record>, acc: map<int, Record>, lines: seq<Record>): (r: map<int, Record>)
    ensures KeyedById(catalog) && KeyedById(acc) ==> KeyedById(r)
    decreases lines
  {
    if lines == [] then acc
    else
      var line := lines[0];
      var next := if Honoured(catalog, line) then acc[line.id := Deducted(catalog[line.id], line)] else acc;
      Deductions(catalog, next, lines[1..])
  }

  /** The amount paid: the outcomes of the honoured lines added up. */
  function Total(catalog: map<int, Record>, lines: seq<Record>): int {
    if lines == [] then 0
    else (if Honoured(catalog, lines[0]) then lines[0].value else 0) + Total(catalog, lines[1..])
  }

  /** The first line with id `k`, if any. */
  function Find(lines: seq<Record>, k: int): (r: Option<Record>)
    ensures r.Some? ==> r.value in lines && r.value.id == k
    ensures r.None? ==> forall i :: 0 <= i < |lines| ==> lines[i].id != k
  {
    if lines == [] then None
    else if lines[0].id == k then Some(lines[0])
    else Find(lines[1..], k)
  }

  /** Whether some line for `k` is honoured. */
  predicate Takes(catalog: map<int, Record>, lines: seq<Record>, k: int) {
    Find(lines, k).Some? && Honoured(catalog, Find(lines, k).value)
  }

  /** An ascending list stays ascending without its first line. */
  lemma AscendingTail(lines: seq<Record>)
    requires StrictlyAscending(lines) && lines != []
    ensures StrictlyAscending(lines[1..])
    ensures forall i :: 0 <= i < |lines[1..]| ==> lines[1..][i].id != lines[0].id
  {
    forall i | 0 <= i < |lines[1..]|
      ensures lines[1..][i].id != lines[0].id
    {
      assert lines[1..][i] == lines[i + 1];
    }
  }

  /**
   * With one line per id, the deductions change exactly the ids whose line is
   * honoured, each to the deducted item; every other id keeps what `acc` had.
   */
  lemma {:induction false} DeductionsAt(catalog: map<int, Record>, acc: map<int, Record>, lines: seq<Record>, k: int)
    requires StrictlyAscending(lines)
    ensures var r := Deductions(catalog, acc, lines);
      (k in r <==> k in acc || Takes(catalog, lines, k))
      && (k in r ==> r[k] == if Takes(catalog, lines, k) then Deducted(catalog[k], Find(lines, k).value) else acc[k])
    decreases lines
  {
    if lines != [] {
      var line := lines[0];
      var next := if Honoured(catalog, line) then acc[line.id := Deducted(catalog[line.id], line)] else acc;
      AscendingTail(lines);
      DeductionsAt(catalog, next, lines[1..], k);
      if line.id == k {
        assert Find(lines[1..], k).None?;
      } else {
        assert Find(lines, k) == Find(lines[1..], k);
      }
    }
  }

  /**
   * The catalog checkout writes: the same ids; at the id of each honoured
   * line the stock is reduced by the line's quantity with id, name and price
   * kept; every other item is left as it was.
   */
  lemma CheckoutCatalog(catalog: map<int, Record>, lines: seq<Record>)
    requires KeyedById(catalog)
    requires StrictlyAscending(lines)
    ensures var r := Deductions(catalog, catalog, lines);
      && (forall k :: k in r <==> k in catalog)
      && (forall k :: k in catalog && Takes(catalog, lines, k) ==>
            r[k] == Deducted(catalog[k], Find(lines, k).value)
            && r[k].id == k && r[k].name == catalog[k].name && r[k].value == catalog[k].value
            && r[k].quantity == catalog[k].quantity - Find(lines, k).value.quantity)
      && (forall k :: k in catalog && !Takes(catalog, lines, k) ==> r[k] == catalog[k])
  {
    forall k
      ensures var r := Deductions(catalog, catalog, lines);
        (k in r <==> k in catalog)
        && (k in r ==> r[k] == if Takes(catalog, lines, k) then Deducted(catalog[k], Find(lines, k).value) else catalog[k])
    {
      DeductionsAt(catalog, catalog, lines, k);
    }
  }

  /** The value of the stock a checkout took: for each line, the stock it removed times the catalog price. */
  function Taken(before: map<int, Record>, after: map<int, Record>, lines: seq<Record>): int {
    if lines == [] then 0
    else
      var k := lines[0].id;
      (if k in before && k in after then (before[k].quantity - after[k].quantity) * before[k].value else 0)
        + Taken(before, after, lines[1..])
  }

  /** Every honoured line's outcome is the catalog price times its quantity. */
  predicate AtCatalogPrices(catalog: map<int, Record>, lines: seq<Record>) {
    forall i :: 0 <= i < |lines| && Honoured(catalog, lines[i]) ==>
      lines[i].value == catalog[lines[i].id].value * lines[i].quantity
  }

  lemma {:induction false} TakenIsTotal(catalog: map<int, Record>, after: map<int, Record>, lines: seq<Record>)
    requires AtCatalogPrices(catalog, lines)
    requires forall i :: 0 <= i < |lines| && lines[i].id in catalog ==>
      lines[i].id in after
      && after[lines[i].id].quantity
         == if Honoured(catalog, lines[i]) then catalog[lines[i].id].quantity - lines[i].quantity
            else catalog[lines[i].id].quantity
    ensures Total(catalog, lines) == Taken(catalog, after, lines)
  {
    if lines != [] {
      var line := lines[0];
      if Honoured(catalog, line) {
        assert after[line.id].quantity == catalog[line.id].quantity - line.quantity;
        assert (catalog[line.id].quantity - after[line.id].quantity) * catalog[line.id].value
            == catalog[line.id].value * line.quantity;
      }
      assert forall i :: 0 <= i < |lines[1..]| ==> lines[1..][i] == lines[i + 1];
      TakenIsTotal(catalog, after, lines[1..]);
    }
  }

  /**
   * Conservation: when the cart's outcomes are at the catalog's prices, the
   * total paid is the value of the stock that left the catalog.
   */
  lemma CheckoutConserves(catalog: map<int, Record>, lines: seq<Record>)
    requires KeyedById(catalog)
    requires StrictlyAscending(lines)
    requires AtCatalogPrices(catalog, lines)
    ensures Total(catalog, lines) == Taken(catalog, Deductions(catalog, catalog, lines), lines)
  {
    var r := Deductions(catalog, catalog, lines);
    CheckoutCatalog(catalog, lines);
    forall i | 0 <= i < |lines| && lines[i].id in catalog
      ensures lines[i].id in r
      ensures r[lines[i].id].quantity
           == if Honoured(catalog, lines[i]) then catalog[lines[i].id].quantity - lines[i].quantity
              else catalog[lines[i].id].quantity
    {
      var k := lines[i].id;
      FindIsTheLine(lines, i);
      assert Find(lines, k) == Some(lines[i]);
    }
    TakenIsTotal(catalog, r, lines);
  }

  /** With one line per id, the line found for an id is the line with that id. */
  lemma {:induction false} FindIsTheLine(lines: seq<Record>, i: int)
    requires StrictlyAscending(lines) && 0 <= i < |lines|
    ensures Find(lines, lines[i].id) == Some(lines[i])
  {
    if i > 0 {
      assert lines[0].id < lines[i].id;
      AscendingTail(lines);
      assert lines[1..][i - 1] == lines[i];
      FindIsTheLine(lines[1..], i - 1);
    }
  }

  /** An honoured line never takes the stock below zero, and a catalog without negative stock keeps none. */
  lemma CheckoutStockNonNegative(catalog: map<int, Record>, lines: seq<Record>)
    requires KeyedById(catalog)
    requires StrictlyAscending(lines)
    ensures var r := Deductions(catalog, catalog, lines);
      forall k :: k in r && Takes(catalog, lines, k) ==> r[k].quantity >= 0
    ensures var r := Deductions(catalog, catalog, lines);
      (forall k :: k in catalog ==> catalog[k].quantity >= 0) ==> forall k :: k in r ==> r[k].quantity >= 0
  {
    CheckoutCatalog(catalog, lines);
  }

  /**
   * A cart built by add-to-cart against the catalog it is checked out
   * against is checked out in full: every line is honoured, and the amount
   * paid is the value of the stock taken.
   */
  lemma PricedCartChecksOut(catalog: map<int, Record>, cart: map<int, Record>)
    requires KeyedById(catalog) && KeyedById(cart)
    requires PricedFrom(catalog, cart)
    ensures forall i :: 0 <= i < |Export(cart)| ==> Honoured(catalog, Export(cart)[i])
    ensures Total(catalog, Export(cart)) == Taken(catalog, Deductions(catalog, catalog, Export(cart)), Export(cart))
  {
    var lines := Export(cart);
    forall i | 0 <= i < |lines|
      ensures Honoured(catalog, lines[i])
      ensures lines[i].value == catalog[lines[i].id].value * lines[i].quantity
    {
      assert lines[i].id in cart && cart[lines[i].id] == lines[i];
    }
    CheckoutConserves(catalog, lines);
  }

  /**
   * The `Checkout` arm: copy the catalog, then go through the cart by id;
   * a line whose id the original catalog holds with enough stock writes the
   * reduced item into the copy and adds its outcome to the total. Lines are
   * checked against the original catalog, not the copy.
   */
  method Checkout(stores: Collection, carts: Collection) returns (newStores: Collection, total: int)
    requires stores.Valid() && carts.Valid()
    ensures fresh(newStores) && newStores.Valid() && newStores.kind == stores.kind
    ensures newStores.items == Deductions(stores.items, stores.items, Export(carts.items))
    ensures total == Total(stores.items, Export(carts.items))
  {
    newStores := stores.Clone();
    total := 0;
    var lines := carts.IntoVec();
    assert lines[0..] == lines;
    for i := 0 to |lines|
      invariant fresh(newStores) && newStores.Valid() && newStores.kind == stores.kind
      invariant Deductions(stores.items, newStores.items, lines[i..]) == Deductions(stores.items, stores.items, lines)
      invariant total + Total(stores.items, lines[i..]) == Total(stores.items, lines)
    {
      assert lines[i..][1..] == lines[i + 1..];
      var paid := CheckoutLine(stores, newStores, lines[i]);
      total := total + paid;
    }
    assert lines[|lines|..] == [];
  }

  /**
   * One turn of the checkout loop: when the original catalog holds the line's
   * id with enough stock, the reduced item goes into the copy and the line's
   * outcome is paid; otherwise nothing happens.
   */
  method CheckoutLine(stores: Collection, newStores: Collection, cart: Record) returns (paid: int)
    requires stores.Valid() && newStores.Valid() && stores != newStores
    modifies newStores
    ensures newStores.Valid()
    ensures Honoured(stores.items, cart) ==>
      newStores.items == old(newStores.items)[cart.id := Deducted(stores.items[cart.id], cart)] && paid == cart.value
    ensures !Honoured(stores.items, cart) ==> newStores.items == old(newStores.items) && paid == 0
  {
    paid := 0;
    if cart.id in stores.items {
      var x := stores.items[cart.id];
      if x.quantity >= cart.quantity {
        var newStore := Record(x.id, x.name, x.quantity - cart.quantity, x.value);
        paid := cart.value;
        newStores.Add(newStore);
      }
    }
  }

  /** The empty collection saves as its header alone. */
  lemma SaveEmpty(kind: Kind)
    ensures SaveText(kind, map[]) == Header(kind)
  {
    ExportIsValues(Export(map[]), map[]);
  }

  /**
   * The whole command: load both collections, check out, and give back the
   * catalog text to save, the cart text to save (always the empty cart), and
   * the total reported.
   */
  method RunCheckout(storeText: string, cartText: string)
    returns (newStoreText: string, newCartText: string, total: int)
    ensures var catalog := LoadText(StoreFile, storeText);
      var lines := Export(LoadText(CartFile, cartText));
      newStoreText == SaveText(StoreFile, Deductions(catalog, catalog, lines))
      && total == Total(catalog, lines)
    ensures newCartText == Header(CartFile)
  {
    var stores := Load(StoreFile, storeText);
    var carts := Load(CartFile, cartText);
    var newStores;
    newStores, total := Checkout(stores, carts);
    newStoreText := Save(newStores);
    var emptied := new Collection(CartFile);
    newCartText := Save(emptied);
    SaveEmpty(CartFile);
  }

  /** Catalog item 1 with stock 10 at price 5, and a cart line for 3 of it costing 15: the stock becomes 7 and 15 is paid. */
  lemma CheckoutExample()
    ensures var catalog := map[1 := Record(1, "A", 10, 5)];
      var lines := [Record(1, "A", 3, 15)];
      Deductions(catalog, catalog, lines) == map[1 := Record(1, "A", 7, 5)]
      && Total(catalog, lines) == 15
  {
    var catalog := map[1 := Record(1, "A", 10, 5)];
    var lines := [Record(1, "A", 3, 15)];
    assert Honoured(catalog, lines[0]);
    assert lines[1..] == [];
  }

  // ---------------------------------------------------------------------------
  // `Stores::sell`
  // ---------------------------------------------------------------------------

  /** Selling `quantity` units of `item`: nothing when it is sold out or short, otherwise the price paid and the stock left. */
  function SaleOf(item: Record, quantity: int): (int, int) {
    if quantity > item.quantity || item.quantity == 0 then (0, 0)
    else (item.value * quantity, item.quantity - quantity)
  }

  /**
   * A sale either pays nothing and leaves nothing, or leaves stock that is not
   * negative and adds back up to the old stock, at the item's price; the stock
   * left is what checkout would leave for the same quantity.
   */
  lemma SaleAccounts(item: Record, quantity: int)
    ensures var (paid, left) := SaleOf(item, quantity);
      (paid, left) == (0, 0)
      || (left >= 0 && left + quantity == item.quantity && paid == item.value * quantity
          && left == Deducted(item, CartLine(item, quantity)).quantity)
    ensures item.quantity == 0 || quantity > item.quantity ==> SaleOf(item, quantity) == (0, 0)
  {
  }

  /**
   * `sell`: find an item with the requested name (which one, when several
   * share it, depends on the map's order) and, unless it is sold out or short,
   * write the reduced item into the catalog and return the price and the stock
   * left. The catalog is taken by value, so the write lands in a copy the
   * caller never sees.
   */
  method Sell(stores: Collection, request: Record) returns (total: int, remaining: int)
    requires stores.Valid() && AllWellFormed(stores.items)
    requires forall k ::
      (k in stores.items && stores.items[k].name == request.name
       && request.quantity <= stores.items[k].quantity && stores.items[k].quantity != 0) ==>
      InI64(stores.items[k].quantity - request.quantity)
    ensures (forall k :: k in stores.items ==> stores.items[k].name != request.name) ==> total == 0 && remaining == 0
    ensures (exists k :: k in stores.items && stores.items[k].name == request.name) ==>
      exists k :: k in stores.items && stores.items[k].name == request.name
        && (total, remaining) == SaleOf(stores.items[k], request.quantity)
  {
    var own := stores.Clone();
    var named := set k | k in own.items && own.items[k].name == request.name;
    assert forall k :: k in stores.items && stores.items[k].name == request.name ==> k in named;
    if named == {} {
      return 0, 0;
    }
    HasMember(named);
    var k :| k in named;
    var item := own.items[k];
    if request.quantity > item.quantity || item.quantity == 0 {
      return 0, 0;
    }
    Restock(own, Record(item.id, item.name, item.quantity - request.quantity, item.value));
    total, remaining := item.value * request.quantity, item.quantity - request.quantity;
  }

  /** The write-back inside `sell`: the reduced item is printed as a line, parsed again and filed under its id. */
  method Restock(c: Collection, reduced: Record)
    requires c.Valid() && WellFormed(reduced)
    modifies c
    ensures c.Valid() && c.items == old(c.items)[reduced.id := reduced]
  {
    ParseFormat(StoreFile, reduced);
    var parsed := ParseRecord(StoreFile, FormatFields(reduced));
    c.Add(parsed.value);
  }
}
