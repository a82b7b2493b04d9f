/**
  The point-of-sale component's state and its transitions: the product list and the
  sales ledger it holds, the two forms a transition reads (the sale form and the
  add-product form), the delete confirmation, and the operations that change them.
  `Date.now()` ids come from the `clock` counter; the current time is a parameter.
 */
module Pos {
  import opened Wrappers
  import opened Seqs
  import opened Clock
  import opened Catalog
  import opened Ledger

  /** The sale form. `productId` is `None` while no product is chosen: the empty option
      value does not parse as an id. */
  datatype SaleForm = SaleForm(productId: Option<int>, size: string, quantity: int, payment: Payment)

  const BLANK_SALE_FORM: SaleForm := SaleForm(None, "", 1, Cash)

  /** The quantity field's `Math.max(1, n)`: a sale is never for fewer than one pair. */
  function ClampQuantity(n: int): (r: int)
    ensures r >= 1
    ensures n >= 1 ==> r == n
    ensures n < 1 ==> r == 1
  {
    if n > 1 then n else 1
  }

  /** Why a sale was refused; the second carries the stock the alert reports. */
  datatype Rejection = NoSuchProduct | NotEnoughStock(available: int)

  datatype Checkout = Checkout(products: seq<Product>, sales: seq<Sale>)

  /** `processSale` on values: find the product, refuse when the chosen size has fewer pairs
      than the quantity, else record the sale at the product's current name and price and
      take the pairs out of stock. */
  function Sell(products: seq<Product>, sales: seq<Sale>, form: SaleForm, saleId: int, now: Timestamp)
    : (r: Result<Checkout, Rejection>)
    requires SizeInAll(products, form.size)
    ensures var found := FindProduct(products, form.productId);
            && (found.None? ==> r == Failure(NoSuchProduct))
            && (found.Some? ==>
                  var p := products[found.value];
                  var stock := p.sizes[form.size];
                  && (r.Failure? <==> stock < form.quantity)
                  && (r.Failure? ==> r.error == NotEnoughStock(stock))
                  && (r.Success? ==>
                        && |r.value.sales| == |sales| + 1 && r.value.sales[..|sales|] == sales
                        && r.value.sales[|sales|] == Sale(saleId, p.name, form.size, form.quantity,
                                                          p.price, p.price * form.quantity, form.payment, now)))
  {
    var found := FindProduct(products, form.productId);
    if found.None? then Failure(NoSuchProduct)
    else
      var p := products[found.value];
      var stock := p.sizes[form.size];
      if StockCheckRejects(p.sizes, form.size, form.quantity) then Failure(NotEnoughStock(stock))
      else
        var record := Sale(saleId, p.name, form.size, form.quantity,
                           p.price, p.price * form.quantity, form.payment, now);
        Success(Checkout(SetStock(products, p.id, form.size, stock - form.quantity), sales + [record]))
  }

  /** The catalogue after a sale is the stock update of the chosen size to what is left. */
  lemma SellCatalog(products: seq<Product>, sales: seq<Sale>, form: SaleForm, saleId: int, now: Timestamp)
    requires SizeInAll(products, form.size)
    requires Sell(products, sales, form, saleId, now).Success?
    ensures FindProduct(products, form.productId).Some?
    ensures var p := products[FindProduct(products, form.productId).value];
            p.sizes[form.size] >= form.quantity
    ensures var p := products[FindProduct(products, form.productId).value];
            Sell(products, sales, form, saleId, now).value.products
            == SetStock(products, p.id, form.size, p.sizes[form.size] - form.quantity)
    ensures var p := products[FindProduct(products, form.productId).value];
            Sell(products, sales, form, saleId, now).value.sales
            == sales + [Sale(saleId, p.name, form.size, form.quantity, p.price, p.price * form.quantity,
                             form.payment, now)]
  {
  }

  /** A sale takes exactly the quantity out of the chosen size, which stays non-negative;
      every other size and every other product is unchanged. */
  lemma SellStockEffect(products: seq<Product>, sales: seq<Sale>, form: SaleForm, saleId: int, now: Timestamp)
    requires SizeInAll(products, form.size) && UniqueIds(products)
    requires Sell(products, sales, form, saleId, now).Success?
    ensures var i := FindProduct(products, form.productId).value;
            var after := Sell(products, sales, form, saleId, now).value.products;
            |after| == |products|
            && after[i].sizes[form.size] == products[i].sizes[form.size] - form.quantity >= 0
            && after[i].sizes.Keys == products[i].sizes.Keys
            && (forall l :: l in products[i].sizes && l != form.size ==> after[i].sizes[l] == products[i].sizes[l])
            && (forall j :: 0 <= j < |products| && j != i ==> after[j] == products[j])
  {
    var i := FindProduct(products, form.productId).value;
    var left := products[i].sizes[form.size] - form.quantity;
    SellCatalog(products, sales, form, saleId, now);
    SetStockOne(products, i, form.size, left);
  }

  /** Pairs are conserved: what leaves the stock is what the ledger records as sold. */
  lemma SellConservesPairs(products: seq<Product>, sales: seq<Sale>, form: SaleForm, saleId: int, now: Timestamp)
    requires WellFormedCatalog(products) && UniqueIds(products) && SizeInAll(products, form.size)
    requires Sell(products, sales, form, saleId, now).Success?
    ensures var after := Sell(products, sales, form, saleId, now).value;
            TotalItems(after.products) + UnitsSold(after.sales) == TotalItems(products) + UnitsSold(sales)
  {
    SellCatalog(products, sales, form, saleId, now);
    var i := FindProduct(products, form.productId).value;
    var p := products[i];
    var left := p.sizes[form.size] - form.quantity;
    var after := Sell(products, sales, form, saleId, now).value;
    var record := Sale(saleId, p.name, form.size, form.quantity, p.price, p.price * form.quantity,
                       form.payment, now);
    assert after.products == SetStock(products, p.id, form.size, left);
    assert after.sales == sales + [record];
    SetStockTotal(products, i, form.size, left);
    assert TotalItems(after.products) == TotalItems(products) - p.sizes[form.size] + left;
    UnitsSoldAppend(sales, record);
    assert UnitsSold(after.sales) == UnitsSold(sales) + form.quantity;
  }


  /** A sale adds price times quantity to the revenue of its own day and nothing to any
      other day's. */
  lemma SellRevenue(products: seq<Product>, sales: seq<Sale>, form: SaleForm, saleId: int, now: Timestamp, day: int)
    requires SizeInAll(products, form.size)
    requires Sell(products, sales, form, saleId, now).Success?
    ensures var p := products[FindProduct(products, form.productId).value];
            var ledger := Sell(products, sales, form, saleId, now).value.sales;
            TodaysTotal(ledger, day)
            == TodaysTotal(sales, day) + (if day == now.day then p.price * form.quantity else 0)
  {
    var ledger := Sell(products, sales, form, saleId, now).value.sales;
    assert ledger == sales + [ledger[|sales|]];
    TodaysTotalAppend(sales, ledger[|sales|], day);
  }

  /** A sale keeps the catalogue's shape, its ids, their uniqueness and non-negative stock. */
  lemma SellKeepsInvariants(products: seq<Product>, sales: seq<Sale>, form: SaleForm, saleId: int, now: Timestamp)
    requires SizeInAll(products, form.size)
    requires Sell(products, sales, form, saleId, now).Success?
    ensures var after := Sell(products, sales, form, saleId, now).value.products;
            |after| == |products| && forall j :: 0 <= j < |products| ==> after[j].id == products[j].id
    ensures var after := Sell(products, sales, form, saleId, now).value.products;
            && (WellFormedCatalog(products) ==> WellFormedCatalog(after))
            && (UniqueIds(products) ==> UniqueIds(after))
            && (StockNonNegative(products) ==> StockNonNegative(after))
  {
    SellCatalog(products, sales, form, saleId, now);
    var p := products[FindProduct(products, form.productId).value];
    var left := p.sizes[form.size] - form.quantity;
    SetStockKeepsInvariants(products, p.id, form.size, left);
  }

  /** The state after a sale keeps the component's invariants, with every id below the
      next one handed out. */
  lemma CheckoutKeepsInvariants(products: seq<Product>, sales: seq<Sale>, form: SaleForm, saleId: int,
                                now: Timestamp, c: Checkout)
    requires WellFormedCatalog(products) && UniqueIds(products) && SizeInAll(products, form.size)
    requires forall i :: 0 <= i < |products| ==> products[i].id < saleId
    requires forall k :: 0 <= k < |sales| ==> sales[k].id < saleId
    requires Sell(products, sales, form, saleId, now) == Success(c)
    ensures WellFormedCatalog(c.products) && UniqueIds(c.products)
    ensures forall i :: 0 <= i < |c.products| ==> c.products[i].id < saleId + 1
    ensures forall k :: 0 <= k < |c.sales| ==> c.sales[k].id < saleId + 1
    ensures StockNonNegative(products) ==> StockNonNegative(c.products)
  {
    SellKeepsInvariants(products, sales, form, saleId, now);
    assert forall k :: 0 <= k < |sales| ==> c.sales[k] == sales[k];
  }

  /** The delete confirmation dialog and the product it is about. */
  datatype DeleteDialog = DeleteDialog(open: bool, productId: Option<int>)

  const CLOSED_DIALOG: DeleteDialog := DeleteDialog(false, None)

  /** What a sale attempt reports to the cashier. */
  datatype SaleOutcome = Completed(total: int) | Rejected(reason: Rejection)

  /** The `ShoePOSSystem` component's state. */
  class ShoePos {
    var products: seq<Product>
    var sales: seq<Sale>
    var currentSale: SaleForm
    var newProduct: Draft
    var confirmDelete: DeleteDialog
    /** Stands for `Date.now()`: above every id handed out so far. */
    var clock: int

    ghost predicate Valid()
      reads this
    {
      && WellFormedCatalog(products)
      && UniqueIds(products)
      && (forall i :: 0 <= i < |products| ==> products[i].id < clock)
      && (forall k :: 0 <= k < |sales| ==> sales[k].id < clock)
      && currentSale.quantity >= 1
      && WellFormedTable(newProduct.sizes)
    }

    /** A first start: nothing saved, both forms blank, no dialog open. */
    constructor ()
      ensures Valid()
      ensures products == [] && sales == []
      ensures currentSale == BLANK_SALE_FORM && newProduct == BLANK_DRAFT
      ensures confirmDelete == CLOSED_DIALOG
    {
      products := [];
      sales := [];
      currentSale := BLANK_SALE_FORM;
      newProduct := BLANK_DRAFT;
      confirmDelete := CLOSED_DIALOG;
      clock := 0;
      BlankDraftIsEmpty();
    }

    /** The add-product form's inputs: they edit name, price and the existing size cells. */
    method EditNewProduct(d: Draft)
      requires Valid() && WellFormedTable(d.sizes)
      modifies this`newProduct
      ensures Valid() && newProduct == d
    {
      newProduct := d;
    }

    /** The sale form's inputs; the quantity is clamped to at least one. */
    method EditCurrentSale(productId: Option<int>, size: string, quantity: int, payment: Payment)
      requires Valid()
      modifies this`currentSale
      ensures Valid()
      ensures currentSale == SaleForm(productId, size, ClampQuantity(quantity), payment)
    {
      currentSale := SaleForm(productId, size, ClampQuantity(quantity), payment);
    }

    /** `addProduct`: with an empty name or price field nothing changes; otherwise the
        product built from the form is appended with a fresh id and the form is reset. */
    method AddProduct(now: Timestamp) returns (added: bool)
      requires Valid()
      modifies this`products, this`newProduct, this`clock
      ensures Valid()
      ensures added <==> NewProduct(old(newProduct), old(clock), now).Some?
      ensures !added ==> products == old(products) && newProduct == old(newProduct) && clock == old(clock)
      ensures added ==> products == old(products) + [NewProduct(old(newProduct), old(clock), now).value]
                        && newProduct == BLANK_DRAFT && clock == old(clock) + 1
      ensures StockNonNegative(old(products)) && NonNegativeTable(old(newProduct).sizes)
              ==> StockNonNegative(products)
    {
      if newProduct.name == "" || newProduct.price.None? {
        return false;
      }
      var product := Product(clock, Text.Trim(newProduct.name), newProduct.price.value,
                             newProduct.sizes, now);
      products := products + [product];
      clock := clock + 1;
      newProduct := BLANK_DRAFT;
      BlankDraftIsEmpty();
      added := true;
    }

    /** `updateProductStock`: the cell is set to `max(0, newQty)` in every product with the id. */
    method UpdateProductStock(id: int, size: string, newQty: int)
      requires Valid() && IsSizeLabel(size)
      modifies this`products
      ensures Valid()
      ensures products == SetStock(old(products), id, size, newQty)
      ensures StockNonNegative(old(products)) ==> StockNonNegative(products)
    {
      LabelInAll(products, size);
      SetStockKeepsInvariants(products, id, size, newQty);
      products := SetStock(products, id, size, newQty);
    }

    /** `deleteProduct`: only opens the confirmation for the id. */
    method DeleteProduct(id: int)
      requires Valid()
      modifies this`confirmDelete
      ensures Valid()
      ensures confirmDelete == DeleteDialog(true, Some(id))
    {
      confirmDelete := DeleteDialog(true, Some(id));
    }

    /** `handleConfirmDelete`: removes the products with the dialog's id and closes it. */
    method ConfirmDelete()
      requires Valid()
      modifies this`products, this`confirmDelete
      ensures Valid()
      ensures products == RemoveProduct(old(products), old(confirmDelete.productId))
      ensures confirmDelete == CLOSED_DIALOG
      ensures StockNonNegative(old(products)) ==> StockNonNegative(products)
    {
      RemoveProductKeepsInvariants(products, confirmDelete.productId);
      products := RemoveProduct(products, confirmDelete.productId);
      confirmDelete := CLOSED_DIALOG;
    }

    /** `handleCancelDelete`: closes the dialog. */
    method CancelDelete()
      requires Valid()
      modifies this`confirmDelete
      ensures Valid()
      ensures confirmDelete == CLOSED_DIALOG
    {
      confirmDelete := CLOSED_DIALOG;
    }

    /** `processSale`: the decision and the new lists are `Sell`'s; a refused sale changes
        nothing, not even the form; a completed one takes the new lists, hands out the
        sale's id and resets the form. The chosen
        size must be one of the thirteen labels, which the form's size list guarantees. */
    method ProcessSale(now: Timestamp) returns (outcome: SaleOutcome)
      requires Valid() && IsSizeLabel(currentSale.size)
      modifies this`products, this`sales, this`currentSale, this`clock
      ensures Valid()
      ensures var r := Sell(old(products), old(sales), old(currentSale), old(clock), now);
              && (r.Failure? ==>
                    outcome == Rejected(r.error)
                    && products == old(products) && sales == old(sales)
                    && currentSale == old(currentSale) && clock == old(clock))
              && (r.Success? ==>
                    products == r.value.products && sales == r.value.sales
                    && outcome == Completed(sales[|sales| - 1].total)
                    && currentSale == BLANK_SALE_FORM && clock == old(clock) + 1)
      ensures StockNonNegative(old(products)) ==> StockNonNegative(products)
    {
      LabelInAll(products, currentSale.size);
      var r := Sell(products, sales, currentSale, clock, now);
      if r.Failure? {
        return Rejected(r.error);
      }
      CheckoutKeepsInvariants(products, sales, currentSale, clock, now, r.value);
      clock, sales, products := clock + 1, r.value.sales, r.value.products;
      currentSale := BLANK_SALE_FORM;
      outcome := Completed(sales[|sales| - 1].total);
    }
  }

  /** A cashier's session: a product at 1000.00 with two pairs of size 9 sells both pairs
      for 2000.00, after which the sale form is blank again. */
  method SellOutScenario(name: string, morning: Timestamp, noon: Timestamp)
    requires name != ""
  {
    var pos := new ShoePos();
    var stock := EMPTY_TABLE["9" := 2];
    pos.EditNewProduct(Draft(name, Some(100000), stock));
    var added := pos.AddProduct(morning);
    assert added;
    var id := pos.products[0].id;
    assert pos.products[0].price == 100000 && pos.products[0].sizes == stock;
    pos.EditCurrentSale(Some(id), "9", 2, Cash);
    assert FindProduct(pos.products, Some(id)) == Some(0);
    assert Sell(pos.products, pos.sales, pos.currentSale, pos.clock, noon).Success?;
    var outcome := pos.ProcessSale(noon);
    assert outcome == Completed(200000);
    assert pos.currentSale == BLANK_SALE_FORM;
  }

  /** A sale of a size with no pairs left is refused, reports none available, and records
      nothing. */
  method NoStockScenario(name: string, morning: Timestamp, noon: Timestamp)
    requires name != ""
  {
    var pos := new ShoePos();
    pos.EditNewProduct(Draft(name, Some(100000), EMPTY_TABLE));
    var added := pos.AddProduct(morning);
    assert added;
    var id := pos.products[0].id;
    assert pos.products[0].sizes == EMPTY_TABLE && EMPTY_TABLE["9"] == 0;
    pos.EditCurrentSale(Some(id), "9", 1, Card);
    assert FindProduct(pos.products, Some(id)) == Some(0);
    assert Sell(pos.products, pos.sales, pos.currentSale, pos.clock, noon) == Failure(NotEnoughStock(0));
    var ledger := pos.sales;
    var outcome := pos.ProcessSale(noon);
    assert outcome == Rejected(NotEnoughStock(0));
    assert pos.sales == ledger;
  }
}
