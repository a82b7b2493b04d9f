/**
  The product catalogue of the shoe shop: products with a price and a stock table of
  thirteen shoe sizes, and the pure operations the component applies to the list of
  products (`find`, the stock-updating `map`, the deleting `filter`, the stock sums, the
  sizes offered for sale and the stock colour of a cell).
  Prices are integer cents.
 */
module Catalog {
  import opened Wrappers
  import opened Seqs
  import opened Text
  import opened Clock

  /** The thirteen size labels, sizes 6 to 12 in half steps, in the order JavaScript
      enumerates the keys of the size table: the integer-like keys ascending first, then
      the half sizes in the order the table literal lists them. */
  const SIZE_LABELS: seq<string> :=
    ["6", "7", "8", "9", "10", "11", "12", "6.5", "7.5", "8.5", "9.5", "10.5", "11.5"]

  predicate IsSizeLabel(s: string)
  {
    s in SIZE_LABELS
  }

  lemma SizeLabelsDistinct()
    ensures |SIZE_LABELS| == 13 && Distinct(SIZE_LABELS)
  {
  }

  /** A product's `sizes` object: stock count per size label. */
  type SizeTable = map<string, int>

  /** The table has exactly the thirteen size labels as keys. */
  ghost predicate WellFormedTable(t: SizeTable)
  {
    forall l :: l in t <==> l in SIZE_LABELS
  }

  predicate NonNegativeTable(t: SizeTable)
  {
    forall l :: l in t ==> t[l] >= 0
  }

  /** The table of a new-product form: every size at 0. */
  const EMPTY_TABLE: SizeTable := map l | l in SIZE_LABELS :: 0

  datatype Product = Product(id: int, name: string, price: int, sizes: SizeTable, dateAdded: Timestamp)

  /** The contents of the add-product form. `price` is `None` while the price field is empty. */
  datatype Draft = Draft(name: string, price: Option<int>, sizes: SizeTable)

  const BLANK_DRAFT: Draft := Draft("", None, EMPTY_TABLE)

  lemma BlankDraftIsEmpty()
    ensures WellFormedTable(BLANK_DRAFT.sizes) && NonNegativeTable(BLANK_DRAFT.sizes)
    ensures StockSum(BLANK_DRAFT.sizes) == 0
  {
    EmptyCellSum(SIZE_LABELS);
  }

  lemma {:induction false} EmptyCellSum(labels: seq<string>)
    requires forall k :: 0 <= k < |labels| ==> labels[k] in SIZE_LABELS
    ensures CellSum(EMPTY_TABLE, labels) == 0
  {
    if labels != [] {
      EmptyCellSum(labels[1..]);
    }
  }

  /** The product that `addProduct` builds from the form, or `None` when the name or the
      price field is empty. Only emptiness is checked: a name made of spaces passes and is
      trimmed to nothing, and a price of 0 passes. The stock table is taken as entered. */
  function NewProduct(d: Draft, id: int, now: Timestamp): (r: Option<Product>)
    ensures r.None? <==> d.name == "" || d.price.None?
    ensures r.Some? ==> r.value == Product(id, Trim(d.name), d.price.value, d.sizes, now)
  {
    if d.name == "" || d.price.None? then None
    else Some(Product(id, Trim(d.name), d.price.value, d.sizes, now))
  }

  /** A stored name is already trimmed, and it is empty exactly when the entered name was
      made of whitespace only (which the emptiness check lets through). */
  lemma NewProductName(d: Draft, id: int, now: Timestamp)
    requires NewProduct(d, id, now).Some?
    ensures Trim(NewProduct(d, id, now).value.name) == NewProduct(d, id, now).value.name
    ensures NewProduct(d, id, now).value.name == "" <==> AllWhitespace(d.name)
  {
    TrimIdempotent(d.name);
    TrimEmptyIffBlank(d.name);
  }

  // ---- Stock sums -------------------------------------------------------------

  function Cell(t: SizeTable, l: string): int
  {
    if l in t then t[l] else 0
  }

  function CellSum(t: SizeTable, labels: seq<string>): int
  {
    if labels == [] then 0 else Cell(t, labels[0]) + CellSum(t, labels[1..])
  }

  /** `Object.values(sizes).reduce((sum, qty) => sum + qty, 0)`: the pairs in stock of one product. */
  function StockSum(t: SizeTable): int
  {
    CellSum(t, SIZE_LABELS)
  }

  /** Setting one cell changes the sum over distinct labels by the change of that cell. */
  lemma {:induction false} CellSumUpdate(t: SizeTable, labels: seq<string>, k: string, v: int)
    requires Distinct(labels)
    ensures CellSum(t[k := v], labels) == CellSum(t, labels) + (if k in labels then v - Cell(t, k) else 0)
  {
    if labels != [] {
      var rest := labels[1..];
      assert Distinct(rest);
      CellSumUpdate(t, rest, k, v);
      if labels[0] == k {
        assert k !in rest;
      } else {
        assert k in labels <==> k in rest;
      }
    }
  }

  lemma {:induction false} CellSumNonNegative(t: SizeTable, labels: seq<string>)
    requires NonNegativeTable(t)
    ensures CellSum(t, labels) >= 0
  {
    if labels != [] {
      CellSumNonNegative(t, labels[1..]);
    }
  }

  /** Changing the stock of one size changes the product's total by exactly that change. */
  lemma StockSumUpdate(t: SizeTable, size: string, v: int)
    requires WellFormedTable(t) && IsSizeLabel(size)
    ensures StockSum(t[size := v]) == StockSum(t) - t[size] + v
  {
    SizeLabelsDistinct();
    CellSumUpdate(t, SIZE_LABELS, size, v);
  }

  function ProductStock(p: Product): int
  {
    StockSum(p.sizes)
  }

  /** `totalItems`: the pairs in stock across the whole catalogue. */
  function TotalItems(ps: seq<Product>): int
  {
    SumOf(ps, ProductStock)
  }

  predicate StockNonNegative(ps: seq<Product>)
  {
    forall i :: 0 <= i < |ps| ==> NonNegativeTable(ps[i].sizes)
  }

  lemma TotalItemsNonNegative(ps: seq<Product>)
    requires StockNonNegative(ps)
    ensures TotalItems(ps) >= 0
  {
    forall k | 0 <= k < |ps|
      ensures ProductStock(ps[k]) >= 0
    {
      CellSumNonNegative(ps[k].sizes, SIZE_LABELS);
    }
    SumOfNonNegative(ps, ProductStock);
  }

  // ---- The product list ---------------------------------------------------------

  ghost predicate WellFormedCatalog(ps: seq<Product>)
  {
    forall i :: 0 <= i < |ps| ==> WellFormedTable(ps[i].sizes)
  }

  /** `size` is a key of every product's table, so `sizes[size]` is a number. */
  predicate SizeInAll(ps: seq<Product>, size: string)
  {
    forall i :: 0 <= i < |ps| ==> size in ps[i].sizes
  }

  /** In a well-formed catalogue every table has every size label as a key. */
  lemma LabelInAll(ps: seq<Product>, size: string)
    requires WellFormedCatalog(ps) && IsSizeLabel(size)
    ensures SizeInAll(ps, size)
  {
  }

  predicate UniqueIds(ps: seq<Product>)
  {
    forall i, j :: 0 <= i < j < |ps| ==> ps[i].id != ps[j].id
  }

  /** `products.find(p => p.id === id)`, as an index; an id that did not parse (`NaN`)
      is `None` and matches nothing. */
  function FindProduct(ps: seq<Product>, id: Option<int>): (r: Option<nat>)
    ensures r.Some? ==> r.value < |ps| && Some(ps[r.value].id) == id
    ensures r.Some? ==> forall j :: 0 <= j < r.value ==> Some(ps[j].id) != id
    ensures r.None? ==> forall j :: 0 <= j < |ps| ==> Some(ps[j].id) != id
  {
    if ps == [] then None
    else if Some(ps[0].id) == id then Some(0)
    else match FindProduct(ps[1..], id)
      case None => None
      case Some(k) => Some(k + 1)
  }

  /** `Math.max(0, q)`. */
  function AtLeastZero(q: int): (r: int)
    ensures r >= 0 && r >= q && (r == q || r == 0)
  {
    if q > 0 then q else 0
  }

  /** `updateProductStock`'s new list: every product with the id gets the cell of `size`
      set to `max(0, newQty)`; everything else is left as it was. */
  function SetStock(ps: seq<Product>, id: int, size: string, newQty: int): seq<Product>
  {
    seq(|ps|, i requires 0 <= i < |ps| =>
      if ps[i].id == id then ps[i].(sizes := ps[i].sizes[size := AtLeastZero(newQty)]) else ps[i])
  }

  /** The update keeps the order, the length and every product's other fields; each
      product with the id gets cell `size` set to `max(0, newQty)` and keeps its other
      cells; every other product is unchanged. */
  lemma SetStockEffect(ps: seq<Product>, id: int, size: string, newQty: int)
    ensures var r := SetStock(ps, id, size, newQty);
            && |r| == |ps|
            && (forall i :: 0 <= i < |ps| ==>
                  r[i].id == ps[i].id && r[i].name == ps[i].name && r[i].price == ps[i].price
                  && r[i].dateAdded == ps[i].dateAdded)
            && (forall i :: 0 <= i < |ps| && ps[i].id != id ==> r[i] == ps[i])
            && (forall i :: 0 <= i < |ps| && ps[i].id == id ==>
                  r[i].sizes.Keys == ps[i].sizes.Keys + {size} && r[i].sizes[size] == AtLeastZero(newQty)
                  && forall l :: l in ps[i].sizes && l != size ==> r[i].sizes[l] == ps[i].sizes[l])
  {
  }

  /** With unique ids, the update touches exactly the one product that has the id. */
  lemma SetStockOne(ps: seq<Product>, i: nat, size: string, newQty: int)
    requires UniqueIds(ps) && i < |ps|
    ensures SetStock(ps, ps[i].id, size, newQty)
            == ps[i := ps[i].(sizes := ps[i].sizes[size := AtLeastZero(newQty)])]
  {
    var r := SetStock(ps, ps[i].id, size, newQty);
    var e := ps[i := ps[i].(sizes := ps[i].sizes[size := AtLeastZero(newQty)])];
    SetStockEffect(ps, ps[i].id, size, newQty);
    forall j | 0 <= j < |ps|
      ensures r[j] == e[j]
    {
      if j != i {
        assert ps[j].id != ps[i].id by {
          if j < i { assert ps[j].id != ps[i].id; } else { assert ps[i].id != ps[j].id; }
        }
      }
    }
  }

  /** Updating a size every table already has keeps the catalogue's shape, its ids and
      non-negative stock. */
  lemma SetStockKeepsInvariants(ps: seq<Product>, id: int, size: string, newQty: int)
    requires SizeInAll(ps, size)
    ensures var r := SetStock(ps, id, size, newQty);
            |r| == |ps| && forall j :: 0 <= j < |ps| ==> r[j].id == ps[j].id
    ensures WellFormedCatalog(ps) ==> WellFormedCatalog(SetStock(ps, id, size, newQty))
    ensures UniqueIds(ps) ==> UniqueIds(SetStock(ps, id, size, newQty))
    ensures StockNonNegative(ps) ==> StockNonNegative(SetStock(ps, id, size, newQty))
  {
    SetStockEffect(ps, id, size, newQty);
  }

  /** The catalogue total moves by the change of the one cell that was set. */
  lemma SetStockTotal(ps: seq<Product>, i: nat, size: string, newQty: int)
    requires UniqueIds(ps) && WellFormedCatalog(ps) && i < |ps| && size in ps[i].sizes
    ensures TotalItems(SetStock(ps, ps[i].id, size, newQty))
            == TotalItems(ps) - ps[i].sizes[size] + AtLeastZero(newQty)
  {
    var p := ps[i];
    assert IsSizeLabel(size);
    var q := p.(sizes := p.sizes[size := AtLeastZero(newQty)]);
    SetStockOne(ps, i, size, newQty);
    SumOfUpdate(ps, i, q, ProductStock);
    StockSumUpdate(p.sizes, size, AtLeastZero(newQty));
  }

  /** `products.filter(p => p.id !== target)`: a `null` target (`None`) removes nothing. */
  function RemoveProduct(ps: seq<Product>, target: Option<int>): (r: seq<Product>)
    ensures forall k :: 0 <= k < |r| ==> r[k] in ps && Some(r[k].id) != target
    ensures forall k :: 0 <= k < |ps| && Some(ps[k].id) != target ==> ps[k] in r
    ensures IsSubsequence(r, ps)
  {
    FilterMembers(ps, (p: Product) => Some(p.id) != target);
    Filter(ps, (p: Product) => Some(p.id) != target)
  }

  /** Deleting an id that is present removes exactly that product and keeps the others in
      order; deleting an absent id or `null` changes nothing. */
  lemma RemoveProductShape(ps: seq<Product>, target: Option<int>)
    requires UniqueIds(ps)
    ensures FindProduct(ps, target).None? ==> RemoveProduct(ps, target) == ps
    ensures FindProduct(ps, target).Some? ==>
              var i := FindProduct(ps, target).value;
              RemoveProduct(ps, target) == ps[..i] + ps[i + 1..]
  {
    var keep := (p: Product) => Some(p.id) != target;
    match FindProduct(ps, target)
    case None =>
      FilterKeepsAll(ps, keep);
    case Some(i) =>
      forall k | 0 <= k < |ps| && k != i
        ensures keep(ps[k])
      {
        if k > i {
          assert ps[i].id != ps[k].id;
        }
      }
      FilterDropsOne(ps, i, keep);
  }

  /** The list with position `i` dropped: every later product moves down by one. */
  lemma DropAt(ps: seq<Product>, i: nat)
    requires i < |ps|
    ensures |ps[..i] + ps[i + 1..]| == |ps| - 1
    ensures forall k :: 0 <= k < i ==> (ps[..i] + ps[i + 1..])[k] == ps[k]
    ensures forall k :: i < k < |ps| ==> (ps[..i] + ps[i + 1..])[k - 1] == ps[k]
  {
  }

  lemma DropAtKeepsUniqueIds(ps: seq<Product>, i: nat)
    requires UniqueIds(ps) && i < |ps|
    ensures UniqueIds(ps[..i] + ps[i + 1..])
  {
    DropAt(ps, i);
    var r := ps[..i] + ps[i + 1..];
    forall a, b | 0 <= a < b < |r|
      ensures r[a].id != r[b].id
    {
      var a', b' := if a < i then a else a + 1, if b < i then b else b + 1;
      assert r[a] == ps[a'] && r[b] == ps[b'] && a' < b';
    }
  }

  /** Removing keeps the catalogue's shape, its unique ids and non-negative stock. */
  lemma RemoveProductKeepsInvariants(ps: seq<Product>, target: Option<int>)
    requires UniqueIds(ps)
    ensures UniqueIds(RemoveProduct(ps, target))
    ensures WellFormedCatalog(ps) ==> WellFormedCatalog(RemoveProduct(ps, target))
    ensures StockNonNegative(ps) ==> StockNonNegative(RemoveProduct(ps, target))
  {
    RemoveProductShape(ps, target);
    if FindProduct(ps, target).Some? {
      var i := FindProduct(ps, target).value;
      DropAt(ps, i);
      DropAtKeepsUniqueIds(ps, i);
    }
  }

  // ---- The stock check and the sizes offered for sale -------------------------

  /** The stock check `product.sizes[size] < quantity` of a sale. A size that is not a key
      reads as `undefined`, and `undefined < quantity` is false: such a size is never
      rejected. */
  predicate StockCheckRejects(t: SizeTable, size: string, quantity: int)
  {
    size in t && t[size] < quantity
  }

  lemma MissingSizeIsNotRejected(t: SizeTable, size: string, quantity: int)
    requires size !in t
    ensures !StockCheckRejects(t, size, quantity)
  {
  }

  /** `Object.entries(sizes)` of a well-formed table, in key order. */
  function Entries(t: SizeTable): (r: seq<(string, int)>)
    requires WellFormedTable(t)
    ensures forall i, j :: 0 <= i < j < |r| ==> r[i].0 != r[j].0
    ensures forall l :: l in t <==> exists k :: 0 <= k < |r| && r[k].0 == l
    ensures forall k :: 0 <= k < |r| ==> r[k].1 == t[r[k].0]
    ensures |r| == |SIZE_LABELS| && forall k :: 0 <= k < |r| ==> r[k].0 == SIZE_LABELS[k]
  {
    SizeLabelsDistinct();
    var r := seq(|SIZE_LABELS|, k requires 0 <= k < |SIZE_LABELS| => (SIZE_LABELS[k], t[SIZE_LABELS[k]]));
    forall l | l in t
      ensures exists k :: 0 <= k < |r| && r[k].0 == l
    {
      var k :| 0 <= k < |SIZE_LABELS| && SIZE_LABELS[k] == l;
      assert r[k].0 == l;
    }
    r
  }


  /** The sizes the sale form offers: the entries with stock above zero, in key order. */
  function SizesInStock(t: SizeTable): (r: seq<(string, int)>)
    requires WellFormedTable(t)
    ensures forall k :: 0 <= k < |r| ==> r[k].0 in t && r[k].1 == t[r[k].0] && r[k].1 > 0
    ensures forall l :: l in t && t[l] > 0 ==> (l, t[l]) in r
    ensures IsSubsequence(r, Entries(t))
  {
    var e := Entries(t);
    var r := Filter(e, (entry: (string, int)) => entry.1 > 0);
    FilterMembers(e, (entry: (string, int)) => entry.1 > 0);
    forall l | l in t && t[l] > 0
      ensures (l, t[l]) in r
    {
      var k :| 0 <= k < |e| && e[k].0 == l;
      assert e[k] == (l, t[l]);
    }
    r
  }

  /** A size chosen from the offered list is a key of the table with stock, so the stock
      check of a sale compares against a real cell and lets a single pair through. */
  lemma OfferedSizeIsSellable(t: SizeTable, k: nat)
    requires WellFormedTable(t) && k < |SizesInStock(t)|
    ensures IsSizeLabel(SizesInStock(t)[k].0)
    ensures !StockCheckRejects(t, SizesInStock(t)[k].0, 1)
  {
  }

  // ---- Stock colour ------------------------------------------------------------------

  /** The colour of a stock cell: red for 0, yellow below 3, green otherwise. */
  datatype StockLevel = OutOfStock | LowStock | InStock

  function StockLevelOf(qty: int): (r: StockLevel)
    ensures r == OutOfStock <==> qty == 0
    ensures r == InStock <==> qty >= 3
  {
    if qty == 0 then OutOfStock else if qty < 3 then LowStock else InStock
  }

  /** On non-negative counts the colours are ordered by the count; a negative count, which
      the add-product form can store, shows as yellow. */
  lemma StockLevelOrder(a: int, b: int)
    requires 0 <= a <= b
    ensures StockLevelOf(a) == InStock ==> StockLevelOf(b) == InStock
    ensures StockLevelOf(b) == OutOfStock ==> StockLevelOf(a) == OutOfStock
    ensures StockLevelOf(-1 - a) == LowStock
  {
  }
}
