/**
 * The filterable product table of "Thinking in React": the products that pass
 * the search text and the in-stock switch are listed in order, each run of
 * products of one category headed by a category row.
 */
module ProductTable {
  import opened Prelude

  datatype Product = Product(category: string, price: string, stocked: bool, name: string)

  /** A table row: a `ProductCategoryRow` or a `ProductRow`. */
  datatype Row = CategoryRow(category: string) | ProductRow(product: Product)

  /**
   * A product is listed when its lower-cased name contains the lower-cased
   * search text, and it is in stock or the in-stock switch is off.
   */
  predicate Kept(p: Product, filterText: string, inStockOnly: bool)
  {
    Find(Lower(p.name), Lower(filterText)).Some? && !(inStockOnly && !p.stocked)
  }

  /** The listed products, in input order. */
  function Filter(products: seq<Product>, filterText: string, inStockOnly: bool): (r: seq<Product>)
    ensures |r| <= |products|
  {
    if |products| == 0 then []
    else
      var p := products[|products| - 1];
      Filter(products[..|products| - 1], filterText, inStockOnly) + (if Kept(p, filterText, inStockOnly) then [p] else [])
  }

  /** Only products of the input that pass both filters are listed. */
  lemma {:induction false} FilterMembers(products: seq<Product>, filterText: string, inStockOnly: bool, p: Product)
    requires p in Filter(products, filterText, inStockOnly)
    ensures p in products && Kept(p, filterText, inStockOnly)
    decreases |products|
  {
    var init := products[..|products| - 1];
    var last := products[|products| - 1];
    if p in Filter(init, filterText, inStockOnly) {
      FilterMembers(init, filterText, inStockOnly, p);
      assert init[..] <= products;
    } else {
      assert p == last;
    }
  }

  /** Whether a header goes before `p` when `previous` were the products listed before it. */
  predicate NeedsHeader(previous: seq<Product>, p: Product)
  {
    previous == [] || previous[|previous| - 1].category != p.category
  }

  /** The rows for a list of listed products: each preceded by a header where the category changes. */
  function Layout(kept: seq<Product>): (rows: seq<Row>)
    ensures |rows| == 0 <==> |kept| == 0
    ensures |kept| > 0 ==> rows[|rows| - 1] == ProductRow(kept[|kept| - 1])
  {
    if |kept| == 0 then []
    else
      var previous := kept[..|kept| - 1];
      var p := kept[|kept| - 1];
      Layout(previous) + (if NeedsHeader(previous, p) then [CategoryRow(p.category)] else []) + [ProductRow(p)]
  }

  lemma FilterStep(products: seq<Product>, i: nat, filterText: string, inStockOnly: bool)
    requires i < |products|
    ensures Filter(products[..i + 1], filterText, inStockOnly)
      == Filter(products[..i], filterText, inStockOnly)
         + (if Kept(products[i], filterText, inStockOnly) then [products[i]] else [])
  {
    assert products[..i + 1][..i] == products[..i];
  }

  lemma LayoutSnoc(kept: seq<Product>, p: Product)
    ensures Layout(kept + [p])
      == Layout(kept) + (if NeedsHeader(kept, p) then [CategoryRow(p.category)] else []) + [ProductRow(p)]
  {
    assert (kept + [p])[..|kept|] == kept;
  }

  /** The rows `ProductTable` renders: their product rows are the listed products, in order. */
  function Rows(products: seq<Product>, filterText: string, inStockOnly: bool): (r: seq<Row>)
    ensures ProductsOf(r) == Filter(products, filterText, inStockOnly)
  {
    LayoutProducts(Filter(products, filterText, inStockOnly));
    Layout(Filter(products, filterText, inStockOnly))
  }

  /** The `forEach` over the products, pushing rows and tracking `lastCategory`. */
  method BuildRows(products: seq<Product>, filterText: string, inStockOnly: bool) returns (rows: seq<Row>)
    ensures rows == Rows(products, filterText, inStockOnly)
  {
    rows := [];
    var lastCategory: Option<string> := None;
    for i := 0 to |products|
      invariant rows == Layout(Filter(products[..i], filterText, inStockOnly))
      invariant lastCategory == LastCategory(Filter(products[..i], filterText, inStockOnly))
    {
      FilterStep(products, i, filterText, inStockOnly);
      rows, lastCategory := VisitProduct(rows, lastCategory, products[i], filterText, inStockOnly,
                                         Filter(products[..i], filterText, inStockOnly));
    }
    assert products[..|products|] == products;
  }

  /** The category of the last listed product: `lastCategory`, with `null` for none yet. */
  function LastCategory(kept: seq<Product>): (c: Option<string>)
    ensures c.None? <==> kept == []
  {
    if kept == [] then None else Some(kept[|kept| - 1].category)
  }

  /**
   * The `forEach` callback for one product: skip it if it fails either filter,
   * else push a header when its category differs from `lastCategory`, then its
   * row. `kept` are the products listed so far.
   */
  method VisitProduct(rows: seq<Row>, lastCategory: Option<string>, product: Product,
                      filterText: string, inStockOnly: bool, ghost kept: seq<Product>)
    returns (rows': seq<Row>, lastCategory': Option<string>)
    requires rows == Layout(kept) && lastCategory == LastCategory(kept)
    ensures var kept' := kept + (if Kept(product, filterText, inStockOnly) then [product] else []);
      rows' == Layout(kept') && lastCategory' == LastCategory(kept')
  {
    rows', lastCategory' := rows, lastCategory;
    if Find(Lower(product.name), Lower(filterText)).None? {
      assert kept + [] == kept;
      return;
    }
    if inStockOnly && !product.stocked {
      assert kept + [] == kept;
      return;
    }
    LayoutSnoc(kept, product);
    if lastCategory != Some(product.category) {
      rows' := rows' + [CategoryRow(product.category)];
    }
    rows' := rows' + [ProductRow(product)];
    lastCategory' := Some(product.category);
  }

  /** The products of the product rows, in order. */
  function ProductsOf(rows: seq<Row>): seq<Product>
  {
    if |rows| == 0 then []
    else (if rows[0].ProductRow? then [rows[0].product] else []) + ProductsOf(rows[1..])
  }

  /** The categories of the header rows, in order. */
  function Headers(rows: seq<Row>): seq<string>
  {
    if |rows| == 0 then []
    else (if rows[0].CategoryRow? then [rows[0].category] else []) + Headers(rows[1..])
  }

  lemma {:induction false} ProductsOfAppend(a: seq<Row>, b: seq<Row>)
    ensures ProductsOf(a + b) == ProductsOf(a) + ProductsOf(b)
    ensures Headers(a + b) == Headers(a) + Headers(b)
    decreases |a|
  {
    if |a| == 0 {
      assert a + b == b;
    } else {
      var ab := a + b;
      assert ab[0] == a[0];
      assert ab[1..] == a[1..] + b;
      ProductsOfAppend(a[1..], b);
      var p: seq<Product> := if a[0].ProductRow? then [a[0].product] else [];
      var h: seq<string> := if a[0].CategoryRow? then [a[0].category] else [];
      assert ProductsOf(ab) == p + ProductsOf(a[1..] + b);
      assert ProductsOf(a) == p + ProductsOf(a[1..]);
      assert Headers(ab) == h + Headers(a[1..] + b);
      assert Headers(a) == h + Headers(a[1..]);
    }
  }

  /** The product rows list exactly the listed products, in order, and there are no more headers than products. */
  lemma {:induction false} LayoutProducts(kept: seq<Product>)
    ensures ProductsOf(Layout(kept)) == kept
    ensures |Headers(Layout(kept))| <= |kept|
    ensures |kept| > 0 ==> |Headers(Layout(kept))| >= 1
    decreases |kept|
  {
    if |kept| > 0 {
      var previous := kept[..|kept| - 1];
      var p := kept[|kept| - 1];
      var header: seq<Row> := if NeedsHeader(previous, p) then [CategoryRow(p.category)] else [];
      LayoutProducts(previous);
      ProductsOfAppend(Layout(previous), header);
      ProductsOfAppend(Layout(previous) + header, [ProductRow(p)]);
      assert ProductsOf([ProductRow(p)]) == [p];
      assert Headers([ProductRow(p)]) == [];
      assert previous + [p] == kept;
      if previous == [] {
        assert Headers(header) == [p.category];
      }
    }
  }

  /**
   * How the rows are grouped: the first row is a header; a header is followed
   * by a product of its category; a header comes after a product only when the
   * category changes; two adjacent products share their category.
   */
  predicate Grouped(rows: seq<Row>)
  {
    (|rows| > 0 ==> rows[0].CategoryRow?)
    && (forall i :: 0 <= i < |rows| && rows[i].CategoryRow? ==>
          i + 1 < |rows| && rows[i + 1].ProductRow? && rows[i + 1].product.category == rows[i].category)
    && (forall i :: 0 < i < |rows| && rows[i].CategoryRow? ==>
          rows[i - 1].ProductRow? && rows[i - 1].product.category != rows[i].category)
    && (forall i :: 0 < i < |rows| && rows[i].ProductRow? && rows[i - 1].ProductRow? ==>
          rows[i - 1].product.category == rows[i].product.category)
  }

  lemma {:induction false} LayoutGrouped(kept: seq<Product>)
    ensures Grouped(Layout(kept))
    decreases |kept|
  {
    if |kept| > 0 {
      var previous := kept[..|kept| - 1];
      var p := kept[|kept| - 1];
      LayoutGrouped(previous);
      var before := Layout(previous);
      var rows := Layout(kept);
      if NeedsHeader(previous, p) {
        assert rows == before + [CategoryRow(p.category), ProductRow(p)];
      } else {
        assert rows == before + [ProductRow(p)];
        assert before[|before| - 1] == ProductRow(previous[|previous| - 1]);
      }
    }
  }

  lemma {:induction false} FilterAppend(xs: seq<Product>, ys: seq<Product>, filterText: string, inStockOnly: bool)
    ensures Filter(xs + ys, filterText, inStockOnly) == Filter(xs, filterText, inStockOnly) + Filter(ys, filterText, inStockOnly)
    decreases |ys|
  {
    if |ys| == 0 {
      assert xs + ys == xs;
    } else {
      var init := ys[..|ys| - 1];
      assert (xs + ys)[..|xs + ys| - 1] == xs + init;
      FilterAppend(xs, init, filterText, inStockOnly);
    }
  }

  /** A product that is filtered out neither adds nor suppresses any row. */
  lemma FilteredOutChangesNothing(xs: seq<Product>, p: Product, ys: seq<Product>, filterText: string, inStockOnly: bool)
    requires !Kept(p, filterText, inStockOnly)
    ensures Rows(xs + [p] + ys, filterText, inStockOnly) == Rows(xs + ys, filterText, inStockOnly)
  {
    FilterAppend(xs + [p], ys, filterText, inStockOnly);
    FilterAppend(xs, [p], filterText, inStockOnly);
    FilterAppend(xs, ys, filterText, inStockOnly);
    assert [p][..0] == [];
    assert Filter([p], filterText, inStockOnly) == [];
    assert Filter(xs + [p] + ys, filterText, inStockOnly) == Filter(xs + ys, filterText, inStockOnly);
  }

  /** Every product of the input that passes both filters is listed. */
  lemma {:induction false} FilterKeepsMember(products: seq<Product>, filterText: string, inStockOnly: bool, i: nat)
    requires i < |products| && Kept(products[i], filterText, inStockOnly)
    ensures products[i] in Filter(products, filterText, inStockOnly)
    decreases |products|
  {
    var init := products[..|products| - 1];
    if i < |init| {
      FilterKeepsMember(init, filterText, inStockOnly, i);
    }
  }

  /** The rows list a product exactly when it is in the input and passes both filters. */
  lemma ListedIffKept(products: seq<Product>, filterText: string, inStockOnly: bool, p: Product)
    ensures p in ProductsOf(Rows(products, filterText, inStockOnly)) <==> p in products && Kept(p, filterText, inStockOnly)
  {
    var kept := Filter(products, filterText, inStockOnly);
    LayoutProducts(kept);
    if p in kept {
      FilterMembers(products, filterText, inStockOnly, p);
    }
    if p in products && Kept(p, filterText, inStockOnly) {
      var i :| 0 <= i < |products| && products[i] == p;
      FilterKeepsMember(products, filterText, inStockOnly, i);
    }
  }

  /** With no search text and the switch off, every product is listed, in order. */
  lemma NoFilterKeepsAll(products: seq<Product>)
    ensures Filter(products, "", false) == products
  {
    if |products| > 0 {
      var init := products[..|products| - 1];
      NoFilterKeepsAll(init);
      assert Lower("") == "";
      assert Find(Lower(products[|products| - 1].name), "") == Some(0);
    }
  }

  /** A category interrupted by another gets a second header. */
  lemma SplitCategoryRepeatsHeader(a: Product, b: Product, c: Product)
    requires a.category == c.category && a.category != b.category
    ensures Layout([a, b, c]) == [CategoryRow(a.category), ProductRow(a),
                                  CategoryRow(b.category), ProductRow(b),
                                  CategoryRow(c.category), ProductRow(c)]
  {
    assert [a, b, c][..2] == [a, b];
    assert [a, b][..1] == [a];
    assert [a][..0] == [];
    assert Layout([a]) == [CategoryRow(a.category), ProductRow(a)];
    assert Layout([a, b]) == Layout([a]) + [CategoryRow(b.category), ProductRow(b)];
    assert Layout([a, b, c]) == Layout([a, b]) + [CategoryRow(c.category), ProductRow(c)];
  }
}
