/** The inventory screen: the product catalogue with its search and
    category filter, the category list offered by the filter, the handlers
    that append a new product or location to the screen's lists, the
    `zone-aisle-rack-bin` code of a location, and the location badges of a
    product row. */
module Inventory {
  import opened Options
  import Text
  import Numerals
  import Seqs
  import Search

  /** A storage location. The screen's records carry the name of the stored
      product (or `null`) rather than a product id. The capacity is what
      `parseInt` made of the dialog's text, `None` standing for `NaN`. */
  datatype Location = Location(
    id: string,
    zone: string,
    aisle: string,
    rack: string,
    bin: string,
    capacity: Option<int>,
    occupied: nat,
    product: Option<string>)

  /** A row of the product catalogue. Its unit value, a decimal price, is not
      modelled. */
  datatype Product = Product(
    id: string,
    sku: string,
    name: string,
    barcode: string,
    category: string,
    supplier: string,
    totalStock: nat,
    availableStock: nat,
    reservedStock: nat,
    locations: seq<string>)

  /** The search box and the category select of the catalogue. The select
      holds plain text: the entry for every category is the text "all", and
      each category's entry is the category's own name. */
  datatype ProductQuery = ProductQuery(term: string, category: string)

  /** The value of the select's entry for every category. */
  const AllCategories: string := "all"

  /** The category part of the filter: the select is on "all", or it names
      the product's category. A category that is itself called "all" is
      therefore indistinguishable from the entry for every category. */
  predicate CategoryAccepts(selected: string, category: string) {
    selected == AllCategories || category == selected
  }

  /** The filter callback of `filteredProducts`. */
  predicate ProductMatches(q: ProductQuery, p: Product) {
    && (Search.MatchesTerm(p.name, q.term) || Search.MatchesTerm(p.sku, q.term))
    && CategoryAccepts(q.category, p.category)
  }

  /** `filteredProducts`: the catalogue rows shown in the table. */
  function FilteredProducts(products: seq<Product>, q: ProductQuery): (r: seq<Product>)
    ensures forall i :: 0 <= i < |r| ==> r[i] in products && ProductMatches(q, r[i])
    ensures forall i :: 0 <= i < |products| && ProductMatches(q, products[i]) ==> products[i] in r
    ensures Seqs.IsSubsequence(r, products)
    ensures forall p :: multiset(r)[p] == if ProductMatches(q, p) then multiset(products)[p] else 0
  {
    Seqs.FilterIsSubsequence(products, p => ProductMatches(q, p));
    Seqs.FilterCounts(products, p => ProductMatches(q, p));
    Seqs.Filter(products, p => ProductMatches(q, p))
  }

  /** With an empty search box and the select on "all", the table shows
      every product. */
  lemma UnfilteredShowsAll(products: seq<Product>)
    ensures FilteredProducts(products, ProductQuery([], AllCategories)) == products
  {
    forall p: Product {
      Search.MatchesTermSpec(p.name, []);
    }
    Seqs.FilterKeepsAll(products, p => ProductMatches(ProductQuery([], AllCategories), p));
  }

  /** Picking the entry of a category that is itself named "all" selects
      every category: a product of another category stays in the table. */
  lemma CategoryNamedAll(inAll: Product, other: Product)
    requires inAll.category == AllCategories && other.category != AllCategories
    ensures FilteredProducts([inAll, other], ProductQuery([], inAll.category)) == [inAll, other]
  {
    UnfilteredShowsAll([inAll, other]);
  }

  /** The category of each product, in catalogue order. */
  function CategoryList(products: seq<Product>): (r: seq<string>)
    ensures |r| == |products|
    ensures forall k :: 0 <= k < |products| ==> r[k] == products[k].category
  {
    seq(|products|, k requires 0 <= k < |products| => products[k].category)
  }

  /** `categories`: the products' categories put through a `Set` and back
      into a list, computed the way the `Set` does it: walk the products and append each
      category the first time it is seen. The result lists every product's
      category, nothing else, each once, in order of first appearance. */
  method Categories(products: seq<Product>) returns (r: seq<string>)
    ensures r == Seqs.Distinct(CategoryList(products))
    ensures Seqs.NoDuplicates(r)
    ensures forall k :: 0 <= k < |products| ==> products[k].category in r
    ensures forall i :: 0 <= i < |r| ==> exists k :: 0 <= k < |products| && products[k].category == r[i]
    ensures forall i :: 0 <= i < |r| ==> r[i] in CategoryList(products)
    ensures forall i, j :: 0 <= i < j < |r| ==>
      Seqs.FirstIndex(CategoryList(products), r[i]) < Seqs.FirstIndex(CategoryList(products), r[j])
  {
    var cats := CategoryList(products);
    var seen: set<string> := {};
    r := [];
    for i := 0 to |cats|
      invariant r == Seqs.Distinct(cats[..i])
      invariant forall c :: c in seen <==> c in cats[..i]
    {
      assert cats[..i + 1][..i] == cats[..i];
      if cats[i] !in seen {
        r := r + [cats[i]];
        seen := seen + {cats[i]};
      }
    }
    assert cats[..|cats|] == cats;
    Seqs.DistinctSpec(cats);
    forall i | 0 <= i < |r|
      ensures exists k :: 0 <= k < |products| && products[k].category == r[i]
    {
      assert r[i] in cats;
    }
  }

  /** The `onProductAdded` handler: the new product goes at the end of the
      catalogue. */
  function AddProduct(products: seq<Product>, p: Product): seq<Product> {
    Seqs.Append(products, p)
  }

  /** After adding a product the table shows what it showed before, plus
      the new product at the end when it passes the current filter. */
  lemma AddProductFilter(products: seq<Product>, p: Product, q: ProductQuery)
    ensures FilteredProducts(AddProduct(products, p), q)
      == FilteredProducts(products, q) + (if ProductMatches(q, p) then [p] else [])
  {
    Seqs.FilterAppend(products, p, x => ProductMatches(q, x));
  }

  /** After adding a product the category select gains the new product's
      category at the end exactly when no earlier product has it. */
  lemma AddProductCategories(products: seq<Product>, p: Product)
    ensures Seqs.Distinct(CategoryList(AddProduct(products, p)))
      == Seqs.Distinct(CategoryList(products))
         + (if p.category in CategoryList(products) then [] else [p.category])
  {
    assert CategoryList(AddProduct(products, p)) == CategoryList(products) + [p.category];
    Seqs.DistinctAppend(CategoryList(products), p.category);
  }

  /** The `onLocationAdded` handler: the new location goes at the end of
      the location list. */
  function AddLocation(locations: seq<Location>, l: Location): seq<Location> {
    Seqs.Append(locations, l)
  }

  /** Code built from the four address parts, joined by `-`. */
  function JoinCode(zone: string, aisle: string, rack: string, bin: string): string {
    zone + "-" + aisle + "-" + rack + "-" + bin
  }

  /** The card title of a location: `zone-aisle-rack-bin`. */
  function LocationCode(l: Location): string {
    JoinCode(l.zone, l.aisle, l.rack, l.bin)
  }

  /** When no address part contains `-`, splitting a code on `-` gives back
      the four parts, so distinct addresses have distinct codes. */
  lemma {:induction false} CodeSplits(zone: string, aisle: string, rack: string, bin: string)
    requires '-' !in zone && '-' !in aisle && '-' !in rack && '-' !in bin
    ensures Text.Split(JoinCode(zone, aisle, rack, bin), '-') == [zone, aisle, rack, bin]
  {
    var code := JoinCode(zone, aisle, rack, bin);
    assert code == zone + ['-'] + (aisle + ['-'] + (rack + ['-'] + bin));
    Text.SplitJoin(zone, '-', aisle + ['-'] + (rack + ['-'] + bin));
    Text.SplitJoin(aisle, '-', rack + ['-'] + bin);
    Text.SplitJoin(rack, '-', bin);
    Text.SplitNoSeparator(bin, '-');
  }

  /** The badge `+n` counting `n` hidden locations; its digits read back
      as `n`. */
  function MoreBadge(n: nat): (b: string)
    ensures |b| > 1 && b[0] == '+' && Numerals.ParseInt(b[1..]) == Some(n)
    ensures Numerals.AllSatisfy(b[1..], Numerals.IsDigit) && (|b| > 2 ==> b[1] != '0')
  {
    var b := "+" + Numerals.Decimal(n);
    assert b[1..] == Numerals.Decimal(n);
    Numerals.ParseDecimal(n);
    b
  }

  /** The location badges of a product row: the first two locations, then
      `+n` for the `n` locations not shown when there are more than two. */
  function LocationBadges(locations: seq<string>): (r: seq<string>)
    ensures |locations| <= 2 ==> r == locations
    ensures |locations| > 2 ==> |r| == 3 && r[..2] == locations[..2]
    ensures |locations| > 2 ==> |r[2]| > 1 && r[2][0] == '+' && Numerals.ParseInt(r[2][1..]) == Some(|locations| - 2)
    ensures |locations| > 2 ==> Numerals.AllSatisfy(r[2][1..], Numerals.IsDigit) && (|r[2]| > 2 ==> r[2][1] != '0')
  {
    if |locations| > 2 then locations[..2] + [MoreBadge(|locations| - 2)]
    else locations
  }
}
