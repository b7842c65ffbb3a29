/**
  The shop page of scripts/site.js: the filter and sort behind `applyFilters`
  and the upper bound of the price slider set by `initShop`. Lower-casing and
  `localeCompare` are parameters.
*/
module Shop {
  import opened Wrappers
  import opened Text
  import opened Seqs
  import opened Content
  import opened Price

  /** The filter controls as `applyFilters` reads them; `max` is `None` where `parseFloat` gives NaN. */
  datatype Criteria = Criteria(search: string, selectedType: string, max: Option<real>, sort: string)

  const AllTypes := "all"
  const PriceAscending := "price-asc"
  const PriceDescending := "price-desc"
  const ByNameKey := "name"
  const PriceFloor := 200.0

  /** `value && value.toLowerCase().includes(term)`: a missing field never matches. */
  predicate Mentions(value: string, term: string, lower: string -> string) {
    value != "" && Includes(lower(value), term)
  }

  predicate MatchesSearch(p: Product, term: string, lower: string -> string) {
    Mentions(p.name, term, lower) || Mentions(p.ref, term, lower) || Mentions(p.description, term, lower)
  }

  predicate MatchesType(p: Product, selectedType: string) {
    selectedType == AllTypes || p.productType == selectedType
  }

  /** A product without a readable price ("Sur devis") passes every price bound. */
  predicate MatchesPrice(p: Product, max: Option<real>) {
    max.None? || ParsePrice(p.price) <= max.value || ParsePrice(p.price) == 0.0
  }

  /** The test of the `products.filter` call. */
  predicate Kept(p: Product, c: Criteria, lower: string -> string) {
    MatchesSearch(p, lower(c.search), lower) && MatchesType(p, c.selectedType) && MatchesPrice(p, c.max)
  }

  /** The products that pass every test, each as often as in the catalogue, in catalogue order. */
  function Filtered(products: seq<Product>, c: Criteria, lower: string -> string): (r: seq<Product>)
    ensures Subsequence(r, products)
    ensures forall i :: 0 <= i < |r| ==> Kept(r[i], c, lower)
    ensures forall p :: multiset(r)[p] == if Kept(p, c, lower) then multiset(products)[p] else 0
  {
    FilterIsSubsequence(products, Keep(c, lower));
    Filter(products, Keep(c, lower))
  }

  function Keep(c: Criteria, lower: string -> string): Product -> bool {
    (p: Product) => Kept(p, c, lower)
  }

  /** The comparator `parsePrice(a.price) - parsePrice(b.price)`, as "may come first". */
  function CheaperFirst(): (Product, Product) -> bool {
    (a: Product, b: Product) => ParsePrice(a.price) <= ParsePrice(b.price)
  }

  /** The comparator `parsePrice(b.price) - parsePrice(a.price)`, as "may come first". */
  function DearerFirst(): (Product, Product) -> bool {
    (a: Product, b: Product) => ParsePrice(b.price) <= ParsePrice(a.price)
  }

  /** The comparator `a.name.localeCompare(b.name)`, as "may come first". */
  function NameFirst(compare: (string, string) -> int): (Product, Product) -> bool {
    (a: Product, b: Product) => compare(a.name, b.name) <= 0
  }

  lemma PriceOrdersTotal()
    ensures TotalPreorder(CheaperFirst()) && TotalPreorder(DearerFirst())
  {
  }

  /**
    `applyFilters`: the filtered products, sorted by price (either way) or by
    name when such a sort is selected, and otherwise in catalogue order.
  */
  function ApplyFilters(products: seq<Product>, c: Criteria, lower: string -> string,
                        compare: (string, string) -> int): (r: seq<Product>)
    ensures multiset(r) == multiset(Filtered(products, c, lower))
    ensures c.sort == PriceAscending ==>
      forall i, j :: 0 <= i < j < |r| ==> ParsePrice(r[i].price) <= ParsePrice(r[j].price)
    ensures c.sort == PriceDescending ==>
      forall i, j :: 0 <= i < j < |r| ==> ParsePrice(r[i].price) >= ParsePrice(r[j].price)
    ensures c.sort == ByNameKey && TotalPreorder(NameFirst(compare)) ==> Sorted(r, NameFirst(compare))
    ensures c.sort != PriceAscending && c.sort != PriceDescending && c.sort != ByNameKey ==>
      r == Filtered(products, c, lower)
  {
    var filtered := Filtered(products, c, lower);
    PriceOrdersTotal();
    if c.sort == PriceAscending then
      SortSorted(filtered, CheaperFirst());
      Sort(filtered, CheaperFirst())
    else if c.sort == PriceDescending then
      SortSorted(filtered, DearerFirst());
      Sort(filtered, DearerFirst())
    else if c.sort == ByNameKey then
      NameSorted(filtered, compare);
      Sort(filtered, NameFirst(compare))
    else filtered
  }

  lemma NameSorted(s: seq<Product>, compare: (string, string) -> int)
    ensures TotalPreorder(NameFirst(compare)) ==> Sorted(Sort(s, NameFirst(compare)), NameFirst(compare))
  {
    if TotalPreorder(NameFirst(compare)) {
      SortSorted(s, NameFirst(compare));
    }
  }

  function Max(a: real, b: real): real {
    if a < b then b else a
  }

  /** The parsed price of every product, in catalogue order. */
  function Prices(products: seq<Product>): (r: seq<real>)
    ensures |r| == |products|
    ensures forall i :: 0 <= i < |products| ==> r[i] == ParsePrice(products[i].price)
  {
    seq(|products|, i requires 0 <= i < |products| => ParsePrice(products[i].price))
  }

  /** `Math.max(200, ...xs)`. */
  function MaxFrom200(xs: seq<real>): (m: real)
    ensures m >= PriceFloor
    ensures forall i :: 0 <= i < |xs| ==> xs[i] <= m
  {
    if xs == [] then PriceFloor else Max(xs[0], MaxFrom200(xs[1..]))
  }

  /** The bound is 200 or one of the values. */
  lemma {:induction false} MaxFrom200Attained(xs: seq<real>)
    ensures MaxFrom200(xs) == PriceFloor || exists i :: 0 <= i < |xs| && MaxFrom200(xs) == xs[i]
  {
    if xs != [] {
      MaxFrom200Attained(xs[1..]);
      var rest := MaxFrom200(xs[1..]);
      if MaxFrom200(xs) != xs[0] && rest != PriceFloor {
        var i :| 0 <= i < |xs[1..]| && rest == xs[1..][i];
        assert MaxFrom200(xs) == xs[i + 1];
      }
    }
  }

  /** `Math.ceil`. */
  function Ceil(x: real): (n: int)
    ensures x <= n as real < x + 1.0
  {
    -((-x).Floor)
  }

  /** `Math.ceil(m / 10) * 10`. */
  function RoundUpToTen(m: real): int {
    Ceil(m / 10.0) * 10
  }

  /** Rounding up to a multiple of ten: the least multiple of ten at or above `m`. */
  lemma RoundUpToTenBound(m: real)
    ensures RoundUpToTen(m) % 10 == 0
    ensures m <= RoundUpToTen(m) as real
    ensures (RoundUpToTen(m) - 10) as real < m
  {
    var k := Ceil(m / 10.0);
    assert m / 10.0 <= k as real < m / 10.0 + 1.0;
    assert m <= (k * 10) as real;
    assert ((k - 1) * 10) as real < m;
  }

  /** The slider's `max` set by `initShop`. */
  function SliderMax(products: seq<Product>): int {
    RoundUpToTen(MaxFrom200(Prices(products)))
  }

  /**
    The slider bound is a multiple of 10, at least 200 and at least every
    price, and it is the least multiple of 10 at or above the largest of 200
    and the prices.
  */
  lemma SliderBound(products: seq<Product>)
    ensures SliderMax(products) % 10 == 0 && SliderMax(products) >= 200
    ensures forall i :: 0 <= i < |products| ==> ParsePrice(products[i].price) <= SliderMax(products) as real
    ensures (SliderMax(products) - 10) as real < MaxFrom200(Prices(products))
  {
    RoundUpToTenBound(MaxFrom200(Prices(products)));
  }

  /** With the slider at its initial value, the price test keeps every product. */
  lemma InitialSliderKeepsAll(products: seq<Product>, c: Criteria, lower: string -> string)
    requires c.max == Some(SliderMax(products) as real)
    ensures Filtered(products, c, lower) == Filtered(products, c.(max := None), lower)
  {
    SliderBound(products);
    forall i | 0 <= i < |products| ensures Kept(products[i], c, lower) == Kept(products[i], c.(max := None), lower) {
      assert MatchesPrice(products[i], c.max);
    }
    FilterAgree(products, Keep(c, lower), Keep(c.(max := None), lower));
  }
}
