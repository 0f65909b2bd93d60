/**
 * The filter bar of components/FilterBar.tsx: the category and brand facets derived from the
 * product list, and the filter state the chips and the search box update.
 */
module FilterBar {
  import opened Wrappers
  import Seqs
  import Text
  import opened Catalog

  /** The catalog filter; every field is optional (`undefined` is `None`). */
  datatype Filter = Filter(category: Option<string>, tag: Option<Tag>, brand: Option<string>, search: Option<string>)

  /** `{}`. */
  const EmptyFilter := Filter(None, None, None, None)

  /** A field of a `Partial<Filter>`: absent, or present with a value that may itself be `undefined`. */
  datatype Field<T> = Absent | Present(value: Option<T>)

  /** A `Partial<Filter>`, the argument of `updateFilter`. */
  datatype FilterPatch = FilterPatch(category: Field<string>, tag: Field<Tag>, brand: Field<string>, search: Field<string>)

  /** A patch that names no field. */
  const NoChange := FilterPatch(Absent, Absent, Absent, Absent)

  /** `{ ...current, ...next }` for one field. */
  function Override<T>(current: Option<T>, next: Field<T>): Option<T>
  {
    if next.Present? then next.value else current
  }

  /** `{ ...filter, ...next }`: present fields of `next` win, the others keep their value. */
  function Merge(filter: Filter, next: FilterPatch): (merged: Filter)
    ensures next.category.Present? ==> merged.category == next.category.value
    ensures next.tag.Present? ==> merged.tag == next.tag.value
    ensures next.brand.Present? ==> merged.brand == next.brand.value
    ensures next.search.Present? ==> merged.search == next.search.value
    ensures next.category.Absent? ==> merged.category == filter.category
    ensures next.tag.Absent? ==> merged.tag == filter.tag
    ensures next.brand.Absent? ==> merged.brand == filter.brand
    ensures next.search.Absent? ==> merged.search == filter.search
  {
    Filter(
      Override(filter.category, next.category), Override(filter.tag, next.tag),
      Override(filter.brand, next.brand), Override(filter.search, next.search))
  }

  /** Applying `first` and then `second`, as one patch: the later field wins. */
  function Then(first: FilterPatch, second: FilterPatch): FilterPatch
  {
    FilterPatch(
      if second.category.Present? then second.category else first.category,
      if second.tag.Present? then second.tag else first.tag,
      if second.brand.Present? then second.brand else first.brand,
      if second.search.Present? then second.search else first.search)
  }

  /** An empty patch changes nothing, and merging the same patch twice is merging it once. */
  lemma MergeNeutralAndIdempotent(filter: Filter, next: FilterPatch)
    ensures Merge(filter, NoChange) == filter
    ensures Merge(Merge(filter, next), next) == Merge(filter, next)
  {
  }

  /** Two updates in a row amount to one update with the combined patch. */
  lemma MergeCompose(filter: Filter, first: FilterPatch, second: FilterPatch)
    ensures Merge(Merge(filter, first), second) == Merge(filter, Then(first, second))
  {
  }

  /** A patch naming every field replaces the filter wholesale, whatever it was. */
  lemma MergeFullPatch(filter: Filter, replacement: Filter)
    ensures Merge(filter, FilterPatch(Present(replacement.category), Present(replacement.tag), Present(replacement.brand), Present(replacement.search))) == replacement
  {
  }

  /** JavaScript truthiness of an optional string: set and non-empty. */
  predicate Active(o: Option<string>)
  {
    o.Some? && o.value != ""
  }

  /** The "Hepsi" (all) chip of a facet is highlighted when the facet is not active. */
  predicate AllChipHighlighted(selected: Option<string>)
  {
    !Active(selected)
  }

  /** The chip of `value` is highlighted when it is the selected value. */
  predicate ChipHighlighted(selected: Option<string>, value: string)
  {
    selected == Some(value)
  }

  /** The "Hepsi" chip of the category facet. */
  function ClearCategory(): FilterPatch
  {
    NoChange.(category := Present(None))
  }

  /** The chip of one category. */
  function PickCategory(category: string): FilterPatch
  {
    NoChange.(category := Present(Some(category)))
  }

  /** The "Hepsi" chip of the brand facet. */
  function ClearBrand(): FilterPatch
  {
    NoChange.(brand := Present(None))
  }

  /** The chip of one brand. */
  function PickBrand(brand: string): FilterPatch
  {
    NoChange.(brand := Present(Some(brand)))
  }

  /** A keystroke in the search box. */
  function Typed(text: string): FilterPatch
  {
    NoChange.(search := Present(Some(text)))
  }

  /**
   * After "Hepsi" the facet is cleared, its "Hepsi" chip is the highlighted one and no value chip
   * is; after a value chip that chip alone is highlighted. The other facet and the search text stay.
   */
  lemma ChipClicks(filter: Filter, category: string, brand: string, other: string)
    ensures var f := Merge(filter, ClearCategory());
      f.category == None && AllChipHighlighted(f.category) && !ChipHighlighted(f.category, other)
      && f.brand == filter.brand && f.search == filter.search && f.tag == filter.tag
    ensures var f := Merge(filter, ClearBrand());
      f.brand == None && AllChipHighlighted(f.brand) && !ChipHighlighted(f.brand, other)
      && f.category == filter.category && f.search == filter.search && f.tag == filter.tag
    ensures var f := Merge(filter, PickCategory(category));
      ChipHighlighted(f.category, category) && (other != category ==> !ChipHighlighted(f.category, other))
      && (category != "" ==> !AllChipHighlighted(f.category))
      && f.brand == filter.brand && f.search == filter.search
    ensures var f := Merge(filter, PickBrand(brand));
      ChipHighlighted(f.brand, brand) && (other != brand ==> !ChipHighlighted(f.brand, other))
      && (brand != "" ==> !AllChipHighlighted(f.brand))
      && f.category == filter.category && f.search == filter.search
  {
  }

  /** `Array.from(new Set(values)).sort()`: the distinct values in ascending string order. */
  function SortedDistinct(values: seq<string>): (r: seq<string>)
    ensures Seqs.NoDuplicates(r)
    ensures Seqs.SortedBy(r, Text.StrLe)
    ensures forall i :: 0 <= i < |r| ==> r[i] in values
    ensures forall i :: 0 <= i < |values| ==> values[i] in r
  {
    var d := Seqs.Distinct(values);
    Text.StrLeIsTotalPreorder();
    Seqs.SortBySorted(d, Text.StrLe);
    Seqs.SortByNoDuplicates(d, Text.StrLe);
    var r := Seqs.SortBy(d, Text.StrLe);
    assert forall i :: 0 <= i < |r| ==> r[i] in multiset(d);
    assert forall i :: 0 <= i < |d| ==> d[i] in multiset(r);
    r
  }

  /** The categories of the products, position by position. */
  function CategoriesOf(products: seq<Product>): (values: seq<string>)
    ensures |values| == |products|
    ensures forall i :: 0 <= i < |products| ==> values[i] == products[i].category
  {
    seq(|products|, i requires 0 <= i < |products| => products[i].category)
  }

  /** The brand names of the products, position by position. */
  function BrandsOf(products: seq<Product>): (values: seq<string>)
    ensures |values| == |products|
    ensures forall i :: 0 <= i < |products| ==> values[i] == products[i].brand
  {
    seq(|products|, i requires 0 <= i < |products| => products[i].brand)
  }

  /** The category facet. */
  function Categories(products: seq<Product>): seq<string>
  {
    SortedDistinct(CategoriesOf(products))
  }

  /** The brand facet. */
  function Brands(products: seq<Product>): seq<string>
  {
    SortedDistinct(BrandsOf(products))
  }

  /**
   * The category facet is exact: sorted, without repeats, and holding precisely the categories
   * some product has.
   */
  lemma CategoriesExact(products: seq<Product>)
    ensures var facet := Categories(products);
      && Seqs.NoDuplicates(facet) && Seqs.SortedBy(facet, Text.StrLe)
      && forall c :: c in facet <==> exists p :: p in products && p.category == c
  {
    var facet := Categories(products);
    var values := CategoriesOf(products);
    forall c
      ensures c in facet <==> exists p :: p in products && p.category == c
    {
      if c in facet {
        var i :| 0 <= i < |facet| && facet[i] == c;
        var k :| 0 <= k < |values| && values[k] == c;
        assert products[k] in products;
      }
      if exists p :: p in products && p.category == c {
        var p :| p in products && p.category == c;
        var k :| 0 <= k < |products| && products[k] == p;
        assert values[k] == c;
      }
    }
  }

  /**
   * The brand facet is exact: sorted, without repeats, and holding precisely the brand names
   * some product has.
   */
  lemma BrandsExact(products: seq<Product>)
    ensures var facet := Brands(products);
      && Seqs.NoDuplicates(facet) && Seqs.SortedBy(facet, Text.StrLe)
      && forall b :: b in facet <==> exists p :: p in products && p.brand == b
  {
    var facet := Brands(products);
    var values := BrandsOf(products);
    forall b
      ensures b in facet <==> exists p :: p in products && p.brand == b
    {
      if b in facet {
        var i :| 0 <= i < |facet| && facet[i] == b;
        var k :| 0 <= k < |values| && values[k] == b;
        assert products[k] in products;
      }
      if exists p :: p in products && p.brand == b {
        var p :| p in products && p.brand == b;
        var k :| 0 <= k < |products| && products[k] == p;
        assert values[k] == b;
      }
    }
  }

  /**
   * A facet is determined by its values: two sequences without repeats, both in ascending order,
   * with the same elements are equal. So the facet does not depend on the order of the products.
   */
  lemma {:induction false} SortedDistinctUnique(a: seq<string>, b: seq<string>)
    requires Seqs.NoDuplicates(a) && Seqs.SortedBy(a, Text.StrLe)
    requires Seqs.NoDuplicates(b) && Seqs.SortedBy(b, Text.StrLe)
    requires forall x :: x in a <==> x in b
    ensures a == b
    decreases |a|
  {
    if a == [] {
      assert forall k :: 0 <= k < |b| ==> b[k] !in a;
    } else {
      assert a[0] in a;
      assert b != [];
      assert b[0] in b;
      var j :| 0 <= j < |b| && b[j] == a[0];
      var i :| 0 <= i < |a| && a[i] == b[0];
      assert Text.StrLe(b[0], a[0]) by {
        if j > 0 { } else { Text.StrLeTotal(b[0], b[0]); }
      }
      assert Text.StrLe(a[0], b[0]) by {
        if i > 0 { } else { Text.StrLeTotal(a[0], a[0]); }
      }
      Text.StrLeAntisymmetric(a[0], b[0]);
      forall x
        ensures x in a[1..] <==> x in b[1..]
      {
        if x in a[1..] {
          var k :| 0 <= k < |a| - 1 && a[1..][k] == x;
          assert a[k + 1] == x && x != a[0];
          assert x in a;
          assert x in b;
          var m :| 0 <= m < |b| && b[m] == x;
          assert m != 0;
          assert b[1..][m - 1] == x;
        }
        if x in b[1..] {
          var k :| 0 <= k < |b| - 1 && b[1..][k] == x;
          assert b[k + 1] == x && x != b[0];
          assert x in b;
          assert x in a;
          var m :| 0 <= m < |a| && a[m] == x;
          assert m != 0;
          assert a[1..][m - 1] == x;
        }
      }
      SortedDistinctUnique(a[1..], b[1..]);
      assert a == [a[0]] + a[1..] && b == [b[0]] + b[1..];
    }
  }

  /** The facets do not depend on the order of the products. */
  lemma FacetsIgnoreOrder(products: seq<Product>, shuffled: seq<Product>)
    requires multiset(products) == multiset(shuffled)
    ensures Categories(products) == Categories(shuffled)
    ensures Brands(products) == Brands(shuffled)
  {
    CategoriesExact(products);
    CategoriesExact(shuffled);
    BrandsExact(products);
    BrandsExact(shuffled);
    assert forall p :: p in products <==> p in shuffled by {
      forall p ensures p in products <==> p in shuffled {
        assert p in products <==> p in multiset(products);
        assert p in shuffled <==> p in multiset(shuffled);
      }
    }
    SortedDistinctUnique(Categories(products), Categories(shuffled));
    SortedDistinctUnique(Brands(products), Brands(shuffled));
  }

  /**
   * The filter bar's state. `filter` is the `useState` value; what `updateFilter` passes to
   * `onFilterChange` is the value its method returns.
   */
  class FilterBarState {
    var filter: Filter

    /** `useState(initialFilter ?? {})`. */
    constructor(initialFilter: Option<Filter>)
      ensures filter == initialFilter.GetOr(EmptyFilter)
    {
      filter := initialFilter.GetOr(EmptyFilter);
    }

    /** `updateFilter(next)`: the merged filter is stored and is what the callback receives. */
    method UpdateFilter(next: FilterPatch) returns (emitted: Filter)
      modifies this
      ensures filter == Merge(old(filter), next)
      ensures emitted == filter
    {
      var merged := Merge(filter, next);
      filter := merged;
      emitted := merged;
    }

    /** The effect on `initialFilter`: the new initial filter replaces the state, its absence resets it. */
    method Sync(initialFilter: Option<Filter>)
      modifies this
      ensures filter == initialFilter.GetOr(EmptyFilter)
    {
      if initialFilter.Some? {
        filter := initialFilter.value;
      } else {
        filter := EmptyFilter;
      }
    }
  }

  /** Clicking a category and then its facet's "Hepsi" chip clears the category and keeps the rest. */
  method ClickThenClear(bar: FilterBarState, category: string) returns (first: Filter, second: Filter)
    modifies bar
    ensures first.category == Some(category) && second.category == None
    ensures second == old(bar.filter).(category := None)
    ensures bar.filter == second
  {
    first := bar.UpdateFilter(PickCategory(category));
    second := bar.UpdateFilter(ClearCategory());
  }
}
