/**
 * The catalog page of app/vitrin/VitrinClient.tsx: the filter read from the query string, the
 * filter applied to the product list, and the query string written back when the filter changes.
 */
module Vitrin {
  import opened Wrappers
  import Seqs
  import Text
  import opened Catalog
  import opened FilterBar

  /** What the search box is matched against: brand and name, one space apart, lower-cased. */
  function SearchText(p: Product): string
  {
    Text.Lower(p.brand + " " + p.name)
  }

  /**
   * The condition of `applyFilter`: exact category when one is set, exact brand when one is set,
   * and the lower-cased search term inside the searchable text when a term is set. The tag is not
   * consulted.
   */
  predicate Keeps(f: Filter, p: Product)
  {
    && (Active(f.category) ==> p.category == f.category.value)
    && (Active(f.brand) ==> p.brand == f.brand.value)
    && (Active(f.search) ==> Text.Contains(SearchText(p), Text.Lower(f.search.value)))
  }

  /** `Keeps` as a filter callback. */
  function KeepsFor(f: Filter): Product -> bool
  {
    (p: Product) => Keeps(f, p)
  }

  /** `applyFilter(products, filter)`. */
  function ApplyFilter(products: seq<Product>, f: Filter): seq<Product>
  {
    Seqs.Filter(products, KeepsFor(f))
  }

  /**
   * The result is the products that satisfy every set constraint, in their original order: a
   * product is in it exactly when it is in the input and passes; a kept product has the selected
   * category and brand.
   */
  lemma ApplyFilterExact(products: seq<Product>, f: Filter)
    ensures var r := ApplyFilter(products, f);
      && Seqs.IsSubsequence(r, products)
      && (forall p :: p in r <==> p in products && Keeps(f, p))
      && (forall p | p in products :: multiset(r)[p] == if Keeps(f, p) then multiset(products)[p] else 0)
      && (forall i :: 0 <= i < |r| && Active(f.category) ==> r[i].category == f.category.value)
      && (forall i :: 0 <= i < |r| && Active(f.brand) ==> r[i].brand == f.brand.value)
  {
    var r := ApplyFilter(products, f);
    forall p
      ensures p in r <==> p in products && Keeps(f, p)
    {
      if p in r {
        var i :| 0 <= i < |r| && r[i] == p;
      }
      if p in products && Keeps(f, p) {
        var i :| 0 <= i < |products| && products[i] == p;
      }
    }
  }

  /** A filter without a set field returns the product list unchanged. */
  lemma EmptyFilterIsIdentity(products: seq<Product>, f: Filter)
    requires !Active(f.category) && !Active(f.brand) && !Active(f.search)
    ensures ApplyFilter(products, f) == products
  {
    Seqs.FilterAll(products, KeepsFor(f));
  }

  /** Applying the same filter twice is applying it once. */
  lemma ApplyFilterIdempotent(products: seq<Product>, f: Filter)
    ensures ApplyFilter(ApplyFilter(products, f), f) == ApplyFilter(products, f)
  {
    Seqs.FilterIdempotent(products, KeepsFor(f));
  }

  /** The tag a filter carries has no effect on the product list. */
  lemma ApplyFilterIgnoresTag(products: seq<Product>, f: Filter, tag: Option<Tag>)
    ensures ApplyFilter(products, f.(tag := tag)) == ApplyFilter(products, f)
  {
    Seqs.FilterSameCondition(products, KeepsFor(f.(tag := tag)), KeepsFor(f));
  }

  lemma LowerConcat(a: string, b: string)
    ensures Text.Lower(a + b) == Text.Lower(a) + Text.Lower(b)
  {
  }

  /**
   * Search ignores letter case: a term that lower-cases to the lower-cased brand (such as "nike"
   * for the brand "Nike") keeps the product when no facet is selected.
   */
  lemma SearchIgnoresCase(p: Product, term: string)
    requires term != "" && Text.Lower(term) == Text.Lower(p.brand)
    ensures Keeps(Filter(None, None, None, Some(term)), p)
  {
    LowerConcat(p.brand, " " + p.name);
    assert p.brand + " " + p.name == p.brand + (" " + p.name);
    var text := SearchText(p);
    assert text[..|Text.Lower(term)|] == Text.Lower(p.brand);
    Text.PrefixContained(text, Text.Lower(term));
  }

  /** The example of the catalog page: searching "nike" finds a product of the brand "Nike". */
  lemma SearchNikeFindsNike(p: Product)
    requires p.brand == "Nike"
    ensures ApplyFilter([p], Filter(None, None, None, Some("nike"))) == [p]
  {
    assert Text.Lower("nike") == Text.Lower("Nike");
    SearchIgnoresCase(p, "nike");
    Seqs.FilterAll([p], KeepsFor(Filter(None, None, None, Some("nike"))));
  }

  // ---------------------------------------------------------------------------------------------
  // The query string

  /** Decoded query parameters, in order; a name may repeat. */
  type Params = seq<(string, string)>

  /** Position `i` holds the first parameter called `name`. */
  predicate FirstNamed(params: Params, name: string, i: int)
  {
    && 0 <= i < |params| && params[i].0 == name
    && forall j :: 0 <= j < i ==> params[j].0 != name
  }

  /** `URLSearchParams.get(name)`: the value of the first parameter with the name, if any. */
  function Get(params: Params, name: string): (v: Option<string>)
    ensures v.None? <==> forall i :: 0 <= i < |params| ==> params[i].0 != name
    ensures v.Some? ==> exists i :: FirstNamed(params, name, i) && params[i].1 == v.value
  {
    if params == [] then None
    else if params[0].0 == name then
      assert FirstNamed(params, name, 0);
      Some(params[0].1)
    else
      var rest := Get(params[1..], name);
      if rest.Some? then
        var k :| FirstNamed(params[1..], name, k) && params[1..][k].1 == rest.value;
        assert params[k + 1] == params[1..][k];
        assert FirstNamed(params, name, k + 1) by {
          forall j | 0 <= j < k + 1 ensures params[j].0 != name {
            if j > 0 { assert params[j] == params[1..][j - 1]; }
          }
        }
        rest
      else
        rest
  }

  /** The query value of a facet: unset when missing or empty. */
  function Facet(v: Option<string>): (r: Option<string>)
    ensures r.Some? ==> r == v && r.value != ""
    ensures r.None? <==> !Active(v)
  {
    if v.Some? && v.value != "" then v else None
  }

  /** The query value of the search: trimmed, unset when missing or blank. */
  function SearchTerm(v: Option<string>): (r: Option<string>)
    ensures r.Some? ==> v.Some? && r.value == Text.Trim(v.value) && r.value != "" && Text.IsTrimmed(r.value)
    ensures r.None? <==> v.None? || Text.IsBlank(v.value)
  {
    if v.Some? && Text.Trim(v.value) != "" then Some(Text.Trim(v.value)) else None
  }

  /** `parseFilter(searchParams)`: the search, category and brand parameters, blanks unset. */
  function ParseFilter(params: Params): Filter
  {
    Filter(Facet(Get(params, "category")), None, Facet(Get(params, "brand")), SearchTerm(Get(params, "search")))
  }

  /** A filter as `parseFilter` produces it: no tag, facets unset or non-empty, the search trimmed and non-blank. */
  ghost predicate Normalized(f: Filter)
  {
    && f.tag.None?
    && (f.category.Some? ==> f.category.value != "")
    && (f.brand.Some? ==> f.brand.value != "")
    && (f.search.Some? ==> f.search.value != "" && Text.IsTrimmed(f.search.value))
  }

  /** `parseFilter` unsets whitespace-only searches and empty facets, and never sets the tag. */
  lemma ParseFilterNormalizes(params: Params)
    ensures Normalized(ParseFilter(params))
    ensures var search := Get(params, "search");
      search.Some? && Text.IsBlank(search.value) ==> ParseFilter(params).search.None?
    ensures Get(params, "category") == Some("") ==> ParseFilter(params).category.None?
    ensures Get(params, "brand") == Some("") ==> ParseFilter(params).brand.None?
  {
  }

  /** The parameters `setUrl` sets: search, category and brand, each only when it is set and non-empty. */
  function QueryOf(f: Filter): Params
  {
    Entry("search", f.search) + Entry("category", f.category) + Entry("brand", f.brand)
  }

  /** The parameter `setUrl` sets for one field: the pair when the field is set and non-empty. */
  function Entry(name: string, v: Option<string>): Params
  {
    if Active(v) then [(name, v.value)] else []
  }

  /** Reading a name from one field's parameters. */
  lemma GetEntry(name: string, v: Option<string>, other: string)
    ensures Get(Entry(name, v), other) == if name == other && Active(v) then v else None
  {
  }

  /** Reading a name from the three fields' parameters: the first one that carries it. */
  lemma GetQueryOf(f: Filter, name: string)
    ensures Get(QueryOf(f), name) ==
      if name == "search" && Active(f.search) then f.search
      else if name == "category" && Active(f.category) then f.category
      else if name == "brand" && Active(f.brand) then f.brand
      else None
  {
    var s, c, b := Entry("search", f.search), Entry("category", f.category), Entry("brand", f.brand);
    GetConcat(s + c, b, name);
    GetConcat(s, c, name);
    GetEntry("search", f.search, name);
    GetEntry("category", f.category, name);
    GetEntry("brand", f.brand, name);
  }

  /** The query holds exactly the set fields, each under its own name, and nothing else. */
  lemma QueryOfExact(f: Filter)
    ensures var q := QueryOf(f);
      && Get(q, "search") == (if Active(f.search) then f.search else None)
      && Get(q, "category") == (if Active(f.category) then f.category else None)
      && Get(q, "brand") == (if Active(f.brand) then f.brand else None)
      && (forall i :: 0 <= i < |q| ==> q[i].0 == "search" || q[i].0 == "category" || q[i].0 == "brand")
      && (q == [] <==> !Active(f.search) && !Active(f.category) && !Active(f.brand))
  {
    GetQueryOf(f, "search");
    GetQueryOf(f, "category");
    GetQueryOf(f, "brand");
    QueryOfNames(f);
  }

  /** The query holds only the three field names, and is empty exactly when no field is set. */
  lemma QueryOfNames(f: Filter)
    ensures var q := QueryOf(f);
      && (forall i :: 0 <= i < |q| ==> q[i].0 == "search" || q[i].0 == "category" || q[i].0 == "brand")
      && (q == [] <==> !Active(f.search) && !Active(f.category) && !Active(f.brand))
  {
    var q := QueryOf(f);
    var s, c, b := Entry("search", f.search), Entry("category", f.category), Entry("brand", f.brand);
    forall i | 0 <= i < |q|
      ensures q[i].0 == "search" || q[i].0 == "category" || q[i].0 == "brand"
    {
      if i < |s| {
        assert q[i] == s[i];
      } else if i < |s| + |c| {
        assert q[i] == c[i - |s|];
      } else {
        assert q[i] == b[i - |s| - |c|];
      }
    }
  }

  /** The first match in a concatenation is the first match in its front part, if there is one. */
  lemma {:induction false} GetConcat(a: Params, b: Params, name: string)
    ensures Get(a + b, name) == if Get(a, name).Some? then Get(a, name) else Get(b, name)
    decreases |a|
  {
    if a != [] {
      assert (a + b)[1..] == a[1..] + b;
      GetConcat(a[1..], b, name);
    } else {
      assert a + b == b;
    }
  }

  /**
   * Reading the written query back yields the filter up to `parseFilter`'s normalisation: the
   * tag is dropped and the search trimmed. A normalised filter survives the round trip unchanged.
   */
  lemma QueryRoundTrip(f: Filter)
    ensures ParseFilter(QueryOf(f)) ==
      Filter(Facet(f.category), None, Facet(f.brand), if Active(f.search) then SearchTerm(f.search) else None)
    ensures Normalized(f) ==> ParseFilter(QueryOf(f)) == f
  {
    QueryOfExact(f);
    if f.search.Some? && Text.IsTrimmed(f.search.value) {
      Text.TrimOfTrimmed(f.search.value);
    }
  }

  /** Reloading the page on the written URL reproduces the filter that was read from it. */
  lemma ParseQueryParse(params: Params)
    ensures ParseFilter(QueryOf(ParseFilter(params))) == ParseFilter(params)
  {
    ParseFilterNormalizes(params);
    QueryRoundTrip(ParseFilter(params));
  }

  /** `params.set(name, value)` on parameters that do not hold `name` yet appends the pair. */
  method BuildQuery(f: Filter) returns (params: Params)
    ensures params == QueryOf(f)
  {
    params := [];
    if Active(f.search) {
      params := params + [("search", f.search.value)];
    }
    if Active(f.category) {
      params := params + [("category", f.category.value)];
    }
    if Active(f.brand) {
      params := params + [("brand", f.brand.value)];
    }
  }

  /** `params.toString()`: `name=value` pairs joined by `&`, each part passed through `encode`. */
  function Serialize(params: Params, encode: string -> string): (query: string)
    ensures params != [] ==> '=' in query
  {
    if params == [] then ""
    else
      var first := encode(params[0].0) + "=" + encode(params[0].1);
      assert first[|encode(params[0].0)|] == '=';
      if |params| == 1 then first else first + "&" + Serialize(params[1..], encode)
  }

  /** The `name=value` pieces of a query, each part passed through `encode`. */
  function Pairs(params: Params, encode: string -> string): (pieces: seq<string>)
    ensures |pieces| == |params|
  {
    seq(|params|, i requires 0 <= i < |params| => encode(params[i].0) + "=" + encode(params[i].1))
  }

  /** The query is its pieces joined by `&`. */
  lemma {:induction false} SerializeJoins(params: Params, encode: string -> string)
    ensures Serialize(params, encode) == Text.Join(Pairs(params, encode), "&")
    decreases |params|
  {
    if |params| > 1 {
      SerializeJoins(params[1..], encode);
      assert Pairs(params[1..], encode) == Pairs(params, encode)[1..];
    }
  }

  /**
   * With an encoding that escapes `&` and `=`, as `URLSearchParams` does, the query splits at `&`
   * into one piece per parameter, in order, and each piece splits at `=` into the encoded name
   * and value.
   */
  lemma SerializeSplits(params: Params, encode: string -> string)
    requires params != []
    requires forall i :: 0 <= i < |params| ==> '&' !in encode(params[i].0) && '&' !in encode(params[i].1)
    ensures Text.Split(Serialize(params, encode), '&') == Pairs(params, encode)
    ensures forall i | 0 <= i < |params| && '=' !in encode(params[i].0) && '=' !in encode(params[i].1) ::
      Text.Split(Pairs(params, encode)[i], '=') == [encode(params[i].0), encode(params[i].1)]
  {
    var pieces := Pairs(params, encode);
    forall i | 0 <= i < |pieces| ensures '&' !in pieces[i] {
      assert pieces[i] == encode(params[i].0) + "=" + encode(params[i].1);
    }
    SerializeJoins(params, encode);
    Text.SplitJoin(pieces, '&');
    forall i | 0 <= i < |params| && '=' !in encode(params[i].0) && '=' !in encode(params[i].1)
      ensures Text.Split(pieces[i], '=') == [encode(params[i].0), encode(params[i].1)]
    {
      PieceSplits(encode(params[i].0), encode(params[i].1));
    }
  }

  /** A `name=value` piece whose parts hold no `=` splits at `=` into the two parts. */
  lemma PieceSplits(name: string, value: string)
    requires '=' !in name && '=' !in value
    ensures Text.Split(name + "=" + value, '=') == [name, value]
  {
    Text.SplitAtSeparator(name, '=', value);
    Text.SplitWithoutSeparator(value, '=');
  }

  /** The URL `setUrl` writes: `/vitrin`, followed by `?` and the query when there is one. */
  function NextUrl(f: Filter, encode: string -> string): string
  {
    var query := Serialize(QueryOf(f), encode);
    if query != "" then "/vitrin?" + query else "/vitrin"
  }

  /** The URL is exactly `/vitrin` when no field is set, and carries a query otherwise. */
  lemma NextUrlBare(f: Filter, encode: string -> string)
    ensures NextUrl(f, encode) == "/vitrin" <==> !Active(f.search) && !Active(f.category) && !Active(f.brand)
  {
    QueryOfExact(f);
    var url := NextUrl(f, encode);
    if Active(f.search) || Active(f.category) || Active(f.brand) {
      assert |url| > |"/vitrin"|;
    }
  }

  /** `setUrl(filter)`: builds the query step by step and returns the URL written into history. */
  method SetUrl(f: Filter, encode: string -> string) returns (url: string)
    ensures url == NextUrl(f, encode)
  {
    var params := BuildQuery(f);
    var query := Serialize(params, encode);
    url := if query != "" then "/vitrin?" + query else "/vitrin";
  }
}
