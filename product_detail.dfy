/**
 * The product page of components/ProductDetail.tsx: the thumbnail gallery, the image shown first,
 * and the target of the product button.
 */
module ProductDetail {
  import opened Wrappers
  import Seqs
  import Text
  import opened Catalog

  /**
   * `s.filter((x, i, arr) => arr.indexOf(x) === i)` over the first `n` positions: each element is
   * kept at the position of its first occurrence.
   */
  function KeepFirstOccurrences<T(==)>(s: seq<T>, n: nat): seq<T>
    requires n <= |s|
  {
    if n == 0 then []
    else KeepFirstOccurrences(s, n - 1) + (if Seqs.IndexOf(s, s[n - 1]) == n - 1 then [s[n - 1]] else [])
  }

  /**
   * The `indexOf` filter is the de-duplication that keeps first occurrences: on every prefix it
   * agrees with `Seqs.Distinct`.
   */
  lemma {:induction false} KeepFirstOccurrencesIsDistinct<T>(s: seq<T>, n: nat)
    requires n <= |s|
    ensures KeepFirstOccurrences(s, n) == Seqs.Distinct(s[..n])
    decreases n
  {
    if n > 0 {
      KeepFirstOccurrencesIsDistinct(s, n - 1);
      KeepFirstOccurrencesStepAgrees(s, n);
    }
  }

  /** The induction step: agreement on `s[..n - 1]` carries over to `s[..n]`. */
  lemma KeepFirstOccurrencesStepAgrees<T>(s: seq<T>, n: nat)
    requires 0 < n <= |s|
    requires KeepFirstOccurrences(s, n - 1) == Seqs.Distinct(s[..n - 1])
    ensures KeepFirstOccurrences(s, n) == Seqs.Distinct(s[..n])
  {
    KeepFirstOccurrencesStep(s, n);
    DistinctPrefixStep(s, n);
  }

  /** The filter keeps position `n - 1` exactly when its element does not occur earlier. */
  lemma KeepFirstOccurrencesStep<T>(s: seq<T>, n: nat)
    requires 0 < n <= |s|
    ensures KeepFirstOccurrences(s, n) ==
      if s[n - 1] in s[..n - 1] then KeepFirstOccurrences(s, n - 1) else KeepFirstOccurrences(s, n - 1) + [s[n - 1]]
  {
    FirstOccurrenceAt(s, n - 1);
  }

  /** De-duplicating one more element of a prefix appends it exactly when it is new. */
  lemma DistinctPrefixStep<T>(s: seq<T>, n: nat)
    requires 0 < n <= |s|
    ensures Seqs.Distinct(s[..n]) ==
      if s[n - 1] in s[..n - 1] then Seqs.Distinct(s[..n - 1]) else Seqs.Distinct(s[..n - 1]) + [s[n - 1]]
  {
    var t := s[..n];
    assert t[..|t| - 1] == s[..n - 1] && t[|t| - 1] == s[n - 1];
  }

  /** Position `m` holds the first occurrence of its element exactly when the element is not in `s[..m]`. */
  lemma FirstOccurrenceAt<T>(s: seq<T>, m: nat)
    requires m < |s|
    ensures Seqs.IndexOf(s, s[m]) == m <==> s[m] !in s[..m]
  {
    var x := s[m];
    var k := Seqs.IndexOf(s, x);
    if x in s[..m] {
      Seqs.IndexOfInPrefix(s, m, x);
    } else {
      assert forall j :: 0 <= j < m ==> s[..m][j] == s[j];
      assert forall j :: 0 <= j < k ==> s[..k][j] == s[j];
    }
  }

  /** `[product.image, ...product.gallery]` without repeats. */
  function GalleryImages(p: Product): seq<string>
  {
    var all := [p.image] + p.gallery;
    KeepFirstOccurrences(all, |all|)
  }

  /**
   * The gallery starts with the main image, has no repeats, shows every image of
   * `[image] + gallery`, shows nothing else, and keeps the order of first occurrences.
   */
  lemma GalleryImagesProperties(p: Product)
    ensures var all := [p.image] + p.gallery;
      var images := GalleryImages(p);
      && images != [] && images[0] == p.image
      && Seqs.NoDuplicates(images)
      && (forall x :: x in images <==> x in all)
      && Seqs.IsSubsequence(images, all)
      && forall i, j :: 0 <= i < j < |images| ==> Seqs.IndexOf(all, images[i]) < Seqs.IndexOf(all, images[j])
  {
    var all := [p.image] + p.gallery;
    KeepFirstOccurrencesIsDistinct(all, |all|);
    assert all[..|all|] == all;
    Seqs.DistinctKeepsFirstOccurrences(all);
    var images := GalleryImages(p);
    forall x
      ensures x in images <==> x in all
    {
      if x in all {
        var i :| 0 <= i < |all| && all[i] == x;
      }
      if x in images {
        var i :| 0 <= i < |images| && images[i] == x;
      }
    }
  }

  /** `galleryImages[0] ?? product.image`. */
  function InitialActiveImage(p: Product): string
  {
    var images := GalleryImages(p);
    if images != [] then images[0] else p.image
  }

  /** The page opens on the main image. */
  lemma InitialActiveImageIsMain(p: Product)
    ensures InitialActiveImage(p) == p.image
  {
    GalleryImagesProperties(p);
  }

  /** The path of a product's own page. */
  function PagePath(slug: string): string
  {
    "/vitrin/" + slug
  }

  /** `detailHref`: the trimmed external link when it is not blank, otherwise the product's page. */
  function DetailHref(p: Product): string
  {
    if p.productUrl.Some? && Text.Trim(p.productUrl.value) != "" then Text.Trim(p.productUrl.value)
    else PagePath(p.slug)
  }

  /** `isExternalLink`: the target starts with an http or https scheme, in any letter case. */
  predicate IsExternalLink(p: Product)
  {
    Text.HasHttpScheme(DetailHref(p))
  }

  /** The product's own page is never an external link. */
  lemma PagePathIsInternal(slug: string)
    ensures !Text.HasHttpScheme(PagePath(slug))
  {
    var lowered := Text.Lower(PagePath(slug));
    assert lowered[0] == '/';
  }

  /**
   * The button leads to the trimmed product link when there is a non-blank one, and to the
   * product's page otherwise; it is external exactly when the link it uses has an http(s) scheme,
   * so the product's page is never external.
   */
  lemma DetailHrefCases(p: Product)
    ensures p.productUrl.Some? && !Text.IsBlank(p.productUrl.value) ==> DetailHref(p) == Text.Trim(p.productUrl.value)
    ensures p.productUrl.None? || Text.IsBlank(p.productUrl.value) ==> DetailHref(p) == PagePath(p.slug) && !IsExternalLink(p)
    ensures IsExternalLink(p) <==> p.productUrl.Some? && !Text.IsBlank(p.productUrl.value) && Text.HasHttpScheme(Text.Trim(p.productUrl.value))
  {
    PagePathIsInternal(p.slug);
  }

  /**
   * For a record the mapper produced, the product link is already trimmed and non-blank, so the
   * button leads to it unchanged.
   */
  lemma MappedDetailHref(doc: StoredProduct, rt: Runtime)
    ensures var p := MapProduct(doc, rt);
      && (p.productUrl.Some? ==> DetailHref(p) == p.productUrl.value)
      && (p.productUrl.None? ==> DetailHref(p) == PagePath(doc.slug))
  {
    var p := MapProduct(doc, rt);
    MapProductFields(doc, rt);
    if p.productUrl.Some? {
      Text.TrimOfTrimmed(p.productUrl.value);
    }
  }
}
