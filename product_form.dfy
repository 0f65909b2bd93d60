/**
 * The string helpers and the submit checks of app/admin/ProductForm.tsx: the comma-separated
 * list fields, the product link normalisation, and the validation `handleSubmit` performs before
 * it sends the product to the server.
 */
module ProductForm {
  import opened Wrappers
  import Seqs
  import Text

  /** Every piece, trimmed. */
  function TrimAll(pieces: seq<string>): (r: seq<string>)
    ensures |r| == |pieces|
    ensures forall i :: 0 <= i < |pieces| ==> r[i] == Text.Trim(pieces[i])
  {
    seq(|pieces|, i requires 0 <= i < |pieces| => Text.Trim(pieces[i]))
  }

  /** `filter(Boolean)` on strings. */
  function NonEmpty(s: string): bool
  {
    s != ""
  }

  /** `parseList(input)`: the comma-separated items, trimmed, empty ones dropped; no input gives none. */
  function ParseList(input: Option<string>): seq<string>
  {
    if input.None? || input.value == "" then []
    else Seqs.Filter(TrimAll(Text.Split(input.value, ',')), NonEmpty)
  }

  /** Trimming keeps a contiguous part of the string, so it adds no character. */
  lemma TrimMembers(s: string)
    ensures forall c :: c in Text.Trim(s) ==> c in s
  {
    var d := Text.LeadingSpaces(s);
    var e := Text.ContentEnd(s, d, |s|);
    var r := s[d..e];
    assert Text.Trim(s) == r;
    forall c | c in r
      ensures c in s
    {
      var i :| 0 <= i < |r| && r[i] == c;
      assert s[d + i] == c;
    }
  }

  /**
   * Each item is non-empty, has no surrounding whitespace and holds no comma; there are at most
   * as many items as commas plus one; a missing or empty input gives no items.
   */
  lemma ParseListShape(input: Option<string>)
    ensures var items := ParseList(input);
      && (input.None? || input.value == "" ==> items == [])
      && (forall i :: 0 <= i < |items| ==> items[i] != "" && Text.IsTrimmed(items[i]) && ',' !in items[i])
      && (input.Some? ==> |items| <= multiset(input.value)[','] + 1)
  {
    if input.Some? && input.value != "" {
      var pieces := Text.Split(input.value, ',');
      Text.SplitCount(input.value, ',');
      CleanedItems(pieces);
    }
  }

  /** The trimmed, non-empty pieces of comma-free strings are non-empty, trimmed and comma-free. */
  lemma CleanedItems(pieces: seq<string>)
    requires forall i :: 0 <= i < |pieces| ==> ',' !in pieces[i]
    ensures var items := Seqs.Filter(TrimAll(pieces), NonEmpty);
      forall i :: 0 <= i < |items| ==> items[i] != "" && Text.IsTrimmed(items[i]) && ',' !in items[i]
  {
    var trimmed := TrimAll(pieces);
    var items := Seqs.Filter(trimmed, NonEmpty);
    forall i | 0 <= i < |items|
      ensures items[i] != "" && Text.IsTrimmed(items[i]) && ',' !in items[i]
    {
      assert items[i] in trimmed;
      var k :| 0 <= k < |trimmed| && trimmed[k] == items[i];
      TrimMembers(pieces[k]);
    }
  }

  /** The pieces after the first when a list is joined with ", ": each keeps its leading space. */
  function Spaced(xs: seq<string>): (r: seq<string>)
    ensures |r| == |xs|
    ensures forall i :: 0 <= i < |xs| ==> r[i] == " " + xs[i]
  {
    seq(|xs|, i requires 0 <= i < |xs| => " " + xs[i])
  }

  /** Splitting a ", "-joined list at the commas gives back the items, all but the first behind a space. */
  lemma {:induction false} SplitJoined(xs: seq<string>)
    requires xs != []
    requires forall i :: 0 <= i < |xs| ==> ',' !in xs[i]
    ensures Text.Split(Text.Join(xs, ", "), ',') == [xs[0]] + Spaced(xs[1..])
    decreases |xs|
  {
    if |xs| == 1 {
      Text.SplitWithoutSeparator(xs[0], ',');
      assert Spaced(xs[1..]) == [];
    } else {
      var rest := Text.Join(xs[1..], ", ");
      assert Text.Join(xs, ", ") == xs[0] + [','] + (" " + rest);
      Text.SplitAtSeparator(xs[0], ',', " " + rest);
      SplitJoined(xs[1..]);
      SplitBehindSpace(rest);
      SpacedCons(xs[1..]);
    }
  }

  /** `Spaced` of a non-empty list: the first item behind a space, then the rest. */
  lemma SpacedCons(xs: seq<string>)
    requires xs != []
    ensures Spaced(xs) == [" " + xs[0]] + Spaced(xs[1..])
  {
  }

  /** A leading space joins the first piece. */
  lemma SplitBehindSpace(rest: string)
    ensures var tail := Text.Split(rest, ',');
      Text.Split(" " + rest, ',') == [" " + tail[0]] + tail[1..]
  {
    assert (" " + rest)[1..] == rest;
  }

  /**
   * The form shows a stored list as its items joined with ", " and reads it back with
   * `parseList`: items that are non-empty, trimmed and comma-free come back unchanged.
   */
  lemma ParseListJoinRoundTrip(xs: seq<string>)
    requires forall i :: 0 <= i < |xs| ==> xs[i] != "" && Text.IsTrimmed(xs[i]) && ',' !in xs[i]
    ensures ParseList(Some(Text.Join(xs, ", "))) == xs
  {
    if xs != [] {
      var joined := Text.Join(xs, ", ");
      JoinedNonEmpty(xs);
      SplitJoined(xs);
      TrimPieces(xs);
      Seqs.FilterAll(xs, NonEmpty);
      assert TrimAll(Text.Split(joined, ',')) == xs;
    }
  }

  /** A list whose first item is non-empty joins to a non-empty string. */
  lemma JoinedNonEmpty(xs: seq<string>)
    requires xs != [] && xs[0] != ""
    ensures Text.Join(xs, ", ") != ""
  {
    if |xs| > 1 {
      assert Text.Join(xs, ", ") == xs[0] + ", " + Text.Join(xs[1..], ", ");
    }
  }

  /** Trimming the pieces of a ", "-joined list yields the items. */
  lemma TrimPieces(xs: seq<string>)
    requires xs != []
    requires forall i :: 0 <= i < |xs| ==> xs[i] != "" && Text.IsTrimmed(xs[i])
    ensures TrimAll([xs[0]] + Spaced(xs[1..])) == xs
  {
    var pieces := [xs[0]] + Spaced(xs[1..]);
    forall i | 0 <= i < |xs|
      ensures Text.Trim(pieces[i]) == xs[i]
    {
      TrimItem(xs[i]);
      PieceAt(xs, i);
    }
  }

  /** The piece at position `i` is the item, behind one space after the first. */
  lemma PieceAt(xs: seq<string>, i: nat)
    requires i < |xs|
    ensures ([xs[0]] + Spaced(xs[1..]))[i] == if i == 0 then xs[i] else " " + xs[i]
  {
    if i > 0 {
      assert xs[1..][i - 1] == xs[i];
    }
  }

  /** A trimmed, non-empty item trims to itself, with or without one space in front. */
  lemma TrimItem(x: string)
    requires x != "" && Text.IsTrimmed(x)
    ensures Text.Trim(x) == x && Text.Trim(" " + x) == x
  {
    Text.TrimOfTrimmed(x);
    Text.TrimBlankPrefix(" ", x);
  }

  // ---------------------------------------------------------------------------------------------
  // The product link

  /**
   * `normalizeProductUrl(input)`: trimmed; blank gives the empty string; an http or https URL (in
   * any letter case) or a root-relative path is kept; anything else is prefixed with `https://`.
   */
  function NormalizeProductUrl(input: string): string
  {
    var trimmed := Text.Trim(input);
    if trimmed == "" then ""
    else if Text.HasHttpScheme(trimmed) || Text.StartsWith(trimmed, "/") then trimmed
    else "https://" + trimmed
  }

  /**
   * The three outcomes: blank input gives "", a kept link is the trimmed input, any other link is
   * the trimmed input behind `https://`. A non-empty result is trimmed and is either an http(s)
   * link or a root-relative path.
   */
  lemma NormalizeProductUrlCases(input: string)
    ensures var r := NormalizeProductUrl(input);
      var trimmed := Text.Trim(input);
      && (r == "" <==> Text.IsBlank(input))
      && (!Text.IsBlank(input) && (Text.HasHttpScheme(trimmed) || Text.StartsWith(trimmed, "/")) ==> r == trimmed)
      && (!Text.IsBlank(input) && !Text.HasHttpScheme(trimmed) && !Text.StartsWith(trimmed, "/") ==> r == "https://" + trimmed)
      && (r != "" ==> Text.IsTrimmed(r) && (Text.HasHttpScheme(r) || Text.StartsWith(r, "/")))
  {
    var trimmed := Text.Trim(input);
    if trimmed != "" && !Text.HasHttpScheme(trimmed) && !Text.StartsWith(trimmed, "/") {
      PrefixedIsSecure(trimmed);
    }
  }

  /** `https://` in front of a trimmed, non-empty string is a trimmed https link. */
  lemma PrefixedIsSecure(trimmed: string)
    requires trimmed != "" && Text.IsTrimmed(trimmed)
    ensures var r := "https://" + trimmed;
      Text.IsTrimmed(r) && Text.HasHttpScheme(r) && Text.Trim(r) == r
  {
    var r := "https://" + trimmed;
    assert r[|r| - 1] == trimmed[|trimmed| - 1];
    assert Text.Lower(r)[..8] == "https://";
    Text.TrimOfTrimmed(r);
  }

  /** Normalising twice is normalising once, so the value written back into the form is stable. */
  lemma NormalizeProductUrlIdempotent(input: string)
    ensures NormalizeProductUrl(NormalizeProductUrl(input)) == NormalizeProductUrl(input)
  {
    var trimmed := Text.Trim(input);
    Text.TrimIdempotent(input);
    if trimmed != "" && !Text.HasHttpScheme(trimmed) && !Text.StartsWith(trimmed, "/") {
      PrefixedIsSecure(trimmed);
    }
  }

  // ---------------------------------------------------------------------------------------------
  // Submission

  /** The controlled inputs of the form when it is submitted. */
  datatype FormState = FormState(
    name: string,
    brandId: string,
    category: string,
    price: string,
    currency: string,
    imageData: Option<string>,
    description: string,
    galleryData: seq<string>,
    galleryError: Option<string>,
    sizes: string,
    colors: string,
    features: string,
    productUrl: string)

  /** The JSON body sent to the server. */
  datatype Payload = Payload(
    name: string,
    brandId: string,
    category: string,
    price: real,
    currency: string,
    imageData: string,
    description: string,
    galleryData: seq<string>,
    sizes: seq<string>,
    colors: seq<string>,
    features: seq<string>,
    productUrl: string)

  /**
   * What a submit does before the request: the product link field after the write-back, and
   * either the body to send or the message shown instead.
   */
  datatype Submission = Submission(productUrlField: string, outcome: Result<Payload, string>)

  const RequiredFieldsMessage := "Lütfen tüm zorunlu alanları doldurun."
  const InvalidPriceMessage := "Geçerli bir fiyat girin."

  /** `s.replace(from, to)` with a one-character pattern: the first occurrence only. */
  function ReplaceFirst(s: string, from: char, to: char): (r: string)
    ensures |r| == |s|
    ensures from in s ==> r[Seqs.IndexOf(s, from)] == to
    ensures forall i :: 0 <= i < |s| && i != Seqs.IndexOf(s, from) ==> r[i] == s[i]
  {
    var k := Seqs.IndexOf(s, from);
    if k < 0 then s else s[k := to]
  }

  /** JavaScript truthiness of an optional string. */
  predicate Present(o: Option<string>)
  {
    o.Some? && o.value != ""
  }

  /** The required fields are all filled: name, category and description after trimming, brand and image. */
  predicate RequiredFilled(form: FormState)
  {
    Text.Trim(form.name) != "" && form.brandId != "" && Text.Trim(form.category) != ""
    && Present(form.imageData) && Text.Trim(form.description) != ""
  }

  /**
   * The message a submit shows instead of sending, if any: the checks run in order and the first
   * failure wins — a missing required field, then a price that is not a positive finite number,
   * then a pending gallery error.
   */
  function Rejection(form: FormState, price: Option<real>): (message: Option<string>)
    ensures !RequiredFilled(form) ==> message == Some(RequiredFieldsMessage)
    ensures RequiredFilled(form) && (price.None? || price.value <= 0.0) ==> message == Some(InvalidPriceMessage)
    ensures RequiredFilled(form) && price.Some? && price.value > 0.0 && Present(form.galleryError) ==> message == form.galleryError
    ensures message.None? <==> RequiredFilled(form) && price.Some? && price.value > 0.0 && !Present(form.galleryError)
  {
    if !RequiredFilled(form) then Some(RequiredFieldsMessage)
    else if price.None? || price.value <= 0.0 then Some(InvalidPriceMessage)
    else if Present(form.galleryError) then form.galleryError
    else None
  }

  /** The JSON body of an accepted submit. */
  function BodyOf(form: FormState, price: real, link: string): Payload
    requires Present(form.imageData)
  {
    Payload(
      Text.Trim(form.name), form.brandId, Text.Trim(form.category), price, form.currency,
      form.imageData.value, Text.Trim(form.description), form.galleryData,
      ParseList(Some(form.sizes)), ParseList(Some(form.colors)), ParseList(Some(form.features)), link)
  }

  /**
   * `handleSubmit` up to the request. `toNumber` is JavaScript's `Number` on the price text,
   * `None` when the value is not finite.
   */
  function Submit(form: FormState, toNumber: string -> Option<real>): Submission
  {
    var price := toNumber(ReplaceFirst(form.price, ',', '.'));
    var link := NormalizeProductUrl(form.productUrl);
    match Rejection(form, price)
    case Some(message) => Submission(link, Err(message))
    case None => Submission(link, Ok(BodyOf(form, price.value, link)))
  }

  /**
   * A body is sent exactly when every check passes; it carries the trimmed, non-empty name,
   * category and description, the brand, a positive price, the image, the parsed lists, and the
   * normalised link. The link field of the form is written back normalised whatever the outcome.
   */
  lemma SubmitPayload(form: FormState, toNumber: string -> Option<real>)
    ensures var s := Submit(form, toNumber);
      var price := toNumber(ReplaceFirst(form.price, ',', '.'));
      && s.productUrlField == NormalizeProductUrl(form.productUrl)
      && (s.outcome.Err? <==> Rejection(form, price).Some?)
      && (s.outcome.Err? ==> s.outcome.error == Rejection(form, price).value)
      && (s.outcome.Ok? ==>
            var p := s.outcome.value;
            && p.name == Text.Trim(form.name) && p.name != "" && Text.IsTrimmed(p.name)
            && p.category == Text.Trim(form.category) && p.category != "" && Text.IsTrimmed(p.category)
            && p.description == Text.Trim(form.description) && p.description != ""
            && p.brandId == form.brandId && p.brandId != ""
            && Some(p.price) == price && p.price > 0.0
            && Some(p.imageData) == form.imageData && p.imageData != ""
            && p.sizes == ParseList(Some(form.sizes)) && p.colors == ParseList(Some(form.colors))
            && p.features == ParseList(Some(form.features))
            && p.productUrl == s.productUrlField)
  {
  }

  /** Submitting again after the write-back sends the same link. */
  lemma ResubmitKeepsLink(form: FormState, toNumber: string -> Option<real>)
    ensures var again := form.(productUrl := Submit(form, toNumber).productUrlField);
      Submit(again, toNumber).productUrlField == Submit(form, toNumber).productUrlField
  {
    var link := Submit(form, toNumber).productUrlField;
    SubmitPayload(form, toNumber);
    SubmitPayload(form.(productUrl := link), toNumber);
    NormalizeProductUrlIdempotent(form.productUrl);
  }
}
