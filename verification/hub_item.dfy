/**
 The lifecycle rules of a marketplace Hub Item (`hub_item.py`): how an item is
 named, the seller quota that gates validation, the default route, the
 keyword search field, and the extraction of an inline base64 image into a
 stored file.
 */
module HubItem {
  import opened Strings
  import opened Outcomes
  import opened Framework

  /** The most items one seller may hold before validation refuses another. */
  const MaxSellerItemCount: nat := 200

  /** Characters kept from the framework's name, and length of the hash. */
  const NameLength: nat := 16
  const HashLength: nat := 12

  /** The record type of every Hub Item. */
  const Doctype: string := "Hub Item"

  /** The image attribute: the text the client sent, or, once an inline
      payload has been decoded, the payload's two fields. */
  datatype ImageField =
    | Raw(text: string)
    | Parsed(fileName: string, content: string)

  /** A Hub Item record. An unset text attribute is the empty string. */
  datatype Item = Item(
    name: string,
    itemName: string,
    itemCode: string,
    hubCategory: string,
    hubSeller: string,
    route: string,
    image: ImageField,
    keywords: string)

  /** An item together with the effects that updating it caused. */
  datatype Updated = Updated(item: Item, effects: seq<Effect>)

  /** The refusal `validate` raises, naming the seller over quota. */
  datatype HubError = QuotaExceeded(seller: string)

  /* ---------------------------------------------------------------------- */
  /* Naming                                                                 */
  /* ---------------------------------------------------------------------- */

  /** The part of an identifier before its `-<hash>` suffix. */
  function NamePrefix(id: string): string
    requires |id| > HashLength
  {
    id[..|id| - HashLength - 1]
  }

  /** The hash at the end of an identifier. */
  function NameHash(id: string): string
    requires |id| >= HashLength
  {
    id[|id| - HashLength..]
  }

  /** An identifier of the full shape `<16 characters>-<12 characters>`. */
  predicate FullLengthName(id: string) {
    |id| == NameLength + 1 + HashLength && id[NameLength] == '-'
  }

  /** `autoname`: keep at most the first 16 characters of the framework's
      `baseName`, then append `-` and the 12-character `hash`. Nothing but the
      name changes. */
  function Autoname(item: Item, baseName: string, hash: string): (r: Item)
    requires |hash| == HashLength
    ensures r == item.(name := r.name)
    ensures |r.name| > HashLength && r.name[|r.name| - HashLength - 1] == '-'
    ensures NameHash(r.name) == hash
    ensures StartsWith(baseName, NamePrefix(r.name))
    ensures |NamePrefix(r.name)| == if |baseName| < NameLength then |baseName| else NameLength
    ensures |r.name| <= NameLength + 1 + HashLength
  {
    var prefix := if |baseName| < NameLength then baseName else baseName[..NameLength];
    var id := prefix + "-" + hash;
    assert NamePrefix(id) == prefix;
    item.(name := id)
  }

  /** A framework name of at least 16 characters gives an identifier of the
      full shape. */
  lemma AutonameFullLength(item: Item, baseName: string, hash: string)
    requires |hash| == HashLength
    requires |baseName| >= NameLength
    ensures FullLengthName(Autoname(item, baseName, hash).name)
  {
  }

  /* ---------------------------------------------------------------------- */
  /* Keywords                                                               */
  /* ---------------------------------------------------------------------- */

  /** `frappe.db.get_value` on the seller record: a field of a named seller,
      absent when there is no such seller or field value. */
  type SellerLookup = (string, string) -> Option<string>

  /** An attribute of the item itself. */
  datatype Attribute = NameAttr | ItemNameAttr | ItemCodeAttr | HubCategoryAttr

  /** An entry of the keyword field list: an own attribute, or a field of the
      seller record reached through the `hub_seller` link. */
  datatype KeywordField = Own(attr: Attribute) | ViaSeller(fieldName: string)

  /** The fields indexed for search, in order. */
  const KeywordFields: seq<KeywordField> := [
    Own(NameAttr), Own(ItemNameAttr), Own(ItemCodeAttr), Own(HubCategoryAttr),
    ViaSeller("company"), ViaSeller("country"), ViaSeller("company_description")]

  function AttributeValue(item: Item, a: Attribute): string {
    match a
    case NameAttr => item.name
    case ItemNameAttr => item.itemName
    case ItemCodeAttr => item.itemCode
    case HubCategoryAttr => item.hubCategory
  }

  /** A seller field, with an absent value read as the empty string. */
  function SellerValue(item: Item, lookup: SellerLookup, fieldName: string): string {
    lookup(item.hubSeller, fieldName).GetOr("")
  }

  function FieldValue(item: Item, lookup: SellerLookup, f: KeywordField): string {
    match f
    case Own(a) => AttributeValue(item, a)
    case ViaSeller(fieldName) => SellerValue(item, lookup, fieldName)
  }

  /** The value of each keyword field, in field order. */
  function KeywordValues(item: Item, lookup: SellerLookup): (vs: seq<string>)
    ensures vs == [item.name, item.itemName, item.itemCode, item.hubCategory,
                   SellerValue(item, lookup, "company"), SellerValue(item, lookup, "country"),
                   SellerValue(item, lookup, "company_description")]
  {
    seq(|KeywordFields|, i requires 0 <= i < |KeywordFields| => FieldValue(item, lookup, KeywordFields[i]))
  }

  /** `update_keywords_field`: the seven field values joined by single
      spaces, the item's own four first, then the seller's company, country
      and description. */
  function Keywords(item: Item, lookup: SellerLookup): (r: string)
    ensures r == item.name + " " + item.itemName + " " + item.itemCode + " " + item.hubCategory
              + " " + SellerValue(item, lookup, "company")
              + " " + SellerValue(item, lookup, "country")
              + " " + SellerValue(item, lookup, "company_description")
  {
    var vs := KeywordValues(item, lookup);
    assert vs == [item.name, item.itemName, item.itemCode, item.hubCategory,
                  SellerValue(item, lookup, "company"), SellerValue(item, lookup, "country"),
                  SellerValue(item, lookup, "company_description")];
    JoinSeven(vs[0], vs[1], vs[2], vs[3], vs[4], vs[5], vs[6], " ");
    Join(vs, " ")
  }

  /** Joining seven values spells out as the values with a separator between
      each neighbouring pair. */
  lemma JoinSeven(a: string, b: string, c: string, d: string, e: string, f: string, g: string, sep: string)
    ensures Join([a, b, c, d, e, f, g], sep) == a + sep + b + sep + c + sep + d + sep + e + sep + f + sep + g
  {
    var vs := [a, b, c, d, e, f, g];
    assert vs[1..] == [b, c, d, e, f, g];
    assert vs[1..][1..] == [c, d, e, f, g];
    assert vs[1..][1..][1..] == [d, e, f, g];
    assert vs[1..][1..][1..][1..] == [e, f, g];
    assert vs[1..][1..][1..][1..][1..] == [f, g];
    assert [f, g][1..] == [g];
    assert Join([f, g], sep) == f + sep + g;
    assert Join([e, f, g], sep) == e + sep + (f + sep + g);
    assert Join([d, e, f, g], sep) == d + sep + (e + sep + (f + sep + g));
    assert Join([c, d, e, f, g], sep) == c + sep + (d + sep + (e + sep + (f + sep + g)));
    assert Join([b, c, d, e, f, g], sep) == b + sep + (c + sep + (d + sep + (e + sep + (f + sep + g))));
  }

  /** The keyword string always holds exactly seven segments: its spaces are
      the six separators plus those inside the values. */
  lemma KeywordsSeparators(item: Item, lookup: SellerLookup)
    ensures CountChar(Keywords(item, lookup), ' ')
         == 6 + CountInParts(KeywordValues(item, lookup), ' ')
  {
    JoinCountsSeparators(KeywordValues(item, lookup), ' ');
  }

  /** When no value contains a space, splitting the keyword string on spaces
      gives back the seven values in field order. */
  lemma KeywordsSegments(item: Item, lookup: SellerLookup)
    requires forall i :: 0 <= i < |KeywordFields| ==> ' ' !in FieldValue(item, lookup, KeywordFields[i])
    ensures Split(Keywords(item, lookup), ' ') == KeywordValues(item, lookup)
  {
    SplitJoin(KeywordValues(item, lookup), ' ');
  }

  /* ---------------------------------------------------------------------- */
  /* Image                                                                  */
  /* ---------------------------------------------------------------------- */

  /** `is_valid_file_url`: a relative public or private file URL, or an
      absolute `http`/`https` URL. */
  predicate IsValidFileUrl(url: string)
    ensures IsValidFileUrl(url) ==> |url| >= 4 && (url[0] == '/' || url[0] == 'h')
  {
    StartsWith(url, "/files") || StartsWith(url, "/private/files") || StartsWith(url, "http")
  }

  /** `json.loads` of an inline payload, reduced to its `file_name` and
      `base64` entries. */
  type PayloadParser = string -> (string, string)

  /** Whether an image text is an inline payload awaiting extraction. */
  predicate IsInlinePayload(image: ImageField) {
    image.Raw? && StartsWith(image.text, "{")
  }

  /** `extract_image_from_base64`. An image text starting with `{` is parsed;
      when its file name and content are non-empty and the content is not
      already a file URL, the decoded content is saved as a file attached to
      the item and the image becomes that file's URL. In every other case the
      image keeps the parsed payload; a text not starting with `{` is left
      alone. Only the image changes, and at most one file is saved. */
  function ExtractImage(item: Item, parse: PayloadParser, store: FileStore): (r: Updated)
    requires item.image.Raw?
    ensures r.item == item.(image := r.item.image)
    ensures |r.effects| <= 1 && Fetches(r.effects) == []
    ensures !IsInlinePayload(item.image) ==> r == Updated(item, [])
    ensures IsInlinePayload(item.image) ==>
      var (fileName, content) := parse(item.image.text);
      var request := SaveRequest(fileName, content, Doctype, item.name, true);
      if fileName != "" && content != "" && !IsValidFileUrl(content)
      then r.effects == [SaveFile(request)] && r.item.image == Raw(store(request))
      else r.effects == [] && r.item.image == Parsed(fileName, content)
  {
    if !StartsWith(item.image.text, "{") then Updated(item, [])
    else
      var (fileName, content) := parse(item.image.text);
      var parsed := item.(image := Parsed(fileName, content));
      if fileName != "" && content != "" && !IsValidFileUrl(content) then
        var request := SaveRequest(fileName, content, Doctype, item.name, true);
        Updated(parsed.(image := Raw(store(request))), [SaveFile(request)])
      else Updated(parsed, [])
  }

  /** A relative private path outside `/private/files` is not a file URL;
      an `https` URL is. */
  lemma IsValidFileUrlExamples()
    ensures !IsValidFileUrl("/private/x")
    ensures IsValidFileUrl("https://example.com/a.png")
    ensures IsValidFileUrl("/files/existing.png")
  {
    var u := "/private/x";
    assert u[1] != "/files"[1];
    assert |u| < |"/private/files"|;
    assert u[0] != "http"[0];
    assert "https://example.com/a.png"[..4] == "http";
    assert "/files/existing.png"[..6] == "/files";
  }

  /** When the store only hands out file URLs, extraction settles: its
      result is never an inline payload, and extracting again (when the image
      is still text) changes nothing and saves nothing. */
  lemma ExtractImageSettles(item: Item, parse: PayloadParser, store: FileStore)
    requires item.image.Raw?
    requires forall q :: IsValidFileUrl(store(q))
    ensures !IsInlinePayload(ExtractImage(item, parse, store).item.image)
    ensures var once := ExtractImage(item, parse, store).item;
      once.image.Raw? ==> ExtractImage(once, parse, store) == Updated(once, [])
  {
  }

  /** Without that assumption extraction need not settle: a store that
      answers with text starting with `{` makes a second extraction save the
      file again. */
  lemma ExtractImageResavesOnBraceUrl(item: Item)
    requires item.image == Raw("{payload}")
    ensures var parse: PayloadParser := s => ("a.png", "QUJD");
      var store: FileStore := q => "{x}";
      var once := ExtractImage(item, parse, store).item;
      && once.image == Raw("{x}")
      && |ExtractImage(once, parse, store).effects| == 1
  {
  }

  /** Extending a file URL keeps it a file URL. */
  lemma {:induction false} IsValidFileUrlExtend(url: string, more: string)
    requires IsValidFileUrl(url)
    ensures IsValidFileUrl(url + more)
  {
    var s := url + more;
    forall p: string | StartsWith(url, p) ensures StartsWith(s, p) {
      assert s[..|p|] == url[..|p|];
    }
  }

  /* ---------------------------------------------------------------------- */
  /* Validation                                                             */
  /* ---------------------------------------------------------------------- */

  /** The route given to an item that has none. */
  function DefaultRoute(item: Item): (r: Item)
    ensures r == item.(route := r.route)
    ensures r.route != ""
    ensures item.route != "" ==> r.route == item.route
    ensures item.route == "" ==> r.route == "items/" + item.name
  {
    if item.route == "" then item.(route := "items/" + item.name) else item
  }

  /** `validate`: refuse the item when its seller already has 200 or more
      items; otherwise default the route, recompute the keywords and extract
      an inline image, in that order. A refusal happens before any change and
      any effect. */
  function Validate(item: Item, count: RecordCount, lookup: SellerLookup, parse: PayloadParser, store: FileStore): (r: Result<Updated, HubError>)
    requires item.image.Raw?
    ensures r.Err? <==> count(Doctype, "hub_seller", item.hubSeller) >= MaxSellerItemCount
    ensures r.Err? ==> r.error == QuotaExceeded(item.hubSeller)
    ensures r.Ok? ==>
      var out := r.value.item;
      && out.name == item.name && out.itemName == item.itemName && out.itemCode == item.itemCode
      && out.hubCategory == item.hubCategory && out.hubSeller == item.hubSeller
      && (item.route == "" ==> out.route == "items/" + item.name)
      && (item.route != "" ==> out.route == item.route)
      && out.keywords == Keywords(item, lookup)
      && var image := ExtractImage(item, parse, store);
         out.image == image.item.image && r.value.effects == image.effects
  {
    if count(Doctype, "hub_seller", item.hubSeller) >= MaxSellerItemCount then
      Err(QuotaExceeded(item.hubSeller))
    else
      var routed := DefaultRoute(item);
      var indexed := routed.(keywords := Keywords(routed, lookup));
      Ok(ExtractImage(indexed, parse, store))
  }

  /** The quota boundary: a seller with 199 items may add one more, a seller
      with 200 may not. */
  lemma QuotaBoundary(item: Item, lookup: SellerLookup, parse: PayloadParser, store: FileStore)
    requires item.image.Raw?
    ensures Validate(item, (d, f, v) => 199, lookup, parse, store).Ok?
    ensures Validate(item, (d, f, v) => 200, lookup, parse, store) == Err(QuotaExceeded(item.hubSeller))
  {
  }

  /** Validating an item whose image is a plain reference (not an inline
      payload) a second time, with the seller's count unchanged, changes
      nothing and saves nothing. */
  lemma {:induction false} ValidateIdempotent(item: Item, count: RecordCount, lookup: SellerLookup, parse: PayloadParser, store: FileStore)
    requires item.image.Raw?
    requires Validate(item, count, lookup, parse, store).Ok?
    requires Validate(item, count, lookup, parse, store).value.item.image.Raw?
    requires !IsInlinePayload(Validate(item, count, lookup, parse, store).value.item.image)
    ensures var once := Validate(item, count, lookup, parse, store).value.item;
      Validate(once, count, lookup, parse, store) == Ok(Updated(once, []))
  {
    var once := Validate(item, count, lookup, parse, store).value.item;
    assert Keywords(once, lookup) == Keywords(item, lookup);
  }

  /** The count at re-validation includes the stored item itself: an item
      accepted as its seller's 200th (count 199) is refused on any later
      save, when the count has become 200. */
  lemma ResaveAtQuotaRefused(item: Item, lookup: SellerLookup, parse: PayloadParser, store: FileStore)
    requires item.image.Raw? && !IsInlinePayload(item.image)
    ensures var first := Validate(item, (d, f, v) => 199, lookup, parse, store);
      && first.Ok?
      && Validate(first.value.item, (d, f, v) => 200, lookup, parse, store) == Err(QuotaExceeded(item.hubSeller))
  {
  }
}
