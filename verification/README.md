# Hub Item lifecycle rules, in Dafny

This project models the record-lifecycle hooks of the marketplace "Hub Item"
of the Frappe-based hub application, and the two helpers of its `utils.py`:

- **Naming** (`autoname`): the framework's default name cut to 16 characters,
  then `-` and a 12-character hash.
- **Validation** (`validate`): a per-seller quota of 200 items checked first;
  then a default route `items/<name>`, the keyword search field, and the
  extraction of an inline base64 image into a stored file, in that order.
- **Keyword indexing** (`update_keywords_field`): seven values — four of the
  item's own attributes and three fields of the linked seller — joined by
  single spaces.
- **Image extraction** (`extract_image_from_base64`, `is_valid_file_url`).
- **`autoname_increment_by_field`**: `name`, or `name-<count>` when records
  with that name already exist.
- **`save_remote_file_locally`**: the file name derived from a URL, and the
  fetch and save it causes.

Everything the code reaches through the framework is a function parameter:
record counting (`Framework.RecordCount`), the seller field lookup
(`HubItem.SellerLookup`), JSON parsing of an inline image
(`HubItem.PayloadParser`), the file store's choice of URL
(`Framework.FileStore`) and the HTTP body of a URL (`Framework.Fetch`). The
framework's default name and the random hash are inputs. Side effects are
returned as a sequence of `Framework.Effect` values (`SaveFile`, `HttpGet`),
so "nothing was saved" is `effects == []`. Operations are pure functions:
`Validate` returns `Err(QuotaExceeded(seller))` or `Ok` of the updated item
with its effects, and a refusal carries neither an item nor an effect.

Modules: `Outcomes` (Option, Result), `Strings` (Python string operations
used by the code, with their characterising lemmas), `Framework` (the
collaborator interface and effects), `HubItem` (`hub_item.py`) and
`HubUtils` (`utils.py`).

Three behaviours of the code are worth knowing, and the model keeps both:

- After validation the image can still hold the parsed payload, when the
  file name or content is empty or the content is already a file URL
  (hub_item.py:59, 64); `ExtractImage` returns `Parsed(fileName, content)`
  then.
- The remote file name is the basename of the whole URL, query string
  included, cut at the first `?` (utils.py:28-30); a `/` inside the query
  therefore decides the name (`HubUtils.RemoteFileNameSlashInQuery`).
- The seller count read at every validation includes the item itself once
  it is stored (hub_item.py:25), so an item accepted as its seller's 200th is
  refused on every later save (`HubItem.ResaveAtQuotaRefused`).

## Model

| member | source | states |
|---|---|---|
| HubItem.Autoname | hub/hub/doctype/hub_item/hub_item.py:18-22 | only the name changes; it ends in `-` and the given 12-character hash; the part before is a prefix of the framework name of length min(16, its length); total length at most 29 |
| HubItem.AutonameFullLength | hub/hub/doctype/hub_item/hub_item.py:18-22 | a framework name of 16 or more characters gives an identifier of exactly 16 characters, `-`, 12 characters |
| HubItem.Validate | hub/hub/doctype/hub_item/hub_item.py:11-34 | fails exactly when the seller's Hub Item count is at least 200, with the seller in the error and no item or effect; on success the name and other own fields are kept, an empty route becomes `items/<name>` and a set route is kept, keywords are recomputed, and image and effects are those of image extraction |
| HubItem.QuotaBoundary | hub/hub/doctype/hub_item/hub_item.py:25-28 | a count of 199 passes the quota gate and a count of 200 fails with `QuotaExceeded(seller)` |
| HubItem.DefaultRoute | hub/hub/doctype/hub_item/hub_item.py:30-31 | only the route changes; it is never empty afterwards; a set route is never overwritten; an empty one becomes `items/<name>` |
| HubItem.ValidateIdempotent | hub/hub/doctype/hub_item/hub_item.py:24-34 | validating an already validated item again, with the seller's count unchanged and the image a plain reference, changes nothing and saves no file |
| HubItem.ResaveAtQuotaRefused | hub/hub/doctype/hub_item/hub_item.py:24-28 | an item accepted with a count of 199 is refused with `QuotaExceeded(seller)` when validated again with the count of 200 that includes it |
| HubItem.KeywordValues | hub/hub/doctype/hub_item/hub_item.py:38-53 | the seven values in field order: name, item name, item code, category, then the seller's company, country and description, absent seller values as empty strings |
| HubItem.Keywords | hub/hub/doctype/hub_item/hub_item.py:36-55 | the keyword string is name, item name, item code, category, seller company, seller country, seller description in that order, single spaces between, absent seller values as empty strings |
| HubItem.KeywordsSeparators | hub/hub/doctype/hub_item/hub_item.py:38-55 | the keyword string's spaces are exactly six separators plus the spaces inside the seven values |
| HubItem.KeywordsSegments | hub/hub/doctype/hub_item/hub_item.py:38-55 | when no value holds a space, splitting the keyword string on spaces gives back the seven values in field order |
| HubItem.ExtractImage | hub/hub/doctype/hub_item/hub_item.py:57-66 | only the image changes and at most one file is saved, no fetch; an image not starting with `{` (including empty) is untouched with no effect; a payload with non-empty name and content that is not a file URL saves exactly that file, decoded, owned by (Hub Item, name), and the image becomes its URL; otherwise no file and the image holds the parsed payload |
| HubItem.IsValidFileUrlExamples | hub/hub/doctype/hub_item/hub_item.py:78-82 | `/private/x` is not a file URL; `https://…` and `/files/…` are |
| HubItem.IsValidFileUrlExtend | hub/hub/doctype/hub_item/hub_item.py:78-82 | anything extending a file URL is a file URL (the test looks at a prefix only) |
| HubItem.IsValidFileUrl | hub/hub/doctype/hub_item/hub_item.py:78-82 | a file URL has at least four characters and starts with `/` or `h`, so it never looks like an inline payload |
| HubItem.ExtractImageSettles | hub/hub/doctype/hub_item/hub_item.py:57-66 | when the store only hands out file URLs, the extracted image is never an inline payload, and extracting again is a no-op with no effect |
| HubItem.ExtractImageResavesOnBraceUrl | hub/hub/doctype/hub_item/hub_item.py:57-66 | a store answering `{x}` makes a second extraction save the file again: the settling needs the store's URLs to be file URLs |
| HubUtils.AutonameIncrementByField | hub/hub/utils.py:13-18 | the result starts with the name; it equals the name exactly when the count is 0; otherwise it continues with `-` and the count's canonical decimal: a non-empty run of digits without a leading zero that reads back as the count |
| HubUtils.AutonameIncrementDistinct | hub/hub/utils.py:13-18 | different counts give different names |
| HubUtils.RemoteFileName | hub/hub/utils.py:28-30 | the derived name holds neither `/` nor `?`; it is a prefix of the URL's base name (text after the last `/`), ending where the first `?` of the base name is |
| HubUtils.SaveRemoteFileLocally | hub/hub/utils.py:20-35 | a URL not starting with `http` returns nothing and causes no effect; otherwise one fetch of the URL then one save of the fetched content under the derived name, owned by (doctype, name), and that file is returned |
| HubUtils.MirrorEffectCounts | hub/hub/utils.py:25-35 | an `http` URL leads to exactly one fetch (of that URL) and one saved file, the returned one; any other URL to none |
| HubUtils.MirrorSkipsNonHttp | hub/hub/utils.py:25-26 | `not-a-url` and `/files/a.png` are not mirrored |
| HubUtils.RemoteFileNameOf | hub/hub/utils.py:28-30 | for `<dir>/<file>?<query>` with no `/` in file or query and no `?` in file, the derived name is `file` |
| HubUtils.RemoteFileNameOfPlain | hub/hub/utils.py:28-30 | for `<dir>/<file>` with neither `/` nor `?` in file, the derived name is `file` |
| HubUtils.RemoteFileNameDocumentedExample | hub/hub/utils.py:21-30 | `https://example.com/test.jpg` gives `test.jpg` |
| HubUtils.RemoteFileNameDropsQuery | hub/hub/utils.py:28-30 | `https://x/y/z.jpg?v=2` gives `z.jpg` |
| HubUtils.RemoteFileNameSlashInQuery | hub/hub/utils.py:28-30 | `https://example.com/test.jpg?size=a/b` gives `b`: the base name is taken before the query is cut |
| Strings.Basename | hub/hub/utils.py:28 | the result is a suffix of the path with no `/`, preceded by a `/` unless it is the whole path |
| Strings.BasenameUnique | hub/hub/utils.py:28 | those three facts determine the base name |
| Strings.BeforeFirst | hub/hub/utils.py:30 | the result is a prefix with no `?`, followed by `?` unless it is the whole text |
| Strings.BeforeFirstUnique | hub/hub/utils.py:30 | those facts determine the cut |
| Strings.Decimal | hub/hub/utils.py:16 | a non-empty run of digits with no leading zero |
| Strings.ParseDecimalOfDecimal | hub/hub/utils.py:16 | reading the decimal text back gives the number |
| Strings.DecimalInjective | hub/hub/utils.py:16 | different numbers have different decimal texts |
| Strings.Split | hub/hub/doctype/hub_item/hub_item.py:55 | splitting on a character gives one more piece than its occurrences, none holding it |
| Strings.JoinSplit | hub/hub/doctype/hub_item/hub_item.py:55 | joining the pieces of a split with the same character rebuilds the text |
| Strings.SplitJoin | hub/hub/doctype/hub_item/hub_item.py:55 | splitting a join of separator-free parts gives the parts back |
| Strings.JoinCountsSeparators | hub/hub/doctype/hub_item/hub_item.py:55 | a join of n parts holds n-1 separators besides those inside the parts |

## Left out

- `get_context`, `get_list_context` and the `website` page-title setting (hub_item.py:14-16, 68-76): flag assignments for page rendering, with no logic.
- The framework's `WebsiteGenerator` default naming, `frappe.db.count`, `frappe.db.get_value` and the link resolution `meta.get_field(...).options`: the count and the seller lookup are parameters, and the link always reaches the seller record.
- JSON parsing, base64 decoding and the inside of `save_file`: foreign library calls, modelled as a parser parameter, a recorded `SaveFile` effect and a URL-choosing parameter.
- `requests.get`, its transport errors and the binary type of its body: network I/O; the body is an opaque string from the `fetch` parameter.
- The randomness of `frappe.generate_hash`: the hash is an input of length 12.
- The read-then-act race on the seller count between concurrent saves: concurrency is outside a single-pass model.
- A payload missing its `file_name` or `base64` key (a `KeyError`), and JSON that is not an object: the parser is assumed to return both fields.
- Image text that starts with `{` but is not valid JSON (`{oops`): `json.loads` raises and aborts `validate` after the route and keywords were already set on the record; the parser parameter is total, so `Validate` returns `Ok` for every such text and this error path is not modelled.
- The text of the quota error (`Max allowed items for seller … exceeded.`, hub_item.py:28): `QuotaExceeded` carries the seller, not the formatted message.
- HubItem.ExtractImage: requires an image that is still text; an image already holding a parsed payload would make the source fail on `.startswith`, and that failure is not modelled.
- `None` attribute and lookup values: an unset item attribute is the empty string, which the source treats the same way (`value or ""`, `if not self.route`).
- The unused import of `autoname_increment_by_field` in hub_item.py.
