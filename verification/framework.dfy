/**
 The narrow interface through which the hub code reaches the web framework.
 Every service is passed in as a function; the only side effects the hub code
 causes are recorded as `Effect` values, in the order they happen.
 */
module Framework {

  /** `frappe.db.count(doctype, {fieldname: value})`: how many records of
      `doctype` have `value` in `fieldname`. */
  type RecordCount = (string, string, string) -> nat

  /** The arguments of one call to the file manager's `save_file`. */
  datatype SaveRequest = SaveRequest(
    fileName: string,
    content: string,
    ownerDoctype: string,
    ownerName: string,
    decode: bool)

  /** A file record created by `save_file`: what was saved and the URL the
      storage layer gave it. */
  datatype StoredFile = StoredFile(request: SaveRequest, fileUrl: string)

  /** The storage layer's choice of URL for a saved file. */
  type FileStore = SaveRequest -> string

  /** `requests.get(url).content`. */
  type Fetch = string -> string

  /** A side effect on the outside world. */
  datatype Effect =
    | SaveFile(request: SaveRequest)
    | HttpGet(url: string)

  /** The files saved by a run of effects, in order. */
  function SavedFiles(effects: seq<Effect>): (saved: seq<SaveRequest>)
    ensures |saved| <= |effects|
    ensures forall q :: q in saved <==> SaveFile(q) in effects
  {
    if |effects| == 0 then []
    else (if effects[0].SaveFile? then [effects[0].request] else []) + SavedFiles(effects[1..])
  }

  /** The URLs fetched by a run of effects, in order. */
  function Fetches(effects: seq<Effect>): (urls: seq<string>)
    ensures |urls| <= |effects|
    ensures forall u :: u in urls <==> HttpGet(u) in effects
  {
    if |effects| == 0 then []
    else (if effects[0].HttpGet? then [effects[0].url] else []) + Fetches(effects[1..])
  }
}
