/**
 The helpers of `hub/hub/utils.py`: numbering a name by how many records
 already carry it, and mirroring a remote file into local file storage.
 */
module HubUtils {
  import opened Strings
  import opened Outcomes
  import opened Framework

  /* ---------------------------------------------------------------------- */
  /* autoname_increment_by_field                                            */
  /* ---------------------------------------------------------------------- */

  /** `name` itself when no record of `doctype` has `name` in `fieldName`,
      otherwise `name-<count>`. */
  function AutonameIncrementByField(doctype: string, fieldName: string, name: string, count: RecordCount): (r: string)
    ensures StartsWith(r, name)
    ensures r == name <==> count(doctype, fieldName, name) == 0
    ensures |r| > |name| ==>
      && r[|name|] == '-'
      && var suffix := r[|name| + 1..];
         && |suffix| > 0
         && suffix[0] != '0'
         && (forall i :: 0 <= i < |suffix| ==> IsDigit(suffix[i]))
         && ParseDecimal(suffix) == count(doctype, fieldName, name)
  {
    var n := count(doctype, fieldName, name);
    if n != 0 then
      var r := name + "-" + Decimal(n);
      assert r[|name| + 1..] == Decimal(n);
      ParseDecimalOfDecimal(n);
      r
    else name
  }

  /** Two different counts never produce the same name. */
  lemma AutonameIncrementDistinct(doctype: string, fieldName: string, name: string, count1: RecordCount, count2: RecordCount)
    requires count1(doctype, fieldName, name) != count2(doctype, fieldName, name)
    ensures AutonameIncrementByField(doctype, fieldName, name, count1)
         != AutonameIncrementByField(doctype, fieldName, name, count2)
  {
  }

  /* ---------------------------------------------------------------------- */
  /* save_remote_file_locally                                               */
  /* ---------------------------------------------------------------------- */

  /** The local file name for a remote URL: `os.path.basename` of the whole
      URL, then everything before the first `?`. */
  function RemoteFileName(url: string): (r: string)
    ensures '/' !in r && '?' !in r
    ensures EndsWith(url, Basename(url)) && StartsWith(Basename(url), r)
    ensures |r| < |Basename(url)| ==> Basename(url)[|r|] == '?'
  {
    BeforeFirst(Basename(url), '?')
  }

  /** What `save_remote_file_locally` returns, with the effects it causes. */
  datatype Mirrored = Mirrored(file: Option<StoredFile>, effects: seq<Effect>)

  /** Fetch an `http` URL and save its content as a file owned by
      (`doctype`, `name`); any other URL is left alone. */
  function SaveRemoteFileLocally(url: string, doctype: string, name: string, fetch: Fetch, store: FileStore): (r: Mirrored)
    ensures !StartsWith(url, "http") ==> r.file == None && r.effects == []
    ensures StartsWith(url, "http") ==>
      var request := SaveRequest(RemoteFileName(url), fetch(url), doctype, name, false);
      && r.effects == [HttpGet(url), SaveFile(request)]
      && r.file == Some(StoredFile(request, store(request)))
  {
    if !StartsWith(url, "http") then Mirrored(None, [])
    else
      var fileName := RemoteFileName(url);
      var content := fetch(url);
      var request := SaveRequest(fileName, content, doctype, name, false);
      Mirrored(Some(StoredFile(request, store(request))), [HttpGet(url), SaveFile(request)])
  }

  /** Mirroring fetches the URL and saves one file exactly when the URL starts
      with `http`, and then the file it returns is the one it saved. */
  lemma {:induction false} MirrorEffectCounts(url: string, doctype: string, name: string, fetch: Fetch, store: FileStore)
    ensures var r := SaveRemoteFileLocally(url, doctype, name, fetch, store);
      && (StartsWith(url, "http") ==> Fetches(r.effects) == [url] && |SavedFiles(r.effects)| == 1
                                      && r.file.Some? && SavedFiles(r.effects) == [r.file.value.request])
      && (!StartsWith(url, "http") ==> Fetches(r.effects) == [] && SavedFiles(r.effects) == [] && r.file.None?)
  {
    var r := SaveRemoteFileLocally(url, doctype, name, fetch, store);
    if StartsWith(url, "http") {
      assert r.effects[1..][1..] == [];
      assert Fetches(r.effects[1..]) == [];
      assert SavedFiles(r.effects[1..]) == [r.effects[1].request];
    }
  }

  /** The file name of `<dir>/<file>?<query>` is `file` when neither `file`
      nor the query holds a `/` and `file` holds no `?`. */
  lemma RemoteFileNameOf(dir: string, file: string, query: string)
    requires '/' !in file && '?' !in file && '/' !in query
    ensures RemoteFileName(dir + "/" + file + "?" + query) == file
  {
    var url := dir + "/" + file + "?" + query;
    var base := file + "?" + query;
    assert url == dir + "/" + base;
    BasenameUnique(url, base);
    BeforeFirstUnique(base, '?', file);
  }

  /** The file name of `<dir>/<file>` is `file` when `file` holds neither
      `/` nor `?`. */
  lemma RemoteFileNameOfPlain(dir: string, file: string)
    requires '/' !in file && '?' !in file
    ensures RemoteFileName(dir + "/" + file) == file
  {
    var url := dir + "/" + file;
    BasenameUnique(url, file);
    BeforeFirstUnique(file, '?', file);
  }

  /** The example of the function's own documentation. */
  lemma RemoteFileNameDocumentedExample()
    ensures RemoteFileName("https://example.com/test.jpg") == "test.jpg"
  {
    assert "https://example.com/test.jpg" == "https://example.com" + "/" + "test.jpg";
    RemoteFileNameOfPlain("https://example.com", "test.jpg");
  }

  /** A query string after the last `/` is dropped. */
  lemma RemoteFileNameDropsQuery()
    ensures RemoteFileName("https://x/y/z.jpg?v=2") == "z.jpg"
  {
    assert "https://x/y/z.jpg?v=2" == "https://x/y" + "/" + "z.jpg" + "?" + "v=2";
    RemoteFileNameOf("https://x/y", "z.jpg", "v=2");
  }

  /** The base name is taken over the whole URL, query string included, so a
      `/` inside the query decides the file name. */
  lemma RemoteFileNameSlashInQuery()
    ensures RemoteFileName("https://example.com/test.jpg?size=a/b") == "b"
  {
    assert "https://example.com/test.jpg?size=a/b" == "https://example.com/test.jpg?size=a" + "/" + "b";
    RemoteFileNameOfPlain("https://example.com/test.jpg?size=a", "b");
  }

  /** A URL without the `http` prefix is not mirrored. */
  lemma MirrorSkipsNonHttp(doctype: string, name: string, fetch: Fetch, store: FileStore)
    ensures SaveRemoteFileLocally("not-a-url", doctype, name, fetch, store) == Mirrored(None, [])
    ensures SaveRemoteFileLocally("/files/a.png", doctype, name, fetch, store) == Mirrored(None, [])
  {
    var u1, u2 := "not-a-url", "/files/a.png";
    assert u1[..4][0] != "http"[0];
    assert !StartsWith(u1, "http");
    assert u2[..4][0] != "http"[0];
    assert !StartsWith(u2, "http");
  }
}
