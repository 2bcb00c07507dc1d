/**
 * The pure string logic of the photo store (caravel/storage/photos.py):
 * the photo id `upload` writes, the public URL the `public_url` template
 * filter builds from it, and the expiry decision `collect_garbage` takes for
 * each file it lists. The clock, the uuid generator and the environment
 * variable SERVER_SOFTWARE are parameters; Cloud Storage is left out.
 */
module Photos {
  import opened Wrappers
  import opened Strings

  /** Sixty days, in seconds. */
  const PHOTO_LIFETIME: int := 60 * 24 * 60 * 60
  const GCS_BUCKET: string := "hosted-caravel.appspot.com"
  const DEV_PREFIX: string := "/_ah/gcs/"
  const PROD_PREFIX: string := "https://storage.googleapis.com/"
  const DEV_SERVER: string := "Development/"

  // ---------------------------------------------------------------------
  // Photo ids
  // ---------------------------------------------------------------------

  predicate IsLowerHex(c: char) {
    ('0' <= c <= '9') || ('a' <= c <= 'f')
  }

  /** `str(uuid.uuid4())`: 32 lower-case hex digits grouped 8-4-4-4-12. */
  predicate IsUuid(g: string) {
    && |g| == 36
    && (forall i :: 0 <= i < |g| && i in {8, 13, 18, 23} ==> g[i] == '-')
    && (forall i :: 0 <= i < |g| && i !in {8, 13, 18, 23} ==> IsLowerHex(g[i]))
  }

  /**
   * `"{}-{}-{}".format(now, guid, size)`, with `now = int(time.time())`.
   * Cut at its first `-`, the id gives back the decimal upload time; built
   * from a uuid and a size name of path characters, it is a valid path.
   */
  function PhotoId(now: nat, guid: string, size: string): (id: string)
    ensures SplitOnce(id, '-')[0] == Decimal(now)
    ensures IsUuid(guid) && IsPath(size) ==> IsPath(id)
  {
    var d := Decimal(now);
    var id := d + "-" + guid + "-" + size;
    assert id == d + ['-'] + (guid + "-" + size);
    assert id[..|d|] == d && id[|d|] == '-';
    assert FirstIndex(id, '-') == |d|;
    assert IsUuid(guid) && IsPath(size) ==> IsPath(id) by {
      if IsUuid(guid) && IsPath(size) {
        forall i | 0 <= i < |id| ensures IsPathChar(id[i]) {
          if i < |d| {
            assert id[i] == d[i];
          } else if i == |d| {
          } else if i < |d| + 1 + |guid| {
            assert id[i] == guid[i - |d| - 1];
          } else if i == |d| + 1 + |guid| {
          } else {
            assert id[i] == size[i - |d| - 2 - |guid|];
          }
        }
      }
    }
    id
  }

  // ---------------------------------------------------------------------
  // public_url
  // ---------------------------------------------------------------------

  predicate IsPathChar(c: char) {
    ('a' <= c <= 'z') || ('A' <= c <= 'Z') || ('0' <= c <= '9') || c == '-'
  }

  /** The whole of `s` is one or more characters of `[a-zA-Z0-9-]`. */
  predicate IsPath(s: string) {
    |s| > 0 && forall i :: 0 <= i < |s| ==> IsPathChar(s[i])
  }

  /**
   * `re.match(r'^[a-zA-Z0-9\-]+$', s)` succeeds. Without MULTILINE, `$`
   * matches at the end of the string and also just before a newline that
   * ends it.
   */
  predicate RegexAccepts(s: string) {
    IsPath(s) || (|s| > 1 && s[|s| - 1] == '\n' && IsPath(s[..|s| - 1]))
  }

  /** `os.environ["SERVER_SOFTWARE"].startswith("Development/")`. */
  predicate IsDevServer(serverSoftware: string) {
    |serverSoftware| >= |DEV_SERVER| && serverSoftware[..|DEV_SERVER|] == DEV_SERVER
  }

  function UrlPrefix(serverSoftware: string): string {
    if IsDevServer(serverSoftware) then DEV_PREFIX else PROD_PREFIX
  }

  datatype UrlError = InvalidPath(path: string)

  /**
   * `public_url` as written: a missing or empty path gives `""`; a path the
   * regular expression refuses raises ValueError; otherwise the bucket path
   * under the development or the production prefix.
   */
  function PublicUrlAsWritten(path: Option<string>, serverSoftware: string): (r: Result<string, UrlError>)
    ensures (path == None || path == Some("")) ==> r == Ok("")
    ensures path.Some? && path.value != "" && !RegexAccepts(path.value) ==> r == Err(InvalidPath(path.value))
    ensures path.Some? && RegexAccepts(path.value) ==>
      r == Ok(UrlPrefix(serverSoftware) + GCS_BUCKET + "/" + path.value)
  {
    if path == None || path.value == "" then Ok("")
    else if !RegexAccepts(path.value) then Err(InvalidPath(path.value))
    else Ok(UrlPrefix(serverSoftware) + GCS_BUCKET + "/" + path.value)
  }

  /** The as-written filter lets a path ending in a newline through. */
  lemma TrailingNewlineAccepted(serverSoftware: string)
    ensures PublicUrlAsWritten(Some("abc\n"), serverSoftware) == Ok(UrlPrefix(serverSoftware) + GCS_BUCKET + "/" + "abc\n")
  {
    var s := "abc\n";
    assert s[..3] == "abc";
    assert IsPathChar('a') && IsPathChar('b') && IsPathChar('c');
    assert IsPath(s[..3]);
    assert RegexAccepts(s);
  }

  /**
   * `public_url` as intended: only paths made entirely of
   * `[a-zA-Z0-9-]` are turned into URLs.
   */
  function PublicUrl(path: Option<string>, serverSoftware: string): (r: Result<string, UrlError>)
    ensures (path == None || path == Some("")) <==> r == Ok("")
    ensures r.Err? <==> path.Some? && path.value != "" && !IsPath(path.value)
    ensures r.Err? ==> r.error == InvalidPath(path.value)
    ensures r.Ok? && r.value != "" ==>
      r.value == UrlPrefix(serverSoftware) + GCS_BUCKET + "/" + path.value && IsPath(path.value)
  {
    if path == None || path.value == "" then Ok("")
    else if !IsPath(path.value) then Err(InvalidPath(path.value))
    else Ok(UrlPrefix(serverSoftware) + GCS_BUCKET + "/" + path.value)
  }

  /** The intended filter refuses the newline the as-written one accepts. */
  lemma TrailingNewlineRefused(serverSoftware: string)
    ensures PublicUrl(Some("abc\n"), serverSoftware) == Err(InvalidPath("abc\n"))
  {
    assert !IsPathChar("abc\n"[3]);
  }

  /** The two agree on every path that does not end in a newline. */
  lemma PublicUrlAgrees(path: Option<string>, serverSoftware: string)
    requires path.Some? && |path.value| > 0 ==> path.value[|path.value| - 1] != '\n'
    ensures PublicUrl(path, serverSoftware) == PublicUrlAsWritten(path, serverSoftware)
  {
  }

  /** The path can be read back from the URL: different paths give different URLs. */
  lemma PublicUrlInjective(p: string, q: string, serverSoftware: string)
    requires PublicUrl(Some(p), serverSoftware).Ok? && PublicUrl(Some(q), serverSoftware).Ok?
    requires PublicUrl(Some(p), serverSoftware) == PublicUrl(Some(q), serverSoftware)
    ensures p == q
  {
    var pre := UrlPrefix(serverSoftware) + GCS_BUCKET + "/";
    if p != "" && q != "" {
      assert (pre + p)[|pre|..] == p;
      assert (pre + q)[|pre|..] == q;
    }
  }

  /** `public_url` turns an uploaded photo's id into its URL under the bucket. */
  lemma PhotoIdHasUrl(now: nat, guid: string, size: string, serverSoftware: string)
    requires IsUuid(guid) && IsPath(size)
    ensures PublicUrl(Some(PhotoId(now, guid, size)), serverSoftware)
      == Ok(UrlPrefix(serverSoftware) + GCS_BUCKET + "/" + PhotoId(now, guid, size))
    ensures PublicUrlAsWritten(Some(PhotoId(now, guid, size)), serverSoftware)
      == PublicUrl(Some(PhotoId(now, guid, size)), serverSoftware)
  {
  }

  // ---------------------------------------------------------------------
  // collect_garbage
  // ---------------------------------------------------------------------

  /**
   * What `collect_garbage` does with one listed file: keep it, delete it,
   * or stop with the IndexError it does not catch.
   */
  datatype Verdict = Keep | Delete | Crash

  /**
   * The decision for the file `filename` at time `now`: the third
   * `/`-segment, cut at its first `-`, must parse as the posting time; a
   * missing `-` or a failed parse raises ValueError, which deletes the
   * file; otherwise the file is deleted once it is older than the lifetime.
   */
  function CollectVerdict(filename: string, now: int): (v: Verdict)
    ensures v == Crash <==> multiset(filename)['/'] < 2
  {
    SplitOnCount(filename, '/');
    var segments := SplitOn(filename, '/');
    if |segments| < 3 then Crash
    else
      var parts := SplitOnce(segments[2], '-');
      if |parts| < 2 then Delete
      else
        match ParseInt(parts[0])
        case None => Delete
        case Some(postedAt) => if now - postedAt > PHOTO_LIFETIME then Delete else Keep
  }

  /** The name Cloud Storage lists for an uploaded photo. */
  function PhotoFilename(id: string): string {
    "/" + GCS_BUCKET + "/" + id
  }

  /** The listed name of a photo splits into the empty root, the bucket and the id. */
  lemma PhotoFilenameSegments(id: string)
    requires '/' !in id
    ensures SplitOn(PhotoFilename(id), '/') == ["", GCS_BUCKET, id]
  {
    assert '/' !in GCS_BUCKET;
    assert PhotoFilename(id) == "" + ['/'] + (GCS_BUCKET + ['/'] + id);
    SplitOnPrefix("", '/', GCS_BUCKET + ['/'] + id);
    SplitOnPrefix(GCS_BUCKET, '/', id);
    SplitOnWhole(id, '/');
  }

  /**
   * The listed name of an uploaded photo has the id as its third segment,
   * and the id has a `-` with the decimal upload time before it.
   */
  lemma UploadedPhotoSegment(posted: nat, guid: string, size: string)
    requires IsUuid(guid) && IsPath(size)
    ensures var id := PhotoId(posted, guid, size);
      && |SplitOn(PhotoFilename(id), '/')| >= 3
      && SplitOn(PhotoFilename(id), '/')[2] == id
      && |SplitOnce(id, '-')| == 2
      && SplitOnce(id, '-')[0] == Decimal(posted)
  {
    var id := PhotoId(posted, guid, size);
    assert '/' !in id by {
      forall i | 0 <= i < |id| ensures id[i] != '/' {
        assert IsPathChar(id[i]);
      }
    }
    PhotoFilenameSegments(id);
    assert id[|Decimal(posted)|] == '-';
  }

  /**
   * An uploaded photo is read back with its upload time: it is kept for
   * exactly the lifetime and deleted after.
   */
  lemma UploadedPhotoVerdict(posted: nat, guid: string, size: string, now: int)
    requires IsUuid(guid) && IsPath(size)
    ensures CollectVerdict(PhotoFilename(PhotoId(posted, guid, size)), now)
      == if now - posted > PHOTO_LIFETIME then Delete else Keep
  {
    UploadedPhotoSegment(posted, guid, size);
    DecimalParses(posted);
    ParsedTimeDecides(PhotoFilename(PhotoId(posted, guid, size)), now);
  }

  /** Once a file is due for deletion it stays due as the clock advances. */
  lemma DeletionIsPermanent(filename: string, now: int, later: int)
    requires now <= later
    requires CollectVerdict(filename, now) == Delete
    ensures CollectVerdict(filename, later) == Delete
  {
  }

  /** A kept file carries a posting time at most the lifetime ago. */
  lemma KeptIsYoung(filename: string, now: int)
    requires CollectVerdict(filename, now) == Keep
    ensures |SplitOn(filename, '/')| >= 3
    ensures exists postedAt ::
      (ParseInt(SplitOnce(SplitOn(filename, '/')[2], '-')[0]) == Some(postedAt) && now - postedAt <= PHOTO_LIFETIME)
  {
    var postedAt := ParseInt(SplitOnce(SplitOn(filename, '/')[2], '-')[0]).value;
    assert now - postedAt <= PHOTO_LIFETIME;
  }

  /**
   * A file whose third segment has no `-` (the unpacking raises ValueError)
   * or no integer before its first `-` (`int()` raises ValueError) is
   * deleted at once.
   */
  lemma UnparseableIsDeleted(filename: string, now: int)
    requires |SplitOn(filename, '/')| >= 3
    requires var parts := SplitOnce(SplitOn(filename, '/')[2], '-');
      |parts| < 2 || ParseInt(parts[0]) == None
    ensures CollectVerdict(filename, now) == Delete
  {
  }

  /**
   * The converse of `KeptIsYoung`: a file with a third segment, a `-` in it
   * and an integer posting time before that `-`, at most the lifetime ago,
   * is kept; one posted longer ago is deleted.
   */
  lemma ParsedTimeDecides(filename: string, now: int)
    requires |SplitOn(filename, '/')| >= 3
    requires var parts := SplitOnce(SplitOn(filename, '/')[2], '-');
      |parts| == 2 && ParseInt(parts[0]).Some?
    ensures var postedAt := ParseInt(SplitOnce(SplitOn(filename, '/')[2], '-')[0]).value;
      CollectVerdict(filename, now) == if now - postedAt > PHOTO_LIFETIME then Delete else Keep
  {
  }
}
