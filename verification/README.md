# Caravel storage layer, modelled in Dafny

Caravel is a classifieds service. Its storage layer keeps listings in a datastore keyed by permalink. It also keeps two memo tables in front of that datastore: one for records and one for "shards". A shard is the list of the 30 newest permalinks that carry a given keyword. The home shard `""` draws from every listing, and is capped at 30 like every other shard.

This project models four things:

- **Keyword normalisation and the derived `keywords` field** (`Entities`). A listing is indexed by the folded form of its seller, title words, body words and categories.
- **The listing entity.** It is a class whose fields the setters and `migrate` update in place. It goes with a class for the versioned-migration registry.
- **The cached query path** (`Helpers`):
  - `lookup_listing` and `fetch_shard` are memoised reads;
  - `invalidate_listing` evicts entries when a record is written;
  - `run_query` intersects the shards of up to five folded query words and returns the listings newest first.
- **The photo store's string logic** (`Photos`): the id `upload` gives a photo, the `public_url` template filter, and the expiry decision `collect_garbage` takes for each file.

Modules:

- `Wrappers`: `Option` and `Result`.
- `Ordering`: Python's code-point order on strings, and a sort of a finite set under a strict total order.
- `Strings`: Python 2's `split()`, `split(sep)`, `split(sep, 1)`, ASCII `lower()`, `str(n)` and `int(s)`.
- `Entities`, `Helpers`, `Photos`: one per source file.

Parameters and modelling choices:

- The `inflect` singulariser is a function parameter (`Singularizer`). Python's falsy answers (`False`, `""`) are both treated as "no singular form".
- The datastore is a map from permalink to a `ListingValue`.
- The two memo tables are the fields `records` and `shards` of a `Cache` object.
- The clock, the uuid generator and the `SERVER_SOFTWARE` environment variable are parameters.

The central correctness notion is **coherence**: every cached entry equals what the datastore would return now. The model proves these facts about it:

- `lookup_listing` and `fetch_shard` preserve coherence.
- `invalidate_listing` restores coherence after a write, provided it is given the record's old and new keywords.
- With a coherent cache, `run_query` never raises. It then returns exactly the stored listings found in every consulted shard, once each, newest first.

## Model

| member | source | states |
|---|---|---|
| Entities.Fold | caravel/storage/entities.py:61-73 | A word containing `@` is returned unchanged. Any other word is lower-cased and stripped to `[a-z0-9]`, then replaced by its singular when the singulariser gives a non-empty one; otherwise the stripped token is the result. |
| Entities.FoldIdempotent | caravel/storage/entities.py:61-73 | Folding a folded word changes nothing, for a singulariser that, on the `[a-z0-9]` tokens folding passes it, answers with tokens that have no further singular. |
| Entities.FoldOfPunctuation | caravel/storage/entities.py:66-73 | A word with no `@`, no ASCII letter and no digit folds to the empty token (unless the singulariser maps `""` to something). |
| Entities.StrippedEmptyIff | caravel/storage/entities.py:71 | `re.sub('[^a-z0-9]', '', word.lower())` is empty exactly when the word has no ASCII letter or digit. |
| Entities.DeriveKeywords | caravel/storage/entities.py:112-122 | The keywords never contain `""` and number at most 500. |
| Entities.KeywordsSpec | caravel/storage/entities.py:112-122 | The keywords are strictly ascending in code-point order. A word is a keyword exactly when it is non-empty and is the fold of one of the first 500 words of seller + title words + body words + categories. |
| Entities.KeywordsDependOnlyOnText | caravel/storage/entities.py:117-118 | Two listings with the same seller, title, body and categories have the same keywords, whatever their price, time, photos or version. |
| Entities.Listing.Keywords | caravel/storage/entities.py:22-26 | Reading `keywords` yields, from the current fields, a strictly ascending list holding exactly the non-empty folds of the first 500 indexed words. |
| Entities.Listing.AssignKeywords | caravel/storage/entities.py:28-29 | Assigning to the derived `keywords` property changes no field of the listing. |
| Entities.PrimaryCategory | caravel/storage/entities.py:108-110 | The first category when there is one, otherwise `"miscellaneous"`. |
| Entities.NonEmptyEntries | caravel/storage/entities.py:148-150 | Keeps exactly the non-empty entries: as many as the list has non-empty entries, and a list without empty entries is returned whole. |
| Entities.NonEmptyEntriesSingle | caravel/storage/entities.py:148-161 | A single empty entry is skipped and any other single entry is kept. |
| Entities.NonEmptyEntriesAppend | caravel/storage/entities.py:148-161 | The kept entries of `a + b` are those of `a` followed by those of `b`, so order and repeats are as in the input. |
| Entities.Listing.SetPhotoUrls | caravel/storage/entities.py:140-163 | For string entries: photos become the non-empty entries in order, thumbnails become the same list, and no other field changes. |
| Entities.Listing.constructor | caravel/storage/entities.py:35-42 | A new listing gets `SCHEMA_VERSION` (2) unless a version is given, and such a listing is already fully migrated. |
| Entities.Registry.constructor | caravel/storage/entities.py:33 | A record class starts with no registered migrations. |
| Entities.Registry.Migration | caravel/storage/entities.py:44-54 | Registering a step for `to_version` adds or overrides exactly that key and keeps every other registered step. |
| Entities.ApplyStep | caravel/storage/entities.py:165-168 | `from_single_thumbnail_to_many` sets the thumbnails to `[thumbnail_url]` when the legacy attribute is present and non-empty; otherwise the record is unchanged; no other field ever changes. |
| Entities.Listing.RunStep | caravel/storage/entities.py:165-168 | Running a step in place leaves the listing equal to `ApplyStep` of its old fields. |
| Entities.Listing.Migrate | caravel/storage/entities.py:56-59 | The loop leaves the listing equal to `Migrated` of its old fields and at version max(old, 2). The steps run are exactly those registered for the versions passed, in increasing order. |
| Entities.MigratedVersion | caravel/storage/entities.py:56-59 | Migration ends at the larger of the old version and `SCHEMA_VERSION`. |
| Entities.MigratedIdempotent | caravel/storage/entities.py:56-59 | Migrating twice is the same as migrating once. |
| Entities.MigratedUnregistered | caravel/storage/entities.py:56-59 | With no step registered in the range, migration only advances the version counter: a missing step is silently skipped. |
| Entities.RegisteredRange | caravel/storage/entities.py:56-59 | The steps run from version `lo` to `hi` are those registered in `[lo, hi)`, each once, in increasing version order. |
| Entities.MigrateVersionOneListing | caravel/storage/entities.py:165-168 | Under the listing registry a version-1 record moves its non-empty legacy thumbnail into the thumbnail list and ends at version 2. |
| Helpers.ShardQuery | caravel/storage/helpers.py:29-32 | A shard query returns at most 30 permalinks. |
| Helpers.ShardQuerySound | caravel/storage/helpers.py:29-32 | Every permalink the shard query returns names a stored listing that carries the shard's keyword (any stored listing for the home shard). |
| Helpers.ShardQueryOrdered | caravel/storage/helpers.py:29-32 | The returned permalinks are distinct and in descending posting-time order. |
| Helpers.ShardQueryComplete | caravel/storage/helpers.py:29-32 | A stored listing of the shard is left out only when the shard holds 30 ids that are all at least as new as it. |
| Helpers.Cache.LookupListing | caravel/storage/helpers.py:5-11 | Returns the cached record, or the stored one (None when absent), caching it on a miss. What any later lookup sees is unchanged, and coherence is preserved. |
| Helpers.Cache.FetchShard | caravel/storage/helpers.py:23-32 | Returns the cached id list, or the shard query's. The new table is the old one with `shard` bound to that result, the record table is untouched, and coherence is preserved. |
| Helpers.Cache.InvalidateListing | caravel/storage/helpers.py:13-21 | Evicts the record `permalink`, the shard of every given keyword and the home shard `""`, and nothing else. |
| Helpers.EvictedShards | caravel/storage/helpers.py:19-21 | The evicted shards are exactly the given keywords plus `""`. |
| Helpers.InvalidationRestoresCoherence | caravel/storage/helpers.py:13-21 | When one record is written or deleted, evicting it together with its old and new keywords leaves a coherent cache coherent with the new storage. |
| Helpers.QueryWords | caravel/storage/helpers.py:39-43 | One to five words: `[""]` exactly for a blank query, otherwise the first five whitespace-separated words. |
| Helpers.QueryTerms | caravel/storage/helpers.py:46 | One folded term per consulted word, in order. A blank query consults the home shard when the singulariser gives no singular for `""`. |
| Helpers.IntersectAll | caravel/storage/helpers.py:49 | A permalink is in the intersection exactly when it is in every shard set. |
| Helpers.SortNewestFirstSpec | caravel/storage/helpers.py:53 | The sort puts the listings in descending posting-time order and is a permutation of its input. |
| Helpers.Cache.FetchShardSets | caravel/storage/helpers.py:46 | The i-th set is the set of ids that fetching the i-th term's shard would return before the call. Afterwards the shard table is the old one with every uncached term filled from storage, what any later fetch sees is unchanged, and coherence is preserved. |
| Helpers.Cache.LookupEach | caravel/storage/helpers.py:52 | The i-th result is what looking up the i-th key would return before the call. Afterwards the record table is the old one with every uncached key filled from storage, what any later lookup sees is unchanged, the shard table is untouched, and coherence is preserved. |
| Helpers.Cache.LookupAll | caravel/storage/helpers.py:52 | Some lookup gives None exactly when some key has no record. Every key that has a record yields one hit with that record, and nothing else yields a hit. The record table is the old one with every uncached key filled, and the shard table is untouched. |
| Helpers.Cache.RunQuery | caravel/storage/helpers.py:34-55 | Raises (`Err`) exactly when some matched permalink's lookup gives None. Otherwise it returns one listing per matched permalink, each with its record, newest first. Afterwards the record table is the old one with every matched permalink filled and the shard table the old one with every query term filled. A coherent cache stays coherent and never makes it raise. |
| Helpers.StaleShardAfterDefaultInvalidation | caravel/storage/helpers.py:13-21 | Counterexample: a coherent cache, a deleted listing invalidated with the default `keywords=[]`, and the query "bike" still matches the deleted permalink, whose lookup gives None. |
| Helpers.Cache.RunQueryTolerant | caravel/storage/helpers.py:34-55 | Corrected query: returns newest first every matched permalink that has a record, once, with that record, and drops the rest. It leaves both tables filled as `RunQuery` does. With a coherent cache every matched permalink is stored and returned. |
| Helpers.CoherentQueryFindsRecords | caravel/storage/helpers.py:46-52 | With a coherent cache, every permalink in the intersection is stored and its lookup returns the stored record. |
| Photos.PublicUrlAsWritten | caravel/storage/photos.py:66-81 | A missing or empty path gives `""`. A path the regular expression refuses gives `ValueError`. An accepted path gives the bucket path under the development or the production prefix. |
| Photos.TrailingNewlineAccepted | caravel/storage/photos.py:72 | The as-written filter turns `"abc\n"` into a URL. |
| Photos.PublicUrl | caravel/storage/photos.py:66-81 | Corrected filter: `""` exactly for a missing or empty path. It is an error exactly for a non-empty path that is not entirely `[a-zA-Z0-9-]`. Otherwise it is the prefixed bucket path. |
| Photos.TrailingNewlineRefused | caravel/storage/photos.py:72-74 | The corrected filter refuses `"abc\n"`. |
| Photos.PublicUrlAgrees | caravel/storage/photos.py:72 | The two filters agree on every path that does not end in a newline. |
| Photos.PublicUrlInjective | caravel/storage/photos.py:77-81 | Different accepted paths give different URLs. |
| Photos.PhotoId | caravel/storage/photos.py:41-54 | The id `"{now}-{uuid4}-{size}"` gives back the decimal upload time when cut at its first `-`, and is a valid path when built from a uuid and a size name of path characters. |
| Photos.PhotoIdHasUrl | caravel/storage/photos.py:66-81 | Such an id has a public URL under the bucket, and both versions of the filter agree on it. |
| Photos.CollectVerdict | caravel/storage/photos.py:19-28 | The loop stops with an uncaught IndexError exactly when the listed name has fewer than two `/`. |
| Photos.PhotoFilenameSegments | caravel/storage/photos.py:56 | The stored name `/{bucket}/{id}` splits on `/` into `""`, the bucket and the id. |
| Photos.UploadedPhotoSegment | caravel/storage/photos.py:56 | The listed name of an uploaded photo has its id as third `/`-segment, and the id has a `-` with the decimal upload time before it. |
| Photos.UploadedPhotoVerdict | caravel/storage/photos.py:22-25 | An uploaded photo is read back with its upload time. It is kept while `now - posted <= 60 days` and deleted after. |
| Photos.DeletionIsPermanent | caravel/storage/photos.py:24-25 | A file due for deletion stays due as the clock advances. |
| Photos.KeptIsYoung | caravel/storage/photos.py:22-25 | A kept file has a parseable posting time at most 60 days old. |
| Photos.UnparseableIsDeleted | caravel/storage/photos.py:22-27 | A file whose third segment has no `-` (the unpacking raises ValueError) or no integer before its first `-` (`int()` raises ValueError) is deleted. |
| Photos.ParsedTimeDecides | caravel/storage/photos.py:22-25 | A file whose third segment has an integer posting time before its first `-` is kept when posted at most the lifetime ago and deleted otherwise. |

## Left out

- Cloud Storage I/O is left out: listing the bucket, opening, writing and deleting files, and `NotFoundError`.
- Image resizing and JPEG encoding in `upload` are left out. Only the id it builds is modelled.
- The clock and `uuid4` are left out; `now` and `guid` are parameters.
- The file-object branch of the `photo_urls` setter is left out. It reads the file, then uploads it twice. Only string entries are modelled.
- Helpers.Cache.RunQuery follows the code. A permalink whose lookup gives None makes `listings.sort` read `.posting_time` of `None` and raise, so the model returns `Err`. `Helpers.Cache.RunQueryTolerant` drops such ids instead.
- Helpers.Cache.RunQuery: the comprehension visits the key set in Python's set order, and the stable sort keeps that order among equal posting times. The model visits keys in ascending order, so listings with equal posting times may come out in a different order than in CPython.
- Helpers.ShardQuery: the datastore's order among equal posting times is modelled as ascending key name.
- `posting_time` is a float in the source. It is only compared and sorted on, so integers stand in for the float.
- Photos.CollectVerdict and Photos.UploadedPhotoVerdict take `now` as whole seconds. `time.time()` is a float, so a clock reading a fraction of a second past the lifetime boundary deletes a file that the model, given the truncated second, keeps.
- Entities.Fold: `lower()` is ASCII lower-casing, as Python 2 `str.lower()` does. Unicode case mapping of `unicode` titles is not modelled.
- Entities.Fold: a `None` seller raises TypeError (`"@" in None`). The model's seller is always a string.
- Strings.ParseInt: non-ASCII digits of a `unicode` argument are not modelled.
- `DerivedProperty.__get__` with no instance returns the descriptor itself. That class-level access is not modelled.
- `lookup_listing` does not migrate the record it returns. The model does not either, and `migrate` is a separate operation on `Listing`.
- `caravel/storage/cache.py` is not part of this model. The model keeps one record table and one shard table that every caller sees. Sharing between workers, races between readers and writers, cache expiry and the datastore's eventually consistent queries are not modelled: `ShardQuery` sees every write at once, and `InvalidationRestoresCoherence` relies on that.
- Photos.PublicUrl: a missing `SERVER_SOFTWARE` variable raises KeyError. The model takes the variable's value as a parameter.
- `inflect.engine().singular_noun` is a function parameter, not its actual rules.

## Findings

| source | as written | input that shows it | evidently intended | confidence | as-written member | corrected member |
|---|---|---|---|---|---|---|
| caravel/storage/photos.py:72 | `re.match(r'^[a-zA-Z0-9\-]+$', path)`: `$` also matches before a final newline, so such a path is accepted | path `"abc\n"` gives the URL `.../hosted-caravel.appspot.com/abc\n` instead of raising ValueError | only paths made entirely of `[a-zA-Z0-9-]` are accepted (`\Z` or `fullmatch`) | not executed | Photos.TrailingNewlineAccepted | Photos.PublicUrl |
| caravel/storage/helpers.py:52-53 | `invalidate_listing(permalink)` with the default `keywords=[]` evicts only the home shard; `run_query` then looks up a deleted permalink still listed in a keyword shard and sorts on `None.posting_time` | listing `p` with seller `bike` cached in shard `bike`; `p` deleted and invalidated without keywords; query `"bike"` raises AttributeError | ids that no longer resolve are dropped from the result | not executed | Helpers.StaleShardAfterDefaultInvalidation | Helpers.Cache.RunQueryTolerant |
