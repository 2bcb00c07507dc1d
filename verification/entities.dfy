/**
 * The listing record of the classifieds service (caravel/storage/entities.py):
 * the keyword normaliser shared by indexing and querying, the derived
 * `keywords` field, the versioned-migration framework and the small
 * listing helpers.
 *
 * The `inflect` singulariser is a parameter: a function from a word to its
 * singular form, or None where Python's `singular_noun` returns False.
 */
module Entities {
  import opened Wrappers
  import opened Ordering
  import opened Strings

  type Singularizer = string -> Option<string>

  /** `Listing.SCHEMA_VERSION`. */
  const SCHEMA_VERSION: int := 2
  /** Only the first this-many raw words are folded into keywords. */
  const KEYWORD_WORD_LIMIT: nat := 500
  /** The category reported when a listing has none. */
  const DEFAULT_CATEGORY: string := "miscellaneous"

  // ---------------------------------------------------------------------
  // Keyword normaliser (`fold_query_term`)
  // ---------------------------------------------------------------------

  predicate IsTokenChar(c: char) {
    ('a' <= c <= 'z') || ('0' <= c <= '9')
  }

  /** A string made only of `[a-z0-9]`. */
  predicate IsToken(s: string) {
    forall i :: 0 <= i < |s| ==> IsTokenChar(s[i])
  }

  predicate IsAsciiAlnum(c: char) {
    ('a' <= c <= 'z') || ('A' <= c <= 'Z') || ('0' <= c <= '9')
  }

  /** `re.sub(r'[^a-z0-9]', '', s)`. */
  function KeepTokenChars(s: string): (r: string)
    ensures IsToken(r) && |r| <= |s|
    decreases |s|
  {
    if |s| == 0 then ""
    else (if IsTokenChar(s[0]) then [s[0]] else []) + KeepTokenChars(s[1..])
  }

  /** The lower-cased word with everything outside `[a-z0-9]` removed. */
  function Stripped(word: string): (r: string)
    ensures IsToken(r) && |r| <= |word|
  {
    KeepTokenChars(Lower(word))
  }

  /** The singulariser gives a usable answer: Python's `or` treats `""` as no answer. */
  predicate HasSingular(sing: Singularizer, w: string) {
    sing(w).Some? && sing(w).value != ""
  }

  /**
   * `fold_query_term`: an address (a word containing `@`) is kept as is;
   * any other word is stripped to `[a-z0-9]` and replaced by its singular
   * form when the singulariser knows one.
   */
  function Fold(sing: Singularizer, word: string): (r: string)
    ensures '@' in word ==> r == word
    ensures '@' !in word && !HasSingular(sing, Stripped(word)) ==> r == Stripped(word) && IsToken(r)
    ensures '@' !in word && HasSingular(sing, Stripped(word)) ==> r == sing(Stripped(word)).value && r != ""
  {
    if '@' in word then word
    else
      var stripped := Stripped(word);
      match sing(stripped)
      case Some(singular) => if singular != "" then singular else stripped
      case None => stripped
  }

  lemma {:induction false} KeepTokenCharsEmptyIff(s: string)
    ensures KeepTokenChars(s) == "" <==> forall i :: 0 <= i < |s| ==> !IsTokenChar(s[i])
    decreases |s|
  {
    if |s| > 0 {
      KeepTokenCharsEmptyIff(s[1..]);
      assert forall i :: 1 <= i < |s| ==> s[i] == s[1..][i - 1];
    }
  }

  lemma {:induction false} KeepTokenCharsOfToken(s: string)
    requires IsToken(s)
    ensures KeepTokenChars(s) == s
    decreases |s|
  {
    if |s| > 0 {
      KeepTokenCharsOfToken(s[1..]);
      assert [s[0]] + s[1..] == s;
    }
  }

  lemma LowerOfToken(s: string)
    requires IsToken(s)
    ensures Lower(s) == s
  {
  }

  /**
   * A word with no ASCII letter or digit (punctuation only, or empty)
   * strips to the empty string.
   */
  lemma StrippedEmptyIff(word: string)
    ensures Stripped(word) == "" <==> forall i :: 0 <= i < |word| ==> !IsAsciiAlnum(word[i])
  {
    KeepTokenCharsEmptyIff(Lower(word));
    assert forall i :: 0 <= i < |word| ==> (IsTokenChar(Lower(word)[i]) <==> IsAsciiAlnum(word[i]));
  }

  /** A word without `@` and without letters or digits folds to `""`. */
  lemma FoldOfPunctuation(sing: Singularizer, word: string)
    requires '@' !in word
    requires forall i :: 0 <= i < |word| ==> !IsAsciiAlnum(word[i])
    requires !HasSingular(sing, "")
    ensures Fold(sing, word) == ""
  {
    StrippedEmptyIff(word);
  }

  /**
   * On the tokens folding passes it, the singulariser answers with tokens
   * that it does not singularise again (a singular noun has no further
   * singular). Nothing is required of it on other strings.
   */
  ghost predicate SingularIsStable(sing: Singularizer) {
    forall w :: IsToken(w) && HasSingular(sing, w) ==> IsToken(sing(w).value) && !HasSingular(sing, sing(w).value)
  }

  /** Folding is idempotent for words that are not addresses. */
  lemma FoldIdempotent(sing: Singularizer, word: string)
    requires SingularIsStable(sing)
    ensures Fold(sing, Fold(sing, word)) == Fold(sing, word)
  {
    if '@' !in word {
      var r := Fold(sing, word);
      assert IsToken(r);
      LowerOfToken(r);
      KeepTokenCharsOfToken(r);
      assert Stripped(r) == r;
    }
  }

  // ---------------------------------------------------------------------
  // Listing records
  // ---------------------------------------------------------------------

  /**
   * The persisted fields of a listing. `legacyThumbnail` is the dynamic
   * `thumbnail_url` attribute that version-1 records may carry (None when
   * the attribute is absent).
   */
  datatype ListingValue = ListingValue(
    seller: string,
    title: string,
    body: string,
    price: int,
    postingTime: int,
    categories: seq<string>,
    adminKey: Option<string>,
    photos: seq<string>,
    thumbnails: seq<string>,
    legacyThumbnail: Option<string>,
    version: int)

  /** The raw words indexed: seller, title words, body words, categories. */
  function IndexedWords(l: ListingValue): seq<string> {
    [l.seller] + Split(l.title) + Split(l.body) + l.categories
  }

  function FoldAll(sing: Singularizer, words: seq<string>): (r: seq<string>)
    ensures |r| == |words|
    ensures forall i :: 0 <= i < |words| ==> r[i] == Fold(sing, words[i])
  {
    seq(|words|, i requires 0 <= i < |words| => Fold(sing, words[i]))
  }

  /** The folds of the first 500 indexed words, before deduplication. */
  function KeptFolds(sing: Singularizer, l: ListingValue): seq<string> {
    var folded := FoldAll(sing, IndexedWords(l));
    folded[..Min(KEYWORD_WORD_LIMIT, |folded|)]
  }

  /**
   * The derived `keywords` field: the distinct non-empty folds of the first
   * 500 indexed words, in ascending order (`KeywordsSpec`).
   */
  function DeriveKeywords(sing: Singularizer, l: ListingValue): (r: seq<string>)
    ensures "" !in r
    ensures |r| <= KEYWORD_WORD_LIMIT
  {
    var kept := KeptFolds(sing, l);
    var distinct := set w | w in kept;
    LessIsStrictTotalOrder();
    SortSetSpec(distinct - {""}, Less);
    DistinctBound(kept);
    assert |distinct - {""}| <= |distinct|;
    SortSet(distinct - {""}, Less)
  }

  /**
   * The keywords are strictly ascending, and a word is a keyword exactly
   * when it is non-empty and the fold of one of the first 500 indexed words.
   */
  lemma KeywordsSpec(sing: Singularizer, l: ListingValue)
    ensures StrictlySorted(DeriveKeywords(sing, l), Less)
    ensures forall k :: k in DeriveKeywords(sing, l) <==>
      k != "" && exists i :: 0 <= i < Min(KEYWORD_WORD_LIMIT, |IndexedWords(l)|) && Fold(sing, IndexedWords(l)[i]) == k
  {
    var kept := KeptFolds(sing, l);
    var distinct := set w | w in kept;
    LessIsStrictTotalOrder();
    SortSetSpec(distinct - {""}, Less);
    forall k ensures k in kept <==>
      exists i :: 0 <= i < Min(KEYWORD_WORD_LIMIT, |IndexedWords(l)|) && Fold(sing, IndexedWords(l)[i]) == k
    {
      if k in kept {
        var i :| 0 <= i < |kept| && kept[i] == k;
        assert Fold(sing, IndexedWords(l)[i]) == k;
      }
    }
  }

  /**
   * The keywords depend on the seller, title, body and categories only:
   * price, posting time, photos, admin key and version do not affect them.
   */
  lemma KeywordsDependOnlyOnText(sing: Singularizer, a: ListingValue, b: ListingValue)
    requires a.seller == b.seller && a.title == b.title && a.body == b.body
    requires a.categories == b.categories
    ensures DeriveKeywords(sing, a) == DeriveKeywords(sing, b)
  {
  }

  /** `primary_category`: the first category, or the default one. */
  function PrimaryCategory(l: ListingValue): (c: string)
    ensures |l.categories| > 0 ==> c == l.categories[0]
    ensures |l.categories| == 0 ==> c == DEFAULT_CATEGORY
  {
    (l.categories[..Min(1, |l.categories|)] + [DEFAULT_CATEGORY])[0]
  }

  /** The non-empty entries of `urls`, in their original order. */
  function NonEmptyEntries(urls: seq<string>): (r: seq<string>)
    ensures forall u :: u in r <==> u in urls && u != ""
    ensures |r| == |urls| - multiset(urls)[""]
    ensures (forall i :: 0 <= i < |urls| ==> urls[i] != "") ==> r == urls
    decreases |urls|
  {
    if |urls| == 0 then []
    else
      var last := urls[|urls| - 1];
      assert urls == urls[..|urls| - 1] + [last];
      assert multiset(urls) == multiset(urls[..|urls| - 1]) + multiset{last};
      NonEmptyEntries(urls[..|urls| - 1]) + (if last == "" then [] else [last])
  }

  /** One entry: an empty one is skipped, any other is kept. */
  lemma NonEmptyEntriesSingle(u: string)
    ensures NonEmptyEntries([u]) == if u == "" then [] else [u]
  {
    assert [u][..0] == [];
  }

  /**
   * Filtering distributes over concatenation: the kept entries of `a + b`
   * are those of `a` followed by those of `b`, so order and repeats are
   * kept as in the input.
   */
  lemma {:induction false} NonEmptyEntriesAppend(a: seq<string>, b: seq<string>)
    ensures NonEmptyEntries(a + b) == NonEmptyEntries(a) + NonEmptyEntries(b)
    decreases |b|
  {
    if |b| == 0 {
      assert a + b == a;
    } else {
      var n := |b| - 1;
      var tail: seq<string> := if b[n] == "" then [] else [b[n]];
      assert (a + b)[..|a + b| - 1] == a + b[..n];
      NonEmptyEntriesAppend(a, b[..n]);
      assert NonEmptyEntries(a + b) == NonEmptyEntries(a + b[..n]) + tail;
      assert NonEmptyEntries(b) == NonEmptyEntries(b[..n]) + tail;
    }
  }

  /** One more entry of the prefix adds that entry unless it is empty. */
  lemma NonEmptyEntriesPrefix(urls: seq<string>, i: nat)
    requires i < |urls|
    ensures NonEmptyEntries(urls[..i + 1]) == NonEmptyEntries(urls[..i]) + (if urls[i] == "" then [] else [urls[i]])
  {
    assert urls[..i + 1] == urls[..i] + [urls[i]];
    NonEmptyEntriesAppend(urls[..i], [urls[i]]);
    NonEmptyEntriesSingle(urls[i]);
  }

  // ---------------------------------------------------------------------
  // Versioned migration
  // ---------------------------------------------------------------------

  /** The migration steps the code base registers. */
  datatype Step = FromSingleThumbnailToMany

  /**
   * What a step does to a record. `from_single_thumbnail_to_many` replaces
   * the thumbnails by the legacy single thumbnail when that attribute is
   * present and non-empty; nothing else changes.
   */
  function ApplyStep(step: Step, l: ListingValue): (r: ListingValue)
    ensures r == l.(thumbnails := r.thumbnails)
    ensures l.legacyThumbnail.Some? && l.legacyThumbnail.value != "" ==>
      r.thumbnails == [l.legacyThumbnail.value]
    ensures !(l.legacyThumbnail.Some? && l.legacyThumbnail.value != "") ==> r == l
  {
    match step
    case FromSingleThumbnailToMany =>
      if l.legacyThumbnail.Some? && l.legacyThumbnail.value != "" then
        l.(thumbnails := [l.legacyThumbnail.value])
      else l
  }

  /** The registry `Listing` ends up with once its one step is registered. */
  const LISTING_MIGRATIONS: map<int, Step> := map[1 := FromSingleThumbnailToMany]

  /**
   * One turn of the migrate loop: run the step registered for the current
   * version, if any, then advance the version by one.
   */
  function Advance(migrations: map<int, Step>, l: ListingValue): ListingValue {
    var stepped := if l.version in migrations then ApplyStep(migrations[l.version], l) else l;
    stepped.(version := l.version + 1)
  }

  /** The record `migrate` leaves behind. */
  function Migrated(migrations: map<int, Step>, l: ListingValue): ListingValue
    decreases SCHEMA_VERSION - l.version
  {
    if l.version < SCHEMA_VERSION then Migrated(migrations, Advance(migrations, l)) else l
  }

  /** The versions `lo, lo + 1, ..., hi - 1`. */
  function Range(lo: int, hi: int): (r: seq<int>)
    ensures |r| == Max(0, hi - lo)
    ensures forall i :: 0 <= i < |r| ==> r[i] == lo + i
    decreases hi - lo
  {
    if hi <= lo then [] else Range(lo, hi - 1) + [hi - 1]
  }

  /** The entries of `versions` that have a registered step. */
  function Registered(migrations: map<int, Step>, versions: seq<int>): seq<int>
    decreases |versions|
  {
    if |versions| == 0 then []
    else
      var last := versions[|versions| - 1];
      Registered(migrations, versions[..|versions| - 1]) + (if last in migrations then [last] else [])
  }

  predicate StrictlyIncreasing(s: seq<int>) {
    forall i, j :: 0 <= i < j < |s| ==> s[i] < s[j]
  }

  lemma {:induction false} RegisteredMembers(migrations: map<int, Step>, versions: seq<int>)
    ensures forall v :: v in Registered(migrations, versions) <==> v in versions && v in migrations
    decreases |versions|
  {
    if |versions| > 0 {
      var init := versions[..|versions| - 1];
      RegisteredMembers(migrations, init);
      assert versions == init + [versions[|versions| - 1]];
    }
  }

  lemma {:induction false} RegisteredIncreasing(migrations: map<int, Step>, versions: seq<int>)
    requires StrictlyIncreasing(versions)
    ensures StrictlyIncreasing(Registered(migrations, versions))
    decreases |versions|
  {
    if |versions| > 0 {
      var init := versions[..|versions| - 1];
      var last := versions[|versions| - 1];
      RegisteredIncreasing(migrations, init);
      RegisteredMembers(migrations, init);
      var prev := Registered(migrations, init);
      var tail: seq<int> := if last in migrations then [last] else [];
      forall i, j | 0 <= i < j < |prev + tail|
        ensures (prev + tail)[i] < (prev + tail)[j]
      {
        if j >= |prev| {
          assert prev[i] in prev;
          var k :| 0 <= k < |init| && init[k] == prev[i];
          assert versions[k] < versions[|versions| - 1];
        }
      }
    }
  }

  /**
   * The steps `migrate` runs from version `lo` are those registered for
   * `lo <= v < hi`, each once, in increasing order.
   */
  lemma RegisteredRange(migrations: map<int, Step>, lo: int, hi: int)
    ensures StrictlyIncreasing(Registered(migrations, Range(lo, hi)))
    ensures forall v :: v in Registered(migrations, Range(lo, hi)) <==> lo <= v < hi && v in migrations
  {
    var range := Range(lo, hi);
    RegisteredIncreasing(migrations, range);
    RegisteredMembers(migrations, range);
    forall v | lo <= v < hi ensures v in range {
      assert range[v - lo] == v;
    }
  }

  /** `migrate` ends at the larger of the old version and SCHEMA_VERSION. */
  lemma {:induction false} MigratedVersion(migrations: map<int, Step>, l: ListingValue)
    ensures Migrated(migrations, l).version == Max(l.version, SCHEMA_VERSION)
    decreases SCHEMA_VERSION - l.version
  {
    if l.version < SCHEMA_VERSION {
      MigratedVersion(migrations, Advance(migrations, l));
    }
  }

  /** Calling `migrate` a second time changes nothing. */
  lemma MigratedIdempotent(migrations: map<int, Step>, l: ListingValue)
    ensures Migrated(migrations, Migrated(migrations, l)) == Migrated(migrations, l)
  {
    MigratedVersion(migrations, l);
  }

  /**
   * With no step registered in the range, migration only advances the
   * version counter.
   */
  lemma {:induction false} MigratedUnregistered(migrations: map<int, Step>, l: ListingValue)
    requires forall v :: l.version <= v < SCHEMA_VERSION ==> v !in migrations
    ensures Migrated(migrations, l) == l.(version := Max(l.version, SCHEMA_VERSION))
    decreases SCHEMA_VERSION - l.version
  {
    if l.version < SCHEMA_VERSION {
      MigratedUnregistered(migrations, Advance(migrations, l));
    }
  }

  /**
   * Migrating a version-1 listing under the listing registry moves a
   * non-empty legacy thumbnail into the thumbnail list and ends at version 2.
   */
  lemma MigrateVersionOneListing(l: ListingValue)
    requires l.version == 1
    ensures Migrated(LISTING_MIGRATIONS, l) == ApplyStep(FromSingleThumbnailToMany, l).(version := 2)
    ensures l.legacyThumbnail.Some? && l.legacyThumbnail.value != "" ==>
      Migrated(LISTING_MIGRATIONS, l).thumbnails == [l.legacyThumbnail.value]
  {
    var a := Advance(LISTING_MIGRATIONS, l);
    assert a.version == 2;
  }

  /**
   * The migration registry of a record class (`Versioned.migrations`).
   * Registering a step re-binds the attribute to a fresh copy, so a map
   * obtained before registration keeps its old contents.
   */
  class Registry {
    var migrations: map<int, Step>

    constructor()
      ensures migrations == map[]
    {
      migrations := map[];
    }

    method Migration(toVersion: int, step: Step)
      modifies this
      ensures migrations.Keys == old(migrations).Keys + {toVersion}
      ensures migrations[toVersion] == step
      ensures forall v :: v in old(migrations) && v != toVersion ==> migrations[v] == old(migrations)[v]
    {
      var copy := migrations;
      migrations := copy[toVersion := step];
    }
  }

  /** A listing entity, updated in place by its setters and by `migrate`. */
  class Listing {
    const permalink: string
    var seller: string
    var title: string
    var body: string
    var price: int
    var postingTime: int
    var categories: seq<string>
    var adminKey: Option<string>
    var photos: seq<string>
    var thumbnails: seq<string>
    var legacyThumbnail: Option<string>
    var version: int

    function Value(): ListingValue
      reads this
    {
      ListingValue(seller, title, body, price, postingTime, categories, adminKey,
                   photos, thumbnails, legacyThumbnail, version)
    }

    /** A new listing gets SCHEMA_VERSION unless a version is given. */
    constructor(permalink: string, seller: string, title: string := "", body: string := "",
                price: int := 0, postingTime: int := 0, categories: seq<string> := [],
                adminKey: Option<string> := None, version: Option<int> := None)
      ensures this.permalink == permalink
      ensures Value() == ListingValue(seller, title, body, price, postingTime, categories,
                                      adminKey, [], [], None,
                                      if version.Some? then version.value else SCHEMA_VERSION)
      ensures version.None? ==> Migrated(LISTING_MIGRATIONS, Value()) == Value()
    {
      this.permalink := permalink;
      this.seller := seller;
      this.title := title;
      this.body := body;
      this.price := price;
      this.postingTime := postingTime;
      this.categories := categories;
      this.adminKey := adminKey;
      this.photos := [];
      this.thumbnails := [];
      this.legacyThumbnail := None;
      this.version := if version.Some? then version.value else SCHEMA_VERSION;
    }

    /**
     * Reading `keywords` recomputes them from the current fields: the
     * distinct non-empty folds of the first 500 indexed words, ascending.
     */
    function Keywords(sing: Singularizer): (r: seq<string>)
      reads this
      ensures StrictlySorted(r, Less)
      ensures forall k :: k in r <==>
        k != "" && exists i :: 0 <= i < Min(KEYWORD_WORD_LIMIT, |IndexedWords(Value())|) && Fold(sing, IndexedWords(Value())[i]) == k
    {
      KeywordsSpec(sing, Value());
      DeriveKeywords(sing, Value())
    }

    /** Assigning to `keywords` is ignored. */
    method AssignKeywords(value: seq<string>)
      ensures Value() == old(Value())
    {
    }

    /**
     * The `photo_urls` setter for URL strings: empty entries are skipped and
     * every other entry is both the photo and its thumbnail.
     */
    method SetPhotoUrls(urls: seq<string>)
      modifies this
      ensures photos == NonEmptyEntries(urls) && thumbnails == photos
      ensures Value() == old(Value()).(photos := photos, thumbnails := thumbnails)
    {
      var largePhotos: seq<string>, smallPhotos: seq<string> := [], [];
      for i := 0 to |urls|
        invariant largePhotos == NonEmptyEntries(urls[..i])
        invariant smallPhotos == largePhotos
        invariant unchanged(this)
      {
        NonEmptyEntriesPrefix(urls, i);
        var photo := urls[i];
        if photo != "" {
          largePhotos := largePhotos + [photo];
          smallPhotos := smallPhotos + [photo];
        }
      }
      assert urls[..|urls|] == urls;
      photos, thumbnails := largePhotos, smallPhotos;
    }

    /** Runs one migration step on this listing in place. */
    method RunStep(step: Step)
      modifies this
      ensures Value() == ApplyStep(step, old(Value()))
    {
      match step
      case FromSingleThumbnailToMany =>
        if legacyThumbnail.Some? && legacyThumbnail.value != "" {
          thumbnails := [legacyThumbnail.value];
        }
    }

    /**
     * `migrate`: steps the version up to SCHEMA_VERSION, running the step
     * registered for each version passed. `applied` lists the versions
     * whose step ran, in the order they ran.
     */
    method Migrate(migrations: map<int, Step>) returns (ghost applied: seq<int>)
      modifies this
      ensures Value() == Migrated(migrations, old(Value()))
      ensures version == Max(old(version), SCHEMA_VERSION)
      ensures applied == Registered(migrations, Range(old(version), SCHEMA_VERSION))
    {
      applied := [];
      while version < SCHEMA_VERSION
        invariant Migrated(migrations, Value()) == Migrated(migrations, old(Value()))
        invariant version == old(version) || old(version) < version <= SCHEMA_VERSION
        invariant applied == Registered(migrations, Range(old(version), version))
        decreases SCHEMA_VERSION - version
      {
        ghost var before := Value();
        if version in migrations {
          applied := applied + [version];
          RunStep(migrations[version]);
        }
        version := version + 1;
        assert Value() == Advance(migrations, before);
        assert Range(old(version), version)[..|Range(old(version), version)| - 1]
            == Range(old(version), version - 1);
      }
      MigratedVersion(migrations, old(Value()));
    }
  }
}
