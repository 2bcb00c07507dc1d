/**
 * The cached query path of the classifieds service
 * (caravel/storage/helpers.py): a record cache and a shard cache over the
 * datastore, write-time invalidation, and the multi-word query engine.
 *
 * The datastore is a map from permalink (the entity's key name) to the
 * stored listing. The `@cache` decorator is a memo table per function that
 * can forget one argument; the two tables live in one `Cache` object, in
 * separate maps, so record keys and shard keys never collide.
 */
module Helpers {
  import opened Wrappers
  import opened Ordering
  import opened Strings
  import opened Entities

  type Store = map<string, ListingValue>

  /** `query.fetch(30)`: a shard holds at most this many permalinks. */
  const SHARD_SIZE: nat := 30
  /** `words[:5]`: a query consults at most this many words. */
  const MAX_QUERY_WORDS: nat := 5

  /** `Listing.get_by_key_name(permalink)`. */
  function Get(store: Store, permalink: string): (r: Option<ListingValue>)
    ensures r.Some? <==> permalink in store
    ensures r.Some? ==> r.value == store[permalink]
  {
    if permalink in store then Some(store[permalink]) else None
  }

  /** The elements of a sequence, as `set(...)` makes them. */
  function Elems(s: seq<string>): set<string> {
    set x | x in s
  }

  // ---------------------------------------------------------------------
  // The storage query behind `fetch_shard`
  // ---------------------------------------------------------------------

  /** One row of a keys-only query ordered by posting time. */
  datatype Entry = Entry(postingTime: int, permalink: string)

  /**
   * The datastore order of `order("-posting_time")`: newer first; equal
   * times are ordered by key name.
   */
  predicate Before(a: Entry, b: Entry) {
    a.postingTime > b.postingTime || (a.postingTime == b.postingTime && Less(a.permalink, b.permalink))
  }

  lemma BeforeIsStrictTotalOrder()
    ensures StrictTotalOrder(Before)
  {
    LessIsStrictTotalOrder();
    forall a: Entry, b: Entry | a != b ensures Before(a, b) || Before(b, a) {
      if a.postingTime == b.postingTime {
        assert a.permalink != b.permalink;
      }
    }
  }

  /** The listing belongs to shard `shard`; the empty shard holds every listing. */
  predicate InShard(sing: Singularizer, l: ListingValue, shard: string) {
    shard == "" || shard in DeriveKeywords(sing, l)
  }

  /** The rows the shard query filters in. */
  function Candidates(sing: Singularizer, store: Store, shard: string): set<Entry> {
    set p | p in store && InShard(sing, store[p], shard) :: Entry(store[p].postingTime, p)
  }

  lemma CandidateRow(sing: Singularizer, store: Store, shard: string, e: Entry)
    requires e in Candidates(sing, store, shard)
    ensures e.permalink in store && InShard(sing, store[e.permalink], shard)
    ensures e.postingTime == store[e.permalink].postingTime
  {
  }

  function Permalinks(rows: seq<Entry>): (ids: seq<string>)
    ensures |ids| == |rows|
    ensures forall i :: 0 <= i < |rows| ==> ids[i] == rows[i].permalink
  {
    seq(|rows|, i requires 0 <= i < |rows| => rows[i].permalink)
  }

  /**
   * What `fetch_shard(shard)` computes from storage: the keys of the rows
   * of the shard, in datastore order, cut to the first 30.
   */
  function ShardQuery(sing: Singularizer, store: Store, shard: string): (ids: seq<string>)
    ensures |ids| <= SHARD_SIZE
  {
    BeforeIsStrictTotalOrder();
    var rows := SortSet(Candidates(sing, store, shard), Before);
    Permalinks(rows[..Min(SHARD_SIZE, |rows|)])
  }

  /** The rows of the sorted candidate set are the shard's stored listings. */
  lemma SortedRowsAreStored(sing: Singularizer, store: Store, shard: string, rows: seq<Entry>)
    requires StrictTotalOrder(Before)
    requires rows == SortSet(Candidates(sing, store, shard), Before)
    ensures forall i :: 0 <= i < |rows| ==>
      rows[i].permalink in store && InShard(sing, store[rows[i].permalink], shard) &&
      rows[i].postingTime == store[rows[i].permalink].postingTime
  {
    SortSetSpec(Candidates(sing, store, shard), Before);
    forall i | 0 <= i < |rows|
      ensures rows[i].permalink in store && InShard(sing, store[rows[i].permalink], shard)
      ensures rows[i].postingTime == store[rows[i].permalink].postingTime
    {
      CandidateRow(sing, store, shard, rows[i]);
    }
  }

  /** Every id `fetch_shard` returns names a stored listing of the shard. */
  lemma ShardQuerySound(sing: Singularizer, store: Store, shard: string)
    ensures forall p :: p in ShardQuery(sing, store, shard) ==> p in store && InShard(sing, store[p], shard)
  {
    BeforeIsStrictTotalOrder();
    var rows := SortSet(Candidates(sing, store, shard), Before);
    SortSetSpec(Candidates(sing, store, shard), Before);
    var ids := Permalinks(rows[..Min(SHARD_SIZE, |rows|)]);
    SortedRowsAreStored(sing, store, shard, rows);
    forall p | p in ids ensures p in store && InShard(sing, store[p], shard) {
      var i :| 0 <= i < |ids| && ids[i] == p;
      assert ids[i] == rows[i].permalink;
    }
  }

  /** The ids come newest first and without repeats. */
  lemma ShardQueryOrdered(sing: Singularizer, store: Store, shard: string)
    ensures var ids := ShardQuery(sing, store, shard);
      forall i, j :: 0 <= i < j < |ids| ==>
        ids[i] in store && ids[j] in store &&
        ids[i] != ids[j] && store[ids[i]].postingTime >= store[ids[j]].postingTime
  {
    BeforeIsStrictTotalOrder();
    var rows := SortSet(Candidates(sing, store, shard), Before);
    SortSetSpec(Candidates(sing, store, shard), Before);
    var ids := Permalinks(rows[..Min(SHARD_SIZE, |rows|)]);
    SortedRowsAreStored(sing, store, shard, rows);
    forall i, j | 0 <= i < j < |ids|
      ensures ids[i] in store && ids[j] in store
      ensures ids[i] != ids[j] && store[ids[i]].postingTime >= store[ids[j]].postingTime
    {
      assert ids[i] == rows[i].permalink && ids[j] == rows[j].permalink;
      assert Before(rows[i], rows[j]);
    }
  }

  /**
   * Nothing newer is left out: a stored listing of the shard missing from
   * the ids means the shard is full and the listing is no newer than any id.
   */
  lemma ShardQueryComplete(sing: Singularizer, store: Store, shard: string, p: string)
    requires p in store && InShard(sing, store[p], shard)
    requires p !in ShardQuery(sing, store, shard)
    ensures var ids := ShardQuery(sing, store, shard);
      |ids| == SHARD_SIZE &&
      forall i :: 0 <= i < |ids| ==> ids[i] in store && store[ids[i]].postingTime >= store[p].postingTime
  {
    BeforeIsStrictTotalOrder();
    var rows := SortSet(Candidates(sing, store, shard), Before);
    SortSetSpec(Candidates(sing, store, shard), Before);
    var ids := Permalinks(rows[..Min(SHARD_SIZE, |rows|)]);
    SortedRowsAreStored(sing, store, shard, rows);
    var e := Entry(store[p].postingTime, p);
    assert e in Candidates(sing, store, shard);
    assert e in rows;
    var k :| 0 <= k < |rows| && rows[k] == e;
    assert k >= |ids| by {
      assert forall i :: 0 <= i < |ids| ==> ids[i] == rows[i].permalink;
    }
    assert |ids| == SHARD_SIZE;
    forall i | 0 <= i < |ids|
      ensures ids[i] in store && store[ids[i]].postingTime >= store[p].postingTime
    {
      assert ids[i] == rows[i].permalink;
      assert Before(rows[i], rows[k]);
    }
  }

  // ---------------------------------------------------------------------
  // Cache contents and their relation to storage
  // ---------------------------------------------------------------------

  /** What `lookup_listing(permalink)` returns for a given record table. */
  function RecordView(records: map<string, Option<ListingValue>>, store: Store, permalink: string): Option<ListingValue> {
    if permalink in records then records[permalink] else Get(store, permalink)
  }

  /** What `fetch_shard(shard)` returns for a given shard table. */
  function ShardView(shards: map<string, seq<string>>, sing: Singularizer, store: Store, shard: string): seq<string> {
    if shard in shards then shards[shard] else ShardQuery(sing, store, shard)
  }

  /** Every cached record agrees with storage. */
  ghost predicate RecordsCoherent(store: Store, records: map<string, Option<ListingValue>>) {
    forall p :: p in records ==> records[p] == Get(store, p)
  }

  /** Every cached shard agrees with storage. */
  ghost predicate ShardsCoherent(sing: Singularizer, store: Store, shards: map<string, seq<string>>) {
    forall k :: k in shards ==> shards[k] == ShardQuery(sing, store, k)
  }

  /** Every cached entry agrees with storage. */
  ghost predicate Coherent(sing: Singularizer, store: Store,
                           records: map<string, Option<ListingValue>>, shards: map<string, seq<string>>)
  {
    RecordsCoherent(store, records) && ShardsCoherent(sing, store, shards)
  }

  /**
   * The record table after `lookup_listing` was called on each of `keys`:
   * every key not yet cached now holds what storage gave for it.
   */
  function RecordsFilled(records: map<string, Option<ListingValue>>, store: Store, keys: set<string>): map<string, Option<ListingValue>> {
    map k | k in records.Keys + keys :: RecordView(records, store, k)
  }

  /**
   * The shard table after `fetch_shard` was called on each of `terms`:
   * every shard not yet cached now holds its storage query.
   */
  function ShardsFilled(shards: map<string, seq<string>>, sing: Singularizer, store: Store, terms: set<string>): map<string, seq<string>> {
    map k | k in shards.Keys + terms :: ShardView(shards, sing, store, k)
  }

  /** Filling one more key adds its storage view and nothing else. */
  lemma RecordsFilledStep(records: map<string, Option<ListingValue>>, store: Store, keys: set<string>, k: string)
    ensures RecordsFilled(records, store, keys + {k})
      == RecordsFilled(records, store, keys)[k := RecordView(records, store, k)]
  {
  }

  /** Filling changes no lookup's result and keeps a coherent table coherent. */
  lemma RecordsFilledViews(records: map<string, Option<ListingValue>>, store: Store, keys: set<string>)
    ensures forall k :: RecordView(RecordsFilled(records, store, keys), store, k) == RecordView(records, store, k)
    ensures RecordsCoherent(store, records) ==> RecordsCoherent(store, RecordsFilled(records, store, keys))
  {
  }

  lemma ShardsFilledStep(shards: map<string, seq<string>>, sing: Singularizer, store: Store, terms: set<string>, k: string)
    ensures ShardsFilled(shards, sing, store, terms + {k})
      == ShardsFilled(shards, sing, store, terms)[k := ShardView(shards, sing, store, k)]
  {
  }

  lemma ShardsFilledViews(shards: map<string, seq<string>>, sing: Singularizer, store: Store, terms: set<string>)
    ensures forall k :: ShardView(ShardsFilled(shards, sing, store, terms), sing, store, k) == ShardView(shards, sing, store, k)
    ensures ShardsCoherent(sing, store, shards) ==> ShardsCoherent(sing, store, ShardsFilled(shards, sing, store, terms))
  {
  }

  /** The elements of a prefix one longer gain the next entry. */
  lemma ElemsPrefix(s: seq<string>, n: nat)
    requires n < |s|
    ensures Elems(s[..n + 1]) == Elems(s[..n]) + {s[n]}
  {
    assert s[..n + 1] == s[..n] + [s[n]];
  }

  /** The shard entries `invalidate_listing(permalink, keywords)` evicts. */
  function EvictedShards(keywords: seq<string>): (evicted: set<string>)
    ensures "" in evicted
    ensures forall k :: k in keywords ==> k in evicted
    ensures forall k :: k in evicted ==> k == "" || k in keywords
  {
    Elems(keywords) + {""}
  }

  /** With the default empty keyword list only the home shard is evicted. */
  lemma DefaultEvictsHomeShardOnly()
    ensures EvictedShards([]) == {""}
  {
  }

  lemma CandidatesUnchanged(sing: Singularizer, store: Store, store': Store, permalink: string, shard: string)
    requires store' - {permalink} == store - {permalink}
    requires permalink in store ==> !InShard(sing, store[permalink], shard)
    requires permalink in store' ==> !InShard(sing, store'[permalink], shard)
    ensures Candidates(sing, store, shard) == Candidates(sing, store', shard)
  {
    forall q | q != permalink
      ensures q in store <==> q in store'
      ensures q in store ==> store[q] == store'[q]
    {
      assert q in store <==> q in store - {permalink};
      assert q in store' <==> q in store' - {permalink};
      if q in store {
        assert (store - {permalink})[q] == store[q];
        assert (store' - {permalink})[q] == store'[q];
      }
    }
    forall e | e in Candidates(sing, store, shard) ensures e in Candidates(sing, store', shard) {
      CandidateRow(sing, store, shard, e);
    }
    forall e | e in Candidates(sing, store', shard) ensures e in Candidates(sing, store, shard) {
      CandidateRow(sing, store', shard, e);
    }
  }

  /**
   * Write-time invalidation restores coherence: after the record
   * `permalink` is written or deleted, evicting its record entry, the
   * shards of every keyword it had before or has after, and the home shard
   * leaves only entries that agree with the new storage.
   */
  lemma InvalidationRestoresCoherence(sing: Singularizer, store: Store, store': Store,
                                      records: map<string, Option<ListingValue>>,
                                      shards: map<string, seq<string>>,
                                      permalink: string, keywords: seq<string>)
    requires Coherent(sing, store, records, shards)
    requires store' - {permalink} == store - {permalink}
    requires permalink in store ==> forall k :: k in DeriveKeywords(sing, store[permalink]) ==> k in keywords
    requires permalink in store' ==> forall k :: k in DeriveKeywords(sing, store'[permalink]) ==> k in keywords
    ensures Coherent(sing, store', records - {permalink}, shards - EvictedShards(keywords))
  {
    forall q | q in records - {permalink} ensures (records - {permalink})[q] == Get(store', q) {
      assert q in store <==> q in store - {permalink};
      assert q in store' <==> q in store' - {permalink};
      if q in store {
        assert (store - {permalink})[q] == store[q];
        assert (store' - {permalink})[q] == store'[q];
      }
    }
    forall k | k in shards - EvictedShards(keywords)
      ensures (shards - EvictedShards(keywords))[k] == ShardQuery(sing, store', k)
    {
      CandidatesUnchanged(sing, store, store', permalink, k);
    }
  }

  // ---------------------------------------------------------------------
  // Query engine helpers
  // ---------------------------------------------------------------------

  /**
   * The words `run_query` consults: the whitespace-separated words of the
   * query, or `[""]` for a blank query, cut to the first five.
   */
  function QueryWords(query: string): (words: seq<string>)
    ensures 1 <= |words| <= MAX_QUERY_WORDS
    ensures words == [""] <==> IsBlank(query)
    ensures !IsBlank(query) ==> words == Split(query)[..Min(MAX_QUERY_WORDS, |Split(query)|)]
  {
    var split := Split(query);
    var words := if |split| == 0 then [""] else split;
    assert |split| > 0 ==> IsWord(split[0]);
    words[..Min(MAX_QUERY_WORDS, |words|)]
  }

  /** The shard keys a query consults: its words, folded. */
  function QueryTerms(sing: Singularizer, query: string): (terms: seq<string>)
    ensures |terms| == |QueryWords(query)|
    ensures forall i :: 0 <= i < |terms| ==> terms[i] == Fold(sing, QueryWords(query)[i])
    ensures IsBlank(query) && !HasSingular(sing, "") ==> terms == [""]
  {
    FoldAll(sing, QueryWords(query))
  }

  /** `shards[0].intersection(*shards[1:])`. */
  function IntersectAll(sets: seq<set<string>>): (r: set<string>)
    requires |sets| > 0
    ensures forall x :: x in r <==> forall i :: 0 <= i < |sets| ==> x in sets[i]
    decreases |sets|
  {
    if |sets| == 1 then sets[0]
    else
      sets[0] * IntersectAll(sets[1..])
  }

  /** A listing entity as the query returns it: its key name and fields. */
  datatype Hit = Hit(permalink: string, listing: ListingValue)

  /** No permalink occurs twice. */
  predicate DistinctPermalinks(hits: seq<Hit>) {
    forall i, j :: 0 <= i < j < |hits| ==> hits[i].permalink != hits[j].permalink
  }

  predicate NewestFirst(hits: seq<Hit>) {
    forall i, j :: 0 <= i < j < |hits| ==> hits[i].listing.postingTime >= hits[j].listing.postingTime
  }

  /** Inserts `h` before the first hit that is older than it. */
  function InsertByTime(h: Hit, hits: seq<Hit>): seq<Hit>
    decreases |hits|
  {
    if |hits| == 0 || h.listing.postingTime >= hits[0].listing.postingTime then [h] + hits
    else [hits[0]] + InsertByTime(h, hits[1..])
  }

  /** Insertion adds exactly `h`. */
  lemma {:induction false} InsertByTimeAdds(h: Hit, hits: seq<Hit>)
    ensures multiset(InsertByTime(h, hits)) == multiset(hits) + multiset{h}
    decreases |hits|
  {
    if |hits| > 0 && h.listing.postingTime < hits[0].listing.postingTime {
      InsertByTimeAdds(h, hits[1..]);
      assert hits == [hits[0]] + hits[1..];
    }
  }

  /** Insertion into a newest-first sequence keeps it newest first. */
  lemma {:induction false} InsertByTimeSorted(h: Hit, hits: seq<Hit>)
    requires NewestFirst(hits)
    ensures NewestFirst(InsertByTime(h, hits))
    decreases |hits|
  {
    if |hits| == 0 || h.listing.postingTime >= hits[0].listing.postingTime {
      NewestFirstCons(h, hits);
    } else {
      var rest := InsertByTime(h, hits[1..]);
      InsertByTimeSorted(h, hits[1..]);
      InsertByTimeAdds(h, hits[1..]);
      HeadIsNewest(hits);
      NewestFirstCons(hits[0], rest);
    }
  }

  lemma HeadIsNewest(hits: seq<Hit>)
    requires NewestFirst(hits) && |hits| > 0
    ensures forall x :: x in multiset(hits[1..]) ==> hits[0].listing.postingTime >= x.listing.postingTime
  {
    forall x | x in multiset(hits[1..]) ensures hits[0].listing.postingTime >= x.listing.postingTime {
      var j :| 0 <= j < |hits[1..]| && hits[1..][j] == x;
      assert hits[j + 1] == x;
    }
  }

  /** A hit no older than every hit of a newest-first sequence can go in front. */
  lemma NewestFirstCons(a: Hit, s: seq<Hit>)
    requires NewestFirst(s)
    requires forall x :: x in multiset(s) ==> a.listing.postingTime >= x.listing.postingTime
    ensures NewestFirst([a] + s)
  {
    forall i, j | 0 <= i < j < |[a] + s|
      ensures ([a] + s)[i].listing.postingTime >= ([a] + s)[j].listing.postingTime
    {
      if i == 0 {
        assert s[j - 1] in multiset(s);
      }
    }
  }

  /** `listings.sort(key=lambda x: -x.posting_time)`, by insertion. */
  function SortNewestFirst(hits: seq<Hit>): seq<Hit>
    decreases |hits|
  {
    if |hits| == 0 then [] else InsertByTime(hits[0], SortNewestFirst(hits[1..]))
  }

  /** The sort puts the hits newest first and keeps each of them. */
  lemma {:induction false} SortNewestFirstSpec(hits: seq<Hit>)
    ensures NewestFirst(SortNewestFirst(hits))
    ensures multiset(SortNewestFirst(hits)) == multiset(hits)
    decreases |hits|
  {
    if |hits| > 0 {
      var rest := SortNewestFirst(hits[1..]);
      SortNewestFirstSpec(hits[1..]);
      InsertByTimeSorted(hits[0], rest);
      InsertByTimeAdds(hits[0], rest);
      assert hits == [hits[0]] + hits[1..];
    }
  }

  /** The error the sort raises on a permalink whose lookup gave None. */
  datatype QueryError = NoneHasNoPostingTime

  /** The set of each shard a query consults, as the given shard table shows it. */
  function ShardSets(shards: map<string, seq<string>>, sing: Singularizer, store: Store, terms: seq<string>): (sets: seq<set<string>>)
    ensures |sets| == |terms|
  {
    seq(|terms|, i requires 0 <= i < |terms| => Elems(ShardView(shards, sing, store, terms[i])))
  }

  /** Sorting keeps each hit and so the permalinks stay distinct. */
  lemma SortKeepsHits(hits: seq<Hit>, sorted: seq<Hit>)
    requires multiset(sorted) == multiset(hits)
    ensures |sorted| == |hits|
    ensures forall h :: h in sorted <==> h in hits
    ensures (forall i, j :: 0 <= i < j < |hits| ==> hits[i].permalink != hits[j].permalink) ==>
      forall i, j :: 0 <= i < j < |sorted| ==> sorted[i].permalink != sorted[j].permalink
  {
    assert |sorted| == |multiset(sorted)| == |multiset(hits)| == |hits|;
    forall h ensures h in sorted <==> h in hits {
      assert h in sorted <==> h in multiset(sorted);
      assert h in hits <==> h in multiset(hits);
    }
    if forall i, j :: 0 <= i < j < |hits| ==> hits[i].permalink != hits[j].permalink {
      forall i, j | 0 <= i < j < |sorted| ensures sorted[i].permalink != sorted[j].permalink {
        if sorted[i].permalink == sorted[j].permalink {
          var a, b := sorted[i], sorted[j];
          assert a in hits && b in hits;
          var x :| 0 <= x < |hits| && hits[x] == a;
          var y :| 0 <= y < |hits| && hits[y] == b;
          assert x == y;
          assert a == b;
          assert multiset(sorted)[a] >= 2 by {
            assert sorted == sorted[..j] + sorted[j..];
            assert a in sorted[..j];
            assert multiset(sorted[..j])[a] >= 1;
            assert multiset(sorted[j..])[a] >= 1;
          }
          DistinctCount(hits, a);
        }
      }
    }
  }

  /** In a sequence of hits with distinct permalinks every hit occurs at most once. */
  lemma {:induction false} DistinctCount(hits: seq<Hit>, h: Hit)
    requires forall i, j :: 0 <= i < j < |hits| ==> hits[i].permalink != hits[j].permalink
    ensures multiset(hits)[h] <= 1
    decreases |hits|
  {
    if |hits| > 0 {
      var rest := hits[1..];
      assert hits == [hits[0]] + rest;
      DistinctCount(rest, h);
      if hits[0] == h {
        assert h !in rest;
      }
    }
  }

  /**
   * With a coherent cache every permalink a shard lists is stored, so every
   * lookup of a matched permalink finds its record.
   */
  lemma CoherentQueryFindsRecords(sing: Singularizer, store: Store,
                                  records: map<string, Option<ListingValue>>,
                                  shards: map<string, seq<string>>, terms: seq<string>)
    requires Coherent(sing, store, records, shards)
    requires |terms| > 0
    ensures forall k :: k in IntersectAll(ShardSets(shards, sing, store, terms)) ==>
      k in store && RecordView(records, store, k) == Some(store[k])
  {
    var sets := ShardSets(shards, sing, store, terms);
    var first := ShardView(shards, sing, store, terms[0]);
    assert first == ShardQuery(sing, store, terms[0]);
    ShardQuerySound(sing, store, terms[0]);
    forall k | k in IntersectAll(sets) ensures k in store && RecordView(records, store, k) == Some(store[k]) {
      assert k in sets[0];
      assert k in first;
    }
  }

  /**
   * The hits of a list of lookups: each key whose lookup found a record,
   * with that record, in the order of the keys.
   */
  function Resolved(keys: seq<string>, found: seq<Option<ListingValue>>): (hits: seq<Hit>)
    requires |found| == |keys|
    ensures |hits| <= |keys|
    ensures None !in found ==> |hits| == |keys|
    decreases |keys|
  {
    if |keys| == 0 then []
    else
      var n := |keys| - 1;
      assert found == found[..n] + [found[n]];
      Resolved(keys[..n], found[..n]) + (if found[n].Some? then [Hit(keys[n], found[n].value)] else [])
  }

  /** Every hit comes from a key whose lookup found exactly that record. */
  lemma {:induction false} ResolvedSound(keys: seq<string>, found: seq<Option<ListingValue>>)
    requires |found| == |keys|
    ensures forall h :: h in Resolved(keys, found) ==>
      exists i :: 0 <= i < |keys| && keys[i] == h.permalink && found[i] == Some(h.listing)
    decreases |keys|
  {
    if |keys| > 0 {
      var n := |keys| - 1;
      ResolvedSound(keys[..n], found[..n]);
      forall h | h in Resolved(keys, found)
        ensures exists i :: 0 <= i < |keys| && keys[i] == h.permalink && found[i] == Some(h.listing)
      {
        if h in Resolved(keys[..n], found[..n]) {
          var i :| 0 <= i < n && keys[..n][i] == h.permalink && found[..n][i] == Some(h.listing);
          assert keys[i] == h.permalink && found[i] == Some(h.listing);
        } else {
          assert keys[n] == h.permalink && found[n] == Some(h.listing);
        }
      }
    }
  }

  /** Every key whose lookup found a record gives a hit. */
  lemma {:induction false} ResolvedComplete(keys: seq<string>, found: seq<Option<ListingValue>>)
    requires |found| == |keys|
    ensures forall i :: 0 <= i < |keys| && found[i].Some? ==>
      exists h :: h in Resolved(keys, found) && h.permalink == keys[i] && Some(h.listing) == found[i]
    decreases |keys|
  {
    if |keys| > 0 {
      var n := |keys| - 1;
      ResolvedComplete(keys[..n], found[..n]);
      forall i | 0 <= i < |keys| && found[i].Some?
        ensures exists h :: h in Resolved(keys, found) && h.permalink == keys[i] && Some(h.listing) == found[i]
      {
        if i < n {
          assert keys[..n][i] == keys[i] && found[..n][i] == found[i];
          var h :| h in Resolved(keys[..n], found[..n]) && h.permalink == keys[i] && Some(h.listing) == found[i];
          assert h in Resolved(keys, found);
        } else {
          assert Hit(keys[n], found[n].value) in Resolved(keys, found);
        }
      }
    }
  }

  /** Distinct keys give hits with distinct permalinks. */
  lemma {:induction false} ResolvedDistinct(keys: seq<string>, found: seq<Option<ListingValue>>)
    requires |found| == |keys|
    requires forall i, j :: 0 <= i < j < |keys| ==> keys[i] != keys[j]
    ensures DistinctPermalinks(Resolved(keys, found))
    decreases |keys|
  {
    if |keys| > 0 {
      var n := |keys| - 1;
      var prev := Resolved(keys[..n], found[..n]);
      ResolvedDistinct(keys[..n], found[..n]);
      ResolvedSound(keys[..n], found[..n]);
      var hits := Resolved(keys, found);
      var tail: seq<Hit> := if found[n].Some? then [Hit(keys[n], found[n].value)] else [];
      assert hits == prev + tail;
      assert DistinctPermalinks(prev);
      forall i, j | 0 <= i < j < |hits| ensures hits[i].permalink != hits[j].permalink {
        if j >= |prev| {
          assert hits[i] == prev[i] && hits[j].permalink == keys[n];
          assert prev[i] in prev;
          var k :| 0 <= k < n && keys[..n][k] == prev[i].permalink && found[..n][k] == Some(prev[i].listing);
          assert keys[..n][k] == keys[k];
          assert keys[k] != keys[n];
        } else {
          assert hits[i] == prev[i] && hits[j] == prev[j];
        }
      }
    }
  }

  /** A lookup in the list gave None exactly when some key has no record. */
  lemma LookupMissing(store: Store, records: map<string, Option<ListingValue>>, keys: set<string>,
                      order: seq<string>, found: seq<Option<ListingValue>>)
    requires forall x :: x in order <==> x in keys
    requires |found| == |order|
    requires forall i :: 0 <= i < |order| ==> found[i] == RecordView(records, store, order[i])
    ensures (None in found) <==> exists k :: k in keys && RecordView(records, store, k).None?
  {
    if None in found {
      var i :| 0 <= i < |found| && found[i] == None;
      assert order[i] in keys;
    }
    if exists k :: k in keys && RecordView(records, store, k).None? {
      var k :| k in keys && RecordView(records, store, k).None?;
      var i :| 0 <= i < |order| && order[i] == k;
      assert found[i] == None;
    }
  }

  /**
   * The hits of the lookups of a set of keys, visited in ascending order:
   * every key that has a record gives one hit with it, and nothing else does.
   */
  lemma LookupHits(store: Store, records: map<string, Option<ListingValue>>, keys: set<string>,
                   order: seq<string>, found: seq<Option<ListingValue>>, hits: seq<Hit>)
    requires StrictlySorted(order, Less)
    requires forall x :: x in order <==> x in keys
    requires |found| == |order|
    requires forall i :: 0 <= i < |order| ==> found[i] == RecordView(records, store, order[i])
    requires hits == Resolved(order, found)
    ensures forall h :: h in hits ==>
      h.permalink in keys && RecordView(records, store, h.permalink) == Some(h.listing)
    ensures forall k :: k in keys && RecordView(records, store, k).Some? ==>
      exists h :: h in hits && h.permalink == k
    ensures forall i, j :: 0 <= i < j < |hits| ==> hits[i].permalink != hits[j].permalink
  {
    ResolvedSound(order, found);
    ResolvedComplete(order, found);
    forall i, j | 0 <= i < j < |order| ensures order[i] != order[j] {
      LessIrreflexive(order[i]);
    }
    ResolvedDistinct(order, found);
    forall k | k in keys && RecordView(records, store, k).Some?
      ensures exists h :: h in hits && h.permalink == k
    {
      var i :| 0 <= i < |order| && order[i] == k;
      assert found[i].Some?;
    }
  }

  /** A singulariser that knows no singular forms. */
  function NoSingulars(w: string): Option<string> {
    None
  }

  /** A listing whose only indexed word is `word`. */
  function OneWordListing(word: string): ListingValue {
    ListingValue(word, "", "", 0, 0, [], None, [], [], None, 2)
  }

  /**
   * A deleted listing stays in the shards of its keywords when it is
   * invalidated with the default empty keyword list: the cache is coherent
   * before, and afterwards the query "bike" reaches a permalink whose
   * lookup gives None, on which the as-written query raises.
   */
  lemma StaleShardAfterDefaultInvalidation()
    ensures var l := OneWordListing("bike");
      var store := map["p" := l];
      var records := map["p" := Some(l)];
      var shards := map["bike" := ["p"]];
      var store': Store := map[];
      var records' := records - {"p"};
      var shards' := shards - EvictedShards([]);
      && Coherent(NoSingulars, store, records, shards)
      && "p" in IntersectAll(ShardSets(shards', NoSingulars, store', QueryTerms(NoSingulars, "bike")))
      && RecordView(records', store', "p").None?
  {
    var l := OneWordListing("bike");
    var store := map["p" := l];
    var shards := map["bike" := ["p"]];
    var store': Store := map[];
    var shards' := shards - EvictedShards([]);
    BikeShard();
    BikeQuery();
    DefaultEvictsHomeShardOnly();
    assert "bike" in shards' && shards'["bike"] == ["p"];
    var sets := ShardSets(shards', NoSingulars, store', ["bike"]);
    assert "p" in sets[0];
  }

  lemma FoldBike()
    ensures Fold(NoSingulars, "bike") == "bike"
  {
    assert Lower("bike") == "bike";
    KeepTokenCharsOfToken("bike");
  }

  lemma BikeKeyword()
    ensures "bike" in DeriveKeywords(NoSingulars, OneWordListing("bike"))
  {
    var l := OneWordListing("bike");
    KeywordsSpec(NoSingulars, l);
    FoldBike();
    assert Split("") == [];
    assert IndexedWords(l) == ["bike"];
    assert 0 < Min(KEYWORD_WORD_LIMIT, |IndexedWords(l)|) && Fold(NoSingulars, IndexedWords(l)[0]) == "bike";
  }

  lemma BikeShard()
    ensures ShardQuery(NoSingulars, map["p" := OneWordListing("bike")], "bike") == ["p"]
  {
    var store := map["p" := OneWordListing("bike")];
    BikeKeyword();
    var e := Entry(0, "p");
    var c := Candidates(NoSingulars, store, "bike");
    forall x | x in c ensures x == e {
      CandidateRow(NoSingulars, store, "bike", x);
    }
    assert InShard(NoSingulars, store["p"], "bike");
    assert e in c;
    assert c == {e};
    BeforeIsStrictTotalOrder();
    var rows := SortSet({e}, Before);
    SortSetSpec({e}, Before);
    assert rows == [e];
  }

  lemma BikeQuery()
    ensures QueryTerms(NoSingulars, "bike") == ["bike"]
  {
    FoldBike();
    SplitOfWord("bike");
    assert QueryWords("bike") == ["bike"];
  }

  // ---------------------------------------------------------------------
  // The cache and the operations that use it
  // ---------------------------------------------------------------------

  class Cache {
    /** The memo table of `lookup_listing`. */
    var records: map<string, Option<ListingValue>>
    /** The memo table of `fetch_shard`. */
    var shards: map<string, seq<string>>

    constructor()
      ensures records == map[] && shards == map[]
    {
      records := map[];
      shards := map[];
    }

    /** `lookup_listing`: the cached record, or the stored one, cached on a miss. */
    method LookupListing(store: Store, permalink: string) returns (r: Option<ListingValue>)
      modifies this
      ensures r == RecordView(old(records), store, permalink)
      ensures records == old(records)[permalink := r] && shards == old(shards)
      ensures forall k :: RecordView(records, store, k) == RecordView(old(records), store, k)
      ensures old(RecordsCoherent(store, records)) ==> RecordsCoherent(store, records)
    {
      if permalink in records {
        r := records[permalink];
      } else {
        r := Get(store, permalink);
        records := records[permalink := r];
      }
    }

    /** `fetch_shard`: the cached id list, or the storage query, cached on a miss. */
    method FetchShard(sing: Singularizer, store: Store, shard: string := "") returns (ids: seq<string>)
      modifies this
      ensures ids == ShardView(old(shards), sing, store, shard)
      ensures shards == old(shards)[shard := ids] && records == old(records)
      ensures old(ShardsCoherent(sing, store, shards)) ==> ShardsCoherent(sing, store, shards)
    {
      if shard in shards {
        ids := shards[shard];
      } else {
        ids := ShardQuery(sing, store, shard);
        shards := shards[shard := ids];
      }
    }

    /**
     * `invalidate_listing`: forgets the record `permalink`, the shard of
     * every given keyword and the home shard `""`; nothing else.
     */
    method InvalidateListing(permalink: string, keywords: seq<string> := [])
      modifies this
      ensures records == old(records) - {permalink}
      ensures shards == old(shards) - EvictedShards(keywords)
    {
      records := records - {permalink};
      for i := 0 to |keywords|
        invariant records == old(records) - {permalink}
        invariant shards == old(shards) - Elems(keywords[..i])
      {
        assert Elems(keywords[..i + 1]) == Elems(keywords[..i]) + {keywords[i]};
        shards := shards - {keywords[i]};
      }
      assert keywords[..|keywords|] == keywords;
      shards := shards - {""};
    }

    /**
     * The shard sets of `[set(fetch_shard(t)) for t in terms]`: each is the
     * set the shard table showed before the call; fetching only fills
     * entries with their storage value.
     */
    method FetchShardSets(sing: Singularizer, store: Store, terms: seq<string>) returns (sets: seq<set<string>>)
      modifies this
      ensures sets == ShardSets(old(shards), sing, store, terms)
      ensures shards == ShardsFilled(old(shards), sing, store, Elems(terms)) && records == old(records)
      ensures forall k :: ShardView(shards, sing, store, k) == ShardView(old(shards), sing, store, k)
      ensures old(ShardsCoherent(sing, store, shards)) ==> ShardsCoherent(sing, store, shards)
    {
      ghost var before := shards;
      sets := [];
      for i := 0 to |terms|
        invariant |sets| == i
        invariant forall j :: 0 <= j < i ==> sets[j] == Elems(ShardView(before, sing, store, terms[j]))
        invariant shards == ShardsFilled(before, sing, store, Elems(terms[..i]))
        invariant records == old(records)
      {
        ShardsFilledViews(before, sing, store, Elems(terms[..i]));
        var ids := FetchShard(sing, store, terms[i]);
        sets := sets + [Elems(ids)];
        ElemsPrefix(terms, i);
        ShardsFilledStep(before, sing, store, Elems(terms[..i]), terms[i]);
      }
      assert terms[..|terms|] == terms;
      ShardsFilledViews(before, sing, store, Elems(terms));
      ghost var views := ShardSets(before, sing, store, terms);
      assert |sets| == |views|;
    }

    /** `[lookup_listing(key) for key in keys]`: one lookup per key, in order. */
    method LookupEach(store: Store, keys: seq<string>) returns (found: seq<Option<ListingValue>>)
      modifies this
      ensures |found| == |keys|
      ensures forall i :: 0 <= i < |keys| ==> found[i] == RecordView(old(records), store, keys[i])
      ensures records == RecordsFilled(old(records), store, Elems(keys)) && shards == old(shards)
      ensures forall k :: RecordView(records, store, k) == RecordView(old(records), store, k)
      ensures old(RecordsCoherent(store, records)) ==> RecordsCoherent(store, records)
    {
      ghost var before := records;
      found := [];
      for n := 0 to |keys|
        invariant |found| == n
        invariant forall i :: 0 <= i < n ==> found[i] == RecordView(before, store, keys[i])
        invariant records == RecordsFilled(before, store, Elems(keys[..n]))
        invariant shards == old(shards)
      {
        RecordsFilledViews(before, store, Elems(keys[..n]));
        var r := LookupListing(store, keys[n]);
        found := found + [r];
        ElemsPrefix(keys, n);
        RecordsFilledStep(before, store, Elems(keys[..n]), keys[n]);
      }
      assert keys[..|keys|] == keys;
      RecordsFilledViews(before, store, Elems(keys));
    }

    /**
     * The lookups of the matched permalinks, visited in ascending order:
     * `missing` tells whether some lookup gave None (on which the
     * as-written sort raises); `hits` holds every permalink that has a
     * record, once, with that record.
     */
    method LookupAll(store: Store, keys: set<string>) returns (hits: seq<Hit>, missing: bool)
      modifies this
      ensures missing <==> exists k :: k in keys && RecordView(old(records), store, k).None?
      ensures !missing ==> |hits| == |keys|
      ensures forall h :: h in hits ==>
        h.permalink in keys && RecordView(old(records), store, h.permalink) == Some(h.listing)
      ensures forall k :: k in keys && RecordView(old(records), store, k).Some? ==>
        exists h :: h in hits && h.permalink == k
      ensures forall i, j :: 0 <= i < j < |hits| ==> hits[i].permalink != hits[j].permalink
      ensures records == RecordsFilled(old(records), store, keys) && shards == old(shards)
      ensures old(RecordsCoherent(store, records)) ==> RecordsCoherent(store, records)
    {
      LessIsStrictTotalOrder();
      var order := SortSet(keys, Less);
      var found := LookupEach(store, order);
      missing := None in found;
      hits := Resolved(order, found);
      SortSetSpec(keys, Less);
      assert Elems(order) == keys;
      LookupMissing(store, old(records), keys, order, found);
      LookupHits(store, old(records), keys, order, found, hits);
    }

    /**
     * `run_query`: intersects the shards of the (at most five) folded query
     * words, looks up every surviving permalink and sorts the listings
     * newest first. A permalink whose lookup gives None makes the sort
     * raise. With a coherent cache the query never raises and returns
     * exactly the stored listings found in every consulted shard.
     */
    method RunQuery(sing: Singularizer, store: Store, query: string := "")
      returns (r: Result<seq<Hit>, QueryError>, ghost keys: set<string>)
      modifies this
      ensures keys == IntersectAll(ShardSets(old(shards), sing, store, QueryTerms(sing, query)))
      ensures r.Err? <==> exists k :: k in keys && RecordView(old(records), store, k).None?
      ensures r.Ok? ==> NewestFirst(r.value) && |r.value| == |keys|
      ensures r.Ok? ==> forall h :: h in r.value ==>
        h.permalink in keys && RecordView(old(records), store, h.permalink) == Some(h.listing)
      ensures r.Ok? ==> forall i, j :: 0 <= i < j < |r.value| ==> r.value[i].permalink != r.value[j].permalink
      ensures records == RecordsFilled(old(records), store, keys)
      ensures shards == ShardsFilled(old(shards), sing, store, Elems(QueryTerms(sing, query)))
      ensures old(Coherent(sing, store, records, shards)) ==> Coherent(sing, store, records, shards)
      ensures old(Coherent(sing, store, records, shards)) ==> r.Ok?
    {
      var terms := QueryTerms(sing, query);
      var shardSets := FetchShardSets(sing, store, terms);
      // The guard `if not shards: return []` is never taken: there is always a word.
      assert |shardSets| > 0;
      var matched := IntersectAll(shardSets);
      keys := matched;
      var hits, missing := LookupAll(store, matched);
      if missing {
        r := Err(NoneHasNoPostingTime);
      } else {
        var sorted := SortNewestFirst(hits);
        SortNewestFirstSpec(hits);
        SortKeepsHits(hits, sorted);
        r := Ok(sorted);
      }
      if old(Coherent(sing, store, records, shards)) {
        CoherentQueryFindsRecords(sing, store, old(records), old(shards), terms);
      }
    }

    /**
     * `run_query` as evidently intended: permalinks whose lookup gives None
     * (listings deleted since they were indexed) are dropped instead of
     * making the sort raise. The result is every resolvable permalink found
     * in all consulted shards, newest first; with a coherent cache that is
     * every matched permalink.
     */
    method RunQueryTolerant(sing: Singularizer, store: Store, query: string := "")
      returns (r: seq<Hit>, ghost keys: set<string>)
      modifies this
      ensures keys == IntersectAll(ShardSets(old(shards), sing, store, QueryTerms(sing, query)))
      ensures NewestFirst(r)
      ensures forall h :: h in r ==>
        h.permalink in keys && RecordView(old(records), store, h.permalink) == Some(h.listing)
      ensures forall k :: k in keys && RecordView(old(records), store, k).Some? ==> exists h :: h in r && h.permalink == k
      ensures forall i, j :: 0 <= i < j < |r| ==> r[i].permalink != r[j].permalink
      ensures records == RecordsFilled(old(records), store, keys)
      ensures shards == ShardsFilled(old(shards), sing, store, Elems(QueryTerms(sing, query)))
      ensures old(Coherent(sing, store, records, shards)) ==> Coherent(sing, store, records, shards)
      ensures old(Coherent(sing, store, records, shards)) ==>
        forall k :: k in keys ==> k in store && exists h :: h in r && h.permalink == k
    {
      var terms := QueryTerms(sing, query);
      var shardSets := FetchShardSets(sing, store, terms);
      assert |shardSets| > 0;
      var matched := IntersectAll(shardSets);
      keys := matched;
      var hits, _ := LookupAll(store, matched);
      r := SortNewestFirst(hits);
      SortNewestFirstSpec(hits);
      SortKeepsHits(hits, r);
      if old(Coherent(sing, store, records, shards)) {
        CoherentQueryFindsRecords(sing, store, old(records), old(shards), terms);
      }
    }
  }
}
