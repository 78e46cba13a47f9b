/** The statistics endpoint: the chunk count of the whole collection, and the
    distinct videos found in a bounded sample of its metadata, each listed
    once with the title and url of its first occurrence. */
module Stats {
  import opened Wrappers
  import opened Seqs
  import opened Service

  /** How many metadata rows are read to find videos. */
  const SampleLimit: nat := 100
  /** How many distinct videos are listed. */
  const ListedLimit: nat := 10

  /** A listed video: only its title and url are reported. */
  datatype VideoRef = VideoRef(title: string, url: string)

  datatype StatsResponse = StatsResponse(totalChunks: nat, totalVideos: nat, sampleVideos: seq<VideoRef>)

  function RefOf(m: Metadata): VideoRef
  {
    VideoRef(m.title, m.url)
  }

  /** The distinct video ids among the rows. */
  function VideoIds(ms: seq<Metadata>): set<string>
  {
    set m | m in ms :: m.videoId
  }

  /** Row i is the first row of its video. */
  predicate IsFirst(ms: seq<Metadata>, i: nat)
    requires i < |ms|
  {
    forall j :: 0 <= j < i ==> ms[j].videoId != ms[i].videoId
  }

  /** The positions, below n, of rows that are the first of their video, in
      increasing order. */
  function FirstPositions(ms: seq<Metadata>, n: nat): (ps: seq<nat>)
    requires n <= |ms|
    ensures forall k :: 0 <= k < |ps| ==> ps[k] < n
  {
    if n == 0 then []
    else FirstPositions(ms, n - 1) + (if IsFirst(ms, n - 1) then [n - 1] else [])
  }

  /** Reference definition of the listing: one entry per distinct video, in
      order of first occurrence, carrying that first row's title and url. */
  function DistinctVideos(ms: seq<Metadata>): seq<VideoRef>
  {
    var ps := FirstPositions(ms, |ms|);
    seq(|ps|, k requires 0 <= k < |ps| => RefOf(ms[ps[k]]))
  }

  /** The ids at a list of positions. */
  function IdsAt(ms: seq<Metadata>, ps: seq<nat>): (ids: seq<string>)
    requires forall k :: 0 <= k < |ps| ==> ps[k] < |ms|
    ensures |ids| == |ps|
  {
    seq(|ps|, k requires 0 <= k < |ps| => ms[ps[k]].videoId)
  }

  /** No element occurs twice. */
  predicate Distinct<T(==)>(s: seq<T>)
  {
    forall a, b :: 0 <= a < b < |s| ==> s[a] != s[b]
  }

  /** A row is the first of its video exactly when its id was not seen before it. */
  lemma IsFirstIff(ms: seq<Metadata>, i: nat)
    requires i < |ms|
    ensures IsFirst(ms, i) <==> ms[i].videoId !in VideoIds(ms[..i])
  {
    if !IsFirst(ms, i) {
      var j :| 0 <= j < i && ms[j].videoId == ms[i].videoId;
      assert ms[..i][j] == ms[j];
    }
  }

  /** Adding one row adds its id to the ids seen. */
  lemma VideoIdsSnoc(ms: seq<Metadata>, n: nat)
    requires n < |ms|
    ensures VideoIds(ms[..n + 1]) == VideoIds(ms[..n]) + {ms[n].videoId}
  {
    assert ms[..n + 1] == ms[..n] + [ms[n]];
  }

  /** The first positions are strictly increasing and are exactly the rows
      that first mention their video. */
  lemma {:induction false} FirstPositionsExact(ms: seq<Metadata>, n: nat)
    requires n <= |ms|
    ensures forall a, b :: 0 <= a < b < |FirstPositions(ms, n)| ==> FirstPositions(ms, n)[a] < FirstPositions(ms, n)[b]
    ensures forall i :: 0 <= i < n ==> (i in FirstPositions(ms, n) <==> IsFirst(ms, i))
  {
    if n > 0 {
      FirstPositionsExact(ms, n - 1);
    }
  }

  /** The ids at the first positions are pairwise distinct and are exactly
      the ids of the rows below n. */
  lemma {:induction false} FirstIdsExact(ms: seq<Metadata>, n: nat)
    requires n <= |ms|
    ensures Distinct(IdsAt(ms, FirstPositions(ms, n)))
    ensures forall id :: id in IdsAt(ms, FirstPositions(ms, n)) <==> id in VideoIds(ms[..n])
  {
    if n > 0 {
      FirstIdsExact(ms, n - 1);
      VideoIdsSnoc(ms, n - 1);
      IsFirstIff(ms, n - 1);
      var prev := IdsAt(ms, FirstPositions(ms, n - 1));
      var ids := IdsAt(ms, FirstPositions(ms, n));
      if IsFirst(ms, n - 1) {
        assert ids == prev + [ms[n - 1].videoId];
      } else {
        assert ids == prev;
      }
    }
  }

  /** A sequence without repetitions has as many distinct elements as entries. */
  lemma {:induction false} DistinctCardinality<T>(s: seq<T>)
    requires Distinct(s)
    ensures |set x | x in s| == |s|
  {
    if |s| > 0 {
      var init := s[..|s| - 1];
      assert Distinct(init);
      DistinctCardinality(init);
      assert (set x | x in s) == (set x | x in init) + {s[|s| - 1]} by {
        assert s == init + [s[|s| - 1]];
      }
      assert s[|s| - 1] !in init;
    }
  }

  /** The listing has one entry per distinct video id. */
  lemma DistinctVideosCount(ms: seq<Metadata>)
    ensures |DistinctVideos(ms)| == |VideoIds(ms)|
  {
    var ids := IdsAt(ms, FirstPositions(ms, |ms|));
    FirstIdsExact(ms, |ms|);
    assert ms[..|ms|] == ms;
    DistinctCardinality(ids);
    assert (set x | x in ids) == VideoIds(ms);
  }

  /** Three chunks of two videos, the first video's two chunks around the
      second's: two videos are counted and listed, each with its first
      chunk's title and url. */
  lemma TwoVideosInThreeChunks(a: Metadata, b: Metadata, c: Metadata)
    requires a.videoId == c.videoId && a.videoId != b.videoId
    ensures |VideoIds(Take([a, b, c], SampleLimit))| == 2
    ensures Take(DistinctVideos(Take([a, b, c], SampleLimit)), ListedLimit) == [RefOf(a), RefOf(b)]
  {
    var ms := [a, b, c];
    assert Take(ms, SampleLimit) == ms;
    assert VideoIds(ms) == {a.videoId, b.videoId} by {
      assert forall m | m in ms :: m == a || m == b || m == c;
    }
    assert IsFirst(ms, 0) && IsFirst(ms, 1);
    assert !IsFirst(ms, 2) by {
      assert ms[0].videoId == ms[2].videoId;
    }
    assert FirstPositions(ms, 1) == [0];
    assert FirstPositions(ms, 2) == [0, 1];
    assert FirstPositions(ms, 3) == [0, 1];
  }

  /** What the scan has built after reading the first i sampled rows: a
      dictionary from every id seen to its first row's title and url, and the
      ids in order of first insertion (a Python dict keeps insertion order). */
  predicate Scanned(sample: seq<Metadata>, i: nat, videos: map<string, VideoRef>, order: seq<string>)
  {
    && i <= |sample|
    && videos.Keys == VideoIds(sample[..i])
    && order == IdsAt(sample, FirstPositions(sample, i))
    && forall k :: 0 <= k < |order| ==>
         order[k] in videos && videos[order[k]] == RefOf(sample[FirstPositions(sample, i)[k]])
  }

  /** Reading a row whose id is new inserts the id, after all earlier ones. */
  lemma ScannedNew(sample: seq<Metadata>, i: nat, videos: map<string, VideoRef>, order: seq<string>)
    requires i < |sample| && Scanned(sample, i, videos, order)
    requires sample[i].videoId !in videos
    ensures Scanned(sample, i + 1, videos[sample[i].videoId := RefOf(sample[i])], order + [sample[i].videoId])
  {
    var id := sample[i].videoId;
    var v := videos[id := RefOf(sample[i])];
    var o := order + [id];
    IsFirstIff(sample, i);
    VideoIdsSnoc(sample, i);
    var ps := FirstPositions(sample, i);
    var ps' := FirstPositions(sample, i + 1);
    assert ps' == ps + [i];
    assert o == IdsAt(sample, ps');
    forall k | 0 <= k < |o|
      ensures o[k] in v && v[o[k]] == RefOf(sample[ps'[k]])
    {
      if k < |order| {
        assert ps'[k] == ps[k];
        assert order[k] in videos;
      }
    }
  }

  /** Reading a row whose id was seen before changes nothing. */
  lemma ScannedSeen(sample: seq<Metadata>, i: nat, videos: map<string, VideoRef>, order: seq<string>)
    requires i < |sample| && Scanned(sample, i, videos, order)
    requires sample[i].videoId in videos
    ensures Scanned(sample, i + 1, videos, order)
  {
    IsFirstIff(sample, i);
    VideoIdsSnoc(sample, i);
    assert FirstPositions(sample, i + 1) == FirstPositions(sample, i);
  }

  /** The scan over the sampled rows, in order, keeping the first row of
      every video. */
  method FirstByVideo(sample: seq<Metadata>) returns (videos: map<string, VideoRef>, order: seq<string>)
    ensures Scanned(sample, |sample|, videos, order)
  {
    videos := map[];
    order := [];
    var i := 0;
    while i < |sample|
      invariant Scanned(sample, i, videos, order)
    {
      var m := sample[i];
      if m.videoId !in videos {
        ScannedNew(sample, i, videos, order);
        videos := videos[m.videoId := RefOf(m)];
        order := order + [m.videoId];
      } else {
        ScannedSeen(sample, i, videos, order);
      }
      i := i + 1;
    }
  }

  /** After the whole sample, the dictionary has one key per video and its
      values, in insertion order, are the reference listing. */
  lemma ScannedAll(sample: seq<Metadata>, videos: map<string, VideoRef>, order: seq<string>)
    requires Scanned(sample, |sample|, videos, order)
    ensures videos.Keys == VideoIds(sample)
    ensures forall k :: 0 <= k < |order| ==> order[k] in videos
    ensures seq(|order|, k requires 0 <= k < |order| => videos[order[k]]) == DistinctVideos(sample)
  {
    assert sample[..|sample|] == sample;
  }

  /** The statistics endpoint. The collection reports its row count; a sample
      of at most SampleLimit rows is scanned for the first row of every
      video; the first ListedLimit videos are listed. */
  method GetStats(store: Option<Store>) returns (r: Result<StatsResponse, HttpError>)
    ensures store.None? ==> r == Failure(StoreNotInitialized)
    ensures store.Some? ==> r.Success?
    ensures store.Some? ==> r.value.totalChunks == |store.value.metadatas|
    ensures store.Some? ==> r.value.totalVideos == |VideoIds(Take(store.value.metadatas, SampleLimit))|
    ensures store.Some? ==> r.value.sampleVideos == Take(DistinctVideos(Take(store.value.metadatas, SampleLimit)), ListedLimit)
    ensures store.Some? ==> |r.value.sampleVideos| == Min(ListedLimit, r.value.totalVideos)
  {
    if store.None? {
      return Failure(StoreNotInitialized);
    }
    var rows := store.value.metadatas;
    var count := |rows|;
    var sample := Take(rows, SampleLimit);
    var videos, order := FirstByVideo(sample);
    ScannedAll(sample, videos, order);
    var listed := seq(|order|, k requires 0 <= k < |order| => videos[order[k]]);
    DistinctVideosCount(sample);
    r := Success(StatsResponse(count, |videos|, Take(listed, ListedLimit)));
  }
}
