/** The batch fetch of a channel's uploads: transcripts are joined from their
    segments, videos without a usable transcript are skipped, and the
    playlist is walked page by page until the cap is reached or the pages
    run out. The video platform's APIs are inputs: the channel lookup as a
    list of channels, a playlist as the finite chain of pages its paging
    tokens lead through, and the transcript service as a function that
    returns the segment texts or None when the fetch raises. */
module Ingest {
  import opened Wrappers
  import opened Seqs
  import opened Text

  const WatchUrlPrefix: string := "https://www.youtube.com/watch?v="

  /** One playlist entry. */
  datatype Item = Item(videoId: string, title: string, publishedAt: string)

  /** One page of playlist results and the token for the next page, if any. */
  datatype Page = Page(items: seq<Item>, nextPageToken: Option<string>)

  /** A channel as the lookup reports it, with its uploads playlist. */
  datatype Channel = Channel(title: string, uploads: seq<Page>)

  /** A collected video. */
  datatype VideoRecord = VideoRecord(videoId: string, title: string, url: string,
                                     transcript: string, wordCount: nat, publishedAt: string)

  /** The transcript service: segment texts in order, or None when it raises. */
  type Fetcher = string -> Option<seq<string>>

  /** The segments joined by single spaces, or None when fetching failed.
      The text is empty exactly when there is no segment or one empty one;
      otherwise it holds every segment's characters and one space between
      each neighbouring pair. */
  function GetTranscript(fetch: Fetcher, videoId: string): (t: Option<string>)
    ensures t.None? <==> fetch(videoId).None?
    ensures t.Some? ==>
              (t.value == "" <==> |fetch(videoId).value| == 0
                                  || (|fetch(videoId).value| == 1 && fetch(videoId).value[0] == ""))
    ensures t.Some? && |fetch(videoId).value| > 0 ==>
              |t.value| == TotalLength(fetch(videoId).value) + |fetch(videoId).value| - 1
  {
    match fetch(videoId)
    case None => None
    case Some(segments) =>
      JoinEmptyIff(segments, " ");
      if |segments| > 0 then JoinLength(segments, " "); Some(Join(segments, " "))
      else Some(Join(segments, " "))
  }

  /** Python's truthiness test on the transcript: present and non-empty. */
  predicate Usable(fetch: Fetcher, item: Item)
  {
    var t := GetTranscript(fetch, item.videoId);
    t.Some? && t.value != ""
  }

  /** The record kept for an item, with its url and word count derived. */
  function MakeRecord(item: Item, transcript: string): VideoRecord
  {
    VideoRecord(item.videoId, item.title, WatchUrlPrefix + item.videoId,
                transcript, WordCount(transcript), item.publishedAt)
  }

  function RecordOf(fetch: Fetcher, item: Item): VideoRecord
    requires Usable(fetch, item)
  {
    MakeRecord(item, GetTranscript(fetch, item.videoId).value)
  }

  /** The records of the usable items, in item order, without any cap. */
  function Collect(fetch: Fetcher, items: seq<Item>): (rs: seq<VideoRecord>)
    ensures |rs| <= |items|
  {
    if |items| == 0 then []
    else
      var last := items[|items| - 1];
      Collect(fetch, items[..|items| - 1]) + (if Usable(fetch, last) then [RecordOf(fetch, last)] else [])
  }

  /** Positions of the usable items, in increasing order. */
  function KeptPositions(fetch: Fetcher, items: seq<Item>): (ps: seq<nat>)
    ensures forall k :: 0 <= k < |ps| ==> ps[k] < |items|
  {
    if |items| == 0 then []
    else
      var n := |items| - 1;
      KeptPositions(fetch, items[..n]) + (if Usable(fetch, items[n]) then [n] else [])
  }

  /** There is a next page to request. */
  predicate HasNext(p: Page)
  {
    p.nextPageToken.Some? && p.nextPageToken.value != ""
  }

  /** A finite playlist: at least one page, every page but the last names a
      next page, and the last one does not. */
  predicate Finite(pages: seq<Page>)
  {
    && |pages| > 0
    && (forall i :: 0 <= i < |pages| - 1 ==> HasNext(pages[i]))
    && !HasNext(pages[|pages| - 1])
  }

  /** The items of all pages, page after page. */
  function AllItems(pages: seq<Page>): seq<Item>
  {
    if |pages| == 0 then [] else AllItems(pages[..|pages| - 1]) + pages[|pages| - 1].items
  }

  // ---------------------------------------------------------------------
  // Facts about the transcript filter
  // ---------------------------------------------------------------------

  /** An item is kept exactly when the transcript fetch succeeded and its
      segments do not join to the empty string, that is, there are at least
      two segments or a single non-empty one. */
  lemma UsableIff(fetch: Fetcher, item: Item)
    ensures Usable(fetch, item) <==>
              && fetch(item.videoId).Some?
              && (|fetch(item.videoId).value| > 1
                  || (|fetch(item.videoId).value| == 1 && fetch(item.videoId).value[0] != ""))
  {
    if fetch(item.videoId).Some? {
      JoinEmptyIff(fetch(item.videoId).value, " ");
    }
  }

  /** When every segment is a single word, the word count is the number of
      segments and splitting the transcript gives the segments back. */
  lemma WordCountOfWordSegments(fetch: Fetcher, item: Item)
    requires fetch(item.videoId).Some?
    requires forall k :: 0 <= k < |fetch(item.videoId).value| ==>
               |fetch(item.videoId).value[k]| > 0 && NoSpace(fetch(item.videoId).value[k])
    ensures GetTranscript(fetch, item.videoId).Some?
    ensures Words(GetTranscript(fetch, item.videoId).value) == fetch(item.videoId).value
    ensures WordCount(GetTranscript(fetch, item.videoId).value) == |fetch(item.videoId).value|
  {
    WordsOfJoin(fetch(item.videoId).value);
  }

  /** The kept positions increase, and a position is kept exactly when its
      item is usable. */
  lemma {:induction false} KeptPositionsExact(fetch: Fetcher, items: seq<Item>)
    ensures forall a, b :: 0 <= a < b < |KeptPositions(fetch, items)| ==>
              KeptPositions(fetch, items)[a] < KeptPositions(fetch, items)[b]
    ensures forall i :: 0 <= i < |items| ==> (i in KeptPositions(fetch, items) <==> Usable(fetch, items[i]))
  {
    if |items| > 0 {
      var n := |items| - 1;
      KeptPositionsExact(fetch, items[..n]);
      assert forall i :: 0 <= i < n ==> items[..n][i] == items[i];
    }
  }

  /** The filter keeps the usable items in order: record k is built from the
      item at the k-th kept position. */
  lemma {:induction false} CollectSelects(fetch: Fetcher, items: seq<Item>)
    ensures |Collect(fetch, items)| == |KeptPositions(fetch, items)|
    ensures forall k :: 0 <= k < |KeptPositions(fetch, items)| ==>
              Usable(fetch, items[KeptPositions(fetch, items)[k]])
              && Collect(fetch, items)[k] == RecordOf(fetch, items[KeptPositions(fetch, items)[k]])
  {
    if |items| > 0 {
      var n := |items| - 1;
      CollectSelects(fetch, items[..n]);
      var ps := KeptPositions(fetch, items[..n]);
      var rs := Collect(fetch, items[..n]);
      var ps' := KeptPositions(fetch, items);
      var rs' := Collect(fetch, items);
      if Usable(fetch, items[n]) {
        assert ps' == ps + [n];
        assert rs' == rs + [RecordOf(fetch, items[n])];
      } else {
        assert ps' == ps;
        assert rs' == rs;
      }
      forall k | 0 <= k < |ps'|
        ensures Usable(fetch, items[ps'[k]]) && rs'[k] == RecordOf(fetch, items[ps'[k]])
      {
        if k < |ps| {
          assert ps'[k] == ps[k] && rs'[k] == rs[k];
          assert items[..n][ps[k]] == items[ps[k]];
        }
      }
    }
  }

  /** Every collected record is well formed: its transcript is non-empty,
      its url is the watch url of its id, and its word count is the number
      of whitespace-separated words of its transcript. */
  lemma {:induction false} CollectedRecordsWellFormed(fetch: Fetcher, items: seq<Item>)
    ensures forall r :: r in Collect(fetch, items) ==>
              && r.transcript != ""
              && r.url == WatchUrlPrefix + r.videoId
              && r.wordCount == |Words(r.transcript)|
  {
    if |items| > 0 {
      CollectedRecordsWellFormed(fetch, items[..|items| - 1]);
    }
  }

  /** Collecting over a longer list of items only appends records. */
  lemma {:induction false} CollectPrefix(fetch: Fetcher, a: seq<Item>, b: seq<Item>)
    requires a <= b
    ensures Collect(fetch, a) <= Collect(fetch, b)
    decreases |b|
  {
    if |a| < |b| {
      CollectPrefix(fetch, a, b[..|b| - 1]);
    } else {
      assert a == b;
    }
  }

  /** Collecting one more item appends its record when it is usable. */
  lemma CollectSnoc(fetch: Fetcher, items: seq<Item>, item: Item)
    ensures Collect(fetch, items + [item])
            == Collect(fetch, items) + (if Usable(fetch, item) then [RecordOf(fetch, item)] else [])
  {
    assert (items + [item])[..|items|] == items;
  }

  /** The items of a prefix of the pages, followed by some of the next page's
      items, are a prefix of all items. */
  lemma {:induction false} AllItemsPrefix(pages: seq<Page>, p: nat, j: nat)
    requires p < |pages|
    requires j <= |pages[p].items|
    ensures AllItems(pages[..p]) + pages[p].items[..j] <= AllItems(pages)
    decreases |pages|
  {
    var n := |pages| - 1;
    assert pages[..n + 1] == pages;
    if p < n {
      AllItemsPrefix(pages[..n], p, j);
      assert pages[..n][..p] == pages[..p];
      assert pages[..n][p] == pages[p];
    } else {
      assert pages[p].items == pages[p].items[..j] + pages[p].items[j..];
    }
  }

  /** The items of the first p pages are a prefix of all items. */
  lemma AllItemsOfFewerPages(pages: seq<Page>, p: nat)
    requires p < |pages|
    ensures AllItems(pages[..p]) <= AllItems(pages)
  {
    AllItemsPrefix(pages, p, 0);
    assert pages[p].items[..0] == [];
    assert AllItems(pages[..p]) + pages[p].items[..0] == AllItems(pages[..p]);
  }

  /** Requesting page p + 1 extends the items by that page's. */
  lemma AllItemsSnoc(pages: seq<Page>, p: nat)
    requires p < |pages|
    ensures AllItems(pages[..p + 1]) == AllItems(pages[..p]) + pages[p].items
  {
    assert pages[..p + 1][..p] == pages[..p];
  }

  // ---------------------------------------------------------------------
  // The paged collection loop
  // ---------------------------------------------------------------------

  lemma SliceSnoc<T>(a: seq<T>, xs: seq<T>, j: nat)
    requires j < |xs|
    ensures a + xs[..j + 1] == (a + xs[..j]) + [xs[j]]
  {
    assert xs[..j + 1] == xs[..j] + [xs[j]];
  }

  /** One step of the page loop below the cap: the next item's record, if it
      has one, is appended. */
  lemma ScanStep(fetch: Fetcher, seen: seq<Item>, items: seq<Item>, j: nat, maxVideos: int, videos: seq<VideoRecord>)
    requires j < |items|
    requires videos == Take(Collect(fetch, seen + items[..j]), maxVideos)
    requires |videos| < maxVideos
    ensures Take(Collect(fetch, seen + items[..j + 1]), maxVideos)
            == videos + (if Usable(fetch, items[j]) then [RecordOf(fetch, items[j])] else [])
  {
    SliceSnoc(seen, items, j);
    CollectSnoc(fetch, seen + items[..j], items[j]);
  }

  /** The page loop's result once it has read every item or reached the cap. */
  lemma ScanDone(fetch: Fetcher, seen: seq<Item>, items: seq<Item>, j: nat, maxVideos: int, videos: seq<VideoRecord>)
    requires j <= |items|
    requires videos == Take(Collect(fetch, seen + items[..j]), maxVideos)
    requires j == |items| || |videos| >= maxVideos
    ensures videos == Take(Collect(fetch, seen + items), maxVideos)
  {
    if j == |items| {
      assert items[..j] == items;
    } else {
      assert seen + items[..j] <= seen + items by {
        assert items == items[..j] + items[j..];
      }
      CollectPrefix(fetch, seen + items[..j], seen + items);
      TakeOfLongPrefix(Collect(fetch, seen + items[..j]), Collect(fetch, seen + items), maxVideos);
    }
  }

  /** The loop over one page's items: starting from the records `held` for
      the items already seen (fewer than the cap), each item is checked
      against the cap, its transcript fetched, and its record appended when
      the transcript is usable. The result holds the first `maxVideos`
      records of the items seen followed by this page's items. */
  method ScanPage(fetch: Fetcher, ghost seen: seq<Item>, items: seq<Item>, maxVideos: int, held: seq<VideoRecord>)
    returns (videos: seq<VideoRecord>)
    requires held == Collect(fetch, seen)
    requires |held| < maxVideos
    ensures videos == Take(Collect(fetch, seen + items), maxVideos)
  {
    videos := held;
    assert seen + items[..0] == seen;
    var j := 0;
    while j < |items|
      invariant 0 <= j <= |items|
      invariant videos == Take(Collect(fetch, seen + items[..j]), maxVideos)
    {
      if |videos| >= maxVideos {
        break;
      }
      var item := items[j];
      var transcript := GetTranscript(fetch, item.videoId);
      ScanStep(fetch, seen, items, j, maxVideos, videos);
      if transcript.Some? && transcript.value != "" {
        videos := videos + [MakeRecord(item, transcript.value)];
      }
      j := j + 1;
    }
    ScanDone(fetch, seen, items, j, maxVideos, videos);
  }

  /** Where the page walk ends: either after the last page, or earlier with
      the cap reached. Either way the records are the first `maxVideos` of
      the whole playlist's. */
  lemma WalkEnd(pages: seq<Page>, fetch: Fetcher, maxVideos: int, videos: seq<VideoRecord>, pagesRequested: nat)
    requires Finite(pages)
    requires pagesRequested <= |pages|
    requires videos == Take(Collect(fetch, AllItems(pages[..pagesRequested])), maxVideos)
    requires pagesRequested < |pages| ==> |videos| >= maxVideos
    requires pagesRequested > 0 ==> maxVideos > 0
    ensures videos == Take(Collect(fetch, AllItems(pages)), maxVideos)
    ensures maxVideos > 0 ==> pagesRequested > 0
    ensures 0 < pagesRequested < |pages| ==> |videos| == maxVideos
  {
    var held := AllItems(pages[..pagesRequested]);
    if pagesRequested < |pages| {
      AllItemsOfFewerPages(pages, pagesRequested);
      CollectPrefix(fetch, held, AllItems(pages));
      TakeOfLongPrefix(Collect(fetch, held), Collect(fetch, AllItems(pages)), maxVideos);
      if pagesRequested == 0 {
        assert held == [];
      }
    } else {
      assert pages[..pagesRequested] == pages;
    }
  }

  /** Every record among the first n collected is well formed. */
  lemma TakenRecordsWellFormed(fetch: Fetcher, items: seq<Item>, n: int)
    ensures forall v :: v in Take(Collect(fetch, items), n) ==>
              && v.transcript != ""
              && v.url == WatchUrlPrefix + v.videoId
              && v.wordCount == |Words(v.transcript)|
  {
    var all := Collect(fetch, items);
    var taken := Take(all, n);
    CollectedRecordsWellFormed(fetch, items);
    forall v | v in taken
      ensures v in all
    {
      var k :| 0 <= k < |taken| && taken[k] == v;
      assert all[k] == v;
    }
  }

  /** The paged walk of one playlist: pages are requested in order while
      fewer than `maxVideos` records are held, each page's items are scanned,
      and the walk stops after a page without a next-page token. */
  method WalkPages(pages: seq<Page>, fetch: Fetcher, maxVideos: int)
    returns (videos: seq<VideoRecord>, pagesRequested: nat)
    requires Finite(pages)
    ensures pagesRequested <= |pages|
    ensures videos == Take(Collect(fetch, AllItems(pages[..pagesRequested])), maxVideos)
    ensures pagesRequested < |pages| ==> |videos| >= maxVideos
    ensures pagesRequested > 0 <==> maxVideos > 0
    ensures pagesRequested > 0 ==> |Collect(fetch, AllItems(pages[..pagesRequested - 1]))| < maxVideos
  {
    videos := [];
    pagesRequested := 0;
    assert AllItems(pages[..0]) == [];
    while |videos| < maxVideos
      invariant pagesRequested < |pages|
      invariant videos == Take(Collect(fetch, AllItems(pages[..pagesRequested])), maxVideos)
      invariant pagesRequested > 0 ==> |Collect(fetch, AllItems(pages[..pagesRequested - 1]))| < maxVideos
      invariant pagesRequested > 0 ==> maxVideos > 0
      decreases |pages| - pagesRequested
    {
      var page := pages[pagesRequested];
      videos := ScanPage(fetch, AllItems(pages[..pagesRequested]), page.items, maxVideos, videos);
      AllItemsSnoc(pages, pagesRequested);
      pagesRequested := pagesRequested + 1;
      if !HasNext(page) {
        assert pagesRequested == |pages|;
        break;
      }
    }
  }

  /** Fetches up to `maxVideos` videos with usable transcripts from the first
      channel's uploads. Returns the records and how many playlist pages were
      requested. The records are the first `maxVideos` of what filtering all
      playlist items would give; a page is requested only while fewer than
      `maxVideos` records are held, and the walk stops at the last page. */
  method GetChannelContent(channels: seq<Channel>, fetch: Fetcher, maxVideos: int)
    returns (videos: seq<VideoRecord>, pagesRequested: nat)
    requires |channels| > 0 ==> Finite(channels[0].uploads)
    ensures |channels| == 0 ==> videos == [] && pagesRequested == 0
    ensures |channels| > 0 ==> videos == Take(Collect(fetch, AllItems(channels[0].uploads)), maxVideos)
    ensures maxVideos <= 0 ==> videos == []
    ensures |videos| <= maxVideos || videos == []
    ensures forall v :: v in videos ==>
              && v.transcript != ""
              && v.url == WatchUrlPrefix + v.videoId
              && v.wordCount == |Words(v.transcript)|
    ensures pagesRequested == 0 <==> |channels| == 0 || maxVideos <= 0
    ensures |channels| > 0 ==> pagesRequested <= |channels[0].uploads|
    ensures |channels| > 0 && 0 < pagesRequested < |channels[0].uploads| ==> |videos| == maxVideos
    ensures |channels| > 0 && pagesRequested > 0 ==>
              |Collect(fetch, AllItems(channels[0].uploads[..pagesRequested - 1]))| < maxVideos
  {
    if |channels| == 0 {
      return [], 0;
    }
    var pages := channels[0].uploads;
    videos, pagesRequested := WalkPages(pages, fetch, maxVideos);
    WalkEnd(pages, fetch, maxVideos, videos, pagesRequested);
    TakenRecordsWellFormed(fetch, AllItems(pages), maxVideos);
  }
}
