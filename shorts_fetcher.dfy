/** The shorts fetcher (`shorts-fetcher.py`): reads the roster, rewrites a
    channel id into the id of the channel's shorts playlist, walks the pages
    of that playlist newest first keeping the shorts published on or after a
    cut-off date, builds one dataset entry per group and merges it into the
    saved dataset.

    The YouTube API is not part of this model: the responses to the
    successive playlist requests are given as a sequence, and the video
    details request is the parameter `details`. Timestamps are integers. */
module ShortsFetcher {
  import opened Common
  import opened Text
  import opened Dataset

  // ---- the roster (source lines 28-48) ----

  /** One roster entry: the Korean name, the YouTube column and the channel
      id column, `None` where the row has no such column. */
  datatype RosterEntry = RosterEntry(korean: string, youtube: Option<string>, channelId: Option<string>)

  type Row = seq<string>

  /** The entry for a row with at least the two name columns. */
  function EntryOf(row: Row): (r: RosterEntry)
    requires |row| >= 2
    ensures r.korean == row[1]
    ensures r.youtube == (if |row| > 2 then Some(row[2]) else None)
    ensures r.channelId == (if |row| > 3 then Some(row[3]) else None)
    ensures r.channelId.Some? ==> r.youtube.Some?
    ensures RowOf(row[0], r) == row[..if |row| < 4 then |row| else 4]
  {
    RosterEntry(row[1], if |row| > 2 then Some(row[2]) else None, if |row| > 3 then Some(row[3]) else None)
  }

  /** The roster row an entry is read from, up to its fourth column. */
  function RowOf(name: string, e: RosterEntry): Row
  {
    [name, e.korean] + (if e.youtube.Some? then [e.youtube.value] else [])
      + (if e.channelId.Some? then [e.channelId.value] else [])
  }

  /** The position of the first one-column row, where `row[1]` raises and
      the reading stops; `|rows|` when there is none. */
  function FirstShortRow(rows: seq<Row>): (n: nat)
    ensures n <= |rows|
    ensures forall j :: 0 <= j < n ==> |rows[j]| != 1
    ensures n < |rows| ==> |rows[n]| == 1
  {
    if rows == [] then 0 else if |rows[0]| == 1 then 0 else 1 + FirstShortRow(rows[1..])
  }

  /** The dictionary after reading `rows` one by one: empty rows are skipped,
      every other row sets the entry of its English name. */
  function Fill(rows: seq<Row>): map<string, RosterEntry>
  {
    if rows == [] then map[]
    else
      var d := Fill(rows[..|rows| - 1]);
      var row := rows[|rows| - 1];
      if |row| < 2 then d else d[row[0] := EntryOf(row)]
  }

  /** What `read_kpop_csv` returns for the rows of the file: nothing for a
      file without a header, otherwise the data rows up to the first
      one-column row. */
  function ReadRoster(csv: seq<Row>): map<string, RosterEntry>
  {
    if csv == [] then map[] else Fill(csv[1..][..FirstShortRow(csv[1..])])
  }

  /** The names read are exactly the first columns of the rows read. */
  lemma {:induction false} FillKeys(rows: seq<Row>, k: string)
    ensures k in Fill(rows) <==> exists i :: 0 <= i < |rows| && |rows[i]| >= 2 && rows[i][0] == k
  {
    if rows != [] {
      var init := rows[..|rows| - 1];
      FillKeys(init, k);
      assert forall i :: 0 <= i < |init| ==> init[i] == rows[i];
    }
  }

  /** On duplicate names the last row wins. */
  lemma {:induction false} FillLastWins(rows: seq<Row>, i: nat)
    requires i < |rows| && |rows[i]| >= 2
    requires forall j :: i < j < |rows| && |rows[j]| >= 2 ==> rows[j][0] != rows[i][0]
    ensures rows[i][0] in Fill(rows) && Fill(rows)[rows[i][0]] == EntryOf(rows[i])
  {
    var init := rows[..|rows| - 1];
    if i < |rows| - 1 {
      assert forall j :: 0 <= j < |init| ==> init[j] == rows[j];
      FillLastWins(init, i);
    }
  }

  /** Rows after the first one-column row are never read. */
  lemma ReadRosterStops(csv: seq<Row>, k: string)
    requires csv != []
    ensures k in ReadRoster(csv) <==>
      exists i :: 0 <= i < FirstShortRow(csv[1..]) && |csv[1..][i]| >= 2 && csv[1..][i][0] == k
  {
    var data := csv[1..];
    var read := data[..FirstShortRow(data)];
    FillKeys(read, k);
    assert forall i :: 0 <= i < |read| ==> read[i] == data[i];
  }

  /** `read_kpop_csv` on the rows of the file. */
  method ReadKpopCsv(csv: seq<Row>) returns (dataDict: map<string, RosterEntry>)
    ensures dataDict == ReadRoster(csv)
  {
    dataDict := map[];
    if csv == [] {
      return;
    }
    var data := csv[1..];
    var i := 0;
    var failed := false;
    while i < |data| && !failed
      invariant 0 <= i <= |data|
      invariant forall j :: 0 <= j < i ==> |data[j]| != 1
      invariant failed ==> i < |data| && |data[i]| == 1
      invariant dataDict == Fill(data[..i])
      decreases |data| - i, if failed then 0 else 1
    {
      var row := data[i];
      if row != [] {
        if |row| < 2 {
          failed := true;
        } else {
          var englishName := row[0];
          var koreanName := row[1];
          var youtubeChannel := if |row| > 2 then Some(row[2]) else None;
          var channelId := if |row| > 3 then Some(row[3]) else None;
          dataDict := dataDict[englishName := RosterEntry(koreanName, youtubeChannel, channelId)];
        }
      }
      if !failed {
        assert data[..i + 1][..i] == data[..i];
        i := i + 1;
      }
    }
    if !failed {
      assert data[..i] == data[..FirstShortRow(data)];
    }
  }

  // ---- the playlist id (source lines 55-62) ----

  /** `get_shorts_playlist_id`. */
  function GetShortsPlaylistId(channelId: string): (r: Option<string>)
    ensures r.None? <==> !StartsWith(channelId, "UC")
    ensures r.Some? ==> StartsWith(r.value, "UUSH") && |r.value| == |channelId| + 2
  {
    if channelId == [] || !StartsWith(channelId, "UC") then None else Some("UUSH" + channelId[2..])
  }

  /** The channel id a shorts playlist id was made from. */
  function ChannelOfPlaylist(playlistId: string): Option<string>
  {
    if StartsWith(playlistId, "UUSH") then Some("UC" + playlistId[4..]) else None
  }

  /** Replacing `UUSH` by `UC` gives the channel id back, and every `UUSH`
      id comes from the channel id it names. */
  lemma PlaylistIdRoundTrip(channelId: string, playlistId: string)
    ensures GetShortsPlaylistId(channelId).Some? ==>
      ChannelOfPlaylist(GetShortsPlaylistId(channelId).value) == Some(channelId)
    ensures ChannelOfPlaylist(playlistId).Some? ==>
      GetShortsPlaylistId(ChannelOfPlaylist(playlistId).value) == Some(playlistId)
  {
    if GetShortsPlaylistId(channelId).Some? {
      var p := GetShortsPlaylistId(channelId).value;
      assert p[4..] == channelId[2..];
      assert channelId == channelId[..2] + channelId[2..];
    }
    if ChannelOfPlaylist(playlistId).Some? {
      var c := ChannelOfPlaylist(playlistId).value;
      assert c[2..] == playlistId[4..];
      assert playlistId == playlistId[..4] + playlistId[4..];
    }
  }

  // ---- the playlist pages (source lines 64-140) ----

  /** `extract_hashtags`. */
  function ExtractHashtags(description: string): (r: seq<string>)
    ensures forall m :: 0 <= m < |r| ==> IsHashtag(r[m]) && Contains(description, r[m])
  {
    FindHashtagsSound(description);
    FindHashtags(description)
  }

  /** The fields of a playlist item the loop reads. */
  datatype PlaylistItem = PlaylistItem(videoId: string, title: string, channelTitle: string, publishedAt: int)

  /** The response to one playlist request: an error, or a page of items
      with the token of the next page if there is one. A response without
      `items` is a page with no items. */
  datatype PlaylistResponse =
    | ErrorResponse
    | ItemsPage(items: seq<PlaylistItem>, nextPageToken: Option<string>)

  /** What `get_video_details` reports for a video when it finds it. */
  datatype VideoDetails = VideoDetails(views: int, likes: int, comments: int, description: string)

  /** The details request: `None` where the source gets `{}`. */
  type DetailsLookup = string -> Option<VideoDetails>

  const ShortsUrlPrefix := "https://www.youtube.com/shorts/"

  /** The record appended for a kept item. */
  function ShortOf(item: PlaylistItem, d: VideoDetails): (s: Short)
    ensures s.videoId == item.videoId && s.uploadTime == item.publishedAt
    ensures s.hashtags == ExtractHashtags(d.description)
    ensures s.url == ShortsUrlPrefix + item.videoId
    ensures StartsWith(s.url, ShortsUrlPrefix) && s.url[|ShortsUrlPrefix|..] == s.videoId
    ensures forall m :: 0 <= m < |s.hashtags| ==> IsHashtag(s.hashtags[m]) && Contains(d.description, s.hashtags[m])
  {
    Short(item.videoId, item.title, item.channelTitle, item.publishedAt,
      d.views, d.likes, d.comments, ExtractHashtags(d.description), ShortsUrlPrefix + item.videoId)
  }

  /** An item is kept when it is not older than `minDate` and its details
      were found. */
  predicate Kept(item: PlaylistItem, details: DetailsLookup, minDate: int)
  {
    item.publishedAt >= minDate && details(item.videoId).Some?
  }

  /** The records of the kept items, in order. */
  function KeepItems(items: seq<PlaylistItem>, details: DetailsLookup, minDate: int): seq<Short>
  {
    if items == [] then []
    else
      var last := items[|items| - 1];
      KeepItems(items[..|items| - 1], details, minDate)
      + (if Kept(last, details, minDate) then [ShortOf(last, details(last.videoId).value)] else [])
  }

  /** The page holds an item older than `minDate`. */
  predicate HasOld(items: seq<PlaylistItem>, minDate: int)
  {
    exists i :: 0 <= i < |items| && items[i].publishedAt < minDate
  }

  /** A page after which the loop requests no further page. */
  predicate StopsAfter(page: PlaylistResponse, minDate: int)
  {
    page.ErrorResponse? || HasOld(page.items, minDate) || page.nextPageToken.None?
  }

  /** What `get_shorts_from_playlist` returns for the given responses. */
  function Fetch(pages: seq<PlaylistResponse>, details: DetailsLookup, minDate: int): seq<Short>
  {
    if pages == [] then []
    else match pages[0]
      case ErrorResponse => []
      case ItemsPage(items, next) =>
        KeepItems(items, details, minDate)
        + (if StopsAfter(pages[0], minDate) then [] else Fetch(pages[1..], details, minDate))
  }

  /** The number of responses the loop reads. */
  function Requested(pages: seq<PlaylistResponse>, minDate: int): (n: nat)
    ensures n <= |pages|
  {
    if pages == [] then 0
    else if StopsAfter(pages[0], minDate) then 1
    else 1 + Requested(pages[1..], minDate)
  }

  /** The items of the pages that were read, in order. */
  function AllItems(pages: seq<PlaylistResponse>): seq<PlaylistItem>
  {
    if pages == [] then []
    else (if pages[0].ItemsPage? then pages[0].items else []) + AllItems(pages[1..])
  }

  /** Keeping items of two runs is keeping them in each, in order. */
  lemma {:induction false} KeepItemsConcat(a: seq<PlaylistItem>, b: seq<PlaylistItem>, details: DetailsLookup, minDate: int)
    ensures KeepItems(a + b, details, minDate) == KeepItems(a, details, minDate) + KeepItems(b, details, minDate)
    decreases |b|
  {
    if b != [] {
      var init := b[..|b| - 1];
      assert (a + b)[..|a + b| - 1] == a + init;
      assert (a + b)[|a + b| - 1] == b[|b| - 1];
      KeepItemsConcat(a, init, details, minDate);
    } else {
      assert a + b == a;
    }
  }

  /** A record is returned exactly for the items that are kept. */
  lemma {:induction false} KeepItemsMembers(items: seq<PlaylistItem>, details: DetailsLookup, minDate: int, s: Short)
    ensures s in KeepItems(items, details, minDate) <==>
      exists i :: 0 <= i < |items| && Kept(items[i], details, minDate)
        && s == ShortOf(items[i], details(items[i].videoId).value)
  {
    if items != [] {
      var init := items[..|items| - 1];
      KeepItemsMembers(init, details, minDate, s);
      assert forall i :: 0 <= i < |init| ==> init[i] == items[i];
    }
  }

  /** The records are those of the items of the pages that were read, and
      that includes the items after an old one on the last page. */
  lemma {:induction false} FetchKeepsReadItems(pages: seq<PlaylistResponse>, details: DetailsLookup, minDate: int)
    ensures Fetch(pages, details, minDate) == KeepItems(AllItems(pages[..Requested(pages, minDate)]), details, minDate)
  {
    if pages != [] {
      var read := pages[..Requested(pages, minDate)];
      assert read[0] == pages[0];
      var head := if pages[0].ItemsPage? then pages[0].items else [];
      if StopsAfter(pages[0], minDate) {
        assert read == [pages[0]];
        assert AllItems(read) == head + AllItems([]);
        assert head + [] == head;
      } else {
        FetchKeepsReadItems(pages[1..], details, minDate);
        assert read[1..] == pages[1..][..Requested(pages[1..], minDate)];
        KeepItemsConcat(head, AllItems(read[1..]), details, minDate);
      }
    }
  }

  /** The loop only goes on past a page of recent items with a next token,
      and when it stops before the responses run out, it is after an
      error, a page with an old item or a page without a next token. */
  lemma {:induction false} RequestedStopRule(pages: seq<PlaylistResponse>, minDate: int)
    ensures pages != [] ==> Requested(pages, minDate) >= 1
    ensures forall k :: 0 <= k < Requested(pages, minDate) - 1 ==> !StopsAfter(pages[k], minDate)
    ensures 0 < Requested(pages, minDate) < |pages| ==> StopsAfter(pages[Requested(pages, minDate) - 1], minDate)
  {
    if pages != [] && !StopsAfter(pages[0], minDate) {
      RequestedStopRule(pages[1..], minDate);
      assert forall k :: 1 <= k < |pages| ==> pages[k] == pages[1..][k - 1];
    }
  }

  /** Every record returned is of a video published on or after `minDate`. */
  lemma FetchAfterMinDate(pages: seq<PlaylistResponse>, details: DetailsLookup, minDate: int, s: Short)
    requires s in Fetch(pages, details, minDate)
    ensures s.uploadTime >= minDate
  {
    FetchKeepsReadItems(pages, details, minDate);
    KeepItemsMembers(AllItems(pages[..Requested(pages, minDate)]), details, minDate, s);
  }

  /** The records a response contributes. */
  function PageShorts(page: PlaylistResponse, details: DetailsLookup, minDate: int): seq<Short>
  {
    if page.ItemsPage? then KeepItems(page.items, details, minDate) else []
  }

  /** What is left to fetch from response `k` on. */
  lemma FetchFrom(pages: seq<PlaylistResponse>, k: nat, details: DetailsLookup, minDate: int)
    requires k < |pages|
    ensures Fetch(pages[k..], details, minDate) == PageShorts(pages[k], details, minDate)
      + (if StopsAfter(pages[k], minDate) then [] else Fetch(pages[k + 1..], details, minDate))
  {
    assert pages[k..][0] == pages[k] && pages[k..][1..] == pages[k + 1..];
  }

  /** The item loop over one page. */
  method ScanPage(items: seq<PlaylistItem>, details: DetailsLookup, minDate: int) returns (kept: seq<Short>, foundOldVideo: bool)
    ensures kept == KeepItems(items, details, minDate)
    ensures foundOldVideo == HasOld(items, minDate)
  {
    kept := [];
    foundOldVideo := false;
    for i := 0 to |items|
      invariant kept == KeepItems(items[..i], details, minDate)
      invariant foundOldVideo == HasOld(items[..i], minDate)
    {
      var item := items[i];
      assert items[..i + 1][..i] == items[..i];
      assert items[..i + 1][i] == item;
      if item.publishedAt < minDate {
        foundOldVideo := true;
        continue;
      }
      var videoDetails := details(item.videoId);
      if videoDetails.Some? {
        kept := kept + [ShortOf(item, videoDetails.value)];
      }
    }
    assert items[..|items|] == items;
  }

  /** One turn of the request loop: an error ends it; otherwise the page's
      items are scanned, and the loop ends after an old item or when there
      is no next page. */
  method HandleResponse(page: PlaylistResponse, details: DetailsLookup, minDate: int) returns (kept: seq<Short>, stop: bool)
    ensures kept == PageShorts(page, details, minDate)
    ensures stop == StopsAfter(page, minDate)
  {
    match page
    case ErrorResponse =>
      kept, stop := [], true;
    case ItemsPage(items, nextPageToken) =>
      var foundOldVideo;
      kept, foundOldVideo := ScanPage(items, details, minDate);
      stop := foundOldVideo || nextPageToken.None?;
  }

  /** `get_shorts_from_playlist` over the given responses. */
  method GetShortsFromPlaylist(pages: seq<PlaylistResponse>, details: DetailsLookup, minDate: int) returns (shortsVideos: seq<Short>)
    ensures shortsVideos == Fetch(pages, details, minDate)
  {
    shortsVideos := [];
    var k := 0;
    var done := false;
    while k < |pages| && !done
      invariant 0 <= k <= |pages|
      invariant !done ==> shortsVideos + Fetch(pages[k..], details, minDate) == Fetch(pages, details, minDate)
      invariant done ==> shortsVideos == Fetch(pages, details, minDate)
      decreases |pages| - k, if done then 0 else 1
    {
      var kept, stop := HandleResponse(pages[k], details, minDate);
      FetchFrom(pages, k, details, minDate);
      var rest := if stop then [] else Fetch(pages[k + 1..], details, minDate);
      assert shortsVideos + (kept + rest) == (shortsVideos + kept) + rest;
      shortsVideos := shortsVideos + kept;
      if stop {
        assert shortsVideos + [] == shortsVideos;
        done := true;
      } else {
        k := k + 1;
      }
    }
  }

  // ---- one group's entry (source lines 256-296) ----

  /** The cut-off date, 2020-01-01T00:00:00Z, in seconds since the epoch. */
  const MinDate := 1577836800

  /** The responses to the requests for a playlist id. */
  type PlaylistPages = string -> seq<PlaylistResponse>

  /** `fetch_single_group_shorts`: no channel id, or one that does not start
      with `UC`, gives nothing; an entry exists only for a non-empty list of
      shorts, its count is the length of the list and its other fields come
      from the roster. */
  function FetchSingleGroupShorts(groupName: string, info: RosterEntry, pagesOf: PlaylistPages, details: DetailsLookup): (r: Shorts)
    ensures r.Keys <= {groupName}
    ensures info.channelId.None? || info.channelId.value == [] ==> r == map[]
    ensures info.channelId.Some? && !StartsWith(info.channelId.value, "UC") ==> r == map[]
    ensures groupName in r ==>
      var e := r[groupName];
      && e.shorts != [] && e.shortsCount == |e.shorts|
      && Some(e.channelId) == info.channelId
      && e.koreanName == info.korean && e.channelUrl == info.youtube
      && e.shorts == Fetch(pagesOf(GetShortsPlaylistId(e.channelId).value), details, MinDate)
  {
    if info.channelId.None? || info.channelId.value == [] then map[]
    else
      var channelId := info.channelId.value;
      var shorts := match GetShortsPlaylistId(channelId)
        case Some(playlistId) => Fetch(pagesOf(playlistId), details, MinDate)
        case None => [];
      if shorts != [] then map[groupName := GroupEntry(info.korean, channelId, info.youtube, |shorts|, shorts)]
      else map[]
  }

  /** Every short in a group's entry was uploaded on or after 2020-01-01. */
  lemma FetchSingleGroupShortsRecent(groupName: string, info: RosterEntry, pagesOf: PlaylistPages, details: DetailsLookup)
    ensures var r := FetchSingleGroupShorts(groupName, info, pagesOf, details);
      groupName in r ==> forall j :: 0 <= j < |r[groupName].shorts| ==> r[groupName].shorts[j].uploadTime >= MinDate
  {
    var r := FetchSingleGroupShorts(groupName, info, pagesOf, details);
    if groupName in r {
      var e := r[groupName];
      forall j | 0 <= j < |e.shorts| ensures e.shorts[j].uploadTime >= MinDate {
        FetchAfterMinDate(pagesOf(GetShortsPlaylistId(e.channelId).value), details, MinDate, e.shorts[j]);
      }
    }
  }

  // ---- the merge (source line 315) ----

  /** `{**existing_data, **data}`, where `existing` is `None` when the file
      is missing or is not valid JSON. */
  function CombineResults(existing: Option<Shorts>, data: Shorts): (r: Shorts)
    ensures existing.None? ==> r == data
    ensures existing.Some? ==> r.Keys == existing.value.Keys + data.Keys
    ensures forall g :: g in data ==> r[g] == data[g]
    ensures existing.Some? ==> forall g :: g in existing.value && g !in data ==> r[g] == existing.value[g]
  {
    match existing
    case None => data
    case Some(saved) => saved + data
  }
}
