/** The roster updater (`utils/handle-to-id.py`): turns the YouTube column of
    a roster row (a channel URL or an `@handle`) into a handle, asks the
    channel search for its channel id, and writes the id into column 3 of
    the row, padding short rows with empty cells.

    The channel search over the network is the parameter `search`: it maps
    a query to the id of the first channel found, or `None` when there are
    no results or the request fails. */
module HandleToId {
  import opened Common
  import opened Text

  type Search = string -> Option<string>

  /** The query sent for a handle: one leading `@` removed. */
  function QueryOf(handle: string): string
  {
    if StartsWith(handle, "@") then handle[1..] else handle
  }

  /** Exactly one leading `@` is dropped, and nothing else changes. */
  lemma QueryOfDropsOneAt(handle: string)
    ensures StartsWith(handle, "@") ==> "@" + QueryOf(handle) == handle
    ensures !StartsWith(handle, "@") ==> QueryOf(handle) == handle
    ensures |QueryOf(handle)| >= |handle| - 1
  {
    if StartsWith(handle, "@") {
      assert handle == handle[..1] + handle[1..];
    }
  }

  /** `get_channel_id_from_handle`: a blank handle is not looked up, and the
      search is asked for the handle without its leading `@`. */
  function ChannelIdFromHandle(handle: string, search: Search): (r: Option<string>)
    ensures IsBlank(handle) ==> r == None
    ensures !IsBlank(handle) && |handle| > 0 && handle[0] == '@' ==> r == search(handle[1..])
    ensures !IsBlank(handle) && (|handle| == 0 || handle[0] != '@') ==> r == search(handle)
  {
    if IsBlank(handle) then None else search(QueryOf(handle))
  }

  /** `s.split(sep)[1]` for a separator that occurs in `s`: the text between
      its first and its second occurrence, or to the end of `s`. */
  function SecondPart(s: string, sep: string): string
  {
    var rest := AfterFirst(s, sep);
    match IndexOf(rest, sep)
    case Some(j) => rest[..j]
    case None => rest
  }

  /** The URL step of `process_youtube_handle`: a `youtube.com` URL becomes
      `@` plus the path segment after `/@`, or else after `/c/`. */
  function NormalizeHandle(handle: string): (r: string)
    ensures !Contains(handle, "youtube.com") ==> r == handle
    ensures r == handle || (Contains(handle, "youtube.com") && StartsWith(r, "@") && '/' !in r[1..])
  {
    if Contains(handle, "youtube.com") then
      if Contains(handle, "/@") then "@" + TakeUntil(SecondPart(handle, "/@"), '/')
      else if Contains(handle, "/c/") then "@" + TakeUntil(SecondPart(handle, "/c/"), '/')
      else handle
    else handle
  }

  /** `process_youtube_handle`: the (possibly rewritten) handle and the
      channel id, `""` when none was found. */
  function ProcessYoutubeHandle(handle: string, search: Search): (r: (string, string))
    ensures r.0 == handle || r.0 == NormalizeHandle(handle)
    ensures r.1 != "" ==> StartsWith(r.0, "@") && search(QueryOf(r.0)) == Some(r.1)
  {
    if IsBlank(handle) then (handle, "")
    else if Contains(handle, "shorts/") then (handle, "")
    else LookUp(NormalizeHandle(handle), search)
  }

  /** The last step of `process_youtube_handle`: only a handle starting with
      `@` is looked up, and only a truthy id is kept. The handle is returned
      as given, and an id comes back exactly when the handle starts with `@`
      and the search for its query found a non-empty id. */
  function LookUp(h: string, search: Search): (r: (string, string))
    ensures r.0 == h
    ensures r.1 != "" ==> StartsWith(h, "@") && search(QueryOf(h)) == Some(r.1)
    ensures StartsWith(h, "@") && search(QueryOf(h)).Some? && search(QueryOf(h)).value != "" ==>
      r.1 == search(QueryOf(h)).value
  {
    if StartsWith(h, "@") then
      assert !IsSpace(h[0]);
      match ChannelIdFromHandle(h, search)
      case Some(id) => if id != "" then (h, id) else (h, "")
      case None => (h, "")
    else (h, "")
  }

  /** `TakeUntil` stops at the first `c`, so cutting the text at a later `c`
      first does not change it. */
  lemma {:induction false} TakeUntilCut(t: string, j: nat, c: char)
    requires j < |t| && t[j] == c
    ensures TakeUntil(t[..j], c) == TakeUntil(t, c)
    decreases j
  {
    if j > 0 && t[0] != c {
      assert t[..j][1..] == t[1..][..j - 1];
      TakeUntilCut(t[1..], j - 1, c);
    }
  }

  /** Taking the segment up to the next `/` of `split(sep)[1]` is the same
      as taking it from everything after the first `sep`, when `sep` starts
      with `/`. */
  lemma SecondPartSegment(s: string, sep: string)
    requires sep != [] && sep[0] == '/'
    ensures TakeUntil(SecondPart(s, sep), '/') == TakeUntil(AfterFirst(s, sep), '/')
  {
    var rest := AfterFirst(s, sep);
    match IndexOf(rest, sep)
    case Some(j) =>
      assert rest[j] == sep[0];
      TakeUntilCut(rest, j, '/');
    case None =>
  }

  /** A blank handle comes back unchanged with no id, whatever the search. */
  lemma BlankHandle(handle: string, search: Search)
    requires IsBlank(handle)
    ensures ProcessYoutubeHandle(handle, search) == (handle, "")
  {
  }

  /** A shorts link comes back unchanged with no id, whatever the search. */
  lemma ShortsLink(handle: string, search: Search)
    requires !IsBlank(handle) && Contains(handle, "shorts/")
    ensures ProcessYoutubeHandle(handle, search) == (handle, "")
  {
  }

  /** The handle a `youtube.com` URL turns into: `/@` takes priority over
      `/c/`, and the handle runs from after the first separator to the next
      `/`. */
  lemma UrlHandle(handle: string, search: Search)
    requires !IsBlank(handle) && !Contains(handle, "shorts/") && Contains(handle, "youtube.com")
    ensures Contains(handle, "/@") ==>
      ProcessYoutubeHandle(handle, search).0 == "@" + TakeUntil(AfterFirst(handle, "/@"), '/')
    ensures !Contains(handle, "/@") && Contains(handle, "/c/") ==>
      ProcessYoutubeHandle(handle, search).0 == "@" + TakeUntil(AfterFirst(handle, "/c/"), '/')
    ensures !Contains(handle, "/@") && !Contains(handle, "/c/") ==>
      ProcessYoutubeHandle(handle, search).0 == handle
  {
    SecondPartSegment(handle, "/@");
    SecondPartSegment(handle, "/c/");
  }

  /** Anything else that is neither blank nor a shorts link keeps its text. */
  lemma PlainHandle(handle: string, search: Search)
    requires !IsBlank(handle) && !Contains(handle, "shorts/") && !Contains(handle, "youtube.com")
    ensures ProcessYoutubeHandle(handle, search).0 == handle
  {
  }

  /** An id is returned only when the normalised handle starts with `@` and
      the search for it found that id; a non-empty id found is returned. */
  lemma ChannelIdFound(handle: string, search: Search)
    ensures var (h, id) := ProcessYoutubeHandle(handle, search);
      id != "" ==>
        !IsBlank(handle) && !Contains(handle, "shorts/") && h == NormalizeHandle(handle)
        && StartsWith(h, "@") && search(QueryOf(h)) == Some(id)
    ensures var h := NormalizeHandle(handle);
      !IsBlank(handle) && !Contains(handle, "shorts/") && StartsWith(h, "@")
      && search(QueryOf(h)).Some? && search(QueryOf(h)).value != "" ==>
        ProcessYoutubeHandle(handle, search) == (h, search(QueryOf(h)).value)
  {
  }

  // ---- the CSV pass (source lines 74-100) ----

  type Row = seq<string>

  /** The header with the id column added when it has fewer than four:
      `Channel ID` is appended exactly when the header is short, and the
      header is otherwise unchanged. */
  function UpdateHeader(header: Row): (r: Row)
    ensures |header| < 4 <==> r == header + ["Channel ID"]
    ensures |header| >= 4 <==> r == header
  {
    assert |header + ["Channel ID"]| != |header|;
    if |header| < 4 then header + ["Channel ID"] else header
  }

  /** The row padded with empty cells to at least four. */
  function Padded(row: Row): Row
  {
    if |row| < 4 then row + seq(4 - |row|, _ => "") else row
  }

  /** The row has a non-empty YouTube column. */
  predicate HasHandle(row: Row)
  {
    |row| > 2 && row[2] != ""
  }

  /** The id found for the row's YouTube column, `""` when none was. */
  function FoundId(row: Row, search: Search): string
    requires HasHandle(row)
  {
    ProcessYoutubeHandle(row[2], search).1
  }

  /** One data row after the pass. A row with a handle is padded to at
      least four cells (a handle needs three, so the only new cell is cell 3),
      only cell 3 is overwritten and only with a found id; any other row is
      left alone. */
  function UpdateRow(row: Row, search: Search): (r: Row)
    ensures !HasHandle(row) ==> r == row
    ensures HasHandle(row) ==> |r| == if |row| < 4 then 4 else |row|
    ensures HasHandle(row) ==> forall j :: 0 <= j < |row| && j != 3 ==> r[j] == row[j]
    ensures HasHandle(row) && FoundId(row, search) != "" ==> r[3] == FoundId(row, search)
    ensures HasHandle(row) && FoundId(row, search) == "" ==> r[3] == (if |row| > 3 then row[3] else "")
  {
    if HasHandle(row) then
      var id := FoundId(row, search);
      if id != "" then Padded(row)[3 := id] else Padded(row)
    else row
  }

  /** The row counts towards `updated_count`. */
  predicate Updated(row: Row, search: Search)
  {
    HasHandle(row) && FoundId(row, search) != ""
  }

  /** The data rows after the pass, in order. */
  function UpdateRows(rows: seq<Row>, search: Search): (r: seq<Row>)
    ensures |r| == |rows|
  {
    if rows == [] then [] else UpdateRows(rows[..|rows| - 1], search) + [UpdateRow(rows[|rows| - 1], search)]
  }

  /** Every data row is updated on its own. */
  lemma {:induction false} UpdateRowsPointwise(rows: seq<Row>, search: Search)
    ensures forall i :: 0 <= i < |rows| ==> UpdateRows(rows, search)[i] == UpdateRow(rows[i], search)
  {
    if rows != [] {
      var init := rows[..|rows| - 1];
      UpdateRowsPointwise(init, search);
      assert forall i :: 0 <= i < |init| ==> init[i] == rows[i];
    }
  }

  /** The number of rows satisfying `p`. */
  function CountWhere(rows: seq<Row>, p: Row -> bool): (n: nat)
    ensures n <= |rows|
  {
    if rows == [] then 0
    else CountWhere(rows[..|rows| - 1], p) + (if p(rows[|rows| - 1]) then 1 else 0)
  }

  /** `CountWhere` counts the positions whose row satisfies `p`. */
  lemma {:induction false} CountWhereExact(rows: seq<Row>, p: Row -> bool)
    ensures CountWhere(rows, p) == |set i | 0 <= i < |rows| && p(rows[i])|
  {
    if rows != [] {
      var init := rows[..|rows| - 1];
      CountWhereExact(init, p);
      var before := set i | 0 <= i < |init| && p(init[i]);
      var now := set i | 0 <= i < |rows| && p(rows[i]);
      assert forall i :: 0 <= i < |init| ==> init[i] == rows[i];
      if p(rows[|rows| - 1]) {
        assert now == before + {|rows| - 1};
      } else {
        assert now == before;
      }
    }
  }

  /** The number of rows whose cell 3 gets a found id. */
  function CountUpdated(rows: seq<Row>, search: Search): nat
  {
    CountWhere(rows, row => Updated(row, search))
  }

  /** `updated_count` counts exactly the rows whose cell 3 is overwritten. */
  lemma CountUpdatedExact(rows: seq<Row>, search: Search)
    ensures CountUpdated(rows, search) == |set i | 0 <= i < |rows| && Updated(rows[i], search)|
    ensures CountUpdated(rows, search) <= |rows|
  {
    var p := row => Updated(row, search);
    CountWhereExact(rows, p);
    assert (set i | 0 <= i < |rows| && p(rows[i])) == (set i | 0 <= i < |rows| && Updated(rows[i], search));
  }

  /** The padding loop. */
  method PadRow(row: Row) returns (padded: Row)
    ensures padded == Padded(row)
  {
    padded := row;
    while |padded| < 4
      invariant |row| <= |padded| && padded[..|row|] == row
      invariant |padded| <= 4 || padded == row
      invariant forall j :: |row| <= j < |padded| ==> padded[j] == ""
      decreases 4 - |padded|
    {
      padded := padded + [""];
    }
    if |row| < 4 {
      assert padded == row + seq(4 - |row|, _ => "");
    }
  }

  /** `update_csv_with_channel_ids` on the rows of the input file:
      `None` when the file has no header row (`next(reader)` raises). */
  method UpdateCsvWithChannelIds(csv: seq<Row>, search: Search) returns (rows: Option<seq<Row>>, updatedCount: nat)
    ensures csv == [] ==> rows == None && updatedCount == 0
    ensures csv != [] ==> rows == Some([UpdateHeader(csv[0])] + UpdateRows(csv[1..], search))
    ensures csv != [] ==> updatedCount == CountUpdated(csv[1..], search)
  {
    if csv == [] {
      return None, 0;
    }
    var header := csv[0];
    if |header| < 4 {
      header := header + ["Channel ID"];
    }
    var out := [header];
    var data := csv[1..];
    updatedCount := 0;
    for i := 0 to |data|
      invariant out == [header] + UpdateRows(data[..i], search)
      invariant updatedCount == CountUpdated(data[..i], search)
    {
      var row := data[i];
      if |row| > 2 && row[2] != "" {
        var handle := row[2];
        var (_, channelId) := ProcessYoutubeHandle(handle, search);
        row := PadRow(row);
        if channelId != "" {
          row := row[3 := channelId];
          updatedCount := updatedCount + 1;
        }
      }
      assert data[..i + 1][..i] == data[..i];
      out := out + [row];
    }
    assert data[..|data|] == data;
    rows := Some(out);
  }
}
