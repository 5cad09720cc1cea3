# K-pop shorts datasets — a Dafny model of the core

This project models the data-handling core of a set of scripts. The scripts
collect YouTube Shorts of K-pop groups and post-process the collected
datasets. The model is in Dafny, and it proves properties of each part:

- **Challenge splitter** (`shorts-challenge-spliter.py`):
  - builds the alias index (`name_to_group`, `group_to_members`) from the idol roster;
  - classifies a short as a *challenge* when its hashtags name both its own group and some other group;
  - splits the shorts dataset into a challenge dataset and a non-challenge dataset, drops groups left empty, and totals both sides.
- **Hashtag processor** (`utils/hashtag-processor.py`): appends each short's title hashtags to its hashtag list when they are not already there, and keeps five running counters.
- **Wiki text fixer** (`utils/wiki-json-fixer.py`): an ordered table of 115 `re.sub` rules that insert missing spaces. Three of them use character classes; the rest are literal. It also has the pass that rewrites every non-empty `info` list.
- **Handle to channel id** (`utils/handle-to-id.py`):
  - normalises a YouTube URL or handle to an `@handle`;
  - drops the `@` for the search query;
  - updates the header and the rows of the roster CSV with the channel ids found;
  - counts the updates.
- **Shorts fetcher** (`shorts-fetcher.py`):
  - reads the group roster;
  - rewrites a `UC…` channel id into the `UUSH…` id of its shorts playlist;
  - extracts `#\w+` hashtags;
  - walks the playlist pages newest first, keeping shorts from 2020-01-01 on and stopping after a page that holds an older one;
  - builds a group's dataset entry;
  - merges new entries into the saved dataset.
- **Dataset comparer** (`utils/dataset-comparer.py`): the group names only in the dataset, only in the roster, and in both. Each list is sorted in Python's string order.

Modules:

| module | file | models |
|---|---|---|
| `Common` | `common.dfy` | `Option` and a sum over the keys of a map with its lemmas |
| `Text` | `text.dfy` | `lower`, `strip(c)`, `startswith`, `in`, `split(sep)[k]`, literal `re.sub`, `re.findall(r'#\w+', …)` |
| `Dataset` | `dataset.dfy` | the saved shorts dataset: group name → entry with its list of shorts |
| `AliasIndex` | `alias_index.dfy` | `create_name_to_group_mapping` |
| `ChallengeSplitter` | `challenge_splitter.dfy` | `is_challenge_short` and the loop of `main` |
| `HashtagProcessor` | `hashtag_processor.dfy` | `extract_hashtags_from_title`, `process_hashtags` |
| `WikiFixer` | `wiki_fixer.dfy` | `fix_spacing_in_text`, the loop of `fix_json_formatting` |
| `HandleToId` | `handle_to_id.dfy` | `get_channel_id_from_handle`, `process_youtube_handle`, `update_csv_with_channel_ids` |
| `ShortsFetcher` | `shorts_fetcher.dfy` | `read_kpop_csv`, `extract_hashtags`, `get_shorts_playlist_id`, `get_shorts_from_playlist`, `fetch_single_group_shorts`, the merge in `save_results` |
| `DatasetComparer` | `dataset_comparer.dfy` | `compare_group_sets` |

The scripts build their results in loops that change state as they go, so
each loop is a Dafny `method` with a `while` or `for` loop:

- filling the two maps over the roster rows;
- the flags of the classifier;
- appending to the two partitions;
- appending hashtags;
- applying the rule table;
- padding a row;
- filling the roster dictionary;
- the pagination loop.

Each such method is proved against a function of its inputs, and the
properties the scripts promise are lemmas about those functions. JSON
objects are values: maps of records. Fields the code never reads are kept
in a generic `rest` field, which the model shows are never changed.

Python's `dict` iteration order matters in one place: the second loop of
the alias builder runs over `group_to_members`, whose order is the order in
which the groups were first seen. The model keeps that order as an explicit
sequence. Wherever dictionary order cannot change the result, maps are
iterated in any order.

The classifier is the global-lookup rule of `shorts-challenge-spliter.py:59-71`.

Two rules are modelled exactly as written:

- **`name_to_group[g] == g` can be overwritten.** The code maps each group
  key to itself, and then the group's Korean name to the group, group by
  group. A later group whose Korean name equals an earlier group key
  therefore overwrites it. `AliasIndex.GroupKeyCanBeTakenOver` shows this
  with two rows. `AliasIndex.GroupKeyMapsToItself` states when the group
  key still maps to itself, and `AliasIndex.GroupKeyTakenOver` states which
  group it maps to otherwise.
- **The `Billboard\'s` rule is not an identity.** Python's `re.sub` keeps
  the backslash of the unknown template escape `\'`, so the rule at
  `utils/wiki-json-fixer.py:93` turns `Billboard's` into `Billboard\'s`.
  This is stated in `WikiFixer.SameTextRules`.

## Model

| member | source | states |
|---|---|---|
| AliasIndex.CreateNameToGroupMapping | shorts-challenge-spliter.py:11-38 | the two maps returned are exactly the member map `Members(rows)` and the alias map `NameToGroup(rows)` (member pass, then the group pass in first-seen order) |
| AliasIndex.RegisterMembers | shorts-challenge-spliter.py:17-29 | the member loop leaves the alias map, the member sets and the first-seen group order equal to their fold over the rows; `k_group` is computed and unused |
| AliasIndex.RegisterGroups | shorts-challenge-spliter.py:32-36 | the group loop, run in first-seen order, writes each group key and its Korean group name onto the member aliases as the fold `GroupNames` does |
| AliasIndex.GroupOrderExact | shorts-challenge-spliter.py:22 | the first-seen order lists exactly the keys of `group_to_members`, each once |
| AliasIndex.KoreanGroupOf | shorts-challenge-spliter.py:35 | the `iloc[0]` lookup of a group finds a row iff some row's English group lower-cases to it |
| AliasIndex.KoreanGroupOfFirst | shorts-challenge-spliter.py:35 | the lookup yields the lower-cased Korean group name of the FIRST row of that group |
| AliasIndex.KoreanGroupLookupSucceeds | shorts-challenge-spliter.py:19-35 | for every key of `group_to_members` the `iloc[0]` lookup cannot fail |
| AliasIndex.OrderLookupsSucceed | shorts-challenge-spliter.py:32-35 | every lookup made by the group loop succeeds |
| AliasIndex.LookupsPrefix | shorts-challenge-spliter.py:32-35 | lookups that succeed for all groups succeed for any prefix of them (the loop's progress) |
| AliasIndex.MembersExact | shorts-challenge-spliter.py:22-29 | `group_to_members` has a key iff some row's group lower-cases to it, and its set is exactly the lower-cased English and Korean names of those rows |
| AliasIndex.MemberNamesLastWins | shorts-challenge-spliter.py:21-28 | after the member loop an alias maps to the group of the LAST row that registered it |
| AliasIndex.MemberNamesKeys | shorts-challenge-spliter.py:21-28 | after the member loop the aliases are exactly the lower-cased names of all rows |
| AliasIndex.GroupNamesUntouched | shorts-challenge-spliter.py:32-36 | a name the group loop never writes keeps its member-loop value, and is absent if it was absent |
| AliasIndex.GroupNamesLastWrite | shorts-challenge-spliter.py:32-36 | a name the group loop writes maps to the group that wrote it last, overriding any member alias |
| AliasIndex.GroupNamesKeys | shorts-challenge-spliter.py:32-36 | the group loop only adds keys: the result's keys are the old ones plus every name written |
| AliasIndex.NameToGroupKeys | shorts-challenge-spliter.py:21-36 | the alias map's keys are exactly the member aliases, the group keys and the Korean group names |
| AliasIndex.MemberAliasesAreKeys | shorts-challenge-spliter.py:21-36 | every member in `group_to_members` is a key of `name_to_group` |
| AliasIndex.GroupKeyMapsToItself | shorts-challenge-spliter.py:33-36 | a group key maps to itself when no later group in `group_to_members` order writes it as its Korean name |
| AliasIndex.GroupKeyTakenOver | shorts-challenge-spliter.py:33-36 | otherwise the group key maps to the last group in that order whose Korean name it is |
| AliasIndex.KoreanGroupMapsToGroup | shorts-challenge-spliter.py:35-36 | a group's Korean name maps to that group when no other group writes the same name |
| AliasIndex.MemberAliasLastWriteWins | shorts-challenge-spliter.py:21-36 | a member alias that is no group key and no Korean group name keeps the group of the last row naming it |
| AliasIndex.NoGroupWrites | shorts-challenge-spliter.py:32-36 | a name that is no group key and no Korean group name is written by no step of the group loop |
| AliasIndex.GroupKeyCanBeTakenOver | shorts-challenge-spliter.py:33-36 | for two concrete rows, group key `x` ends up mapped to group `z`, whose Korean name is `x` |
| ChallengeSplitter.IsChallengeShort | shorts-challenge-spliter.py:40-72 | true iff some cleaned tag maps to the lower-cased current group AND some cleaned tag maps to another group; `group_to_members` plays no part |
| ChallengeSplitter.NoTagsNoChallenge | shorts-challenge-spliter.py:53-72 | a short without hashtags is never a challenge |
| ChallengeSplitter.UnknownTagsIgnored | shorts-challenge-spliter.py:59-60 | tags whose cleaned form is not a known name do not change the verdict |
| ChallengeSplitter.MoreTagsMonotone | shorts-challenge-spliter.py:59-71 | adding tags can turn the verdict from false to true, never back |
| ChallengeSplitter.SameTagsSameResult | shorts-challenge-spliter.py:59-71 | order and repetition of tags do not matter: the same set of tags gives the same verdict |
| ChallengeSplitter.CleanTagShape | shorts-challenge-spliter.py:49 | a cleaned tag has no upper-case letter and neither begins nor ends with `#` |
| ChallengeSplitter.Partition | shorts-challenge-spliter.py:87-114 | a group is in an output iff it has shorts on that side; its shorts are those of that verdict in input order; its count is their number; `korean_name`, `channel_id` and `channel_url` are copied |
| ChallengeSplitter.SelectConcat | shorts-challenge-spliter.py:104-110 | selecting from a concatenation is concatenating the selections, so the appends keep input order |
| ChallengeSplitter.SelectSplits | shorts-challenge-spliter.py:104-110 | every short goes to exactly one side: the two sides together are a permutation of the group's shorts |
| ChallengeSplitter.SelectMembers | shorts-challenge-spliter.py:104-110 | a short is on a side iff it is one of the group's shorts and the classifier gives that side's verdict |
| ChallengeSplitter.TotalsAddUp | shorts-challenge-spliter.py:127-128 | the challenge and non-challenge totals add up to the number of input shorts |
| ChallengeSplitter.NonEmptyTotal | shorts-challenge-spliter.py:113-128 | dropping the groups with zero shorts leaves the total `shorts_count` unchanged |
| ChallengeSplitter.NonEmptyParts | shorts-challenge-spliter.py:87-114 | filtering the per-group split gives the partition |
| ChallengeSplitter.SplitDataset | shorts-challenge-spliter.py:87-128 | the loop builds both partitions, and the two totals sum their counts and together equal the input's number of shorts |
| ChallengeSplitter.SplitGroup | shorts-challenge-spliter.py:88-110 | one group's two entries start at count 0 and collect each short on the side of its verdict |
| ChallengeSplitter.SumCounts | shorts-challenge-spliter.py:127 | the sum of `shorts_count` over the groups of a dataset |
| HashtagProcessor.ExtractHashtagsFromTitle | utils/hashtag-processor.py:10-15 | every tag extracted is `#` followed by one or more word characters, and occurs in the title |
| HashtagProcessor.MergeTitleHashtags | utils/hashtag-processor.py:52-55 | the inner loop yields the merged list, and its counter is the number of tags appended |
| HashtagProcessor.MergeKeepsPrefix | utils/hashtag-processor.py:52-54 | the original hashtags stay an unchanged prefix: the list is only appended to |
| HashtagProcessor.MergeElements | utils/hashtag-processor.py:52-54 | a tag is in the merged list iff it was in the list or in the title |
| HashtagProcessor.MergeAppendsFresh | utils/hashtag-processor.py:53-54 | each appended tag is a title tag that was not in the original list, and no appended tag repeats |
| HashtagProcessor.MergeIdempotent | utils/hashtag-processor.py:52-54 | merging the same title tags a second time changes nothing |
| HashtagProcessor.MergeNoop | utils/hashtag-processor.py:53 | title tags already present add nothing |
| HashtagProcessor.ProcessShortSpec | utils/hashtag-processor.py:41-55 | a processed short has a hashtag list (`[]` created when missing); old tags are a prefix; every title hashtag is present; appended tags are new and distinct; title and other fields unchanged |
| HashtagProcessor.ProcessShortIdempotent | utils/hashtag-processor.py:41-55 | processing a short twice is processing it once |
| HashtagProcessor.ProcessOneShort | utils/hashtag-processor.py:41-58 | one short's processing with its before, after and added counts |
| HashtagProcessor.TagsBalance | utils/hashtag-processor.py:46-58 | over any list of shorts, after = before + added, and added is never negative |
| HashtagProcessor.TagsStep | utils/hashtag-processor.py:38-58 | one more short adds its own before, after and added counts and its processed record (the loop's step) |
| HashtagProcessor.ProcessShortsPointwise | utils/hashtag-processor.py:38-58 | the processed list has the same length, and each short is processed on its own |
| HashtagProcessor.ProcessGroupShorts | utils/hashtag-processor.py:38-58 | the loop over a group's shorts yields the processed list and the three hashtag counters of that list |
| HashtagProcessor.SumStatsRemove | utils/hashtag-processor.py:32-58 | the counters over a set of groups are one group's counters plus the rest's |
| HashtagProcessor.StatsBalance | utils/hashtag-processor.py:46-58 | summed over all groups, after = before + added |
| HashtagProcessor.ProcessHashtags | utils/hashtag-processor.py:17-66 | same groups; every group processed on its own; the five counters are the sums over the groups, and after = before + added |
| HashtagProcessor.GroupsWithoutShortsUntouched | utils/hashtag-processor.py:33-34 | a group without `shorts` is unchanged and counts nothing |
| HashtagProcessor.ProcessGroupShape | utils/hashtag-processor.py:32-55 | other group fields are unchanged; a group has `shorts` after iff before; the list keeps its length and each short is processed |
| WikiFixer.FixSpacingInText | utils/wiki-json-fixer.py:4-134 | empty text is returned as is; otherwise each of the 115 rules is applied exactly once, in table order |
| WikiFixer.SpaceBetweenAllLength | utils/wiki-json-fixer.py:11-13 | a class rule inserts exactly one space per non-overlapping match |
| WikiFixer.SpaceBetweenAllAbsent | utils/wiki-json-fixer.py:11-13 | a class rule leaves text without a match unchanged |
| WikiFixer.ApplyRuleNotShorter | utils/wiki-json-fixer.py:11-127 | no single rule shortens the text |
| WikiFixer.ApplyRulesNotShorter | utils/wiki-json-fixer.py:131-132 | applying any sequence of rules never shortens the text |
| WikiFixer.FixSpacing | utils/wiki-json-fixer.py:4-134 | empty text stays empty, and the fixed text is never shorter than the input |
| WikiFixer.ApplyRuleAbsent | utils/wiki-json-fixer.py:132 | a rule whose pattern does not occur leaves the text unchanged |
| WikiFixer.ApplyRulesAbsent | utils/wiki-json-fixer.py:131-132 | a sequence of rules none of which matches leaves the text unchanged |
| WikiFixer.FixSpacingAbsent | utils/wiki-json-fixer.py:131-134 | text in which no rule of the table matches is returned unchanged |
| WikiFixer.SameTextRules | utils/wiki-json-fixer.py:73-93 | the `maxi single` rule is the identity; the `Billboard\'s` rule inserts a backslash |
| WikiFixer.FixEntry | utils/wiki-json-fixer.py:145-150 | only an entry with a non-empty `info` list changes; the list keeps its length, each paragraph is fixed; other fields stay |
| WikiFixer.FixParagraphs | utils/wiki-json-fixer.py:146-149 | the paragraph loop yields a list of the same length whose every element is the fixed paragraph |
| WikiFixer.FixJsonFormatting | utils/wiki-json-fixer.py:144-150 | same groups, each entry fixed as `FixEntry` states |
| HandleToId.QueryOfDropsOneAt | utils/handle-to-id.py:19 | the query is the handle with exactly one leading `@` dropped, or the handle itself |
| HandleToId.ChannelIdFromHandle | utils/handle-to-id.py:11-40 | a blank handle gives `None` without a search; a handle starting with `@` is searched without that `@`; any other handle is searched as given |
| HandleToId.LookUp | utils/handle-to-id.py:59-64 | the handle is returned as given; an id is returned only for an `@` handle whose search found it; a non-empty id found is returned |
| HandleToId.SecondPartSegment | utils/handle-to-id.py:54-56 | `split(sep)[1].split("/")[0]` is the text after the first `sep` up to the next `/` |
| HandleToId.BlankHandle | utils/handle-to-id.py:44-45 | an empty or whitespace-only handle gives `(handle, "")` |
| HandleToId.ShortsLink | utils/handle-to-id.py:48-49 | a handle containing `shorts/` gives `(handle, "")` |
| HandleToId.UrlHandle | utils/handle-to-id.py:52-56 | a `youtube.com` URL becomes `@` plus the segment after the first `/@`, else after the first `/c/`, else stays as is; `/@` has priority |
| HandleToId.PlainHandle | utils/handle-to-id.py:52-59 | a handle that is not a URL is kept as given |
| HandleToId.NormalizeHandle | utils/handle-to-id.py:52-56 | a handle that is not a `youtube.com` URL is unchanged; a rewritten one starts with `@` and holds no `/` after it |
| HandleToId.ProcessYoutubeHandle | utils/handle-to-id.py:42-64 | the handle returned is the input or its normalised form; a non-empty id comes only with an `@` handle whose search found it |
| HandleToId.ChannelIdFound | utils/handle-to-id.py:42-64 | a non-empty id is returned only for a valid, non-shorts handle whose normalised form starts with `@` and whose search found that id; conversely such a search's non-empty id is returned with the normalised handle |
| HandleToId.UpdateHeader | utils/handle-to-id.py:77-78 | `Channel ID` is appended iff the header has fewer than 4 columns; otherwise the header is unchanged |
| HandleToId.UpdateRow | utils/handle-to-id.py:83-95 | a row without a handle in column 2 is unchanged; otherwise it is padded to at least 4 columns, no cell but column 3 changes, and column 3 is the id found, else its old value or `""` |
| HandleToId.UpdateRows | utils/handle-to-id.py:82-100 | one output row per input row |
| HandleToId.UpdateRowsPointwise | utils/handle-to-id.py:82-100 | each output row is its input row updated on its own |
| HandleToId.CountWhere | utils/handle-to-id.py:95 | a count over rows is at most the number of rows |
| HandleToId.CountWhereExact | utils/handle-to-id.py:95 | the running count equals the number of row positions satisfying the condition |
| HandleToId.CountUpdatedExact | utils/handle-to-id.py:93-95 | `updated_count` is exactly the number of rows whose column 3 was overwritten with an id, at most the number of rows |
| HandleToId.PadRow | utils/handle-to-id.py:90-91 | the padding loop adds `""` up to 4 columns and keeps the cells |
| HandleToId.UpdateCsvWithChannelIds | utils/handle-to-id.py:66-100 | an empty file gives nothing; otherwise the updated header followed by every updated row, and the count of rows updated |
| ShortsFetcher.EntryOf | shorts-fetcher.py:35-43 | a channel id is only read along with a YouTube column, and writing the entry back as a row gives the row's first four columns |
| ShortsFetcher.FirstShortRow | shorts-fetcher.py:36 | the position of the first one-column row, where `row[1]` raises and reading stops |
| ShortsFetcher.FillKeys | shorts-fetcher.py:33-43 | the names read are exactly the first columns of the non-empty rows read |
| ShortsFetcher.FillLastWins | shorts-fetcher.py:39-43 | for a repeated English name the last row wins |
| ShortsFetcher.ReadRosterStops | shorts-fetcher.py:28-48 | the names returned are those of the non-empty data rows before the first one-column row |
| ShortsFetcher.ReadKpopCsv | shorts-fetcher.py:28-48 | the reading loop, which stops at the exception, returns `ReadRoster` of the file's rows |
| ShortsFetcher.ExtractHashtags | shorts-fetcher.py:50-53 | every tag extracted is `#` followed by one or more word characters, and occurs in the description |
| ShortsFetcher.GetShortsPlaylistId | shorts-fetcher.py:55-62 | `None` iff the id does not start with `UC` (an empty id included); otherwise an id starting with `UUSH`, 2 characters longer |
| ShortsFetcher.PlaylistIdRoundTrip | shorts-fetcher.py:62 | replacing `UUSH` by `UC` gives the channel id back, and every `UUSH` id comes from exactly that channel id |
| ShortsFetcher.ShortOf | shorts-fetcher.py:109-119 | the shorts URL gives the video id back after its fixed prefix, and every hashtag of the record is a `#\w+` tag of the description |
| ShortsFetcher.Requested | shorts-fetcher.py:75-134 | the number of responses read is at most the number given |
| ShortsFetcher.KeepItemsConcat | shorts-fetcher.py:96-119 | keeping over a concatenation is concatenating what is kept: input order is preserved |
| ShortsFetcher.KeepItemsMembers | shorts-fetcher.py:101-119 | a record is kept iff it comes from an item not older than the cut-off whose details were found |
| ShortsFetcher.FetchKeepsReadItems | shorts-fetcher.py:75-140 | the result is exactly the kept items of the pages read, in order |
| ShortsFetcher.RequestedStopRule | shorts-fetcher.py:90-134 | at least one page is requested; no page before the last one read stops pagination; the last one read stops it (error, an older item, or no next token) |
| ShortsFetcher.FetchAfterMinDate | shorts-fetcher.py:101-103 | every short returned was published on or after the cut-off |
| ShortsFetcher.FetchFrom | shorts-fetcher.py:95-134 | fetching from page k is that page's kept shorts, followed by the rest unless the page stops pagination |
| ShortsFetcher.ScanPage | shorts-fetcher.py:96-122 | the item loop keeps the recent items with details and flags whether the page holds an older item; the rest of the page is still examined |
| ShortsFetcher.HandleResponse | shorts-fetcher.py:90-134 | one response's kept shorts, and whether the loop stops after it |
| ShortsFetcher.GetShortsFromPlaylist | shorts-fetcher.py:64-140 | the pagination loop returns `Fetch` of the responses |
| ShortsFetcher.FetchSingleGroupShorts | shorts-fetcher.py:256-296 | no channel id, or one not starting with `UC`, gives `{}`; otherwise at most one entry, only for non-empty shorts, with `shorts_count == len(shorts)` and fields copied from the roster |
| ShortsFetcher.FetchSingleGroupShortsRecent | shorts-fetcher.py:256-296 | every short of a group's entry is from 2020-01-01 on |
| ShortsFetcher.CombineResults | shorts-fetcher.py:303-315 | without saved data the new data; otherwise the union of the keys, new values on shared keys and old values elsewhere |
| Text.LowerIdempotent | shorts-challenge-spliter.py:49 | lower-casing twice is lower-casing once |
| Text.StripShape | shorts-challenge-spliter.py:49 | `strip('#')` returns a slice of its input with only `#`s cut off at both ends, and neither end of the result is `#` |
| Text.StripNoop | shorts-challenge-spliter.py:49 | a string not beginning or ending with `#` is unchanged by `strip('#')` |
| Text.ReplaceAllNotShorter | utils/wiki-json-fixer.py:132 | a literal rewrite whose replacement is at least as long as its pattern never shortens the text |
| Text.ReplaceAllAbsent | utils/wiki-json-fixer.py:132 | a literal rewrite of a pattern that does not occur is the identity |
| Text.ReplaceAllIdentity | utils/wiki-json-fixer.py:73 | rewriting a pattern to itself is the identity |
| Text.HashtagSpansComplete | shorts-fetcher.py:52 | every position where `#\w+` could start lies inside a match reported by the scan: no hashtag is missed |
| Text.HashtagsFromSpans | shorts-fetcher.py:52 | the extracted tags are the texts of the maximal, left-to-right, non-overlapping matches |
| Text.FindHashtagsSound | utils/hashtag-processor.py:14 | each extracted hashtag is `#` followed by one or more word characters, and occurs in the text |
| DatasetComparer.Least | utils/dataset-comparer.py:18-20 | the first name of a non-empty set in Python's string order |
| DatasetComparer.SortedOf | utils/dataset-comparer.py:18-20 | `sorted` of a set: strictly ascending, the same elements, the same size |
| DatasetComparer.SortedUnique | utils/dataset-comparer.py:18-20 | two strictly ascending lists with the same elements are equal |
| DatasetComparer.SortedOfUnique | utils/dataset-comparer.py:18-20 | any strictly ascending listing of a set is `sorted` of it |
| DatasetComparer.LessIrreflexive | utils/dataset-comparer.py:18-20 | no string comes before itself |
| DatasetComparer.LessTransitive | utils/dataset-comparer.py:18-20 | Python's string order is transitive |
| DatasetComparer.LessTotal | utils/dataset-comparer.py:18-20 | of two different strings one comes first |
| DatasetComparer.LeastExists | utils/dataset-comparer.py:18-20 | a non-empty set of names has a first name |
| DatasetComparer.LeastUnique | utils/dataset-comparer.py:18-20 | that first name is unique |
| DatasetComparer.CompareGroupSets | utils/dataset-comparer.py:9-21 | the three lists hold exactly `A - B`, `B - A` and `A & B`, each strictly ascending |
| DatasetComparer.ComparePartition | utils/dataset-comparer.py:13-15 | every name of `A` or `B` is in exactly one list, and no other name is in any |
| DatasetComparer.CompareSizes | utils/dataset-comparer.py:13-15 | `len(only_in_json) + len(in_both) == len(A)` and `len(only_in_csv) + len(in_both) == len(B)` |
| DatasetComparer.CompareSwap | utils/dataset-comparer.py:13-20 | swapping the arguments swaps the first two lists and keeps `in_both` |

## Left out

- Network calls are not modelled:
  - The channel search of `get_channel_id_from_handle` is a function parameter. That function turns a missing item, an empty item list or any exception into `None`.
  - The video-details request of `get_video_details` is a parameter. It returns `None` where the code gets `{}`. The description's hashtags are extracted with the modelled `#\w+` scan.
  - The playlist responses are a given sequence. An error response, or an exception while reading a page, ends the loop with what was collected.
  - Running out of given responses also ends the loop. The scripts would keep requesting.
  - An empty `nextPageToken` makes the script request the first page again. In the model, that is simply the next response given.
- `try_alternative_shorts_methods` is not modelled: it is called only from a commented-out line.
- `utils/wiki-fetcher.py` is not part of this model. It is HTTP fetching and BeautifulSoup HTML scraping.
- `utils/yt-downloader.py` is not part of this model. It is a wrapper over pytubefix.
- File, CSV, JSON, pandas and dotenv I/O are not modelled. CSV files are sequences of rows of strings, and JSON files are maps of records.
- A missing output file or invalid JSON in `save_results` is `None`.
- An empty file in `update_csv_with_channel_ids`, where `next(reader)` raises, is `None`.
- `print`, `time.sleep` and the `main` functions and module-level runs are not modelled. This covers `shorts-fetcher.py:323-342`, `shorts-challenge-spliter.py:73-85,116-124`, `utils/wiki-json-fixer.py:161-166` and the rest of `utils/dataset-comparer.py`.
- The loop over groups in `shorts-fetcher.py:329-340`, which calls the fetch and the merge, is not modelled. Both calls are modelled.
- Datetime handling is not modelled: `fromisoformat` and `strftime` (`shorts-fetcher.py:98,113`) are left out. Timestamps are integer seconds, the cut-off date is `1577836800`, and `upload_time` is that integer rather than the formatted string.
- The float percentage of `utils/dataset-comparer.py` is not modelled.
- Unicode semantics are ASCII plus Hangul:
  - `lower` maps only `A`-`Z`;
  - `isspace` is its ASCII set;
  - `\w` is ASCII letters, digits, `_` and precomposed Hangul syllables;
  - `[a-z]`, `[A-Z]` and `\d` are ASCII.
  Python's full Unicode tables are not modelled.
- Aliasing is not modelled. The hashtag processor's `json_data.copy()` is shallow, so the caller's shorts are changed in place too. The same holds for `fix_json_formatting`. Both are modelled on values, so aliasing of the caller's data is not captured.
- Inputs the code does not expect are not modelled:
  - a short without a `title` (a `KeyError`);
  - roster or CSV cells that are not strings;
  - `info` paragraphs that are not strings or are `None`;
  - an `info` value that is truthy but not a list;
  - playlist items missing fields.
- The alias builder is split into `AliasIndex.RegisterMembers` (the member loop) and `AliasIndex.RegisterGroups` (the group loop). `AliasIndex.CreateNameToGroupMapping` runs them in sequence.
- The builder's `print(group_to_members)` is not modelled.
- ShortsFetcher.ReadKpopCsv: a missing file is modelled as an empty one, since both give `{}`. The exception raised by a one-column row is modelled as reading stopping at that row, which keeps the partial dictionary.
