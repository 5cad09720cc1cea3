/** The hashtag processor (`utils/hashtag-processor.py`): for every short of
    every group that has a `shorts` list, the hashtags found in the title are
    appended to the short's hashtag list unless already present, and five
    running counters are kept.

    JSON objects are modelled as values: a short keeps its title, its
    optional hashtag list (`None` when the key is absent) and, in `rest`,
    every other field, which the processor never touches. */
module HashtagProcessor {
  import opened Common
  import opened Text

  /** A short as this script sees it in the JSON file: its `title`, its
      `hashtags` key, which may be absent, and every other field it carries
      through untouched as `rest`. This is looser than `Dataset.Short`,
      whose `hashtags` list is always present, because this script also
      accepts a short with no `hashtags` key and starts it at `[]`. */
  datatype ShortRecord<R> = ShortRecord(title: string, hashtags: Option<seq<string>>, rest: R)

  /** A group object: its optional `shorts` list and every other field. */
  datatype GroupRecord<G, R> = GroupRecord(shorts: Option<seq<ShortRecord<R>>>, rest: G)

  datatype Stats = Stats(groups: int, shorts: int, hashtagsBefore: int, hashtagsAfter: int, hashtagsAdded: int)

  /** `extract_hashtags_from_title`: `re.findall(r'#\w+', title)`. */
  function ExtractHashtagsFromTitle(title: string): (r: seq<string>)
    ensures forall m :: 0 <= m < |r| ==> IsHashtag(r[m]) && Contains(title, r[m])
  {
    FindHashtagsSound(title);
    FindHashtags(title)
  }

  /** The hashtag list a short starts from: its own, or `[]` when it has none. */
  function Existing<R>(s: ShortRecord<R>): seq<string>
  {
    if s.hashtags.Some? then s.hashtags.value else []
  }

  // ---- the merge of one short (source lines 41-55) ----

  /** `tags` after appending, in order, every tag of `extra` that is not yet in
      the list at the moment it is considered. */
  function Merge(tags: seq<string>, extra: seq<string>): seq<string>
  {
    if extra == [] then tags
    else
      var m := Merge(tags, extra[..|extra| - 1]);
      if extra[|extra| - 1] in m then m else m + [extra[|extra| - 1]]
  }

  /** The list is only appended to: the original is an unchanged prefix. */
  lemma {:induction false} MergeKeepsPrefix(tags: seq<string>, extra: seq<string>)
    ensures |Merge(tags, extra)| >= |tags| && Merge(tags, extra)[..|tags|] == tags
  {
    if extra != [] {
      MergeKeepsPrefix(tags, extra[..|extra| - 1]);
    }
  }

  /** The merged list holds exactly the original tags and the extra ones. */
  lemma {:induction false} MergeElements(tags: seq<string>, extra: seq<string>, x: string)
    ensures x in Merge(tags, extra) <==> x in tags || x in extra
  {
    if extra != [] {
      var init := extra[..|extra| - 1];
      MergeElements(tags, init, x);
      assert extra == init + [extra[|extra| - 1]];
    }
  }

  /** Every appended tag is new: the appended part has no duplicates and
      repeats none of the original tags, and each of its tags comes from
      `extra`. */
  lemma {:induction false} MergeAppendsFresh(tags: seq<string>, extra: seq<string>)
    ensures var m := Merge(tags, extra);
      && (forall i :: |tags| <= i < |m| ==> m[i] !in tags && m[i] in extra)
      && (forall i, j :: |tags| <= i < j < |m| ==> m[i] != m[j])
  {
    MergeKeepsPrefix(tags, extra);
    if extra != [] {
      var init, x := extra[..|extra| - 1], extra[|extra| - 1];
      var m0 := Merge(tags, init);
      MergeAppendsFresh(tags, init);
      MergeKeepsPrefix(tags, init);
      assert forall i :: |tags| <= i < |m0| ==> m0[i] in extra by {
        forall i | |tags| <= i < |m0| ensures m0[i] in extra {
          var k :| 0 <= k < |init| && init[k] == m0[i];
          assert extra[k] == init[k];
        }
      }
      assert forall k :: 0 <= k < |tags| ==> m0[k] == tags[k];
    }
  }

  /** Merging the same tags a second time changes nothing. */
  lemma MergeIdempotent(tags: seq<string>, extra: seq<string>)
    ensures Merge(Merge(tags, extra), extra) == Merge(tags, extra)
  {
    var m := Merge(tags, extra);
    forall i | 0 <= i < |extra| ensures extra[i] in m {
      MergeElements(tags, extra, extra[i]);
    }
    MergeNoop(m, extra);
  }

  /** Tags that are all present already are not appended. */
  lemma {:induction false} MergeNoop(tags: seq<string>, extra: seq<string>)
    requires forall i :: 0 <= i < |extra| ==> extra[i] in tags
    ensures Merge(tags, extra) == tags
  {
    if extra != [] {
      var init := extra[..|extra| - 1];
      assert forall i :: 0 <= i < |init| ==> init[i] == extra[i];
      MergeNoop(tags, init);
      assert extra[|extra| - 1] in tags;
    }
  }

  /** The inner loop over the title's hashtags (source lines 52-55). */
  method MergeTitleHashtags(hashtags: seq<string>, titleHashtags: seq<string>) returns (merged: seq<string>, added: int)
    ensures merged == Merge(hashtags, titleHashtags)
    ensures added == |merged| - |hashtags| >= 0
  {
    merged, added := hashtags, 0;
    for k := 0 to |titleHashtags|
      invariant merged == Merge(hashtags, titleHashtags[..k])
      invariant added == |merged| - |hashtags|
    {
      assert titleHashtags[..k + 1][..k] == titleHashtags[..k];
      var hashtag := titleHashtags[k];
      if hashtag !in merged {
        merged := merged + [hashtag];
        added := added + 1;
      }
    }
    assert titleHashtags[..|titleHashtags|] == titleHashtags;
    MergeKeepsPrefix(hashtags, titleHashtags);
  }

  /** A short after processing: hashtag list present and extended. */
  function ProcessShort<R>(s: ShortRecord<R>): ShortRecord<R>
  {
    s.(hashtags := Some(Merge(Existing(s), ExtractHashtagsFromTitle(s.title))))
  }

  /** What processing promises about one short: the title and every other
      field are kept, the old list is a prefix of the new one, every title
      hashtag is present, and each appended one is new. */
  lemma ProcessShortSpec<R>(s: ShortRecord<R>)
    ensures var p, old_ := ProcessShort(s), Existing(s);
      && p.title == s.title && p.rest == s.rest && p.hashtags.Some?
      && |p.hashtags.value| >= |old_| && p.hashtags.value[..|old_|] == old_
      && (forall t :: t in ExtractHashtagsFromTitle(s.title) ==> t in p.hashtags.value)
      && (forall i :: |old_| <= i < |p.hashtags.value| ==> p.hashtags.value[i] !in old_)
      && (forall i, j :: |old_| <= i < j < |p.hashtags.value| ==> p.hashtags.value[i] != p.hashtags.value[j])
  {
    var t := ExtractHashtagsFromTitle(s.title);
    MergeKeepsPrefix(Existing(s), t);
    MergeAppendsFresh(Existing(s), t);
    forall x | x in t ensures x in Merge(Existing(s), t) {
      MergeElements(Existing(s), t, x);
    }
  }

  /** Processing a short a second time changes nothing. */
  lemma ProcessShortIdempotent<R>(s: ShortRecord<R>)
    ensures ProcessShort(ProcessShort(s)) == ProcessShort(s)
  {
    MergeIdempotent(Existing(s), ExtractHashtagsFromTitle(s.title));
  }

  // ---- one group (source lines 38-58) ----

  /** Sums over a list of shorts, in list order. */
  function TagsBefore<R>(shorts: seq<ShortRecord<R>>): int
  {
    if shorts == [] then 0 else TagsBefore(shorts[..|shorts| - 1]) + |Existing(shorts[|shorts| - 1])|
  }

  function TagsAfter<R>(shorts: seq<ShortRecord<R>>): int
  {
    if shorts == [] then 0 else TagsAfter(shorts[..|shorts| - 1]) + |Existing(ProcessShort(shorts[|shorts| - 1]))|
  }

  function TagsAdded<R>(shorts: seq<ShortRecord<R>>): int
  {
    if shorts == [] then 0
    else
      var s := shorts[|shorts| - 1];
      TagsAdded(shorts[..|shorts| - 1]) + (|Existing(ProcessShort(s))| - |Existing(s)|)
  }

  /** Each short only gains tags, so the additions are never negative and
      the counts before and the additions make up the counts after. */
  lemma {:induction false} TagsBalance<R>(shorts: seq<ShortRecord<R>>)
    ensures TagsAfter(shorts) == TagsBefore(shorts) + TagsAdded(shorts)
    ensures TagsAdded(shorts) >= 0
  {
    if shorts != [] {
      var s := shorts[|shorts| - 1];
      TagsBalance(shorts[..|shorts| - 1]);
      MergeKeepsPrefix(Existing(s), ExtractHashtagsFromTitle(s.title));
    }
  }

  lemma TagsStep<R>(shorts: seq<ShortRecord<R>>, i: nat)
    requires i < |shorts|
    ensures var s, pre, pre1 := shorts[i], shorts[..i], shorts[..i + 1];
      && TagsBefore(pre1) == TagsBefore(pre) + |Existing(s)|
      && TagsAfter(pre1) == TagsAfter(pre) + |Existing(ProcessShort(s))|
      && TagsAdded(pre1) == TagsAdded(pre) + (|Existing(ProcessShort(s))| - |Existing(s)|)
    ensures ProcessShorts(shorts[..i + 1]) == ProcessShorts(shorts[..i]) + [ProcessShort(shorts[i])]
  {
    assert shorts[..i + 1][..i] == shorts[..i];
  }

  /** The body of the loop over a group's shorts (source lines 39-58) for one
      short, with what it adds to the three hashtag counters. */
  method ProcessOneShort<R>(short: ShortRecord<R>) returns (p: ShortRecord<R>, before: int, after: int, added: int)
    ensures p == ProcessShort(short)
    ensures before == |Existing(short)| && after == |Existing(p)| && added == after - before
  {
    var hashtags := if short.hashtags.Some? then short.hashtags.value else [];
    before := |hashtags|;
    var titleHashtags := ExtractHashtagsFromTitle(short.title);
    var merged, n := MergeTitleHashtags(hashtags, titleHashtags);
    added := n;
    after := |merged|;
    p := short.(hashtags := Some(merged));
  }

  /** Every short of a list processed, in order. */
  function ProcessShorts<R>(shorts: seq<ShortRecord<R>>): seq<ShortRecord<R>>
  {
    if shorts == [] then [] else ProcessShorts(shorts[..|shorts| - 1]) + [ProcessShort(shorts[|shorts| - 1])]
  }

  /** The processed list has the same length, and position by position holds
      the processed short. */
  lemma {:induction false} ProcessShortsPointwise<R>(shorts: seq<ShortRecord<R>>)
    ensures |ProcessShorts(shorts)| == |shorts|
    ensures forall i :: 0 <= i < |shorts| ==> ProcessShorts(shorts)[i] == ProcessShort(shorts[i])
  {
    if shorts != [] {
      ProcessShortsPointwise(shorts[..|shorts| - 1]);
    }
  }

  /** The loop over one group's shorts. */
  method ProcessGroupShorts<R>(shorts: seq<ShortRecord<R>>)
    returns (processed: seq<ShortRecord<R>>, before: int, after: int, added: int)
    ensures processed == ProcessShorts(shorts)
    ensures before == TagsBefore(shorts) && after == TagsAfter(shorts) && added == TagsAdded(shorts)
  {
    processed, before, after, added := [], 0, 0, 0;
    for i := 0 to |shorts|
      invariant processed == ProcessShorts(shorts[..i])
      invariant before == TagsBefore(shorts[..i]) && after == TagsAfter(shorts[..i]) && added == TagsAdded(shorts[..i])
    {
      TagsStep(shorts, i);
      var p, b, a, n := ProcessOneShort(shorts[i]);
      before, after, added := before + b, after + a, added + n;
      processed := processed + [p];
    }
    assert shorts[..|shorts|] == shorts;
  }

  // ---- the whole dataset (source lines 17-66) ----

  /** A group after processing: untouched when it has no `shorts` key. */
  function ProcessGroup<G, R>(g: GroupRecord<G, R>): GroupRecord<G, R>
  {
    if g.shorts.None? then g
    else g.(shorts := Some(ProcessShorts(g.shorts.value)))
  }

  /** The per-group counters; a group without `shorts` contributes nothing. */
  function GroupStats<G, R>(g: GroupRecord<G, R>): Stats
  {
    if g.shorts.None? then Stats(0, 0, 0, 0, 0)
    else
      var s := g.shorts.value;
      Stats(1, |s|, TagsBefore(s), TagsAfter(s), TagsAdded(s))
  }

  /** The five counters summed over the groups of `data` named in `keys`. */
  ghost function SumStats<G, R>(data: map<string, GroupRecord<G, R>>, keys: set<string>): Stats
  {
    Stats(
      SumOver(keys, g => if g in data then GroupStats(data[g]).groups else 0),
      SumOver(keys, g => if g in data then GroupStats(data[g]).shorts else 0),
      SumOver(keys, g => if g in data then GroupStats(data[g]).hashtagsBefore else 0),
      SumOver(keys, g => if g in data then GroupStats(data[g]).hashtagsAfter else 0),
      SumOver(keys, g => if g in data then GroupStats(data[g]).hashtagsAdded else 0))
  }

  lemma SumStatsRemove<G, R>(data: map<string, GroupRecord<G, R>>, keys: set<string>, k: string)
    requires k in keys && k in data
    ensures var s, r, e := SumStats(data, keys), SumStats(data, keys - {k}), GroupStats(data[k]);
      && s.groups == r.groups + e.groups && s.shorts == r.shorts + e.shorts
      && s.hashtagsBefore == r.hashtagsBefore + e.hashtagsBefore
      && s.hashtagsAfter == r.hashtagsAfter + e.hashtagsAfter
      && s.hashtagsAdded == r.hashtagsAdded + e.hashtagsAdded
  {
    SumOverRemove(keys, g => if g in data then GroupStats(data[g]).groups else 0, k);
    SumOverRemove(keys, g => if g in data then GroupStats(data[g]).shorts else 0, k);
    SumOverRemove(keys, g => if g in data then GroupStats(data[g]).hashtagsBefore else 0, k);
    SumOverRemove(keys, g => if g in data then GroupStats(data[g]).hashtagsAfter else 0, k);
    SumOverRemove(keys, g => if g in data then GroupStats(data[g]).hashtagsAdded else 0, k);
  }

  /** Over any set of groups, the counts after are the counts before plus the
      additions. */
  lemma {:induction false} StatsBalance<G, R>(data: map<string, GroupRecord<G, R>>, keys: set<string>)
    requires keys <= data.Keys
    ensures SumStats(data, keys).hashtagsAfter == SumStats(data, keys).hashtagsBefore + SumStats(data, keys).hashtagsAdded
    decreases keys
  {
    if keys != {} {
      var k :| k in keys;
      SumStatsRemove(data, keys, k);
      StatsBalance(data, keys - {k});
      if data[k].shorts.Some? {
        TagsBalance(data[k].shorts.value);
      }
    }
  }

  /** `process_hashtags`: the processed copy and the printed counters. */
  method ProcessHashtags<G, R>(jsonData: map<string, GroupRecord<G, R>>)
    returns (processedData: map<string, GroupRecord<G, R>>, stats: Stats)
    ensures processedData.Keys == jsonData.Keys
    ensures forall g :: g in jsonData ==> processedData[g] == ProcessGroup(jsonData[g])
    ensures stats == SumStats(jsonData, jsonData.Keys)
    ensures stats.hashtagsAfter == stats.hashtagsBefore + stats.hashtagsAdded
  {
    processedData := jsonData;
    var totalGroups, totalShorts, totalBefore, totalAfter, totalAdded := 0, 0, 0, 0, 0;
    var todo := jsonData.Keys;
    while todo != {}
      invariant todo <= jsonData.Keys && processedData.Keys == jsonData.Keys
      invariant forall g :: g in jsonData && g !in todo ==> processedData[g] == ProcessGroup(jsonData[g])
      invariant forall g :: g in todo ==> processedData[g] == jsonData[g]
      invariant var done := SumStats(jsonData, jsonData.Keys - todo);
        totalGroups == done.groups && totalShorts == done.shorts && totalBefore == done.hashtagsBefore
        && totalAfter == done.hashtagsAfter && totalAdded == done.hashtagsAdded
      decreases todo
    {
      var groupName :| groupName in todo;
      var groupInfo := processedData[groupName];
      SumStatsRemove(jsonData, jsonData.Keys - todo + {groupName}, groupName);
      assert jsonData.Keys - todo + {groupName} - {groupName} == jsonData.Keys - todo;
      assert jsonData.Keys - (todo - {groupName}) == jsonData.Keys - todo + {groupName};
      if groupInfo.shorts.Some? {
        totalGroups := totalGroups + 1;
        totalShorts := totalShorts + |groupInfo.shorts.value|;
        var shorts, before, after, added := ProcessGroupShorts(groupInfo.shorts.value);
        totalBefore, totalAfter, totalAdded := totalBefore + before, totalAfter + after, totalAdded + added;
        processedData := processedData[groupName := groupInfo.(shorts := Some(shorts))];
      }
      todo := todo - {groupName};
    }
    assert jsonData.Keys - todo == jsonData.Keys;
    stats := Stats(totalGroups, totalShorts, totalBefore, totalAfter, totalAdded);
    StatsBalance(jsonData, jsonData.Keys);
  }

  /** Groups without a `shorts` key are left exactly as they were. */
  lemma GroupsWithoutShortsUntouched<G, R>(g: GroupRecord<G, R>)
    requires g.shorts.None?
    ensures ProcessGroup(g) == g && GroupStats(g) == Stats(0, 0, 0, 0, 0)
  {
  }

  /** A processed group keeps its other fields and its number of shorts, and
      every short in it is the processed original. */
  lemma ProcessGroupShape<G, R>(g: GroupRecord<G, R>)
    ensures ProcessGroup(g).rest == g.rest
    ensures ProcessGroup(g).shorts.Some? <==> g.shorts.Some?
    ensures g.shorts.Some? ==> (|ProcessGroup(g).shorts.value| == |g.shorts.value|
      && forall i :: 0 <= i < |g.shorts.value| ==> ProcessGroup(g).shorts.value[i] == ProcessShort(g.shorts.value[i]))
  {
    if g.shorts.Some? {
      ProcessShortsPointwise(g.shorts.value);
    }
  }
}
