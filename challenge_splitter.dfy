/** The challenge splitter: the classifier `is_challenge_short` and the loop of
    `main` that splits every group's shorts into a challenge dataset and a
    non-challenge dataset.

    A short is a challenge when one of its hashtags resolves, through the
    global `name_to_group` table, to the short's own group and another
    resolves to a different group. Both the classifier and the partition are
    imperative methods proved against the predicates and functions below. */
module ChallengeSplitter {
  import opened Common
  import opened Text
  import opened Dataset

  // ---- the classifier (source lines 40-72) ----

  /** `tag.lower().strip('#')`. */
  function CleanTag(tag: string): string
  {
    Strip(Lower(tag), '#')
  }

  /** `clean_tags`: every hashtag cleaned, in order. */
  function CleanTags(tags: seq<string>): seq<string>
  {
    seq(|tags|, i requires 0 <= i < |tags| => CleanTag(tags[i]))
  }

  /** Some cleaned tag is a key of `nameToGroup` that maps to `g`. */
  predicate MentionsGroup(clean: seq<string>, nameToGroup: map<string, string>, g: string)
  {
    exists i :: 0 <= i < |clean| && clean[i] in nameToGroup && nameToGroup[clean[i]] == g
  }

  /** Some cleaned tag is a key of `nameToGroup` that maps to a group other
      than `g`. */
  predicate MentionsOtherGroup(clean: seq<string>, nameToGroup: map<string, string>, g: string)
  {
    exists i :: 0 <= i < |clean| && clean[i] in nameToGroup && nameToGroup[clean[i]] != g
  }

  /** The classification rule. `group_to_members` plays no part in it. */
  predicate IsChallenge(tags: seq<string>, nameToGroup: map<string, string>, currentGroup: string)
  {
    var clean := CleanTags(tags);
    MentionsGroup(clean, nameToGroup, Lower(currentGroup)) && MentionsOtherGroup(clean, nameToGroup, Lower(currentGroup))
  }

  /** `is_challenge_short`. The set of mentioned groups is collected, as in the
      source, and not used. */
  method IsChallengeShort(hashtags: seq<string>, nameToGroup: map<string, string>,
                          groupToMembers: map<string, set<string>>, currentGroup: string)
    returns (r: bool)
    ensures r <==> IsChallenge(hashtags, nameToGroup, currentGroup)
  {
    var cleanTags := CleanTags(hashtags);
    var current := Lower(currentGroup);
    var foundOwnGroup, foundOtherGroup := false, false;
    var mentionedGroups: set<string> := {};
    for i := 0 to |cleanTags|
      invariant foundOwnGroup <==> exists j :: 0 <= j < i && cleanTags[j] in nameToGroup && nameToGroup[cleanTags[j]] == current
      invariant foundOtherGroup <==> exists j :: 0 <= j < i && cleanTags[j] in nameToGroup && nameToGroup[cleanTags[j]] != current
    {
      var tag := cleanTags[i];
      if tag in nameToGroup {
        var group := nameToGroup[tag];
        mentionedGroups := mentionedGroups + {group};
        if group == current {
          foundOwnGroup := true;
        } else {
          foundOtherGroup := true;
        }
      }
    }
    r := foundOwnGroup && foundOtherGroup;
  }

  /** A short without hashtags is never a challenge. */
  lemma NoTagsNoChallenge(nameToGroup: map<string, string>, currentGroup: string)
    ensures !IsChallenge([], nameToGroup, currentGroup)
  {
  }

  /** Tags whose cleaned text is no key of `name_to_group` have no effect. */
  lemma UnknownTagsIgnored(tags: seq<string>, extra: seq<string>, nameToGroup: map<string, string>, currentGroup: string)
    requires forall i :: 0 <= i < |extra| ==> CleanTag(extra[i]) !in nameToGroup
    ensures IsChallenge(tags + extra, nameToGroup, currentGroup) == IsChallenge(tags, nameToGroup, currentGroup)
  {
    var all, c, ca := tags + extra, CleanTags(tags), CleanTags(tags + extra);
    assert forall i :: 0 <= i < |c| ==> ca[i] == c[i];
    forall i | |c| <= i < |ca| ensures ca[i] !in nameToGroup {
      assert all[i] == extra[i - |tags|];
    }
  }

  /** Adding tags (in any order, with any repetition) can turn a non-challenge
      into a challenge but never the reverse. */
  lemma MoreTagsMonotone(tags: seq<string>, more: seq<string>, nameToGroup: map<string, string>, currentGroup: string)
    requires forall i :: 0 <= i < |tags| ==> tags[i] in more
    ensures IsChallenge(tags, nameToGroup, currentGroup) ==> IsChallenge(more, nameToGroup, currentGroup)
  {
    if IsChallenge(tags, nameToGroup, currentGroup) {
      var g := Lower(currentGroup);
      var c, cm := CleanTags(tags), CleanTags(more);
      var i :| 0 <= i < |c| && c[i] in nameToGroup && nameToGroup[c[i]] == g;
      var j :| 0 <= j < |c| && c[j] in nameToGroup && nameToGroup[c[j]] != g;
      var i' :| 0 <= i' < |more| && more[i'] == tags[i];
      var j' :| 0 <= j' < |more| && more[j'] == tags[j];
      assert cm[i'] == c[i] && cm[j'] == c[j];
      assert MentionsGroup(cm, nameToGroup, g);
      assert MentionsOtherGroup(cm, nameToGroup, g);
    }
  }

  /** Only the set of tags matters: order and duplicates have no effect. */
  lemma SameTagsSameResult(tags: seq<string>, others: seq<string>, nameToGroup: map<string, string>, currentGroup: string)
    requires forall t :: t in tags <==> t in others
    ensures IsChallenge(tags, nameToGroup, currentGroup) == IsChallenge(others, nameToGroup, currentGroup)
  {
    MoreTagsMonotone(tags, others, nameToGroup, currentGroup);
    MoreTagsMonotone(others, tags, nameToGroup, currentGroup);
  }

  /** Cleaning removes every leading and trailing `#` and lower-cases. */
  lemma CleanTagShape(tag: string)
    ensures var c := CleanTag(tag); c != [] ==> c[0] != '#' && c[|c| - 1] != '#'
    ensures forall k :: 0 <= k < |CleanTag(tag)| ==> !IsAsciiUpper(CleanTag(tag)[k])
  {
    var l := Lower(tag);
    var c := CleanTag(tag);
    LowerPointwise(tag);
    StripShape(l, '#');
    var i, j :| 0 <= i <= j <= |l| && c == l[i..j];
    assert forall k :: 0 <= k < |c| ==> c[k] == l[i + k];
  }

  // ---- the partition (source lines 83-114 and 127-128) ----

  /** The shorts of `shorts`, in order, whose classification is `challenge`. */
  function Select(shorts: seq<Short>, nameToGroup: map<string, string>, group: string, challenge: bool): seq<Short>
  {
    if shorts == [] then []
    else
      var last := shorts[|shorts| - 1];
      Select(shorts[..|shorts| - 1], nameToGroup, group, challenge)
        + (if IsChallenge(last.hashtags, nameToGroup, group) == challenge then [last] else [])
  }

  /** An output entry for `e`: the same Korean name, channel id and channel
      URL, and the selected shorts with their count. */
  function Part(e: GroupEntry, shorts: seq<Short>, nameToGroup: map<string, string>, group: string, challenge: bool): GroupEntry
  {
    var kept := Select(shorts, nameToGroup, group, challenge);
    GroupEntry(e.koreanName, e.channelId, e.channelUrl, |kept|, kept)
  }

  /** The challenge (`challenge == true`) or non-challenge dataset. */
  function Partition(data: Shorts, nameToGroup: map<string, string>, challenge: bool): (r: Shorts)
    ensures forall g :: g in r <==> g in data && Select(data[g].shorts, nameToGroup, g, challenge) != []
    ensures forall g :: g in r ==> r[g].shortsCount == |r[g].shorts| > 0
    ensures forall g :: g in r ==> r[g].shorts == Select(data[g].shorts, nameToGroup, g, challenge)
    ensures forall g :: g in r ==>
      r[g].koreanName == data[g].koreanName && r[g].channelId == data[g].channelId && r[g].channelUrl == data[g].channelUrl
  {
    map g | g in data && |Select(data[g].shorts, nameToGroup, g, challenge)| > 0 :: Part(data[g], data[g].shorts, nameToGroup, g, challenge)
  }

  /** `Select` keeps the order of its input: it distributes over
      concatenation. */
  lemma {:induction false} SelectConcat(a: seq<Short>, b: seq<Short>, nameToGroup: map<string, string>, group: string, challenge: bool)
    ensures Select(a + b, nameToGroup, group, challenge)
         == Select(a, nameToGroup, group, challenge) + Select(b, nameToGroup, group, challenge)
    decreases |b|
  {
    if b != [] {
      var b' := b[..|b| - 1];
      assert (a + b)[..|a + b| - 1] == a + b';
      SelectConcat(a, b', nameToGroup, group, challenge);
    } else {
      assert a + b == a;
    }
  }

  /** Every short lands in exactly one of the two outputs: as multisets the
      two selections add up to the input, and so do their lengths. */
  lemma {:induction false} SelectSplits(shorts: seq<Short>, nameToGroup: map<string, string>, group: string)
    ensures multiset(Select(shorts, nameToGroup, group, true)) + multiset(Select(shorts, nameToGroup, group, false)) == multiset(shorts)
    ensures |Select(shorts, nameToGroup, group, true)| + |Select(shorts, nameToGroup, group, false)| == |shorts|
  {
    if shorts != [] {
      var init, last := shorts[..|shorts| - 1], shorts[|shorts| - 1];
      SelectSplits(init, nameToGroup, group);
      assert shorts == init + [last];
      SplitStep(init, last, Select(init, nameToGroup, group, true), Select(init, nameToGroup, group, false),
        Select(shorts, nameToGroup, group, true), Select(shorts, nameToGroup, group, false),
        IsChallenge(last.hashtags, nameToGroup, group));
    }
  }

  /** One more short goes to exactly one side of a split. */
  lemma SplitStep(init: seq<Short>, last: Short, yes0: seq<Short>, no0: seq<Short>, yes: seq<Short>, no: seq<Short>, c: bool)
    requires multiset(yes0) + multiset(no0) == multiset(init) && |yes0| + |no0| == |init|
    requires yes == yes0 + (if c then [last] else []) && no == no0 + (if !c then [last] else [])
    ensures multiset(yes) + multiset(no) == multiset(init + [last]) && |yes| + |no| == |init| + 1
  {
  }

  /** A short is selected exactly when it is in the input and classified so. */
  lemma {:induction false} SelectMembers(shorts: seq<Short>, nameToGroup: map<string, string>, group: string, challenge: bool, s: Short)
    ensures s in Select(shorts, nameToGroup, group, challenge) <==> s in shorts && IsChallenge(s.hashtags, nameToGroup, group) == challenge
  {
    if shorts != [] {
      var init := shorts[..|shorts| - 1];
      SelectMembers(init, nameToGroup, group, challenge, s);
      assert shorts == init + [shorts[|shorts| - 1]];
    }
  }

  /** The two printed totals add up to the number of input shorts. */
  lemma TotalsAddUp(data: Shorts, nameToGroup: map<string, string>)
    ensures TotalCount(Partition(data, nameToGroup, true)) + TotalCount(Partition(data, nameToGroup, false)) == TotalShorts(data)
  {
    var yes, no := Partition(data, nameToGroup, true), Partition(data, nameToGroup, false);
    var fy := g => if g in yes then yes[g].shortsCount else 0;
    var fn := g => if g in no then no[g].shortsCount else 0;
    var ft := g => if g in data then |data[g].shorts| else 0;
    SumOverDropZeros(data.Keys, yes.Keys, fy);
    SumOverDropZeros(data.Keys, no.Keys, fn);
    forall g | g in data.Keys ensures fy(g) + fn(g) == ft(g) {
      SelectSplits(data[g].shorts, nameToGroup, g);
    }
    SumOverAdd(data.Keys, fy, fn, ft);
  }

  /** The entries of `d` whose count is positive (the two dict
      comprehensions after the loop). */
  function NonEmpty(d: Shorts): (r: Shorts)
    ensures forall g :: g in r <==> g in d && d[g].shortsCount > 0
    ensures forall g :: g in r ==> r[g] == d[g]
  {
    map g | g in d && d[g].shortsCount > 0 :: d[g]
  }

  /** Dropping the groups whose count is zero keeps the total count, so the
      filters after the loop do not change the totals. */
  lemma NonEmptyTotal(d: Shorts)
    requires forall g :: g in d ==> d[g].shortsCount >= 0
    ensures TotalCount(NonEmpty(d)) == TotalCount(d)
  {
    var r := NonEmpty(d);
    var fd := g => if g in d then d[g].shortsCount else 0;
    var fr := g => if g in r then r[g].shortsCount else 0;
    SumOverDropZeros(d.Keys, r.Keys, fd);
    SumOverCongruent(r.Keys, fd, fr);
  }

  /** Building the per-group entries for every group and then dropping the
      empty ones gives `Partition`. */
  lemma NonEmptyParts(data: Shorts, nameToGroup: map<string, string>, challenge: bool, d: Shorts)
    requires d.Keys == data.Keys
    requires forall g :: g in d ==> d[g] == Part(data[g], data[g].shorts, nameToGroup, g, challenge)
    ensures NonEmpty(d) == Partition(data, nameToGroup, challenge)
  {
    var l, r := NonEmpty(d), Partition(data, nameToGroup, challenge);
    assert l.Keys == r.Keys;
    forall g | g in l ensures l[g] == r[g] {
    }
  }

  /** The loop of `main` together with the two zero-count filters and the two
      totals. */
  method SplitDataset(data: Shorts, nameToGroup: map<string, string>, groupToMembers: map<string, set<string>>)
    returns (challengeShorts: Shorts, nonChallengeShorts: Shorts, totalChallenge: int, totalNonChallenge: int)
    ensures challengeShorts == Partition(data, nameToGroup, true)
    ensures nonChallengeShorts == Partition(data, nameToGroup, false)
    ensures totalChallenge == TotalCount(challengeShorts)
    ensures totalNonChallenge == TotalCount(nonChallengeShorts)
    ensures totalChallenge + totalNonChallenge == TotalShorts(data)
  {
    var yes, no := map[], map[];
    var todo := data.Keys;
    while todo != {}
      invariant todo <= data.Keys
      invariant yes.Keys == no.Keys == data.Keys - todo
      invariant forall g :: g in yes ==> yes[g] == Part(data[g], data[g].shorts, nameToGroup, g, true)
      invariant forall g :: g in no ==> no[g] == Part(data[g], data[g].shorts, nameToGroup, g, false)
      decreases todo
    {
      var group :| group in todo;
      var y, n := SplitGroup(data[group], nameToGroup, groupToMembers, group);
      yes, no := yes[group := y], no[group := n];
      todo := todo - {group};
    }
    NonEmptyParts(data, nameToGroup, true, yes);
    NonEmptyParts(data, nameToGroup, false, no);
    challengeShorts, nonChallengeShorts := NonEmpty(yes), NonEmpty(no);
    totalChallenge := SumCounts(challengeShorts);
    totalNonChallenge := SumCounts(nonChallengeShorts);
    TotalsAddUp(data, nameToGroup);
  }

  /** One group of the loop: each short is classified and appended to the
      challenge or the non-challenge entry, whose count goes up by one. The
      source's in-place appends and increments are made on local entries. */
  method SplitGroup(groupData: GroupEntry, nameToGroup: map<string, string>,
                    groupToMembers: map<string, set<string>>, group: string)
    returns (yes: GroupEntry, no: GroupEntry)
    ensures yes == Part(groupData, groupData.shorts, nameToGroup, group, true)
    ensures no == Part(groupData, groupData.shorts, nameToGroup, group, false)
  {
    yes := GroupEntry(groupData.koreanName, groupData.channelId, groupData.channelUrl, 0, []);
    no := GroupEntry(groupData.koreanName, groupData.channelId, groupData.channelUrl, 0, []);
    for j := 0 to |groupData.shorts|
      invariant yes == Part(groupData, groupData.shorts[..j], nameToGroup, group, true)
      invariant no == Part(groupData, groupData.shorts[..j], nameToGroup, group, false)
    {
      assert groupData.shorts[..j + 1][..j] == groupData.shorts[..j];
      var short := groupData.shorts[j];
      var isChallenge := IsChallengeShort(short.hashtags, nameToGroup, groupToMembers, group);
      if isChallenge {
        yes := yes.(shorts := yes.shorts + [short], shortsCount := yes.shortsCount + 1);
      } else {
        no := no.(shorts := no.shorts + [short], shortsCount := no.shortsCount + 1);
      }
    }
    assert groupData.shorts[..|groupData.shorts|] == groupData.shorts;
  }

  /** `sum(data["shorts_count"] for data in d.values())`. */
  method SumCounts(d: Shorts) returns (total: int)
    ensures total == TotalCount(d)
  {
    var f := g => if g in d then d[g].shortsCount else 0;
    total := 0;
    var todo := d.Keys;
    while todo != {}
      invariant todo <= d.Keys
      invariant total + SumOver(todo, f) == SumOver(d.Keys, f)
      decreases todo
    {
      var g :| g in todo;
      SumOverRemove(todo, f, g);
      total := total + d[g].shortsCount;
      todo := todo - {g};
    }
  }
}
