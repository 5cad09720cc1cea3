/** The records the scripts pass between each other as JSON: one short-form
    video, and one group's entry in a shorts dataset (a JSON object keyed by
    group name, modelled as a map). */
module Dataset {
  import opened Common

  /** A fetched short. `uploadTime` is a timestamp (the formatted date text
      the fetcher writes is not modelled); counts are whole numbers. */
  datatype Short = Short(
    videoId: string,
    title: string,
    channel: string,
    uploadTime: int,
    views: int,
    likes: int,
    comments: int,
    hashtags: seq<string>,
    url: string)

  /** One group of a shorts dataset. `channelUrl` is `None` when the roster
      row had no channel column (JSON `null`). */
  datatype GroupEntry = GroupEntry(
    koreanName: string,
    channelId: string,
    channelUrl: Option<string>,
    shortsCount: int,
    shorts: seq<Short>)

  type Shorts = map<string, GroupEntry>

  /** The number of shorts a dataset holds, counting the lists themselves. */
  ghost function TotalShorts(data: Shorts): int
  {
    SumOver(data.Keys, g => if g in data then |data[g].shorts| else 0)
  }

  /** The sum of the recorded `shorts_count` fields. */
  ghost function TotalCount(data: Shorts): int
  {
    SumOver(data.Keys, g => if g in data then data[g].shortsCount else 0)
  }
}
