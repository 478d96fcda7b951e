/** The projection of a stored record onto its API shape, where the daily
    histogram becomes a list of (date, count) entries. */
module Translation {
  import opened Models

  /** The visits of one day. */
  datatype DailyHits = DailyHits(date: string, hits: nat)

  /** A link as the API reports it. */
  datatype LinkDetails = LinkDetails(slug: string, target: string, hits: nat, stats: seq<DailyHits>)

  /** The dates an entry list mentions. */
  function Dates(stats: seq<DailyHits>): set<string>
  {
    set i | 0 <= i < |stats| :: stats[i].date
  }

  /** The sum of the counts of an entry list. */
  function SumHits(stats: seq<DailyHits>): nat
  {
    if |stats| == 0 then 0 else SumHits(stats[..|stats| - 1]) + stats[|stats| - 1].hits
  }

  lemma AppendEntry(stats: seq<DailyHits>, entry: DailyHits)
    ensures Dates(stats + [entry]) == Dates(stats) + {entry.date}
    ensures SumHits(stats + [entry]) == SumHits(stats) + entry.hits
  {
    var s := stats + [entry];
    assert s[..|stats|] == stats;
    assert s[|stats|] == entry;
    forall d | d in Dates(s)
      ensures d in Dates(stats) + {entry.date}
    {
      var i :| 0 <= i < |s| && s[i].date == d;
      if i < |stats| {
        assert stats[i] == s[i];
      }
    }
    forall d | d in Dates(stats)
      ensures d in Dates(s)
    {
      var i :| 0 <= i < |stats| && stats[i].date == d;
      assert s[i] == stats[i];
    }
  }

  /** Removing a present day from a histogram shrinks it by one and keeps the
      other counts. */
  lemma RemoveDay(rest: Histogram, date: string)
    requires date in rest
    ensures |rest - {date}| == |rest| - 1
    ensures (rest - {date}).Keys == rest.Keys - {date}
  {
  }

  /** The days of `h` are split between the dates `stats` lists and the
      remaining days in `rest`, which keep their counts from `h`. */
  ghost predicate Split(h: Histogram, stats: seq<DailyHits>, rest: Histogram)
  {
    && rest.Keys <= h.Keys
    && (forall d :: d in rest ==> rest[d] == h[d])
    && |stats| + |rest| == |h|
    && Dates(stats) + rest.Keys == h.Keys
  }

  /** Each entry of `stats` is a day of `h` not in `rest`, with its count from
      `h`, and no day is listed twice. */
  ghost predicate Entries(h: Histogram, stats: seq<DailyHits>, rest: Histogram)
  {
    && (forall i :: 0 <= i < |stats| ==>
          stats[i].date in h && stats[i].date !in rest && stats[i].hits == h[stats[i].date])
    && (forall i, j :: 0 <= i < j < |stats| ==> stats[i].date != stats[j].date)
  }

  /** `stats` lists, once each and with their counts, exactly the days of `h`
      missing from `rest`. */
  ghost predicate Covered(h: Histogram, stats: seq<DailyHits>, rest: Histogram)
  {
    Split(h, stats, rest) && Entries(h, stats, rest)
  }

  /** The loop state of `DbLinkToProto`: the days are split between the listed
      entries and the remaining ones, and so is the sum of their counts. */
  ghost predicate Listed(h: Histogram, stats: seq<DailyHits>, rest: Histogram)
  {
    Covered(h, stats, rest) && SumHits(stats) + Total(rest) == Total(h)
  }

  lemma SplitOneMore(h: Histogram, stats: seq<DailyHits>, rest: Histogram, date: string)
    requires Split(h, stats, rest)
    requires date in rest
    ensures Split(h, stats + [DailyHits(date, rest[date])], rest - {date})
  {
    RemoveDay(rest, date);
    AppendEntry(stats, DailyHits(date, rest[date]));
  }

  lemma EntriesOneMore(h: Histogram, stats: seq<DailyHits>, rest: Histogram, date: string)
    requires Split(h, stats, rest) && Entries(h, stats, rest)
    requires date in rest
    ensures Entries(h, stats + [DailyHits(date, rest[date])], rest - {date})
  {
    var entry := DailyHits(date, rest[date]);
    var stats', rest' := stats + [entry], rest - {date};
    forall i | 0 <= i < |stats'|
      ensures stats'[i].date in h && stats'[i].date !in rest' && stats'[i].hits == h[stats'[i].date]
    {
      if i < |stats| {
        assert stats'[i] == stats[i];
      }
    }
    forall i, j | 0 <= i < j < |stats'|
      ensures stats'[i].date != stats'[j].date
    {
      assert stats'[i] == stats[i];
      if j < |stats| {
        assert stats'[j] == stats[j];
      }
    }
  }

  lemma CoverOneMore(h: Histogram, stats: seq<DailyHits>, rest: Histogram, date: string)
    requires Covered(h, stats, rest)
    requires date in rest
    ensures Covered(h, stats + [DailyHits(date, rest[date])], rest - {date})
  {
    SplitOneMore(h, stats, rest, date);
    EntriesOneMore(h, stats, rest, date);
  }

  /** Listing one more remaining day keeps the loop state. */
  lemma ListOneMore(h: Histogram, stats: seq<DailyHits>, rest: Histogram, date: string)
    requires Listed(h, stats, rest)
    requires date in rest
    ensures Listed(h, stats + [DailyHits(date, rest[date])], rest - {date})
  {
    CoverOneMore(h, stats, rest, date);
    TotalRemove(rest, date);
    AppendEntry(stats, DailyHits(date, rest[date]));
  }

  /** `DbLinkToProto`: copies slug, target and total, and lists every histogram
      day once with its count. Map iteration order is left open, so each round
      picks any day not yet listed. */
  method DbLinkToProto(link: Link) returns (r: LinkDetails)
    ensures r.slug == link.slug && r.target == link.target && r.hits == link.hits
    ensures |r.stats| == |link.histogram|
    ensures Dates(r.stats) == link.histogram.Keys
    ensures forall i :: 0 <= i < |r.stats| ==>
              r.stats[i].date in link.histogram && r.stats[i].hits == link.histogram[r.stats[i].date]
    ensures forall i, j :: 0 <= i < j < |r.stats| ==> r.stats[i].date != r.stats[j].date
    ensures SumHits(r.stats) == Total(link.histogram)
    ensures Consistent(link) ==> SumHits(r.stats) == r.hits
  {
    var h := link.histogram;
    var stats: seq<DailyHits> := [];
    var rest := h;
    while rest.Keys != {}
      invariant Listed(h, stats, rest)
      decreases |rest|
    {
      var date :| date in rest;
      ListOneMore(h, stats, rest, date);
      stats := stats + [DailyHits(date, rest[date])];
      rest := rest - {date};
    }
    assert rest == map[];
    r := LinkDetails(link.slug, link.target, link.hits, stats);
  }
}
