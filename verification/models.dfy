/** The stored record of one short link, and the sum of its daily histogram. */
module Models {

  /** Visit counts per calendar day, keyed by the `YYYY-MM-DD` text of the day. */
  type Histogram = map<string, nat>

  /** One registered link: its slug, where it points, the total visit count and
      the visit count of each day. Counters are unbounded naturals. */
  datatype Link = Link(slug: string, target: string, hits: nat, histogram: Histogram)

  /** The sum of all the values of a histogram. */
  ghost function Total(h: Histogram): nat
    decreases |h|
  {
    if |h| == 0 then 0
    else
      var day := Pick(h.Keys);
      h[day] + Total(h - {day})
  }

  /** Some element of a non-empty set of days; which one is left open. */
  ghost function Pick(days: set<string>): (day: string)
    requires days != {}
    ensures day in days
  {
    var day :| day in days; day
  }

  /** The record invariant: the total equals the sum of the daily counts. */
  ghost predicate Consistent(link: Link)
  {
    link.hits == Total(link.histogram)
  }

  /** The count a histogram holds for a day; a day never visited counts zero. */
  function CountOn(h: Histogram, day: string): (n: nat)
    ensures day in h ==> n == h[day]
    ensures day !in h ==> n == 0
  {
    if day in h then h[day] else 0
  }

  /** Any day can be taken out of the sum first, whichever one `Total` picks. */
  lemma {:induction false} TotalRemove(h: Histogram, day: string)
    requires day in h
    ensures Total(h) == h[day] + Total(h - {day})
    decreases |h|
  {
    assert h.Keys != {};
    var picked := Pick(h.Keys);
    if picked != day {
      var both := h - {picked} - {day};
      assert both == h - {day} - {picked};
      calc {
        Total(h);
        h[picked] + Total(h - {picked});
        { TotalRemove(h - {picked}, day); }
        h[picked] + h[day] + Total(both);
        { TotalRemove(h - {day}, picked); }
        h[day] + Total(h - {day});
      }
    }
  }

  /** Setting one day's count changes the sum by exactly the difference. */
  lemma {:induction false} TotalUpdate(h: Histogram, day: string, v: nat)
    ensures Total(h[day := v]) + CountOn(h, day) == Total(h) + v
  {
    var h' := h[day := v];
    TotalRemove(h', day);
    if day in h {
      TotalRemove(h, day);
      assert h' - {day} == h - {day};
    } else {
      assert h' - {day} == h;
    }
  }
}
