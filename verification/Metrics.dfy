/** The metric catalogue the analytics code consults (apps/analytics/metrics.py). */
module Metrics {
  datatype Kind = Count | Total | Minutes | Percent

  /** The registered metric keys; any other key is unregistered. */
  datatype Metric =
    | Impressions | Reach | Views | Plays | Likes | Reactions | Comments | Replies | Shares | Reposts | Saves
    | Clicks | Opens | Outbound | ProfileVisits | Follows | Followers | Subscribers | WatchTime | AvgViewPct
    | Engagement | Unregistered(name: string)

  /** A key without an entry counts as a plain count. */
  function KindOf(m: Metric): Kind {
    match m
    case Followers => Total
    case Subscribers => Total
    case WatchTime => Minutes
    case AvgViewPct => Percent
    case Engagement => Percent
    case _ => Count
  }

  predicate AccountOnly(m: Metric) {
    m.Follows? || m.Followers? || m.Subscribers?
  }

  /** Metrics in the numerator of the engagement rate. */
  predicate IsEngagementPart(m: Metric) {
    m.Likes? || m.Reactions? || m.Comments? || m.Replies? || m.Shares? || m.Reposts? || m.Saves? || m.Clicks?
    || m.Outbound?
  }

  /** Candidate denominators, the first one present wins. */
  const DENOMINATORS: seq<Metric> := [Reach, Impressions, Views, Plays]

  /** Which metrics may be rebuilt by summing per-post deltas. */
  predicate SupportsPostFallback(m: Metric) {
    if m.Unregistered? then false
    else if AccountOnly(m) || m.Reach? then false
    else KindOf(m) in {Count, Minutes}
  }

  /** The catalogue, metric by metric: the kinds, the metrics that posts can stand in for, and the numerator. */
  lemma Catalogue(m: Metric)
    ensures KindOf(m) == Total <==> m in {Followers, Subscribers}
    ensures KindOf(m) == Minutes <==> m == WatchTime
    ensures KindOf(m) == Percent <==> m in {AvgViewPct, Engagement}
    ensures SupportsPostFallback(m) <==>
      m in {Impressions, Views, Plays, Likes, Reactions, Comments, Replies, Shares, Reposts, Saves, Clicks, Opens,
            Outbound, ProfileVisits, WatchTime}
    ensures IsEngagementPart(m) <==>
      m in {Likes, Reactions, Comments, Replies, Shares, Reposts, Saves, Clicks, Outbound}
  {
  }
}
