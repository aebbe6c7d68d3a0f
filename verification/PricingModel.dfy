/** Price snapshots of the historical pricing recovery and the naive rule for the price in force. */
module PricingModel {
  import opened Prelude

  datatype Price = Price(
    inputPerM: real, outputPerM: real,
    cacheReadPerM: Option<real>, cacheCreatePerM: Option<real>,
    inputAbove200kPerM: Option<real>, outputAbove200kPerM: Option<real>,
    fastMultiplier: Option<real>, details: string)

  function FastMultiplier(p: Price): real {
    if p.fastMultiplier.Some? then p.fastMultiplier.value else 1.0
  }

  /** The price with its default multiplier written out. */
  function Normalized(p: Price): Price { p.(fastMultiplier := Some(FastMultiplier(p))) }

  predicate SamePricing(left: Price, right: Price) {
    && left.inputPerM == right.inputPerM
    && left.outputPerM == right.outputPerM
    && left.cacheReadPerM == right.cacheReadPerM
    && left.cacheCreatePerM == right.cacheCreatePerM
    && left.inputAbove200kPerM == right.inputAbove200kPerM
    && left.outputAbove200kPerM == right.outputAbove200kPerM
    && FastMultiplier(left) == FastMultiplier(right)
    && left.details == right.details
  }

  /** What a snapshot's price list resolves a model to: the source's own model name and its price. */
  datatype Resolved = Resolved(sourceModelId: string, price: Price)

  /** A commit of the price list; no time when its date cannot be read. */
  datatype Ref = Ref(sha: string, committedAt: Option<int>)

  /** `pricing` gives, for every model that the snapshot prices, what it resolves to. */
  datatype Snapshot = Snapshot(ref: Ref, pricing: map<string, Resolved>)

  function Resolve(snapshot: Snapshot, model: string): Option<Resolved> {
    if model in snapshot.pricing then Some(snapshot.pricing[model]) else None
  }

  /** A source model with its normalised price. */
  datatype Quote = Quote(sourceModelId: string, price: Price)

  function QuoteOf(resolved: Option<Resolved>): Option<Quote> {
    match resolved
    case None => None
    case Some(r) => Some(Quote(r.sourceModelId, Normalized(r.price)))
  }

  /** Two resolutions carry the same quote exactly when the source calls them unchanged. */
  lemma SameQuote(a: Resolved, b: Resolved)
    ensures QuoteOf(Some(a)) == QuoteOf(Some(b)) <==> a.sourceModelId == b.sourceModelId && SamePricing(a.price, b.price)
  {
  }

  ghost predicate Chronological(snapshots: seq<Snapshot>) {
    && (forall k :: 0 <= k < |snapshots| ==> snapshots[k].ref.committedAt.Some?)
    && forall i, j :: 0 <= i < j < |snapshots| ==>
         snapshots[i].ref.committedAt.value < snapshots[j].ref.committedAt.value
  }

  /** The naive rule: the quote of the latest snapshot at or before `t`. */
  ghost function InForce(snapshots: seq<Snapshot>, model: string, t: int): Option<Quote>
    requires forall k :: 0 <= k < |snapshots| ==> snapshots[k].ref.committedAt.Some?
  {
    if snapshots == [] then None
    else
      var last := snapshots[|snapshots| - 1];
      if last.ref.committedAt.value <= t then QuoteOf(Resolve(last, model))
      else InForce(snapshots[..|snapshots| - 1], model, t)
  }

  /** A snapshot committed before the range counts from the start of the range. */
  function Boundary(rangeFrom: int, committedAt: int): int { Max(rangeFrom, committedAt) }
}
