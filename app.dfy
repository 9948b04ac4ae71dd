/**
 * The two pieces of client logic in the app that touch the ledger: the
 * connection-cost quote shown to a new consumer (nearest center and a
 * price) and the guard the admin screen applies before it asks for a
 * transfer. The distance function is a parameter: any function from two
 * city names to a whole number of kilometres.
 */
module App {
  import opened Wrappers
  import opened Database
  import Centers

  /** The quote: price, and the id, name and distance of the center it is computed for. */
  datatype Quote = Quote(cost: int, centerId: string, centerName: string, distKm: nat)

  /** The fixed part of the price: 15000 for the consumer type "Industry", 5000 for every other. */
  function BaseCost(kind: string): (b: int)
    ensures kind == "Industry" ==> b == 15000
    ensures kind != "Industry" ==> b == 5000
  {
    if kind == "Industry" then 15000 else 5000
  }

  /**
   * One `reduce` over the centers from index `k` on, with the accumulator at
   * index `best`: the accumulator is kept only when strictly nearer than the
   * next center, so the next one wins ties.
   */
  function ReduceNearest(city: string, centers: seq<EnergyCenter>, getDistance: (string, string) -> nat, best: nat, k: nat): (r: nat)
    requires best < k <= |centers|
    requires forall j :: 0 <= j < k ==> getDistance(city, centers[best].city) <= getDistance(city, centers[j].city)
    requires forall j :: best < j < k ==> getDistance(city, centers[best].city) < getDistance(city, centers[j].city)
    ensures r < |centers|
    ensures forall j :: 0 <= j < |centers| ==> getDistance(city, centers[r].city) <= getDistance(city, centers[j].city)
    ensures forall j :: r < j < |centers| ==> getDistance(city, centers[r].city) < getDistance(city, centers[j].city)
    decreases |centers| - k
  {
    if k == |centers| then best
    else
      var next := if getDistance(city, centers[best].city) < getDistance(city, centers[k].city) then best else k;
      ReduceNearest(city, centers, getDistance, next, k + 1)
  }

  /**
   * The index of the center `centers.reduce(...)` returns: no center is
   * nearer, and every later one is strictly farther, so among the nearest
   * it is the last.
   */
  function NearestIndex(city: string, centers: seq<EnergyCenter>, getDistance: (string, string) -> nat): (i: nat)
    requires |centers| > 0
    ensures i < |centers|
    ensures forall j :: 0 <= j < |centers| ==> getDistance(city, centers[i].city) <= getDistance(city, centers[j].city)
    ensures forall j :: i < j < |centers| ==> getDistance(city, centers[i].city) < getDistance(city, centers[j].city)
  {
    ReduceNearest(city, centers, getDistance, 0, 1)
  }

  /** The contract of NearestIndex pins the index down: only one index has both properties. */
  lemma NearestIsUnique(city: string, centers: seq<EnergyCenter>, getDistance: (string, string) -> nat, i: nat, i': nat)
    requires i < |centers| && i' < |centers|
    requires forall j :: 0 <= j < |centers| ==> getDistance(city, centers[i].city) <= getDistance(city, centers[j].city)
    requires forall j :: i < j < |centers| ==> getDistance(city, centers[i].city) < getDistance(city, centers[j].city)
    requires forall j :: 0 <= j < |centers| ==> getDistance(city, centers[i'].city) <= getDistance(city, centers[j].city)
    requires forall j :: i' < j < |centers| ==> getDistance(city, centers[i'].city) < getDistance(city, centers[j].city)
    ensures i == i'
  {
    var d, d' := getDistance(city, centers[i].city), getDistance(city, centers[i'].city);
    assert d <= d' && d' <= d;
    assert i < i' ==> d < d';
    assert i' < i ==> d' < d;
  }

  /**
   * `calcConnectionCost`: no quote without centers; otherwise the nearest
   * center (the last of the nearest on a tie), its distance, and the base
   * price plus 120 per kilometre.
   */
  function CalcConnectionCost(kind: string, city: string, centers: seq<EnergyCenter>, getDistance: (string, string) -> nat): (q: Option<Quote>)
    ensures q.None? <==> |centers| == 0
    ensures q.Some? ==>
      && q.value.cost == BaseCost(kind) + q.value.distKm * 120
      && (forall j :: 0 <= j < |centers| ==> q.value.distKm <= getDistance(city, centers[j].city))
      && exists i :: 0 <= i < |centers|
           && centers[i].id == q.value.centerId && centers[i].name == q.value.centerName
           && getDistance(city, centers[i].city) == q.value.distKm
           && forall j :: i < j < |centers| ==> q.value.distKm < getDistance(city, centers[j].city)
  {
    if |centers| == 0 then None
    else
      var nearest := centers[NearestIndex(city, centers, getDistance)];
      var dist := getDistance(city, nearest.city);
      Some(Quote(BaseCost(kind) + dist * 120, nearest.id, nearest.name, dist))
  }

  /**
   * `doTransfer`'s guard: `parseInt` of the amount field (`None` for NaN);
   * nothing is sent for 0, NaN or equal centers, otherwise the request
   * carries the form's ids and the parsed amount.
   */
  function DoTransfer(fromId: string, toId: string, parsed: Option<int>): (r: Option<Centers.TransferRequest>)
    ensures r.Some? <==> parsed.Some? && parsed.value != 0 && fromId != toId
    ensures r.Some? ==> r.value == Centers.TransferRequest(fromId, toId, Centers.Finite(parsed.value as real))
  {
    if parsed.None? || parsed.value == 0 || fromId == toId then None
    else Some(Centers.TransferRequest(fromId, toId, Centers.Finite(parsed.value as real)))
  }

  /**
   * What the server makes of a request the guard lets through: never a
   * same-center refusal; a payload refusal only for a negative amount (or a
   * missing id); with a positive amount and both ids the first two checks pass.
   */
  lemma GuardedRequestOutcome(l: Centers.Ledger, fromId: string, toId: string, parsed: Option<int>, newId: string, now: string)
    requires DoTransfer(fromId, toId, parsed).Some?
    ensures
      var r := Centers.Transfer(l, DoTransfer(fromId, toId, parsed).value, newId, now).1;
      && r != Centers.Rejected(Centers.SameCenter)
      && (r == Centers.Rejected(Centers.InvalidPayload) <==> parsed.value < 0 || fromId == "" || toId == "")
  {
  }
}
