/**
 * The `/consumers` handlers that write: registering a consumer and the
 * update of a consumer's monthly usage and bill.
 */
module Consumers {
  import opened Wrappers
  import opened Body
  import opened Database

  /** The fields of a request body the handlers read; `kind` is `type`. */
  datatype ConsumerBody = ConsumerBody(
    name: Option<string>, kind: Option<string>, city: Option<string>, address: Option<string>,
    centerId: Option<string>, pricePerUnit: NumInput, monthlyUsage: NumInput, monthlyBill: NumInput,
    connectionCost: NumInput)

  /** `name`, `type`, `city`, `address` and `center_id` are all truthy. */
  predicate HasRequiredFields(body: ConsumerBody)
  {
    Truthy(body.name) && Truthy(body.kind) && Truthy(body.city) && Truthy(body.address) && Truthy(body.centerId)
  }

  /**
   * The record `POST /consumers` inserts: refused when a required field is
   * missing; otherwise the given id, timestamp and text fields, and each
   * number as given or 0 when missing.
   */
  function NewConsumer(body: ConsumerBody, id: string, now: string): (r: Result<Consumer, RecordError>)
    ensures r.Err? <==> !HasRequiredFields(body)
    ensures r.Err? ==> r.error == MissingFields
    ensures r.Ok? ==>
      && r.value.id == id && r.value.createdAt == now
      && Some(r.value.name) == body.name && Some(r.value.kind) == body.kind
      && Some(r.value.city) == body.city && Some(r.value.address) == body.address
      && Some(r.value.centerId) == body.centerId
      && (body.pricePerUnit.Num? ==> r.value.pricePerUnit == body.pricePerUnit.value)
      && (!body.pricePerUnit.Num? ==> r.value.pricePerUnit == 0.0)
      && (body.monthlyUsage.Num? ==> r.value.monthlyUsage == body.monthlyUsage.value)
      && (!body.monthlyUsage.Num? ==> r.value.monthlyUsage == 0.0)
      && (body.monthlyBill.Num? ==> r.value.monthlyBill == body.monthlyBill.value)
      && (!body.monthlyBill.Num? ==> r.value.monthlyBill == 0.0)
      && (body.connectionCost.Num? ==> r.value.connectionCost == body.connectionCost.value)
      && (!body.connectionCost.Num? ==> r.value.connectionCost == 0.0)
  {
    if !HasRequiredFields(body) then Err(MissingFields)
    else
      Ok(Consumer(
        id, body.name.value, body.kind.value, body.city.value, body.address.value, body.centerId.value,
        NumberOrZero(body.pricePerUnit), NumberOrZero(body.monthlyUsage), NumberOrZero(body.monthlyBill),
        NumberOrZero(body.connectionCost), now))
  }

  /**
   * The row `PUT /consumers/:id` writes back: `monthly_usage` and
   * `monthly_bill` from the body unless `undefined` (null gives 0), every
   * other column exactly as it was.
   */
  function MergeConsumer(existing: Consumer, body: ConsumerBody): (r: Consumer)
    ensures r == existing.(monthlyUsage := r.monthlyUsage, monthlyBill := r.monthlyBill)
    ensures body.monthlyUsage.Undefined? ==> r.monthlyUsage == existing.monthlyUsage
    ensures body.monthlyUsage.Null? ==> r.monthlyUsage == 0.0
    ensures body.monthlyUsage.Num? ==> r.monthlyUsage == body.monthlyUsage.value
    ensures body.monthlyBill.Undefined? ==> r.monthlyBill == existing.monthlyBill
    ensures body.monthlyBill.Null? ==> r.monthlyBill == 0.0
    ensures body.monthlyBill.Num? ==> r.monthlyBill == body.monthlyBill.value
  {
    existing.(
      monthlyUsage := NumberUnlessUndefined(body.monthlyUsage, existing.monthlyUsage),
      monthlyBill := NumberUnlessUndefined(body.monthlyBill, existing.monthlyBill))
  }

  /** The update reads only `monthly_usage` and `monthly_bill` of the body. */
  lemma MergeIgnoresOtherFields(existing: Consumer, b1: ConsumerBody, b2: ConsumerBody)
    requires b1.monthlyUsage == b2.monthlyUsage && b1.monthlyBill == b2.monthlyBill
    ensures MergeConsumer(existing, b1) == MergeConsumer(existing, b2)
  {
  }

  /** Sending the same update twice has the effect of sending it once. */
  lemma MergeIdempotent(existing: Consumer, body: ConsumerBody)
    ensures MergeConsumer(MergeConsumer(existing, body), body) == MergeConsumer(existing, body)
  {
  }

  /** `POST /consumers`: insert one record under a fresh id and return it, or refuse and insert nothing. */
  method PostConsumer(db: Db, body: ConsumerBody, newId: string, now: string) returns (r: Result<Consumer, RecordError>)
    requires newId !in db.consumers
    modifies db`consumers
    ensures r == NewConsumer(body, newId, now)
    ensures r.Err? ==> db.consumers == old(db.consumers)
    ensures r.Ok? ==> db.consumers == old(db.consumers)[newId := r.value]
    ensures r.Ok? ==> |db.consumers| == |old(db.consumers)| + 1
    ensures ConsumersKeyed(old(db.consumers)) ==> ConsumersKeyed(db.consumers)
  {
    if !Truthy(body.name) || !Truthy(body.kind) || !Truthy(body.city) || !Truthy(body.address) || !Truthy(body.centerId) {
      return Err(MissingFields);
    }
    var record := Consumer(
      newId, body.name.value, body.kind.value, body.city.value, body.address.value, body.centerId.value,
      NumberOrZero(body.pricePerUnit), NumberOrZero(body.monthlyUsage), NumberOrZero(body.monthlyBill),
      NumberOrZero(body.connectionCost), now);
    db.consumers := db.consumers[newId := record];
    r := Ok(record);
  }

  /** `PUT /consumers/:id`: 404 for an unknown id; otherwise update usage and bill of that one row and return it. */
  method PutConsumer(db: Db, id: string, body: ConsumerBody) returns (r: Result<Consumer, RecordError>)
    modifies db`consumers
    ensures id !in old(db.consumers) ==> r == Err(NotFound) && db.consumers == old(db.consumers)
    ensures id in old(db.consumers) ==>
      && r == Ok(MergeConsumer(old(db.consumers)[id], body))
      && db.consumers == old(db.consumers)[id := r.value]
    ensures db.consumers.Keys == old(db.consumers).Keys
    ensures ConsumersKeyed(old(db.consumers)) ==> ConsumersKeyed(db.consumers)
  {
    if id !in db.consumers {
      return Err(NotFound);
    }
    var existing := db.consumers[id];
    var monthlyUsage := NumberUnlessUndefined(body.monthlyUsage, existing.monthlyUsage);
    var monthlyBill := NumberUnlessUndefined(body.monthlyBill, existing.monthlyBill);
    db.consumers := db.consumers[id := existing.(monthlyUsage := monthlyUsage, monthlyBill := monthlyBill)];
    r := Ok(db.consumers[id]);
  }
}
