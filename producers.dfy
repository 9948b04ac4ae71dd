/**
 * The `/producers` handlers that write: registering a producer and the
 * partial update of a registered one.
 */
module Producers {
  import opened Wrappers
  import opened Body
  import opened Database

  /** The fields of a request body the handlers read; `kind` is `type`. */
  datatype ProducerBody = ProducerBody(
    name: Option<string>, kind: Option<string>, city: Option<string>, centerId: Option<string>,
    pricePerUnit: NumInput, unitsAvailable: NumInput, earnings: NumInput)

  /** A body that sets nothing. */
  const EmptyBody := ProducerBody(None, None, None, None, Undefined, Undefined, Undefined)

  /** `name`, `type`, `city` and `center_id` are all truthy. */
  predicate HasRequiredFields(body: ProducerBody)
  {
    Truthy(body.name) && Truthy(body.kind) && Truthy(body.city) && Truthy(body.centerId)
  }

  /**
   * The record `POST /producers` inserts: refused when a required field is
   * missing; otherwise the given id, timestamp and text fields, and each
   * number as given or 0 when missing.
   */
  function NewProducer(body: ProducerBody, id: string, now: string): (r: Result<Producer, RecordError>)
    ensures r.Err? <==> !HasRequiredFields(body)
    ensures r.Err? ==> r.error == MissingFields
    ensures r.Ok? ==>
      && r.value.id == id && r.value.createdAt == now
      && Some(r.value.name) == body.name && Some(r.value.kind) == body.kind
      && Some(r.value.city) == body.city && Some(r.value.centerId) == body.centerId
      && (body.pricePerUnit.Num? ==> r.value.pricePerUnit == body.pricePerUnit.value)
      && (!body.pricePerUnit.Num? ==> r.value.pricePerUnit == 0.0)
      && (body.unitsAvailable.Num? ==> r.value.unitsAvailable == body.unitsAvailable.value)
      && (!body.unitsAvailable.Num? ==> r.value.unitsAvailable == 0.0)
      && (body.earnings.Num? ==> r.value.earnings == body.earnings.value)
      && (!body.earnings.Num? ==> r.value.earnings == 0.0)
  {
    if !HasRequiredFields(body) then Err(MissingFields)
    else
      Ok(Producer(
        id, body.name.value, body.kind.value, body.city.value, body.centerId.value,
        NumberOrZero(body.pricePerUnit), NumberOrZero(body.unitsAvailable), NumberOrZero(body.earnings), now))
  }

  /**
   * The row `PUT /producers/:id` writes back: `type`, `city` and `center_id`
   * from the body unless null or missing; each number from the body unless
   * `undefined`, an explicit null giving 0; `name`, `id` and `created_at` kept.
   */
  function MergeProducer(existing: Producer, body: ProducerBody): (r: Producer)
    ensures r.id == existing.id && r.name == existing.name && r.createdAt == existing.createdAt
    ensures r.kind == (if body.kind.Some? then body.kind.value else existing.kind)
    ensures r.city == (if body.city.Some? then body.city.value else existing.city)
    ensures r.centerId == (if body.centerId.Some? then body.centerId.value else existing.centerId)
    ensures r.pricePerUnit == NumberUnlessUndefined(body.pricePerUnit, existing.pricePerUnit)
    ensures r.unitsAvailable == NumberUnlessUndefined(body.unitsAvailable, existing.unitsAvailable)
    ensures r.earnings == NumberUnlessUndefined(body.earnings, existing.earnings)
  {
    existing.(
      kind := Coalesce(body.kind, existing.kind),
      city := Coalesce(body.city, existing.city),
      centerId := Coalesce(body.centerId, existing.centerId),
      pricePerUnit := NumberUnlessUndefined(body.pricePerUnit, existing.pricePerUnit),
      unitsAvailable := NumberUnlessUndefined(body.unitsAvailable, existing.unitsAvailable),
      earnings := NumberUnlessUndefined(body.earnings, existing.earnings))
  }

  /** A body carrying a row's own values, as a client that echoes the row would send. */
  function EchoBody(p: Producer): (body: ProducerBody)
  {
    ProducerBody(Some(p.name), Some(p.kind), Some(p.city), Some(p.centerId),
                 Num(p.pricePerUnit), Num(p.unitsAvailable), Num(p.earnings))
  }

  /** An update with an empty body leaves the row as it was. */
  lemma MergeEmptyBody(existing: Producer)
    ensures MergeProducer(existing, EmptyBody) == existing
  {
  }

  /** Sending the same update twice has the effect of sending it once. */
  lemma MergeIdempotent(existing: Producer, body: ProducerBody)
    ensures MergeProducer(MergeProducer(existing, body), body) == MergeProducer(existing, body)
  {
  }

  /** Echoing a row's own values back changes nothing. */
  lemma MergeEcho(existing: Producer)
    ensures MergeProducer(existing, EchoBody(existing)) == existing
  {
  }

  /** A created record, echoed back as an update, is left as created. */
  lemma CreatedThenEchoed(body: ProducerBody, id: string, now: string)
    requires HasRequiredFields(body)
    ensures NewProducer(body, id, now).Ok?
    ensures MergeProducer(NewProducer(body, id, now).value, EchoBody(NewProducer(body, id, now).value))
            == NewProducer(body, id, now).value
  {
  }

  /** `POST /producers`: insert one record under a fresh id and return it, or refuse and insert nothing. */
  method PostProducer(db: Db, body: ProducerBody, newId: string, now: string) returns (r: Result<Producer, RecordError>)
    requires newId !in db.producers
    modifies db`producers
    ensures r == NewProducer(body, newId, now)
    ensures r.Err? ==> db.producers == old(db.producers)
    ensures r.Ok? ==> db.producers == old(db.producers)[newId := r.value]
    ensures r.Ok? ==> |db.producers| == |old(db.producers)| + 1
    ensures ProducersKeyed(old(db.producers)) ==> ProducersKeyed(db.producers)
  {
    if !Truthy(body.name) || !Truthy(body.kind) || !Truthy(body.city) || !Truthy(body.centerId) {
      return Err(MissingFields);
    }
    var record := Producer(
      newId, body.name.value, body.kind.value, body.city.value, body.centerId.value,
      NumberOrZero(body.pricePerUnit), NumberOrZero(body.unitsAvailable), NumberOrZero(body.earnings), now);
    db.producers := db.producers[newId := record];
    r := Ok(record);
  }

  /** `PUT /producers/:id`: 404 for an unknown id; otherwise overwrite that one row with the merge and return it. */
  method PutProducer(db: Db, id: string, body: ProducerBody) returns (r: Result<Producer, RecordError>)
    modifies db`producers
    ensures id !in old(db.producers) ==> r == Err(NotFound) && db.producers == old(db.producers)
    ensures id in old(db.producers) ==>
      && r == Ok(MergeProducer(old(db.producers)[id], body))
      && db.producers == old(db.producers)[id := r.value]
    ensures db.producers.Keys == old(db.producers).Keys
    ensures ProducersKeyed(old(db.producers)) ==> ProducersKeyed(db.producers)
  {
    if id !in db.producers {
      return Err(NotFound);
    }
    var existing := db.producers[id];
    var updated := existing.(
      kind := Coalesce(body.kind, existing.kind),
      city := Coalesce(body.city, existing.city),
      centerId := Coalesce(body.centerId, existing.centerId),
      pricePerUnit := NumberUnlessUndefined(body.pricePerUnit, existing.pricePerUnit),
      unitsAvailable := NumberUnlessUndefined(body.unitsAvailable, existing.unitsAvailable),
      earnings := NumberUnlessUndefined(body.earnings, existing.earnings));
    db.producers := db.producers[id := updated];
    r := Ok(db.producers[id]);
  }
}
