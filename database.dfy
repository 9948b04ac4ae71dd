/**
 * The four tables of the marketplace database as in-memory values: energy
 * centers and producers and consumers keyed by their `id` primary key, and
 * the transfers table as the sequence of its rows in insertion order.
 * Also the start-up step that seeds the centers table when it is empty.
 */
module Database {

  /** A row of `energy_centers`. */
  datatype EnergyCenter = EnergyCenter(id: string, name: string, city: string, stored: real, capacity: real)

  /** A row of `transfers`. */
  datatype TransferRow = TransferRow(id: string, fromCenter: string, toCenter: string, amount: real, createdAt: string)

  /** A row of `producers`; `kind` is the `type` column. */
  datatype Producer = Producer(
    id: string, name: string, kind: string, city: string, centerId: string,
    pricePerUnit: real, unitsAvailable: real, earnings: real, createdAt: string)

  /** A row of `consumers`; `kind` is the `type` column. */
  datatype Consumer = Consumer(
    id: string, name: string, kind: string, city: string, address: string, centerId: string,
    pricePerUnit: real, monthlyUsage: real, monthlyBill: real, connectionCost: real, createdAt: string)

  /** Every center is stored under its own id. */
  predicate CentersKeyed(m: map<string, EnergyCenter>)
  {
    forall k :: k in m ==> m[k].id == k
  }

  /** Every producer is stored under its own id. */
  predicate ProducersKeyed(m: map<string, Producer>)
  {
    forall k :: k in m ==> m[k].id == k
  }

  /** Every consumer is stored under its own id. */
  predicate ConsumersKeyed(m: map<string, Consumer>)
  {
    forall k :: k in m ==> m[k].id == k
  }

  /** The ledger's bounds invariant: every center holds between nothing and its capacity. */
  predicate Bounded(m: map<string, EnergyCenter>)
  {
    forall k :: k in m ==> 0.0 <= m[k].stored <= m[k].capacity
  }

  /** The four rows inserted into an empty centers table, in insertion order. */
  const SeedRows: seq<EnergyCenter> := [
    EnergyCenter("EC001", "SolarHub North", "Delhi", 4200.0, 6000.0),
    EnergyCenter("EC002", "WindCore East", "Kolkata", 2800.0, 5000.0),
    EnergyCenter("EC003", "BioGreen South", "Chennai", 3600.0, 4500.0),
    EnergyCenter("EC004", "HydroBase West", "Mumbai", 5100.0, 7000.0)
  ]

  /** The table obtained by inserting `rows` one after another into an empty table. */
  function TableOf(rows: seq<EnergyCenter>): (m: map<string, EnergyCenter>)
  {
    if rows == [] then map[] else TableOf(rows[..|rows| - 1])[rows[|rows| - 1].id := rows[|rows| - 1]]
  }

  /** The centers table right after seeding an empty one. */
  function SeedTable(): (m: map<string, EnergyCenter>)
    ensures m.Keys == {"EC001", "EC002", "EC003", "EC004"}
    ensures CentersKeyed(m) && Bounded(m)
    ensures forall i :: 0 <= i < |SeedRows| ==> m[SeedRows[i].id] == SeedRows[i]
  {
    var r := SeedRows;
    assert r[..1][..0] == [] && r[..2][..1] == r[..1] && r[..3][..2] == r[..2] && r[..4][..3] == r[..3];
    assert TableOf(r[..1]) == map[r[0].id := r[0]];
    assert TableOf(r[..2]) == map[r[0].id := r[0], r[1].id := r[1]];
    assert TableOf(r[..3]) == map[r[0].id := r[0], r[1].id := r[1], r[2].id := r[2]];
    assert r[..4] == r;
    TableOf(r)
  }

  /** The centers table after the seeding step: unchanged unless it was empty. */
  function Seeded(m: map<string, EnergyCenter>): (r: map<string, EnergyCenter>)
    ensures |m| > 0 ==> r == m
    ensures |m| == 0 ==> r == SeedTable()
  {
    if |m| > 0 then m else SeedTable()
  }

  /** Seeding a second time changes nothing. */
  lemma SeedIdempotent(m: map<string, EnergyCenter>)
    ensures Seeded(Seeded(m)) == Seeded(m)
  {
  }

  /** Seeding keeps the centers invariant and establishes it on an empty table. */
  lemma SeedKeepsInvariant(m: map<string, EnergyCenter>)
    requires CentersKeyed(m) && Bounded(m)
    ensures CentersKeyed(Seeded(m)) && Bounded(Seeded(m))
  {
  }

  /** The database: the four tables the route handlers read and write. */
  class Db {
    var energyCenters: map<string, EnergyCenter>
    var transfers: seq<TransferRow>
    var producers: map<string, Producer>
    var consumers: map<string, Consumer>

    /** A new database file: every table exists and is empty. */
    constructor ()
      ensures energyCenters == map[] && transfers == []
      ensures producers == map[] && consumers == map[]
    {
      energyCenters, transfers := map[], [];
      producers, consumers := map[], map[];
    }

    /** `seedEnergyCentersIfEmpty`: insert the four seed rows only when no center exists. */
    method SeedEnergyCentersIfEmpty()
      modifies this`energyCenters
      ensures energyCenters == Seeded(old(energyCenters))
      ensures |old(energyCenters)| == 0 ==> energyCenters.Keys == {"EC001", "EC002", "EC003", "EC004"}
      ensures CentersKeyed(old(energyCenters)) && Bounded(old(energyCenters))
              ==> CentersKeyed(energyCenters) && Bounded(energyCenters)
    {
      if |energyCenters| > 0 {
        return;
      }
      var rows := SeedRows;
      for i := 0 to |rows|
        invariant energyCenters == TableOf(rows[..i])
      {
        assert rows[..i + 1][..i] == rows[..i];
        energyCenters := energyCenters[rows[i].id := rows[i]];
      }
      assert rows[..|rows|] == rows;
      SeedKeepsInvariant(old(energyCenters));
    }
  }
}
