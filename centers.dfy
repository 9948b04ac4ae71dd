/**
 * The energy-center ledger behind `/centers`: the `POST /transfer` handler
 * that checks a request and moves stored energy from one center to
 * another, recording the move in the transfers table, and the two read
 * routes that list centers by id and transfers newest first.
 */
module Centers {
  import opened Wrappers
  import opened Database
  import TextOrder

  /** `Number(amount)`: a finite number, or NaN or an infinity. */
  datatype Amount = Finite(value: real) | NotFinite

  /**
   * The body `{from_center, to_center, amount}` of a transfer request. The
   * empty string stands for an id that is missing, `null` or otherwise falsy.
   */
  datatype TransferRequest = TransferRequest(fromCenter: string, toCenter: string, amount: Amount)

  /** The five ways a transfer request is refused. */
  datatype TransferError =
    | InvalidPayload
    | SameCenter
    | CenterNotFound
    | InsufficientSource
    | InsufficientCapacity
  {
    /** Not-found is answered with 404, every other refusal with 400. */
    function Status(): (code: int)
      ensures code == 404 <==> this == CenterNotFound
      ensures code == 400 <==> this != CenterNotFound
    {
      if CenterNotFound? then 404 else 400
    }
  }

  /** The answer: 201 with the new record and both centers as they now are, or a refusal. */
  datatype TransferResult =
    | Created(transfer: TransferRow, fromRow: EnergyCenter, toRow: EnergyCenter)
    | Rejected(error: TransferError)

  /** The two tables a transfer reads and writes. */
  datatype Ledger = Ledger(centers: map<string, EnergyCenter>, transfers: seq<TransferRow>)

  /** Both ids present and the amount a positive finite number. */
  predicate PayloadOk(req: TransferRequest)
  {
    req.fromCenter != "" && req.toCenter != "" && req.amount.Finite? && req.amount.value > 0.0
  }

  /** Everything a transfer needs, without regard to the order the handler checks it in. */
  predicate Admissible(m: map<string, EnergyCenter>, req: TransferRequest)
  {
    && PayloadOk(req)
    && req.fromCenter != req.toCenter
    && req.fromCenter in m && req.toCenter in m
    && m[req.fromCenter].stored >= req.amount.value
    && m[req.toCenter].capacity - m[req.toCenter].stored >= req.amount.value
  }

  /** The handler's five checks, in their order; `None` when the transfer may go ahead. */
  function Validate(m: map<string, EnergyCenter>, req: TransferRequest): (r: Option<TransferError>)
    ensures r.None? <==> Admissible(m, req)
  {
    if !PayloadOk(req) then Some(InvalidPayload)
    else if req.fromCenter == req.toCenter then Some(SameCenter)
    else if req.fromCenter !in m || req.toCenter !in m then Some(CenterNotFound)
    else if m[req.fromCenter].stored < req.amount.value then Some(InsufficientSource)
    else if m[req.toCenter].capacity - m[req.toCenter].stored < req.amount.value then Some(InsufficientCapacity)
    else None
  }

  /**
   * `UPDATE energy_centers SET stored = stored + delta WHERE id = ?`: only the
   * row with that id changes, and only its `stored`; a missing id matches no row.
   */
  function Adjust(m: map<string, EnergyCenter>, id: string, delta: real): (r: map<string, EnergyCenter>)
    ensures r.Keys == m.Keys
    ensures forall k :: k in m && k != id ==> r[k] == m[k]
    ensures id in m ==> r[id] == m[id].(stored := m[id].stored + delta)
  {
    if id in m then m[id := m[id].(stored := m[id].stored + delta)] else m
  }

  /** The two updates of the transaction: debit the source, then credit the destination. */
  function Move(m: map<string, EnergyCenter>, fromId: string, toId: string, amount: real): (r: map<string, EnergyCenter>)
  {
    Adjust(Adjust(m, fromId, -amount), toId, amount)
  }

  /**
   * One transfer request against the ledger: the ledger afterwards and the
   * answer. A refused request changes nothing; an accepted one debits the
   * source, credits the destination, leaves every other center alone and
   * appends exactly one record equal to the request.
   */
  function Transfer(l: Ledger, req: TransferRequest, newId: string, now: string): (res: (Ledger, TransferResult))
    ensures res.1.Rejected? <==> !Admissible(l.centers, req)
    ensures res.1.Rejected? ==> res.0 == l
    ensures res.1.Created? ==>
      var m, post, amount := l.centers, res.0.centers, req.amount.value;
      && res.1.transfer == TransferRow(newId, req.fromCenter, req.toCenter, amount, now)
      && res.0.transfers == l.transfers + [res.1.transfer]
      && post.Keys == m.Keys
      && post[req.fromCenter] == m[req.fromCenter].(stored := m[req.fromCenter].stored - amount)
      && post[req.toCenter] == m[req.toCenter].(stored := m[req.toCenter].stored + amount)
      && (forall k :: k in m && k != req.fromCenter && k != req.toCenter ==> post[k] == m[k])
      && res.1.fromRow == post[req.fromCenter] && res.1.toRow == post[req.toCenter]
  {
    match Validate(l.centers, req)
    case Some(e) => (l, Rejected(e))
    case None =>
      var amount := req.amount.value;
      var post := Move(l.centers, req.fromCenter, req.toCenter, amount);
      var row := TransferRow(newId, req.fromCenter, req.toCenter, amount, now);
      (Ledger(post, l.transfers + [row]), Created(row, post[req.fromCenter], post[req.toCenter]))
  }

  /**
   * The refusal a request gets, case by case: each check fires exactly when
   * every earlier one passed and its own condition fails.
   */
  lemma RejectionReasons(l: Ledger, req: TransferRequest, newId: string, now: string)
    ensures
      var m, r, fromId, toId := l.centers, Transfer(l, req, newId, now).1, req.fromCenter, req.toCenter;
      && (r == Rejected(InvalidPayload) <==> !PayloadOk(req))
      && (r == Rejected(SameCenter) <==> PayloadOk(req) && fromId == toId)
      && (r == Rejected(CenterNotFound) <==> PayloadOk(req) && fromId != toId && (fromId !in m || toId !in m))
      && (r == Rejected(InsufficientSource) <==>
            PayloadOk(req) && fromId != toId && fromId in m && toId in m && m[fromId].stored < req.amount.value)
      && (r == Rejected(InsufficientCapacity) <==>
            PayloadOk(req) && fromId != toId && fromId in m && toId in m && m[fromId].stored >= req.amount.value
            && m[toId].capacity - m[toId].stored < req.amount.value)
  {
  }

  /** Sending a refused request again is refused for the same reason. */
  lemma RejectionRepeats(l: Ledger, req: TransferRequest, newId: string, now: string, newId': string, now': string)
    requires Transfer(l, req, newId, now).1.Rejected?
    ensures Transfer(Transfer(l, req, newId, now).0, req, newId', now').1 == Transfer(l, req, newId, now).1
  {
  }

  // ----- Conservation -----

  /** The energy held by the centers whose ids are in `keys`. */
  ghost function SumStored(m: map<string, EnergyCenter>, keys: set<string>): (total: real)
    requires keys <= m.Keys
    decreases keys
  {
    if keys == {} then 0.0 else var k :| k in keys; m[k].stored + SumStored(m, keys - {k})
  }

  /** The energy held by all centers together. */
  ghost function TotalStored(m: map<string, EnergyCenter>): (total: real)
  {
    SumStored(m, m.Keys)
  }

  /** Any center can be taken out of the sum first. */
  lemma {:induction false} SumStoredRemove(m: map<string, EnergyCenter>, keys: set<string>, k: string)
    requires keys <= m.Keys && k in keys
    ensures SumStored(m, keys) == m[k].stored + SumStored(m, keys - {k})
    decreases keys
  {
    var j :| j in keys && SumStored(m, keys) == m[j].stored + SumStored(m, keys - {j});
    if j != k {
      SumStoredRemove(m, keys - {j}, k);
      SumStoredRemove(m, keys - {k}, j);
      assert keys - {j} - {k} == keys - {k} - {j};
    }
  }

  /** The sum depends only on the `stored` of the centers summed over. */
  lemma {:induction false} SumStoredFrame(m: map<string, EnergyCenter>, m': map<string, EnergyCenter>, keys: set<string>)
    requires keys <= m.Keys && keys <= m'.Keys
    requires forall k :: k in keys ==> m[k].stored == m'[k].stored
    ensures SumStored(m, keys) == SumStored(m', keys)
    decreases keys
  {
    if keys != {} {
      var k :| k in keys;
      SumStoredRemove(m, keys, k);
      SumStoredRemove(m', keys, k);
      SumStoredFrame(m, m', keys - {k});
    }
  }

  /** One update changes the total by exactly its delta, or not at all when no row matches. */
  lemma AdjustTotal(m: map<string, EnergyCenter>, id: string, delta: real)
    ensures TotalStored(Adjust(m, id, delta)) == TotalStored(m) + (if id in m then delta else 0.0)
  {
    if id in m {
      var a := Adjust(m, id, delta);
      SumStoredRemove(m, m.Keys, id);
      SumStoredRemove(a, a.Keys, id);
      SumStoredFrame(m, a, m.Keys - {id});
    }
  }

  /** The debit and the credit cancel whenever both rows exist (or neither does). */
  lemma MoveConserves(m: map<string, EnergyCenter>, fromId: string, toId: string, amount: real)
    requires fromId in m <==> toId in m
    ensures TotalStored(Move(m, fromId, toId, amount)) == TotalStored(m)
  {
    AdjustTotal(m, fromId, -amount);
    AdjustTotal(Adjust(m, fromId, -amount), toId, amount);
  }

  /** Conservation: no transfer request, accepted or refused, changes the total stored energy. */
  lemma TransferConserves(l: Ledger, req: TransferRequest, newId: string, now: string)
    ensures TotalStored(Transfer(l, req, newId, now).0.centers) == TotalStored(l.centers)
  {
    if Admissible(l.centers, req) {
      MoveConserves(l.centers, req.fromCenter, req.toCenter, req.amount.value);
    }
  }

  // ----- The ledger invariant -----

  /** A transfer record names two distinct centers of the table and a positive amount. */
  predicate RecordValid(m: map<string, EnergyCenter>, t: TransferRow)
  {
    t.fromCenter in m && t.toCenter in m && t.fromCenter != t.toCenter && t.amount > 0.0
  }

  /** Centers keyed by id and within their bounds, and every record well-formed. */
  predicate LedgerInvariant(l: Ledger)
  {
    && CentersKeyed(l.centers)
    && Bounded(l.centers)
    && forall i :: 0 <= i < |l.transfers| ==> RecordValid(l.centers, l.transfers[i])
  }

  /** Bounds: whether it is accepted or refused, a transfer keeps every center within `0 <= stored <= capacity`. */
  lemma TransferKeepsInvariant(l: Ledger, req: TransferRequest, newId: string, now: string)
    requires LedgerInvariant(l)
    ensures LedgerInvariant(Transfer(l, req, newId, now).0)
  {
  }

  /** The ids of the records in the transfers table. */
  function TransferIds(ts: seq<TransferRow>): (ids: set<string>)
  {
    set i | 0 <= i < |ts| :: ts[i].id
  }

  /** The `id` primary key of the transfers table. */
  predicate UniqueTransferIds(ts: seq<TransferRow>)
  {
    forall i, j :: 0 <= i < j < |ts| ==> ts[i].id != ts[j].id
  }

  /** A transfer that uses a fresh id keeps the record ids distinct. */
  lemma TransferKeepsIdsUnique(l: Ledger, req: TransferRequest, newId: string, now: string)
    requires UniqueTransferIds(l.transfers) && newId !in TransferIds(l.transfers)
    ensures UniqueTransferIds(Transfer(l, req, newId, now).0.transfers)
  {
  }

  // ----- The handler -----

  /**
   * `POST /centers/transfer`: the five checks as early returns, then the
   * debit, the credit and the insertion of the record as one step, then
   * both centers read back.
   */
  method PostTransfer(db: Db, req: TransferRequest, newId: string, now: string) returns (r: TransferResult)
    requires newId !in TransferIds(db.transfers)
    modifies db`energyCenters, db`transfers
    ensures (Ledger(db.energyCenters, db.transfers), r)
            == Transfer(Ledger(old(db.energyCenters), old(db.transfers)), req, newId, now)
    ensures r.Rejected? ==> db.energyCenters == old(db.energyCenters) && db.transfers == old(db.transfers)
    ensures TotalStored(db.energyCenters) == TotalStored(old(db.energyCenters))
    ensures LedgerInvariant(Ledger(old(db.energyCenters), old(db.transfers)))
            ==> LedgerInvariant(Ledger(db.energyCenters, db.transfers))
    ensures UniqueTransferIds(old(db.transfers)) ==> UniqueTransferIds(db.transfers)
  {
    ghost var before := Ledger(db.energyCenters, db.transfers);
    TransferConserves(before, req, newId, now);
    if LedgerInvariant(before) {
      TransferKeepsInvariant(before, req, newId, now);
    }
    if UniqueTransferIds(before.transfers) {
      TransferKeepsIdsUnique(before, req, newId, now);
    }

    var fromId, toId := req.fromCenter, req.toCenter;
    if fromId == "" || toId == "" || req.amount.NotFinite? || req.amount.value <= 0.0 {
      return Rejected(InvalidPayload);
    }
    var amount := req.amount.value;
    if fromId == toId {
      return Rejected(SameCenter);
    }
    if fromId !in db.energyCenters || toId !in db.energyCenters {
      return Rejected(CenterNotFound);
    }
    var source, destination := db.energyCenters[fromId], db.energyCenters[toId];
    if source.stored < amount {
      return Rejected(InsufficientSource);
    }
    var availableCapacity := destination.capacity - destination.stored;
    if availableCapacity < amount {
      return Rejected(InsufficientCapacity);
    }

    var transfer := TransferRow(newId, fromId, toId, amount, now);
    db.energyCenters := Adjust(db.energyCenters, fromId, -amount);
    db.energyCenters := Adjust(db.energyCenters, toId, amount);
    db.transfers := db.transfers + [transfer];

    r := Created(transfer, db.energyCenters[fromId], db.energyCenters[toId]);
  }

  // ----- Many requests in a row -----

  /** One call of the handler, with the id and timestamp it is given. */
  datatype Call = Call(request: TransferRequest, newId: string, now: string)

  /** The ledger after the calls, one after another. */
  function Replay(l: Ledger, calls: seq<Call>): (l': Ledger)
    decreases |calls|
  {
    if calls == [] then l
    else Replay(Transfer(l, calls[0].request, calls[0].newId, calls[0].now).0, calls[1..])
  }

  /** What one record does to center `k`: plus the amount if it is the destination, minus if the source. */
  function Flow(k: string, t: TransferRow): (delta: real)
  {
    (if t.toCenter == k then t.amount else 0.0) - (if t.fromCenter == k then t.amount else 0.0)
  }

  /** The net inflow into center `k` over a run of records. */
  function Net(k: string, ts: seq<TransferRow>): (net: real)
  {
    if ts == [] then 0.0 else Net(k, ts[..|ts| - 1]) + Flow(k, ts[|ts| - 1])
  }

  lemma {:induction false} NetConcat(k: string, a: seq<TransferRow>, b: seq<TransferRow>)
    ensures Net(k, a + b) == Net(k, a) + Net(k, b)
    decreases |b|
  {
    if b != [] {
      var b' := b[..|b| - 1];
      assert (a + b)[..|a + b| - 1] == a + b';
      assert (a + b)[|a + b| - 1] == b[|b| - 1];
      NetConcat(k, a, b');
    } else {
      assert a + b == a;
    }
  }

  /**
   * Double entry, one step: the records a call appends explain exactly the
   * change of every center's `stored`, and the earlier records are kept.
   */
  lemma TransferDoubleEntry(l: Ledger, req: TransferRequest, newId: string, now: string)
    ensures
      var l' := Transfer(l, req, newId, now).0;
      && |l.transfers| <= |l'.transfers|
      && l'.transfers[..|l.transfers|] == l.transfers
      && l'.centers.Keys == l.centers.Keys
      && forall k :: k in l.centers ==>
           l'.centers[k].stored == l.centers[k].stored + Net(k, l'.transfers[|l.transfers|..])
  {
  }

  /** Slicing a sequence that extends `t` at `n1`, then at an earlier `n`. */
  lemma PrefixSlices(s: seq<TransferRow>, t: seq<TransferRow>, n: nat, n1: nat)
    requires n <= n1 <= |s| && n1 <= |t| && s[..n1] == t[..n1] && |t| == n1
    ensures s[..n] == t[..n]
    ensures s[n..] == t[n..] + s[n1..]
  {
    assert s[..n] == s[..n1][..n];
    assert s[n..] == s[n..n1] + s[n1..];
    assert s[n..n1] == s[..n1][n..];
  }

  /**
   * Double entry over any run of requests: each center's `stored` is what it
   * was plus the net flow of the records appended meanwhile, and the records
   * already present stay as they were.
   */
  lemma {:induction false} ReplayDoubleEntry(l: Ledger, calls: seq<Call>)
    ensures
      var l' := Replay(l, calls);
      && |l.transfers| <= |l'.transfers|
      && l'.transfers[..|l.transfers|] == l.transfers
      && l'.centers.Keys == l.centers.Keys
      && forall k :: k in l.centers ==>
           l'.centers[k].stored == l.centers[k].stored + Net(k, l'.transfers[|l.transfers|..])
    decreases |calls|
  {
    if calls != [] {
      var c := calls[0];
      var l1 := Transfer(l, c.request, c.newId, c.now).0;
      var l' := Replay(l1, calls[1..]);
      TransferDoubleEntry(l, c.request, c.newId, c.now);
      ReplayDoubleEntry(l1, calls[1..]);
      var n, n1 := |l.transfers|, |l1.transfers|;
      PrefixSlices(l'.transfers, l1.transfers, n, n1);
      forall k | k in l.centers
        ensures l'.centers[k].stored == l.centers[k].stored + Net(k, l'.transfers[n..])
      {
        NetConcat(k, l1.transfers[n..], l'.transfers[n1..]);
      }
    } else {
      assert l.transfers[|l.transfers|..] == [];
    }
  }

  /** Conservation over any run of requests. */
  lemma {:induction false} ReplayConserves(l: Ledger, calls: seq<Call>)
    ensures TotalStored(Replay(l, calls).centers) == TotalStored(l.centers)
    decreases |calls|
  {
    if calls != [] {
      var c := calls[0];
      TransferConserves(l, c.request, c.newId, c.now);
      ReplayConserves(Transfer(l, c.request, c.newId, c.now).0, calls[1..]);
    }
  }

  /** The ledger invariant holds after any run of requests that starts from it. */
  lemma {:induction false} ReplayKeepsInvariant(l: Ledger, calls: seq<Call>)
    requires LedgerInvariant(l)
    ensures LedgerInvariant(Replay(l, calls))
    decreases |calls|
  {
    if calls != [] {
      var c := calls[0];
      TransferKeepsInvariant(l, c.request, c.newId, c.now);
      ReplayKeepsInvariant(Transfer(l, c.request, c.newId, c.now).0, calls[1..]);
    }
  }

  /**
   * On the seeded table: a transfer of 2000 from EC001 to EC002 leaves 2200
   * and 4800; a second one of 2300 from EC001 to EC004 is then refused for
   * lack of stored energy, although EC004 could not take it either.
   */
  lemma SeededWithdrawals()
    ensures
      var l0 := Ledger(SeedTable(), []);
      var (l1, r1) := Transfer(l0, TransferRequest("EC001", "EC002", Finite(2000.0)), "t1", "now");
      && r1.Created? && r1.fromRow.stored == 2200.0 && r1.toRow.stored == 4800.0
      && Transfer(l1, TransferRequest("EC001", "EC004", Finite(2300.0)), "t2", "later").1
         == Rejected(InsufficientSource)
  {
    assert SeedRows[0].id == "EC001" && SeedRows[1].id == "EC002" && SeedRows[3].id == "EC004";
  }

  // ----- The read routes -----

  /** Strictly increasing by id. */
  predicate SortedById(rows: seq<EnergyCenter>)
  {
    forall i, j :: 0 <= i < j < |rows| ==> TextOrder.Lt(rows[i].id, rows[j].id)
  }

  function InsertById(c: EnergyCenter, rows: seq<EnergyCenter>): (r: seq<EnergyCenter>)
    requires SortedById(rows)
    requires forall i :: 0 <= i < |rows| ==> rows[i].id != c.id
    ensures |r| == |rows| + 1
    ensures SortedById(r)
    ensures forall x :: x in r <==> x == c || x in rows
  {
    if rows == [] then [c]
    else if TextOrder.Lt(c.id, rows[0].id) then
      assert forall j :: 0 < j < |rows| ==> TextOrder.Lt(c.id, rows[j].id) by {
        forall j | 0 < j < |rows| ensures TextOrder.Lt(c.id, rows[j].id) {
          TextOrder.LtTransitive(c.id, rows[0].id, rows[j].id);
        }
      }
      [c] + rows
    else
      TextOrder.LtTotal(c.id, rows[0].id);
      var rest := InsertById(c, rows[1..]);
      assert forall x :: x in rest ==> TextOrder.Lt(rows[0].id, x.id);
      [rows[0]] + rest
  }

  /** `GET /centers`: every center exactly once, in increasing order of id. */
  ghost function CentersById(m: map<string, EnergyCenter>): (rows: seq<EnergyCenter>)
    requires CentersKeyed(m)
    ensures |rows| == |m|
    ensures SortedById(rows)
    ensures forall c :: c in rows <==> c.id in m && m[c.id] == c
    decreases |m|
  {
    if |m| == 0 then []
    else
      var k :| k in m;
      var rest := m - {k};
      assert |rest| == |m| - 1 by {
        assert rest.Keys == m.Keys - {k};
      }
      var rows := CentersById(rest);
      assert forall i :: 0 <= i < |rows| ==> rows[i].id != k by {
        forall i | 0 <= i < |rows| ensures rows[i].id != k {
          assert rows[i] in rows;
        }
      }
      InsertById(m[k], rows)
  }

  /** Newest first by `created_at`. */
  predicate NewestFirst(rows: seq<TransferRow>)
  {
    forall i, j :: 0 <= i < j < |rows| ==> TextOrder.Le(rows[j].createdAt, rows[i].createdAt)
  }

  function InsertByRecency(t: TransferRow, rows: seq<TransferRow>): (r: seq<TransferRow>)
    requires NewestFirst(rows)
    ensures NewestFirst(r)
    ensures multiset(r) == multiset(rows) + multiset{t}
  {
    if rows == [] then [t]
    else if TextOrder.Le(rows[0].createdAt, t.createdAt) then
      assert forall j :: 0 <= j < |rows| ==> TextOrder.Le(rows[j].createdAt, t.createdAt) by {
        forall j | 0 <= j < |rows| ensures TextOrder.Le(rows[j].createdAt, t.createdAt) {
          if j > 0 {
            TextOrder.LeTransitive(rows[j].createdAt, rows[0].createdAt, t.createdAt);
          }
        }
      }
      [t] + rows
    else
      TextOrder.LeTotal(rows[0].createdAt, t.createdAt);
      var rest := InsertByRecency(t, rows[1..]);
      assert rows == [rows[0]] + rows[1..];
      assert forall x :: x in rest ==> TextOrder.Le(x.createdAt, rows[0].createdAt) by {
        forall x | x in rest ensures TextOrder.Le(x.createdAt, rows[0].createdAt) {
          assert x in multiset(rest);
        }
      }
      [rows[0]] + rest
  }

  /**
   * `GET /centers/transfers`: the records newest first. The query leaves the
   * order of equal timestamps open; this one puts the later insertion first.
   */
  function TransfersByRecency(ts: seq<TransferRow>): (rows: seq<TransferRow>)
    ensures NewestFirst(rows)
    ensures multiset(rows) == multiset(ts)
  {
    if ts == [] then []
    else
      assert ts == ts[..|ts| - 1] + [ts[|ts| - 1]];
      InsertByRecency(ts[|ts| - 1], TransfersByRecency(ts[..|ts| - 1]))
  }
}
