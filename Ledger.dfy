/**
 * The pledge ledger: the `pledges` table held by one object, with the three
 * routes of the server as its operations.
 */
module PledgeLedger {
  import opened PledgeRequest
  import opened PledgeTable
  import opened RecentPledges

  /** Which storage call throws, if any; a throw is caught and answered 500. */
  datatype StorageFault =
    | NoFault
    | AtConnect    // mysql.createConnection
    | AtSumQuery   // SELECT SUM(amount) ... WHERE publicKey = ?
    | AtInsert     // INSERT INTO pledges (publicKey, amount) VALUES (?, ?)
    | AtRelease    // the connection.end() reached after the budget test

  /** What `POST /pledgesDB` answers: 201 with the new row, 400 with one of
      three reasons, or 500. */
  datatype Outcome =
    | Created(pledge: Pledge)
    | Invalid(reason: Rejection)
    | BudgetExceeded
    | StorageError

  /** The negation of the test `totalPledgedSoFar + amount > walletBalance`. */
  predicate WithinBudget(t: seq<Pledge>, key: string, amount: real, balance: real)
  {
    PriorTotal(t, key) + amount <= balance
  }

  /** Whether a submission on table `t` reaches the INSERT and the INSERT
      succeeds; `connection.end()` may still throw afterwards. */
  predicate Inserts(t: seq<Pledge>, body: Body, fault: StorageFault)
    requires Typed(body)
  {
    var c := Check(body);
    && c.Accepted?
    && (fault == NoFault || fault == AtRelease)
    && WithinBudget(t, c.key, c.amount, c.balance)
  }

  /** What `POST /pledgesDB` answers on table `t`, a new row taking id `id`
      and stamp `now`. */
  function Answer(t: seq<Pledge>, id: nat, now: nat, body: Body, fault: StorageFault): (r: Outcome)
    requires Typed(body)
    // the input checks come before any storage call, so a fault cannot mask them
    ensures Check(body).Rejected? ==> r == Invalid(Check(body).reason)
    ensures r.Created? <==>
              Check(body).Accepted? && fault == NoFault
              && WithinBudget(t, Check(body).key, Check(body).amount, Check(body).balance)
    ensures r.Created? ==> r.pledge == Pledge(id, Check(body).key, Check(body).amount, now)
    ensures r == BudgetExceeded <==>
              Check(body).Accepted? && (fault == NoFault || fault == AtInsert)
              && !WithinBudget(t, Check(body).key, Check(body).amount, Check(body).balance)
    ensures r == StorageError <==>
              Check(body).Accepted?
              && (fault == AtConnect || fault == AtSumQuery || fault == AtRelease
                  || (fault == AtInsert
                      && WithinBudget(t, Check(body).key, Check(body).amount, Check(body).balance)))
  {
    var c := Check(body);
    if c.Rejected? then Invalid(c.reason)
    else
      var within := PriorTotal(t, c.key) + c.amount <= c.balance;
      match fault
      case AtConnect => StorageError
      case AtSumQuery => StorageError
      // the connection.end() on the refusal path, or the one after the INSERT
      case AtRelease => StorageError
      case AtInsert => if within then StorageError else BudgetExceeded
      case NoFault => if within then Created(Pledge(id, c.key, c.amount, now)) else BudgetExceeded
  }

  /** The table after that submission. */
  function TableAfter(t: seq<Pledge>, id: nat, now: nat, body: Body, fault: StorageFault): (r: seq<Pledge>)
    requires Typed(body)
    ensures |r| == |t| + (if Inserts(t, body, fault) then 1 else 0)
    ensures r[..|t|] == t
    // a 201 stored exactly the row it returns
    ensures Answer(t, id, now, body, fault).Created? ==> r == t + [Answer(t, id, now, body, fault).pledge]
    // every 400 leaves the table as it was; so does every 500 but one
    ensures !Answer(t, id, now, body, fault).Created? && fault != AtRelease ==> r == t
    ensures Inserts(t, body, fault) ==> r[|t|] == Pledge(id, Check(body).key, Check(body).amount, now)
  {
    var c := Check(body);
    if Inserts(t, body, fault) then t + [Pledge(id, c.key, c.amount, now)] else t
  }

  /** After a 201 the key's total is within the walletBalance sent with it. */
  lemma SubmitKeepsBudget(t: seq<Pledge>, id: nat, now: nat, body: Body, fault: StorageFault)
    requires Typed(body)
    requires Inserts(t, body, fault)
    ensures KeyTotal(TableAfter(t, id, now, body, fault), Check(body).key) <= Check(body).balance
  {
    var c := Check(body);
    KeyTotalAppend(t, Pledge(id, c.key, c.amount, now), c.key);
  }

  /** A submission adds its amount to its own key's total and to the grand
      total when it inserts, and changes no total otherwise. */
  lemma SubmitTotals(t: seq<Pledge>, id: nat, now: nat, body: Body, fault: StorageFault)
    requires Typed(body)
    ensures forall k :: KeyTotal(TableAfter(t, id, now, body, fault), k) == KeyTotal(t, k)
              + (if Inserts(t, body, fault) && k == Check(body).key then Check(body).amount else 0.0)
    ensures GrandTotal(TableAfter(t, id, now, body, fault)) == GrandTotal(t)
              + (if Inserts(t, body, fault) then Check(body).amount else 0.0)
  {
    if Inserts(t, body, fault) {
      var c := Check(body);
      var p := Pledge(id, c.key, c.amount, now);
      forall k ensures KeyTotal(t + [p], k) == KeyTotal(t, k) + (if k == c.key then c.amount else 0.0) {
        KeyTotalAppend(t, p, k);
      }
      TotalAppend(t, p);
    }
  }

  /** Submissions are not deduplicated: the same accepted body sent twice
      stores two rows and counts twice. */
  lemma SubmitTwice(t: seq<Pledge>, id: nat, now: nat, body: Body)
    requires Typed(body) && Check(body).Accepted?
    requires KeyTotal(t, Check(body).key) + Check(body).amount <= Check(body).balance
    requires KeyTotal(t, Check(body).key) + 2.0 * Check(body).amount <= Check(body).balance
    ensures var t1 := TableAfter(t, id, now, body, NoFault);
            && Answer(t, id, now, body, NoFault).Created?
            && Answer(t1, id + 1, now, body, NoFault).Created?
            && TableAfter(t1, id + 1, now, body, NoFault)
               == t + [Answer(t, id, now, body, NoFault).pledge, Answer(t1, id + 1, now, body, NoFault).pledge]
            && GrandTotal(TableAfter(t1, id + 1, now, body, NoFault)) == GrandTotal(t) + 2.0 * Check(body).amount
  {
    var c := Check(body);
    var p1 := Pledge(id, c.key, c.amount, now);
    var p2 := Pledge(id + 1, c.key, c.amount, now);
    assert Inserts(t, body, NoFault);
    var t1 := t + [p1];
    assert TableAfter(t, id, now, body, NoFault) == t1;
    KeyTotalAppend(t, p1, c.key);
    assert Inserts(t1, body, NoFault);
    assert TableAfter(t1, id + 1, now, body, NoFault) == t1 + [p2];
    TotalAppend(t, p1);
    TotalAppend(t1, p2);
  }

  /** One key with a balance of 100: 40 is accepted, 70 is refused, 60 fills
      the budget exactly, and 1 more is refused. */
  lemma BudgetScenario()
    ensures var p1, p2 := Pledge(1, "alice", 40.0, 1), Pledge(2, "alice", 60.0, 3);
            && Answer([], 1, 1, Body(Str("alice"), Num(40.0), Num(100.0)), NoFault) == Created(p1)
            && TableAfter([], 1, 1, Body(Str("alice"), Num(40.0), Num(100.0)), NoFault) == [p1]
            && Answer([p1], 2, 2, Body(Str("alice"), Num(70.0), Num(100.0)), NoFault) == BudgetExceeded
            && TableAfter([p1], 2, 2, Body(Str("alice"), Num(70.0), Num(100.0)), NoFault) == [p1]
            && Answer([p1], 2, 3, Body(Str("alice"), Num(60.0), Num(100.0)), NoFault) == Created(p2)
            && TableAfter([p1], 2, 3, Body(Str("alice"), Num(60.0), Num(100.0)), NoFault) == [p1, p2]
            && Answer([p1, p2], 3, 4, Body(Str("alice"), Num(1.0), Num(100.0)), NoFault) == BudgetExceeded
            && GrandTotal([p1, p2]) == 100.0
  {
    var p1, p2 := Pledge(1, "alice", 40.0, 1), Pledge(2, "alice", 60.0, 3);
    KeyTotalAppend([], p1, "alice");
    assert [] + [p1] == [p1];
    KeyTotalAppend([p1], p2, "alice");
    assert [p1] + [p2] == [p1, p2];
    TotalAppend([], p1);
    TotalAppend([p1], p2);
  }

  /** AUTO_INCREMENT ids: strictly rising in insertion order, all below `nextId`. */
  ghost predicate IdsBelow(t: seq<Pledge>, nextId: nat)
  {
    && (forall i, j :: 0 <= i < j < |t| ==> t[i].id < t[j].id)
    && (forall i :: 0 <= i < |t| ==> t[i].id < nextId)
  }

  /** Every key with rows has a ceiling, and its total stays within it. */
  ghost predicate WithinCeilings(t: seq<Pledge>, ceiling: map<string, real>)
  {
    && (forall i :: 0 <= i < |t| ==> t[i].publicKey in ceiling)
    && (forall k :: k in ceiling ==> KeyTotal(t, k) <= ceiling[k])
  }

  lemma AppendKeepsIds(t: seq<Pledge>, nextId: nat, p: Pledge)
    requires IdsBelow(t, nextId) && p.id == nextId
    ensures IdsBelow(t + [p], nextId + 1)
  {
  }

  /** An accepted row whose key's new total is within `balance` keeps every
      key within its ceiling once `balance` becomes that key's ceiling. */
  lemma AppendKeepsCeilings(t: seq<Pledge>, ceiling: map<string, real>, p: Pledge, balance: real)
    requires WithinCeilings(t, ceiling)
    requires KeyTotal(t, p.publicKey) + p.amount <= balance
    ensures WithinCeilings(t + [p], ceiling[p.publicKey := balance])
  {
    var c', t' := ceiling[p.publicKey := balance], t + [p];
    forall i | 0 <= i < |t'| ensures t'[i].publicKey in c' {
      if i < |t| {
        assert t'[i] == t[i];
      }
    }
    forall k | k in c' ensures KeyTotal(t', k) <= c'[k] {
      KeyTotalAppend(t, p, k);
    }
  }

  class Ledger {
    /** The rows of `pledges`, in insertion order. */
    var rows: seq<Pledge>
    /** The id AUTO_INCREMENT gives the next row. */
    var nextId: nat
    /** For each key with rows, the walletBalance of the latest submission
        that inserted one of them. It is never stored in the table. */
    ghost var ceiling: map<string, real>

    ghost predicate Valid()
      reads this
    {
      IdsBelow(rows, nextId) && WithinCeilings(rows, ceiling)
    }

    /** An empty table. */
    constructor ()
      ensures Valid()
      ensures rows == [] && nextId == 1 && ceiling == map[]
    {
      rows := [];
      nextId := 1;
      ceiling := map[];
    }

    /** `GET /pledgesDB`. */
    function ListRecent(): (r: seq<Pledge>)
      reads this
      ensures |r| == Min(|rows|, Limit)
      ensures NewestFirst(r)
      ensures multiset(r) <= multiset(rows)
      ensures forall q :: q in multiset(rows) - multiset(r) ==>
                forall i :: 0 <= i < |r| ==> q.createdAt <= r[i].createdAt
    {
      Recent(rows)
    }

    /** `GET /total-pledged`. */
    function TotalPledged(): (r: real)
      reads this
      ensures r == Total(rows)
      ensures rows == [] ==> r == 0.0
      ensures forall key :: r == KeyTotal(rows, key) + Total(Where(rows, key, false))
    {
      forall key ensures Total(rows) == KeyTotal(rows, key) + Total(Where(rows, key, false)) {
        TotalSplitsByKey(rows, key);
      }
      GrandTotal(rows)
    }

    /** The INSERT: appends a row with the next id, after the budget test
        has admitted it under `balance`. */
    method Insert(key: string, amount: real, now: nat, balance: real) returns (p: Pledge)
      requires Valid()
      requires KeyTotal(rows, key) + amount <= balance
      modifies this
      ensures Valid()
      ensures p == Pledge(old(nextId), key, amount, now)
      ensures rows == old(rows) + [p] && nextId == old(nextId) + 1
      ensures ceiling == old(ceiling)[key := balance]
    {
      p := Pledge(nextId, key, amount, now);
      AppendKeepsIds(rows, nextId, p);
      AppendKeepsCeilings(rows, ceiling, p, balance);
      rows := rows + [p];
      nextId := nextId + 1;
      ceiling := ceiling[key := balance];
    }

    /** `POST /pledgesDB` with the given body; `now` is the `created_at` the
        database stamps on an inserted row. */
    method Submit(body: Body, now: nat, fault: StorageFault) returns (out: Outcome)
      requires Valid()
      requires Typed(body)
      modifies this
      ensures Valid()
      ensures out == Answer(old(rows), old(nextId), now, body, fault)
      ensures rows == TableAfter(old(rows), old(nextId), now, body, fault)
      ensures nextId == old(nextId) + (if Inserts(old(rows), body, fault) then 1 else 0)
      ensures ceiling == if Inserts(old(rows), body, fault)
                         then old(ceiling)[Check(body).key := Check(body).balance]
                         else old(ceiling)
    {
      var c := Check(body);
      if c.Rejected? {
        return Invalid(c.reason);
      }
      if fault == AtConnect || fault == AtSumQuery {
        return StorageError;
      }
      var totalPledgedSoFar := OrZero(SumWhere(rows, c.key));
      if totalPledgedSoFar + c.amount > c.balance {
        if fault == AtRelease {
          return StorageError;
        }
        return BudgetExceeded;
      }
      if fault == AtInsert {
        return StorageError;
      }
      var p := Insert(c.key, c.amount, now, c.balance);
      if fault == AtRelease {
        return StorageError;
      }
      return Created(p);
    }
  }
}
