/**
 * The `pledges` table and the two aggregate queries run on it:
 * `SELECT SUM(amount) ... WHERE publicKey = ?` and `SELECT SUM(amount)`,
 * each read back through `rows[0].total || 0`.
 */
module PledgeTable {

  /** One row: the AUTO_INCREMENT `id`, the key, the amount, and the
      `created_at` stamp the database assigns on insertion. */
  datatype Pledge = Pledge(id: nat, publicKey: string, amount: real, createdAt: nat)

  /** The value of a SQL `SUM(amount)`: NULL when no row is aggregated. */
  datatype Aggregate = SqlNull | SqlValue(value: real)

  /** Sum of `amount` over every row of `t`. */
  function Total(t: seq<Pledge>): real
  {
    if t == [] then 0.0 else Total(t[..|t| - 1]) + t[|t| - 1].amount
  }

  /** The rows of `t`, in table order, whose key is `key` (when `matching`)
      or is not `key` (otherwise). */
  function Where(t: seq<Pledge>, key: string, matching: bool): (r: seq<Pledge>)
    ensures |r| <= |t|
    ensures forall p {:trigger multiset(r)[p]} :: multiset(r)[p] == if (p.publicKey == key) == matching then multiset(t)[p] else 0
  {
    if t == [] then []
    else
      var last := t[|t| - 1];
      assert t == t[..|t| - 1] + [last];
      Where(t[..|t| - 1], key, matching) + (if (last.publicKey == key) == matching then [last] else [])
  }

  /** The amount pledged so far under `key`: the sum over exactly its rows. */
  function KeyTotal(t: seq<Pledge>, key: string): real
  {
    Total(Where(t, key, true))
  }

  /** `SELECT SUM(amount) FROM pledges WHERE publicKey = ?`. */
  function SumWhere(t: seq<Pledge>, key: string): (r: Aggregate)
    ensures r == SqlNull <==> forall i :: 0 <= i < |t| ==> t[i].publicKey != key
    ensures r.SqlValue? ==> r.value == KeyTotal(t, key)
  {
    var rows := Where(t, key, true);
    if rows == [] then
      assert forall i :: 0 <= i < |t| ==> t[i].publicKey != key by {
        forall i | 0 <= i < |t| ensures t[i].publicKey != key {
          assert multiset(t)[t[i]] > 0;
          assert multiset(rows)[t[i]] == 0;
        }
      }
      SqlNull
    else
      assert multiset(rows)[rows[0]] > 0;
      assert rows[0] in t;
      SqlValue(KeyTotal(t, key))
  }

  /** `SELECT SUM(amount) FROM pledges`. */
  function SumAll(t: seq<Pledge>): Aggregate
  {
    if t == [] then SqlNull else SqlValue(Total(t))
  }

  /** JavaScript's `total || 0` on the aggregate read back. */
  function OrZero(a: Aggregate): real
  {
    match a
    case SqlNull => 0.0
    case SqlValue(v) => if v == 0.0 then 0.0 else v
  }

  /** `rows[0].total || 0` after the per-key SUM: the key's total, 0 when
      the key has no row. */
  function PriorTotal(t: seq<Pledge>, key: string): (r: real)
    ensures r == KeyTotal(t, key)
    ensures (forall i :: 0 <= i < |t| ==> t[i].publicKey != key) ==> r == 0.0
  {
    OrZero(SumWhere(t, key))
  }

  /** `rows[0].total || 0` after the global SUM: the sum of every amount,
      0 on an empty table. */
  function GrandTotal(t: seq<Pledge>): (r: real)
    ensures r == Total(t)
    ensures t == [] ==> r == 0.0
  {
    OrZero(SumAll(t))
  }

  lemma TotalAppend(t: seq<Pledge>, p: Pledge)
    ensures Total(t + [p]) == Total(t) + p.amount
  {
    assert (t + [p])[..|t|] == t;
  }

  lemma WhereAppend(t: seq<Pledge>, p: Pledge, key: string, matching: bool)
    ensures Where(t + [p], key, matching)
         == Where(t, key, matching) + (if (p.publicKey == key) == matching then [p] else [])
  {
    assert (t + [p])[..|t|] == t;
  }

  /** Appending a row adds its amount to its own key's total and leaves every
      other key's total as it was. */
  lemma {:induction false} KeyTotalAppend(t: seq<Pledge>, p: Pledge, key: string)
    ensures KeyTotal(t + [p], key) == KeyTotal(t, key) + (if p.publicKey == key then p.amount else 0.0)
  {
    WhereAppend(t, p, key, true);
    if p.publicKey == key {
      TotalAppend(Where(t, key, true), p);
    } else {
      assert Where(t + [p], key, true) == Where(t, key, true);
    }
  }

  /** The grand total is one key's total plus the total of all other rows. */
  lemma {:induction false} TotalSplitsByKey(t: seq<Pledge>, key: string)
    ensures Total(t) == KeyTotal(t, key) + Total(Where(t, key, false))
  {
    if t != [] {
      var init, last := t[..|t| - 1], t[|t| - 1];
      assert t == init + [last];
      TotalSplitsByKey(init, key);
      TotalAppend(init, last);
      KeyTotalAppend(init, last, key);
      WhereAppend(init, last, key, false);
      if last.publicKey != key {
        TotalAppend(Where(init, key, false), last);
      } else {
        assert Where(t, key, false) == Where(init, key, false);
      }
    }
  }
}
