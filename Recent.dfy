/**
 * `SELECT id, publicKey, amount, created_at FROM pledges
 *  ORDER BY created_at DESC LIMIT 10`, the query of `GET /pledgesDB`.
 */
module RecentPledges {
  import opened PledgeTable

  /** The LIMIT of the query. */
  const Limit: nat := 10

  function Min(a: nat, b: nat): nat
  {
    if a <= b then a else b
  }

  /** Ordered by `created_at`, newest first. */
  predicate NewestFirst(s: seq<Pledge>)
  {
    forall i, j :: 0 <= i < j < |s| ==> s[i].createdAt >= s[j].createdAt
  }

  /** Places `p` into a newest-first sequence, ahead of every row stamped no
      later than it. */
  function InsertNewestFirst(p: Pledge, s: seq<Pledge>): (r: seq<Pledge>)
    requires NewestFirst(s)
    ensures NewestFirst(r)
    ensures multiset(r) == multiset(s) + multiset{p}
    ensures |r| == |s| + 1
    ensures r[0] == p || (s != [] && r[0] == s[0])
  {
    if s == [] || p.createdAt >= s[0].createdAt then
      ConsNewestFirst(p, s);
      [p] + s
    else
      var rest := InsertNewestFirst(p, s[1..]);
      assert s == [s[0]] + s[1..];
      ConsNewestFirst(s[0], rest);
      [s[0]] + rest
  }

  /** A row stamped no earlier than the head of a newest-first sequence can
      stand in front of it. */
  lemma ConsNewestFirst(x: Pledge, s: seq<Pledge>)
    requires NewestFirst(s)
    requires s != [] ==> s[0].createdAt <= x.createdAt
    ensures NewestFirst([x] + s)
  {
    var r := [x] + s;
    forall i, j | 0 <= i < j < |r| ensures r[i].createdAt >= r[j].createdAt {
      assert r[j] == s[j - 1];
      if i > 0 {
        assert r[i] == s[i - 1];
      } else {
        assert s[0].createdAt >= s[j - 1].createdAt;
      }
    }
  }

  /** The whole table, newest first (the ORDER BY). Rows with the same stamp
      stand in some order; the query does not fix one. */
  function SortNewestFirst(t: seq<Pledge>): (r: seq<Pledge>)
    ensures NewestFirst(r)
    ensures multiset(r) == multiset(t)
    ensures |r| == |t|
  {
    if t == [] then []
    else
      assert t == t[..|t| - 1] + [t[|t| - 1]];
      InsertNewestFirst(t[|t| - 1], SortNewestFirst(t[..|t| - 1]))
  }

  /** A prefix of a newest-first sequence holds its newest rows: nothing left
      out is stamped later than anything kept. */
  lemma PrefixIsNewest(s: seq<Pledge>, n: nat)
    requires NewestFirst(s) && n <= |s|
    ensures NewestFirst(s[..n])
    ensures multiset(s[..n]) <= multiset(s)
    ensures forall q :: q in multiset(s) - multiset(s[..n]) ==>
              forall i :: 0 <= i < n ==> q.createdAt <= s[i].createdAt
  {
    var front, back := s[..n], s[n..];
    forall i, j | 0 <= i < j < n ensures front[i].createdAt >= front[j].createdAt {
      assert front[i] == s[i] && front[j] == s[j];
    }
    SplitLeavesRest(s, n);
    forall q: Pledge | q in multiset(back)
      ensures forall i :: 0 <= i < n ==> q.createdAt <= s[i].createdAt
    {
      assert q in back;
      var k :| 0 <= k < |back| && back[k] == q;
      assert s[n + k] == q;
    }
  }

  lemma SplitLeavesRest(s: seq<Pledge>, n: nat)
    requires n <= |s|
    ensures multiset(s[..n]) <= multiset(s)
    ensures multiset(s) - multiset(s[..n]) == multiset(s[n..])
  {
    assert s == s[..n] + s[n..];
  }

  /** The query: at most `Limit` rows of the table, newest first, and no row
      left out is newer than a row returned. */
  function Recent(t: seq<Pledge>): (r: seq<Pledge>)
    ensures |r| == Min(|t|, Limit)
    ensures NewestFirst(r)
    ensures multiset(r) <= multiset(t)
    ensures forall q :: q in multiset(t) - multiset(r) ==>
              forall i :: 0 <= i < |r| ==> q.createdAt <= r[i].createdAt
  {
    var sorted := SortNewestFirst(t);
    PrefixIsNewest(sorted, Min(|t|, Limit));
    sorted[..Min(|t|, Limit)]
  }

  /** When stamps rise strictly with insertion, sorting reverses the table. */
  lemma {:induction false} SortOfInsertionOrder(t: seq<Pledge>)
    requires forall i, j :: 0 <= i < j < |t| ==> t[i].createdAt < t[j].createdAt
    ensures forall i :: 0 <= i < |t| ==> SortNewestFirst(t)[i] == t[|t| - 1 - i]
  {
    if t != [] {
      var init, last := t[..|t| - 1], t[|t| - 1];
      SortOfInsertionOrder(init);
      var s := SortNewestFirst(init);
      assert s != [] ==> s[0] == init[|init| - 1];
      var r := SortNewestFirst(t);
      assert r == [last] + s;
      forall i | 0 <= i < |t| ensures r[i] == t[|t| - 1 - i] {
        if i > 0 {
          assert r[i] == s[i - 1];
        }
      }
    }
  }

  /** When stamps rise strictly with insertion, the query returns the last
      `Min(|t|, Limit)` rows inserted, the latest first. */
  lemma RecentOfInsertionOrder(t: seq<Pledge>)
    requires forall i, j :: 0 <= i < j < |t| ==> t[i].createdAt < t[j].createdAt
    ensures forall i :: 0 <= i < |Recent(t)| ==> Recent(t)[i] == t[|t| - 1 - i]
  {
    SortOfInsertionOrder(t);
  }
}
