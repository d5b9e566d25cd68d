/**
 * The drain pipeline of the push loop: the pending queue grouped by Index, the last
 * update of each group kept, the result ordered by Index (PushService.cs:104-108).
 */
module Coalescing {
  import opened Wrappers
  import opened Monsters

  /** The slot indices that occur in a sequence of updates. */
  function Indices(q: seq<MonsterModel>): set<int> {
    set m | m in q :: m.index
  }

  /** Each update has a larger index than the one before it. */
  predicate StrictlyAscending(s: seq<MonsterModel>) {
    |s| <= 1 || (s[0].index < s[1].index && StrictlyAscending(s[1..]))
  }

  lemma IndicesCons(a: MonsterModel, s: seq<MonsterModel>)
    ensures Indices([a] + s) == {a.index} + Indices(s)
  {
    assert forall x :: x in [a] + s <==> x == a || x in s;
  }

  /** The head of an ascending batch is below every later index. */
  lemma {:induction false} AscendingHead(s: seq<MonsterModel>)
    requires s != [] && StrictlyAscending(s)
    ensures forall i :: i in Indices(s[1..]) ==> s[0].index < i
  {
    if |s| > 1 {
      AscendingHead(s[1..]);
      assert s[1..] == [s[1]] + s[2..];
      IndicesCons(s[1], s[2..]);
    }
  }

  /** Ascending means ascending for every pair of positions, not only neighbours. */
  lemma {:induction false} AscendingPairwise(s: seq<MonsterModel>)
    requires StrictlyAscending(s)
    ensures forall j, k :: 0 <= j < k < |s| ==> s[j].index < s[k].index
  {
    if |s| > 1 {
      AscendingPairwise(s[1..]);
      AscendingHead(s);
      forall k | 0 < k < |s| ensures s[0].index < s[k].index {
        assert s[k] == s[1..][k - 1];
      }
      forall j, k | 0 < j < k < |s| ensures s[j].index < s[k].index {
        assert s[j] == s[1..][j - 1] && s[k] == s[1..][k - 1];
      }
    }
  }

  /**
   * Reference definition of "the update that supersedes all others for slot i":
   * the one appended last with that index, if any.
   */
  function LastWith(q: seq<MonsterModel>, i: int): (r: Option<MonsterModel>)
    ensures r.Some? <==> i in Indices(q)
    ensures r.Some? ==> r.value in q && r.value.index == i
  {
    if q == [] then None
    else
      var init := q[..|q| - 1];
      assert q == init + [q[|q| - 1]];
      assert Indices(q) == Indices(init) + {q[|q| - 1].index};
      if q[|q| - 1].index == i then Some(q[|q| - 1]) else LastWith(init, i)
  }

  /**
   * LastWith is the last: the update it gives occurs at some position of the queue
   * after which no update has index i.
   */
  lemma {:induction false} LastWithIsLast(q: seq<MonsterModel>, i: int)
    ensures LastWith(q, i).Some? ==>
      exists j :: 0 <= j < |q| && q[j] == LastWith(q, i).value
        && forall k :: j < k < |q| ==> q[k].index != i
  {
    if q != [] && q[|q| - 1].index != i {
      var init := q[..|q| - 1];
      LastWithIsLast(init, i);
      if LastWith(init, i).Some? {
        var j :| 0 <= j < |init| && init[j] == LastWith(init, i).value
          && forall k :: j < k < |init| ==> init[k].index != i;
        assert q[j] == LastWith(q, i).value;
      }
    }
  }

  /**
   * Puts `m` into an ascending batch: it replaces the entry with the same index,
   * or is inserted at its place in the order.
   */
  function Upsert(s: seq<MonsterModel>, m: MonsterModel): (r: seq<MonsterModel>)
    requires StrictlyAscending(s)
    ensures StrictlyAscending(r)
    ensures r != [] && (r[0] == m || (s != [] && r[0] == s[0]))
    ensures |r| <= |s| + 1
  {
    if s == [] then [m]
    else if m.index < s[0].index then [m] + s
    else if m.index == s[0].index then
      assert |s| > 1 ==> s[1] == s[1..][0];
      [m] + s[1..]
    else
      assert |s| > 1 ==> s[1] == s[1..][0];
      [s[0]] + Upsert(s[1..], m)
  }

  /** Upsert adds the index of `m` to the batch and no other. */
  lemma {:induction false} UpsertIndices(s: seq<MonsterModel>, m: MonsterModel)
    requires StrictlyAscending(s)
    ensures Indices(Upsert(s, m)) == Indices(s) + {m.index}
  {
    if s != [] {
      assert s == [s[0]] + s[1..];
      IndicesCons(s[0], s[1..]);
      if m.index < s[0].index {
        IndicesCons(m, s);
      } else if m.index == s[0].index {
        IndicesCons(m, s[1..]);
      } else {
        UpsertIndices(s[1..], m);
        IndicesCons(s[0], Upsert(s[1..], m));
      }
    }
  }

  /** Every update Upsert returns is `m` or an update of the batch with another index. */
  lemma {:induction false} UpsertOnlyReplaces(s: seq<MonsterModel>, m: MonsterModel)
    requires StrictlyAscending(s)
    ensures m in Upsert(s, m)
    ensures forall x :: x in Upsert(s, m) ==> x == m || (x in s && x.index != m.index)
  {
    if s != [] {
      if m.index == s[0].index {
        AscendingHead(s);
        forall x | x in s[1..] ensures x.index != m.index {
          assert x.index in Indices(s[1..]);
        }
      } else if m.index > s[0].index {
        UpsertOnlyReplaces(s[1..], m);
        assert s == [s[0]] + s[1..];
        forall x | x in Upsert(s, m) ensures x == m || (x in s && x.index != m.index) {
          if x != s[0] {
            assert x in Upsert(s[1..], m);
          }
        }
      } else {
        AscendingHead(s);
        forall x | x in s ensures x.index != m.index {
          if x != s[0] {
            assert x in s[1..] by { assert s == [s[0]] + s[1..]; }
            assert x.index in Indices(s[1..]);
          }
        }
      }
    }
  }

  /**
   * The drained batch of queue `q`. Its contract is the pipeline's promise: the indices
   * of the batch are exactly those queued, each update in it is the last one appended
   * with its index, the batch is strictly ascending by index, and never longer than
   * the queue.
   */
  function Coalesce(q: seq<MonsterModel>): (r: seq<MonsterModel>)
    ensures StrictlyAscending(r)
    ensures Indices(r) == Indices(q)
    ensures forall m :: m in r ==> LastWith(q, m.index) == Some(m)
    ensures |r| <= |q|
  {
    if q == [] then []
    else
      var init := q[..|q| - 1];
      assert q == init + [q[|q| - 1]];
      assert Indices(q) == Indices(init) + {q[|q| - 1].index};
      var done := Coalesce(init);
      UpsertIndices(done, q[|q| - 1]);
      UpsertOnlyReplaces(done, q[|q| - 1]);
      Upsert(done, q[|q| - 1])
  }

  /** In a strictly ascending batch no index occurs twice: one entry per index. */
  lemma {:induction false} AscendingHasOnePerIndex(s: seq<MonsterModel>)
    requires StrictlyAscending(s)
    ensures |Indices(s)| == |s|
  {
    if s != [] {
      AscendingHasOnePerIndex(s[1..]);
      AscendingHead(s);
      assert s == [s[0]] + s[1..];
      IndicesCons(s[0], s[1..]);
      assert s[0].index !in Indices(s[1..]);
    }
  }

  /** The drained batch holds exactly one update per distinct index queued. */
  lemma CoalesceOnePerIndex(q: seq<MonsterModel>)
    ensures |Coalesce(q)| == |Indices(q)|
  {
    AscendingHasOnePerIndex(Coalesce(q));
  }

  /**
   * Two ascending batches with the same indices that agree on every index are equal;
   * so the contract of Coalesce determines its result completely, whatever order the
   * grouping visits the queue in.
   */
  lemma {:induction false} AscendingDeterminedByContents(a: seq<MonsterModel>, b: seq<MonsterModel>)
    requires StrictlyAscending(a) && StrictlyAscending(b)
    requires Indices(a) == Indices(b)
    requires forall x, y :: x in a && y in b && x.index == y.index ==> x == y
    ensures a == b
  {
    AscendingHasOnePerIndex(a);
    AscendingHasOnePerIndex(b);
    if a != [] {
      HeadsAgree(a, b);
      AscendingDeterminedByContents(a[1..], b[1..]);
      assert a == [a[0]] + a[1..];
      assert b == [b[0]] + b[1..];
    }
  }

  /** Dropping the head of an ascending batch drops exactly its index. */
  lemma IndicesTail(s: seq<MonsterModel>)
    requires s != [] && StrictlyAscending(s)
    ensures Indices(s[1..]) == Indices(s) - {s[0].index}
  {
    assert s == [s[0]] + s[1..];
    IndicesCons(s[0], s[1..]);
    AscendingHead(s);
  }

  /** Two ascending batches with the same indices start with the same index. */
  lemma HeadIndexAgrees(a: seq<MonsterModel>, b: seq<MonsterModel>)
    requires a != [] && b != []
    requires StrictlyAscending(a) && StrictlyAscending(b)
    requires Indices(a) == Indices(b)
    ensures a[0].index == b[0].index
  {
    assert a == [a[0]] + a[1..];
    IndicesCons(a[0], a[1..]);
    AscendingHead(a);
    assert b == [b[0]] + b[1..];
    IndicesCons(b[0], b[1..]);
    AscendingHead(b);
    assert a[0].index in Indices(b);
    assert b[0].index in Indices(a);
  }

  /** The step of AscendingDeterminedByContents: equal heads, and tails that again agree. */
  lemma HeadsAgree(a: seq<MonsterModel>, b: seq<MonsterModel>)
    requires a != [] && b != []
    requires StrictlyAscending(a) && StrictlyAscending(b)
    requires Indices(a) == Indices(b)
    requires forall x, y :: x in a && y in b && x.index == y.index ==> x == y
    ensures a[0] == b[0]
    ensures Indices(a[1..]) == Indices(b[1..])
    ensures forall x, y :: x in a[1..] && y in b[1..] && x.index == y.index ==> x == y
  {
    HeadIndexAgrees(a, b);
    assert a[0] in a && b[0] in b;
    IndicesTail(a);
    IndicesTail(b);
    forall x, y | x in a[1..] && y in b[1..] && x.index == y.index ensures x == y {
      assert x in a && y in b;
    }
  }

  /**
   * Any batch that keeps the last update of every queued index, once per index and in
   * ascending order, is the drained batch: Coalesce is the GroupBy/Last/OrderBy result.
   */
  lemma CoalesceIsUnique(q: seq<MonsterModel>, r: seq<MonsterModel>)
    requires StrictlyAscending(r)
    requires Indices(r) == Indices(q)
    requires forall m :: m in r ==> LastWith(q, m.index) == Some(m)
    ensures r == Coalesce(q)
  {
    AscendingDeterminedByContents(r, Coalesce(q));
  }
}
