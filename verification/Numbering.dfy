/** Sequences of distinct sequence numbers drawn from 1..n: counting, covering, sorting and summing. */
module Numbering {
  import opened Sequences

  ghost predicate Within(ks: seq<nat>, n: nat) {
    forall i :: 0 <= i < |ks| ==> 1 <= ks[i] <= n
  }

  ghost predicate Covers(ks: seq<nat>, n: nat) {
    forall k :: 1 <= k <= n ==> k in ks
  }

  function Without(ks: seq<nat>, p: nat): (r: seq<nat>)
    requires p < |ks|
    ensures |r| == |ks| - 1
    ensures forall i :: 0 <= i < |r| ==> r[i] == if i < p then ks[i] else ks[i + 1]
  {
    ks[..p] + ks[p + 1..]
  }

  lemma WithoutTop(ks: seq<nat>, n: nat, p: nat)
    requires Distinct(ks) && Within(ks, n) && p < |ks| && ks[p] == n
    ensures Distinct(Without(ks, p)) && Within(Without(ks, p), n - 1)
    ensures Covers(ks, n) ==> Covers(Without(ks, p), n - 1)
  {
    var r := Without(ks, p);
    if Covers(ks, n) {
      forall k | 1 <= k <= n - 1 ensures k in r {
        assert k in ks;
        var i :| 0 <= i < |ks| && ks[i] == k;
        assert r[if i < p then i else i - 1] == k;
      }
    }
  }

  lemma WithinLess(ks: seq<nat>, n: nat)
    requires n > 0 && Within(ks, n) && n !in ks
    ensures Within(ks, n - 1)
  {
    forall i | 0 <= i < |ks| ensures 1 <= ks[i] <= n - 1 {
      assert ks[i] in ks;
    }
  }

  /** Distinct numbers within 1..n are at most n many. */
  lemma {:induction false} AtMost(ks: seq<nat>, n: nat)
    requires Distinct(ks) && Within(ks, n)
    ensures |ks| <= n
  {
    assert |ks| > 0 ==> 1 <= ks[0] <= n;
    if n == 0 {
    } else if n in ks {
      var p :| 0 <= p < |ks| && ks[p] == n;
      WithoutTop(ks, n, p);
      AtMost(Without(ks, p), n - 1);
    } else {
      WithinLess(ks, n);
      AtMost(ks, n - 1);
    }
  }

  /** Distinct numbers within 1..n are n many exactly when every number occurs. */
  lemma {:induction false} FullIffCovers(ks: seq<nat>, n: nat)
    requires Distinct(ks) && Within(ks, n)
    ensures |ks| == n <==> Covers(ks, n)
  {
    if n == 0 {
      AtMost(ks, n);
    } else if n in ks {
      var p :| 0 <= p < |ks| && ks[p] == n;
      WithoutTop(ks, n, p);
      var r := Without(ks, p);
      FullIffCovers(r, n - 1);
      if Covers(r, n - 1) {
        forall k | 1 <= k <= n ensures k in ks {
          if k < n {
            assert k in r;
            var i :| 0 <= i < |r| && r[i] == k;
            assert ks[if i < p then i else i + 1] == k;
          }
        }
      }
    } else {
      WithinLess(ks, n);
      AtMost(ks, n - 1);
    }
  }

  /** Strictly increasing numbers from 1..n, n of them, are 1, 2, ..., n. */
  lemma {:induction false} IncreasingIsIdentity(ks: seq<nat>, n: nat)
    requires |ks| == n && Within(ks, n) && forall i, j :: 0 <= i < j < n ==> ks[i] < ks[j]
    ensures forall i :: 0 <= i < n ==> ks[i] == i + 1
  {
    if n > 0 {
      var front := ks[..n - 1];
      assert forall i :: 0 <= i < n - 1 ==> ks[i] < ks[n - 1];
      IncreasingIsIdentity(front, n - 1);
      assert forall i :: 0 <= i < n - 1 ==> front[i] == ks[i];
      if n > 1 { assert front[n - 2] == n - 1; }
    }
  }

  function Sum(ws: seq<nat>): nat {
    if ws == [] then 0 else Sum(ws[..|ws| - 1]) + ws[|ws| - 1]
  }

  lemma SumAppend(ws: seq<nat>, w: nat)
    ensures Sum(ws + [w]) == Sum(ws) + w
  {
    assert (ws + [w])[..|ws|] == ws;
  }

  lemma {:induction false} SumWithout(ws: seq<nat>, p: nat)
    requires p < |ws|
    ensures Sum(ws) == Sum(Without(ws, p)) + ws[p]
  {
    var last := |ws| - 1;
    if p == last {
      assert Without(ws, p) == ws[..last];
    } else {
      SumWithout(ws[..last], p);
      var r := Without(ws, p);
      assert r[..|r| - 1] == Without(ws[..last], p);
      assert r[|r| - 1] == ws[last];
    }
  }

  ghost predicate Listed(ks: seq<nat>, ws: seq<nat>, table: seq<nat>) {
    && |ks| == |ws| == |table|
    && Distinct(ks)
    && Within(ks, |table|)
    && forall i :: 0 <= i < |ks| ==> 1 <= ks[i] <= |table| && ws[i] == table[ks[i] - 1]
  }

  lemma ListedWithoutTop(ks: seq<nat>, ws: seq<nat>, table: seq<nat>, p: nat)
    requires Listed(ks, ws, table) && p < |ks| && ks[p] == |table|
    ensures Listed(Without(ks, p), Without(ws, p), table[..|table| - 1])
  {
    WithoutTop(ks, |table|, p);
  }

  /** Weights listed in the order of a permutation of 1..n add up to the same total. */
  lemma {:induction false} SumPermuted(ks: seq<nat>, ws: seq<nat>, table: seq<nat>)
    requires Listed(ks, ws, table)
    ensures Sum(ws) == Sum(table)
    decreases |table|
  {
    var n := |table|;
    FullIffCovers(ks, n);
    if n > 0 {
      assert n in ks;
      var p :| 0 <= p < |ks| && ks[p] == n;
      SumWithout(ws, p);
      ListedWithoutTop(ks, ws, table, p);
      SumPermuted(Without(ks, p), Without(ws, p), table[..n - 1]);
    }
  }
}
