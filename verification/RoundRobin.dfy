/**
 The order in which `balancer_round_robin` of src/proxy/balancer.c picks backends while
 the set of healthy ones stays the same.
 */
module RoundRobin {
  import opened StringUtil

  /** The position `k` places after `start` on a ring of `n`. */
  function Ring(start: nat, k: nat, n: nat): (r: nat)
    requires start < n && k <= n
    ensures r < n
  {
    if start + k < n then start + k else start + k - n
  }

  /** The first healthy position, looking from `k` places after `start` once round. */
  function Scan(hs: seq<bool>, start: nat, k: nat): (r: Option<nat>)
    requires start < |hs| && k <= |hs|
    ensures r.Some? ==> r.value < |hs| && hs[r.value]
    decreases |hs| - k
  {
    if k == |hs| then None
    else if hs[Ring(start, k, |hs|)] then Some(Ring(start, k, |hs|))
    else Scan(hs, start, k + 1)
  }

  /** What `balancer_round_robin` returns from index `rr`. */
  function Pick(hs: seq<bool>, rr: nat): (r: Option<nat>)
    requires rr < |hs|
    ensures r.Some? ==> r.value < |hs| && hs[r.value]
  {
    Scan(hs, rr, 0)
  }

  /** The index it leaves behind. */
  function NextIndex(hs: seq<bool>, rr: nat): (r: nat)
    requires rr < |hs|
    ensures r < |hs|
  {
    if Pick(hs, rr).None? then rr else Ring(Pick(hs, rr).value, 1, |hs|)
  }

  /** `m` selections in a row. */
  function Picks(hs: seq<bool>, rr: nat, m: nat): (r: seq<Option<nat>>)
    requires rr < |hs|
    ensures |r| == m
    decreases m
  {
    if m == 0 then [] else [Pick(hs, rr)] + Picks(hs, NextIndex(hs, rr), m - 1)
  }

  // ----- the healthy positions in order -----

  /** The healthy positions below `i`, in ascending order. */
  function Below(hs: seq<bool>, i: nat): (r: seq<nat>)
    requires i <= |hs|
  {
    if i == 0 then [] else if hs[i - 1] then Below(hs, i - 1) + [i - 1] else Below(hs, i - 1)
  }

  lemma {:induction false} BelowIsSorted(hs: seq<bool>, i: nat)
    requires i <= |hs|
    ensures forall k | 0 <= k < |Below(hs, i)| :: Below(hs, i)[k] < i && hs[Below(hs, i)[k]]
    ensures forall j | 0 <= j < i && hs[j] :: j in Below(hs, i)
    ensures forall k, l | 0 <= k < l < |Below(hs, i)| :: Below(hs, i)[k] < Below(hs, i)[l]
  {
    if i > 0 {
      BelowIsSorted(hs, i - 1);
      var r, p := Below(hs, i), Below(hs, i - 1);
      assert hs[i - 1] ==> r[|p|] == i - 1;
      assert p <= r;
    }
  }

  function Healthy(hs: seq<bool>): (r: seq<nat>)
    ensures forall k | 0 <= k < |r| :: r[k] < |hs| && hs[r[k]]
    ensures forall j | 0 <= j < |hs| && hs[j] :: j in r
    ensures forall k, l | 0 <= k < l < |r| :: r[k] < r[l]
  {
    BelowIsSorted(hs, |hs|);
    Below(hs, |hs|)
  }

  /** How many healthy positions lie below `i`. */
  function Rank(hs: seq<bool>, i: nat): nat
    requires i <= |hs|
  {
    |Below(hs, i)|
  }

  lemma {:induction false} BelowPrefix(hs: seq<bool>, i: nat, j: nat)
    requires i <= j <= |hs|
    ensures Below(hs, i) <= Below(hs, j)
    ensures i < j && hs[i] ==> Rank(hs, i) < Rank(hs, j) && Below(hs, j)[Rank(hs, i)] == i
    decreases j - i
  {
    if i < j {
      BelowPrefix(hs, i, j - 1);
    }
  }

  lemma {:induction false} BelowSame(hs: seq<bool>, i: nat, j: nat)
    requires i <= j <= |hs| && forall k | i <= k < j :: !hs[k]
    ensures Below(hs, i) == Below(hs, j)
    decreases j - i
  {
    if i < j { BelowSame(hs, i, j - 1); }
  }

  // ----- each pick in terms of the order -----

  /** Nobody healthy in the places already passed. */
  predicate Passed(hs: seq<bool>, start: nat, k: nat)
    requires start < |hs| && k <= |hs|
  {
    forall i | 0 <= i < k :: !hs[Ring(start, i, |hs|)]
  }

  lemma {:induction false} ScanFinds(hs: seq<bool>, start: nat, k: nat)
    requires start < |hs| && k <= |hs| && Passed(hs, start, k)
    ensures var r := Scan(hs, start, k);
            if r.None? then Passed(hs, start, |hs|)
            else exists d | k <= d < |hs| :: r.value == Ring(start, d, |hs|) && Passed(hs, start, d)
    decreases |hs| - k
  {
    if k < |hs| {
      if !hs[Ring(start, k, |hs|)] {
        ScanFinds(hs, start, k + 1);
      }
    }
  }

  /** Nothing is picked exactly when nobody is healthy. */
  lemma PickNone(hs: seq<bool>, rr: nat)
    requires rr < |hs|
    ensures Pick(hs, rr).None? <==> Healthy(hs) == []
  {
    hide Scan, Below;
    var h := Healthy(hs);
    assert h != [] ==> hs[h[0]];
    ScanFinds(hs, rr, 0);
    if Pick(hs, rr).None? {
      forall j | 0 <= j < |hs| ensures !hs[j] {
        var i := if j >= rr then j - rr else j + |hs| - rr;
        assert Ring(rr, i, |hs|) == j;
      }
    }
  }

  /** The pick is the healthy position whose rank the index has reached, or the first when it is past the last. */
  lemma PickRank(hs: seq<bool>, rr: nat)
    requires rr < |hs| && Healthy(hs) != []
    ensures var h, p := Healthy(hs), Rank(hs, rr);
            && p <= |h|
            && Pick(hs, rr) == Some(h[if p < |h| then p else 0])
  {
    hide Scan, Below;
    var h, n := Healthy(hs), |hs|;
    PickNone(hs, rr);
    ScanFinds(hs, rr, 0);
    var x := Pick(hs, rr).value;
    var d :| 0 <= d < n && x == Ring(rr, d, n) && Passed(hs, rr, d);
    BelowPrefix(hs, rr, n);
    BelowPrefix(hs, x, n);
    if rr + d < n {
      forall k | rr <= k < x ensures !hs[k] { assert Ring(rr, k - rr, n) == k; }
      BelowSame(hs, rr, x);
    } else {
      forall k | rr <= k < n ensures !hs[k] { assert Ring(rr, k - rr, n) == k; }
      BelowSame(hs, rr, n);
      forall k | 0 <= k < x ensures !hs[k] { assert Ring(rr, k + n - rr, n) == k; }
      BelowSame(hs, 0, x);
      assert Below(hs, 0) == [] by { BelowZero(hs); }
    }
  }

  lemma BelowZero(hs: seq<bool>)
    ensures Below(hs, 0) == []
  {
  }

  /** After the pick of rank `p` the index has rank `p + 1`, starting over after the last. */
  lemma NextRank(hs: seq<bool>, rr: nat)
    requires rr < |hs| && Healthy(hs) != []
    ensures var h, p := Healthy(hs), Rank(hs, rr);
            var q := if p < |h| then p else 0;
            var r := Rank(hs, NextIndex(hs, rr));
            r == q + 1 || (r == 0 && q + 1 == |h|)
  {
    hide Scan, Below;
    var h, p := Healthy(hs), Rank(hs, rr);
    var q := if p < |h| then p else 0;
    PickRank(hs, rr);
    var x := h[q];
    BelowStep(hs, x);
    BelowPrefix(hs, x, |hs|);
    Increasing(h, q, Rank(hs, x));
    BelowZero(hs);
  }

  lemma BelowStep(hs: seq<bool>, x: nat)
    requires x < |hs| && hs[x]
    ensures Rank(hs, x + 1) == Rank(hs, x) + 1
  {
  }

  lemma Increasing(h: seq<nat>, i: nat, j: nat)
    requires i < |h| && j < |h| && h[i] == h[j] && forall k, l | 0 <= k < l < |h| :: h[k] < h[l]
    ensures i == j
  {
  }

  /** The picks walk round the healthy positions in order. */
  lemma {:induction false} PicksCycle(hs: seq<bool>, rr: nat, m: nat, j: nat)
    requires rr < |hs| && Healthy(hs) != [] && j < m <= |Healthy(hs)|
    ensures var h, p := Healthy(hs), Rank(hs, rr);
            Picks(hs, rr, m)[j] == Some(h[Ring(if p < |h| then p else 0, j, |h|)])
    decreases m
  {
    hide Pick, NextIndex, Healthy, Rank;
    PickRank(hs, rr);
    if j > 0 {
      NextRank(hs, rr);
      PicksCycle(hs, NextIndex(hs, rr), m - 1, j - 1);
    }
  }

  /** One full round: every healthy position exactly once, in order, from wherever the index stood. */
  lemma RoundIsRotation(hs: seq<bool>, rr: nat)
    requires rr < |hs| && Healthy(hs) != []
    ensures var h, p := Healthy(hs), Rank(hs, rr);
            var q := if p < |h| then p else 0;
            Picks(hs, rr, |h|) == Wrap(h[q..] + h[..q])
  {
    hide Picks, Healthy, Rank;
    var h, p := Healthy(hs), Rank(hs, rr);
    var q := if p < |h| then p else 0;
    forall j | 0 <= j < |h| ensures Picks(hs, rr, |h|)[j] == Wrap(h[q..] + h[..q])[j] {
      PicksCycle(hs, rr, |h|, j);
    }
  }

  function Wrap(s: seq<nat>): (r: seq<Option<nat>>)
    ensures |r| == |s| && forall i | 0 <= i < |s| :: r[i] == Some(s[i])
  {
    seq(|s|, i requires 0 <= i < |s| => Some(s[i]))
  }

  // ----- fairness -----

  function Count(s: seq<Option<nat>>, x: nat): nat {
    if s == [] then 0 else (if s[0] == Some(x) then 1 else 0) + Count(s[1..], x)
  }

  lemma {:induction false} CountConcat(a: seq<Option<nat>>, b: seq<Option<nat>>, x: nat)
    ensures Count(a + b, x) == Count(a, x) + Count(b, x)
  {
    if a == [] {
      assert a + b == b;
    } else {
      assert (a + b)[1..] == a[1..] + b;
      CountConcat(a[1..], b, x);
    }
  }

  lemma {:induction false} CountDistinct(s: seq<Option<nat>>, x: nat)
    requires forall i, j | 0 <= i < j < |s| :: s[i] != s[j]
    ensures Count(s, x) == if Some(x) in s then 1 else 0
  {
    if s != [] {
      assert s == [s[0]] + s[1..];
      CountDistinct(s[1..], x);
    }
  }

  /** Any `h` selections in a row, `h` being the number of healthy backends, take each of them exactly once. */
  lemma RoundFair(hs: seq<bool>, rr: nat, x: nat)
    requires rr < |hs| && Healthy(hs) != []
    ensures Count(Picks(hs, rr, |Healthy(hs)|), x) == if x < |hs| && hs[x] then 1 else 0
  {
    hide Picks, Rank, Below;
    var h, p := Healthy(hs), Rank(hs, rr);
    RoundIsRotation(hs, rr);
    TurnedCount(h, if p < |h| then p else 0, x);
  }

  lemma TurnedCount(h: seq<nat>, q: nat, x: nat)
    requires q <= |h| && forall k, l | 0 <= k < l < |h| :: h[k] < h[l]
    ensures Count(Wrap(h[q..] + h[..q]), x) == if x in h then 1 else 0
  {
    hide Count;
    var w := Wrap(h[q..] + h[..q]);
    forall i | 0 <= i < |w| ensures w[i] == Some(h[if i < |h| - q then i + q else i - (|h| - q)]) {
    }
    if x in h {
      var k :| 0 <= k < |h| && h[k] == x;
      assert w[if k >= q then k - q else k + |h| - q] == Some(x);
    }
    CountDistinct(w, x);
  }

  /** The index after `m` selections. */
  function IndexAfter(hs: seq<bool>, rr: nat, m: nat): (r: nat)
    requires rr < |hs|
    ensures r < |hs|
    decreases m
  {
    if m == 0 then rr else IndexAfter(hs, NextIndex(hs, rr), m - 1)
  }

  lemma {:induction false} PicksSplit(hs: seq<bool>, rr: nat, a: nat, b: nat)
    requires rr < |hs|
    ensures Picks(hs, rr, a + b) == Picks(hs, rr, a) + Picks(hs, IndexAfter(hs, rr, a), b)
    decreases a
  {
    hide Pick, NextIndex;
    if a > 0 { PicksSplit(hs, NextIndex(hs, rr), a - 1, b); }
  }

  /** Over any window of selections two healthy backends are picked equally often, give or take one. */
  lemma {:induction false} WindowFair(hs: seq<bool>, rr: nat, m: nat, x: nat, y: nat)
    requires rr < |hs| && x < |hs| && y < |hs| && hs[x] && hs[y]
    ensures var s := Picks(hs, rr, m); Count(s, x) <= Count(s, y) + 1
    decreases m
  {
    hide Picks, Healthy, IndexAfter;
    var n := |Healthy(hs)|;
    assert x in Healthy(hs) by { IsHealthy(hs, x); }
    if m >= n {
      PicksSplit(hs, rr, n, m - n);
      var rest := Picks(hs, IndexAfter(hs, rr, n), m - n);
      CountConcat(Picks(hs, rr, n), rest, x);
      CountConcat(Picks(hs, rr, n), rest, y);
      RoundFair(hs, rr, x);
      RoundFair(hs, rr, y);
      WindowFair(hs, IndexAfter(hs, rr, n), m - n, x, y);
    } else {
      PicksSplit(hs, rr, m, n - m);
      CountConcat(Picks(hs, rr, m), Picks(hs, IndexAfter(hs, rr, m), n - m), x);
      RoundFair(hs, rr, x);
    }
  }

  lemma IsHealthy(hs: seq<bool>, x: nat)
    requires x < |hs| && hs[x]
    ensures x in Healthy(hs)
  {
  }
}
