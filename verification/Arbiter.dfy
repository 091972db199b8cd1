// rtl/common/arbiter_rr.sv: round-robin arbiter.
module Arbiter {
  // Positions passed over when the search from after `last` reaches j.
  function Distance(n: nat, last: nat, j: nat): int {
    if j > last then j - last - 1 else j + n - last - 1
  }

  // The combinational search, as the loop leaves it.
  ghost predicate IsGrant(req: seq<bool>, last: nat, grant: seq<bool>) {
    |grant| == |req| &&
    forall j :: 0 <= j < |req| ==>
      (grant[j] <==>
       req[j] && forall k :: 0 <= k < |req| && req[k] ==> Distance(|req|, last, j) <= Distance(|req|, last, k))
  }

  ghost predicate OneHotAt(grant: seq<bool>, j: int) {
    0 <= j < |grant| && forall k :: 0 <= k < |grant| ==> (grant[k] <==> k == j)
  }

  ghost predicate NoGrant(grant: seq<bool>) { forall k :: 0 <= k < |grant| ==> !grant[k] }

  lemma DistanceInjective(n: nat, last: nat, j: nat, k: nat)
    requires last < n && j < n && k < n && Distance(n, last, j) == Distance(n, last, k)
    ensures j == k
  {}

  // A grant is one-hot exactly when some request is up, and goes to a requester.
  lemma {:induction false} OneHotExactly(req: seq<bool>, last: nat, grant: seq<bool>)
    requires IsGrant(req, last, grant) && last < |req|
    ensures (exists j :: OneHotAt(grant, j)) <==> (exists j :: 0 <= j < |req| && req[j])
    ensures forall j :: OneHotAt(grant, j) ==> req[j]
    ensures !(exists j :: 0 <= j < |req| && req[j]) ==> NoGrant(grant)
  {
    if exists j :: 0 <= j < |req| && req[j] {
      var m := Nearest(req, last);
      assert grant[m];
      forall k | 0 <= k < |grant| && grant[k] ensures k == m {
        DistanceInjective(|req|, last, k, m);
      }
      assert OneHotAt(grant, m);
    } else {
      assert forall j :: OneHotAt(grant, j) ==> grant[j];
    }
  }

  // Going up from the last grant and on from zero, nobody asks before the winner.
  lemma {:induction false} NoneBefore(req: seq<bool>, last: nat, grant: seq<bool>, w: nat, j: nat)
    requires IsGrant(req, last, grant) && last < |req| && OneHotAt(grant, w) && j < |req| && req[j]
    ensures last < w ==> !(last < j < w)
    ensures w <= last ==> w <= j <= last
  {
    assert grant[w];
    assert Distance(|req|, last, w) <= Distance(|req|, last, j);
  }

  lemma {:induction false} Nearest(req: seq<bool>, last: nat) returns (m: nat)
    requires last < |req| && exists j :: 0 <= j < |req| && req[j]
    ensures m < |req| && req[m]
    ensures forall k :: 0 <= k < |req| && req[k] ==> Distance(|req|, last, m) <= Distance(|req|, last, k)
  {
    var start :| 0 <= start < |req| && req[start];
    m := start;
    var i := 0;
    while i < |req|
      invariant 0 <= i <= |req| && 0 <= m < |req| && req[m]
      invariant forall k :: 0 <= k < i && req[k] ==> Distance(|req|, last, m) <= Distance(|req|, last, k)
    {
      if req[i] && Distance(|req|, last, i) < Distance(|req|, last, m) { m := i; }
      i := i + 1;
    }
  }

  // The search of the source, in its own order.
  method Search(req: seq<bool>, last: nat) returns (grant: seq<bool>)
    requires last < |req|
    ensures IsGrant(req, last, grant)
  {
    var n := |req|;
    grant := seq(n, i => false);
    var taken := false;
    ghost var winner := 0;
    for i := 0 to n
      invariant |grant| == n && 0 <= winner < n
      invariant !taken ==> NoGrant(grant) && forall k :: 0 <= k < n && Distance(n, last, k) < i ==> !req[k]
      invariant taken ==> OneHotAt(grant, winner) && req[winner] &&
                          forall k :: 0 <= k < n && req[k] ==> Distance(n, last, winner) <= Distance(n, last, k)
    {
      var idx := last + 1 + i;
      if idx >= n { idx := idx - n; }
      assert Distance(n, last, idx) == i;
      if req[idx] && !taken {
        grant := grant[idx := true];
        taken := true;
        winner := idx;
        forall k | 0 <= k < n && req[k] ensures i <= Distance(n, last, k) {}
      } else if !taken {
        forall k | 0 <= k < n && Distance(n, last, k) < i + 1 ensures !req[k] {
          if Distance(n, last, k) == i { DistanceInjective(n, last, k, idx); }
        }
      }
    }
    if taken {
      forall j | 0 <= j < n && req[j] && Distance(n, last, j) == Distance(n, last, winner) ensures j == winner {
        DistanceInjective(n, last, j, winner);
      }
    }
  }

  // The register after the clock edge.
  ghost predicate NextLast(last: nat, grant: seq<bool>, last': nat) {
    if NoGrant(grant) then last' == last else OneHotAt(grant, last')
  }

  class RoundRobin {
    const n: nat
    var lastGrant: nat

    ghost predicate Valid()
      reads this
    {
      lastGrant < n
    }

    constructor (n: nat)
      requires n >= 2
      ensures Valid() && this.n == n && lastGrant == 0
    {
      this.n := n;
      lastGrant := 0;
    }

    method Tick(req: seq<bool>) returns (grant: seq<bool>)
      requires Valid() && |req| == n
      modifies this
      ensures Valid() && IsGrant(req, old(lastGrant), grant) && NextLast(old(lastGrant), grant, lastGrant)
    {
      grant := Search(req, lastGrant);
      OneHotExactly(req, lastGrant, grant);
      ghost var was := lastGrant;
      for i := 0 to n
        invariant lastGrant < n
        invariant forall k :: 0 <= k < i && grant[k] ==> lastGrant == k
        invariant (forall k :: 0 <= k < i ==> !grant[k]) ==> lastGrant == was
      {
        if grant[i] { lastGrant := i; }
      }
    }
  }

  // A run: in cycle i the requests reqs[i] meet register lasts[i] and get grants[i].
  ghost predicate IsRun(n: nat, reqs: seq<seq<bool>>, lasts: seq<nat>, grants: seq<seq<bool>>) {
    |lasts| == |reqs| + 1 && |grants| == |reqs| && lasts[0] < n &&
    forall i :: 0 <= i < |reqs| ==>
      |reqs[i]| == n && IsGrant(reqs[i], lasts[i], grants[i]) && NextLast(lasts[i], grants[i], lasts[i + 1])
  }

  lemma {:induction false} LastInRange(n: nat, reqs: seq<seq<bool>>, lasts: seq<nat>, grants: seq<seq<bool>>, i: nat)
    requires IsRun(n, reqs, lasts, grants) && i <= |reqs|
    ensures lasts[i] < n
  {
    if i > 0 {
      LastInRange(n, reqs, lasts, grants, i - 1);
      assert NextLast(lasts[i - 1], grants[i - 1], lasts[i]);
    }
  }

  // While j waits, every grant to another requester brings the search strictly closer to j.
  lemma {:induction false} WaitingApproaches(req: seq<bool>, last: nat, grant: seq<bool>, last': nat, j: nat)
    requires last < |req| && j < |req| && req[j]
    requires IsGrant(req, last, grant) && !grant[j] && NextLast(last, grant, last')
    ensures last' < |req| && 0 <= Distance(|req|, last', j) < Distance(|req|, last, j)
  {
    OneHotExactly(req, last, grant);
    var m :| OneHotAt(grant, m);
    assert grant[m];
    NextIs(last, grant, last', m);
    Passing(|req|, last, m, j);
  }

  lemma NextIs(last: nat, grant: seq<bool>, last': nat, m: nat)
    requires OneHotAt(grant, m) && NextLast(last, grant, last')
    ensures last' == m
  {
    assert grant[m];
    assert OneHotAt(grant, last');
    assert grant[last'];
  }

  lemma Passing(n: nat, last: nat, m: nat, j: nat)
    requires last < n && m < n && j < n && Distance(n, last, m) < Distance(n, last, j)
    ensures 0 <= Distance(n, m, j) < Distance(n, last, j)
  {}

  // A request held from cycle s on is granted before Distance + 1 cycles have passed.
  lemma {:induction false} HeldIsGranted(n: nat, reqs: seq<seq<bool>>, lasts: seq<nat>, grants: seq<seq<bool>>,
                                         s: nat, j: nat) returns (at: nat)
    requires IsRun(n, reqs, lasts, grants) && j < n && s <= |reqs|
    requires lasts[s] < n && s + Distance(n, lasts[s], j) < |reqs|
    requires forall i :: s <= i <= s + Distance(n, lasts[s], j) ==> reqs[i][j]
    ensures s <= at <= s + Distance(n, lasts[s], j) && OneHotAt(grants[at], j)
    decreases Distance(n, lasts[s], j)
  {
    OneHotExactly(reqs[s], lasts[s], grants[s]);
    if grants[s][j] {
      at := s;
    } else {
      WaitingApproaches(reqs[s], lasts[s], grants[s], lasts[s + 1], j);
      at := HeldIsGranted(n, reqs, lasts, grants, s + 1, j);
    }
  }

  // So nobody waits longer than n cycles.
  lemma {:induction false} GrantedWithinN(n: nat, reqs: seq<seq<bool>>, lasts: seq<nat>, grants: seq<seq<bool>>,
                                          s: nat, j: nat)
    requires IsRun(n, reqs, lasts, grants) && j < n && s + n <= |reqs|
    requires forall i :: s <= i < s + n ==> reqs[i][j]
    ensures exists at :: s <= at < s + n && OneHotAt(grants[at], j)
  {
    LastInRange(n, reqs, lasts, grants, s);
    var at := HeldIsGranted(n, reqs, lasts, grants, s, j);
  }
}
