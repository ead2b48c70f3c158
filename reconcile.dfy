/** The specification of `bonjour_peer::list_peers` as functions on identity
    sequences. The maintained peers are matched, front to back, against the
    browse snapshot: a peer with an equal entry still unconsumed in the
    snapshot is kept and consumes that entry (the first one); a peer without
    one is dropped. The unconsumed entries are then appended in snapshot
    order, leaving out the peer's own registered identity unless
    self-discovery is on. */
module PeerReconcile {
  import opened BonjourNamed

  /** After some peers have been matched: which of them were kept, and what is
      left of the snapshot. */
  datatype Matching = Matching(keep: seq<bool>, rest: seq<Identity>)

  /** Matching one more peer `x`. */
  function Step(m: Matching, x: Identity): (r: Matching)
    ensures r.keep == m.keep + [x in m.rest]
    ensures x in m.rest ==> r.rest == RemoveAt(m.rest, Find(m.rest, x))
    ensures x !in m.rest ==> r.rest == m.rest
  {
    var j := Find(m.rest, x);
    if j < |m.rest| then Matching(m.keep + [true], RemoveAt(m.rest, j))
    else Matching(m.keep + [false], m.rest)
  }

  /** Matching the peers `xs`, in order, starting from `m`. */
  function MatchFrom(m: Matching, xs: seq<Identity>): (r: Matching)
    ensures |r.keep| == |m.keep| + |xs|
    ensures r.keep[..|m.keep|] == m.keep
    decreases |xs|
  {
    if xs == [] then m
    else Step(MatchFrom(m, xs[..|xs| - 1]), xs[|xs| - 1])
  }

  /** The first loop of `list_peers`: the peers against the whole snapshot. */
  function Match(peers: seq<Identity>, snapshot: seq<Identity>): (m: Matching)
    ensures |m.keep| == |peers|
  {
    MatchFrom(Matching([], snapshot), peers)
  }

  /** The number of flags set. */
  function Count(keep: seq<bool>): (n: nat)
    ensures n <= |keep|
    decreases |keep|
  {
    if keep == [] then 0
    else Count(keep[..|keep| - 1]) + (if keep[|keep| - 1] then 1 else 0)
  }

  /** The elements whose flag is set, in order. */
  function Select<T>(s: seq<T>, keep: seq<bool>): (r: seq<T>)
    requires |keep| == |s|
    ensures |r| <= |s|
    ensures forall x :: x in r ==> x in s
    decreases |s|
  {
    if s == [] then []
    else Select(s[..|s| - 1], keep[..|s| - 1]) + (if keep[|s| - 1] then [s[|s| - 1]] else [])
  }

  /** As many elements are selected as flags are set. */
  lemma {:induction false} SelectCount<T>(s: seq<T>, keep: seq<bool>)
    requires |keep| == |s|
    ensures |Select(s, keep)| == Count(keep)
    decreases |s|
  {
    if s != [] {
      SelectCount(s[..|s| - 1], keep[..|s| - 1]);
    }
  }

  /** The second loop's condition: an entry equal to the peer's own identity
      is appended only under self-discovery. */
  function SelfFilter(s: seq<Identity>, self: Identity, selfDiscover: bool): (r: seq<Identity>)
    ensures selfDiscover ==> r == s
    ensures !selfDiscover ==> self !in r
    ensures forall y :: y != self ==> (y in r <==> y in s)
    decreases |s|
  {
    if s == [] then []
    else
      var x := s[|s| - 1];
      SelfFilter(s[..|s| - 1], self, selfDiscover) + (if selfDiscover || x != self then [x] else [])
  }

  /** The identities of the maintained peers after `list_peers`. */
  function Reconciled(peers: seq<Identity>, snapshot: seq<Identity>, self: Identity, selfDiscover: bool): seq<Identity>
  {
    var m := Match(peers, snapshot);
    Select(peers, m.keep) + SelfFilter(m.rest, self, selfDiscover)
  }

  predicate AllSet(keep: seq<bool>) {
    forall i :: 0 <= i < |keep| ==> keep[i]
  }

  /** Matching one more peer extends the matching of the others by one step. */
  lemma MatchSnoc(peers: seq<Identity>, x: Identity, snapshot: seq<Identity>)
    ensures Match(peers + [x], snapshot) == Step(Match(peers, snapshot), x)
  {
    assert (peers + [x])[..|peers|] == peers;
  }

  /** The state of the first loop of `list_peers` once `k` of the peers `ps`
      (whose identities are `ids`) have been visited: the list as edited in
      place so far, the position reached in it, and what is left of the
      snapshot. */
  function RetainState<T>(ps: seq<T>, ids: seq<Identity>, snapshot: seq<Identity>, k: nat): (r: (seq<T>, nat, seq<Identity>))
    requires |ps| == |ids| && k <= |ids|
    ensures r.1 == Count(Match(ids[..k], snapshot).keep) && |r.0| == r.1 + |ps| - k
    ensures r.2 == Match(ids[..k], snapshot).rest
  {
    var m := Match(ids[..k], snapshot);
    var s := Select(ps[..k], m.keep);
    SelectCount(ps[..k], m.keep);
    (s + ps[k..], |s|, m.rest)
  }

  /** Before the loop: the whole list, at its front, and the whole snapshot. */
  lemma RetainStart<T>(ps: seq<T>, ids: seq<Identity>, snapshot: seq<Identity>)
    requires |ps| == |ids|
    ensures RetainState(ps, ids, snapshot, 0) == (ps, 0, snapshot)
  {
    assert ids[..0] == [];
    assert Match(ids[..0], snapshot) == Matching([], snapshot);
    assert ps[..0] == [];
    assert Select(ps[..0], []) == [];
    assert [] + ps[0..] == ps;
  }

  /** After the loop: the kept peers and the unconsumed entries. */
  lemma RetainEnd<T>(ps: seq<T>, ids: seq<Identity>, snapshot: seq<Identity>)
    requires |ps| == |ids|
    ensures var m := Match(ids, snapshot);
            var r := RetainState(ps, ids, snapshot, |ps|);
            r.0 == Select(ps, m.keep) && r.2 == m.rest
  {
    assert ps[..|ps|] == ps && ids[..|ids|] == ids && ps[|ps|..] == [];
    var s := Select(ps, Match(ids, snapshot).keep);
    assert s + [] == s;
  }

  /** One visit, in terms of the parts of the state: the kept prefix `s`,
      the flags `keep` so far and the unconsumed entries `rest`. */
  lemma RetainParts<T>(ps: seq<T>, ids: seq<Identity>, snapshot: seq<Identity>, k: nat)
    requires |ps| == |ids| && k < |ids|
    ensures var m := Match(ids[..k], snapshot);
            var b := ids[k] in m.rest;
            && Match(ids[..k + 1], snapshot) == Step(m, ids[k])
            && Select(ps[..k + 1], Step(m, ids[k]).keep) == Select(ps[..k], m.keep) + (if b then [ps[k]] else [])
            && ps[k..] == [ps[k]] + ps[k + 1..]
  {
    var m := Match(ids[..k], snapshot);
    var b := ids[k] in m.rest;
    assert ids[..k] + [ids[k]] == ids[..k + 1];
    MatchSnoc(ids[..k], ids[k], snapshot);
    assert ps[..k] + [ps[k]] == ps[..k + 1];
    SelectSnoc(ps[..k], ps[k], m.keep, b);
  }

  /** One visit: the peer at the position reached is the next peer; it stays
      and consumes its entry when that entry is left, and is erased otherwise. */
  lemma RetainStep<T>(ps: seq<T>, ids: seq<Identity>, snapshot: seq<Identity>, k: nat)
    requires |ps| == |ids| && k < |ids|
    ensures var r := RetainState(ps, ids, snapshot, k);
            var r' := RetainState(ps, ids, snapshot, k + 1);
            && r.1 < |r.0| && r.0[r.1] == ps[k]
            && (ids[k] in r.2 ==> r' == (r.0, r.1 + 1, RemoveAt(r.2, Find(r.2, ids[k]))))
            && (ids[k] !in r.2 ==> r' == (RemoveAt(r.0, r.1), r.1, r.2))
  {
    RetainParts(ps, ids, snapshot, k);
    var m := Match(ids[..k], snapshot);
    var s := Select(ps[..k], m.keep);
    var t := ps[k + 1..];
    var x := ids[k];
    assert s + ps[k..] == s + [ps[k]] + t;
    assert RetainState(ps, ids, snapshot, k) == (s + [ps[k]] + t, |s|, m.rest);
    RemoveJoin(s, ps[k], t);
    if x in m.rest {
      var s' := s + [ps[k]];
      assert Select(ps[..k + 1], Step(m, x).keep) == s';
      assert RetainState(ps, ids, snapshot, k + 1) == (s' + t, |s'|, Step(m, x).rest);
      assert s' + t == s + [ps[k]] + t;
    } else {
      assert Select(ps[..k + 1], Step(m, x).keep) == s by {
        assert s + [] == s;
      }
      assert RetainState(ps, ids, snapshot, k + 1) == (s + t, |s|, m.rest);
    }
  }

  /** Erasing the element between two parts joins them. */
  lemma RemoveJoin<T>(s: seq<T>, x: T, t: seq<T>)
    ensures (s + [x] + t)[|s|] == x
    ensures RemoveAt(s + [x] + t, |s|) == s + t
  {
    var p := s + [x] + t;
    assert p[..|s|] == s;
    assert p[|s| + 1..] == t;
  }

  /** The first loop of `list_peers` run from position `i` of the list `ps`
      (whose identities are `ids`) with the entries `rest` left: the final
      list and the entries left over. The list only shrinks, never below
      the `i` peers already passed, and entries are only consumed. */
  function RetainFrom<T>(ps: seq<T>, ids: seq<Identity>, i: nat, rest: seq<Identity>): (r: (seq<T>, seq<Identity>))
    requires |ps| == |ids| && i <= |ps|
    ensures i <= |r.0| <= |ps| && |r.1| <= |rest|
    decreases |ps| - i
  {
    if i == |ps| then (ps, rest)
    else if ids[i] in rest then RetainFrom(ps, ids, i + 1, RemoveAt(rest, Find(rest, ids[i])))
    else RetainFrom(RemoveAt(ps, i), RemoveAt(ids, i), i, rest)
  }

  /** From any intermediate state of the loop the run ends with the kept
      peers and the unconsumed entries. */
  lemma {:induction false} RetainFromState<T>(ps: seq<T>, ids: seq<Identity>, snapshot: seq<Identity>, k: nat)
    requires |ps| == |ids| && k <= |ids|
    ensures var r := RetainState(ps, ids, snapshot, k);
            var q := RetainState(ids, ids, snapshot, k);
            var m := Match(ids, snapshot);
            && |q.0| == |r.0|
            && RetainFrom(r.0, q.0, r.1, r.2) == (Select(ps, m.keep), m.rest)
    decreases |ps| - k
  {
    var r := RetainState(ps, ids, snapshot, k);
    var q := RetainState(ids, ids, snapshot, k);
    if k == |ps| {
      RetainEnd(ps, ids, snapshot);
    } else {
      RetainFromStep(ps, ids, snapshot, k);
      RetainFromState(ps, ids, snapshot, k + 1);
    }
  }

  /** One visit of the loop run moves from the state after `k` visits to the
      state after `k + 1`. */
  lemma RetainFromStep<T>(ps: seq<T>, ids: seq<Identity>, snapshot: seq<Identity>, k: nat)
    requires |ps| == |ids| && k < |ids|
    ensures var r := RetainState(ps, ids, snapshot, k);
            var q := RetainState(ids, ids, snapshot, k);
            var r' := RetainState(ps, ids, snapshot, k + 1);
            var q' := RetainState(ids, ids, snapshot, k + 1);
            && |q.0| == |r.0| && |q'.0| == |r'.0|
            && RetainFrom(r.0, q.0, r.1, r.2) == RetainFrom(r'.0, q'.0, r'.1, r'.2)
  {
    var r := RetainState(ps, ids, snapshot, k);
    var q := RetainState(ids, ids, snapshot, k);
    var r' := RetainState(ps, ids, snapshot, k + 1);
    var q' := RetainState(ids, ids, snapshot, k + 1);
    RetainStep(ps, ids, snapshot, k);
    RetainStep(ids, ids, snapshot, k);
    if ids[k] in r.2 {
      assert r' == (r.0, r.1 + 1, RemoveAt(r.2, Find(r.2, ids[k])));
      assert q' == (q.0, q.1 + 1, RemoveAt(q.2, Find(q.2, ids[k])));
    } else {
      assert r' == (RemoveAt(r.0, r.1), r.1, r.2);
      assert q' == (RemoveAt(q.0, q.1), q.1, q.2);
    }
  }

  /** The loop computes the specification. */
  lemma RetainFromSpec<T>(ps: seq<T>, ids: seq<Identity>, snapshot: seq<Identity>)
    requires |ps| == |ids|
    ensures var m := Match(ids, snapshot);
            RetainFrom(ps, ids, 0, snapshot) == (Select(ps, m.keep), m.rest)
  {
    RetainStart(ps, ids, snapshot);
    RetainStart(ids, ids, snapshot);
    RetainFromState(ps, ids, snapshot, 0);
  }

  /** Selecting from one more element adds it exactly when its flag is set. */
  lemma SelectSnoc<T>(s: seq<T>, x: T, keep: seq<bool>, b: bool)
    requires |keep| == |s|
    ensures Select(s + [x], keep + [b]) == Select(s, keep) + (if b then [x] else [])
  {
    assert (s + [x])[..|s|] == s;
    assert (keep + [b])[..|s|] == keep;
  }

  /** With every flag set nothing is left out. */
  lemma {:induction false} SelectAll<T>(s: seq<T>, keep: seq<bool>)
    requires |keep| == |s| && AllSet(keep)
    ensures Select(s, keep) == s
  {
    if s != [] {
      SelectAll(s[..|s| - 1], keep[..|s| - 1]);
      assert s == s[..|s| - 1] + [s[|s| - 1]];
    }
  }

  /** An element is selected exactly when some occurrence of it has its flag set. */
  lemma {:induction false} SelectMembers<T>(s: seq<T>, keep: seq<bool>, y: T)
    requires |keep| == |s|
    ensures y in Select(s, keep) <==> exists i :: 0 <= i < |s| && keep[i] && s[i] == y
  {
    if s != [] {
      var n := |s| - 1;
      SelectMembers(s[..n], keep[..n], y);
      if y in Select(s, keep) && y !in Select(s[..n], keep[..n]) {
        assert keep[n] && s[n] == y;
      }
      if exists i :: 0 <= i < |s| && keep[i] && s[i] == y {
        var i :| 0 <= i < |s| && keep[i] && s[i] == y;
        if i < n {
          assert s[..n][i] == y && keep[..n][i];
        }
      }
    }
  }

  /** Matching in two parts is matching the whole. */
  lemma {:induction false} MatchFromAppend(m: Matching, a: seq<Identity>, b: seq<Identity>)
    ensures MatchFrom(m, a + b) == MatchFrom(MatchFrom(m, a), b)
    decreases |b|
  {
    if b == [] {
      assert a + b == a;
    } else {
      var n := |b| - 1;
      assert (a + b)[..|a + b| - 1] == a + b[..n];
      MatchFromAppend(m, a, b[..n]);
    }
  }

  /** The kept peers and what is left of the snapshot make up the snapshot:
      every kept peer consumed exactly one entry. */
  lemma {:induction false} MatchPartition(peers: seq<Identity>, snapshot: seq<Identity>)
    ensures var m := Match(peers, snapshot);
            multiset(Select(peers, m.keep)) + multiset(m.rest) == multiset(snapshot)
  {
    if peers != [] {
      var n := |peers| - 1;
      var p, x := peers[..n], peers[n];
      assert peers == p + [x];
      MatchPartition(p, snapshot);
      MatchSnoc(p, x, snapshot);
      var m := Match(p, snapshot);
      SelectSnoc(p, x, m.keep, x in m.rest);
    }
  }

  /** A kept peer has an equal entry in the snapshot; equivalently, a peer with
      no equal entry in the snapshot is dropped. */
  lemma MatchKeepsOnlyPresent(peers: seq<Identity>, snapshot: seq<Identity>)
    ensures forall i :: 0 <= i < |peers| && Match(peers, snapshot).keep[i] ==> peers[i] in snapshot
  {
    var m := Match(peers, snapshot);
    MatchPartition(peers, snapshot);
    forall i | 0 <= i < |peers| && m.keep[i]
      ensures peers[i] in snapshot
    {
      SelectMembers(peers, m.keep, peers[i]);
      assert peers[i] in Select(peers, m.keep);
      assert peers[i] in multiset(Select(peers, m.keep));
      assert peers[i] in multiset(snapshot);
    }
  }

  /** An identity none of the peers equals loses nothing from the snapshot. */
  lemma {:induction false} MatchRestUntouched(peers: seq<Identity>, snapshot: seq<Identity>, y: Identity)
    requires y !in peers
    ensures multiset(Match(peers, snapshot).rest)[y] == multiset(snapshot)[y]
  {
    if peers != [] {
      var n := |peers| - 1;
      var p, x := peers[..n], peers[n];
      assert peers == p + [x];
      MatchRestUntouched(p, snapshot, y);
      MatchSnoc(p, x, snapshot);
      var m := Match(p, snapshot);
      if x in m.rest {
        var j := Find(m.rest, x);
        assert multiset(RemoveAt(m.rest, j)) + multiset{m.rest[j]} == multiset(m.rest);
      }
    }
  }

  /** When the peers hold no duplicates, a peer is kept exactly when the
      snapshot has an equal entry. */
  lemma {:induction false} MatchKeepsIffPresent(peers: seq<Identity>, snapshot: seq<Identity>)
    requires NoDuplicates(peers)
    ensures forall i :: 0 <= i < |peers| ==> (Match(peers, snapshot).keep[i] <==> peers[i] in snapshot)
  {
    MatchKeepsOnlyPresent(peers, snapshot);
    forall i | 0 <= i < |peers| && peers[i] in snapshot
      ensures Match(peers, snapshot).keep[i]
    {
      MatchKeepsListed(peers, snapshot, i);
    }
  }

  /** A peer with no equal peer before it, listed in the snapshot, finds its
      entry still unconsumed and is kept. */
  lemma MatchKeepsListed(peers: seq<Identity>, snapshot: seq<Identity>, i: nat)
    requires NoDuplicates(peers) && i < |peers| && peers[i] in snapshot
    ensures Match(peers, snapshot).keep[i]
  {
    var p, x := peers[..i], peers[i];
    assert x !in p by {
      forall k | 0 <= k < i ensures p[k] != x {
        assert p[k] == peers[k];
      }
    }
    MatchRestUntouched(p, snapshot, x);
    assert x in Match(p, snapshot).rest;
    assert peers == p + [x] + peers[i + 1..];
    MatchSnoc(p, x, snapshot);
    MatchFromAppend(Matching([], snapshot), p + [x], peers[i + 1..]);
    var m1 := Match(p + [x], snapshot);
    assert Match(peers, snapshot).keep[..|m1.keep|] == m1.keep;
    assert m1.keep[i];
  }

  /** The entries the self filter lets through, counted. */
  lemma {:induction false} SelfFilterCounts(s: seq<Identity>, self: Identity, selfDiscover: bool, y: Identity)
    ensures multiset(SelfFilter(s, self, selfDiscover))[y] ==
            if !selfDiscover && y == self then 0 else multiset(s)[y]
  {
    if s != [] {
      var n := |s| - 1;
      assert s == s[..n] + [s[n]];
      SelfFilterCounts(s[..n], self, selfDiscover, y);
    }
  }

  /** Matching peers that are all still in the snapshot keeps every one and
      consumes exactly them. */
  lemma {:induction false} ConsumeContained(m: Matching, xs: seq<Identity>)
    requires multiset(xs) <= multiset(m.rest)
    ensures AllSet(MatchFrom(m, xs).keep[|m.keep|..])
    ensures multiset(MatchFrom(m, xs).rest) + multiset(xs) == multiset(m.rest)
    decreases |xs|
  {
    if xs == [] {
      assert MatchFrom(m, xs) == m;
    } else {
      var n := |xs| - 1;
      var ys, x := xs[..n], xs[n];
      assert xs == ys + [x];
      assert multiset(xs) == multiset(ys) + multiset{x};
      ConsumeContained(m, ys);
      var r := MatchFrom(m, ys);
      assert MatchFrom(m, xs) == Step(r, x);
      assert x in r.rest by {
        assert multiset(r.rest)[x] + multiset(ys)[x] == multiset(m.rest)[x];
        assert multiset(ys)[x] + 1 <= multiset(m.rest)[x];
        assert x in multiset(r.rest);
      }
      var j := Find(r.rest, x);
      assert multiset(RemoveAt(r.rest, j)) + multiset{r.rest[j]} == multiset(r.rest);
      KeepTailAppend(r.keep, |m.keep|, true);
    }
  }

  /** Setting one more flag keeps a suffix of set flags set. */
  lemma KeepTailAppend(keep: seq<bool>, from: nat, b: bool)
    requires from <= |keep| && AllSet(keep[from..]) && b
    ensures AllSet((keep + [b])[from..])
  {
    assert (keep + [b])[from..] == keep[from..] + [b];
  }

  /** Matching the kept peers alone keeps them all and leaves the same rest. */
  lemma {:induction false} MatchOfKept(peers: seq<Identity>, snapshot: seq<Identity>)
    ensures var m := Match(peers, snapshot);
            var m2 := Match(Select(peers, m.keep), snapshot);
            AllSet(m2.keep) && m2.rest == m.rest
  {
    if peers != [] {
      var n := |peers| - 1;
      var p, x := peers[..n], peers[n];
      assert peers == p + [x];
      MatchOfKept(p, snapshot);
      MatchSnoc(p, x, snapshot);
      var m := Match(p, snapshot);
      var k := Select(p, m.keep);
      var mk := Match(k, snapshot);
      assert AllSet(mk.keep) && mk.rest == m.rest;
      SelectSnoc(p, x, m.keep, x in m.rest);
      if x in m.rest {
        assert Select(peers, Match(peers, snapshot).keep) == k + [x];
        MatchSnoc(k, x, snapshot);
        var m2 := Match(k + [x], snapshot);
        assert m2 == Step(mk, x);
        assert m2.keep == mk.keep + [true];
        KeepTailAppend(mk.keep, 0, true);
        assert m2.keep[0..] == m2.keep;
      } else {
        assert Select(peers, Match(peers, snapshot).keep) == k;
      }
    }
  }

  /** Matching a reconciled list against the same snapshot again keeps every
      peer, and the unconsumed entries are those the self filter held back. */
  lemma MatchOfReconciled(peers: seq<Identity>, snapshot: seq<Identity>, self: Identity, selfDiscover: bool)
    ensures var m := Match(peers, snapshot);
            var f := SelfFilter(m.rest, self, selfDiscover);
            var m2 := Match(Reconciled(peers, snapshot, self, selfDiscover), snapshot);
            AllSet(m2.keep) && multiset(m2.rest) + multiset(f) == multiset(m.rest)
  {
    var m := Match(peers, snapshot);
    var k := Select(peers, m.keep);
    var f := SelfFilter(m.rest, self, selfDiscover);
    var mk := Match(k, snapshot);
    assert AllSet(mk.keep) && mk.rest == m.rest by {
      MatchOfKept(peers, snapshot);
    }
    assert multiset(f) <= multiset(mk.rest) by {
      forall y ensures multiset(f)[y] <= multiset(m.rest)[y] {
        SelfFilterCounts(m.rest, self, selfDiscover, y);
      }
    }
    var m2 := MatchFrom(mk, f);
    assert AllSet(m2.keep[|mk.keep|..]) && multiset(m2.rest) + multiset(f) == multiset(mk.rest) by {
      ConsumeContained(mk, f);
    }
    assert Match(k + f, snapshot) == m2 by {
      MatchFromAppend(Matching([], snapshot), k, f);
    }
    assert AllSet(m2.keep) by {
      assert m2.keep[..|mk.keep|] == mk.keep;
      forall i | 0 <= i < |m2.keep| ensures m2.keep[i] {
        if i < |mk.keep| {
          assert m2.keep[..|mk.keep|][i] == m2.keep[i];
        } else {
          assert m2.keep[|mk.keep|..][i - |mk.keep|] == m2.keep[i];
        }
      }
    }
  }

  /** Reconciling again against the same snapshot changes nothing: calling
      `list_peers` twice with an unchanged browse list yields the same peers. */
  lemma ReconcileIdempotent(peers: seq<Identity>, snapshot: seq<Identity>, self: Identity, selfDiscover: bool)
    ensures var q := Reconciled(peers, snapshot, self, selfDiscover);
            Reconciled(q, snapshot, self, selfDiscover) == q
  {
    var m := Match(peers, snapshot);
    var q := Reconciled(peers, snapshot, self, selfDiscover);
    MatchOfReconciled(peers, snapshot, self, selfDiscover);
    var m2 := Match(q, snapshot);
    SelectAll(q, m2.keep);
    FilterOfConsumed(m2.rest, m.rest, self, selfDiscover);
    assert q + [] == q;
  }

  /** When the entries `r2` plus the filtered entries of `r` are exactly the
      entries of `r`, nothing of `r2` passes the filter. */
  lemma FilterOfConsumed(r2: seq<Identity>, r: seq<Identity>, self: Identity, selfDiscover: bool)
    requires multiset(r2) + multiset(SelfFilter(r, self, selfDiscover)) == multiset(r)
    ensures SelfFilter(r2, self, selfDiscover) == []
  {
    var f := SelfFilter(r, self, selfDiscover);
    var f2 := SelfFilter(r2, self, selfDiscover);
    forall y ensures multiset(f2)[y] == 0 {
      SelfFilterCounts(r2, self, selfDiscover, y);
      SelfFilterCounts(r, self, selfDiscover, y);
      assert multiset(r2)[y] + multiset(f)[y] == multiset(r)[y];
    }
    assert multiset(f2) == multiset{};
  }

  /** No duplicates, by counting. */
  lemma {:induction false} NoDuplicatesByCount(s: seq<Identity>)
    requires forall y :: multiset(s)[y] <= 1
    ensures NoDuplicates(s)
  {
    if s != [] {
      var n := |s| - 1;
      var p, x := s[..n], s[n];
      assert s == p + [x];
      assert multiset(s) == multiset(p) + multiset{x};
      forall y ensures multiset(p)[y] <= 1 {
        assert multiset(s)[y] == multiset(p)[y] + multiset{x}[y];
      }
      NoDuplicatesByCount(p);
      assert x !in p by {
        assert multiset(s)[x] == multiset(p)[x] + 1;
        assert multiset(p)[x] == 0;
      }
      forall i, j | 0 <= i < j < |s| ensures s[i] != s[j] {
        if j < n {
          assert s[i] == p[i] && s[j] == p[j];
        } else {
          assert s[i] == p[i];
        }
      }
    }
  }

  /** Counts of a sequence without duplicates. */
  lemma {:induction false} CountOfNoDuplicates(s: seq<Identity>, y: Identity)
    requires NoDuplicates(s)
    ensures multiset(s)[y] <= 1
  {
    if s != [] {
      var n := |s| - 1;
      var p, x := s[..n], s[n];
      assert s == p + [x];
      assert NoDuplicates(p) by {
        forall i, j | 0 <= i < j < |p| ensures p[i] != p[j] {
          assert p[i] == s[i] && p[j] == s[j];
        }
      }
      CountOfNoDuplicates(p, y);
      if x == y {
        assert x !in p by {
          forall k | 0 <= k < n ensures p[k] != x {
            assert p[k] == s[k];
          }
        }
      }
    }
  }

  /** A snapshot without duplicates yields peers without duplicates, whatever
      the peers were before. */
  lemma ReconciledNoDuplicates(peers: seq<Identity>, snapshot: seq<Identity>, self: Identity, selfDiscover: bool)
    requires NoDuplicates(snapshot)
    ensures NoDuplicates(Reconciled(peers, snapshot, self, selfDiscover))
  {
    var m := Match(peers, snapshot);
    var r := Reconciled(peers, snapshot, self, selfDiscover);
    MatchPartition(peers, snapshot);
    forall y ensures multiset(r)[y] <= 1 {
      SelfFilterCounts(m.rest, self, selfDiscover, y);
      CountOfNoDuplicates(snapshot, y);
    }
    NoDuplicatesByCount(r);
  }

  /** When the peers hold no duplicates, an identity is a peer afterwards
      exactly when the snapshot lists it and it was a peer before, or is not
      the own identity, or self-discovery is on. */
  lemma ReconciledMembers(peers: seq<Identity>, snapshot: seq<Identity>, self: Identity, selfDiscover: bool, y: Identity)
    requires NoDuplicates(peers)
    ensures y in Reconciled(peers, snapshot, self, selfDiscover) <==>
            y in snapshot && (y in peers || selfDiscover || y != self)
  {
    var m := Match(peers, snapshot);
    var k := Select(peers, m.keep);
    MatchPartition(peers, snapshot);
    MatchKeepsIffPresent(peers, snapshot);
    SelectMembers(peers, m.keep, y);
    SelfFilterCounts(m.rest, self, selfDiscover, y);
    if y in k {
      assert y in multiset(snapshot);
    }
    if y in m.rest {
      assert y in multiset(snapshot);
    }
    if y in snapshot && y !in peers {
      MatchRestUntouched(peers, snapshot, y);
      assert y in multiset(m.rest);
    }
    if y in snapshot && y in peers {
      var i :| 0 <= i < |peers| && peers[i] == y;
      assert m.keep[i];
    }
  }

  /** The matching of the worked example below. */
  lemma ExampleMatch(a: Identity, b: Identity, c: Identity)
    requires a != b && a != c && b != c
    ensures Match([a, b], [b, c]) == Matching([false, true], [c])
  {
    ExampleFirstPeer(a, b, c);
    ExampleSecondPeer(b, c);
    MatchSnoc([a], b, [b, c]);
    assert [a] + [b] == [a, b];
  }

  /** The example's first peer has no entry and is dropped. */
  lemma ExampleFirstPeer(a: Identity, b: Identity, c: Identity)
    requires a != b && a != c
    ensures Match([a], [b, c]) == Matching([false], [b, c])
  {
    MatchSnoc([], a, [b, c]);
    assert [] + [a] == [a];
    assert a !in [b, c];
  }

  /** The example's second peer consumes its entry and is kept. */
  lemma ExampleSecondPeer(b: Identity, c: Identity)
    ensures Step(Matching([false], [b, c]), b) == Matching([false, true], [c])
  {
    assert Find([b, c], b) == 0;
    assert RemoveAt([b, c], 0) == [c];
  }

  /** A worked example: peers [a, b], snapshot [b, c]; a vanished, b is kept,
      c is new. */
  lemma ReconcileExample(a: Identity, b: Identity, c: Identity)
    requires a != b && a != c && b != c
    ensures Reconciled([a, b], [b, c], a, false) == [b, c]
  {
    ExampleMatch(a, b, c);
    assert Select([a, b], [false, true]) == [b] by {
      SelectSnoc([a], b, [false], true);
      SelectSnoc([], a, [], false);
      assert [] + [a] == [a] && [] + [false] == [false];
      assert [a] + [b] == [a, b] && [false] + [true] == [false, true];
    }
    assert SelfFilter([c], a, false) == [c] by {
      assert [c][..0] == [];
    }
  }
  /** Every maintained peer after `list_peers` stands for an entry of its own
      in the browser's list: a kept peer for the entry it consumed, an
      appended one for a leftover entry. So there are never more peers than
      entries. */
  lemma ReconciledWithinSnapshot(peers: seq<Identity>, snapshot: seq<Identity>, self: Identity, selfDiscover: bool)
    ensures multiset(Reconciled(peers, snapshot, self, selfDiscover)) <= multiset(snapshot)
    ensures |Reconciled(peers, snapshot, self, selfDiscover)| <= |snapshot|
  {
    var m := Match(peers, snapshot);
    var kept, added := Select(peers, m.keep), SelfFilter(m.rest, self, selfDiscover);
    var r := Reconciled(peers, snapshot, self, selfDiscover);
    assert r == kept + added;
    MatchPartition(peers, snapshot);
    forall y ensures multiset(added)[y] <= multiset(m.rest)[y] {
      SelfFilterCounts(m.rest, self, selfDiscover, y);
    }
    assert multiset(r) == multiset(kept) + multiset(added);
    assert multiset(snapshot) == multiset(r) + (multiset(snapshot) - multiset(r));
  }
}
