/** Listeners: removal of duplicate bind addresses when a configuration is built
    (src/dns_conf.rs), and the machine that opens, closes and retries them (src/app.rs).
    Instants are whole seconds. */
module Listeners {

  /** A listener; `datagram` says that it occupies a UDP port, `rest` is everything else that
      distinguishes one configured listener from another. */
  datatype Bind = Bind(datagram: bool, addr: nat, rest: nat)

  function Socket(b: Bind): (bool, nat) {
    (b.datagram, b.addr)
  }

  // ---------------------------------------------------------------- duplicate bind addresses

  /** A later listener takes the same socket. */
  predicate Shadowed(binds: seq<Bind>, i: int)
    requires 0 <= i < |binds|
  {
    exists j :: i < j < |binds| && Socket(binds[j]) == Socket(binds[i])
  }

  /** The listeners that are not shadowed, in order. */
  function LastOfEach(binds: seq<Bind>): (out: seq<Bind>) {
    if binds == [] then []
    else (if Shadowed(binds, 0) then [] else [binds[0]]) + LastOfEach(binds[1..])
  }

  ghost predicate DistinctSockets(binds: seq<Bind>) {
    forall i, j :: 0 <= i < j < |binds| ==> Socket(binds[i]) != Socket(binds[j])
  }

  lemma ShadowedShift(binds: seq<Bind>, a: nat, i: nat)
    requires a + i < |binds|
    ensures Shadowed(binds[a..], i) <==> Shadowed(binds, a + i)
  {
    if Shadowed(binds, a + i) {
      var j :| a + i < j < |binds| && Socket(binds[j]) == Socket(binds[a + i]);
      assert binds[a..][j - a] == binds[j];
    }
  }

  /** Nothing is dropped between two dropped positions. */
  lemma {:induction false} KeepsRun(binds: seq<Bind>, a: nat, b: nat)
    requires a <= b <= |binds|
    requires forall i :: a <= i < b ==> !Shadowed(binds, i)
    ensures LastOfEach(binds[a..]) == binds[a..b] + LastOfEach(binds[b..])
    decreases b - a
  {
    if a < b {
      ShadowedShift(binds, a, 0);
      assert binds[a..][1..] == binds[a + 1..];
      KeepsRun(binds, a + 1, b);
      assert binds[a..b] == [binds[a]] + binds[a + 1..b];
    }
  }

  lemma DropsOne(binds: seq<Bind>, a: nat)
    requires a < |binds| && Shadowed(binds, a)
    ensures LastOfEach(binds[a..]) == LastOfEach(binds[a + 1..])
  {
    ShadowedShift(binds, a, 0);
    assert binds[a..][1..] == binds[a + 1..];
  }

  ghost predicate Descending(s: seq<nat>) {
    forall i, j :: 0 <= i < j < |s| ==> s[i] > s[j]
  }

  /** The first pass, from the end: the positions whose socket was seen already, last first. */
  method FindShadowed(binds: seq<Bind>) returns (removeIdx: seq<nat>)
    ensures Descending(removeIdx) && forall p :: 0 <= p < |removeIdx| ==> removeIdx[p] < |binds|
    ensures forall i: nat :: i in removeIdx <==> i < |binds| && Shadowed(binds, i)
  {
    var udp: set<nat>, tcp: set<nat> := {}, {};
    removeIdx := [];
    for idx := |binds| downto 0
      invariant forall a :: a in udp <==> exists j :: idx <= j < |binds| && Socket(binds[j]) == (true, a)
      invariant forall a :: a in tcp <==> exists j :: idx <= j < |binds| && Socket(binds[j]) == (false, a)
      invariant Descending(removeIdx) && forall p :: 0 <= p < |removeIdx| ==> idx <= removeIdx[p] < |binds|
      invariant forall i: nat :: i in removeIdx <==> idx <= i < |binds| && Shadowed(binds, i)
    {
      var addr := binds[idx].addr;
      assert Shadowed(binds, idx) <==> addr in (if binds[idx].datagram then udp else tcp);
      if binds[idx].datagram {
        if addr in udp {
          removeIdx := removeIdx + [idx];
        }
        udp := udp + {addr};
      } else {
        if addr in tcp {
          removeIdx := removeIdx + [idx];
        }
        tcp := tcp + {addr};
      }
    }
  }

  /** The second pass removes the positions one by one; going from the back keeps those still
      to come valid. */
  method DedupBinds(binds: seq<Bind>) returns (kept: seq<Bind>)
    ensures kept == LastOfEach(binds)
  {
    var removeIdx := FindShadowed(binds);
    kept := binds;
    ghost var m := |binds|;
    assert binds[..m] + LastOfEach(binds[m..]) == binds;
    for k := 0 to |removeIdx|
      invariant m <= |binds| && kept == binds[..m] + LastOfEach(binds[m..])
      invariant forall i :: 0 <= i < k ==> removeIdx[i] >= m
      invariant forall i :: k <= i < |removeIdx| ==> removeIdx[i] < m
    {
      var idx := removeIdx[k];
      assert idx in removeIdx;
      NothingBetween(removeIdx, k, m);
      RemoveStep(binds, m, idx);
      kept := kept[..idx] + kept[idx + 1..];
      m := idx;
    }
    forall i: nat | i < m ensures !Shadowed(binds, i) {
      assert i !in removeIdx;
    }
    KeepsRun(binds, 0, m);
    assert binds[0..] == binds && binds[0..m] == binds[..m];
  }

  lemma NothingBetween(s: seq<nat>, k: nat, m: nat)
    requires k < |s| && Descending(s) && forall i :: 0 <= i < k ==> s[i] >= m
    ensures forall i: nat :: s[k] < i < m ==> i !in s
  {
    forall p | 0 <= p < |s| ensures s[p] >= m || s[p] <= s[k] {
      assert p < k || p == k || s[p] < s[k];
    }
  }

  lemma RemoveStep(binds: seq<Bind>, m: nat, idx: nat)
    requires idx < m <= |binds| && Shadowed(binds, idx)
    requires forall i :: idx < i < m ==> !Shadowed(binds, i)
    ensures var kept := binds[..m] + LastOfEach(binds[m..]);
            kept[..idx] + kept[idx + 1..] == binds[..idx] + LastOfEach(binds[idx..])
  {
    hide *;
    DropsOne(binds, idx);
    KeepsRun(binds, idx + 1, m);
    WithoutOne(binds, m, idx, LastOfEach(binds[m..]));
  }

  lemma WithoutOne(binds: seq<Bind>, m: nat, idx: nat, rest: seq<Bind>)
    requires idx < m <= |binds|
    ensures var kept := binds[..m] + rest;
            kept[..idx] + kept[idx + 1..] == binds[..idx] + (binds[idx + 1..m] + rest)
  {
    var kept := binds[..m] + rest;
    assert kept[..idx] == binds[..idx];
    assert kept[idx + 1..] == binds[idx + 1..m] + rest;
  }

  lemma {:induction false} LastOfEachMembers(binds: seq<Bind>)
    ensures forall b :: b in LastOfEach(binds) <==> exists i :: 0 <= i < |binds| && binds[i] == b && !Shadowed(binds, i)
  {
    if binds != [] {
      LastOfEachMembers(binds[1..]);
      forall b
        ensures b in LastOfEach(binds) <==> exists i :: 0 <= i < |binds| && binds[i] == b && !Shadowed(binds, i)
      {
        if b in LastOfEach(binds[1..]) {
          var i :| 0 <= i < |binds[1..]| && binds[1..][i] == b && !Shadowed(binds[1..], i);
          ShadowedShift(binds, 1, i);
          assert binds[i + 1] == b;
        }
        if i :| 0 <= i < |binds| && binds[i] == b && !Shadowed(binds, i) {
          if i > 0 {
            ShadowedShift(binds, 1, i - 1);
            assert binds[1..][i - 1] == b;
          }
        }
      }
    }
  }

  /** The last listener on a socket is not shadowed. */
  lemma {:induction false} LastOnSocket(binds: seq<Bind>, i: nat) returns (j: nat)
    requires i < |binds|
    ensures j < |binds| && Socket(binds[j]) == Socket(binds[i]) && !Shadowed(binds, j)
    decreases |binds| - i
  {
    if Shadowed(binds, i) {
      var n :| i < n < |binds| && Socket(binds[n]) == Socket(binds[i]);
      j := LastOnSocket(binds, n);
    } else {
      j := i;
    }
  }

  lemma {:induction false} LastOfEachDistinct(binds: seq<Bind>)
    ensures DistinctSockets(LastOfEach(binds))
    ensures DistinctSockets(binds) ==> LastOfEach(binds) == binds
  {
    if binds != [] {
      LastOfEachDistinct(binds[1..]);
      LastOfEachMembers(binds[1..]);
      var out := LastOfEach(binds[1..]);
      if !Shadowed(binds, 0) {
        forall j | 0 <= j < |out| ensures Socket(out[j]) != Socket(binds[0]) {
          assert out[j] in out;
        }
      }
    }
  }

  /** No two listeners share a socket afterwards, and each socket that was asked for is still
      served, by the listener configured last. */
  lemma DedupMeaning(binds: seq<Bind>, i: nat)
    requires i < |binds|
    ensures DistinctSockets(LastOfEach(binds))
    ensures DistinctSockets(binds) ==> LastOfEach(binds) == binds
    ensures exists j :: 0 <= j < |binds| && Socket(binds[j]) == Socket(binds[i]) && !Shadowed(binds, j)
                        && binds[j] in LastOfEach(binds)
  {
    LastOfEachDistinct(binds);
    LastOfEachMembers(binds);
    var j := LastOnSocket(binds, i);
    assert binds[j] in LastOfEach(binds);
  }

  /** In the fields of the listeners: one is kept exactly when no later one takes the same
      address on the same kind of port, so a UDP and a TCP listener on one address both stay. */
  lemma KeptExactly(binds: seq<Bind>, b: Bind)
    ensures b in LastOfEach(binds) <==>
            exists i :: 0 <= i < |binds| && binds[i] == b
                        && forall j :: i < j < |binds| ==> binds[j].datagram != b.datagram || binds[j].addr != b.addr
  {
    LastOfEachMembers(binds);
    forall i | 0 <= i < |binds| && binds[i] == b
      ensures !Shadowed(binds, i) <==>
              forall j :: i < j < |binds| ==> binds[j].datagram != b.datagram || binds[j].addr != b.addr
    {
    }
  }

  /** `a` comes before `b` in the list. */
  ghost predicate Before(s: seq<Bind>, a: Bind, b: Bind) {
    exists p, q :: 0 <= p < q < |s| && s[p] == a && s[q] == b
  }

  /** The listeners that are kept stay in the order they were configured in. */
  lemma {:induction false} OrderKept(binds: seq<Bind>, i: nat, j: nat)
    requires i < j < |binds| && !Shadowed(binds, i) && !Shadowed(binds, j)
    ensures Before(LastOfEach(binds), binds[i], binds[j])
  {
    var rest, out := LastOfEach(binds[1..]), LastOfEach(binds);
    ShadowedShift(binds, 1, j - 1);
    if i == 0 {
      LastOfEachMembers(binds[1..]);
      assert binds[1..][j - 1] == binds[j];
      assert binds[1..][j - 1] in rest;
      var q :| 0 <= q < |rest| && rest[q] == binds[j];
      assert out[0] == binds[0] && out[q + 1] == binds[j];
    } else {
      ShadowedShift(binds, 1, i - 1);
      OrderKept(binds[1..], i - 1, j - 1);
      var p, q :| 0 <= p < q < |rest| && rest[p] == binds[i] && rest[q] == binds[j];
      var d := |out| - |rest|;
      assert out[p + d] == binds[i] && out[q + d] == binds[j];
    }
  }
}
