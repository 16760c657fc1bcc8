/**
 The pool as src/proxy/upstream.c and src/proxy/balancer.c keep it: one array of
 backends and a rotation index, updated in place.
 */
module UpstreamPool {
  import opened Arithmetic
  import opened StringUtil
  import opened Upstream

  class BackendPool {
    const mode: Mode
    const keepalive: int
    const backends: array<Backend>
    var rrIndex: nat

    ghost predicate Valid()
      reads this
    {
      backends.Length == 0 || rrIndex < backends.Length
    }

    ghost function View(): (p: Pool)
      requires Valid()
      reads this, backends
      ensures Wf(p)
    {
      Pool(mode, keepalive, backends[..], rrIndex)
    }

    /** `upstream_pool_create`. */
    constructor (mode: Mode, keepalive: int, count: nat)
      ensures Valid() && fresh(backends) && View() == Created(mode, keepalive, count)
    {
      this.mode, this.keepalive, rrIndex := mode, keepalive, 0;
      backends := new Backend[count](_ => NEW_BACKEND);
    }

    /** `balancer_round_robin`. */
    method RotatePick() returns (r: Option<nat>)
      requires Valid() && backends.Length > 0
      modifies this`rrIndex
      ensures Valid() && r == RoundRobin.Pick(Flags(backends[..]), old(rrIndex))
      ensures rrIndex == RoundRobin.NextIndex(Flags(backends[..]), old(rrIndex))
    {
      var start, count := rrIndex, backends.Length;
      ghost var hs := Flags(backends[..]);
      var i := 0;
      while i < count
        invariant 0 <= i <= count && rrIndex == start
        invariant RoundRobin.Scan(hs, start, 0) == RoundRobin.Scan(hs, start, i)
      {
        var idx := (start + i) % count;
        RingMod(start, i, count);
        if backends[idx].healthy {
          RingMod(idx, 1, count);
          rrIndex := (idx + 1) % count;
          return Some(idx);
        }
        i := i + 1;
      }
      return None;
    }

    /** `balancer_least_conn`. */
    method LeastPick() returns (best: Option<nat>)
      requires Valid()
      ensures best == Least(backends[..])
    {
      best := None;
      var minConns := INT_MAX;
      var i := 0;
      while i < backends.Length
        invariant 0 <= i <= backends.Length
        invariant best == Least(backends[..i])
        invariant minConns == if best.None? then INT_MAX else backends[best.value].active
      {
        assert backends[..i + 1][..i] == backends[..i];
        if backends[i].healthy {
          if backends[i].active < minConns {
            minConns := backends[i].active;
            best := Some(i);
          }
        }
        i := i + 1;
      }
      assert backends[..backends.Length] == backends[..];
    }

    /** `upstream_select`. */
    method Select() returns (be: Option<nat>)
      requires Valid()
      modifies this`rrIndex, backends
      ensures Valid() && be == Choice(old(View())) && View() == Selected(old(View()))
    {
      if backends.Length == 0 { return None; }
      if mode == LeastConnections {
        be := LeastPick();
      } else {
        be := RotatePick();
      }
      if be.Some? {
        backends[be.value] := backends[be.value].(active := backends[be.value].active + 1);
      }
    }

    /** `upstream_release`. */
    method ReleaseConn(be: Option<nat>, error: bool)
      requires Valid() && (be.Some? ==> be.value < backends.Length)
      modifies backends
      ensures Valid() && View() == Released(old(View()), be, error)
    {
      if be.None? { return; }
      var i := be.value;
      if backends[i].active > 0 {
        backends[i] := backends[i].(active := backends[i].active - 1);
      }
      if error {
        backends[i] := backends[i].(errors := backends[i].errors + 1);
        if backends[i].errors > MAX_ERRORS {
          backends[i] := backends[i].(healthy := false);
        }
      } else {
        backends[i] := backends[i].(total := backends[i].total + 1);
        if !backends[i].healthy && backends[i].errors == 0 {
          backends[i] := backends[i].(healthy := true);
        }
      }
    }

    /** `upstream_get_connection`; `connect` is what the connect attempt gives if it is made. */
    method GetConnection(i: nat, connect: Option<int>) returns (fd: Option<int>)
      requires Valid() && i < backends.Length
      modifies backends
      ensures Valid() && (fd, View()) == Got(old(View()), i, connect)
    {
      var n := |backends[i].idle|;
      if n > 0 {
        fd := Some(backends[i].idle[n - 1]);
        backends[i] := backends[i].(idle := backends[i].idle[..n - 1]);
        return;
      }
      return connect;
    }

    /** `upstream_put_connection`; tells whether the descriptor was closed. */
    method PutConnection(be: Option<nat>, fd: int) returns (closed: bool)
      requires Valid() && (be.Some? ==> be.value < backends.Length)
      modifies backends
      ensures Valid() && (closed, View()) == Put(old(View()), be, fd)
    {
      if be.None? { return true; }
      var i := be.value;
      if |backends[i].idle| < keepalive && |backends[i].idle| < IDLE_SLOTS {
        backends[i] := backends[i].(idle := backends[i].idle + [fd]);
        return false;
      }
      return true;
    }

    /** `proxy_handle` as far as the pool is concerned. */
    method Handle(connect: Option<int>) returns (fd: Option<int>)
      requires Valid()
      modifies this`rrIndex, backends
      ensures Valid() && View() == Handled(old(View()), connect)
      ensures var c := Choice(old(View()));
              fd == if c.None? then None else Got(Selected(old(View())), c.value, connect).0
    {
      hide Selected, Choice, Got, Released;
      var be := Select();
      if be.None? {
        assert Selected(old(View())) == old(View()) by { NothingSelected(old(View())); }
        return None;
      }
      fd := GetConnection(be.value, connect);
      if fd.None? {
        ReleaseConn(be, true);
      }
    }
  }

  lemma NothingSelected(p: Pool)
    requires Wf(p) && Choice(p).None?
    ensures Selected(p) == p
  {
  }

  lemma RingMod(start: nat, k: nat, n: nat)
    requires start < n && k <= n
    ensures (start + k) % n == RoundRobin.Ring(start, k, n)
  {
    if start + k < n { ModUnique(start + k, n, 0, start + k); } else { ModUnique(start + k, n, 1, start + k - n); }
  }
}
