/** The sliding-window request tracker: request times per client, compacted in place, idle clients deleted. */
module ScanTracker {
  type Key = nat
  type Time = int

  const SECOND: Time := 1_000_000_000
  const CLEANUP_TTL: Time := 300 * SECOND

  /** The entries of `s` that are newer than `cutoff`. */
  function Newer(s: seq<Time>, cutoff: Time): (r: seq<Time>)
    ensures |r| <= |s|
  {
    if s == [] then []
    else Newer(s[..|s| - 1], cutoff) + if s[|s| - 1] > cutoff then [s[|s| - 1]] else []
  }

  lemma NewerAppend(s: seq<Time>, x: Time, cutoff: Time)
    ensures Newer(s + [x], cutoff) == Newer(s, cutoff) + if x > cutoff then [x] else []
  {
    assert (s + [x])[..|s|] == s;
  }

  /** What an earlier cutoff has removed, a later one would have removed as well. */
  lemma {:induction false} NewerTwice(s: seq<Time>, a: Time, b: Time)
    requires a <= b
    ensures Newer(Newer(s, a), b) == Newer(s, b)
  {
    if s != [] {
      var n := |s| - 1;
      NewerTwice(s[..n], a, b);
      if s[n] > a {
        NewerAppend(Newer(s[..n], a), s[n], b);
      } else {
        assert Newer(s, a) == Newer(s[..n], a);
      }
    }
  }

  lemma {:induction false} AllOld(s: seq<Time>, cutoff: Time)
    requires forall i | 0 <= i < |s| :: s[i] <= cutoff
    ensures Newer(s, cutoff) == []
  {
    if s != [] {
      AllOld(s[..|s| - 1], cutoff);
    }
  }

  /** Keeps the entries newer than `cutoff` at the front of the same array, in their order. */
  method Compact(a: array<Time>, n: nat, cutoff: Time) returns (m: nat)
    requires n <= a.Length
    modifies a
    ensures m <= n && a[..m] == Newer(old(a[..n]), cutoff)
  {
    ghost var was := a[..n];
    m := 0;
    for i := 0 to n
      invariant m <= i && (forall j | i <= j < n :: a[j] == was[j]) && a[..m] == Newer(was[..i], cutoff)
    {
      var t := a[i];
      ghost var kept := a[..m];
      NewerAppend(was[..i], t, cutoff);
      assert was[..i + 1] == was[..i] + [t];
      if t > cutoff {
        a[m] := t;
        m := m + 1;
        assert a[..m] == kept + [t];
      }
    }
    assert was[..n] == was;
  }

  datatype Stats = Stats(requests: array<Time>, count: nat, lastAccess: Time)

  class RequestTracker {
    var clients: map<Key, Stats>
    ghost var now: Time                        // the last time that was read from the clock
    ghost var history: map<Key, seq<Time>>     // all requests of every client

    ghost function Past(key: Key): seq<Time>
      reads this
    {
      if key in history then history[key] else []
    }

    ghost function Arrays(): set<object>
      reads this
    {
      set k | k in clients :: clients[k].requests
    }

    /** A client's array holds what was within the window at its last request; of a client without an
        entry all requests are long past. */
    ghost predicate Tracked(key: Key)
      reads this, Arrays()
    {
      var past := Past(key);
      && (forall i | 0 <= i < |past| :: past[i] <= now)
      && if key in clients then
           var s := clients[key];
           && s.count <= s.requests.Length && s.lastAccess <= now
           && s.requests[..s.count] == Newer(past, s.lastAccess - SECOND)
           && (forall i | 0 <= i < |past| :: past[i] <= s.lastAccess)
         else forall i | 0 <= i < |past| :: past[i] < now - CLEANUP_TTL
    }

    ghost predicate Valid()
      reads this, Arrays()
    {
      (forall k :: Tracked(k)) && Separate()
    }

    ghost predicate Separate()
      reads this
    {
      forall k, l | k in clients && l in clients && k != l :: clients[k].requests != clients[l].requests
    }

    constructor ()
      ensures Valid() && clients == map[] && history == map[]
    {
      clients, history, now := map[], map[], 0;
    }

    /** Records a request. Although old entries have been overwritten and idle clients forgotten, the count is
        that of all requests of this client in the last second. */
    method RecordRequest(key: Key, time: Time) returns (rate: nat)
      requires Valid() && time >= now
      modifies this, Arrays()
      ensures Valid() && fresh(Arrays() - old(Arrays()))
      ensures now == time && history == old(history)[key := old(Past(key)) + [time]]
      ensures rate == |Newer(Past(key), time - SECOND)|
    {
      hide Newer;
      ghost var past := Past(key);
      assert Tracked(key);
      var a, count := new Time[100], 0;
      if key in clients {
        a, count := clients[key].requests, clients[key].count;
      } else {
        AllOld(past, time - CLEANUP_TTL);
      }
      ghost var last := if key in clients then clients[key].lastAccess - SECOND else time - CLEANUP_TTL;
      assert a[..count] == Newer(past, last);
      a, rate := Slide(a, count, time);
      WindowMoves(past, last, time);
      forall k | k != key
        ensures Tracked(k)
      {
        assert old(Tracked(k));
        assert k in clients ==> clients[k].requests[..] == old(clients[k].requests[..]);
      }
      hide Tracked;
      Store(key, a, rate, time);
    }

    /** Stores a client's new state. */
    method Store(key: Key, a: array<Time>, m: nat, time: Time)
      requires (forall k | k != key :: Tracked(k)) && Separate() && time >= now && m <= a.Length
      requires forall k | k in clients && k != key :: clients[k].requests != a
      requires forall i | 0 <= i < |Past(key)| :: Past(key)[i] <= now
      requires a[..m] == Newer(Past(key) + [time], time - SECOND)
      modifies this
      ensures Valid() && now == time && history == old(history)[key := old(Past(key)) + [time]]
      ensures Arrays() <= old(Arrays()) + {a}
    {
      hide Newer;
      clients := clients[key := Stats(a, m, time)];
      now, history := time, history[key := Past(key) + [time]];
      forall k | k != key
        ensures Tracked(k)
      {
        assert old(Tracked(k));
      }
      assert Tracked(key);
      hide Tracked;
      assert forall k :: Tracked(k);
    }

    /** Appends the request and drops what has left the window. */
    static method Slide(a: array<Time>, n: nat, t: Time) returns (b: array<Time>, m: nat)
      requires n <= a.Length
      modifies a
      ensures b == a || fresh(b)
      ensures m <= b.Length && b[..m] == Newer(old(a[..n]) + [t], t - SECOND)
    {
      ghost var kept := a[..n];
      b := Append(a, n, t);
      assert b[..n + 1] == kept + [t];
      m := Compact(b, n + 1, t - SECOND);
    }

    /** Go's append: in place while the capacity lasts. */
    static method Append(a: array<Time>, n: nat, t: Time) returns (b: array<Time>)
      requires n <= a.Length
      modifies a
      ensures b == a || fresh(b)
      ensures n < b.Length && b[..n] == old(a[..n]) && b[n] == t
    {
      b := a;
      if n == a.Length {
        b := new Time[2 * n + 1];
        forall i | 0 <= i < n {
          b[i] := a[i];
        }
      }
      b[n] := t;
    }

    /** Deletes the clients that have been idle for longer than the limit. */
    method Cleanup(time: Time)
      requires Valid() && time >= now
      modifies this
      ensures Valid() && now == time && history == old(history)
      ensures forall k :: k in clients <==> k in old(clients) && time - old(clients)[k].lastAccess <= CLEANUP_TTL
      ensures forall k | k in clients :: clients[k] == old(clients)[k]
    {
      hide Newer;
      clients := map k | k in clients && time - clients[k].lastAccess <= CLEANUP_TTL :: clients[k];
      now := time;
      forall k
        ensures Tracked(k)
      {
        assert old(Tracked(k)) && Past(k) == old(Past(k));
        if k in clients {
          assert clients[k] == old(clients)[k];
        } else if k in old(clients) {
          assert time - old(clients)[k].lastAccess > CLEANUP_TTL;
        }
      }
      hide Tracked;
    }

    method IsScanning(key: Key, threshold: int, time: Time) returns (scanning: bool)
      requires Valid() && time >= now
      modifies this, Arrays()
      ensures Valid() && fresh(Arrays() - old(Arrays())) && history == old(history)[key := old(Past(key)) + [time]]
      ensures scanning <==> |Newer(old(Past(key)) + [time], time - SECOND)| > threshold
    {
      var rate := RecordRequest(key, time);
      scanning := rate > threshold;
    }
  }

  lemma WindowMoves(past: seq<Time>, last: Time, time: Time)
    requires last <= time - SECOND
    ensures Newer(Newer(past, last) + [time], time - SECOND) == Newer(past + [time], time - SECOND)
  {
    NewerAppend(Newer(past, last), time, time - SECOND);
    NewerAppend(past, time, time - SECOND);
    NewerTwice(past, last, time - SECOND);
  }
}
