/** pool.py `_BrowserPool`: one browser per session id, with the time it was last
    handed out, an expiry sweep, and shutdown of every browser.

    The pool's dict is `pool` together with `order`, its insertion order, which
    decides the order of the sweep and of the shutdown loops. Starting and
    stopping browsers are calls into the browser driver; the pool records them in
    the ghost logs `started` and `stopLog`, and whether a stop raises is an input. */
module Pool {
  import opened Wrappers
  import opened Tabs

  /** `SESSION_TTL`, in seconds. */
  const SessionTtl: real := 20.0
  /** `SESSION_SWEEP_INTERVAL`, in seconds: the sleep between two sweep passes. */
  const SessionSweepInterval: real := 20.0

  /** A started browser; only its main tab is exposed. */
  class Browser {
    const mainTab: Tab

    constructor()
      ensures fresh(mainTab)
    {
      mainTab := new Tab(None);
    }
  }

  /** A value of the pool: the browser and `last_used` (`time.time()`). */
  datatype Session = Session(browser: Browser, lastUsed: real)

  type SessionMap = map<string, Session>

  /** A session idle strictly longer than the TTL. */
  predicate Expired(s: Session, now: real) {
    now - s.lastUsed > SessionTtl
  }

  predicate Distinct(ks: seq<string>) {
    forall i, j :: 0 <= i < j < |ks| ==> ks[i] != ks[j]
  }

  /** A dict: insertion order lists each key once, and every session has its own
      browser (each was started for its session). */
  ghost predicate ValidPool(order: seq<string>, pool: SessionMap) {
    Distinct(order) &&
    (forall k :: k in pool <==> k in order) &&
    (forall a, b :: a in pool && b in pool && a != b ==> pool[a].browser != pool[b].browser)
  }

  /** `ks` with the keys in `r` deleted, order kept. */
  function Without(ks: seq<string>, r: set<string>): seq<string> {
    if ks == [] then [] else (if ks[0] in r then [] else [ks[0]]) + Without(ks[1..], r)
  }

  /** Deletion keeps exactly the keys not deleted. */
  lemma {:induction false} WithoutMembers(ks: seq<string>, r: set<string>)
    ensures forall k :: k in Without(ks, r) <==> k in ks && k !in r
    decreases |ks|
  {
    if ks != [] {
      WithoutMembers(ks[1..], r);
      assert forall k :: k in ks <==> k == ks[0] || k in ks[1..];
    }
  }

  /** The browsers of the sessions `ks`, in that order. */
  function BrowsersOf(pool: SessionMap, ks: seq<string>): (bs: seq<Browser>)
    requires forall k :: k in ks ==> k in pool
    ensures |bs| == |ks|
  {
    seq(|ks|, i requires 0 <= i < |ks| => pool[ks[i]].browser)
  }

  /** One sweep pass over the snapshot `ks` of the pool: which sessions get
      `stop()` called on them (in order), which are deleted, and whether the pass
      got through (a raising stop ends it before the delete). */
  datatype SweepResult = SweepResult(stopped: seq<string>, removed: set<string>, completed: bool)

  function SweepFrom(ks: seq<string>, pool: SessionMap, now: real, failing: set<string>): (r: SweepResult)
    requires forall k :: k in ks ==> k in pool
    ensures forall k :: k in r.stopped ==> k in ks
  {
    if ks == [] then SweepResult([], {}, true)
    else if !Expired(pool[ks[0]], now) then SweepFrom(ks[1..], pool, now, failing)
    else if ks[0] in failing then SweepResult([ks[0]], {}, false)
    else
      var rest := SweepFrom(ks[1..], pool, now, failing);
      SweepResult([ks[0]] + rest.stopped, {ks[0]} + rest.removed, rest.completed)
  }

  /** What one sweep pass does: only expired sessions are stopped, a session is
      deleted exactly when it was stopped without raising, a pass that got through
      deletes every expired session, and one that did not ended at a raising stop. */
  lemma SweepSpec(ks: seq<string>, pool: SessionMap, now: real, failing: set<string>)
    requires forall k :: k in ks ==> k in pool
    ensures var r := SweepFrom(ks, pool, now, failing);
            (forall k :: k in r.stopped ==> k in ks && Expired(pool[k], now)) &&
            (forall k :: k in r.removed <==> k in r.stopped && k !in failing) &&
            (r.completed ==> forall k :: k in ks && Expired(pool[k], now) ==> k in r.removed) &&
            (!r.completed <==> r.stopped != [] && r.stopped[|r.stopped| - 1] in failing)
  {
    SweepStopsExpired(ks, pool, now, failing);
    SweepRemovesStopped(ks, pool, now, failing);
    SweepCompletion(ks, pool, now, failing);
  }

  lemma {:induction false} SweepStopsExpired(ks: seq<string>, pool: SessionMap, now: real, failing: set<string>)
    requires forall k :: k in ks ==> k in pool
    ensures forall k :: k in SweepFrom(ks, pool, now, failing).stopped ==> Expired(pool[k], now)
    decreases |ks|
  {
    if ks != [] {
      SweepStopsExpired(ks[1..], pool, now, failing);
    }
  }

  lemma {:induction false} SweepRemovesStopped(ks: seq<string>, pool: SessionMap, now: real, failing: set<string>)
    requires forall k :: k in ks ==> k in pool
    ensures var r := SweepFrom(ks, pool, now, failing);
            forall k :: k in r.removed <==> k in r.stopped && k !in failing
    decreases |ks|
  {
    if ks != [] {
      SweepRemovesStopped(ks[1..], pool, now, failing);
      var rest := SweepFrom(ks[1..], pool, now, failing);
      assert forall k :: k in SweepFrom(ks[1..], pool, now, failing).removed <==> k in SweepFrom(ks[1..], pool, now, failing).stopped && k !in failing;
      var r := SweepFrom(ks, pool, now, failing);
      if !Expired(pool[ks[0]], now) {
        assert r == rest;
      } else if ks[0] in failing {
        assert r == SweepResult([ks[0]], {}, false);
      } else {
        assert r.stopped == [ks[0]] + rest.stopped && r.removed == {ks[0]} + rest.removed;
      }
    }
  }

  lemma {:induction false} SweepCompletion(ks: seq<string>, pool: SessionMap, now: real, failing: set<string>)
    requires forall k :: k in ks ==> k in pool
    ensures var r := SweepFrom(ks, pool, now, failing);
            (r.completed ==> forall k :: k in ks && Expired(pool[k], now) ==> k in r.removed) &&
            (!r.completed <==> r.stopped != [] && r.stopped[|r.stopped| - 1] in failing)
    decreases |ks|
  {
    if ks != [] {
      SweepCompletion(ks[1..], pool, now, failing);
      var rest := SweepFrom(ks[1..], pool, now, failing);
      var r := SweepFrom(ks, pool, now, failing);
      if Expired(pool[ks[0]], now) && ks[0] !in failing {
        assert r.stopped == [ks[0]] + rest.stopped;
        assert rest.stopped != [] ==> r.stopped[|r.stopped| - 1] == rest.stopped[|rest.stopped| - 1];
        assert forall k :: k in ks ==> k == ks[0] || k in ks[1..];
      } else if !Expired(pool[ks[0]], now) {
        assert forall k :: k in ks ==> k == ks[0] || k in ks[1..];
      }
    }
  }

  /** Each session is stopped at most once in a pass. */
  lemma {:induction false} SweepStopsOnce(ks: seq<string>, pool: SessionMap, now: real, failing: set<string>)
    requires forall k :: k in ks ==> k in pool
    requires Distinct(ks)
    ensures Distinct(SweepFrom(ks, pool, now, failing).stopped)
    ensures forall k :: k in SweepFrom(ks, pool, now, failing).stopped ==> k in ks
    decreases |ks|
  {
    if ks != [] {
      SweepStopsOnce(ks[1..], pool, now, failing);
      var rest := SweepFrom(ks[1..], pool, now, failing);
      if Expired(pool[ks[0]], now) && ks[0] !in failing {
        var s := [ks[0]] + rest.stopped;
        assert ks[0] !in ks[1..];
        forall i, j | 0 <= i < j < |s| ensures s[i] != s[j] {
          assert s[j] == rest.stopped[j - 1];
          if i > 0 {
            assert s[i] == rest.stopped[i - 1];
          }
        }
      }
    }
  }

  /** A pass over sessions none of which is expired stops and deletes nothing. */
  lemma {:induction false} SweepNothingExpired(ks: seq<string>, pool: SessionMap, now: real, failing: set<string>)
    requires forall k :: k in ks ==> k in pool
    requires forall k :: k in ks ==> !Expired(pool[k], now)
    ensures SweepFrom(ks, pool, now, failing) == SweepResult([], {}, true)
    decreases |ks|
  {
    if ks != [] {
      assert ks[0] in ks;
      SweepNothingExpired(ks[1..], pool, now, failing);
    }
  }

  /** A pass that got through is idempotent: at the same time, a second pass over
      the pool it leaves stops and deletes nothing. */
  lemma SweepIdempotent(ks: seq<string>, pool: SessionMap, now: real, failing: set<string>, failing2: set<string>)
    requires forall k :: k in ks ==> k in pool
    requires SweepFrom(ks, pool, now, failing).completed
    ensures var r := SweepFrom(ks, pool, now, failing);
            forall k :: k in Without(ks, r.removed) ==> k in pool - r.removed
    ensures var r := SweepFrom(ks, pool, now, failing);
            SweepFrom(Without(ks, r.removed), pool - r.removed, now, failing2) == SweepResult([], {}, true)
  {
    var r := SweepFrom(ks, pool, now, failing);
    SweepSpec(ks, pool, now, failing);
    WithoutMembers(ks, r.removed);
    SweepNothingExpired(Without(ks, r.removed), pool - r.removed, now, failing2);
  }

  /** The shutdown loop of `close` and `__aexit__` over the snapshot `ks`: the
      sessions it calls `stop()` on, and whether it got through to `clear()`. */
  function CloseFrom(ks: seq<string>, failing: set<string>): (c: (seq<string>, bool))
    ensures forall k :: k in c.0 ==> k in ks
  {
    if ks == [] then ([], true)
    else if ks[0] in failing then ([ks[0]], false)
    else var rest := CloseFrom(ks[1..], failing); ([ks[0]] + rest.0, rest.1)
  }

  /** The shutdown loop stops sessions in pool order up to and including the first
      raising one; it gets through exactly when none raises, and then it has
      stopped every session. */
  lemma {:induction false} CloseSpec(ks: seq<string>, failing: set<string>)
    ensures var c := CloseFrom(ks, failing);
            |c.0| <= |ks| && c.0 == ks[..|c.0|] &&
            (c.1 <==> forall k :: k in ks ==> k !in failing) &&
            (c.1 ==> c.0 == ks) &&
            (!c.1 ==> c.0 != [] && c.0[|c.0| - 1] in failing &&
                      forall i :: 0 <= i < |c.0| - 1 ==> c.0[i] !in failing)
    decreases |ks|
  {
    if ks != [] && ks[0] !in failing {
      CloseSpec(ks[1..], failing);
      var rest := CloseFrom(ks[1..], failing);
      var c := CloseFrom(ks, failing);
      assert c.0 == [ks[0]] + rest.0;
      assert forall k :: k in ks ==> k == ks[0] || k in ks[1..];
      forall i | 0 <= i < |c.0| - 1 && !c.1 ensures c.0[i] !in failing {
        if i > 0 {
          assert c.0[i] == rest.0[i - 1];
        }
      }
    }
  }

  /** In a valid pool distinct sessions have distinct browsers, so a shutdown that
      gets through stops every browser of the pool exactly once. */
  lemma BrowsersOnce(order: seq<string>, pool: SessionMap, failing: set<string>)
    requires ValidPool(order, pool)
    requires CloseFrom(order, failing).1
    ensures CloseFrom(order, failing).0 == order
    ensures forall i, j :: 0 <= i < j < |order| ==> BrowsersOf(pool, order)[i] != BrowsersOf(pool, order)[j]
    ensures forall k :: k in pool ==> pool[k].browser in BrowsersOf(pool, order)
  {
    CloseSpec(order, failing);
    var bs := BrowsersOf(pool, order);
    forall i, j | 0 <= i < j < |order| ensures bs[i] != bs[j] {
      assert order[i] != order[j] && order[i] in pool && order[j] in pool;
    }
    forall k | k in pool ensures pool[k].browser in bs {
      var i :| 0 <= i < |order| && order[i] == k;
      assert bs[i] == pool[k].browser;
    }
  }

  lemma {:induction false} WithoutOne(ks: seq<string>, r: set<string>, k: string)
    ensures Without(Without(ks, r), {k}) == Without(ks, r + {k})
    decreases |ks|
  {
    if ks != [] {
      WithoutOne(ks[1..], r, k);
      var w := Without(ks[1..], r);
      if ks[0] !in r {
        assert Without(ks, r) == [ks[0]] + w;
        assert ([ks[0]] + w)[1..] == w;
        if ks[0] == k {
          assert Without(Without(ks, r), {k}) == Without(w, {k});
        } else {
          assert Without(Without(ks, r), {k}) == [ks[0]] + Without(w, {k});
        }
      } else {
        assert Without(ks, r) == w;
        assert Without(ks, r + {k}) == Without(ks[1..], r + {k});
      }
    }
  }

  /** Deleting keys from a valid pool leaves a valid pool. */
  lemma {:induction false} ValidWithout(order: seq<string>, pool: SessionMap, r: set<string>)
    requires ValidPool(order, pool)
    ensures ValidPool(Without(order, r), pool - r)
    decreases |order|
  {
    if order != [] {
      var tail := order[1..];
      var p := pool - {order[0]};
      assert ValidPool(tail, p) by {
        forall i, j | 0 <= i < j < |tail| ensures tail[i] != tail[j] {
          assert tail[i] == order[i + 1] && tail[j] == order[j + 1];
        }
        forall k ensures k in p <==> k in tail {
          if k in tail {
            var i :| 0 <= i < |tail| && tail[i] == k;
            assert order[i + 1] == k;
          }
          if k in order && k != order[0] {
            var i :| 0 <= i < |order| && order[i] == k;
            assert tail[i - 1] == k;
          }
        }
      }
      ValidWithout(tail, p, r);
      WithoutMembers(tail, r);
      var w := Without(order, r);
      if order[0] !in r {
        assert w == [order[0]] + Without(tail, r);
        assert p - r == (pool - r) - {order[0]};
        forall i, j | 0 <= i < j < |w| ensures w[i] != w[j] {
          assert w[j] == Without(tail, r)[j - 1];
          if i == 0 {
            assert w[j] in tail;
            assert order[0] !in tail;
          } else {
            assert w[i] == Without(tail, r)[i - 1];
          }
        }
      } else {
        assert p - r == pool - r;
      }
    }
  }

  lemma BrowsersOfAppend(pool: SessionMap, a: seq<string>, b: seq<string>)
    requires forall k :: k in a + b ==> k in pool
    ensures BrowsersOf(pool, a + b) == BrowsersOf(pool, a) + BrowsersOf(pool, b)
  {
  }

  /** One turn of the sweep loop, against `SweepFrom`: the state after the first
      `i` sessions, combined with the rest of the pass, is the whole pass. */
  lemma SweepStep(ks: seq<string>, snapshot: SessionMap, now: real, failing: set<string>,
                  i: nat, stopped: seq<string>, removed: set<string>)
    requires forall k :: k in ks ==> k in snapshot
    requires i < |ks|
    requires var r := SweepFrom(ks[i..], snapshot, now, failing);
             SweepFrom(ks, snapshot, now, failing) == SweepResult(stopped + r.stopped, removed + r.removed, r.completed)
    ensures var r := SweepFrom(ks[i + 1..], snapshot, now, failing);
            var k := ks[i];
            (!Expired(snapshot[k], now) ==>
              SweepFrom(ks, snapshot, now, failing) == SweepResult(stopped + r.stopped, removed + r.removed, r.completed)) &&
            (Expired(snapshot[k], now) && k in failing ==>
              SweepFrom(ks, snapshot, now, failing) == SweepResult(stopped + [k], removed, false)) &&
            (Expired(snapshot[k], now) && k !in failing ==>
              SweepFrom(ks, snapshot, now, failing) == SweepResult((stopped + [k]) + r.stopped, (removed + {k}) + r.removed, r.completed))
  {
    assert ks[i..][1..] == ks[i + 1..];
    var r := SweepFrom(ks[i + 1..], snapshot, now, failing);
    assert (stopped + [ks[i]]) + r.stopped == stopped + ([ks[i]] + r.stopped);
  }

  /** The loop of one sweep pass over the snapshot `ks` of the pool: the sessions
      it keeps, in order, the browsers it calls `stop()` on, and whether a stop
      raised. Each session is looked up in the snapshot, as the loop over
      `list(self._pool.items())` does. */
  method SweepPass(ks: seq<string>, snapshot: SessionMap, now: real, failing: set<string>)
    returns (kept: SessionMap, keptOrder: seq<string>, stops: seq<Browser>, raised: bool)
    requires forall k :: k in ks ==> k in snapshot
    ensures var r := SweepFrom(ks, snapshot, now, failing);
            kept == snapshot - r.removed && keptOrder == Without(ks, r.removed) &&
            stops == BrowsersOf(snapshot, r.stopped) && raised == !r.completed
  {
    kept := snapshot;
    keptOrder := ks;
    stops := [];
    ghost var stopped: seq<string> := [];
    ghost var removed: set<string> := {};
    assert Without(ks, {}) == ks by { WithoutNone(ks); }
    assert ks[0..] == ks;
    ghost var whole := SweepFrom(ks, snapshot, now, failing);
    var i := 0;
    while i < |ks|
      invariant 0 <= i <= |ks|
      invariant forall k :: k in stopped ==> k in snapshot
      invariant whole == SweepResult(stopped + SweepFrom(ks[i..], snapshot, now, failing).stopped,
                                     removed + SweepFrom(ks[i..], snapshot, now, failing).removed,
                                     SweepFrom(ks[i..], snapshot, now, failing).completed)
      invariant kept == snapshot - removed && keptOrder == Without(ks, removed)
      invariant stops == BrowsersOf(snapshot, stopped)
    {
      var sid := ks[i];
      var session := snapshot[sid];
      SweepStep(ks, snapshot, now, failing, i, stopped, removed);
      if now - session.lastUsed > SessionTtl {
        BrowsersOfAppend(snapshot, stopped, [sid]);
        stops := stops + [session.browser];
        stopped := stopped + [sid];
        if sid in failing {
          return kept, keptOrder, stops, true;
        }
        WithoutOne(ks, removed, sid);
        kept := kept - {sid};
        keptOrder := Without(keptOrder, {sid});
        removed := removed + {sid};
      }
      i := i + 1;
    }
    assert ks[|ks|..] == [];
    raised := false;
  }

  /** The shutdown loop of `close` over the snapshot `ks` of the pool: the
      browsers it calls `stop()` on, in order, and whether a stop raised. */
  method StopAll(ks: seq<string>, pool: SessionMap, failing: set<string>) returns (stops: seq<Browser>, raised: bool)
    requires forall k :: k in ks ==> k in pool
    ensures var c := CloseFrom(ks, failing);
            stops == BrowsersOf(pool, c.0) && raised == !c.1
  {
    stops := [];
    ghost var stopped: seq<string> := [];
    assert ks[0..] == ks;
    assert [] + CloseFrom(ks, failing).0 == CloseFrom(ks, failing).0;
    var i := 0;
    while i < |ks|
      invariant 0 <= i <= |ks|
      invariant stopped == ks[..i]
      invariant CloseFrom(ks, failing) == (stopped + CloseFrom(ks[i..], failing).0, CloseFrom(ks[i..], failing).1)
      invariant stops == BrowsersOf(pool, stopped)
    {
      var sid := ks[i];
      CloseStep(ks, failing, i, stopped);
      BrowsersOfAppend(pool, stopped, [sid]);
      stops := stops + [pool[sid].browser];
      stopped := stopped + [sid];
      if sid in failing {
        return stops, true;
      }
      i := i + 1;
    }
    assert ks[|ks|..] == [];
    raised := false;
  }

  /** One turn of the shutdown loop, against `CloseFrom`. */
  lemma CloseStep(ks: seq<string>, failing: set<string>, i: nat, stopped: seq<string>)
    requires i < |ks| && stopped == ks[..i]
    requires CloseFrom(ks, failing) == (stopped + CloseFrom(ks[i..], failing).0, CloseFrom(ks[i..], failing).1)
    ensures ks[i] in failing ==> CloseFrom(ks, failing) == (stopped + [ks[i]], false)
    ensures ks[i] !in failing ==>
              CloseFrom(ks, failing) == ((stopped + [ks[i]]) + CloseFrom(ks[i + 1..], failing).0, CloseFrom(ks[i + 1..], failing).1)
    ensures stopped + [ks[i]] == ks[..i + 1]
  {
    assert ks[i..][1..] == ks[i + 1..];
    var rest := CloseFrom(ks[i + 1..], failing);
    assert (stopped + [ks[i]]) + rest.0 == stopped + ([ks[i]] + rest.0);
  }

  class BrowserPool {
    /** `self._pool`: the sessions, and the dict's insertion order. */
    var pool: SessionMap
    var order: seq<string>
    /** The browsers started by the pool, and the `stop()` calls it made, in order. */
    ghost var started: seq<Browser>
    ghost var stopLog: seq<Browser>

    ghost predicate Valid()
      reads this
    {
      ValidPool(order, pool)
    }

    constructor()
      ensures Valid() && pool == map[] && order == [] && started == [] && stopLog == []
    {
      pool := map[];
      order := [];
      started := [];
      stopLog := [];
    }

    /** `get_tab`: the session's browser is reused, or one is started (`None`
        when starting raises); either way the session's timestamp becomes `now`
        and its main tab is returned. */
    method GetTab(sid: string, now: real, startFails: bool) returns (tab: Option<Tab>)
      requires Valid()
      modifies this
      ensures Valid() && stopLog == old(stopLog)
      ensures sid in old(pool) ==>
                tab == Some(old(pool)[sid].browser.mainTab) && started == old(started) &&
                pool == old(pool)[sid := Session(old(pool)[sid].browser, now)] && order == old(order)
      ensures sid !in old(pool) && !startFails ==>
                |started| == |old(started)| + 1 && fresh(started[|started| - 1]) &&
                started[..|started| - 1] == old(started) &&
                pool == old(pool)[sid := Session(started[|started| - 1], now)] &&
                order == old(order) + [sid] && tab == Some(started[|started| - 1].mainTab)
      ensures sid !in old(pool) && startFails ==>
                tab == None && started == old(started) && pool == old(pool) && order == old(order)
    {
      var browser: Browser;
      if sid in pool {
        browser := pool[sid].browser;
      } else {
        if startFails {
          return None;
        }
        browser := new Browser();
        started := started + [browser];
        order := order + [sid];
      }
      pool := pool[sid := Session(browser, now)];
      tab := Some(browser.mainTab);
    }

    /** `list_sessions`: every session id with its last-used time. */
    function ListSessions(): (r: map<string, real>)
      reads this
      ensures r.Keys == pool.Keys
      ensures forall k :: k in r ==> r[k] == pool[k].lastUsed
    {
      map k | k in pool :: pool[k].lastUsed
    }

    /** One pass of `sweep_expired_sessions`, with the clock reading `now`;
        `failing` holds the sessions whose `stop()` raises, and `raised` says the
        pass ended on one. */
    method SweepExpired(now: real, failing: set<string>) returns (raised: bool)
      requires Valid()
      modifies this
      ensures Valid() && started == old(started)
      ensures var r := SweepFrom(old(order), old(pool), now, failing);
              pool == old(pool) - r.removed && order == Without(old(order), r.removed) &&
              stopLog == old(stopLog) + BrowsersOf(old(pool), r.stopped) && raised == !r.completed
    {
      var kept, keptOrder, stops;
      kept, keptOrder, stops, raised := SweepPass(order, pool, now, failing);
      ValidWithout(order, pool, SweepFrom(order, pool, now, failing).removed);
      pool := kept;
      order := keptOrder;
      stopLog := stopLog + stops;
    }

    /** `close`: stops the browsers in pool order, then empties the pool; a raising
        `stop()` (`failing`) ends the loop before the pool is emptied. */
    method Close(failing: set<string>) returns (raised: bool)
      requires Valid()
      modifies this
      ensures Valid() && started == old(started)
      ensures var c := CloseFrom(old(order), failing);
              stopLog == old(stopLog) + BrowsersOf(old(pool), c.0) && raised == !c.1 &&
              (c.1 ==> pool == map[] && order == []) &&
              (!c.1 ==> pool == old(pool) && order == old(order))
    {
      var stops;
      stops, raised := StopAll(order, pool, failing);
      stopLog := stopLog + stops;
      if raised {
        return;
      }
      pool := map[];
      order := [];
    }

    /** `__aexit__`: the same shutdown as `close`. */
    method AExit(failing: set<string>) returns (raised: bool)
      requires Valid()
      modifies this
      ensures Valid() && started == old(started)
      ensures var c := CloseFrom(old(order), failing);
              stopLog == old(stopLog) + BrowsersOf(old(pool), c.0) && raised == !c.1 &&
              (c.1 ==> pool == map[] && order == []) &&
              (!c.1 ==> pool == old(pool) && order == old(order))
    {
      raised := Close(failing);
    }
  }

  lemma WithoutNone(ks: seq<string>)
    ensures Without(ks, {}) == ks
  {
  }

  /** After a shutdown that got through, a second one stops nothing; after one
      that raised, the second starts over with the first session again. */
  method CloseTwice(p: BrowserPool, failing: set<string>) returns (first: bool, second: bool)
    requires p.Valid()
    modifies p
    ensures !first ==> p.stopLog == old(p.stopLog) + BrowsersOf(old(p.pool), CloseFrom(old(p.order), failing).0)
    ensures !first ==> !second
    ensures !first ==> |p.stopLog| == |old(p.stopLog)| + |old(p.order)|
    ensures first ==> var n := |CloseFrom(old(p.order), failing).0|;
                      |p.stopLog| > |old(p.stopLog)| + n && p.stopLog[|old(p.stopLog)| + n] == p.stopLog[|old(p.stopLog)|]
  {
    first := p.Close(failing);
    ghost var between := p.stopLog;
    second := p.Close(failing);
    if !first {
      assert CloseFrom([], failing) == ([], true);
      assert p.stopLog == between;
      CloseSpec(old(p.order), failing);
    } else {
      CloseSpec(old(p.order), failing);
      var bs := BrowsersOf(old(p.pool), CloseFrom(old(p.order), failing).0);
      assert p.stopLog == old(p.stopLog) + bs + bs;
    }
  }
}
