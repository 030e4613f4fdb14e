/** The sliding-window limiter of socket events: a pruned list of acceptance times per socket. */
module RateLimiter {

  const CAPACITY := 1000

  datatype Settings = Settings(limit: nat, window: int)

  /** The Map of a limiter: its keys in the order of their first insertion, and the list of each. */
  datatype Store = Store(order: seq<nat>, requests: map<nat, seq<int>>)

  datatype Call = Call(socket: nat, now: int)

  /** The times less than a window before now, in order. */
  function Recent(times: seq<int>, now: int, window: int): seq<int> {
    if times == [] then []
    else
      var earlier, last := Recent(times[..|times| - 1], now, window), times[|times| - 1];
      if now - last < window then earlier + [last] else earlier
  }

  function Stored(st: Store, socket: nat): seq<int> {
    if socket in st.requests then st.requests[socket] else []
  }

  function Touched(st: Store, socket: nat): Store {
    if socket in st.requests then st else Store(st.order + [socket], st.requests[socket := []])
  }

  function Evicted(st: Store): Store {
    if |st.order| > CAPACITY then Store(st.order[1..], st.requests - {st.order[0]}) else st
  }

  /** One call of the middleware: the new map, and whether the event is let through. */
  function Serve(cfg: Settings, st: Store, c: Call): (Store, bool) {
    var touched := Touched(st, c.socket);
    var recent := Recent(Stored(touched, c.socket), c.now, cfg.window);
    if |recent| >= cfg.limit then (touched, false)
    else (Evicted(touched.(requests := touched.requests[c.socket := recent + [c.now]])), true)
  }

  class Limiter {
    const cfg: Settings
    var order: seq<nat>
    var requests: map<nat, seq<int>>

    constructor (cfg: Settings)
      ensures this.cfg == cfg && Current() == Store([], map[])
    {
      this.cfg := cfg;
      order, requests := [], map[];
    }

    function Current(): Store
      reads this
    {
      Store(order, requests)
    }

    method Allow(c: Call) returns (ok: bool)
      modifies this
      ensures (Current(), ok) == Serve(cfg, old(Current()), c)
    {
      if c.socket !in requests {
        order, requests := order + [c.socket], requests[c.socket := []];
      }
      var recent := [];
      var times := requests[c.socket];
      for i := 0 to |times|
        invariant recent == Recent(times[..i], c.now, cfg.window)
      {
        assert times[..i + 1][..i] == times[..i];
        if c.now - times[i] < cfg.window {
          recent := recent + [times[i]];
        }
      }
      assert times[..|times|] == times;
      if |recent| >= cfg.limit {
        return false;
      }
      recent := recent + [c.now];
      requests := requests[c.socket := recent];
      if |order| > CAPACITY {
        order, requests := order[1..], requests - {order[0]};
      }
      ok := true;
    }
  }

  // ---- Runs ----

  function Run(cfg: Settings, calls: seq<Call>): Store {
    if calls == [] then Store([], map[])
    else Serve(cfg, Run(cfg, calls[..|calls| - 1]), calls[|calls| - 1]).0
  }

  /** All times at which events of a socket were let through. */
  function History(cfg: Settings, calls: seq<Call>, socket: nat): seq<int> {
    if calls == [] then []
    else
      var init, last := calls[..|calls| - 1], calls[|calls| - 1];
      var earlier := History(cfg, init, socket);
      if last.socket == socket && Serve(cfg, Run(cfg, init), last).1 then earlier + [last.now] else earlier
  }

  function Sockets(calls: seq<Call>): set<nat> {
    set i | 0 <= i < |calls| :: calls[i].socket
  }

  ghost predicate ClockForward(calls: seq<Call>) {
    forall i, j | 0 <= i < j < |calls| :: calls[i].now <= calls[j].now
  }

  /** The environment the limiter is meant for: a clock that does not go back, and no eviction. */
  ghost predicate Ordinary(calls: seq<Call>) {
    ClockForward(calls) && |Sockets(calls)| <= CAPACITY
  }

  lemma SocketsAppended(calls: seq<Call>)
    requires calls != []
    ensures Sockets(calls) == Sockets(calls[..|calls| - 1]) + {calls[|calls| - 1].socket}
  {
  }

  lemma OrdinaryPrefix(calls: seq<Call>)
    requires calls != [] && Ordinary(calls)
    ensures Ordinary(calls[..|calls| - 1])
    ensures |Sockets(calls[..|calls| - 1])| <= |Sockets(calls)|
  {
    SocketsAppended(calls);
    var a, b := Sockets(calls[..|calls| - 1]), Sockets(calls);
    assert a <= b;
    assert |b| == |a| + |b - a|;
  }

  /** Without eviction the map holds one list for every socket seen. */
  lemma {:induction false} NoEviction(cfg: Settings, calls: seq<Call>)
    requires Ordinary(calls)
    ensures var st := Run(cfg, calls); st.requests.Keys == Sockets(calls) && |st.order| == |Sockets(calls)|
  {
    if calls != [] {
      var init, last := calls[..|calls| - 1], calls[|calls| - 1];
      OrdinaryPrefix(calls);
      NoEviction(cfg, init);
      SocketsAppended(calls);
    }
  }

  // ---- Pruning loses nothing ----

  lemma RecentAppended(times: seq<int>, t: int, now: int, window: int)
    ensures Recent(times + [t], now, window)
            == if now - t < window then Recent(times, now, window) + [t] else Recent(times, now, window)
  {
  }

  /** Pruning now and again later is pruning later. */
  lemma {:induction false} PruneTwice(times: seq<int>, now: int, later: int, window: int)
    requires now <= later
    ensures Recent(Recent(times, now, window), later, window) == Recent(times, later, window)
  {
    if times != [] {
      var init, last := times[..|times| - 1], times[|times| - 1];
      PruneTwice(init, now, later, window);
      RecentAppended(Recent(init, now, window), last, later, window);
    }
  }

  /** From `now` on, the stored list shows the same recent part as the whole history. */
  ghost predicate Agree(stored: seq<int>, all: seq<int>, now: int, window: int) {
    forall later | now <= later :: Recent(stored, later, window) == Recent(all, later, window)
  }

  lemma AcceptAgrees(stored: seq<int>, all: seq<int>, clock: int, now: int, window: int)
    requires Agree(stored, all, clock, window) && clock <= now
    ensures Agree(Recent(stored, now, window) + [now], all + [now], now, window)
  {
    var pruned := Recent(stored, now, window);
    forall later | now <= later ensures Recent(pruned + [now], later, window) == Recent(all + [now], later, window) {
      RecentAppended(pruned, now, later, window);
      RecentAppended(all, now, later, window);
      PruneTwice(stored, now, later, window);
    }
  }

  /** The clock reading of the last call. */
  function Clock(calls: seq<Call>): int
    requires calls != []
  {
    calls[|calls| - 1].now
  }

  lemma {:induction false} PrunedListIsFaithful(cfg: Settings, calls: seq<Call>, socket: nat, now: int)
    requires Ordinary(calls) && (calls != [] ==> Clock(calls) <= now)
    ensures Agree(Stored(Run(cfg, calls), socket), History(cfg, calls, socket), now, cfg.window)
  {
    if calls != [] {
      var init, last := calls[..|calls| - 1], calls[|calls| - 1];
      OrdinaryPrefix(calls);
      NoEviction(cfg, init);
      NoEviction(cfg, calls);
      PrunedListIsFaithful(cfg, init, socket, last.now);
      StepFaithful(cfg, calls, socket);
    }
  }

  lemma StepFaithful(cfg: Settings, calls: seq<Call>, socket: nat)
    requires calls != []
    requires var init := calls[..|calls| - 1];
             && Agree(Stored(Run(cfg, init), socket), History(cfg, init, socket), Clock(calls), cfg.window)
             && |Touched(Run(cfg, init), calls[|calls| - 1].socket).order| <= CAPACITY
    ensures Agree(Stored(Run(cfg, calls), socket), History(cfg, calls, socket), Clock(calls), cfg.window)
  {
    var init, last := calls[..|calls| - 1], calls[|calls| - 1];
    if last.socket == socket && Serve(cfg, Run(cfg, init), last).1 {
      AcceptAgrees(Stored(Run(cfg, init), socket), History(cfg, init, socket), last.now, last.now, cfg.window);
    }
  }

  /** In an ordinary run an event is let through exactly when fewer than `limit` acceptances of its socket, of
      all there ever were, lie in the window that ends now. */
  lemma AcceptsExactlyBelowLimit(cfg: Settings, calls: seq<Call>, c: Call)
    requires Ordinary(calls) && (calls != [] ==> Clock(calls) <= c.now)
    ensures Serve(cfg, Run(cfg, calls), c).1 <==> |Recent(History(cfg, calls, c.socket), c.now, cfg.window)| < cfg.limit
  {
    PrunedListIsFaithful(cfg, calls, c.socket, c.now);
    assert Stored(Touched(Run(cfg, calls), c.socket), c.socket) == Stored(Run(cfg, calls), c.socket);
    assert Recent(Stored(Run(cfg, calls), c.socket), c.now, cfg.window)
           == Recent(History(cfg, calls, c.socket), c.now, cfg.window);
  }

  // ---- The limit ----

  ghost predicate Ascending(times: seq<int>) {
    forall i, j | 0 <= i < j < |times| :: times[i] <= times[j]
  }

  /** Acceptances that are `limit` places apart are at least a window apart. */
  ghost predicate Spaced(times: seq<int>, cfg: Settings) {
    forall i, j | 0 <= i && i + cfg.limit <= j < |times| :: times[j] - times[i] >= cfg.window
  }

  lemma {:induction false} RecentSuffix(times: seq<int>, i: nat, now: int, window: int)
    requires Ascending(times) && i < |times| && now - times[i] < window
    ensures |Recent(times, now, window)| >= |times| - i
  {
    var n := |times| - 1;
    assert now - times[n] < window;
    if i < n {
      RecentSuffix(times[..n], i, now, window);
    }
  }

  lemma AcceptKeepsSpacing(times: seq<int>, now: int, cfg: Settings)
    requires Ascending(times) && Spaced(times, cfg) && |Recent(times, now, cfg.window)| < cfg.limit
    requires forall i | 0 <= i < |times| :: times[i] <= now
    ensures Ascending(times + [now]) && Spaced(times + [now], cfg)
  {
    forall i | 0 <= i && i + cfg.limit <= |times| ensures now - times[i] >= cfg.window {
      if now - times[i] < cfg.window {
        RecentSuffix(times, i, now, cfg.window);
      }
    }
  }

  lemma {:induction false} HistorySpaced(cfg: Settings, calls: seq<Call>, socket: nat)
    requires Ordinary(calls)
    ensures var h := History(cfg, calls, socket);
            Ascending(h) && Spaced(h, cfg) && forall i | 0 <= i < |h| :: calls != [] && h[i] <= Clock(calls)
  {
    if calls != [] {
      var init, last := calls[..|calls| - 1], calls[|calls| - 1];
      OrdinaryPrefix(calls);
      HistorySpaced(cfg, init, socket);
      assert init != [] ==> Clock(init) <= last.now;
      if last.socket == socket && Serve(cfg, Run(cfg, init), last).1 {
        AcceptsExactlyBelowLimit(cfg, init, last);
        AcceptKeepsSpacing(History(cfg, init, socket), last.now, cfg);
      }
    }
  }

  /** How many of the times lie in [from, from + window). */
  function CountIn(times: seq<int>, from: int, window: int): nat {
    if times == [] then 0
    else
      var last := times[|times| - 1];
      CountIn(times[..|times| - 1], from, window) + (if from <= last < from + window then 1 else 0)
  }

  lemma {:induction false} CountAtMostTail(times: seq<int>, m: nat, from: int, window: int)
    requires m <= |times| && forall i | 0 <= i < m :: !(from <= times[i] < from + window)
    ensures CountIn(times, from, window) <= |times| - m
  {
    if times != [] {
      var n := |times| - 1;
      CountAtMostTail(times[..n], if m <= n then m else n, from, window);
    }
  }

  lemma {:induction false} SpacedCount(times: seq<int>, from: int, cfg: Settings)
    requires Ascending(times) && Spaced(times, cfg)
    ensures CountIn(times, from, cfg.window) <= cfg.limit
  {
    if times != [] {
      var n := |times| - 1;
      if from <= times[n] < from + cfg.window {
        CountAtMostTail(times, if |times| >= cfg.limit then |times| - cfg.limit else 0, from, cfg.window);
      } else {
        SpacedCount(times[..n], from, cfg);
      }
    }
  }

  /** In every ordinary run, no window of the configured length, wherever it starts, holds more than `limit`
      acceptances of a socket. */
  lemma NoWindowExceedsLimit(cfg: Settings, calls: seq<Call>, socket: nat, from: int)
    requires Ordinary(calls)
    ensures CountIn(History(cfg, calls, socket), from, cfg.window) <= cfg.limit
  {
    HistorySpaced(cfg, calls, socket);
    SpacedCount(History(cfg, calls, socket), from, cfg);
  }

  // ---- More sockets than the map holds ----

  /** One socket's calls, all at time 0. */
  function Repeated(socket: nat, k: nat): seq<Call> {
    seq(k, i requires 0 <= i < k => Call(socket, 0))
  }

  /** One call each of the sockets 1 to m, at time 0. */
  function Newcomers(m: nat): seq<Call> {
    seq(m, i requires 0 <= i < m => Call(i + 1, 0))
  }

  function Zeros(k: nat): seq<int> {
    seq(k, i requires 0 <= i < k => 0)
  }

  /** Socket 0 uses up its limit, and m others call once each. */
  function Crowd(limit: nat, m: nat): seq<Call> {
    Repeated(0, limit) + Newcomers(m)
  }

  lemma CrowdGrows(limit: nat, m: nat)
    ensures m == 0 ==> Crowd(limit, m) == Repeated(0, limit)
    ensures m > 0 ==> Crowd(limit, m) == Crowd(limit, m - 1) + [Call(m, 0)]
  {
  }

  /** After a crowd that fills the map, socket 0 calls again. */
  function Flood(limit: nat): seq<Call> {
    Crowd(limit, CAPACITY) + [Call(0, 0)]
  }

  /** One more call at the end of a run. */
  lemma OneMoreCall(cfg: Settings, calls: seq<Call>, c: Call, socket: nat)
    ensures Run(cfg, calls + [c]) == Serve(cfg, Run(cfg, calls), c).0
    ensures History(cfg, calls + [c], socket)
         == if c.socket == socket && Serve(cfg, Run(cfg, calls), c).1 then History(cfg, calls, socket) + [c.now]
            else History(cfg, calls, socket)
  {
    assert (calls + [c])[..|calls|] == calls;
  }

  lemma {:induction false} ZerosRecent(k: nat, window: int)
    requires window > 0
    ensures Recent(Zeros(k), 0, window) == Zeros(k)
    ensures CountIn(Zeros(k), 0, window) == k
  {
    if k != 0 {
      assert Zeros(k)[..k - 1] == Zeros(k - 1);
      ZerosRecent(k - 1, window);
      assert Zeros(k) == Zeros(k - 1) + [0];
    }
  }

  lemma {:induction false} LimitUsedUp(cfg: Settings, k: nat)
    requires 0 < k <= cfg.limit && cfg.window > 0
    ensures Run(cfg, Repeated(0, k)) == OnlyZero(k)
    ensures History(cfg, Repeated(0, k), 0) == Zeros(k)
  {
    assert Repeated(0, k) == Repeated(0, k - 1) + [Call(0, 0)] && Zeros(k) == Zeros(k - 1) + [0];
    OneMoreCall(cfg, Repeated(0, k - 1), Call(0, 0), 0);
    ServedAgain(cfg, k);
    if k > 1 {
      LimitUsedUp(cfg, k - 1);
    } else {
      assert Repeated(0, 0) == [] && Zeros(0) == [];
    }
  }

  /** The map after k calls of socket 0 alone. */
  function OnlyZero(k: nat): Store {
    if k == 0 then Store([], map[]) else Store([0], map[0 := Zeros(k)])
  }

  lemma ServedAgain(cfg: Settings, k: nat)
    requires 0 < k <= cfg.limit && cfg.window > 0
    ensures Serve(cfg, OnlyZero(k - 1), Call(0, 0)) == (OnlyZero(k), true)
  {
    var st := OnlyZero(k - 1);
    ZerosRecent(k - 1, cfg.window);
    assert Zeros(0) == [] && [] + [0] == [0];
    assert Touched(st, 0) == Store([0], map[0 := Zeros(k - 1)]);
    assert Zeros(k) == Zeros(k - 1) + [0];
    assert map[0 := Zeros(k - 1)][0 := Zeros(k)] == map[0 := Zeros(k)];
  }

  /** The first sockets 0 to m, in order. */
  function FirstSockets(m: nat): seq<nat> {
    seq(m + 1, i requires 0 <= i <= m => i)
  }

  /** Sockets 0 to m have their lists, in that order. */
  ghost predicate HoldsFirst(st: Store, m: nat) {
    st.order == FirstSockets(m) && forall s: nat :: s in st.requests <==> s <= m
  }

  /** Until the map is full every newcomer is let through and nobody is forgotten. */
  lemma {:induction false} MapFillsUp(cfg: Settings, m: nat)
    requires cfg.limit > 0 && cfg.window > 0 && m < CAPACITY
    ensures HoldsFirst(Run(cfg, Crowd(cfg.limit, m)), m)
  {
    CrowdGrows(cfg.limit, m);
    if m == 0 {
      LimitUsedUp(cfg, cfg.limit);
      OnlyZeroHeld(cfg.limit);
    } else {
      MapFillsUp(cfg, m - 1);
      OneMoreCall(cfg, Crowd(cfg.limit, m - 1), Call(m, 0), 0);
      NewcomerStays(cfg, Run(cfg, Crowd(cfg.limit, m - 1)), m);
    }
  }

  lemma OnlyZeroHeld(k: nat)
    requires k > 0
    ensures HoldsFirst(OnlyZero(k), 0)
  {
    assert FirstSockets(0) == [0];
  }

  /** Newcomers add nothing to what socket 0 was let through. */
  lemma {:induction false} NewcomersDoNotCount(cfg: Settings, m: nat)
    requires cfg.limit > 0 && cfg.window > 0
    ensures History(cfg, Crowd(cfg.limit, m), 0) == Zeros(cfg.limit)
  {
    CrowdGrows(cfg.limit, m);
    if m == 0 {
      LimitUsedUp(cfg, cfg.limit);
    } else {
      NewcomersDoNotCount(cfg, m - 1);
      OneMoreCall(cfg, Crowd(cfg.limit, m - 1), Call(m, 0), 0);
    }
  }

  lemma NewcomerStays(cfg: Settings, st: Store, m: nat)
    requires cfg.limit > 0 && 0 < m < CAPACITY && HoldsFirst(st, m - 1)
    ensures var (next, ok) := Serve(cfg, st, Call(m, 0)); ok && HoldsFirst(next, m)
  {
    assert FirstSockets(m - 1) + [m] == FirstSockets(m);
    assert |FirstSockets(m)| == m + 1 <= CAPACITY;
  }

  /** The newcomer that overfills the map pushes socket 0 out. */
  lemma OldestForgotten(cfg: Settings)
    requires cfg.limit > 0 && cfg.window > 0
    ensures 0 !in Run(cfg, Crowd(cfg.limit, CAPACITY)).requests
            && History(cfg, Crowd(cfg.limit, CAPACITY), 0) == Zeros(cfg.limit)
  {
    var st := Run(cfg, Crowd(cfg.limit, CAPACITY - 1));
    CrowdGrows(cfg.limit, CAPACITY);
    MapFillsUp(cfg, CAPACITY - 1);
    NewcomersDoNotCount(cfg, CAPACITY);
    OneMoreCall(cfg, Crowd(cfg.limit, CAPACITY - 1), Call(CAPACITY, 0), 0);
    assert Touched(st, CAPACITY).order == FirstSockets(CAPACITY - 1) + [CAPACITY];
    assert Touched(st, CAPACITY).order[0] == 0;
  }

  /** The flood gets limit + 1 events of socket 0 through at one instant. */
  lemma FloodExceedsLimit(cfg: Settings)
    requires cfg.limit > 0 && cfg.window > 0
    ensures History(cfg, Flood(cfg.limit), 0) == Zeros(cfg.limit + 1)
    ensures CountIn(History(cfg, Flood(cfg.limit), 0), 0, cfg.window) == cfg.limit + 1
  {
    OldestForgotten(cfg);
    OneMoreCall(cfg, Crowd(cfg.limit, CAPACITY), Call(0, 0), 0);
    assert Zeros(cfg.limit) + [0] == Zeros(cfg.limit + 1);
    ZerosRecent(cfg.limit + 1, cfg.window);
  }

  lemma {:induction false} SocketsBelow(bound: nat, sockets: set<nat>)
    requires forall s | s in sockets :: s < bound
    ensures |sockets| <= bound
  {
    if bound != 0 {
      SocketsBelow(bound - 1, sockets - {bound - 1});
      assert sockets <= (sockets - {bound - 1}) + {bound - 1};
      assert |sockets| <= |sockets - {bound - 1}| + 1;
    } else {
      assert sockets == {};
    }
  }

  /** Nothing is let through at a limit of zero, and nothing lies in an empty window. */
  lemma {:induction false} NothingToExceed(cfg: Settings, calls: seq<Call>, socket: nat, from: int)
    requires cfg.limit == 0 || cfg.window <= 0
    ensures CountIn(History(cfg, calls, socket), from, cfg.window) == 0
  {
    if calls != [] {
      NothingToExceed(cfg, calls[..|calls| - 1], socket, from);
      var earlier := History(cfg, calls[..|calls| - 1], socket);
      assert (earlier + [calls[|calls| - 1].now])[..|earlier|] == earlier;
    }
  }

  /** No window of any run with at most n sockets and a forward clock exceeds the limit. */
  ghost predicate LimitHoldsFor(cfg: Settings, n: nat) {
    forall calls, socket, from | ClockForward(calls) && |Sockets(calls)| <= n ::
      CountIn(History(cfg, calls, socket), from, cfg.window) <= cfg.limit
  }

  /** The limiter keeps its promise for n sockets exactly when its map holds n lists: one socket more and some
      run exceeds the limit, for every positive limit and window. */
  lemma LimitHoldsExactlyUpToCapacity(cfg: Settings, n: nat)
    ensures LimitHoldsFor(cfg, n) <==> n <= 1000 || cfg.limit == 0 || cfg.window <= 0
  {
    if cfg.limit == 0 || cfg.window <= 0 {
      forall calls, socket, from ensures CountIn(History(cfg, calls, socket), from, cfg.window) == 0 {
        NothingToExceed(cfg, calls, socket, from);
      }
    } else if n <= CAPACITY {
      forall calls, socket, from | ClockForward(calls) && |Sockets(calls)| <= n
        ensures CountIn(History(cfg, calls, socket), from, cfg.window) <= cfg.limit
      {
        NoWindowExceedsLimit(cfg, calls, socket, from);
      }
    } else {
      var calls := Flood(cfg.limit);
      FloodExceedsLimit(cfg);
      SocketsBelow(CAPACITY + 1, Sockets(calls));
      assert ClockForward(calls) && |Sockets(calls)| <= n;
    }
  }
}
