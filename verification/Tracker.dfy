/**
 The WAL tracker: turns guards dropped in any order into a frontier below which every
 allocation is recorded in the in-memory index, and pins what readers see of it at the latches.
*/
module Tracker {
  /** Allocations by where they begin and end; they do not overlap. */
  predicate Disjoint(chain: map<nat, nat>) {
    && (forall s | s in chain :: s < chain[s])
    && (forall s, t | s in chain && t in chain && s < t :: chain[s] <= t)
  }

  /** Every allocation below `end` is done, and `pending` holds the done ones from `end` on. */
  ghost predicate Caught(chain: map<nat, nat>, done: set<nat>, end: nat, pending: map<nat, nat>) {
    && (forall s | s in chain && s < end :: s in done)
    && (forall s :: s in pending <==> s in done && end <= s)
    && (forall s | s in pending :: s in chain && pending[s] == chain[s])
  }

  predicate Covered(chain: map<nat, nat>, x: nat) {
    exists s | s in chain :: s <= x < chain[s]
  }

  /** Allocations cover everything from `start` to `tail` and nothing else. */
  ghost predicate Gapless(chain: map<nat, nat>, start: nat, tail: nat) {
    && start <= tail && (forall s | s in chain :: start <= s && chain[s] <= tail)
    && forall x: nat | start <= x < tail :: Covered(chain, x)
  }

  /** `end` is where an allocation ends, or where the first begins. */
  predicate Boundary(chain: map<nat, nat>, start: nat, end: nat) {
    end == start || exists s | s in chain :: chain[s] == end
  }

  /** At a boundary the next allocation begins. */
  lemma BoundaryBegins(chain: map<nat, nat>, start: nat, tail: nat, end: nat)
    requires Disjoint(chain) && Gapless(chain, start, tail) && Boundary(chain, start, end) && start <= end < tail
    ensures end in chain
  {
    assert Covered(chain, end);
    var s :| s in chain && s <= end < chain[s];
    if end != start {
      var t :| t in chain && chain[t] == end;
      assert s < t || t < s;
    }
  }

  lemma Extends(chain: map<nat, nat>, start: nat, tail: nat, next: nat)
    requires Disjoint(chain) && Gapless(chain, start, tail) && tail < next
    ensures tail !in chain && Disjoint(chain[tail := next]) && Gapless(chain[tail := next], start, next)
  {
    var longer := chain[tail := next];
    forall x: nat | start <= x < next ensures Covered(longer, x) {
      if x < tail {
        assert Covered(chain, x);
        var s :| s in chain && s <= x < chain[s];
        assert s in longer && longer[s] == chain[s];
      } else {
        assert tail in longer && tail <= x < longer[tail];
      }
    }
  }

  /** The frontier steps over a waiting allocation. */
  lemma StepOver(chain: map<nat, nat>, done: set<nat>, end: nat, pending: map<nat, nat>)
    requires Disjoint(chain) && Caught(chain, done, end, pending) && end in pending
    ensures end < pending[end] && Caught(chain, done, pending[end], pending - {end})
  {
    var further := pending[end];
    forall s ensures s in pending - {end} <==> s in done && further <= s {
    }
  }

  /** A guard dropped at the frontier. */
  lemma AtFrontier(chain: map<nat, nat>, done: set<nat>, s: nat, pending: map<nat, nat>)
    requires Disjoint(chain) && Caught(chain, done, s, pending) && s in chain && s !in done
    ensures Caught(chain, done + {s}, chain[s], pending)
  {
    forall t ensures t in pending <==> t in done + {s} && chain[s] <= t {
      if t in pending {
        assert t in chain && s < t;
      }
    }
  }

  /** A guard dropped further on. */
  lemma BeyondFrontier(chain: map<nat, nat>, done: set<nat>, end: nat, pending: map<nat, nat>, s: nat)
    requires Caught(chain, done, end, pending) && s in chain && s !in done && s != end
    ensures end < s && Caught(chain, done + {s}, end, pending[s := chain[s]])
  {
  }

  /** Follows the chain of waiting allocations. */
  method Advance(pending: map<nat, nat>, next: nat, ghost chain: map<nat, nat>, ghost done: set<nat>)
    returns (rest: map<nat, nat>, end: nat)
    requires Disjoint(chain) && Caught(chain, done, next, pending)
    ensures next <= end && Caught(chain, done, end, rest) && end !in rest
    ensures end == next || exists s | s in done && s in chain :: chain[s] == end
  {
    rest, end := pending, next;
    while end in rest
      invariant next <= end && Caught(chain, done, end, rest)
      invariant end == next || exists s | s in done && s in chain :: chain[s] == end
      decreases rest.Keys
    {
      StepOver(chain, done, end, rest);
      rest, end := rest - {end}, rest[end];
    }
  }

  /** Where a block of `len` bytes goes: never across a fragment boundary. */
  function Placed(position: nat, len: nat, fragSize: nat): (p: nat)
    requires 0 < len <= fragSize
  {
    if position / fragSize == (position + len - 1) / fragSize then position
    else (position / fragSize + 1) * fragSize
  }

  /** The block of `len` bytes at `p` ends before the fragment of `p` does. */
  predicate InFragment(p: nat, len: nat, fragSize: nat)
    requires fragSize > 0
  {
    p % fragSize + len <= fragSize
  }

  lemma Quotient(x: nat, r: nat, q: nat, n: nat)
    requires r < n && x == q * n + r
    ensures x / n == q && x % n == r
  {
    var d := x / n - q;
    assert x == (x / n) * n + x % n;
    assert d * n == r - x % n;
    if d != 0 {
      Apart(d, n);
      assert false;
    }
  }

  lemma Apart(d: int, n: nat)
    requires d != 0
    ensures d * n <= -(n as int) || n <= d * n
  {
  }

  lemma Parts(x: nat, n: nat)
    requires n > 0
    ensures x == (x / n) * n + x % n && x % n < n
  {
  }

  /** Positions up to the next boundary share the fragment. */
  lemma SameFragment(p: nat, q: nat, n: nat)
    requires n > 0 && p <= q < p - p % n + n
    ensures q / n == p / n && q % n == p % n + (q - p)
  {
    Parts(p, n);
    Quotient(q, p % n + (q - p), p / n, n);
  }

  lemma MulNext(q: nat, n: nat)
    ensures (q + 1) * n == q * n + n
  {
  }

  lemma Crosses(p: nat, len: nat, n: nat)
    requires 0 < len <= n && !InFragment(p, len, n)
    ensures (p + len - 1) / n == p / n + 1
  {
    Parts(p, n);
    MulNext(p / n, n);
    Quotient(p + len - 1, p % n + len - 1 - n, p / n + 1, n);
  }

  /** First and last byte share a fragment exactly when the block fits. */
  lemma EndsShare(p: nat, len: nat, n: nat)
    requires 0 < len <= n
    ensures p / n == (p + len - 1) / n <==> InFragment(p, len, n)
  {
    if InFragment(p, len, n) {
      SameFragment(p, p + len - 1, n);
    } else {
      Crosses(p, len, n);
    }
  }

  /** A block that crosses the boundary from `p` crosses it from anywhere before the boundary. */
  lemma NoRoomBefore(p: nat, len: nat, n: nat, c: nat)
    requires 0 < len <= n && p <= c && !InFragment(p, len, n) && InFragment(c, len, n)
    ensures p - p % n + n <= c
  {
    if c < p - p % n + n {
      SameFragment(p, c, n);
      assert false;
    }
  }

  lemma Boundaries(p: nat, n: nat)
    requires n > 0
    ensures (p / n + 1) * n == p - p % n + n && ((p / n + 1) * n) % n == 0
  {
    Parts(p, n);
    MulNext(p / n, n);
    Quotient((p / n + 1) * n, 0, p / n + 1, n);
  }

  /** A block goes to the first position from the tail on at which it fits a fragment. */
  lemma PlacedFits(position: nat, len: nat, fragSize: nat)
    requires 0 < len <= fragSize
    ensures var p := Placed(position, len, fragSize); position <= p && InFragment(p, len, fragSize)
    ensures forall c: nat | position <= c && InFragment(c, len, fragSize) :: Placed(position, len, fragSize) <= c
  {
    EndsShare(position, len, fragSize);
    if !InFragment(position, len, fragSize) {
      Boundaries(position, fragSize);
      forall c: nat | position <= c && InFragment(c, len, fragSize) ensures Placed(position, len, fragSize) <= c {
        NoRoomBefore(position, len, fragSize, c);
      }
    }
  }

  /** All below the frontier is done; nothing begins at it that is. */
  ghost predicate Frontier(chain: map<nat, nat>, done: set<nat>, start: nat, tail: nat, end: nat, pending: map<nat,
                           nat>)
  {
    && Disjoint(chain) && Gapless(chain, start, tail) && done <= chain.Keys
    && Caught(chain, done, end, pending) && end !in pending && start <= end <= tail && Boundary(chain, start, end)
  }

  /** `high` is where a done allocation ends, or where the log was picked up. */
  predicate EndOf(chain: map<nat, nat>, done: set<nat>, start: nat, high: nat) {
    high == start || exists s | s in done && s in chain :: chain[s] == high
  }

  /** No done allocation ends past `high`. */
  predicate Seen(chain: map<nat, nat>, done: set<nat>, high: nat) {
    forall s | s in done && s in chain :: chain[s] <= high
  }

  lemma HighNext(chain: map<nat, nat>, done: set<nat>, start: nat, high: nat, previous: nat)
    requires Seen(chain, done, high) && EndOf(chain, done, start, high) && previous in chain
    ensures var top := if high < chain[previous] then chain[previous] else high;
            Seen(chain, done + {previous}, top) && EndOf(chain, done + {previous}, start, top)
  {
  }

  /** `add_processed`: a dropped guard at `previous`. */
  method Settle(pending: map<nat, nat>, end: nat, previous: nat, next: nat,
                ghost chain: map<nat, nat>, ghost done: set<nat>, ghost start: nat, ghost tail: nat)
    returns (rest: map<nat, nat>, further: nat, advanced: bool)
    requires Frontier(chain, done, start, tail, end, pending)
    requires previous in chain && previous !in done && next == chain[previous]
    ensures Frontier(chain, done + {previous}, start, tail, further, rest)
    ensures advanced <==> previous == end
    ensures if advanced then end < further else further == end
    ensures forall high: nat | end <= high && Seen(chain, done + {previous}, high) :: further <= high
  {
    if end != previous {
      BeyondFrontier(chain, done, end, pending, previous);
      return pending[previous := next], end, false;
    }
    AtFrontier(chain, done, previous, pending);
    rest, further := Advance(pending, next, chain, done + {previous});
    advanced := true;
  }

  /** The lowest of the latches and `bound`. */
  method Lowest(latches: map<nat, nat>, bound: nat) returns (low: nat)
    ensures low <= bound && forall id | id in latches :: low <= latches[id]
    ensures low == bound || exists id | id in latches :: latches[id] == low
  {
    low := bound;
    var todo := latches.Keys;
    while todo != {}
      invariant todo <= latches.Keys && low <= bound
      invariant forall id | id in latches && id !in todo :: low <= latches[id]
      invariant low == bound || exists id | id in latches :: latches[id] == low
      decreases todo
    {
      var id :| id in todo;
      if latches[id] < low {
        low := latches[id];
      }
      todo := todo - {id};
    }
  }

  /** The requests whose position the frontier has reached. */
  method Reached(requests: map<nat, nat>, end: nat) returns (granted: set<nat>)
    ensures forall id :: id in granted <==> id in requests && requests[id] <= end
  {
    granted := {};
    var todo := requests.Keys;
    while todo != {}
      invariant todo <= requests.Keys
      invariant forall id :: id in granted <==> id in requests && id !in todo && requests[id] <= end
      decreases todo
    {
      var id :| id in todo;
      if requests[id] <= end {
        granted := granted + {id};
      }
      todo := todo - {id};
    }
  }

  class WalTracker {
    /** The allocator's position: where the next allocation begins. */
    var tail: nat
    var pending: map<nat, nat>
    var lastProcessed: nat
    var highestSeen: nat
    var latches: map<nat, nat>
    var external: nat

    /** Latches whose callers still wait for the frontier to arrive. */
    var requests: map<nat, nat>

    /** Every allocation made, and those whose guards are all dropped. */
    ghost const start: nat
    ghost var chain: map<nat, nat>
    ghost var done: set<nat>

    ghost predicate FrontierOk()
      reads `chain, `done, `tail, `lastProcessed, `pending, `highestSeen
    {
      && Frontier(chain, done, start, tail, lastProcessed, pending)
      && lastProcessed <= highestSeen <= tail
      && Seen(chain, done, highestSeen) && EndOf(chain, done, start, highestSeen)
    }

    /** What readers see never passes a latch, and lags the true frontier only for one. */
    ghost predicate ViewOk()
      reads `external, `lastProcessed, `latches, `highestSeen
    {
      && external <= lastProcessed
      && (forall id | id in latches :: external <= latches[id] <= highestSeen)
      && (external == lastProcessed || exists id | id in latches :: latches[id] == external)
    }

    /** Requests wait at their own latch for a frontier that has not arrived. */
    ghost predicate RequestsOk()
      reads `requests, `latches, `lastProcessed
    {
      forall id | id in requests :: id in latches && latches[id] == requests[id] && lastProcessed < requests[id]
    }

    ghost predicate Valid()
      reads this
    {
      FrontierOk() && ViewOk() && RequestsOk()
    }

    constructor (from: nat)
      ensures Valid() && tail == lastProcessed == from == external && latches == map[] && chain == map[]
    {
      tail, pending, lastProcessed, highestSeen, latches, external := from, map[], from, from, map[], from;
      requests := map[];
      start, chain, done := from, map[], {};
    }

    /** Allocates a block at the tail: it crosses no fragment boundary and its guard is held from here on. */
    method Allocate(len: nat, fragSize: nat) returns (previous: nat, at: nat, next: nat)
      requires Valid() && 0 < len <= fragSize
      modifies this`tail, this`chain
      ensures Valid() && previous == old(tail) <= at && next == at + len == tail
      ensures InFragment(at, len, fragSize)
      ensures forall c: nat | previous <= c && InFragment(c, len, fragSize) :: at <= c
      ensures previous !in old(chain) && chain == old(chain)[previous := next]
    {
      PlacedFits(tail, len, fragSize);
      previous, at := tail, Placed(tail, len, fragSize);
      next := at + len;
      Extends(chain, start, tail, next);
      tail, chain := next, chain[previous := next];
    }

    /** Records a dropped guard and moves the frontier over every allocation now contiguous with it. */
    method AddProcessed(previous: nat, next: nat) returns (advanced: bool)
      requires FrontierOk() && previous in chain && previous !in done && next == chain[previous]
      modifies this`pending, this`lastProcessed, this`highestSeen, this`done
      ensures FrontierOk() && done == old(done) + {previous} && old(highestSeen) <= highestSeen
      ensures advanced <==> previous == old(lastProcessed)
      ensures if advanced then old(lastProcessed) < lastProcessed else lastProcessed == old(lastProcessed)
    {
      HighNext(chain, done, start, highestSeen, previous);
      if highestSeen < next {
        highestSeen := next;
      }
      pending, lastProcessed, advanced := Settle(pending, lastProcessed, previous, next, chain, done, start, tail);
      done := done + {previous};
    }

    /** `publish`: the frontier capped by the lowest latch. */
    method Publish()
      requires FrontierOk() && external <= lastProcessed
      requires forall id | id in latches :: external <= latches[id] <= highestSeen
      modifies this`external
      ensures ViewOk() && old(external) <= external
    {
      external := Lowest(latches, lastProcessed);
    }

    /** Answers the deferred latch requests the frontier has reached, and keeps the others. */
    method FulfillPendingRequests() returns (granted: set<nat>)
      requires FrontierOk()
      modifies this`requests
      ensures granted <= old(requests).Keys && requests == old(requests) - granted
      ensures forall id | id in requests :: lastProcessed < requests[id]
      ensures forall id | id in granted :: Behind(old(requests)[id])
    {
      granted := Reached(requests, lastProcessed);
      requests := requests - granted;
    }

    /** Everything allocated below `position` is done. */
    ghost predicate Behind(position: nat)
      reads `chain, `done
    {
      forall s | s in chain && s < position :: s in done
    }

    /** The frontier has advanced: readers see it, and the requests it has reached are answered. */
    method Announce() returns (granted: set<nat>)
      requires FrontierOk() && external <= lastProcessed
      requires forall id | id in latches :: external <= latches[id] <= highestSeen
      requires forall id | id in requests :: id in latches && latches[id] == requests[id]
      modifies this`external, this`requests
      ensures ViewOk() && RequestsOk() && old(external) <= external
      ensures granted <= old(requests).Keys && requests == old(requests) - granted
      ensures forall id | id in granted :: id in latches && Behind(latches[id])
    {
      Publish();
      granted := FulfillPendingRequests();
    }

    /** Every guard of an allocation has been dropped. */
    method Process(previous: nat, next: nat) returns (granted: set<nat>)
      requires Valid() && previous in chain && previous !in done && next == chain[previous]
      modifies this
      ensures Valid() && chain == old(chain) && tail == old(tail) && done == old(done) + {previous}
      ensures latches == old(latches) && old(external) <= external
      ensures granted <= old(requests).Keys && requests == old(requests) - granted
      ensures forall id | id in granted :: id in latches && Behind(latches[id])
    {
      var advanced := AddProcessed(previous, next);
      granted := {};
      if advanced {
        granted := Announce();
      }
    }

    /** Takes a latch at the highest position seen; the caller is answered now or once the frontier reaches it. */
    method Latch(id: nat) returns (position: nat, granted: bool)
      requires Valid() && id !in latches
      modifies this
      ensures Valid() && chain == old(chain) && tail == old(tail) && done == old(done)
      ensures latches == old(latches)[id := position] && external <= position && old(external) <= external
      ensures forall j | j in old(latches) :: old(latches)[j] <= position
      ensures Seen(chain, done, position) && EndOf(chain, done, start, position)
      ensures granted ==> Behind(position) && requests == old(requests)
      ensures !granted ==> requests == old(requests)[id := position]
    {
      position := highestSeen;
      latches := latches[id := position];
      granted := lastProcessed >= position;
      if !granted {
        requests := requests[id := position];
      }
      Publish();
    }

    /** A granted latch is handed back. */
    method Release(id: nat)
      requires Valid() && id in latches && id !in requests
      modifies this
      ensures Valid() && chain == old(chain) && tail == old(tail) && done == old(done) && requests == old(requests)
      ensures latches == old(latches) - {id} && old(external) <= external
    {
      latches := latches - {id};
      Publish();
    }
  }

  /**
   The contract readers rely on, exactly: the visible frontier is the lowest latch, or the first
   allocation still holding a guard, or, with neither, the end of the log.
  */
  lemma FrontierIsExact(t: WalTracker)
    requires t.Valid()
    ensures forall s | s in t.chain && s !in t.done :: t.external <= s
    ensures forall id | id in t.latches :: t.external <= t.latches[id]
    ensures || (exists id | id in t.latches :: t.latches[id] == t.external)
            || (t.external in t.chain && t.external !in t.done)
            || (t.external == t.tail && t.done == t.chain.Keys)
  {
    if t.external == t.lastProcessed {
      if t.external < t.tail {
        BoundaryBegins(t.chain, t.start, t.tail, t.external);
      } else {
        assert forall s | s in t.chain :: s in t.done;
      }
    }
  }
}
