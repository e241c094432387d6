/**
 Fixed-window rate limiter of internal/server/ratelimit.go.

 The limiter deletes expired entries whenever a window opens.  It is related here to a limiter that
 never deletes anything, to the rank of a call inside its window, and to a bound on the number of
 calls let through in any interval of time.
 */
module RateLimit {

  datatype Entry = Entry(count: int, reset: int)

  type Counters = map<string, Entry>

  /** One call of Allow: the key and the clock reading taken under the lock. */
  datatype Call = Call(key: string, now: int)

  predicate Expired(e: Entry, now: int) {
    now > e.reset
  }

  /** A call for key opens a new window. */
  predicate Opens(c: Counters, key: string, now: int) {
    key !in c || Expired(c[key], now)
  }

  function Sweep(c: Counters, now: int): Counters {
    map k | k in c && !Expired(c[k], now) :: c[k]
  }

  function Answer(c: Counters, limit: int, call: Call): bool {
    limit != 0 && (Opens(c, call.key, call.now) || c[call.key].count + 1 <= limit)
  }

  function Bump(c: Counters, call: Call): Counters
    requires call.key in c
  {
    c[call.key := Entry(c[call.key].count + 1, c[call.key].reset)]
  }

  function Next(c: Counters, limit: int, window: int, call: Call): Counters {
    if limit == 0 then c
    else if Opens(c, call.key, call.now) then
      Sweep(c, call.now)[call.key := Entry(1, call.now + window)]
    else Bump(c, call)
  }

  class RateLimiter {
    var counters: Counters
    const limit: int
    const window: int

    constructor (limit: int, window: int)
      ensures this.limit == limit && this.window == window && counters == map[]
    {
      this.limit, this.window, counters := limit, window, map[];
    }

    method Allow(key: string, now: int) returns (ok: bool)
      modifies this
      ensures ok == Answer(old(counters), limit, Call(key, now))
      ensures counters == Next(old(counters), limit, window, Call(key, now))
      ensures limit != 0 && Opens(old(counters), key, now) ==>
                forall k :: k in counters && k != key ==> !Expired(counters[k], now)
    {
      if limit == 0 {
        return false;
      }
      if key !in counters || now > counters[key].reset {
        var pending := counters.Keys;
        while pending != {}
          invariant pending <= counters.Keys <= old(counters).Keys
          invariant counters ==
                    map k | k in old(counters) && (k in pending || !Expired(old(counters)[k], now))
                      :: old(counters)[k]
        {
          var k :| k in pending;
          if now > counters[k].reset {
            counters := counters - {k};
          }
          pending := pending - {k};
        }
        counters := counters[key := Entry(1, now + window)];
        return true;
      }
      var entry := counters[key];
      counters := counters[key := Entry(entry.count + 1, entry.reset)];
      return counters[key].count <= limit;
    }
  }

  // ----- Runs

  predicate Chronological(calls: seq<Call>) {
    forall i, j :: 0 <= i < j < |calls| ==> calls[i].now <= calls[j].now
  }

  /** The counters after a run of calls that starts with an empty limiter. */
  function After(calls: seq<Call>, limit: int, window: int): Counters {
    if calls == [] then map[]
    else Next(After(calls[..|calls| - 1], limit, window), limit, window, calls[|calls| - 1])
  }

  predicate Allowed(calls: seq<Call>, limit: int, window: int, i: nat)
    requires i < |calls|
  {
    Answer(After(calls[..i], limit, window), limit, calls[i])
  }

  // ----- The limiter that never deletes

  function KeepNext(c: Counters, limit: int, window: int, call: Call): Counters {
    if limit == 0 then c
    else if Opens(c, call.key, call.now) then c[call.key := Entry(1, call.now + window)]
    else Bump(c, call)
  }

  function KeepAfter(calls: seq<Call>, limit: int, window: int): Counters {
    if calls == [] then map[]
    else KeepNext(KeepAfter(calls[..|calls| - 1], limit, window), limit, window, calls[|calls| - 1])
  }

  /** Same entries, except that what the first lacks has expired in the second. */
  ghost predicate Simulates(c: Counters, r: Counters, now: int) {
    && (forall k :: k in c ==> k in r && c[k] == r[k])
    && (forall k :: k in r && k !in c ==> Expired(r[k], now))
  }

  lemma {:induction false} SweepIsInvisible(calls: seq<Call>, limit: int, window: int, now: int)
    requires Chronological(calls)
    requires calls == [] || calls[|calls| - 1].now <= now
    ensures Simulates(After(calls, limit, window), KeepAfter(calls, limit, window), now)
  {
    if calls == [] {
    } else {
      var last := calls[|calls| - 1];
      SweepIsInvisible(calls[..|calls| - 1], limit, window, last.now);
    }
  }

  /** Over any run with a non-decreasing clock, sweeping never changes an answer. */
  lemma {:induction false} LimiterRefinesKeeper(calls: seq<Call>, limit: int, window: int, i: nat)
    requires Chronological(calls) && i < |calls|
    ensures Allowed(calls, limit, window, i)
         == Answer(KeepAfter(calls[..i], limit, window), limit, calls[i])
  {
    SweepIsInvisible(calls[..i], limit, window, calls[i].now);
  }

  // ----- Locality

  function Project(calls: seq<Call>, key: string): seq<Call> {
    if calls == [] then []
    else
      var rest := Project(calls[..|calls| - 1], key);
      var last := calls[|calls| - 1];
      if last.key == key then rest + [last] else rest
  }

  lemma {:induction false} ProjectKeeps(calls: seq<Call>, key: string)
    ensures forall c :: c in Project(calls, key) ==> c in calls && c.key == key
    ensures Chronological(calls) ==> Chronological(Project(calls, key))
  {
    if calls != [] {
      ProjectKeeps(calls[..|calls| - 1], key);
    }
  }

  lemma {:induction false} KeeperIsLocal(calls: seq<Call>, limit: int, window: int, key: string)
    ensures var r, p := KeepAfter(calls, limit, window), KeepAfter(Project(calls, key), limit, window);
            (key in r <==> key in p) && (key in r ==> r[key] == p[key])
  {
    if calls == [] {
    } else {
      var last := calls[|calls| - 1];
      var rest := Project(calls[..|calls| - 1], key);
      KeeperIsLocal(calls[..|calls| - 1], limit, window, key);
      if last.key == key {
        assert (rest + [last])[..|rest|] == rest;
      }
    }
  }

  /** The answer to a call is a function of the calls made so far with the same key. */
  lemma {:induction false} AnswersAreLocal(calls: seq<Call>, limit: int, window: int, i: nat)
    requires Chronological(calls) && i < |calls|
    ensures var own := Project(calls[..i], calls[i].key) + [calls[i]];
            Allowed(calls, limit, window, i) == Allowed(own, limit, window, |own| - 1)
  {
    var key := calls[i].key;
    var past := Project(calls[..i], key);
    var own := past + [calls[i]];
    LimiterRefinesKeeper(calls, limit, window, i);
    KeeperIsLocal(calls[..i], limit, window, key);
    ProjectKeeps(calls[..i], key);
    assert own[..|own| - 1] == past;
    LimiterRefinesKeeper(own, limit, window, |own| - 1);
  }

  // ----- Rank inside a window

  /** The last call before i with the same key, or i itself when there is none. */
  function Previous(calls: seq<Call>, i: nat, from: nat): (j: nat)
    requires from <= i < |calls|
    ensures j <= i
    ensures j < i ==> j < from && calls[j].key == calls[i].key
    ensures forall m :: (if j < i then j + 1 else 0) <= m < from ==> calls[m].key != calls[i].key
    decreases from
  {
    if from == 0 then i
    else if calls[from - 1].key == calls[i].key then from - 1
    else Previous(calls, i, from - 1)
  }

  /** The call that opened the window call i belongs to. */
  function Opener(calls: seq<Call>, window: int, i: nat): (w: nat)
    requires i < |calls|
    ensures w <= i && calls[w].key == calls[i].key
  {
    var j := Previous(calls, i, i);
    if j == i then i
    else
      var w := Opener(calls, window, j);
      if calls[i].now > calls[w].now + window then i else w
  }

  function CountKey(calls: seq<Call>, key: string, lo: nat, hi: nat): nat
    requires lo <= hi <= |calls|
    decreases hi
  {
    if lo == hi then 0
    else CountKey(calls, key, lo, hi - 1) + if calls[hi - 1].key == key then 1 else 0
  }

  /** Position of call i among the calls with its key since its window opened, counting from 1. */
  function Rank(calls: seq<Call>, window: int, i: nat): nat
    requires i < |calls|
  {
    CountKey(calls, calls[i].key, Opener(calls, window, i), i + 1)
  }

  lemma {:induction false} CountKeySkips(calls: seq<Call>, key: string, lo: nat, mid: nat, hi: nat)
    requires lo <= mid <= hi <= |calls|
    requires forall m :: mid <= m < hi ==> calls[m].key != key
    ensures CountKey(calls, key, lo, hi) == CountKey(calls, key, lo, mid)
  {
    if mid < hi {
      CountKeySkips(calls, key, lo, mid, hi - 1);
    }
  }

  lemma {:induction false} KeeperIgnores(calls: seq<Call>, limit: int, window: int, key: string, lo: nat, hi: nat)
    requires lo <= hi <= |calls|
    requires forall m :: lo <= m < hi ==> calls[m].key != key
    ensures var r, p := KeepAfter(calls[..hi], limit, window), KeepAfter(calls[..lo], limit, window);
            (key in r <==> key in p) && (key in r ==> r[key] == p[key])
  {
    if lo < hi {
      KeeperIgnores(calls, limit, window, key, lo, hi - 1);
      assert calls[..hi][..hi - 1] == calls[..hi - 1];
    }
  }

  /** What the keeper has for the key of call i, once call i has been answered. */
  ghost predicate HasRank(calls: seq<Call>, limit: int, window: int, i: nat)
    requires i < |calls|
  {
    var r := KeepAfter(calls[..i + 1], limit, window);
    && calls[i].key in r
    && r[calls[i].key] == Entry(Rank(calls, window, i), calls[Opener(calls, window, i)].now + window)
  }

  lemma KeepStep(calls: seq<Call>, limit: int, window: int, i: nat)
    requires i < |calls|
    ensures KeepAfter(calls[..i + 1], limit, window)
         == KeepNext(KeepAfter(calls[..i], limit, window), limit, window, calls[i])
  {
    assert calls[..i + 1][..i] == calls[..i];
  }

  lemma FirstHasRank(calls: seq<Call>, limit: int, window: int, i: nat)
    requires limit != 0 && i < |calls| && Previous(calls, i, i) == i
    ensures HasRank(calls, limit, window, i)
  {
    KeeperIgnores(calls, limit, window, calls[i].key, 0, i);
    assert calls[..0] == [];
    KeepStep(calls, limit, window, i);
    assert CountKey(calls, calls[i].key, i, i) == 0;
  }

  /** The entry of the previous call with the same key is still there. */
  lemma PreviousEntry(calls: seq<Call>, limit: int, window: int, i: nat, j: nat)
    requires i < |calls| && j == Previous(calls, i, i) < i && HasRank(calls, limit, window, j)
    ensures var r := KeepAfter(calls[..i], limit, window);
            && calls[i].key in r
            && r[calls[i].key] == Entry(Rank(calls, window, j), calls[Opener(calls, window, j)].now + window)
  {
    KeeperIgnores(calls, limit, window, calls[i].key, j + 1, i);
  }

  lemma RankGrows(calls: seq<Call>, window: int, i: nat, j: nat)
    requires i < |calls| && j == Previous(calls, i, i) < i
    ensures Rank(calls, window, i) == if Opener(calls, window, i) == i then 1 else Rank(calls, window, j) + 1
  {
    var key := calls[i].key;
    var w := Opener(calls, window, j);
    CountKeySkips(calls, key, w, j + 1, i);
    assert CountKey(calls, key, i, i) == 0;
  }

  lemma LaterHasRank(calls: seq<Call>, limit: int, window: int, i: nat, j: nat)
    requires limit != 0 && i < |calls| && j == Previous(calls, i, i) < i && HasRank(calls, limit, window, j)
    ensures HasRank(calls, limit, window, i)
  {
    PreviousEntry(calls, limit, window, i, j);
    RankGrows(calls, window, i, j);
    KeepStep(calls, limit, window, i);
  }

  lemma {:induction false} EntryIsRank(calls: seq<Call>, limit: int, window: int, i: nat)
    requires limit != 0 && i < |calls|
    ensures HasRank(calls, limit, window, i)
    decreases i
  {
    var j := Previous(calls, i, i);
    if j == i {
      FirstHasRank(calls, limit, window, i);
    } else {
      EntryIsRank(calls, limit, window, j);
      LaterHasRank(calls, limit, window, i, j);
    }
  }

  /**
   A call is let through exactly when its rank is at most the limit.  A limit of 0 lets nothing through; a
   negative one still lets the call through that opens a window.
   */
  lemma {:induction false} AllowedIffRank(calls: seq<Call>, limit: int, window: int, i: nat)
    requires Chronological(calls) && i < |calls|
    ensures Allowed(calls, limit, window, i) <==>
            Rank(calls, window, i) <= limit || (limit < 0 && Opener(calls, window, i) == i)
  {
    LimiterRefinesKeeper(calls, limit, window, i);
    RankIsPositive(calls, window, i);
    if limit != 0 {
      EntryIsRank(calls, limit, window, i);
      KeepStep(calls, limit, window, i);
      OpensIffOpener(calls, limit, window, i);
    }
  }

  lemma RankIsPositive(calls: seq<Call>, window: int, i: nat)
    requires i < |calls|
    ensures Rank(calls, window, i) >= 1
  {
  }

  /** The keeper opens a window at call i exactly when call i is its own opener. */
  lemma OpensIffOpener(calls: seq<Call>, limit: int, window: int, i: nat)
    requires limit != 0 && i < |calls|
    ensures Opens(KeepAfter(calls[..i], limit, window), calls[i].key, calls[i].now) <==> Opener(calls, window, i) == i
  {
    var j := Previous(calls, i, i);
    if j == i {
      KeeperIgnores(calls, limit, window, calls[i].key, 0, i);
      assert calls[..0] == [];
    } else {
      EntryIsRank(calls, limit, window, j);
      PreviousEntry(calls, limit, window, i, j);
    }
  }

  // ----- Sliding bound

  /** Calls for key let through at a time in [a, b]. */
  function AllowedIn(calls: seq<Call>, limit: int, window: int, key: string, a: int, b: int): nat {
    if calls == [] then 0
    else
      var last := |calls| - 1;
      AllowedIn(calls[..last], limit, window, key, a, b)
      + if calls[last].key == key && a <= calls[last].now <= b && Allowed(calls, limit, window, last)
        then 1 else 0
  }

  function Min(x: int, y: int): int {
    if x <= y then x else y
  }

  /**
   What is known of the windows of key that meet [a, b] when no call is later than b: w of them, the
   current one e included, and whether the first of them opened inside [a, b].
   */
  ghost predicate Tally(n: nat, w: nat, inside: bool, e: Entry, limit: int, window: int, a: int)
    requires w >= 1
  {
    && e.count >= 1 && e.reset >= a
    && n <= limit * (w - 1) + Min(e.count, limit) - (if inside then 0 else 1)
    && (inside ==> e.reset - window >= a + (w - 1) * (window + 1))
    && (!inside && w >= 2 ==> e.reset - window >= a + 1 + (w - 2) * (window + 1))
  }

  lemma {:induction false} TallyOpens(n: nat, w: nat, inside: bool, e: Entry, limit: int, window: int, a: int, now: int)
    requires limit >= 1 && window >= 0 && w >= 1 && Tally(n, w, inside, e, limit, window, a)
    requires Expired(e, now)
    ensures Tally(n + 1, w + 1, inside, Entry(1, now + window), limit, window, a)
  {
    assert limit * (w - 1) + limit == limit * w;
    assert (w - 1) * (window + 1) + (window + 1) == w * (window + 1);
    if w >= 2 {
      assert (w - 2) * (window + 1) + (window + 1) == (w - 1) * (window + 1);
    }
  }

  lemma {:induction false} Windows(calls: seq<Call>, limit: int, window: int, key: string, a: int, b: int)
      returns (w: nat, inside: bool)
    requires limit >= 1 && window >= 0 && Chronological(calls)
    requires forall i :: 0 <= i < |calls| ==> calls[i].now <= b
    ensures var n, r := AllowedIn(calls, limit, window, key, a, b), KeepAfter(calls, limit, window);
            && (calls == [] || calls[|calls| - 1].now < a ==> w == 0)
            && (key in r ==> r[key].count >= 1 && calls != [] && r[key].reset - window <= calls[|calls| - 1].now)
            && (w == 0 ==> n == 0)
            && (w >= 1 ==> key in r && Tally(n, w, inside, r[key], limit, window, a))
  {
    if calls == [] {
      return 0, true;
    }
    var last := |calls| - 1;
    var past, call := calls[..last], calls[last];
    var r := KeepAfter(past, limit, window);
    w, inside := Windows(past, limit, window, key, a, b);
    LimiterRefinesKeeper(calls, limit, window, last);
    if call.key == key && call.now >= a {
      var n := AllowedIn(past, limit, window, key, a, b);
      if w == 0 {
        w, inside := 1, Opens(r, key, call.now);
      } else if Opens(r, key, call.now) {
        TallyOpens(n, w, inside, r[key], limit, window, a, call.now);
        w := w + 1;
      }
    }
  }

  /**
   The most calls an interval [a, a + length] can let through.  Windows open at least window + 1 apart, so
   length / (window + 1) + 1 of them can open in it; unless length is a multiple, there is room before them
   for the calls of an older window, all but the one that opened it.
   */
  function Most(limit: int, window: int, length: int): int
    requires window >= 0
  {
    var m := window + 1;
    if length % m == 0 then limit * (length / m + 1) else limit * (length / m + 2) - 1
  }

  lemma MostIs(limit: int, window: int, length: int)
    requires window >= 0
    ensures var n := length / (window + 1);
            Most(limit, window, length) == limit * (n + 1) + if length % (window + 1) == 0 then 0 else limit - 1
  {
    var n := length / (window + 1);
    assert limit * (n + 2) == limit * (n + 1) + limit;
  }

  lemma Scale(k: int, x: int, y: int)
    requires k >= 0 && x <= y
    ensures k * x <= k * y
  {
  }

  lemma AtMostQuotient(x: int, m: int, length: int)
    requires m >= 1 && x * m <= length
    ensures x <= length / m
  {
    if x >= length / m + 1 {
      Scale(m, length / m + 1, x);
    }
  }

  lemma BelowMultiple(x: int, m: int, length: int)
    requires m >= 1 && x * m < length && length % m == 0
    ensures x < length / m
  {
    if x >= length / m {
      Scale(m, length / m, x);
    }
  }

  /** How many windows can meet the interval. */
  lemma FewWindows(w: nat, inside: bool, e: Entry, window: int, a: int, length: int)
    requires window >= 0 && length >= 0 && w >= 1
    requires inside ==> e.reset - window >= a + (w - 1) * (window + 1)
    requires !inside && w >= 2 ==> e.reset - window >= a + 1 + (w - 2) * (window + 1)
    requires e.reset - window <= a + length
    ensures w <= length / (window + 1) + if inside || length % (window + 1) == 0 then 1 else 2
  {
    var m := window + 1;
    if inside {
      AtMostQuotient(w - 1, m, length);
    } else if w >= 2 && length % m == 0 {
      BelowMultiple(w - 2, m, length);
    } else if w >= 2 {
      AtMostQuotient(w - 2, m, length);
    }
  }

  lemma TallyBound(n: nat, w: nat, inside: bool, e: Entry, limit: int, window: int, a: int, length: int)
    requires limit >= 1 && window >= 0 && length >= 0 && w >= 1
    requires Tally(n, w, inside, e, limit, window, a)
    requires e.reset - window <= a + length
    ensures n <= Most(limit, window, length)
  {
    var q := length / (window + 1);
    FewWindows(w, inside, e, window, a, length);
    assert n <= limit * w - (if inside then 0 else 1) by {
      assert limit * (w - 1) + limit == limit * w;
    }
    Scale(limit, w, if inside || length % (window + 1) == 0 then q + 1 else q + 2);
    assert limit * (q + 2) == limit * (q + 1) + limit;
  }

  lemma {:induction false} LateCallsDoNotCount(calls: seq<Call>, limit: int, window: int, key: string, a: int, b: int)
      returns (early: seq<Call>)
    requires Chronological(calls)
    ensures early <= calls && forall i :: 0 <= i < |early| ==> early[i].now <= b
    ensures AllowedIn(early, limit, window, key, a, b) == AllowedIn(calls, limit, window, key, a, b)
  {
    if calls == [] || calls[|calls| - 1].now <= b {
      early := calls;
    } else {
      early := LateCallsDoNotCount(calls[..|calls| - 1], limit, window, key, a, b);
    }
  }

  /** No closed interval lets through more than Most calls for a key, in any run with a non-decreasing clock. */
  lemma {:induction false} SlidingBound(calls: seq<Call>, limit: int, window: int, key: string, a: int, length: int)
    requires limit >= 1 && window >= 0 && length >= 0 && Chronological(calls)
    ensures AllowedIn(calls, limit, window, key, a, a + length) <= Most(limit, window, length)
  {
    var b := a + length;
    var early := LateCallsDoNotCount(calls, limit, window, key, a, b);
    var w, inside := Windows(early, limit, window, key, a, b);
    if w == 0 {
      Scale(limit, 1, length / (window + 1) + 1);
      Scale(limit, 1, length / (window + 1) + 2);
    } else {
      TallyBound(AllowedIn(early, limit, window, key, a, b), w, inside,
                 KeepAfter(early, limit, window)[key], limit, window, a, length);
    }
  }

  /** So at most 2 * limit - 1 in an interval as long as a window. */
  lemma {:induction false} BoundForOneWindow(calls: seq<Call>, limit: int, window: int, key: string, a: int)
    requires limit >= 1 && window >= 1 && Chronological(calls)
    ensures AllowedIn(calls, limit, window, key, a, a + window) <= 2 * limit - 1
  {
    SlidingBound(calls, limit, window, key, a, window);
    assert window / (window + 1) == 0 && window % (window + 1) == window;
    MostIs(limit, window, window);
  }

  // ----- The bound is attained for every length

  function Repeat(call: Call, n: nat): seq<Call> {
    if n == 0 then [] else Repeat(call, n - 1) + [call]
  }

  /** One more call at an instant of [a, b] that the limiter lets through. */
  lemma OneMore(past: seq<Call>, call: Call, limit: int, window: int, a: int, b: int)
    requires a <= call.now <= b && Answer(After(past, limit, window), limit, call)
    ensures AllowedIn(past + [call], limit, window, call.key, a, b)
         == AllowedIn(past, limit, window, call.key, a, b) + 1
    ensures After(past + [call], limit, window) == Next(After(past, limit, window), limit, window, call)
  {
    assert (past + [call])[..|past|] == past;
  }

  /** Calls at one instant that fit in the open window are all let through. */
  lemma {:induction false} RepeatFits(past: seq<Call>, call: Call, n: nat, limit: int, window: int, a: int, b: int)
    requires limit >= 1 && a <= call.now <= b
    requires var c := After(past, limit, window);
             !Opens(c, call.key, call.now) && c[call.key].count + n <= limit
    ensures var c, d := After(past, limit, window), After(past + Repeat(call, n), limit, window);
            call.key in d && d[call.key] == Entry(c[call.key].count + n, c[call.key].reset)
    ensures AllowedIn(past + Repeat(call, n), limit, window, call.key, a, b)
         == AllowedIn(past, limit, window, call.key, a, b) + n
  {
    if n == 0 {
      assert past + Repeat(call, 0) == past;
    } else {
      RepeatFits(past, call, n - 1, limit, window, a, b);
      OneMore(past + Repeat(call, n - 1), call, limit, window, a, b);
      assert past + Repeat(call, n - 1) + [call] == past + Repeat(call, n);
    }
  }

  lemma {:induction false} RepeatAll(call: Call, n: nat)
    ensures |Repeat(call, n)| == n && forall i :: 0 <= i < n ==> Repeat(call, n)[i] == call
  {
    if n > 0 {
      RepeatAll(call, n - 1);
    }
  }

  /** A call at an instant of [a, b] that opens a window is let through and leaves the window with one call. */
  lemma {:induction false} OpeningCall(past: seq<Call>, call: Call, limit: int, window: int, a: int, b: int)
    requires limit >= 1 && window >= 0 && a <= call.now <= b
    requires Opens(After(past, limit, window), call.key, call.now)
    ensures var c := After(past + [call], limit, window);
            call.key in c && c[call.key] == Entry(1, call.now + window)
    ensures AllowedIn(past + [call], limit, window, call.key, a, b)
         == AllowedIn(past, limit, window, call.key, a, b) + 1
  {
    OneMore(past, call, limit, window, a, b);
  }

  /** The rest of a window that one call has opened. */
  lemma {:induction false} FillUp(begun: seq<Call>, call: Call, limit: int, window: int, a: int, b: int)
    requires limit >= 1 && window >= 0 && a <= call.now <= b
    requires var c := After(begun, limit, window);
             call.key in c && c[call.key] == Entry(1, call.now + window)
    ensures AllowedIn(begun + Repeat(call, limit - 1), limit, window, call.key, a, b)
         == AllowedIn(begun, limit, window, call.key, a, b) + limit - 1
    ensures Opens(After(begun + Repeat(call, limit - 1), limit, window), call.key, call.now + window + 1)
  {
    RepeatFits(begun, call, limit - 1, limit, window, a, b);
  }

  /** A window that opens at an instant of [a, b] and is filled there gives limit calls. */
  lemma {:induction false} FilledWindow(past: seq<Call>, call: Call, limit: int, window: int, a: int, b: int)
    requires limit >= 1 && window >= 0 && a <= call.now <= b
    requires Opens(After(past, limit, window), call.key, call.now)
    ensures AllowedIn(past + [call] + Repeat(call, limit - 1), limit, window, call.key, a, b)
         == AllowedIn(past, limit, window, call.key, a, b) + limit
    ensures Opens(After(past + [call] + Repeat(call, limit - 1), limit, window), call.key, call.now + window + 1)
  {
    OpeningCall(past, call, limit, window, a, b);
    FillUp(past + [call], call, limit, window, a, b);
  }

  /** Calls in order, none after time t. */
  ghost predicate Until(calls: seq<Call>, t: int) {
    Chronological(calls) && forall i :: 0 <= i < |calls| ==> calls[i].now <= t
  }

  lemma {:induction false} UntilMore(past: seq<Call>, call: Call, n: nat)
    requires Until(past, call.now)
    ensures Until(past + Repeat(call, n), call.now)
  {
    RepeatAll(call, n);
  }

  /** When the window after n others opens. */
  function Opening(t: int, window: int, n: nat): int {
    t + n * (window + 1)
  }

  lemma OpeningNext(t: int, window: int, n: nat)
    ensures Opening(t, window, n + 1) == Opening(t, window, n) + window + 1
  {
  }

  /** After past, n windows that open one as soon as the other has ended, from time t on, and are filled at once. */
  function Bursts(past: seq<Call>, key: string, limit: int, window: int, t: int, n: nat): seq<Call>
    requires limit >= 1
  {
    if n == 0 then past
    else
      var call := Call(key, Opening(t, window, n - 1));
      Bursts(past, key, limit, window, t, n - 1) + [call] + Repeat(call, limit - 1)
  }

  lemma {:induction false} BurstsFill(past: seq<Call>, key: string, limit: int, window: int, t: int, n: nat,
                                      a: int, b: int)
    requires limit >= 1 && window >= 0 && a <= t && Opens(After(past, limit, window), key, t)
    requires n >= 1 ==> Opening(t, window, n - 1) <= b
    ensures var calls := Bursts(past, key, limit, window, t, n);
            && AllowedIn(calls, limit, window, key, a, b) == AllowedIn(past, limit, window, key, a, b) + limit * n
            && Opens(After(calls, limit, window), key, Opening(t, window, n))
  {
    if n >= 1 {
      var call := Call(key, Opening(t, window, n - 1));
      assert a <= call.now by {
        Scale(n - 1, 0, window + 1);
      }
      if n >= 2 {
        OpeningNext(t, window, n - 2);
      }
      BurstsFill(past, key, limit, window, t, n - 1, a, b);
      FilledWindow(Bursts(past, key, limit, window, t, n - 1), call, limit, window, a, b);
      OpeningNext(t, window, n - 1);
      assert limit * (n - 1) + limit == limit * n;
    }
  }

  lemma {:induction false} BurstsInOrder(past: seq<Call>, key: string, limit: int, window: int, t: int, n: nat)
    requires limit >= 1 && window >= 0 && Until(past, t)
    ensures Until(Bursts(past, key, limit, window, t, n), Opening(t, window, n))
  {
    if n >= 1 {
      var call := Call(key, Opening(t, window, n - 1));
      var rest := Bursts(past, key, limit, window, t, n - 1);
      BurstsInOrder(past, key, limit, window, t, n - 1);
      UntilMore(rest + [call], call, limit - 1);
      OpeningNext(t, window, n - 1);
    }
  }

  /** One call at time 0 and, at the very end of its window, as many as still fit. */
  function LateCalls(key: string, limit: int, window: int): seq<Call>
    requires limit >= 1
  {
    [Call(key, 0)] + Repeat(Call(key, window), limit - 1)
  }

  lemma LateCallsFit(key: string, limit: int, window: int, b: int)
    requires limit >= 1 && 1 <= window <= b
    ensures var calls := LateCalls(key, limit, window);
            && AllowedIn(calls, limit, window, key, window, b) == limit - 1
            && Opens(After(calls, limit, window), key, window + 1)
            && Until(calls, window + 1)
  {
    var first := [Call(key, 0)];
    assert first[..0] == [];
    assert AllowedIn(first[..0], limit, window, key, window, b) == 0;
    assert After(first[..0], limit, window) == map[];
    RepeatFits(first, Call(key, window), limit - 1, limit, window, window, b);
    UntilMore(first, Call(key, window), limit - 1);
  }

  /** The most demanding run for the interval [window, window + length]. */
  function Worst(key: string, limit: int, window: int, length: int): seq<Call>
    requires limit >= 1 && window >= 0 && length >= 0
  {
    var m := window + 1;
    if length % m == 0 then Bursts([], key, limit, window, window, length / m + 1)
    else Bursts(LateCalls(key, limit, window), key, limit, window, window + 1, length / m + 1)
  }

  lemma LastOpening(window: int, length: int, n: nat)
    requires window >= 0 && length >= 0 && n == length / (window + 1)
    ensures Opening(window, window, n) <= window + length
    ensures length % (window + 1) != 0 ==> window >= 1 && Opening(window + 1, window, n) <= window + length
  {
    assert n * (window + 1) + length % (window + 1) == length;
  }

  lemma {:induction false} EarlyBursts(key: string, limit: int, window: int, n: nat, b: int)
    requires limit >= 1 && window >= 0 && Opening(window, window, n) <= b
    ensures var calls := Bursts([], key, limit, window, window, n + 1);
            Chronological(calls) && AllowedIn(calls, limit, window, key, window, b) == limit * (n + 1)
  {
    BurstsFill([], key, limit, window, window, n + 1, window, b);
    BurstsInOrder([], key, limit, window, window, n + 1);
  }

  lemma {:induction false} LateBursts(key: string, limit: int, window: int, n: nat, b: int)
    requires limit >= 1 && 1 <= window <= b && Opening(window + 1, window, n) <= b
    ensures var calls := Bursts(LateCalls(key, limit, window), key, limit, window, window + 1, n + 1);
            Chronological(calls) && AllowedIn(calls, limit, window, key, window, b) == limit - 1 + limit * (n + 1)
  {
    LateCallsFit(key, limit, window, b);
    BurstsFill(LateCalls(key, limit, window), key, limit, window, window + 1, n + 1, window, b);
    BurstsInOrder(LateCalls(key, limit, window), key, limit, window, window + 1, n + 1);
  }

  lemma {:induction false} WorstCount(key: string, limit: int, window: int, length: int, n: nat)
    requires limit >= 1 && window >= 0 && length >= 0 && n == length / (window + 1)
    ensures Chronological(Worst(key, limit, window, length))
    ensures AllowedIn(Worst(key, limit, window, length), limit, window, key, window, window + length)
         == limit * (n + 1) + if length % (window + 1) == 0 then 0 else limit - 1
  {
    LastOpening(window, length, n);
    if length % (window + 1) == 0 {
      EarlyBursts(key, limit, window, n, window + length);
    } else {
      LateBursts(key, limit, window, n, window + length);
    }
  }

  /** SlidingBound cannot be improved for any limit, window and length. */
  lemma {:induction false} SlidingBoundIsTight(key: string, limit: int, window: int, length: int)
    requires limit >= 1 && window >= 0 && length >= 0
    ensures Chronological(Worst(key, limit, window, length))
    ensures AllowedIn(Worst(key, limit, window, length), limit, window, key, window, window + length)
         == Most(limit, window, length)
  {
    MostIs(limit, window, length);
    WorstCount(key, limit, window, length, length / (window + 1));
  }
}
