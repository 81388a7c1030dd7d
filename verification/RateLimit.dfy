/** The fixed-window limiter of ratelimit.go over a store of expiring counters. */
module RateLimit {
  import opened Prelude

  /** Instants are in nanoseconds since the clock's zero time. */
  const SECOND: nat := 1_000_000_000
  const DAY_SECONDS: nat := 86400

  /** The window is a positive whole number of seconds; `zone` is the fixed local offset in seconds. */
  datatype Config = Config(limit: int, seconds: nat, zone: int)

  ghost predicate IsConfig(c: Config) { c.seconds > 0 }

  function Window(c: Config): nat { c.seconds * SECOND }

  /** Aligned windows are numbered: window `m` starts at `m` window lengths. */
  function Index(c: Config, now: nat): nat
    requires IsConfig(c)
  {
    now / Window(c)
  }

  /** The bucket label is the time of day, to the second, at which the window starts. */
  function Label(c: Config, m: nat): nat {
    (m * c.seconds + c.zone) % DAY_SECONDS
  }

  /** A counter; without an expiry it lives for ever. */
  datatype Bucket = Bucket(count: nat, expiry: Option<nat>)

  type Store = map<(string, nat), Bucket>

  predicate IsLive(b: Bucket, now: nat) { b.expiry.None? || now < b.expiry.value }

  /** An expired counter reads as absent. */
  function Live(s: Store, key: string, lbl: nat, now: nat): nat {
    if (key, lbl) in s && IsLive(s[(key, lbl)], now) then s[(key, lbl)].count else 0
  }

  /** `expireOk` says whether setting an expiry would succeed; the source ignores its failure. */
  datatype Request = Request(key: string, now: nat, expireOk: bool)

  function Bump(c: Config, s: Store, r: Request): Store
    requires IsConfig(c)
  {
    var lbl := Label(c, Index(c, r.now));
    var n := Live(s, r.key, lbl, r.now) + 1;
    var fresh_ := if r.expireOk then Some(r.now + Window(c)) else None;
    s[(r.key, lbl) := Bucket(n, if n == 1 || (r.key, lbl) !in s then fresh_ else s[(r.key, lbl)].expiry)]
  }

  function Grants(c: Config, s: Store, r: Request): bool
    requires IsConfig(c)
  {
    Live(s, r.key, Label(c, Index(c, r.now)), r.now) + 1 <= c.limit
  }

  /** The label is the local time of day, to the second, at which the instant's window starts. */
  lemma LabelIsTimeOfDay(c: Config, now: nat)
    requires IsConfig(c)
    ensures Label(c, Index(c, now)) == ((now - now % Window(c)) / SECOND + c.zone) % DAY_SECONDS
  {
    var m, w := Index(c, now), Window(c);
    assert now - now % w == m * w;
    assert m * w == m * c.seconds * SECOND;
  }

  /** One more request counted in one bucket; a new or expired bucket starts again at one. */
  ghost predicate CountsOneMore(c: Config, old_: Store, s: Store, k: (string, nat), now: nat, expireOk: bool) {
    && s.Keys == old_.Keys + {k} && (forall j :: j in old_ && j != k ==> s[j] == old_[j])
    && s[k] == if k in old_ && old_[k].count > 0 && (old_[k].expiry.None? || now < old_[k].expiry.value)
               then Bucket(old_[k].count + 1, old_[k].expiry)
               else Bucket(1, if expireOk then Some(now + c.seconds * 1_000_000_000) else None)
  }

  class Limiter {
    const c: Config
    var buckets: Store

    constructor (c: Config)
      requires IsConfig(c)
      ensures this.c == c && buckets == map[]
    {
      this.c, buckets := c, map[];
    }

    /**
     * Counts the request and says whether it is within the limit. It fails open when the counter cannot be moved;
     * when only the expiry of a new counter cannot be set, that counter stays for ever.
     */
    method Allow(key: string, now: nat, incrOk: bool, expireOk: bool) returns (allowed: bool, remaining: int)
      requires IsConfig(c)
      modifies this
      ensures incrOk ==> buckets == Bump(c, old(buckets), Request(key, now, expireOk))
      ensures incrOk ==> allowed == Grants(c, old(buckets), Request(key, now, expireOk))
      ensures !incrOk ==> allowed && remaining == c.limit && buckets == old(buckets)
      ensures incrOk ==>
        var k := (key, ((now - now % (c.seconds * 1_000_000_000)) / 1_000_000_000 + c.zone) % 86400);
        && CountsOneMore(c, old(buckets), buckets, k, now, expireOk)
        && var n := buckets[k].count;
        remaining == (if n < c.limit then c.limit - n else 0) && (allowed <==> n <= c.limit)
    {
      var lbl := Label(c, Index(c, now));
      LabelIsTimeOfDay(c, now);
      if !incrOk {
        return true, c.limit;
      }
      var n := Live(buckets, key, lbl, now) + 1;
      var expiry := if n > 1 && (key, lbl) in buckets then buckets[(key, lbl)].expiry else None;
      if n == 1 && expireOk {
        expiry := Some(now + Window(c));
      }
      buckets := buckets[(key, lbl) := Bucket(n, expiry)];
      remaining := c.limit - n;
      if remaining < 0 {
        remaining := 0;
      }
      allowed := n <= c.limit;
    }
  }

  // ----- runs -----

  function After(c: Config, run: seq<Request>): Store
    requires IsConfig(c)
  {
    if run == [] then map[] else Bump(c, After(c, run[..|run| - 1]), run[|run| - 1])
  }

  /** The clock never goes back. */
  ghost predicate InOrder(run: seq<Request>) {
    forall i, j :: 0 <= i < j < |run| ==> run[i].now <= run[j].now
  }

  predicate Falls(r: Request, key: string, lo: nat, hi: nat) {
    r.key == key && lo <= r.now < hi
  }

  /** The requests of `key` from `lo` to before `hi`. */
  function Asked(run: seq<Request>, key: string, lo: nat, hi: nat): nat {
    if run == [] then 0
    else Asked(run[..|run| - 1], key, lo, hi) + (if Falls(run[|run| - 1], key, lo, hi) then 1 else 0)
  }

  /** Those of them that were allowed. */
  function Admitted(c: Config, run: seq<Request>, key: string, lo: nat, hi: nat): nat
    requires IsConfig(c)
  {
    if run == [] then 0 else
      var front, r := run[..|run| - 1], run[|run| - 1];
      Admitted(c, front, key, lo, hi) + (if Falls(r, key, lo, hi) && Grants(c, After(c, front), r) then 1 else 0)
  }

  // ----- what a run keeps -----

  ghost predicate AllExpire(run: seq<Request>) {
    forall i :: 0 <= i < |run| ==> run[i].expireOk
  }

  /**
   * From instant `from` on, every counter that is read in its own window holds at least the requests of that window,
   * and exactly these when every expiry was set.
   */
  ghost predicate Covers(c: Config, s: Store, run: seq<Request>, from: nat)
    requires IsConfig(c)
  {
    forall key: string, at: nat :: at >= from ==>
      Covered(c, s, run, key, at)
  }

  ghost predicate Covered(c: Config, s: Store, run: seq<Request>, key: string, at: nat)
    requires IsConfig(c)
  {
    var m := Index(c, at);
    var live, asked := Live(s, key, Label(c, m), at), Asked(run, key, m * Window(c), (m + 1) * Window(c));
    live >= asked && (AllExpire(run) ==> live == asked)
  }

  /**
   * A counter that expires does so one window length after an instant of a window with its label, no later than
   * `from`.
   */
  ghost predicate Born(c: Config, lbl: nat, b: Bucket, from: nat)
    requires IsConfig(c)
  {
    b.expiry.Some? ==>
      Window(c) <= b.expiry.value <= from + Window(c) && Label(c, Index(c, b.expiry.value - Window(c))) == lbl
  }

  ghost predicate AllBorn(c: Config, s: Store, run: seq<Request>, from: nat)
    requires IsConfig(c)
  {
    && (forall k :: k in s ==> Born(c, k.1, s[k], from))
    && (AllExpire(run) ==> forall k :: k in s ==> s[k].expiry.Some?)
  }

  lemma IndexBounds(c: Config, at: nat)
    requires IsConfig(c)
    ensures Index(c, at) * Window(c) <= at < (Index(c, at) + 1) * Window(c)
  {
  }

  lemma IndexGrows(c: Config, a: nat, b: nat)
    requires IsConfig(c) && a <= b
    ensures Index(c, a) <= Index(c, b)
  {
    IndexBounds(c, a);
    IndexBounds(c, b);
    if Index(c, b) < Index(c, a) {
      ProductMonotone(Index(c, b) + 1, Index(c, a), Window(c));
      assert false;
    }
  }

  lemma ProductMonotone(m: nat, n: nat, w: nat)
    requires m <= n
    ensures m * w <= n * w
  {
  }

  /** Two windows with the same label are at least two windows apart, unless whole days fit a window. */
  lemma SameLabelApart(c: Config, m: nat, n: nat)
    requires IsConfig(c) && c.seconds % DAY_SECONDS != 0 && m < n && Label(c, m) == Label(c, n)
    ensures n >= m + 2
  {
    if n == m + 1 {
      var a := m * c.seconds + c.zone;
      assert n * c.seconds + c.zone == a + c.seconds;
      SameRemainder(a, c.seconds);
    }
  }

  lemma SameRemainder(a: int, d: nat)
    requires a % DAY_SECONDS == (a + d) % DAY_SECONDS
    ensures d % DAY_SECONDS == 0
  {
  }

  lemma {:induction false} NoneAskedYet(run: seq<Request>, key: string, lo: nat, hi: nat)
    requires forall i :: 0 <= i < |run| ==> run[i].now < lo
    ensures Asked(run, key, lo, hi) == 0
  {
    if run != [] {
      NoneAskedYet(run[..|run| - 1], key, lo, hi);
    }
  }

  lemma AskedStep(run: seq<Request>, r: Request, key: string, lo: nat, hi: nat)
    ensures Asked(run + [r], key, lo, hi) == Asked(run, key, lo, hi) + (if Falls(r, key, lo, hi) then 1 else 0)
  {
  }

  lemma InWindow(c: Config, now: nat, m: nat)
    requires IsConfig(c) && m * Window(c) <= now < (m + 1) * Window(c)
    ensures Index(c, now) == m
  {
    IndexBounds(c, now);
    if Index(c, now) < m {
      ProductMonotone(Index(c, now) + 1, m, Window(c));
    } else if Index(c, now) > m {
      ProductMonotone(m + 1, Index(c, now), Window(c));
    }
  }

  /** A counter whose label is that of the present window was born in it, if it expires and is still live. */
  lemma LiveIsPresent(c: Config, lbl: nat, b: Bucket, from: nat, at: nat)
    requires IsConfig(c) && c.seconds % DAY_SECONDS != 0 && Born(c, lbl, b, from) && from <= at
    requires b.expiry.Some? && at < b.expiry.value && Label(c, Index(c, at)) == lbl
    ensures b.expiry.value >= (Index(c, at) + 1) * Window(c)
  {
    var m, w := Index(c, at), Window(c);
    var born := b.expiry.value - w;
    var m0 := Index(c, born);
    IndexBounds(c, at);
    IndexBounds(c, born);
    IndexGrows(c, born, at);
    assert (m0 + 2) * w == (m0 + 1) * w + w && (m + 1) * w == m * w + w;
    if m0 < m {
      SameLabelApart(c, m0, m);
      ProductMonotone(m0 + 2, m, w);
      assert false;
    }
  }

  /** Within one window a counter of its label does not expire. */
  lemma LiveThroughout(c: Config, s: Store, from: nat, key: string, a: nat, b: nat)
    requires IsConfig(c) && c.seconds % DAY_SECONDS != 0 && from <= a <= b && Index(c, a) == Index(c, b)
    requires forall k :: k in s ==> Born(c, k.1, s[k], from)
    ensures Live(s, key, Label(c, Index(c, a)), a) == Live(s, key, Label(c, Index(c, a)), b)
  {
    var k := (key, Label(c, Index(c, a)));
    IndexBounds(c, b);
    if k in s && s[k].expiry.Some? && a < s[k].expiry.value {
      assert Born(c, k.1, s[k], from);
      LiveIsPresent(c, k.1, s[k], from, a);
    }
    hide Label, Index, Window, Born;
  }

  /** The counter that a request moves is born in the request's window or was live in it. */
  lemma BumpBorn(c: Config, s: Store, run: seq<Request>, from: nat, r: Request)
    requires IsConfig(c) && AllBorn(c, s, run, from) && from <= r.now
    ensures AllBorn(c, Bump(c, s, r), run + [r], r.now)
  {
    var k := (r.key, Label(c, Index(c, r.now)));
    var u := Bump(c, s, r);
    assert AllExpire(run + [r]) ==> AllExpire(run) && r.expireOk by {
      if AllExpire(run + [r]) {
        assert (run + [r])[|run|] == r && forall i :: 0 <= i < |run| ==> (run + [r])[i] == run[i];
      }
    }
    hide Label, Index, AllExpire;
  }

  /** Another key or label: neither the counter nor the number asked changes. */
  lemma OtherBucket(c: Config, s: Store, r: Request, key: string, at: nat)
    requires IsConfig(c) && !(key == r.key && Label(c, Index(c, at)) == Label(c, Index(c, r.now)))
    ensures var m := Index(c, at);
            && Live(Bump(c, s, r), key, Label(c, m), at) == Live(s, key, Label(c, m), at)
            && !Falls(r, key, m * Window(c), (m + 1) * Window(c))
  {
    var m := Index(c, at);
    if Falls(r, key, m * Window(c), (m + 1) * Window(c)) {
      InWindow(c, r.now, m);
    }
    hide Label, Index, Window;
  }

  /** The request's own window: its counter goes up by one and stays so to the end of the window. */
  lemma SameWindow(c: Config, s: Store, from: nat, r: Request, at: nat)
    requires IsConfig(c) && c.seconds % DAY_SECONDS != 0 && from <= r.now <= at && Index(c, at) == Index(c, r.now)
    requires forall k :: k in s ==> Born(c, k.1, s[k], from)
    ensures var m := Index(c, at);
            && Live(Bump(c, s, r), r.key, Label(c, m), at) == Live(s, r.key, Label(c, m), at) + 1
            && Falls(r, r.key, m * Window(c), (m + 1) * Window(c))
  {
    LiveThroughout(c, s, from, r.key, r.now, at);
    IndexBounds(c, at);
    IndexBounds(c, r.now);
    var m := Index(c, at);
    assert (m + 1) * Window(c) == m * Window(c) + Window(c);
    hide Label, Index, Window, Born;
  }

  /** A later window with the same label: nothing was asked in it yet, and what expires has expired. */
  lemma LaterWindow(c: Config, s: Store, run: seq<Request>, from: nat, r: Request, at: nat)
    requires IsConfig(c) && AllBorn(c, s, run, from) && from <= r.now
    requires (Index(c, r.now) + 2) * Window(c) <= Index(c, at) * Window(c)
        && Label(c, Index(c, at)) == Label(c, Index(c, r.now))
    requires forall i :: 0 <= i < |run| ==> run[i].now <= r.now
    ensures var m := Index(c, at);
            && Asked(run, r.key, m * Window(c), (m + 1) * Window(c)) == 0
            && (AllExpire(run + [r]) ==> Live(Bump(c, s, r), r.key, Label(c, m), at) == 0)
            && !Falls(r, r.key, m * Window(c), (m + 1) * Window(c))
  {
    IndexBounds(c, at);
    IndexBounds(c, r.now);
    var m, m0, w := Index(c, at), Index(c, r.now), Window(c);
    assert (m0 + 2) * w == (m0 + 1) * w + w;
    NoneAskedYet(run, r.key, m * w, (m + 1) * w);
    BumpBorn(c, s, run, from, r);
    hide Label, Index, Window, Asked, Bump, AllExpire, AllBorn;
    if AllExpire(run + [r]) {
      AllExpired(c, Bump(c, s, r), run + [r], r.now, r.key, Label(c, m), at);
    }
  }

  /** One window length after the last request every counter with an expiry has expired. */
  lemma AllExpired(c: Config, s: Store, run: seq<Request>, from: nat, key: string, lbl: nat, at: nat)
    requires IsConfig(c) && AllBorn(c, s, run, from) && AllExpire(run) && from + Window(c) <= at
    ensures Live(s, key, lbl, at) == 0
  {
    hide Label, Index, Window, AllExpire;
  }

  /** One request keeps the counters covering from its own instant on. */
  lemma BumpKeepsCovered(c: Config, s: Store, run: seq<Request>, from: nat, r: Request, key: string, at: nat)
    requires IsConfig(c) && c.seconds % DAY_SECONDS != 0
    requires Covered(c, s, run, key, at) && AllBorn(c, s, run, from) && from <= r.now <= at
    requires forall i :: 0 <= i < |run| ==> run[i].now <= r.now
    ensures Covered(c, Bump(c, s, r), run + [r], key, at)
  {
    var m, m0 := Index(c, at), Index(c, r.now);
    AskedStep(run, r, key, m * Window(c), (m + 1) * Window(c));
    ExpireFront(run, r);
    assert forall k :: k in s ==> Born(c, k.1, s[k], from);
    hide Label, Asked, Live, Bump, Falls, Born, AllExpire, AllBorn;
    if key != r.key || Label(c, m) != Label(c, m0) {
      OtherBucket(c, s, r, key, at);
    } else if m == m0 {
      SameWindow(c, s, from, r, at);
    } else {
      IndexGrows(c, r.now, at);
      SameLabelApart(c, m0, m);
      ProductMonotone(m0 + 2, m, Window(c));
      LaterWindow(c, s, run, from, r, at);
    }
  }

  lemma ExpireFront(run: seq<Request>, r: Request)
    ensures AllExpire(run + [r]) <==> AllExpire(run) && r.expireOk
  {
    assert (run + [r])[|run|] == r && forall i :: 0 <= i < |run| ==> (run + [r])[i] == run[i];
  }

  function Latest(run: seq<Request>): nat { if run == [] then 0 else run[|run| - 1].now }

  /** Over every run the counters cover their windows, whatever expiries could not be set. */
  lemma {:induction false} RunIsExact(c: Config, run: seq<Request>)
    requires IsConfig(c) && c.seconds % DAY_SECONDS != 0 && InOrder(run)
    ensures Covers(c, After(c, run), run, Latest(run)) && AllBorn(c, After(c, run), run, Latest(run))
  {
    if run != [] {
      var front, r := run[..|run| - 1], run[|run| - 1];
      RunIsExact(c, front);
      var s := After(c, front);
      assert run == front + [r];
      AfterStep(c, run);
      hide Label, After, Index, Window, Bump, Covered, AllBorn;
      BumpBorn(c, s, front, Latest(front), r);
      forall key: string, at: nat | at >= r.now ensures Covered(c, Bump(c, s, r), run, key, at) {
        BumpKeepsCovered(c, s, front, Latest(front), r, key, at);
      }
    }
  }

  lemma AfterStep(c: Config, run: seq<Request>)
    requires IsConfig(c) && run != []
    ensures After(c, run) == Bump(c, After(c, run[..|run| - 1]), run[|run| - 1])
  {
  }

  lemma CoveredNow(c: Config, run: seq<Request>, r: Request, m: nat)
    requires IsConfig(c) && c.seconds % DAY_SECONDS != 0 && InOrder(run) && Latest(run) <= r.now && Index(c, r.now) == m
    ensures
      var live := Live(After(c, run), r.key, Label(c, m), r.now);
      var asked := Asked(run, r.key, m * Window(c), (m + 1) * Window(c));
      live >= asked && (AllExpire(run) ==> live == asked)
  {
    RunIsExact(c, run);
    assert Covered(c, After(c, run), run, r.key, r.now);
    hide After, AllBorn, Label, Asked, Index, Window;
  }

  /**
   * An aligned window admits at most the limit, and exactly the lesser of requests and limit when every expiry was
   * set.
   */
  lemma {:induction false} AlignedWindowIsExact(c: Config, run: seq<Request>, key: string, m: nat)
    requires IsConfig(c) && c.seconds % DAY_SECONDS != 0 && InOrder(run)
    ensures var lo, hi := m * Window(c), (m + 1) * Window(c);
            && Admitted(c, run, key, lo, hi) <= Min(Asked(run, key, lo, hi), Max(c.limit, 0))
            && (AllExpire(run) ==> Admitted(c, run, key, lo, hi) == Min(Asked(run, key, lo, hi), Max(c.limit, 0)))
  {
    if run != [] {
      var front, r := run[..|run| - 1], run[|run| - 1];
      AlignedWindowIsExact(c, front, key, m);
      assert run == front + [r];
      ExpireFront(front, r);
      assert Latest(front) <= r.now;
      hide Label, After, Index, Window, AllExpire;
      if Falls(r, key, m * Window(c), (m + 1) * Window(c)) {
        InWindow(c, r.now, m);
        CoveredNow(c, front, r, m);
      }
    }
  }

  lemma {:induction false} AdmittedSplits(c: Config, run: seq<Request>, key: string, lo: nat, mid: nat, hi: nat,
                                          a: nat, b: nat)
    requires IsConfig(c) && lo <= a && b <= hi && lo <= mid <= hi
    ensures Admitted(c, run, key, a, b) <= Admitted(c, run, key, lo, mid) + Admitted(c, run, key, mid, hi)
  {
    hide After, Grants;
    if run != [] {
      AdmittedSplits(c, run[..|run| - 1], key, lo, mid, hi, a, b);
    }
  }

  // ----- any interval of one window length -----

  lemma RunStep(c: Config, run: seq<Request>, r: Request, key: string, lo: nat, hi: nat)
    requires IsConfig(c)
    ensures After(c, run + [r]) == Bump(c, After(c, run), r)
    ensures Admitted(c, run + [r], key, lo, hi)
         == Admitted(c, run, key, lo, hi) + (if Falls(r, key, lo, hi) && Grants(c, After(c, run), r) then 1 else 0)
  {
  }

  lemma {:induction false} WholeDays(a: int, d: nat)
    ensures (d * DAY_SECONDS + a) % DAY_SECONDS == a % DAY_SECONDS
    decreases d
  {
  }

  /** Windows of whole days all have one label. */
  lemma {:induction false} OneLabel(c: Config, m: nat)
    requires IsConfig(c) && c.seconds % DAY_SECONDS == 0
    ensures Label(c, m) == c.zone % DAY_SECONDS
    decreases m
  {
    var d := c.seconds / DAY_SECONDS;
    assert c.seconds == d * DAY_SECONDS;
    if m > 0 {
      OneLabel(c, m - 1);
      assert m * c.seconds + c.zone == d * DAY_SECONDS + ((m - 1) * c.seconds + c.zone);
      WholeDays((m - 1) * c.seconds + c.zone, d);
    }
  }

  /** The count of a bucket, expired or not. */
  function Count(s: Store, k: (string, nat)): nat { if k in s then s[k].count else 0 }

  /**
   * With one label only: the `n` requests admitted since `a` are within the counter, or the counter was opened after
   * `a`, so that it outlives the interval, and all but a quota of them are within it.
   */
  ghost predicate Doubled(c: Config, s: Store, k: (string, nat), n: nat, a: nat)
    requires IsConfig(c)
  {
    var quota := Max(c.limit, 0);
    || n <= Min(Count(s, k), quota)
    || (k in s && (s[k].expiry.Some? ==> s[k].expiry.value >= a + Window(c)) && n <= quota + Min(s[k].count, quota))
  }

  lemma DoubledStep(c: Config, s: Store, r: Request, n: nat, a: nat)
    requires IsConfig(c) && a <= r.now < a + Window(c)
    requires Doubled(c, s, (r.key, Label(c, Index(c, r.now))), n, a)
    ensures Doubled(c, Bump(c, s, r), (r.key, Label(c, Index(c, r.now))), n + (if Grants(c, s, r) then 1 else 0), a)
  {
    hide Label, Index, Window;
  }

  lemma DoubledElsewhere(c: Config, s: Store, r: Request, k: (string, nat), n: nat, a: nat)
    requires IsConfig(c) && r.key != k.0 && Doubled(c, s, k, n, a)
    ensures Doubled(c, Bump(c, s, r), k, n, a)
  {
    hide Label, Index, Window;
  }

  lemma {:induction false} WholeDaysAtMostTwice(c: Config, run: seq<Request>, key: string, a: nat)
    requires IsConfig(c) && c.seconds % DAY_SECONDS == 0 && InOrder(run)
    ensures var n := Admitted(c, run, key, a, a + Window(c));
            && n <= 2 * Max(c.limit, 0)
            && (run == [] || Latest(run) < a ==> n == 0)
            && (Latest(run) < a + Window(c) ==> Doubled(c, After(c, run), (key, c.zone % DAY_SECONDS), n, a))
  {
    if run != [] {
      var front, r := run[..|run| - 1], run[|run| - 1];
      assert run == front + [r];
      WholeDaysAtMostTwice(c, front, key, a);
      RunStep(c, front, r, key, a, a + Window(c));
      OneLabel(c, Index(c, r.now));
      assert front != [] ==> Latest(front) <= r.now;
      var n := Admitted(c, front, key, a, a + Window(c));
      hide After, Admitted, Label, Index, Bump, Grants, InOrder;
      if a <= r.now < a + Window(c) {
        if r.key == key {
          DoubledStep(c, After(c, front), r, n, a);
        } else {
          DoubledElsewhere(c, After(c, front), r, (key, c.zone % DAY_SECONDS), n, a);
        }
      }
      hide Window;
    }
  }

  /** Any interval of one window length admits at most twice the limit, whatever the window. */
  lemma AnyIntervalAtMostTwice(c: Config, run: seq<Request>, key: string, a: nat)
    requires IsConfig(c) && InOrder(run)
    ensures Admitted(c, run, key, a, a + Window(c)) <= 2 * Max(c.limit, 0)
  {
    if c.seconds % DAY_SECONDS == 0 {
      WholeDaysAtMostTwice(c, run, key, a);
    } else {
      var m, w := Index(c, a), Window(c);
      IndexBounds(c, a);
      assert (m + 2) * w == (m + 1) * w + w;
      hide Admitted, Asked, Index, Window;
      AdmittedSplits(c, run, key, m * w, (m + 1) * w, (m + 2) * w, a, a + w);
      AlignedWindowIsExact(c, run, key, m);
      AlignedWindowIsExact(c, run, key, m + 1);
    }
  }

  // ----- exactly which windows are safe -----

  /** One more request at the very end of window 1. */
  function LateRequest(c: Config): Request
    requires IsConfig(c)
  {
    Request("k", 2 * Window(c) - 1, true)
  }

  /** One request just before window 1, one at its start, and `n` at its very end. */
  function Straddle(c: Config, n: nat): seq<Request>
    requires IsConfig(c)
  {
    var w := Window(c);
    if n == 0 then [Request("k", w - 1, true), Request("k", w, true)]
    else Straddle(c, n - 1) + [LateRequest(c)]
  }

  lemma DaysShareLabel(c: Config)
    requires IsConfig(c) && c.seconds % DAY_SECONDS == 0
    ensures Label(c, 0) == Label(c, 1)
  {
  }

  lemma StraddleIndices(c: Config)
    requires IsConfig(c)
    ensures var w := Window(c); Index(c, w - 1) == 0 && Index(c, w) == 1 && Index(c, 2 * w - 1) == 1
  {
    InWindow(c, Window(c) - 1, 0);
    InWindow(c, Window(c), 1);
    InWindow(c, 2 * Window(c) - 1, 1);
  }

  lemma StraddleBase(c: Config)
    requires IsConfig(c) && c.seconds % DAY_SECONDS == 0 && 2 <= c.limit
    ensures var w, lbl, s := Window(c), Label(c, 1), After(c, Straddle(c, 0));
            && ("k", lbl) in s && s[("k", lbl)] == Bucket(2, Some(2 * w - 1))
            && Admitted(c, Straddle(c, 0), "k", w, 2 * w) == 1
  {
    var w := Window(c);
    var first, second := Request("k", w - 1, true), Request("k", w, true);
    assert After(c, []) == map[] && Admitted(c, [], "k", w, 2 * w) == 0;
    assert [] + [first] == [first] && [first] + [second] == Straddle(c, 0);
    DaysShareLabel(c);
    StraddleIndices(c);
    hide Label, Index, After, Admitted, Straddle;
    RunStep(c, [], first, "k", w, 2 * w);
    RunStep(c, [first], second, "k", w, 2 * w);
  }

  /** The counter after `n` requests at the end of window 1: the first of them found it expired. */
  function StraddleBucket(c: Config, n: nat): Bucket
    requires IsConfig(c)
  {
    if n == 0 then Bucket(2, Some(2 * Window(c) - 1)) else Bucket(n, Some(3 * Window(c) - 1))
  }

  ghost predicate HoldsStraddle(c: Config, s: Store, n: nat)
    requires IsConfig(c)
  {
    ("k", Label(c, 1)) in s && s[("k", Label(c, 1))] == StraddleBucket(c, n)
  }

  lemma StraddleStep(c: Config, s: Store, n: nat)
    requires IsConfig(c) && 0 < n <= c.limit && HoldsStraddle(c, s, n - 1)
    ensures HoldsStraddle(c, Bump(c, s, LateRequest(c)), n) && Grants(c, s, LateRequest(c))
    ensures Falls(LateRequest(c), "k", Window(c), 2 * Window(c))
  {
    StraddleIndices(c);
    hide Label, Index;
    assert 2 * Window(c) - 1 + Window(c) == 3 * Window(c) - 1;
    hide Window;
  }

  /** The counter of the day before expires inside window 1, which then admits a second full quota. */
  lemma {:induction false} StraddleAdmits(c: Config, n: nat)
    requires IsConfig(c) && c.seconds % DAY_SECONDS == 0 && 2 <= c.limit && n <= c.limit
    ensures HoldsStraddle(c, After(c, Straddle(c, n)), n)
    ensures Admitted(c, Straddle(c, n), "k", Window(c), 2 * Window(c)) == n + 1
  {
    if n == 0 {
      StraddleBase(c);
    } else {
      hide HoldsStraddle, After, Admitted, Bump, Grants, Falls, Window;
      var front, r := Straddle(c, n - 1), LateRequest(c);
      assert Straddle(c, n) == front + [r];
      hide Straddle, LateRequest;
      StraddleAdmits(c, n - 1);
      StraddleStep(c, After(c, front), n);
      RunStep(c, front, r, "k", Window(c), 2 * Window(c));
    }
  }

  lemma {:induction false} StraddleInOrder(c: Config, n: nat)
    requires IsConfig(c)
    ensures InOrder(Straddle(c, n)) && forall i :: 0 <= i < |Straddle(c, n)| ==>
      Straddle(c, n)[i].now <= 2 * Window(c) - 1
  {
    if n > 0 {
      StraddleInOrder(c, n - 1);
    }
  }

  /** The requests of `key` allowed in aligned window `m`. */
  function AdmittedIn(c: Config, run: seq<Request>, key: string, m: nat): nat
    requires IsConfig(c)
  {
    Admitted(c, run, key, m * Window(c), (m + 1) * Window(c))
  }

  ghost predicate KeepsQuota(c: Config)
    requires IsConfig(c)
  {
    forall run, key, m: nat :: InOrder(run) ==> AdmittedIn(c, run, key, m) <= Max(c.limit, 0)
  }

  // With a limit of one, or none, whole-day windows are safe too.

  lemma {:induction false} NothingGranted(c: Config, run: seq<Request>, key: string, lo: nat, hi: nat)
    requires IsConfig(c) && c.limit <= 0
    ensures Admitted(c, run, key, lo, hi) == 0
  {
    if run != [] {
      NothingGranted(c, run[..|run| - 1], key, lo, hi);
    }
  }

  /** After one grant from `lo` on, the key's only counter stays live until `lo` plus a window. */
  lemma {:induction false} OneGrantPerWindow(c: Config, run: seq<Request>, key: string, lo: nat)
    requires IsConfig(c) && c.seconds % DAY_SECONDS == 0 && c.limit == 1
    ensures var n, s, k := Admitted(c, run, key, lo, lo + Window(c)), After(c, run), (key, c.zone % DAY_SECONDS);
            && n <= 1 && (n == 1 ==> k in s && (s[k].expiry.Some? ==> s[k].expiry.value >= lo + Window(c)))
            && (k in s ==> s[k].count >= 1)
  {
    if run != [] {
      var front, r := run[..|run| - 1], run[|run| - 1];
      assert run == front + [r];
      OneGrantPerWindow(c, front, key, lo);
      OneLabel(c, Index(c, r.now));
      hide Label, Index, After, Admitted, Window;
      RunStep(c, front, r, key, lo, lo + Window(c));
    }
  }

  /**
   * Every aligned window keeps its quota exactly when the limit is at most one or the window is not a whole number of
   * days.
   */
  lemma SafeWindows(c: Config)
    requires IsConfig(c)
    ensures KeepsQuota(c) <==> c.limit <= 1 || c.seconds % DAY_SECONDS != 0
  {
    if c.limit <= 1 || c.seconds % DAY_SECONDS != 0 {
      forall run, key, m: nat | InOrder(run) ensures AdmittedIn(c, run, key, m) <= Max(c.limit, 0) {
        if c.seconds % DAY_SECONDS != 0 {
          AlignedWindowIsExact(c, run, key, m);
        } else if c.limit <= 0 {
          NothingGranted(c, run, key, m * Window(c), (m + 1) * Window(c));
        } else {
          OneGrantPerWindow(c, run, key, m * Window(c));
          assert (m + 1) * Window(c) == m * Window(c) + Window(c);
        }
      }
    } else {
      var run := Straddle(c, c.limit);
      StraddleAdmits(c, c.limit);
      StraddleInOrder(c, c.limit);
      hide Admitted, Straddle, InOrder;
      assert 1 * Window(c) == Window(c) && (1 + 1) * Window(c) == 2 * Window(c);
      assert AdmittedIn(c, run, "k", 1) == c.limit + 1;
    }
  }

  // ----- requests whose counter could not be moved -----

  /** A request, or one for which the store erred: it is let through and leaves no trace. */
  datatype Call = Counted(request: Request) | Unmoved(key: string, now: nat)

  function Instant(call: Call): nat { if call.Counted? then call.request.now else call.now }

  ghost predicate CallsInOrder(calls: seq<Call>) {
    forall i, j :: 0 <= i < j < |calls| ==> Instant(calls[i]) <= Instant(calls[j])
  }

  /** The requests that moved a counter. */
  function Moved(calls: seq<Call>): seq<Request> {
    if calls == [] then [] else
      var call := calls[|calls| - 1];
      Moved(calls[..|calls| - 1]) + (if call.Counted? then [call.request] else [])
  }

  predicate FailsIn(call: Call, key: string, lo: nat, hi: nat) {
    call.Unmoved? && call.key == key && lo <= call.now < hi
  }

  /** How many requests of `key` from `lo` to before `hi` did not move their counter. */
  function Failures(calls: seq<Call>, key: string, lo: nat, hi: nat): nat {
    if calls == [] then 0
    else Failures(calls[..|calls| - 1], key, lo, hi) + (if FailsIn(calls[|calls| - 1], key, lo, hi) then 1 else 0)
  }

  /** How many requests of `key` from `lo` to before `hi` the limiter lets through. */
  function LetThrough(c: Config, calls: seq<Call>, key: string, lo: nat, hi: nat): nat
    requires IsConfig(c)
  {
    if calls == [] then 0 else
      var front, call := calls[..|calls| - 1], calls[|calls| - 1];
      var passes :=
        if call.Unmoved? then FailsIn(call, key, lo, hi)
        else Falls(call.request, key, lo, hi) && Grants(c, After(c, Moved(front)), call.request);
      LetThrough(c, front, key, lo, hi) + (if passes then 1 else 0)
  }

  lemma {:induction false} MovedInOrder(calls: seq<Call>)
    requires CallsInOrder(calls)
    ensures InOrder(Moved(calls))
    ensures forall i :: 0 <= i < |Moved(calls)| ==> calls != [] && Moved(calls)[i].now <= Instant(calls[|calls| - 1])
  {
    if calls != [] {
      MovedInOrder(calls[..|calls| - 1]);
    }
  }

  /** Failures add themselves to what is admitted, and nothing else. */
  lemma {:induction false} FailuresAddThemselves(c: Config, calls: seq<Call>, key: string, lo: nat, hi: nat)
    requires IsConfig(c)
    ensures LetThrough(c, calls, key, lo, hi) == Admitted(c, Moved(calls), key, lo, hi) + Failures(calls, key, lo, hi)
  {
    if calls != [] {
      var front, call := calls[..|calls| - 1], calls[|calls| - 1];
      FailuresAddThemselves(c, front, key, lo, hi);
      hide After, Admitted, Grants;
      if call.Counted? {
        RunStep(c, Moved(front), call.request, key, lo, hi);
      } else {
        assert Moved(front) + [] == Moved(front);
      }
    } else {
      assert Admitted(c, [], key, lo, hi) == 0;
    }
  }

  /**
   * Over calls some of which fail: an interval of one window length lets through at most twice the limit and the
   * failures in it, and an aligned window of a safe configuration at most the limit and its failures.
   */
  lemma QuotaUnderFailures(c: Config, calls: seq<Call>, key: string, m: nat, a: nat)
    requires IsConfig(c) && CallsInOrder(calls)
    ensures var w := Window(c);
            && LetThrough(c, calls, key, a, a + w) <= 2 * Max(c.limit, 0) + Failures(calls, key, a, a + w)
            && (c.limit <= 1 || c.seconds % DAY_SECONDS != 0 ==>
                  LetThrough(c, calls, key, m * w, (m + 1) * w)
                  <= Max(c.limit, 0) + Failures(calls, key, m * w, (m + 1) * w))
  {
    var w, run := Window(c), Moved(calls);
    MovedInOrder(calls);
    FailuresAddThemselves(c, calls, key, a, a + w);
    FailuresAddThemselves(c, calls, key, m * w, (m + 1) * w);
    AnyIntervalAtMostTwice(c, run, key, a);
    SafeWindows(c);
    hide InOrder, Moved, LetThrough, Failures, Admitted, Window;
    if c.limit <= 1 || c.seconds % DAY_SECONDS != 0 {
      assert AdmittedIn(c, run, key, m) <= Max(c.limit, 0);
    }
  }
}
