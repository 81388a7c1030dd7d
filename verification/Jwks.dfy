/**
 * The signing-key cache of jwks.go. Keys are looked up by `kid` (section 4.5 of RFC 7517) under a
 * read lock, and a whole new key set is installed under the write lock.
 */
module Jwks {
  import opened Prelude

  datatype Key = Key(modulus: nat, exponent: nat)

  /** A published key: its type, its id, and its decoded fields, None when they do not decode. */
  datatype Jwk = Jwk(isRSA: bool, kid: string, modulus: Option<nat>, exponent: Option<seq<nat>>)

  type KeySet = map<string, Key>

  // ----- reading a published set -----

  const WORD: nat := 0x1_0000_0000_0000_0000

  /** Big-endian value of a byte string. */
  function BigEndian(bytes: seq<nat>): nat {
    if bytes == [] then 0 else BigEndian(bytes[..|bytes| - 1]) * 256 + bytes[|bytes| - 1]
  }

  predicate AreBytes(s: seq<nat>) { forall i :: 0 <= i < |s| ==> s[i] < 256 }

  /** The source accumulates in a machine word, so a long exponent keeps its low 64 bits only. */
  method Exponent(bytes: seq<nat>) returns (e: nat)
    requires AreBytes(bytes)
    ensures e == BigEndian(bytes) % WORD
  {
    e := 0;
    for i := 0 to |bytes|
      invariant e == BigEndian(bytes[..i]) % WORD
    {
      assert bytes[..i + 1][..i] == bytes[..i];
      WordStep(BigEndian(bytes[..i]), bytes[i]);
      e := (e * 256 + bytes[i]) % WORD;
    }
    assert bytes[..|bytes|] == bytes;
  }

  lemma WordStep(v: nat, b: nat)
    ensures (v % WORD * 256 + b) % WORD == (v * 256 + b) % WORD
  {
  }

  /** Within eight bytes the word holds the exponent exactly. */
  lemma {:induction false} ShortExponentExact(bytes: seq<nat>)
    requires AreBytes(bytes) && |bytes| <= 8
    ensures BigEndian(bytes) % WORD == BigEndian(bytes)
  {
    Bounded(bytes);
    assert Power256(8) == WORD;
    PowerGrows(|bytes|, 8);
  }

  function Power256(n: nat): nat { if n == 0 then 1 else 256 * Power256(n - 1) }

  lemma {:induction false} PowerGrows(m: nat, n: nat)
    requires m <= n
    ensures Power256(m) <= Power256(n)
    decreases n
  {
    if m < n {
      PowerGrows(m, n - 1);
    }
  }

  lemma {:induction false} Bounded(bytes: seq<nat>)
    requires AreBytes(bytes)
    ensures BigEndian(bytes) < Power256(|bytes|)
  {
    if bytes != [] {
      Bounded(bytes[..|bytes| - 1]);
    }
  }

  /** The key a published entry stands for, if it is a usable RSA key. */
  function Usable(j: Jwk): Option<Key> {
    if j.isRSA && j.modulus.Some? && j.exponent.Some? && BigEndian(j.exponent.value) % WORD != 0
    then Some(Key(j.modulus.value, BigEndian(j.exponent.value) % WORD)) else None
  }

  /** An entry is usable iff it is an RSA key whose fields decode and whose exponent is not zero in the word. */
  lemma UsableMeans(j: Jwk, key: Key)
    ensures Usable(j) == Some(key) <==>
      && j.isRSA && j.modulus == Some(key.modulus) && key.exponent != 0
      && j.exponent.Some? && key.exponent == BigEndian(j.exponent.value) % 0x1_0000_0000_0000_0000
  {
  }

  /** A byte with `n` zero bytes after it. */
  function Shifted(b: nat, n: nat): nat { if n == 0 then b else 256 * Shifted(b, n - 1) }

  /** The first byte weighs most: a factor of 256 for each byte after it. */
  lemma {:induction false} FirstByteWeighsMost(b: nat, s: seq<nat>)
    ensures BigEndian([b] + s) == Shifted(b, |s|) + BigEndian(s)
  {
    if s == [] {
      assert [b] + s == [b] && [b][..0] == [];
    } else {
      var front := s[..|s| - 1];
      assert ([b] + s)[..|s|] == [b] + front;
      FirstByteWeighsMost(b, front);
    }
  }

  /** The usable keys of a set; a repeated kid keeps the last. */
  function Keys(set_: seq<Jwk>): KeySet {
    if set_ == [] then map[] else
      var j := set_[|set_| - 1];
      var front := Keys(set_[..|set_| - 1]);
      if Usable(j).Some? then front[j.kid := Usable(j).value] else front
  }

  /** Entry `i` is the last usable one for `kid`, and stands for `key`. */
  ghost predicate IsLastFor(set_: seq<Jwk>, i: nat, kid: string, key: Key) {
    && i < |set_| && set_[i].kid == kid && Usable(set_[i]) == Some(key)
    && forall j :: i < j < |set_| && set_[j].kid == kid ==> Usable(set_[j]).None?
  }

  lemma LastForLonger(set_: seq<Jwk>, i: nat, kid: string, key: Key)
    requires set_ != [] && i < |set_| - 1
    ensures var last := set_[|set_| - 1];
            IsLastFor(set_, i, kid, key) <==>
            IsLastFor(set_[..|set_| - 1], i, kid, key) && !(last.kid == kid && Usable(last).Some?)
  {
  }

  /** A kid's key is the last usable entry with that kid, and nothing else is in the set. */
  lemma {:induction false} KeysAreLastUsable(set_: seq<Jwk>, kid: string, key: Key)
    ensures (kid in Keys(set_) && Keys(set_)[kid] == key) <==> exists i: nat :: IsLastFor(set_, i, kid, key)
  {
    if set_ != [] {
      hide Usable;
      var n := |set_| - 1;
      KeysAreLastUsable(set_[..n], kid, key);
      if set_[n].kid == kid && Usable(set_[n]) == Some(key) {
        assert IsLastFor(set_, n, kid, key);
      }
      if i: nat :| IsLastFor(set_[..n], i, kid, key) {
        LastForLonger(set_, i, kid, key);
      }
      if i: nat :| IsLastFor(set_, i, kid, key) {
        if i < n {
          LastForLonger(set_, i, kid, key);
        }
      }
    }
  }

  method ReadKeys(set_: seq<Jwk>) returns (keys: KeySet)
    requires forall j :: j in set_ && j.exponent.Some? ==> AreBytes(j.exponent.value)
    ensures keys == Keys(set_)
  {
    keys := map[];
    for i := 0 to |set_|
      invariant keys == Keys(set_[..i])
    {
      var j := set_[i];
      assert set_[..i + 1][..i] == set_[..i];
      if !j.isRSA {
        continue;
      }
      if j.modulus.Some? && j.exponent.Some? {
        var e := Exponent(j.exponent.value);
        if e != 0 {
          keys := keys[j.kid := Key(j.modulus.value, e)];
        }
      }
    }
    assert set_[..|set_|] == set_;
  }

  // ----- the shared cache and its concurrent callers -----

  datatype Cache = Cache(keys: KeySet, fetchedAt: Option<nat>, url: string)

  /** What a call has come back with: a key, or an error. */
  type Answer = Option<Key>

  /**
   * A call in progress. `since` is the instant of its first lookup, `until` the instant of its return;
   * instants number the successive contents of the cache.
   */
  datatype Call =
    | Looked(kid: string, since: nat, found: Answer)
    | Refreshed(kid: string, since: nat, installed: nat)
    | Returned(kid: string, since: nat, until: nat, answer: Answer)

  /** `history` holds every content the cache has had; the last is the present one. */
  datatype State = State(history: seq<Cache>, calls: map<nat, Call>)

  function Now(s: State): nat
    requires s.history != []
  {
    |s.history| - 1
  }

  function Present(s: State): Cache
    requires s.history != []
  {
    s.history[|s.history| - 1]
  }

  function Start(url: string): State {
    State([Cache(map[], None, url)], map[])
  }

  function Lookup(keys: KeySet, kid: string): Answer {
    if kid in keys then Some(keys[kid]) else None
  }

  predicate IsFresh(c: Cache, clock: nat, ttl: int) {
    c.fetchedAt.Some? && clock - c.fetchedAt.value < ttl
  }

  /** One lock-protected step, or one failed fetch, of call `id`. */
  datatype Event =
    | Look(id: nat, kid: string, clock: nat)
    | FetchFails(id: nat)
    | Install(id: nat, keys: KeySet, url: string, clock: nat)
    | LookAgain(id: nat)

  predicate Enabled(s: State, e: Event) {
    match e
    case Look(id, kid, clock) => id !in s.calls
    case FetchFails(id) => id in s.calls && s.calls[id].Looked?
    case Install(id, keys, url, clock) => id in s.calls && s.calls[id].Looked? && |keys| != 0
    case LookAgain(id) => id in s.calls && s.calls[id].Refreshed?
  }

  function Apply(s: State, e: Event, ttl: int): (t: State)
    requires s.history != [] && Enabled(s, e)
    ensures s.history <= t.history
  {
    match e
    case Look(id, kid, clock) =>
      var found := Lookup(Present(s).keys, kid);
      s.(calls := s.calls[id := if found.Some? && IsFresh(Present(s), clock, ttl)
                                then Returned(kid, Now(s), Now(s), found) else Looked(kid, Now(s), found)])
    case FetchFails(id) =>
      var c := s.calls[id];
      s.(calls := s.calls[id := Returned(c.kid, c.since, Now(s), c.found)])
    case Install(id, keys, url, clock) =>
      var c := s.calls[id];
      State(s.history + [Cache(keys, Some(clock), url)], s.calls[id := Refreshed(c.kid, c.since, |s.history|)])
    case LookAgain(id) =>
      var c := s.calls[id];
      s.(calls := s.calls[id := Returned(c.kid, c.since, Now(s), Lookup(Present(s).keys, c.kid))])
  }

  predicate Legal(s: State, run: seq<Event>, ttl: int)
    requires s.history != []
    decreases |run|
  {
    run == [] || (Enabled(s, run[0]) && Legal(Apply(s, run[0], ttl), run[1..], ttl))
  }

  function After(s: State, run: seq<Event>, ttl: int): (t: State)
    requires s.history != [] && Legal(s, run, ttl)
    ensures s.history <= t.history
    decreases |run|
  {
    if run == [] then s else After(Apply(s, run[0], ttl), run[1..], ttl)
  }

  /** At some instant from `a` to `b` the cache answered `answer` for `kid`. */
  ghost predicate Answered(history: seq<Cache>, kid: string, answer: Answer, a: nat, b: nat) {
    exists i :: a <= i <= b && i < |history| && Lookup(history[i].keys, kid) == answer
  }

  ghost predicate CallOk(history: seq<Cache>, c: Call) {
    match c
    case Looked(kid, since, found) => since < |history| && Lookup(history[since].keys, kid) == found
    case Refreshed(kid, since, installed) => since < installed < |history|
    case Returned(kid, since, until, answer) =>
        since <= until < |history| && Answered(history, kid, answer, since, until)
  }

  ghost predicate Inv(s: State) {
    && s.history != [] && s.history[0].keys == map[]
    && (forall i :: 0 < i < |s.history| ==> s.history[i].keys != map[] && s.history[i].fetchedAt.Some?)
    && (forall id :: id in s.calls ==> CallOk(s.history, s.calls[id]))
  }

  lemma StepKeepsInv(s: State, e: Event, ttl: int)
    requires Inv(s) && Enabled(s, e)
    ensures Inv(Apply(s, e, ttl))
  {
  }

  lemma {:induction false} RunKeepsInv(s: State, run: seq<Event>, ttl: int)
    requires Inv(s) && Legal(s, run, ttl)
    ensures Inv(After(s, run, ttl))
    decreases |run|
  {
    hide Enabled, Apply, CallOk;
    if run != [] {
      StepKeepsInv(s, run[0], ttl);
      RunKeepsInv(Apply(s, run[0], ttl), run[1..], ttl);
    }
  }

  /**
   * Under any interleaving of calls and refreshes, a call answers with what the cache held for its kid at
   * some instant during that call: a key only if it was cached then, an error only if none was. And every
   * installed key set is non-empty.
   */
  lemma AnswersWereCached(url: string, run: seq<Event>, ttl: int, id: nat)
    requires Legal(Start(url), run, ttl)
    ensures var s := After(Start(url), run, ttl);
            && (id in s.calls && s.calls[id].Returned? ==>
                  var c := s.calls[id];
                  c.since <= c.until < |s.history| && Answered(s.history, c.kid, c.answer, c.since, c.until))
            && (forall i :: 0 < i < |s.history| ==> s.history[i].keys != map[])
  {
    hide Legal, After, Answered;
    RunKeepsInv(Start(url), run, ttl);
  }

  /** Only an install changes the cache: looking up and failing to fetch leave every content as it was. */
  lemma {:induction false} OnlyInstallsChange(s: State, run: seq<Event>, ttl: int)
    requires s.history != [] && Legal(s, run, ttl)
    ensures s.history <= After(s, run, ttl).history
    ensures |After(s, run, ttl).history| == |s.history| + Installs(run)
    decreases |run|
  {
    hide Enabled;
    if run != [] {
      OnlyInstallsChange(Apply(s, run[0], ttl), run[1..], ttl);
    }
  }

  function Installs(run: seq<Event>): nat {
    if run == [] then 0 else (if run[0].Install? then 1 else 0) + Installs(run[1..])
  }

  // ----- no call answers from an expired cache without fetching -----

  /** The call tried to fetch by itself. */
  predicate Fetches(run: seq<Event>, id: nat) {
    exists i :: 0 <= i < |run| && (run[i] == FetchFails(id) || (run[i].Install? && run[i].id == id))
  }

  /** At some step of the run the call looked up a kid that was cached, less than `ttl` after the cache was filled. */
  ghost predicate LooksInTime(s: State, run: seq<Event>, ttl: int, id: nat)
    requires s.history != [] && Legal(s, run, ttl)
    decreases |run|
  {
    run != [] && var c := s.history[|s.history| - 1];
    || (run[0].Look? && run[0].id == id && run[0].kid in c.keys && c.fetchedAt.Some?
        && run[0].clock - c.fetchedAt.value < ttl)
    || LooksInTime(Apply(s, run[0], ttl), run[1..], ttl, id)
  }

  /** A call that has returned is done, and one that has looked only moves on by a fetch of its own. */
  lemma {:induction false} CallRests(s: State, run: seq<Event>, ttl: int, id: nat)
    requires s.history != [] && Legal(s, run, ttl) && id in s.calls
    requires s.calls[id].Returned? || (s.calls[id].Looked? && !Fetches(run, id))
    ensures id in After(s, run, ttl).calls && After(s, run, ttl).calls[id] == s.calls[id]
    decreases |run|
  {
    if run != [] {
      FetchesLater(run, id);
      hide Fetches;
      CallRests(Apply(s, run[0], ttl), run[1..], ttl, id);
    }
  }

  lemma FetchesLater(run: seq<Event>, id: nat)
    requires run != []
    ensures Fetches(run, id)
      <==> run[0] == FetchFails(id) || (run[0].Install? && run[0].id == id) || Fetches(run[1..], id)
  {
    var rest := run[1..];
    assert forall i :: 0 <= i < |rest| ==> rest[i] == run[i + 1];
    if i :| 0 <= i < |run| && (run[i] == FetchFails(id) || (run[i].Install? && run[i].id == id)) {
      if i > 0 {
        assert rest[i - 1] == run[i];
      }
    }
  }

  /** Under any interleaving, a call that returned without a fetch of its own looked in time. */
  lemma {:induction false} UnfetchedLooksInTime(s: State, run: seq<Event>, ttl: int, id: nat)
    requires s.history != [] && Legal(s, run, ttl) && id !in s.calls && !Fetches(run, id)
    requires id in After(s, run, ttl).calls && After(s, run, ttl).calls[id].Returned?
    ensures LooksInTime(s, run, ttl, id)
    decreases |run|
  {
    if run != [] {
      var t := Apply(s, run[0], ttl);
      FetchesLater(run, id);
      hide Fetches;
      if id in t.calls {
        CallRests(t, run[1..], ttl, id);
      } else {
        UnfetchedLooksInTime(t, run[1..], ttl, id);
      }
    }
  }

  // ----- the provider object, with one caller -----

  class Provider {
    const issuer: string
    const ttl: int
    var keys: KeySet
    var fetchedAt: Option<nat>
    var jwksURL: string

    ghost function Held(): Cache
      reads this
    {
      Cache(keys, fetchedAt, jwksURL)
    }

    /** A non-positive lifetime falls back to fifteen minutes. */
    constructor (issuer: string, jwksURL: string, ttl: int)
      ensures Held() == Cache(map[], None, jwksURL) && this.ttl > 0 && (ttl > 0 ==> this.ttl == ttl)
          && this.issuer == issuer
    {
      this.issuer, this.ttl := issuer, if ttl <= 0 then 15 * 60 else ttl;
      this.jwksURL, keys, fetchedAt := jwksURL, map[], None;
    }

    /**
     * Fetches and installs a key set. `discovered` is what discovery would answer, None for a failure, and
     * `published` what the endpoint answers, None for a failure.
     */
    method Refresh(discovered: Option<string>, published: Option<seq<Jwk>>, clock: nat) returns (ok: bool)
      requires published.Some? ==> forall j :: j in published.value && j.exponent.Some? ==> AreBytes(j.exponent.value)
      modifies this
      ensures ok == ((Endpoint(old(jwksURL), discovered).Some?) && published.Some? && |Keys(published.value)| != 0)
      ensures !ok ==> Held() == old(Held())
      ensures ok ==> Held() == Cache(Keys(published.value), Some(clock), Endpoint(old(jwksURL), discovered).value)
    {
      var url := jwksURL;
      if url == "" {
        if discovered.None? || discovered.value == "" {
          return false;
        }
        url := discovered.value;
      }
      if published.None? {
        return false;
      }
      var fetched := ReadKeys(published.value);
      if |fetched| == 0 {
        return false;
      }
      keys, fetchedAt, jwksURL := fetched, Some(clock), url;
      ok := true;
    }

    method KeyByID(kid: string, clock: nat, discovered: Option<string>, published: Option<seq<Jwk>>)
        returns (answer: Answer)
      requires published.Some? ==> forall j :: j in published.value && j.exponent.Some? ==> AreBytes(j.exponent.value)
      modifies this
      ensures var s := State([old(Held())], map[]);
              exists run :: Legal(s, run, ttl) && var t := After(s, run, ttl);
                0 in t.calls && t.calls[0] == Returned(kid, 0, |t.history| - 1, answer)
                && t.history[|t.history| - 1] == Held()
      ensures kid in old(keys) && old(fetchedAt).Some? && clock - old(fetchedAt).value < ttl ==>
        answer == Some(old(keys)[kid]) && keys == old(keys) && fetchedAt == old(fetchedAt) && jwksURL == old(jwksURL)
      ensures !(kid in old(keys) && old(fetchedAt).Some? && clock - old(fetchedAt).value < ttl) ==>
        if (old(jwksURL) != "" || (discovered.Some? && discovered.value != "")) && published.Some?
           && Keys(published.value) != map[]
        then
          && keys == Keys(published.value) && fetchedAt == Some(clock)
          && jwksURL == (if old(jwksURL) != "" then old(jwksURL) else discovered.value)
          && answer == if kid in Keys(published.value) then Some(Keys(published.value)[kid]) else None
        else
          && keys == old(keys) && fetchedAt == old(fetchedAt) && jwksURL == old(jwksURL)
          && answer == if kid in old(keys) then Some(old(keys)[kid]) else None
    {
      hide Legal, After, Keys;
      ghost var s := State([Held()], map[]);
      var found := Lookup(keys, kid);
      var fresh_ := fetchedAt.Some? && clock - fetchedAt.value < ttl;
      ghost var look := Look(0, kid, clock);
      ghost var s1 := Apply(s, look, ttl);
      if found.Some? && fresh_ {
        OneStep(s, look, ttl);
        return found;
      }
      var ok := Refresh(discovered, published, clock);
      if !ok {
        TwoSteps(s, look, FetchFails(0), ttl);
        return found;
      }
      answer := Lookup(keys, kid);
      ThreeSteps(s, look, Install(0, keys, jwksURL, clock), LookAgain(0), ttl);
    }
  }

  function Endpoint(url: string, discovered: Option<string>): Option<string> {
    if url != "" then Some(url) else if discovered.Some? && discovered.value != "" then discovered else None
  }

  lemma OneStep(s: State, e: Event, ttl: int)
    requires s.history != [] && Enabled(s, e)
    ensures Legal(s, [e], ttl) && After(s, [e], ttl) == Apply(s, e, ttl)
  {
  }

  lemma TwoSteps(s: State, e: Event, f: Event, ttl: int)
    requires s.history != [] && Enabled(s, e) && Enabled(Apply(s, e, ttl), f)
    ensures Legal(s, [e, f], ttl) && After(s, [e, f], ttl) == Apply(Apply(s, e, ttl), f, ttl)
  {
    OneStep(Apply(s, e, ttl), f, ttl);
    assert [e, f][1..] == [f];
  }

  lemma ThreeSteps(s: State, e: Event, f: Event, g: Event, ttl: int)
    requires s.history != [] && Enabled(s, e) && Enabled(Apply(s, e, ttl), f)
        && Enabled(Apply(Apply(s, e, ttl), f, ttl), g)
    ensures Legal(s, [e, f, g], ttl) && After(s, [e, f, g], ttl) == Apply(Apply(Apply(s, e, ttl), f, ttl), g, ttl)
  {
    TwoSteps(Apply(s, e, ttl), f, g, ttl);
    assert [e, f, g][1..] == [f, g];
  }
}
