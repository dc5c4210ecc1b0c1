/** The signing-key cache of services/keymaterial/key-material.go against a fresh scan of the keys. */
module KeyCache {
  import opened Wrappers

  /** A configured signing key; times are instants on one axis. */
  datatype Key = Key(id: string, notBefore: int, notAfter: int, publicJwk: string)

  /** time.Unix(1<<62, 0): the boundary when none is left. */
  const MAX_TIME: int := 0x4000_0000_0000_0000

  predicate IsActive(key: Key, now: int)
  {
    now > key.notBefore && now < key.notAfter
  }

  /** The active keys in configuration order. */
  function ActiveKeys(keys: seq<Key>, now: int): seq<Key>
  {
    if keys == [] then []
    else ActiveKeys(keys[..|keys| - 1], now) + (if IsActive(keys[|keys| - 1], now) then [keys[|keys| - 1]] else [])
  }

  function Jwks(keys: seq<Key>): seq<string>
  {
    seq(|keys|, i requires 0 <= i < |keys| => keys[i].publicJwk)
  }

  datatype Answer = Answer(signingKey: Key, decrypted: string, jwks: seq<string>)

  /** A scan without a cache: the last active key signs, all active keys are published, none active is an error. */
  function Scan(keys: seq<Key>, decrypt: Key -> Option<string>, now: int): Option<Answer>
  {
    var active := ActiveKeys(keys, now);
    if active == [] || decrypt(active[|active| - 1]).None? then None
    else Some(Answer(active[|active| - 1], decrypt(active[|active| - 1]).value, Jwks(active)))
  }

  /** The last active key, by its place in the configuration. */
  ghost predicate IsLastActive(keys: seq<Key>, now: int, i: nat)
  {
    i < |keys| && keys[i].notBefore < now < keys[i].notAfter &&
    forall j :: i < j < |keys| ==> !(keys[j].notBefore < now < keys[j].notAfter)
  }

  /** The active keys, by their places. */
  ghost predicate ArePlaces(keys: seq<Key>, now: int, places: seq<nat>)
  {
    && (forall a, b :: 0 <= a < b < |places| ==> places[a] < places[b])
    && forall i: nat :: i in places <==> i < |keys| && keys[i].notBefore < now < keys[i].notAfter
  }

  lemma {:induction false} ActivePlaces(keys: seq<Key>, now: int) returns (places: seq<nat>)
    ensures ArePlaces(keys, now, places) && |places| == |ActiveKeys(keys, now)|
    ensures forall a :: 0 <= a < |places| ==> places[a] < |keys| && ActiveKeys(keys, now)[a] == keys[places[a]]
  {
    if keys == [] {
      places := [];
    } else {
      var n := |keys| - 1;
      places := ActivePlaces(keys[..n], now);
      forall a | 0 <= a < |places| ensures places[a] < n && keys[places[a]] == keys[..n][places[a]] {
        assert places[a] in places;
      }
      if IsActive(keys[n], now) { places := places + [n]; }
    }
  }

  /** The last place is that of the last active key. */
  lemma LastPlace(keys: seq<Key>, now: int, places: seq<nat>)
    requires ArePlaces(keys, now, places)
    ensures places == [] ==> forall i :: 0 <= i < |keys| ==> !IsActive(keys[i], now)
    ensures places != [] ==> IsLastActive(keys, now, places[|places| - 1])
  {
    if places == [] {
      forall i | 0 <= i < |keys| ensures !IsActive(keys[i], now) { assert i !in places; }
    } else {
      var i := places[|places| - 1];
      assert i in places;
      forall j | i < j < |keys| ensures !(keys[j].notBefore < now < keys[j].notAfter) { assert j !in places; }
    }
  }

  /** The key at place i signs: it is the last active one, and the answer holds its decrypted form. */
  ghost predicate Signs(keys: seq<Key>, decrypt: Key -> Option<string>, now: int, i: nat, answer: Answer)
  {
    IsLastActive(keys, now, i) && answer.signingKey == keys[i] && decrypt(keys[i]) == Some(answer.decrypted)
  }

  /** The keys at these places are published, in their order. */
  ghost predicate Publishes(keys: seq<Key>, places: seq<nat>, jwks: seq<string>)
  {
    |jwks| == |places| && forall a :: 0 <= a < |places| ==> places[a] < |keys| && jwks[a] == keys[places[a]].publicJwk
  }

  /**
   The scan fails exactly when no key is active or the last active one does not
   decrypt. Otherwise that key signs, and all active keys are published in order.
   */
  lemma ScanIs(keys: seq<Key>, decrypt: Key -> Option<string>, now: int) returns (i: nat, places: seq<nat>)
    ensures ArePlaces(keys, now, places)
    ensures if places == [] then Scan(keys, decrypt, now).None?
            else IsLastActive(keys, now, i) && (Scan(keys, decrypt, now).None? <==> decrypt(keys[i]).None?)
    ensures var answer := Scan(keys, decrypt, now);
            answer.Some? ==> Signs(keys, decrypt, now, i, answer.value) && Publishes(keys, places, answer.value.jwks)
  {
    places := ActivePlaces(keys, now);
    LastPlace(keys, now, places);
    i := if places == [] then 0 else places[|places| - 1];
  }

  /** Without a boundary ahead the cache is kept until the second 1<<62 of Unix time. */
  lemma NoBoundaryLeft(now: int, next: int)
    ensures IsNextBoundary([], now, next) <==> next == 4611686018427387904
  {
  }

  /** A NotBefore or NotAfter of some key. */
  predicate IsBoundary(keys: seq<Key>, t: int)
  {
    exists i :: 0 <= i < |keys| && (keys[i].notBefore == t || keys[i].notAfter == t)
  }

  /** next is the earliest boundary at or after now, or MAX_TIME if that comes first. */
  ghost predicate IsNextBoundary(keys: seq<Key>, now: int, next: int)
  {
    && next <= MAX_TIME && (next == MAX_TIME || (now <= next && IsBoundary(keys, next)))
    && forall t :: IsBoundary(keys, t) && now <= t ==> next <= t
  }

  method NextKeyBoundary(keys: seq<Key>, now: int) returns (next: int)
    ensures IsNextBoundary(keys, now, next)
  {
    next := MAX_TIME;
    for i := 0 to |keys|
      invariant IsNextBoundary(keys[..i], now, next)
    {
      ghost var before := next;
      if keys[i].notBefore >= now && keys[i].notBefore < next { next := keys[i].notBefore; }
      if keys[i].notAfter >= now && keys[i].notAfter < next { next := keys[i].notAfter; }
      BoundarySnoc(keys, i, now, before, next);
    }
    assert keys[..|keys|] == keys;
  }

  lemma BoundarySnoc(keys: seq<Key>, i: nat, now: int, before: int, next: int)
    requires i < |keys| && IsNextBoundary(keys[..i], now, before) && next <= before
    requires next == before || (now <= next && (keys[i].notBefore == next || keys[i].notAfter == next))
    requires now <= keys[i].notBefore ==> next <= keys[i].notBefore
    requires now <= keys[i].notAfter ==> next <= keys[i].notAfter
    ensures IsNextBoundary(keys[..i + 1], now, next)
  {
    var ks, ks' := keys[..i], keys[..i + 1];
    forall t ensures IsBoundary(ks', t) <==> IsBoundary(ks, t) || keys[i].notBefore == t || keys[i].notAfter == t {
      if IsBoundary(ks, t) {
        var j :| 0 <= j < |ks| && (ks[j].notBefore == t || ks[j].notAfter == t);
        assert ks'[j] == ks[j];
      }
      if IsBoundary(ks', t) {
        var j :| 0 <= j < |ks'| && (ks'[j].notBefore == t || ks'[j].notAfter == t);
        if j < i { assert ks[j] == ks'[j]; }
      }
      assert ks'[i] == keys[i];
    }
  }

  // ----- when the active keys change -----

  /** The keys whose activity at a differs from that at b. */
  lemma {:induction false} SameActive(keys: seq<Key>, a: int, b: int)
    requires forall i :: 0 <= i < |keys| ==> IsActive(keys[i], a) == IsActive(keys[i], b)
    ensures ActiveKeys(keys, a) == ActiveKeys(keys, b)
  {
    if keys != [] { SameActive(keys[..|keys| - 1], a, b); }
  }

  /** Strictly before the next boundary the scan gives what it gave when the boundary was computed. */
  lemma UnchangedBeforeBoundary(keys: seq<Key>, decrypt: Key -> Option<string>, loaded: int, now: int, next: int)
    requires IsNextBoundary(keys, loaded, next) && loaded <= now < next
    ensures Scan(keys, decrypt, now) == Scan(keys, decrypt, loaded)
  {
    forall i | 0 <= i < |keys| ensures IsActive(keys[i], loaded) == IsActive(keys[i], now) {
      assert IsBoundary(keys, keys[i].notBefore) && IsBoundary(keys, keys[i].notAfter);
    }
    SameActive(keys, loaded, now);
  }

  /** A key stops being active exactly at t. */
  predicate ExpiresAt(keys: seq<Key>, t: int)
  {
    exists i :: 0 <= i < |keys| && keys[i].notBefore < t && keys[i].notAfter == t
  }

  lemma {:induction false} ActiveCount(keys: seq<Key>, a: int, b: int)
    requires forall i :: 0 <= i < |keys| ==> IsActive(keys[i], b) ==> IsActive(keys[i], a)
    ensures |ActiveKeys(keys, b)| <= |ActiveKeys(keys, a)|
    ensures (exists i :: 0 <= i < |keys| && IsActive(keys[i], a) && !IsActive(keys[i], b)) ==>
            |ActiveKeys(keys, b)| < |ActiveKeys(keys, a)|
  {
    if keys != [] { ActiveCount(keys[..|keys| - 1], a, b); }
  }

  /** At the boundary itself the cached keys are still right if and only if no key expires there. */
  lemma BoundaryInstant(keys: seq<Key>, decrypt: Key -> Option<string>, loaded: int, next: int)
    requires IsNextBoundary(keys, loaded, next) && loaded < next
    ensures ActiveKeys(keys, next) == ActiveKeys(keys, loaded) <==> !ExpiresAt(keys, next)
    ensures Scan(keys, decrypt, loaded).Some? ==>
            (Scan(keys, decrypt, next) == Scan(keys, decrypt, loaded) <==> !ExpiresAt(keys, next))
  {
    forall i | 0 <= i < |keys|
      ensures IsActive(keys[i], next) ==> IsActive(keys[i], loaded)
      ensures IsActive(keys[i], loaded) && !IsActive(keys[i], next) <==>
              keys[i].notBefore < next && keys[i].notAfter == next
    {
      assert IsBoundary(keys, keys[i].notBefore) && IsBoundary(keys, keys[i].notAfter);
    }
    ActiveCount(keys, loaded, next);
    if !ExpiresAt(keys, next) { SameActive(keys, loaded, next); }
    if ExpiresAt(keys, next) {
      var i :| 0 <= i < |keys| && keys[i].notBefore < next && keys[i].notAfter == next;
      assert IsActive(keys[i], loaded) && !IsActive(keys[i], next);
      if Scan(keys, decrypt, loaded).Some? && Scan(keys, decrypt, next).Some? {
        assert |Scan(keys, decrypt, next).value.jwks| < |Scan(keys, decrypt, loaded).value.jwks|;
      }
    }
  }

  const BRIEF := Key("brief", 0, 10, "jwk")

  /** The concrete failure: a key loaded at 5 is still returned at 10, when it expires and a scan finds none. */
  lemma ExpiryIsMissed(decrypt: Key -> Option<string>)
    requires decrypt(BRIEF).Some?
    ensures IsNextBoundary([BRIEF], 5, 10) && Scan([BRIEF], decrypt, 5).Some? && Scan([BRIEF], decrypt, 10).None?
  {
    assert [BRIEF][0].notAfter == 10 && IsBoundary([BRIEF], 10);
    assert ActiveKeys([BRIEF], 5) == ActiveKeys([BRIEF][..0], 5) + [BRIEF];
    assert ActiveKeys([BRIEF], 10) == ActiveKeys([BRIEF][..0], 10) + [];
  }

  // ----- the service -----

  class Service {
    const keys: seq<Key>
    const decrypt: Key -> Option<string>
    var signingKey: Option<(Key, string)>
    var jwks: seq<string>
    var nextFetchTime: int
    ghost var loadedAt: int

    /** The cache holds the scan of the moment it was filled, and the boundary that ends it. */
    ghost predicate Valid()
      reads this
    {
      signingKey.Some? ==>
        && Scan(keys, decrypt, loadedAt) == Some(Answer(signingKey.value.0, signingKey.value.1, jwks))
        && IsNextBoundary(keys, loadedAt, nextFetchTime)
    }

    constructor (keys: seq<Key>, decrypt: Key -> Option<string>)
      ensures Valid() && signingKey.None? && this.keys == keys && this.decrypt == decrypt
    {
      this.keys, this.decrypt := keys, decrypt;
      signingKey, jwks, nextFetchTime, loadedAt := None, [], 0, 0;
    }

    /** _reloadKeys: rebuilds when nothing is cached or the boundary has passed; an error leaves the cache as it was. */
    method ReloadKeys(now: int) returns (ok: bool)
      requires Valid()
      modifies this
      ensures Valid()
      ensures var due := old(signingKey).None? || now > old(nextFetchTime);
              && (ok <==> !due || Scan(keys, decrypt, now).Some?)
              && (due && ok ==> loadedAt == now && signingKey.Some?)
              && (!due || !ok ==> signingKey == old(signingKey) && jwks == old(jwks))
              && (!due || !ok ==> nextFetchTime == old(nextFetchTime) && loadedAt == old(loadedAt))
    {
      if signingKey.Some? && now <= nextFetchTime { return true; }
      var active: Option<Key> := None;
      var published := [];
      for i := 0 to |keys|
        invariant published == Jwks(ActiveKeys(keys[..i], now))
        invariant var ks := ActiveKeys(keys[..i], now); active == if ks == [] then None else Some(ks[|ks| - 1])
      {
        assert keys[..i + 1][..i] == keys[..i];
        if IsActive(keys[i], now) {
          active := Some(keys[i]);
          published := published + [keys[i].publicJwk];
        }
      }
      assert keys[..|keys|] == keys;
      if active.None? { return false; }
      var decrypted := decrypt(active.value);
      if decrypted.None? { return false; }
      signingKey, jwks := Some((active.value, decrypted.value)), published;
      nextFetchTime := NextKeyBoundary(keys, now);
      loadedAt := now;
      return true;
    }

    /**
     The answer is that of a fresh scan at now, or at the time of a load by a call
     that read the clock later, except exactly when an older cache is used at the
     instant a key expires.
     */
    method GetKeys(now: int) returns (answer: Option<Answer>)
      requires Valid()
      modifies this
      ensures Valid()
      ensures var due := old(signingKey).None? || now > old(nextFetchTime);
              var at := if due || now >= old(loadedAt) then now else old(loadedAt);
              answer == Scan(keys, decrypt, at) <==>
              !(old(signingKey).Some? && old(loadedAt) < now == old(nextFetchTime) && ExpiresAt(keys, now))
    {
      var ok := ReloadKeys(now);
      if !ok { return None; }
      answer := Some(Answer(signingKey.value.0, signingKey.value.1, jwks));
      if loadedAt < now {
        if now < nextFetchTime {
          UnchangedBeforeBoundary(keys, decrypt, loadedAt, now, nextFetchTime);
        } else {
          BoundaryInstant(keys, decrypt, loadedAt, nextFetchTime);
        }
      }
    }
  }
}
