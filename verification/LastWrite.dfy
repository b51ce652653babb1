/** Last write per key: the map a plain observer holds after seeing a log of keyed writes in order.
  * The publisher's retained table, the replay checkpoints and the dashboard's store are all
  * faster ways to reach this map, so their theorems are stated against it.
  */
module LastWrite {

  ghost function Latest<U, K, V>(key: U -> K, val: U -> V, log: seq<U>): map<K, V>
  {
    if log == [] then
      map[]
    else
      var last := log[|log| - 1];
      Latest(key, val, log[..|log| - 1])[key(last) := val(last)]
  }

  lemma LatestSnoc<U, K, V>(key: U -> K, val: U -> V, log: seq<U>, u: U)
    ensures Latest(key, val, log + [u]) == Latest(key, val, log)[key(u) := val(u)]
  {
    assert (log + [u])[..|log + [u]| - 1] == log;
  }

  /** A log seen after another one overrides it key by key. */
  lemma {:induction false} LatestConcat<U, K, V>(key: U -> K, val: U -> V, a: seq<U>, b: seq<U>)
    ensures Latest(key, val, a + b) == Latest(key, val, a) + Latest(key, val, b)
  {
    if b == [] {
      assert a + b == a;
    } else {
      var n := |b| - 1;
      assert (a + b)[..|a + b| - 1] == a + b[..n];
      LatestConcat(key, val, a, b[..n]);
    }
  }

  /** The map holds exactly the keys written, each with the value of its last write. */
  lemma {:induction false} LatestIsLastWrite<U, K, V>(key: U -> K, val: U -> V, log: seq<U>, i: nat)
    requires i < |log|
    requires forall j :: i < j < |log| ==> key(log[j]) != key(log[i])
    ensures key(log[i]) in Latest(key, val, log)
    ensures Latest(key, val, log)[key(log[i])] == val(log[i])
  {
    if i < |log| - 1 {
      LatestIsLastWrite(key, val, log[..|log| - 1], i);
    }
  }

  lemma {:induction false} LatestKeys<U, K, V>(key: U -> K, val: U -> V, log: seq<U>, k: K)
    ensures k in Latest(key, val, log) <==> exists i :: 0 <= i < |log| && key(log[i]) == k
  {
    if log != [] {
      var n := |log| - 1;
      LatestKeys(key, val, log[..n], k);
      if i :| 0 <= i < |log| && key(log[i]) == k {
        if i < n {
          assert log[..n][i] == log[i];
        }
      }
      if j :| 0 <= j < |log[..n]| && key(log[..n][j]) == k {
        assert key(log[j]) == k;
      }
    }
  }

  // ---------------------------------------------------------------- a map seen through another form

  /** t shows r as it can at best be seen when keys and values are changed on the way by kf and vf: every entry
    * in its changed form, and nothing else.
    */
  ghost predicate Seen<K, V, L, W>(kf: K -> L, vf: V -> W, t: map<L, W>, r: map<K, V>)
  {
    && (forall k :: k in r ==> kf(k) in t && t[kf(k)] == vf(r[k]))
    && (forall c :: c in t ==> exists k :: k in r && c == kf(k))
  }

  /** What is seen in any case: under each changed key the value of one of the keys it stands for. */
  ghost predicate SeenSome<K, V, L, W>(kf: K -> L, vf: V -> W, t: map<L, W>, r: map<K, V>)
  {
    && (forall k :: k in r ==> kf(k) in t)
    && (forall c :: c in t ==> exists k :: k in r && c == kf(k) && t[c] == vf(r[k]))
  }

  /** Keys that end up the same have values that do. */
  ghost predicate Alike<K, V, L, W>(kf: K -> L, vf: V -> W, r: map<K, V>)
  {
    forall a, b :: a in r && b in r && kf(a) == kf(b) ==> vf(r[a]) == vf(r[b])
  }

  lemma SeenExactly<K, V, L, W>(kf: K -> L, vf: V -> W, t: map<L, W>, r: map<K, V>)
    requires SeenSome(kf, vf, t, r)
    ensures Seen(kf, vf, t, r) <==> Alike(kf, vf, r)
  {
  }

  lemma SeenSomeSnoc<K, V, L, W>(kf: K -> L, vf: V -> W, t: map<L, W>, r: map<K, V>, key: K, value: V)
    requires SeenSome(kf, vf, t, r)
    ensures SeenSome(kf, vf, t[kf(key) := vf(value)], r[key := value])
  {
    var t', r' := t[kf(key) := vf(value)], r[key := value];
    forall c | c in t'
      ensures exists k :: k in r' && c == kf(k) && t'[c] == vf(r'[k])
    {
      if c == kf(key) {
        assert key in r';
      } else {
        var k :| k in r && c == kf(k) && t[c] == vf(r[k]);
        assert k in r';
      }
    }
  }

  /** Seeing a log entry by entry in its changed form shows, for each changed key, one of the last writes. */
  lemma {:induction false} LatestSeenSome<U, X, K, V, L, W>(key: U -> K, val: U -> V, log: seq<U>,
                                                           keySeen: X -> L, valSeen: X -> W, seen: seq<X>,
                                                           kf: K -> L, vf: V -> W)
    requires |seen| == |log|
    requires forall i :: 0 <= i < |log| ==> keySeen(seen[i]) == kf(key(log[i])) && valSeen(seen[i]) == vf(val(log[i]))
    ensures SeenSome(kf, vf, Latest(keySeen, valSeen, seen), Latest(key, val, log))
  {
    hide SeenSome;
    if log == [] {
      NothingSeen(kf, vf);
    } else {
      var n := |log| - 1;
      LatestSeenSome(key, val, log[..n], keySeen, valSeen, seen[..n], kf, vf);
      SeenSomeSnoc(kf, vf, Latest(keySeen, valSeen, seen[..n]), Latest(key, val, log[..n]), key(log[n]), val(log[n]));
    }
  }

  lemma NothingSeen<K, V, L, W>(kf: K -> L, vf: V -> W)
    ensures SeenSome(kf, vf, map[], map[])
  {
  }

  /** So the whole log is shown exactly when keys that end up the same have last values that do. */
  lemma LatestSeenExactly<U, X, K, V, L, W>(key: U -> K, val: U -> V, log: seq<U>,
                                           keySeen: X -> L, valSeen: X -> W, seen: seq<X>, kf: K -> L, vf: V -> W)
    requires |seen| == |log|
    requires forall i :: 0 <= i < |log| ==> keySeen(seen[i]) == kf(key(log[i])) && valSeen(seen[i]) == vf(val(log[i]))
    ensures Seen(kf, vf, Latest(keySeen, valSeen, seen), Latest(key, val, log))
      <==> Alike(kf, vf, Latest(key, val, log))
  {
    LatestSeenSome(key, val, log, keySeen, valSeen, seen, kf, vf);
    SeenExactly(kf, vf, Latest(keySeen, valSeen, seen), Latest(key, val, log));
  }
}
