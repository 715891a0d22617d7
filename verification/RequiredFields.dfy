/** pb_decode accepts a message only if it has the required fields, read off the bytes. */
module RequiredFields {
  import opened Bits
  import opened Schema
  import opened DecodeSpec
  import opened Merge

  /** The REQUIRED fields before field `k`. */
  function Earlier(F: Fields, k: nat): set<nat>
    requires k <= |F|
  {
    set i: nat | i < k && F[i].ht == REQUIRED
  }

  lemma {:induction false} EarlierCounts(F: Fields, k: nat)
    requires k <= |F|
    ensures |Earlier(F, k)| == RequiredBefore(F, k)
  {
    if k > 0 {
      EarlierCounts(F, k - 1);
      assert Earlier(F, k) == Earlier(F, k - 1) + if F[k - 1].ht == REQUIRED then {k - 1} else {};
    } else {
      assert Earlier(F, 0) == {};
    }
  }

  /** One of the first 64 REQUIRED fields. */
  predicate Tracked(F: Fields, k: nat)
  {
    k < |F| && F[k].ht == REQUIRED && |Earlier(F, k)| < 64
  }

  /** Different required fields have different numbers, and no number is left out. */
  lemma {:induction false} NumbersDiffer(F: Fields, i: nat, j: nat)
    requires i < j <= |F| && F[i].ht == REQUIRED
    ensures RequiredBefore(F, i) < RequiredBefore(F, j)
    decreases j
  {
    if i < j - 1 {
      NumbersDiffer(F, i, j - 1);
    }
  }

  lemma {:induction false} NumberTaken(F: Fields, j: nat, r: nat) returns (k: nat)
    requires j <= |F| && r < RequiredBefore(F, j)
    ensures k < j && F[k].ht == REQUIRED && RequiredBefore(F, k) == r
  {
    if r < RequiredBefore(F, j - 1) {
      k := NumberTaken(F, j - 1, r);
    } else {
      k := j - 1;
    }
  }

  /** What the loop has noted: the number of each tracked field that has come. */
  lemma {:induction false} SeenAreHits(env: Env, id: nat, p: Progress, s: Bytes, k: nat)
    requires id < |env| && |p.slots| == |env[id]| && k < |env[id]| && DecFields(env, id, p, s).Ok?
    requires Tracked(env[id], k)
    ensures RequiredBefore(env[id], k) in DecFields(env, id, p, s).v.p.seen
            <==> RequiredBefore(env[id], k) in p.seen || k in Hits(env[id], s)
    decreases |s|
  {
    hide Turn, Classify, Hits, RequiredBefore, Earlier;
    if s == [] {
      NothingHit(env[id]);
    } else {
      var r := Turn(env, id, p, s);
      HitsTurn(env, id, p, s);
      if r.v.Some? {
        SeenTurnIs(env, id, p, s, k);
        SeenAreHits(env, id, r.v.value, s[r.n..], k);
      }
    }
  }

  lemma NothingHit(F: Fields)
    ensures Hits(F, []) == []
  {
  }

  lemma SeenTurnIs(env: Env, id: nat, p: Progress, s: Bytes, k: nat)
    requires id < |env| && |p.slots| == |env[id]| && k < |env[id]|
    requires Turn(env, id, p, s).Ok? && Turn(env, id, p, s).v.Some? && Tracked(env[id], k)
    ensures RequiredBefore(env[id], k) in Turn(env, id, p, s).v.value.seen
            <==> RequiredBefore(env[id], k) in p.seen || (Classify(env[id], s).Hit? && Classify(env[id], s).k == k)
  {
    hide Turn, Classify, DecField, RequiredBefore, Earlier;
    var F, h := env[id], Classify(env[id], s);
    EarlierCounts(F, k);
    TurnIs(env, id, p, s);
    if h.Hit? {
      var e := Enter(F, p, h.k).value;
      FieldKeepsFixed(env, id, e, h.k, h.wt, s[h.n..]);
      if F[h.k].ht == REQUIRED && h.k != k {
        if h.k < k {
          NumbersDiffer(F, h.k, k);
        } else {
          NumbersDiffer(F, k, h.k);
        }
      }
    }
  }

  /** Once the main loop has succeeded and no fixed-count array is partly filled, pb_decode_noinit succeeds
      if and only if each of the first 64 REQUIRED fields has its tag among the records of the input. */
  lemma RequiredPresent(env: Env, id: nat, slots: seq<Slot>, s: Bytes)
    requires id < |env| && |slots| == |env[id]| && DecFields(env, id, Start(slots), s).Ok?
    requires FixedDone(env[id], DecFields(env, id, Start(slots), s).v.p)
    ensures DecMsg(env, id, slots, s).Ok? <==> forall k :: Tracked(env[id], k) ==> k in Hits(env[id], s)
  {
    hide DecFields, Hits, RequiredBefore, Earlier;
    var F, seen := env[id], DecFields(env, id, Start(slots), s).v.p.seen;
    forall k | Tracked(F, k)
      ensures RequiredBefore(F, k) in seen <==> k in Hits(F, s)
    {
      SeenAreHits(env, id, Start(slots), s, k);
    }
    if forall k :: Tracked(F, k) ==> k in Hits(F, s) {
      forall r: nat | r < RequiredBefore(F, |F|) && r < 64
        ensures r in seen
      {
        var k := NumberTaken(F, |F|, r);
        EarlierCounts(F, k);
        assert Tracked(F, k);
      }
    } else {
      var k :| Tracked(F, k) && k !in Hits(F, s);
      EarlierCounts(F, k);
      NumbersDiffer(F, k, |F|);
      assert RequiredBefore(F, k) !in seen;
    }
  }
}
