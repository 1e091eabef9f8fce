/** The particles of the pointer trail: how one input event creates a batch of
    them, and what one animation frame does to the whole collection. Times are
    integer milliseconds (what Date.now() returns); positions, radii and
    opacities are exact reals. */
module Particles {

  /** Particles pushed by one call of addParticles. */
  const BATCH_SIZE: nat := 5
  /** The base radius `particleSize`. */
  const PARTICLE_SIZE: real := 4.0
  /** A particle older than this many seconds is removed. */
  const LIFETIME_SECONDS: real := 2.0
  /** Opacity falls linearly from 1 by age / FADE_SECONDS. */
  const FADE_SECONDS: real := 2.0
  /** Milliseconds per second, the divisor that turns a clock difference into an age. */
  const MS_PER_SECOND: real := 1000.0

  /** One element of the `particles` array. */
  datatype Particle = Particle(x: real, y: real, size: real, alpha: real, createdAt: int)

  /** The three results of Math.random() one particle consumes, in the order the
      object literal evaluates them: x jitter, y jitter, radius jitter. */
  datatype Draw = Draw(rx: real, ry: real, rs: real)

  /** What Math.random() guarantees of each result. */
  predicate IsUnitRandom(r: real) {
    0.0 <= r < 1.0
  }

  predicate ValidDraw(d: Draw) {
    IsUnitRandom(d.rx) && IsUnitRandom(d.ry) && IsUnitRandom(d.rs)
  }

  predicate ValidDraws(draws: seq<Draw>) {
    forall k :: 0 <= k < |draws| ==> ValidDraw(draws[k])
  }

  /** The region a particle emitted at anchor (x, y) at time `now` lies in:
      within 5 of the anchor on each axis, a radius in [4, 6), fully opaque,
      stamped with the creation time. */
  predicate InEmitBounds(p: Particle, x: real, y: real, now: int) {
    && x - 5.0 <= p.x < x + 5.0
    && y - 5.0 <= p.y < y + 5.0
    && 4.0 <= p.size < 6.0
    && p.alpha == 1.0
    && p.createdAt == now
  }

  /** The object literal pushed by one iteration of addParticles. */
  function NewParticle(x: real, y: real, now: int, d: Draw): (p: Particle)
    ensures ValidDraw(d) ==> InEmitBounds(p, x, y, now)
  {
    Particle(x + (d.rx - 0.5) * 10.0, y + (d.ry - 0.5) * 10.0,
             PARTICLE_SIZE + d.rs * 2.0, 1.0, now)
  }

  /** The emission bounds are exact: every particle in them is produced by some
      admissible triple of random draws. */
  lemma EmitBoundsReachable(p: Particle, x: real, y: real, now: int)
    requires InEmitBounds(p, x, y, now)
    ensures exists d :: ValidDraw(d) && NewParticle(x, y, now, d) == p
  {
    var d := Draw((p.x - x) / 10.0 + 0.5, (p.y - y) / 10.0 + 0.5, (p.size - PARTICLE_SIZE) / 2.0);
    assert ValidDraw(d);
    assert NewParticle(x, y, now, d) == p;
  }

  /** The particles one addParticles call appends, in push order, one per draw. */
  function Batch(x: real, y: real, now: int, draws: seq<Draw>): (b: seq<Particle>)
    ensures |b| == |draws|
    ensures forall k :: 0 <= k < |b| ==> b[k] == NewParticle(x, y, now, draws[k])
    ensures ValidDraws(draws) ==> forall k :: 0 <= k < |b| ==> InEmitBounds(b[k], x, y, now)
    decreases |draws|
  {
    if draws == [] then []
    else Batch(x, y, now, draws[..|draws| - 1]) + [NewParticle(x, y, now, draws[|draws| - 1])]
  }

  /** Age in seconds at time `now`, `(now - p.createdAt) / 1000`. */
  function Age(p: Particle, now: int): real {
    (now - p.createdAt) as real / MS_PER_SECOND
  }

  /** The removal test `age > 2`, equivalently more than 2000 ms since creation. */
  predicate Expired(p: Particle, now: int): (e: bool)
    ensures e <==> now - p.createdAt > 2000
  {
    Age(p, now) > LIFETIME_SECONDS
  }

  /** A surviving particle after `p.alpha = 1 - (age / 2)`. */
  function Faded(p: Particle, now: int): (q: Particle)
    ensures q.x == p.x && q.y == p.y && q.size == p.size && q.createdAt == p.createdAt
    ensures Expired(q, now) == Expired(p, now)
    ensures now == p.createdAt ==> q.alpha == 1.0
    ensures !Expired(p, now) && p.createdAt <= now ==> 0.0 <= q.alpha <= 1.0
    ensures q.alpha + (now - p.createdAt) as real / 2000.0 == 1.0
  {
    p.(alpha := 1.0 - Age(p, now) / FADE_SECONDS)
  }

  /** Opacity never rises with time. */
  lemma FadedAlphaNonIncreasing(p: Particle, now1: int, now2: int)
    requires now1 <= now2
    ensures Faded(p, now2).alpha <= Faded(p, now1).alpha
  {
  }

  /** What one frame of `animate` leaves in the collection: the particles that
      have not expired, in their original order, each with its recomputed
      opacity. */
  function AnimatePass(s: seq<Particle>, now: int): (r: seq<Particle>)
    ensures |r| <= |s|
    ensures forall k :: 0 <= k < |r| ==>
              !Expired(r[k], now) && r[k].alpha == 1.0 - Age(r[k], now) / FADE_SECONDS
  {
    if s == [] then []
    else (if Expired(s[0], now) then [] else [Faded(s[0], now)]) + AnimatePass(s[1..], now)
  }

  /** Unfolding a frame over a suffix by the particle at its front. */
  lemma AnimatePassStep(s: seq<Particle>, i: nat, now: int)
    requires i < |s|
    ensures AnimatePass(s[i..], now) ==
            (if Expired(s[i], now) then [] else [Faded(s[i], now)]) + AnimatePass(s[i + 1..], now)
  {
  }

  predicate StrictlyIncreasing(idx: seq<nat>) {
    forall a, b :: 0 <= a < b < |idx| ==> idx[a] < idx[b]
  }

  /** An independent account of which particles a frame keeps: the indices of the
      unexpired ones, in increasing order, and no others. */
  function LiveIndices(s: seq<Particle>, now: int): (idx: seq<nat>)
    ensures StrictlyIncreasing(idx)
    ensures forall k :: 0 <= k < |idx| ==> idx[k] < |s| && !Expired(s[idx[k]], now)
    ensures forall j :: 0 <= j < |s| && !Expired(s[j], now) ==> j in idx
    decreases |s|
  {
    if s == [] then []
    else
      var front := LiveIndices(s[..|s| - 1], now);
      if Expired(s[|s| - 1], now) then front else front + [|s| - 1]
  }

  /** A frame over a concatenation is the concatenation of the frames. */
  lemma {:induction false} AnimatePassAppend(a: seq<Particle>, b: seq<Particle>, now: int)
    ensures AnimatePass(a + b, now) == AnimatePass(a, now) + AnimatePass(b, now)
    decreases |a|
  {
    if a == [] {
      assert a + b == b;
    } else {
      assert (a + b)[0] == a[0];
      assert (a + b)[1..] == a[1..] + b;
      AnimatePassAppend(a[1..], b, now);
    }
  }

  /** A frame is exactly the order-preserving filter of the unexpired particles,
      with each survivor's opacity recomputed. */
  lemma {:induction false} AnimatePassIsOrderedFilter(s: seq<Particle>, now: int)
    ensures |AnimatePass(s, now)| == |LiveIndices(s, now)|
    ensures forall k :: 0 <= k < |LiveIndices(s, now)| ==>
              AnimatePass(s, now)[k] == Faded(s[LiveIndices(s, now)[k]], now)
    decreases |s|
  {
    if s != [] {
      var n := |s|;
      var front := s[..n - 1];
      assert s == front + [s[n - 1]];
      AnimatePassAppend(front, [s[n - 1]], now);
      AnimatePassIsOrderedFilter(front, now);
      assert [s[n - 1]][1..] == [];
      assert AnimatePass([s[n - 1]], now) ==
             if Expired(s[n - 1], now) then [] else [Faded(s[n - 1], now)];
    }
  }

  /** The particle at index j is in the collection after a frame at `now` exactly
      when at most 2000 ms have passed since its creation. */
  lemma AnimatePassKeeps(s: seq<Particle>, now: int, j: nat)
    requires j < |s|
    ensures Faded(s[j], now) in AnimatePass(s, now) <==> now - s[j].createdAt <= 2000
  {
    AnimatePassIsOrderedFilter(s, now);
    var idx := LiveIndices(s, now);
    if !Expired(s[j], now) {
      var k :| 0 <= k < |idx| && idx[k] == j;
      assert AnimatePass(s, now)[k] == Faded(s[j], now);
    }
  }

  /** Once every particle is more than 2000 ms old, a frame empties the collection. */
  lemma {:induction false} AnimatePassAllExpired(s: seq<Particle>, now: int)
    requires forall j :: 0 <= j < |s| ==> now - s[j].createdAt > 2000
    ensures AnimatePass(s, now) == []
    decreases |s|
  {
    if s != [] {
      assert Expired(s[0], now);
      AnimatePassAllExpired(s[1..], now);
    }
  }

  /** Given a clock that has not gone back past any creation time, every opacity
      after a frame lies in [0, 1]. */
  lemma {:induction false} AnimatePassAlphaInRange(s: seq<Particle>, now: int)
    requires forall j :: 0 <= j < |s| ==> s[j].createdAt <= now
    ensures forall k :: 0 <= k < |AnimatePass(s, now)| ==>
              0.0 <= AnimatePass(s, now)[k].alpha <= 1.0
  {
    AnimatePassIsOrderedFilter(s, now);
  }

  /** A later frame over the result of an earlier one equals the later frame over
      the original collection: whatever survives at now2 also survived at now1,
      and the opacity is recomputed from scratch. */
  lemma {:induction false} AnimatePassTwice(s: seq<Particle>, now1: int, now2: int)
    requires now1 <= now2
    ensures AnimatePass(AnimatePass(s, now1), now2) == AnimatePass(s, now2)
    decreases |s|
  {
    if s != [] {
      var head := if Expired(s[0], now1) then [] else [Faded(s[0], now1)];
      AnimatePassAppend(head, AnimatePass(s[1..], now1), now2);
      AnimatePassTwice(s[1..], now1, now2);
      if !Expired(s[0], now1) {
        assert [Faded(s[0], now1)][1..] == [];
        assert Faded(Faded(s[0], now1), now2) == Faded(s[0], now2);
      }
    }
  }

  /** A particle that survives two frames at now1 <= now2 is no more opaque after
      the second than after the first. */
  lemma AlphaNonIncreasingAcrossFrames(s: seq<Particle>, now1: int, now2: int, j: nat)
    requires now1 <= now2 && j < |s|
    requires now2 - s[j].createdAt <= 2000
    ensures Faded(s[j], now1) in AnimatePass(s, now1)
    ensures Faded(s[j], now2) in AnimatePass(AnimatePass(s, now1), now2)
    ensures Faded(s[j], now2).alpha <= Faded(s[j], now1).alpha
  {
    AnimatePassKeeps(s, now1, j);
    AnimatePassKeeps(s, now2, j);
    AnimatePassTwice(s, now1, now2);
    FadedAlphaNonIncreasing(s[j], now1, now2);
  }
}
