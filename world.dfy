/** The per-frame bookkeeping of the game world: exhaust particles age and fade
    out, and the dust cloud around the camera is thinned and refilled. */
module World {
  import Frame
  import opened Flight

  /** The elements of s that keep accepts, in their order: `Vec::retain`. */
  function Filter<T>(s: seq<T>, keep: T -> bool): (r: seq<T>)
    ensures |r| <= |s|
    ensures forall x :: x in r ==> keep(x)
  {
    if s == [] then []
    else Filter(s[..|s| - 1], keep) + (if keep(s[|s| - 1]) then [s[|s| - 1]] else [])
  }

  /** An element survives exactly when it was there and is accepted. */
  lemma {:induction false} FilterMember<T>(s: seq<T>, keep: T -> bool, x: T)
    ensures x in Filter(s, keep) <==> x in s && keep(x)
  {
    if s != [] {
      var init := s[..|s| - 1];
      FilterMember(init, keep, x);
      assert s == init + [s[|s| - 1]];
    }
  }

  /** Retaining from a concatenation retains from each part. */
  lemma {:induction false} FilterAppend<T>(a: seq<T>, b: seq<T>, keep: T -> bool)
    ensures Filter(a + b, keep) == Filter(a, keep) + Filter(b, keep)
  {
    if b != [] {
      var init := b[..|b| - 1];
      assert (a + b)[..|a + b| - 1] == a + init;
      FilterAppend(a, init, keep);
    } else {
      assert a + b == a;
    }
  }

  /** Nothing is dropped when everything is accepted. */
  lemma {:induction false} FilterAll<T>(s: seq<T>, keep: T -> bool)
    requires forall i :: 0 <= i < |s| ==> keep(s[i])
    ensures Filter(s, keep) == s
  {
    if s != [] {
      FilterAll(s[..|s| - 1], keep);
    }
  }

  /** The positions of the elements Filter keeps. */
  function KeptIndices<T>(s: seq<T>, keep: T -> bool): seq<int> {
    if s == [] then []
    else KeptIndices(s[..|s| - 1], keep) + (if keep(s[|s| - 1]) then [|s| - 1] else [])
  }

  /** Filter keeps exactly the accepted elements, each once and in their original
      order: its k-th element is the element at the k-th accepted position. */
  lemma {:induction false} FilterOrder<T>(s: seq<T>, keep: T -> bool)
    ensures var r, idx := Filter(s, keep), KeptIndices(s, keep);
      && |idx| == |r|
      && (forall k :: 0 <= k < |idx| ==> 0 <= idx[k] < |s| && r[k] == s[idx[k]])
      && (forall k, l :: 0 <= k < l < |idx| ==> idx[k] < idx[l])
      && (forall i :: 0 <= i < |s| ==> (i in idx <==> keep(s[i])))
  {
    if s != [] {
      var init := s[..|s| - 1];
      FilterOrder(init, keep);
      var r0, idx0 := Filter(init, keep), KeptIndices(init, keep);
      var r, idx := Filter(s, keep), KeptIndices(s, keep);
      forall k | 0 <= k < |idx| ensures 0 <= idx[k] < |s| && r[k] == s[idx[k]] {
        if k < |idx0| {
          assert idx[k] == idx0[k] && r[k] == r0[k];
        }
      }
      forall i | 0 <= i < |s| ensures i in idx <==> keep(s[i]) {
        if i < |s| - 1 {
          assert s[i] == init[i];
          assert i in idx <==> i in idx0;
        }
      }
    }
  }

  /** `Vec::retain` as a loop over the elements. */
  method Retain<T>(s: seq<T>, keep: T -> bool) returns (r: seq<T>)
    ensures r == Filter(s, keep)
  {
    r := [];
    for i := 0 to |s|
      invariant r == Filter(s[..i], keep)
    {
      assert s[..i + 1][..i] == s[..i];
      if keep(s[i]) {
        r := r + [s[i]];
      }
    }
    assert s[..|s|] == s;
  }

  /** Below this lifetime a particle fades with what is left of it. */
  const FADE_START: real := 1.0

  /** An exhaust particle: where its object is, the seconds it has left and its colour. */
  datatype Particle = Particle(position: Vec3, lifetime: real, color: Frame.u32)

  /** One particle after a step of dt. fade(b) is the exhaust colour at brightness b
      (the float conversions of the colour are not modelled). */
  function Aged(p: Particle, dt: real, fade: real -> Frame.u32): Particle {
    var left := p.lifetime - dt;
    p.(lifetime := left, color := if left < FADE_START then fade(Max(0.0, left)) else p.color)
  }

  /** Every particle aged by the same step: each stays where it is with exactly dt
      less to live, keeps its colour while it has at least FADE_START left, and
      otherwise takes the fade of what it has left, never of a negative lifetime. */
  function AgedAll(ps: seq<Particle>, dt: real, fade: real -> Frame.u32): (r: seq<Particle>)
    ensures |r| == |ps|
    ensures forall i :: 0 <= i < |ps| ==> r[i].position == ps[i].position && r[i].lifetime == ps[i].lifetime - dt
    ensures forall i :: 0 <= i < |ps| && r[i].lifetime >= FADE_START ==> r[i].color == ps[i].color
    ensures forall i :: 0 <= i < |ps| && 0.0 <= r[i].lifetime < FADE_START ==> r[i].color == fade(r[i].lifetime)
    ensures forall i :: 0 <= i < |ps| && r[i].lifetime < 0.0 ==> r[i].color == fade(0.0)
  {
    seq(|ps|, i requires 0 <= i < |ps| => Aged(ps[i], dt, fade))
  }

  predicate Alive(p: Particle) {
    p.lifetime > 0.0
  }

  /** The particles a step of dt leaves: a particle survives exactly when it had more
      than dt left, keeps its place and position, and keeps its colour unless it is in
      its last second, where its colour is the fade of the lifetime it has left. */
  lemma ParticlesAfter(ps: seq<Particle>, dt: real, fade: real -> Frame.u32)
    ensures var r := Filter(AgedAll(ps, dt, fade), Alive);
      && |r| <= |ps|
      && (forall p :: p in r ==> 0.0 < p.lifetime)
      && (forall p :: p in r && p.lifetime < FADE_START ==> p.color == fade(p.lifetime))
      && (forall i :: 0 <= i < |ps| ==> (AgedAll(ps, dt, fade)[i] in r <==> ps[i].lifetime > dt))
  {
    var aged := AgedAll(ps, dt, fade);
    var r := Filter(aged, Alive);
    forall i | 0 <= i < |ps| ensures aged[i] in r <==> ps[i].lifetime > dt {
      FilterMember(aged, Alive, aged[i]);
    }
    forall p | p in r && p.lifetime < FADE_START ensures p.color == fade(p.lifetime) {
      FilterMember(aged, Alive, p);
      var i :| 0 <= i < |aged| && aged[i] == p;
    }
  }

  /** Particles spawned in one frame can be aged after the others: aging and retaining
      work element by element. */
  lemma ParticlesAppend(a: seq<Particle>, b: seq<Particle>, dt: real, fade: real -> Frame.u32)
    ensures Filter(AgedAll(a + b, dt, fade), Alive) == Filter(AgedAll(a, dt, fade), Alive) + Filter(AgedAll(b, dt, fade), Alive)
  {
    assert AgedAll(a + b, dt, fade) == AgedAll(a, dt, fade) + AgedAll(b, dt, fade);
    FilterAppend(AgedAll(a, dt, fade), AgedAll(b, dt, fade), Alive);
  }

  /** The dust cloud keeps this many motes around the camera. */
  const DUST_COUNT: nat := 200
  /** Motes farther than this from the camera are dropped. */
  const MAX_DIST: real := 80.0

  function LengthSq(v: Vec3): real {
    v.x * v.x + v.y * v.y + v.z * v.z
  }

  /** Whether a mote is within MAX_DIST of center (compared squared). */
  function Near(center: Vec3): Vec3 -> bool {
    (d: Vec3) => LengthSq(d.Plus(center.Times(-1.0))) <= MAX_DIST * MAX_DIST
  }

  /** The first n new motes: center plus the n random offsets drawn in order. */
  function Spawned(center: Vec3, spawn: nat -> Vec3, n: nat): seq<Vec3> {
    seq(n, i requires 0 <= i < n => center.Plus(spawn(i)))
  }

  lemma SpawnedNext(center: Vec3, spawn: nat -> Vec3, n: nat)
    ensures Spawned(center, spawn, n + 1) == Spawned(center, spawn, n) + [center.Plus(spawn(n))]
  {
    var a, b := Spawned(center, spawn, n + 1), Spawned(center, spawn, n) + [center.Plus(spawn(n))];
    forall i | 0 <= i < n + 1 ensures a[i] == b[i] {
      if i < n {
        assert b[i] == Spawned(center, spawn, n)[i];
      }
    }
  }

  /** How many motes the refill loop adds to `kept` of them. */
  function Missing(kept: nat): nat {
    if kept < DUST_COUNT then DUST_COUNT - kept else 0
  }

  /** When every offset is at most MAX_DIST long, the cloud after a refill lies
      entirely within MAX_DIST of its center: no far mote is kept. */
  lemma {:induction false} DustNear(ds: seq<Vec3>, center: Vec3, spawn: nat -> Vec3, n: nat)
    requires forall i: nat :: LengthSq(spawn(i)) <= MAX_DIST * MAX_DIST
    ensures forall d :: d in Filter(ds, Near(center)) + Spawned(center, spawn, n) ==> Near(center)(d)
  {
    var s := Spawned(center, spawn, n);
    forall i | 0 <= i < n ensures Near(center)(s[i]) {
      var o := spawn(i);
      assert s[i].Plus(center.Times(-1.0)) == o;
    }
  }

  class Game {
    var particles: seq<Particle>
    /** The position of each dust mote, in the order the source keeps them. */
    var dust: seq<Vec3>

    /** `Game::new`: no particles, and `generate_dust`, a refill of an empty cloud
        around the origin. */
    constructor (spawn: nat -> Vec3)
      ensures particles == []
      ensures dust == Spawned(Vec3(0.0, 0.0, 0.0), spawn, DUST_COUNT)
    {
      particles, dust := [], [];
      new;
      UpdateDust(Vec3(0.0, 0.0, 0.0), spawn);
    }

    /** The particle section of `Game::update`: age every particle by dt, recolour the
        ones in their last second, then retain those with time left. */
    method UpdateParticles(dt: real, fade: real -> Frame.u32)
      modifies this
      ensures particles == Filter(AgedAll(old(particles), dt, fade), Alive)
      ensures dust == old(dust)
    {
      var i := 0;
      while i < |particles|
        invariant i <= |particles| == |old(particles)|
        invariant forall j :: 0 <= j < i ==> particles[j] == Aged(old(particles)[j], dt, fade)
        invariant forall j :: i <= j < |particles| ==> particles[j] == old(particles)[j]
        invariant dust == old(dust)
      {
        var p := particles[i];
        var left := p.lifetime - dt;
        p := p.(lifetime := left);
        if left < FADE_START {
          p := p.(color := fade(Max(0.0, left)));
        }
        particles := particles[i := p];
        i := i + 1;
      }
      assert particles == AgedAll(old(particles), dt, fade);
      particles := Retain(particles, Alive);
    }

    /** `update_dust`: drop the motes farther than MAX_DIST from center, then add
        motes at center + spawn(0), center + spawn(1), ... until there are DUST_COUNT.
        spawn stands for the random offsets (normally distributed direction, radius
        drawn from the shell the `first` flag selects). */
    method UpdateDust(center: Vec3, spawn: nat -> Vec3)
      modifies this
      ensures dust == Filter(old(dust), Near(center)) + Spawned(center, spawn, Missing(|Filter(old(dust), Near(center))|))
      ensures |dust| == if |Filter(old(dust), Near(center))| < DUST_COUNT then DUST_COUNT else |Filter(old(dust), Near(center))|
      ensures particles == old(particles)
    {
      var kept := Retain(dust, Near(center));
      var motes, n := kept, 0;
      while |motes| < DUST_COUNT
        invariant motes == kept + Spawned(center, spawn, n)
        invariant n <= Missing(|kept|)
        invariant |kept| >= DUST_COUNT ==> n == 0
        invariant particles == old(particles)
        decreases DUST_COUNT - |motes|
      {
        SpawnedNext(center, spawn, n);
        motes := motes + [center.Plus(spawn(n))];
        n := n + 1;
      }
      dust := motes;
    }
  }
}
