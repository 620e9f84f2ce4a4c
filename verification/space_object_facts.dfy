/** What transform, animate and draw of space_objects.h guarantee, stated
    against the reference notions of Links (paths, pre-order) and Traces
    (nesting, drawn bodies). */
module SpaceObjectFacts {
  import opened Wrappers
  import opened VectorMath
  import opened Traces
  import opened Links
  import opened SpaceObjects

  // ---------------------------------------------------------------- animate

  /** One animate from i advances each body's angles once per path from i to
      it: bodies off the tree are untouched, bodies reached twice (attached
      to two namesakes) advance twice, and a Sun's orbit angle stays put. */
  lemma {:induction false} AnimateAdvancesByPaths(bs: seq<Body>, i: nat, j: nat)
    requires ForwardFrom(LinksOf(bs), i) && j < |bs|
    ensures Animate(bs, i)[j].rotationAngle
            == bs[j].rotationAngle + Scaled(Paths(LinksOf(bs), i, j), bs[j].rotationSpeed)
    ensures Animate(bs, i)[j].orbitAngle
            == bs[j].orbitAngle + (if bs[j].kind == Sun then 0.0 else Scaled(Paths(LinksOf(bs), i, j), bs[j].orbitSpeed))
    decreases |bs| - i, 1, 0
  {
    var g := LinksOf(bs);
    var ticked := bs[i := Tick(bs[i])];
    assert LinksOf(ticked) == g;
    AnimateAllAdvancesByPaths(ticked, i, bs[i].satellites, j);
    var r := Animate(bs, i);
    var below := PathsFrom(g, i, g[i], j);
    var all := Paths(g, i, j);
    assert all == (if i == j then 1 else 0) + below;
    assert r == AnimateAll(ticked, i, bs[i].satellites);
    if i == j {
      AddStep(bs[j].rotationAngle, ticked[j].rotationAngle, r[j].rotationAngle, bs[j].rotationSpeed, 1, below, all);
      if bs[j].kind != Sun {
        AddStep(bs[j].orbitAngle, ticked[j].orbitAngle, r[j].orbitAngle, bs[j].orbitSpeed, 1, below, all);
      }
    }
  }

  lemma {:induction false} AnimateAllAdvancesByPaths(bs: seq<Body>, i: nat, ss: seq<nat>, j: nat)
    requires i < |bs| && ForwardList(LinksOf(bs), i, ss) && j < |bs|
    ensures AnimateAll(bs, i, ss)[j].rotationAngle
            == bs[j].rotationAngle + Scaled(PathsFrom(LinksOf(bs), i, ss, j), bs[j].rotationSpeed)
    ensures AnimateAll(bs, i, ss)[j].orbitAngle
            == bs[j].orbitAngle + (if bs[j].kind == Sun then 0.0 else Scaled(PathsFrom(LinksOf(bs), i, ss, j), bs[j].orbitSpeed))
    decreases |bs| - i, 0, |ss|
  {
    if ss != [] {
      var g := LinksOf(bs);
      var next := Animate(bs, ss[0]);
      var r := AnimateAll(next, i, ss[1..]);
      assert AnimateAll(bs, i, ss) == r;
      AnimateAdvancesByPaths(bs, ss[0], j);
      AnimateAllAdvancesByPaths(next, i, ss[1..], j);
      SpeedsKept(bs[j], next[j]);
      assert LinksOf(next) == g;
      var first := Paths(g, ss[0], j);
      var rest := PathsFrom(g, i, ss[1..], j);
      var all := PathsFrom(g, i, ss, j);
      assert all == first + rest;
      AddStep(bs[j].rotationAngle, next[j].rotationAngle, r[j].rotationAngle, bs[j].rotationSpeed, first, rest, all);
      if bs[j].kind != Sun {
        AddStep(bs[j].orbitAngle, next[j].orbitAngle, r[j].orbitAngle, bs[j].orbitSpeed, first, rest, all);
      }
    }
  }

  /** An advance by a paths followed by one by b is one by a + b. */
  lemma AddStep(a0: real, a1: real, a2: real, s: real, a: nat, b: nat, sum: nat)
    requires a1 == a0 + Scaled(a, s)
    requires a2 == a1 + Scaled(b, s)
    requires sum == a + b
    ensures a2 == a0 + Scaled(sum, s)
  {
    Distribute(a, b, s);
  }

  lemma SpeedsKept(a: Body, b: Body)
    requires SameButAngles(a, b)
    ensures a.kind == b.kind && a.rotationSpeed == b.rotationSpeed && a.orbitSpeed == b.orbitSpeed
  {
  }

  /** n advances by the same speed s, as an n-fold sum. */
  function Scaled(n: nat, s: real): real
  {
    if n == 0 then 0.0 else Scaled(n - 1, s) + s
  }

  /** The n-fold sum is the product n * s. */
  lemma {:induction false} ScaledIsProduct(n: nat, s: real)
    ensures Scaled(n, s) == (n as real) * s
  {
    if n > 0 {
      ScaledIsProduct(n - 1, s);
    }
  }

  lemma {:induction false} Distribute(a: nat, b: nat, s: real)
    ensures Scaled(a + b, s) == Scaled(a, s) + Scaled(b, s)
    decreases b
  {
    if b > 0 {
      Distribute(a, b - 1, s);
    }
  }

  lemma MulStep(n: nat, p: nat)
    requires n > 0
    ensures n * p == (n - 1) * p + p
  {
  }

  /** n animation ticks from body 0 (SolarSystem::animate repeated). */
  function Ticks(bs: seq<Body>, n: nat): (r: seq<Body>)
    requires ForwardFrom(LinksOf(bs), 0)
    ensures |r| == |bs| && LinksOf(r) == LinksOf(bs)
    ensures forall j :: 0 <= j < |bs| ==> SameButAngles(bs[j], r[j])
  {
    if n == 0 then bs else Animate(Ticks(bs, n - 1), 0)
  }

  /** Animation is pure accumulation: after n ticks every angle has moved by
      n times its speed times the number of paths from body 0. */
  lemma {:induction false} TicksAccumulate(bs: seq<Body>, n: nat, j: nat)
    requires ForwardFrom(LinksOf(bs), 0) && j < |bs|
    ensures Ticks(bs, n)[j].rotationAngle
            == bs[j].rotationAngle + Scaled(n * Paths(LinksOf(bs), 0, j), bs[j].rotationSpeed)
    ensures Ticks(bs, n)[j].orbitAngle
            == bs[j].orbitAngle + (if bs[j].kind == Sun then 0.0 else Scaled(n * Paths(LinksOf(bs), 0, j), bs[j].orbitSpeed))
  {
    if n > 0 {
      var g := LinksOf(bs);
      var prev := Ticks(bs, n - 1);
      assert Ticks(bs, n) == Animate(prev, 0);
      assert LinksOf(prev) == g;
      TicksAccumulate(bs, n - 1, j);
      AnimateAdvancesByPaths(prev, 0, j);
      SpeedsKept(bs[j], prev[j]);
      var p := Paths(g, 0, j);
      AccumulateStep(bs[j].rotationAngle, prev[j].rotationAngle, Ticks(bs, n)[j].rotationAngle, bs[j].rotationSpeed, n, p);
      if bs[j].kind != Sun {
        AccumulateStep(bs[j].orbitAngle, prev[j].orbitAngle, Ticks(bs, n)[j].orbitAngle, bs[j].orbitSpeed, n, p);
      }
    }
  }

  /** n - 1 ticks of p advances followed by one more make n ticks. */
  lemma AccumulateStep(a0: real, a1: real, a2: real, s: real, n: nat, p: nat)
    requires n > 0
    requires a1 == a0 + Scaled((n - 1) * p, s)
    requires a2 == a1 + Scaled(p, s)
    ensures a2 == a0 + Scaled(n * p, s)
  {
    MulStep(n, p);
    Distribute((n - 1) * p, p, s);
  }

  // -------------------------------------------------------------- transform

  /** The own steps of the bodies listed in c, in order. */
  function StepsOf(bs: seq<Body>, c: seq<nat>): (t: seq<Event>)
    requires forall k :: 0 <= k < |c| ==> c[k] < |bs|
    ensures |t| == 4 * |c|
  {
    if c == [] then [] else StepsOf(bs, c[..|c| - 1]) + OwnSteps(bs[c[|c| - 1]])
  }

  /** The transform trace is the four own steps of every body on the centre
      chain, Sun first: a non-Sun body's trace is its centre's trace plus its
      own four steps, and a Sun's is its own four steps alone. */
  lemma {:induction false} TransformFollowsChain(bs: seq<Body>, i: nat)
    requires CentersBefore(bs) && i < |bs|
    ensures Transform(bs, i) == StepsOf(bs, Chain(bs, i))
    decreases i
  {
    if bs[i].kind == Sun {
      assert Chain(bs, i) == [i];
      assert Chain(bs, i)[..0] == [];
    } else {
      var p := bs[i].center.value;
      TransformFollowsChain(bs, p);
      var c := Chain(bs, p);
      assert Chain(bs, i) == c + [i];
      assert (c + [i])[..|c|] == c;
    }
  }

  /** The Sun overrides: its transform does not recurse, so it is the same
      in any arena holding the same Sun; it draws no orbit ring, has the
      empty parent name, and its orbit angle never moves. */
  lemma SunOverrides(bs: seq<Body>, i: nat)
    requires CentersBefore(bs) && i < |bs| && bs[i].kind == Sun
    ensures CentersBefore([bs[i]]) && Transform(bs, i) == Transform([bs[i]], 0)
    ensures DrawOrbit(bs, i) == [] && ParentName(bs, i) == ""
    ensures Tick(bs[i]).orbitAngle == bs[i].orbitAngle
  {
  }

  /** The parts of the arena transform reads: kind, centre link, distance,
      orbit tilt, orbit axis and orbit angle. */
  predicate SameOrbits(a: seq<Body>, b: seq<Body>)
  {
    && |a| == |b|
    && forall j :: 0 <= j < |a| ==>
         && a[j].kind == b[j].kind && a[j].center == b[j].center && a[j].distance == b[j].distance
         && a[j].orbitTilt == b[j].orbitTilt && a[j].orbitAxis == b[j].orbitAxis && a[j].orbitAngle == b[j].orbitAngle
  }

  /** Rotation angle, speed, tilt and axis, size, name, flag and satellites of
      every body play no part in any transform. */
  lemma {:induction false} TransformReadsOrbitsOnly(a: seq<Body>, b: seq<Body>, i: nat)
    requires SameOrbits(a, b) && CentersBefore(a) && i < |a|
    ensures CentersBefore(b)
    ensures Transform(a, i) == Transform(b, i)
    decreases i
  {
    if a[i].kind != Sun {
      TransformReadsOrbitsOnly(a, b, a[i].center.value);
    }
  }

  // ------------------------------------------------------------------- draw

  /** Every orbit ring shown. */
  predicate AllShown(bs: seq<Body>)
  {
    forall k :: 0 <= k < |bs| ==> bs[k].showOrbit
  }

  /** No orbit ring shown. */
  predicate NoneShown(bs: seq<Body>)
  {
    forall k :: 0 <= k < |bs| ==> !bs[k].showOrbit
  }

  /** drawOrbit opens no frame, draws no sphere, and draws one ring, of the
      satellite itself, unless the satellite is a Sun. */
  lemma DrawOrbitDraws(bs: seq<Body>, s: nat)
    requires CentersBefore(bs) && s < |bs|
    ensures Frameless(DrawOrbit(bs, s))
    ensures SphereIds(DrawOrbit(bs, s)) == []
    ensures RingIds(DrawOrbit(bs, s)) == (if bs[s].kind == Sun then [] else [s])
  {
    var b := bs[s];
    if b.kind != Sun {
      var moves := OrbitMoves(bs, s);
      var ring := Torus(b.distance, s);
      assert DrawOrbit(bs, s) == moves + [ring];
      assert Frameless(moves) && Frameless([ring]);
      FramelessAppend(moves, [ring]);
      StateChangesThen(moves, [ring]);
      OneEventDraws(ring);
    }
  }

  /** The state changes drawOrbit makes before the ring. */
  function OrbitMoves(bs: seq<Body>, s: nat): (t: seq<Event>)
    requires CentersBefore(bs) && s < |bs| && bs[s].kind != Sun
    ensures AllStateChanges(t)
  {
    Transform(bs, bs[s].center.value)
    + [SetColor(OrbitColor), Rotate(bs[s].orbitTilt, bs[s].orbitAxis), Translate(-bs[s].distance, 0.0, 0.0)]
  }

  /** The body's own part of draw: one frame, one sphere (its own), no ring. */
  lemma DrawSelfDraws(bs: seq<Body>, i: nat)
    requires CentersBefore(bs) && i < |bs|
    ensures Nested(DrawSelf(bs, i))
    ensures SphereIds(DrawSelf(bs, i)) == [i]
    ensures RingIds(DrawSelf(bs, i)) == []
  {
    var moves := Transform(bs, i) + [Rotate(bs[i].rotationAngle, bs[i].rotationAxis)];
    var sphere := Sphere(bs[i].size, i);
    var inner := moves + [sphere];
    assert DrawSelf(bs, i) == [Push] + inner + [Pop];
    assert AllStateChanges(moves);
    assert Frameless(inner);
    FramelessNested(inner);
    NestedWrap(inner);
    StateChangesThen(moves, [sphere]);
    OneEventDraws(sphere);
    WrapDraws(inner);
  }

  lemma {:induction false} OrbitRingsDraw(bs: seq<Body>, ss: seq<nat>)
    requires CentersBefore(bs) && forall k :: 0 <= k < |ss| ==> ss[k] < |bs|
    ensures Nested(OrbitRings(bs, ss))
    ensures SphereIds(OrbitRings(bs, ss)) == []
    decreases |ss|
  {
    if ss == [] {
      FramelessNested([]);
    } else {
      var one := DrawOrbit(bs, ss[0]);
      var rest := OrbitRings(bs, ss[1..]);
      DrawOrbitDraws(bs, ss[0]);
      OrbitRingsDraw(bs, ss[1..]);
      FramelessNested(one);
      NestedWrap(one);
      NestedAppend([Push] + one + [Pop], rest);
      WrapDraws(one);
      SphereIdsAppend([Push] + one + [Pop], rest);
    }
  }

  /** The rings drawn for a satellite list: one per non-Sun entry. */
  lemma {:induction false} OrbitRingsCount(bs: seq<Body>, ss: seq<nat>, j: nat)
    requires CentersBefore(bs) && j < |bs| && forall k :: 0 <= k < |ss| ==> ss[k] < |bs|
    ensures multiset(RingIds(OrbitRings(bs, ss)))[j] == if bs[j].kind == Sun then 0 else multiset(ss)[j]
    decreases |ss|
  {
    if ss != [] {
      var rest := ss[1..];
      assert forall k :: 0 <= k < |rest| ==> rest[k] == ss[k + 1];
      OrbitRingsSplit(bs, ss);
      DrawOrbitDraws(bs, ss[0]);
      OrbitRingsCount(bs, rest, j);
      RingCountStep(RingIds(OrbitRings(bs, ss)), RingIds(DrawOrbit(bs, ss[0])), RingIds(OrbitRings(bs, rest)),
                    ss, j, bs[ss[0]].kind == Sun, bs[j].kind == Sun);
    }
  }

  /** The counting step of OrbitRingsCount, on plain sequences. */
  lemma RingCountStep(all: seq<nat>, head: seq<nat>, rest: seq<nat>, ss: seq<nat>, j: nat, headSun: bool, sun: bool)
    requires ss != [] && all == head + rest
    requires head == if headSun then [] else [ss[0]]
    requires ss[0] == j ==> headSun == sun
    requires multiset(rest)[j] == if sun then 0 else multiset(ss[1..])[j]
    ensures multiset(all)[j] == if sun then 0 else multiset(ss)[j]
  {
    CountHead(ss, j);
    CountAppend(head, rest, j);
  }

  /** The rings of a satellite list: the first satellite's, then the rest's. */
  lemma OrbitRingsSplit(bs: seq<Body>, ss: seq<nat>)
    requires CentersBefore(bs) && ss != [] && forall k :: 0 <= k < |ss| ==> ss[k] < |bs|
    ensures RingIds(OrbitRings(bs, ss)) == RingIds(DrawOrbit(bs, ss[0])) + RingIds(OrbitRings(bs, ss[1..]))
  {
    WrapThenDraws(DrawOrbit(bs, ss[0]), OrbitRings(bs, ss[1..]));
  }

  /** What draw of i draws: its own sphere before its subtrees' spheres, and
      the rings of its satellites (when shown) before its subtrees' rings. */
  lemma DrawParts(bs: seq<Body>, i: nat)
    requires LinkedFrom(bs, i)
    ensures SphereIds(Draw(bs, i)) == [i] + SphereIds(Subtrees(bs, i, bs[i].satellites))
    ensures RingIds(Draw(bs, i))
            == (if bs[i].showOrbit then RingIds(OrbitRings(bs, bs[i].satellites)) else [])
               + RingIds(Subtrees(bs, i, bs[i].satellites))
  {
    var rest := Subtrees(bs, i, bs[i].satellites);
    DrawSelfDraws(bs, i);
    if bs[i].showOrbit {
      var rings := OrbitRings(bs, bs[i].satellites);
      OrbitRingsDraw(bs, bs[i].satellites);
      PartsDraw(Draw(bs, i), rings, DrawSelf(bs, i), rest, i);
    } else {
      PartsDraw(Draw(bs, i), [], DrawSelf(bs, i), rest, i);
    }
  }

  /** The drawing of a body's trace from its three parts. */
  lemma PartsDraw(d: seq<Event>, rings: seq<Event>, self: seq<Event>, rest: seq<Event>, i: nat)
    requires d == rings + self + rest
    requires SphereIds(rings) == [] && SphereIds(self) == [i] && RingIds(self) == []
    ensures SphereIds(d) == [i] + SphereIds(rest)
    ensures RingIds(d) == RingIds(rings) + RingIds(rest)
  {
    ThreePartsDraw(rings, self, rest);
    ConcatEmpty([i]);
    ConcatEmpty(RingIds(rings));
  }

  /** draw keeps the frame stack balanced: every push has its pop. */
  lemma {:induction false} DrawNested(bs: seq<Body>, i: nat)
    requires LinkedFrom(bs, i)
    ensures Nested(Draw(bs, i))
    decreases |bs| - i, 1, 0
  {
    SatellitesLinked(bs, i);
    var rings := if bs[i].showOrbit then OrbitRings(bs, bs[i].satellites) else [];
    OrbitRingsDraw(bs, bs[i].satellites);
    FramelessNested([]);
    DrawSelfDraws(bs, i);
    SubtreesNested(bs, i, bs[i].satellites);
    NestedAppend(rings, DrawSelf(bs, i));
    NestedAppend(rings + DrawSelf(bs, i), Subtrees(bs, i, bs[i].satellites));
  }

  lemma {:induction false} SubtreesNested(bs: seq<Body>, i: nat, ss: seq<nat>)
    requires LinkedList(bs, i, ss)
    ensures Nested(Subtrees(bs, i, ss))
    decreases |bs| - i, 0, |ss|
  {
    if ss == [] {
      FramelessNested([]);
    } else {
      var one := Draw(bs, ss[0]);
      DrawNested(bs, ss[0]);
      SubtreesNested(bs, i, ss[1..]);
      NestedWrap(one);
      NestedAppend([Push] + one + [Pop], Subtrees(bs, i, ss[1..]));
    }
  }

  /** draw draws the sphere of every body reached from i, in pre-order: a
      body before its satellites, satellites in insertion order, and a body
      reached along several paths once per path. */
  lemma {:induction false} DrawSpheresInPreorder(bs: seq<Body>, i: nat)
    requires LinkedFrom(bs, i)
    ensures SphereIds(Draw(bs, i)) == Preorder(LinksOf(bs), i)
    decreases |bs| - i, 1, 0
  {
    DrawParts(bs, i);
    SubtreesSpheresInPreorder(bs, i, bs[i].satellites);
  }

  lemma {:induction false} SubtreesSpheresInPreorder(bs: seq<Body>, i: nat, ss: seq<nat>)
    requires LinkedList(bs, i, ss)
    ensures SphereIds(Subtrees(bs, i, ss)) == PreorderFrom(LinksOf(bs), i, ss)
    decreases |bs| - i, 0, |ss|
  {
    if ss != [] {
      var one := Draw(bs, ss[0]);
      var rest := Subtrees(bs, i, ss[1..]);
      DrawSpheresInPreorder(bs, ss[0]);
      SubtreesSpheresInPreorder(bs, i, ss[1..]);
      WrapDraws(one);
      SphereIdsAppend([Push] + one + [Pop], rest);
    }
  }

  /** With every flag cleared, draw draws no orbit ring at all. */
  lemma {:induction false} HiddenOrbitsDrawNoRing(bs: seq<Body>, i: nat)
    requires LinkedFrom(bs, i) && NoneShown(bs)
    ensures RingIds(Draw(bs, i)) == []
    decreases |bs| - i, 1, 0
  {
    DrawParts(bs, i);
    HiddenOrbitsSubtreesDrawNoRing(bs, i, bs[i].satellites);
  }

  lemma {:induction false} HiddenOrbitsSubtreesDrawNoRing(bs: seq<Body>, i: nat, ss: seq<nat>)
    requires LinkedList(bs, i, ss) && NoneShown(bs)
    ensures RingIds(Subtrees(bs, i, ss)) == []
    decreases |bs| - i, 0, |ss|
  {
    if ss != [] {
      var one := Draw(bs, ss[0]);
      var rest := Subtrees(bs, i, ss[1..]);
      HiddenOrbitsDrawNoRing(bs, ss[0]);
      HiddenOrbitsSubtreesDrawNoRing(bs, i, ss[1..]);
      WrapDraws(one);
      RingIdsAppend([Push] + one + [Pop], rest);
    }
  }

  /** With every flag set, draw draws the orbit ring of each non-Sun body once
      per path that reaches it from i, except for i itself, whose ring is its
      parent's business; a Sun never gets a ring. */
  lemma {:induction false} ShownOrbitsDrawRingPerPath(bs: seq<Body>, i: nat, j: nat)
    requires LinkedFrom(bs, i) && j < |bs| && AllShown(bs)
    ensures multiset(RingIds(Draw(bs, i)))[j]
            == if bs[j].kind == Sun then 0 else Paths(LinksOf(bs), i, j) - (if i == j then 1 else 0)
    decreases |bs| - i, 1, 0
  {
    DrawParts(bs, i);
    ShownOrbitsListRingPerPath(bs, i, bs[i].satellites, j);
  }

  lemma {:induction false} ShownOrbitsListRingPerPath(bs: seq<Body>, i: nat, ss: seq<nat>, j: nat)
    requires LinkedList(bs, i, ss) && j < |bs| && AllShown(bs)
    ensures multiset(RingIds(OrbitRings(bs, ss)))[j] + multiset(RingIds(Subtrees(bs, i, ss)))[j]
            == if bs[j].kind == Sun then 0 else PathsFrom(LinksOf(bs), i, ss, j)
    decreases |bs| - i, 0, |ss|
  {
    if ss != [] {
      ShownOrbitsDrawRingPerPath(bs, ss[0], j);
      ShownOrbitsListRingPerPath(bs, i, ss[1..], j);
      ShownOrbitsListStep(bs, i, ss, j);
    } else {
      OrbitRingsCount(bs, ss, j);
    }
  }

  /** The inductive step of ShownOrbitsListRingPerPath: the first satellite's
      ring and subtree, then the rest of the list. */
  lemma ShownOrbitsListStep(bs: seq<Body>, i: nat, ss: seq<nat>, j: nat)
    requires LinkedList(bs, i, ss) && j < |bs| && ss != []
    requires multiset(RingIds(Draw(bs, ss[0])))[j]
             == if bs[j].kind == Sun then 0 else Paths(LinksOf(bs), ss[0], j) - (if ss[0] == j then 1 else 0)
    requires multiset(RingIds(OrbitRings(bs, ss[1..])))[j] + multiset(RingIds(Subtrees(bs, i, ss[1..])))[j]
             == if bs[j].kind == Sun then 0 else PathsFrom(LinksOf(bs), i, ss[1..], j)
    ensures multiset(RingIds(OrbitRings(bs, ss)))[j] + multiset(RingIds(Subtrees(bs, i, ss)))[j]
            == if bs[j].kind == Sun then 0 else PathsFrom(LinksOf(bs), i, ss, j)
  {
    OrbitRingsHead(bs, ss, j);
    SubtreesCount(bs, i, ss, j);
    if ss[0] == j {
      PathsToSelf(LinksOf(bs), j);
    }
  }

  /** The rings of a satellite list: the first satellite's, if it is j and not
      a Sun, then the rest's. */
  lemma OrbitRingsHead(bs: seq<Body>, ss: seq<nat>, j: nat)
    requires CentersBefore(bs) && j < |bs| && ss != [] && forall k :: 0 <= k < |ss| ==> ss[k] < |bs|
    ensures multiset(RingIds(OrbitRings(bs, ss)))[j]
            == (if bs[j].kind == Sun || ss[0] != j then 0 else 1) + multiset(RingIds(OrbitRings(bs, ss[1..])))[j]
  {
    OrbitRingsCount(bs, ss, j);
    OrbitRingsCount(bs, ss[1..], j);
    CountHead(ss, j);
  }

  /** The rings of a satellite list's subtrees: the first subtree's, then
      the rest's. */
  lemma SubtreesCount(bs: seq<Body>, i: nat, ss: seq<nat>, j: nat)
    requires LinkedList(bs, i, ss) && ss != []
    ensures multiset(RingIds(Subtrees(bs, i, ss)))[j]
            == multiset(RingIds(Draw(bs, ss[0])))[j] + multiset(RingIds(Subtrees(bs, i, ss[1..])))[j]
  {
    var one := Draw(bs, ss[0]);
    WrapDraws(one);
    RingIdsAppend([Push] + one + [Pop], Subtrees(bs, i, ss[1..]));
  }

  lemma CountAppend(a: seq<nat>, b: seq<nat>, j: nat)
    ensures multiset(a + b)[j] == multiset(a)[j] + multiset(b)[j]
  {
  }

  lemma CountHead(ss: seq<nat>, j: nat)
    requires ss != []
    ensures multiset(ss)[j] == (if ss[0] == j then 1 else 0) + multiset(ss[1..])[j]
  {
    assert ss == [ss[0]] + ss[1..];
  }
  // ------------------------------------------------------- rotation tilt

  /** a and b differ at most in the rotation tilts of their bodies. */
  predicate SameButRotationTilt(a: seq<Body>, b: seq<Body>)
  {
    |a| == |b| && forall j :: 0 <= j < |a| ==> a[j].(rotationTilt := b[j].rotationTilt) == b[j]
  }

  lemma TiltKeepsLinks(a: seq<Body>, b: seq<Body>)
    requires SameButRotationTilt(a, b)
    ensures SameOrbits(a, b) && LinksOf(a) == LinksOf(b)
    ensures CentersBefore(a) ==> CentersBefore(b)
  {
    assert forall j :: 0 <= j < |a| ==> a[j].satellites == b[j].satellites && a[j].center == b[j].center && a[j].kind == b[j].kind;
  }

  /** The orbit ring of s does not depend on any rotation tilt. */
  lemma DrawOrbitIgnoresTilt(a: seq<Body>, b: seq<Body>, s: nat)
    requires SameButRotationTilt(a, b) && CentersBefore(a) && s < |a|
    ensures CentersBefore(b)
    ensures DrawOrbit(a, s) == DrawOrbit(b, s)
  {
    TiltKeepsLinks(a, b);
    assert a[s].(rotationTilt := b[s].rotationTilt) == b[s];
    if a[s].kind != Sun {
      TransformReadsOrbitsOnly(a, b, a[s].center.value);
    }
  }

  lemma {:induction false} OrbitRingsIgnoreTilt(a: seq<Body>, b: seq<Body>, ss: seq<nat>)
    requires SameButRotationTilt(a, b) && CentersBefore(a)
    requires forall k :: 0 <= k < |ss| ==> ss[k] < |a|
    ensures CentersBefore(b)
    ensures OrbitRings(a, ss) == OrbitRings(b, ss)
    decreases |ss|
  {
    TiltKeepsLinks(a, b);
    if ss != [] {
      DrawOrbitIgnoresTilt(a, b, ss[0]);
      OrbitRingsIgnoreTilt(a, b, ss[1..]);
    }
  }

  /** rotationTilt is read nowhere in draw: two arenas that differ only in
      rotation tilts draw the same trace. */
  lemma {:induction false} DrawIgnoresRotationTilt(a: seq<Body>, b: seq<Body>, i: nat)
    requires SameButRotationTilt(a, b) && LinkedFrom(a, i)
    ensures LinkedFrom(b, i)
    ensures Draw(a, i) == Draw(b, i)
    decreases |a| - i, 1, 0
  {
    TiltKeepsLinks(a, b);
    assert a[i].(rotationTilt := b[i].rotationTilt) == b[i];
    SatellitesLinked(a, i);
    OrbitRingsIgnoreTilt(a, b, a[i].satellites);
    TransformReadsOrbitsOnly(a, b, i);
    SubtreesIgnoreRotationTilt(a, b, i, a[i].satellites);
  }

  lemma {:induction false} SubtreesIgnoreRotationTilt(a: seq<Body>, b: seq<Body>, i: nat, ss: seq<nat>)
    requires SameButRotationTilt(a, b) && LinkedList(a, i, ss)
    ensures LinkedList(b, i, ss)
    ensures Subtrees(a, i, ss) == Subtrees(b, i, ss)
    decreases |a| - i, 0, |ss|
  {
    TiltKeepsLinks(a, b);
    if ss != [] {
      DrawIgnoresRotationTilt(a, b, ss[0]);
      SubtreesIgnoreRotationTilt(a, b, i, ss[1..]);
    }
  }
}
