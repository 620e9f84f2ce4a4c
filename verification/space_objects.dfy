/** The celestial bodies of space_objects.h: SpaceObject and its Sun, Planet
    and Moon subclasses, kept in an arena `seq<Body>` addressed by index.
    The orbit centre is a non-owning back link, the satellites an ordered list
    of indices. Rendering calls become an event trace (see Traces) and the
    in-place updates become functions returning the new arena. */
module SpaceObjects {
  import opened Wrappers
  import opened VectorMath
  import opened Traces
  import opened Links

  /** The subclass of a body. It selects the colour and, for Sun, the
      overridden transform, animate, drawOrbit and getParentName. */
  datatype Kind = Sun | Planet | Moon

  datatype Body = Body(
    kind: Kind,
    name: string,
    rotationSpeed: real,
    distance: real,
    center: Option<nat>,
    rotationAxis: Vector3,
    size: real,
    orbitAxis: Vector3,
    orbitTilt: real,
    rotationTilt: real,
    orbitSpeed: real,
    rotationAngle: real,
    orbitAngle: real,
    showOrbit: bool,
    satellites: seq<nat>)

  const SunColor := Color(240.0, 240.0, 0.0)
  const PlanetColor := Color(0.1, 0.1, 1.0)
  const MoonColor := Color(190.0, 190.0, 190.0)
  /** colorOrbit: the colour of every orbit ring. */
  const OrbitColor := Color(255.0, 255.0, 255.0)
  const XAxis := Vector3(1.0, 0.0, 0.0)
  const YAxis := Vector3(0.0, 1.0, 0.0)

  /** colorObject of each subclass. */
  function ColorOf(k: Kind): Color
  {
    match k
    case Sun => SunColor
    case Planet => PlanetColor
    case Moon => MoonColor
  }

  /** The satellite lists of the arena. */
  function LinksOf(bs: seq<Body>): (g: Graph)
    ensures |g| == |bs|
    ensures forall i :: 0 <= i < |bs| ==> g[i] == bs[i].satellites
  {
    seq(|bs|, i requires 0 <= i < |bs| => bs[i].satellites)
  }

  /** Every non-Sun body has an orbit centre, and it lies earlier in the arena. */
  predicate CentersBefore(bs: seq<Body>)
  {
    forall i :: 0 <= i < |bs| && bs[i].kind != Sun ==> bs[i].center.Some? && bs[i].center.value < i
  }

  /** Centres point back and satellites point forward everywhere in the
      arena: enough for every traversal, but more than one traversal needs. */
  predicate WellLinked(bs: seq<Body>)
  {
    CentersBefore(bs) && Forward(LinksOf(bs))
  }

  /** What draw from i needs: centres point back, and every satellite
      reachable from i lies after the body that lists it. */
  predicate LinkedFrom(bs: seq<Body>, i: nat)
  {
    CentersBefore(bs) && ForwardFrom(LinksOf(bs), i)
  }

  /** What drawing the satellite list ss of body i needs. */
  predicate LinkedList(bs: seq<Body>, i: nat, ss: seq<nat>)
  {
    CentersBefore(bs) && i < |bs| && ForwardList(LinksOf(bs), i, ss)
  }

  /** The satellites of a body linked from i are a linked list after i. */
  lemma SatellitesLinked(bs: seq<Body>, i: nat)
    requires LinkedFrom(bs, i)
    ensures i < |bs| && LinkedList(bs, i, bs[i].satellites)
    ensures Between(bs[i].satellites, i, |bs|)
  {
    assert LinksOf(bs)[i] == bs[i].satellites;
  }

  /** SpaceObject::add: append obj to the satellite list, with no duplicate check. */
  function AddSatellite(b: Body, obj: nat): (r: Body)
    ensures |r.satellites| == |b.satellites| + 1
    ensures r.satellites[..|b.satellites|] == b.satellites && r.satellites[|b.satellites|] == obj
    ensures multiset(r.satellites) == multiset(b.satellites)[obj := multiset(b.satellites)[obj] + 1]
    ensures r.(satellites := b.satellites) == b
  {
    b.(satellites := b.satellites + [obj])
  }

  /** SpaceObject::toggleOrbit: sets the flag of this body only. */
  function ToggleOrbit(b: Body, show: bool): (r: Body)
    ensures r.showOrbit == show
    ensures r.(showOrbit := b.showOrbit) == b
  {
    b.(showOrbit := show)
  }

  /** getParentName: "" for a Sun, otherwise the name of the orbit centre.
      A non-Sun body without a centre dereferences a null pointer in the C++;
      the requires clause excludes it. */
  function ParentName(bs: seq<Body>, i: nat): string
    requires i < |bs|
    requires bs[i].kind != Sun ==> bs[i].center.Some? && bs[i].center.value < |bs|
  {
    if bs[i].kind == Sun then "" else bs[bs[i].center.value].name
  }

  /** The orbit-centre chain from the Sun that ends it down to i. */
  function Chain(bs: seq<Body>, i: nat): (c: seq<nat>)
    requires i < |bs| && CentersBefore(bs)
    ensures |c| >= 1 && c[|c| - 1] == i
    ensures forall k :: 0 <= k < |c| ==> c[k] <= i
    ensures bs[c[0]].kind == Sun
    ensures forall k :: 0 < k < |c| ==> bs[c[k]].kind != Sun && bs[c[k]].center == Some(c[k - 1])
    decreases i
  {
    if bs[i].kind == Sun then [i] else Chain(bs, bs[i].center.value) + [i]
  }

  /** The four steps a body adds to its frame in transform. */
  function OwnSteps(b: Body): (t: seq<Event>)
    ensures |t| == 4 && AllStateChanges(t)
    ensures t[2] == Translate(b.distance, 0.0, 0.0) && t[3] == SetColor(ColorOf(b.kind))
  {
    if b.kind == Sun then
      [Rotate(b.orbitTilt, XAxis), Rotate(b.orbitAngle, b.orbitAxis), Translate(b.distance, 0.0, 0.0), SetColor(SunColor)]
    else
      [Rotate(b.orbitTilt, b.orbitAxis), Rotate(b.orbitAngle, YAxis), Translate(b.distance, 0.0, 0.0), SetColor(ColorOf(b.kind))]
  }

  /** transform: the orbit centre's transform first, then this body's four
      steps; Sun::transform does not recurse. */
  function Transform(bs: seq<Body>, i: nat): (t: seq<Event>)
    requires i < |bs| && CentersBefore(bs)
    ensures |t| == 4 * |Chain(bs, i)|
    ensures AllStateChanges(t)
    decreases i
  {
    if bs[i].kind == Sun then OwnSteps(bs[i])
    else Transform(bs, bs[i].center.value) + OwnSteps(bs[i])
  }

  /** drawOrbit of body s: nothing for a Sun; otherwise the centre's transform,
      the orbit colour, the orbit tilt, a step back by the distance and a ring
      of that radius. */
  function DrawOrbit(bs: seq<Body>, s: nat): seq<Event>
    requires s < |bs| && CentersBefore(bs)
  {
    var b := bs[s];
    if b.kind == Sun then []
    else
      Transform(bs, b.center.value)
      + [SetColor(OrbitColor), Rotate(b.orbitTilt, b.orbitAxis), Translate(-b.distance, 0.0, 0.0), Torus(b.distance, s)]
  }

  /** The orbit rings of the listed satellites, each in its own frame. */
  function OrbitRings(bs: seq<Body>, ss: seq<nat>): seq<Event>
    requires CentersBefore(bs) && forall k :: 0 <= k < |ss| ==> ss[k] < |bs|
  {
    if ss == [] then [] else [Push] + DrawOrbit(bs, ss[0]) + [Pop] + OrbitRings(bs, ss[1..])
  }

  /** The body itself: its transform, its own spin, its sphere. */
  function DrawSelf(bs: seq<Body>, i: nat): seq<Event>
    requires i < |bs| && CentersBefore(bs)
  {
    [Push] + Transform(bs, i) + [Rotate(bs[i].rotationAngle, bs[i].rotationAxis), Sphere(bs[i].size, i), Pop]
  }

  /** SpaceObject::draw: satellites' orbit rings when the flag is set, then
      the body, then each satellite's subtree, in satellite order. */
  function Draw(bs: seq<Body>, i: nat): seq<Event>
    requires LinkedFrom(bs, i)
    decreases |bs| - i, 1, 0
  {
    assert LinksOf(bs)[i] == bs[i].satellites;
    assert ForwardList(LinksOf(bs), i, bs[i].satellites);
    (if bs[i].showOrbit then OrbitRings(bs, bs[i].satellites) else [])
    + DrawSelf(bs, i)
    + Subtrees(bs, i, bs[i].satellites)
  }

  function Subtrees(bs: seq<Body>, i: nat, ss: seq<nat>): seq<Event>
    requires LinkedList(bs, i, ss)
    decreases |bs| - i, 0, |ss|
  {
    if ss == [] then [] else [Push] + Draw(bs, ss[0]) + [Pop] + Subtrees(bs, i, ss[1..])
  }

  /** a and b agree on everything but the two angle accumulators. */
  predicate SameButAngles(a: Body, b: Body)
  {
    a.(rotationAngle := b.rotationAngle, orbitAngle := b.orbitAngle) == b
  }

  /** The angle update of one body: Sun::animate moves the rotation only. */
  function Tick(b: Body): (r: Body)
    ensures SameButAngles(b, r)
    ensures r.rotationAngle - b.rotationAngle == b.rotationSpeed
    ensures r.orbitAngle - b.orbitAngle == (if b.kind == Sun then 0.0 else b.orbitSpeed)
  {
    if b.kind == Sun then b.(rotationAngle := b.rotationAngle + b.rotationSpeed)
    else b.(rotationAngle := b.rotationAngle + b.rotationSpeed, orbitAngle := b.orbitAngle + b.orbitSpeed)
  }

  /** SpaceObject::animate (and Sun::animate): tick this body, then animate
      each satellite in order. Only angles change, and a Sun's orbit angle
      never does. */
  function Animate(bs: seq<Body>, i: nat): (r: seq<Body>)
    requires ForwardFrom(LinksOf(bs), i)
    ensures |r| == |bs| && LinksOf(r) == LinksOf(bs)
    ensures forall j :: 0 <= j < |bs| ==> SameButAngles(bs[j], r[j])
    ensures forall j :: 0 <= j < |bs| && bs[j].kind == Sun ==> r[j].orbitAngle == bs[j].orbitAngle
    decreases |bs| - i, 1, 0
  {
    var ticked := bs[i := Tick(bs[i])];
    assert LinksOf(ticked) == LinksOf(bs);
    AnimateAll(ticked, i, bs[i].satellites)
  }

  function AnimateAll(bs: seq<Body>, i: nat, ss: seq<nat>): (r: seq<Body>)
    requires i < |bs| && ForwardList(LinksOf(bs), i, ss)
    ensures |r| == |bs| && LinksOf(r) == LinksOf(bs)
    ensures forall j :: 0 <= j < |bs| ==> SameButAngles(bs[j], r[j])
    ensures forall j :: 0 <= j < |bs| && bs[j].kind == Sun ==> r[j].orbitAngle == bs[j].orbitAngle
    decreases |bs| - i, 0, |ss|
  {
    if ss == [] then bs else AnimateAll(Animate(bs, ss[0]), i, ss[1..])
  }
}
