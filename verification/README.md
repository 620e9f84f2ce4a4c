# Solar system scene graph — a Dafny model

This project models the core of a small OpenGL/GLUT solar-system viewer written
in C++. The core has three parts:

- **`SolarSystem`** reads one record per line of a `;`-separated text file.
  Each record creates a `Sun`, `Planet` or `Moon`, registers it, and attaches
  it to the satellite list of every registered body whose name equals the new
  body's parent name.
- **`SpaceObject`** and its subclasses form the scene tree. `draw` walks the
  tree and emits orbit rings, spheres and matrix pushes and pops. `animate`
  advances the rotation and orbit angles. `transform` replays the chain of
  orbit centres from the Sun down.
- **`vector_math.h`** supplies the point, vector and colour arithmetic.

The model keeps the registry as an arena `seq<Body>`. Every link is an index:

- the orbit centre is an `Option<nat>` back link;
- the satellites are an ordered `seq<nat>`.

Every OpenGL call becomes an event of a trace (module `Traces`): push, pop,
rotate, translate, set-colour, sphere and torus. Sphere and torus events carry
the index of the body they belong to. The in-place mutators (`add`,
`toggleOrbit`, `animate`) become functions that return the new body or arena.
Doubles are idealised as `real`.

Modules:

| module | file | contents |
|---|---|---|
| `Wrappers` | wrappers.dfy | `Option` |
| `VectorMath` | vector_math.dfy | `Point3`, `Vector3`, `Color` and their operations |
| `Traces` | traces.dfy | the rendering-event trace, push/pop balance, the sphere and ring ids a trace draws |
| `Links` | links.dfy | satellite graphs whose links point forward; path counts and pre-order |
| `SpaceObjects` | space_objects.dfy | `Body`, `add`, `toggleOrbit`, `getParentName`, `transform`, `drawOrbit`, `draw`, `animate` |
| `SpaceObjectFacts` | space_object_facts.dfy | what draw, transform and animate compute |
| `SolarSystem` | solar_system.dfy | `split`, record parsing, `get`, the private `add`, the constructor, `draw`, `animate`, `toggleOrbit` |
| `SolarSystemFacts` | solar_system_facts.dfy | split/join round trips, the shape of the built registry, scene-level facts |

### What draw and animate mean in this model

A body is attached to every body that carries its parent name, so it can sit
in several satellite lists. `draw` and `animate` then visit it once per
satellite path from the root. The model measures this with `Links.Paths(g, i, j)`, the
number of satellite paths from `i` to `j`. The results proved are:

- One `animate` from `i` advances body `j`'s rotation angle by
  `Paths(g, i, j)` × its rotation speed. The orbit angle moves the same way, except
  for a Sun, whose orbit angle never moves. `Scaled(n, s)`, the n-fold sum of
  `s`, equals `n * s` (`ScaledIsProduct`).
- With every orbit shown, `draw` from `i` emits one ring for `j` per path from
  `i` to `j`, minus one when `j == i`. A Sun never gets a ring.
- The spheres are emitted in pre-order of the satellite tree.

For records with distinct non-empty names and one leading Sun, every body is
reached by exactly one path (`BuiltIsTree`). From that, n ticks from the start
leave each angle at n × speed, and a fresh draw shows each body once
(`FreshTicks`, `FreshDrawShowsEachOnce`).

## Model

| member | source | states |
|---|---|---|
| VectorMath.Cross | vector_math.h:287-292 | the cross product is orthogonal to both operands under dot |
| VectorMath.CrossSelfIsZero | vector_math.h:287-292 | a × a is the zero vector |
| VectorMath.CrossAntiCommutes | vector_math.h:287-292 | a × b is the negation of b × a |
| VectorMath.CrossBasis | vector_math.h:287-292 | the unit axes follow the right-hand rule: x × y = z, y × z = x, z × x = y |
| VectorMath.CrossLagrange | vector_math.h:287-304 | Lagrange's identity: (a × b)·(a × b) = (a·a)(b·b) − (a·b)² |
| VectorMath.Dot | vector_math.h:301-304 | a vector's dot product with itself is never negative |
| VectorMath.DotCommutes | vector_math.h:301-304 | dot is symmetric |
| VectorMath.DotBasis | vector_math.h:301-304 | dot with the unit x, y or z axis gives that coordinate of the other vector |
| VectorMath.Add | vector_math.h:364-369 | the zero vector is an identity on either side |
| VectorMath.Sub | vector_math.h:377-382 | adding back what was subtracted restores the vector; subtracting zero changes nothing |
| VectorMath.Difference | vector_math.h:391-396 | the difference p1 − p2, added to p2, gives p1 |
| VectorMath.PointAdd | vector_math.h:198-203 | adding the zero vector leaves the point unchanged |
| VectorMath.PointSub | vector_math.h:223-228 | adding back the subtracted vector restores the point |
| VectorMath.ScaleAdd | vector_math.h:405-410 | scale 0 leaves the vector unchanged; scale 1 adds the other vector |
| VectorMath.PointScaleAdd | vector_math.h:237-242 | scale 0 leaves the point unchanged; scale 1 is a point add |
| VectorMath.AddSubInverse | vector_math.h:351-382 | Vector3 add and sub of the same vector undo each other, in both orders |
| VectorMath.DifferenceThenPointAdd | vector_math.h:391-396 | adding the difference p1 − p2 (Vector3::sub(p1, p2)) to p2 with Point3::add gives back p1 |
| VectorMath.PointAddSubInverse | vector_math.h:186-228 | Point3 add(v) then sub(v) restores the point, and so does sub then add |
| VectorMath.ScaleAddFacts | vector_math.h:405-410 | scaleAdd by 0 leaves a vector or point unchanged; scaleAdd by 1 is add |
| VectorMath.ScaleAddAccumulates | vector_math.h:405-410 | for a vector (Vector3::scaleAdd) and for a point (Point3::scaleAdd, vector_math.h:237-242), scaleAdd by s then by t with the same vector is scaleAdd by s + t |
| VectorMath.Clamp | vector_math.h:549-554 | with lo ≤ hi every channel ends in [lo, hi]: a channel in range is kept, one above hi becomes hi and one below lo becomes lo; with hi < lo every channel becomes lo |
| VectorMath.ClampIdempotent | vector_math.h:549-554 | for any bounds, reversed ones included, clamping twice with the same bounds is clamping once |
| VectorMath.Channel | vector_math.h:573-575 | a channel's byte lies in [0, 255]; inputs ≥ 1 give 255 and inputs ≤ 0 give 0; for inputs in [0, 1] the byte is 255 × c rounded to nearest, halves rounding up |
| VectorMath.ToInt | vector_math.h:566-579 | the packed colour lies in [0, 2^24 − 1], so it never reaches the sign bit of a 32-bit int |
| VectorMath.PackingIsSum | vector_math.h:578 | for 8-bit channels, the shift-and-or packing on 32-bit words equals r·65536 + g·256 + b |
| VectorMath.ToIntChannels | vector_math.h:566-579 | each channel is recovered from the packed value as (v / 65536) % 256, (v / 256) % 256 and v % 256 |
| VectorMath.ToIntSaturates | vector_math.h:566-579 | all channels ≥ 1 pack to 0xFFFFFF; their negations pack to 0 |
| SpaceObjects.AddSatellite | space_objects.h:71-74 | add appends exactly one entry at the end, keeps earlier entries in order, allows duplicates (its count rises by one) and changes no other field |
| SpaceObjects.ToggleOrbit | space_objects.h:169-172 | the flag becomes the argument; nothing else of the body changes |
| SpaceObjects.Chain | space_objects.h:113-120 | the orbit-centre chain starts at a Sun, ends at the body, and each entry is the orbit centre of the next |
| SpaceObjects.Transform | space_objects.h:113-120 | the transform has four steps per body on the chain from the Sun (4 × (depth + 1)), and every step only changes GL state, never draws |
| SpaceObjects.OwnSteps | space_objects.h:116-119 | one body's part of the transform is four steps that only change GL state, ending in a translation by the body's distance and its own colour whether the body is a Sun (Sun::transform, space_objects.h:247-250, rotates about other axes) or not |
| SpaceObjects.Tick | space_objects.h:122-126 | one body's update: rotation angle += rotation speed; orbit angle += orbit speed, or stays put for a Sun; nothing else changes |
| SpaceObjects.Animate | space_objects.h:122-132 | with links forward only on the part reached from the start body, animate keeps the arena's size and every satellite list; it changes only angles, and never a Sun's orbit angle |
| SpaceObjects.AnimateAll | space_objects.h:127-131 | animating a satellite list in order has the same frame properties as Animate |
| SpaceObjectFacts.AnimateAdvancesByPaths | space_objects.h:122-132 | after animate from i, body j's rotation angle has grown by Paths(i, j) × rotation speed; its orbit angle by Paths(i, j) × orbit speed, or by nothing for a Sun |
| SpaceObjectFacts.AnimateAllAdvancesByPaths | space_objects.h:127-131 | the same for a satellite list, counting paths through the list |
| SpaceObjectFacts.ScaledIsProduct | space_objects.h:124-125 | the angle reached after n additions of a speed s is n × s |
| SpaceObjectFacts.TicksAccumulate | space_objects.h:122-132 | after n ticks, body j's angles have grown by n × Paths(0, j) × its speeds; a Sun's orbit angle has not moved |
| SpaceObjectFacts.TransformFollowsChain | space_objects.h:245-251 | the transform is the Sun's own four steps (orbit tilt about x, orbit angle about the orbit axis, translate by distance, Sun colour) and then each further body's four steps, along the chain |
| SpaceObjectFacts.SunOverrides | space_objects.h:240-267 | a Sun's transform does not recurse (it is the same in an arena holding only that Sun), its drawOrbit draws nothing, its parent name is "" and its orbit angle never moves |
| SpaceObjectFacts.TransformReadsOrbitsOnly | space_objects.h:113-120 | transform reads only kinds, centres, distances, orbit tilts, orbit axes and orbit angles; rotation angle, rotation tilt, speeds, size and satellites play no part |
| SpaceObjectFacts.DrawOrbitDraws | space_objects.h:104-111 | drawOrbit is balanced; it draws one ring, for the satellite itself, and no sphere; Sun::drawOrbit draws nothing |
| SpaceObjectFacts.DrawSelfDraws | space_objects.h:89-93 | the body's own part of draw is balanced and draws exactly its own sphere and no ring |
| SpaceObjectFacts.OrbitRingsDraw | space_objects.h:78-87 | the orbit-ring loop is balanced and draws no sphere |
| SpaceObjectFacts.OrbitRingsCount | space_objects.h:78-87 | the orbit-ring loop draws j's ring as often as j occurs in the satellite list, and never for a Sun |
| SpaceObjectFacts.DrawParts | space_objects.h:76-102 | draw's spheres are its own followed by its subtrees'; its rings are the orbit rings (when the flag is set) followed by its subtrees' |
| SpaceObjectFacts.DrawNested | space_objects.h:76-102 | every push in a draw is matched by a later pop, and the trace never pops below its start |
| SpaceObjectFacts.DrawSpheresInPreorder | space_objects.h:76-102 | draw emits spheres in pre-order of the satellite tree (body first, then each satellite subtree in insertion order) |
| SpaceObjectFacts.HiddenOrbitsDrawNoRing | space_objects.h:78-87 | with every flag off, draw emits no ring |
| SpaceObjectFacts.ShownOrbitsDrawRingPerPath | space_objects.h:76-111 | with every flag on, draw from i emits j's ring once per path from i to j (minus one when j == i), and never for a Sun |
| SpaceObjectFacts.DrawIgnoresRotationTilt | space_objects.h:89-93 | two arenas that differ only in rotation tilts draw the same trace: the rotation tilt is read nowhere |
| SolarSystem.Split | solar_system.h:137-145 | no token contains the delimiter; the empty string gives no tokens, and only it does |
| SolarSystem.KindOf | solar_system.h:81-92 | the kind is Sun exactly when field 0 is "Sun", Planet exactly when it is "Planet", otherwise Moon |
| SolarSystem.Get | solar_system.h:33-41 | get returns the first registered body with the name, or None exactly when no body has it |
| SolarSystem.Attach | solar_system.h:21-31 | the private add appends the new body to the satellites of every registered body whose name equals the parent name, and changes no other body |
| SolarSystem.NewBody | solar_system.h:69-93 | the new body carries the record's parsed fields, angles 0 and orbit shown; its centre is get(field 4) over the bodies registered before it; it has no satellites yet |
| SolarSystem.Register | solar_system.h:57-95 | a comment line changes nothing. Any other line appends one body described by the line, with its centre resolved before it was appended. The new index joins the satellite list of every body carrying the parent name, including the new body itself when its name is its parent name |
| SolarSystem.Matching | solar_system.h:21-31 | the matching list holds exactly the indices from lo on whose parent name is the given name, in ascending order |
| SolarSystem.Build | solar_system.h:44-108 | the registry has one body per non-comment line, in line order, each described by its line. Its centre is the first earlier body with the parent name. Its satellites are exactly the later-or-equal records whose parent name is its name, in order |
| SolarSystem.SystemDraw | solar_system.h:110-113 | drawing the system draws from index 0, needing forward links only on the part reached from it: balanced, with spheres in pre-order from the first body |
| SolarSystem.SystemAnimate | solar_system.h:115-118 | animating the system animates from index 0, needing forward links only on the part reached from it, and changes only angles |
| SolarSystem.SystemAnimateAdvances | solar_system.h:115-118 | each body's angles grow by Paths(0, j) × its speeds; a Sun's orbit angle stays |
| SolarSystem.ToggleAll | solar_system.h:120-126 | every body, reachable or not, gets the flag; nothing else changes, and the links stay well formed |
| SolarSystemFacts.SplitJoin | solar_system.h:137-145 | joining the tokens with the delimiter gives back the string, less one trailing delimiter |
| SolarSystemFacts.JoinSplit | solar_system.h:137-145 | splitting the join of delimiter-free tokens, the last non-empty, gives the tokens back |
| SolarSystemFacts.SplitCount | solar_system.h:137-145 | the token count is the delimiter count, plus one unless the string is empty or ends in the delimiter |
| SolarSystemFacts.FieldOfJoin | solar_system.h:61-62 | field n of a record assembled from fields is field n, or "" past the end |
| SolarSystemFacts.ParentNameIsRecordParent | space_objects.h:139-142 | getParentName of a registered body is "" for a Sun (Sun::getParentName) and otherwise its orbit centre's name, which is field 4 of its record |
| SolarSystemFacts.CenterIsParent | solar_system.h:71 | a non-Sun body's orbit centre is an earlier body whose name is the record's parent name, so never the body itself |
| SolarSystemFacts.FirstIsSun | solar_system.h:44-108 | the first registered body is a Sun: a non-Sun first record has no earlier body to orbit |
| SolarSystemFacts.SatelliteOf | solar_system.h:21-31 | m is a satellite of i if and only if m ≥ i and m's parent name is i's name |
| SolarSystemFacts.BuiltWellLinked | solar_system.h:21-31 | when no record names itself as parent, centres point back and satellites point forward |
| SolarSystemFacts.BuiltLinkedFrom | solar_system.h:21-31 | when no record names itself as parent, the links reached from any body point forward, so draw and animate are defined from it |
| SolarSystemFacts.LinkedFromIffNoSelfParentReached | solar_system.h:21-31 | the links reached from body i point forward if and only if no record reached from i names itself as parent; an unreachable self-parent is harmless |
| SolarSystemFacts.SelfParentLoops | solar_system.h:21-31 | a record whose parent name is its own name becomes its own satellite, so its links are not forward and draw/animate would not terminate |
| SolarSystemFacts.BuiltReachesAll | solar_system.h:21-31 | with no self-parent and only the first record a Sun, every body is reachable from index 0 |
| SolarSystemFacts.BuiltIsTree | solar_system.h:21-31 | with distinct non-empty names and one leading Sun, every body is reached from index 0 by exactly one path |
| SolarSystemFacts.SunInNoSatelliteList | solar_system.h:21-31 | when no record has the empty name, a Sun (whose parent name is "") is in no satellite list; if the links from index 0 point forward, a Sun after the first record is reached by no path from it |
| SolarSystemFacts.LaterSunUnreached | solar_system.h:21-31 | with distinct non-empty names, a Sun after the first record is in no satellite list and is unreachable from index 0 |
| SolarSystemFacts.RegistryUnique | solar_system.h:44-108 | the registry a record list describes is unique |
| SolarSystemFacts.CommentsIgnored | solar_system.h:57-58 | two files with the same non-comment lines build the same registry |
| SolarSystemFacts.FreshDrawShowsEachOnce | solar_system.h:110-113 | a freshly built tree draws every body's sphere once and every orbit ring but the Sun's once |
| SolarSystemFacts.FreshTicks | solar_system.h:115-118 | after n ticks of a freshly built tree, each rotation angle is n × its speed, each orbit angle n × its speed, and the Sun's orbit angle is 0 |
| SolarSystemFacts.ToggleLastWins | solar_system.h:120-126 | toggling twice is toggling with the second value |
| SolarSystemFacts.ToggleOffDrawsNoRing | solar_system.h:120-126 | after toggleOrbit(false) draw emits no ring and the same spheres as before |
| SolarSystemFacts.ToggleOnDrawsRingPerPath | solar_system.h:120-126 | after toggleOrbit(true) draw emits j's ring once per path from index 0 to j (none for the root or a Sun) |

## Left out

- OpenGL/GLUT calls are not executed. Each call is an event in a trace, and the
  slice/stack arguments of `glutWireSphere`/`glutWireTorus` are dropped. The
  torus event keeps the ring radius.
- File I/O is left out. `Build` takes the lines of the file. The `eof` test
  drops a last line that has no trailing newline, so the input list is simply
  shorter. A file that cannot be opened sets only `failbit`, never `eofbit`, so
  the loop keeps reading `""` and indexes `tokens[5]` past the end. That is
  undefined behaviour inside an endless loop, and it falls under the same
  precondition as a malformed line.
- The constructor's `catch (char*)` (solar_system.h:104-107) is not modelled.
  Nothing in the `try` block throws a `char*`, so the handler never runs.
- `atof` is a parameter `string -> real`; number parsing is not modelled.
- Doubles are idealised as exact reals. Rounding in angle accumulation is not
  modelled.
- `SolarSystem.Build`: it requires `BuildPre`. Every non-comment line must have
  at least eleven fields and two three-part axis fields. Every non-Sun record
  must name a body registered on an earlier line. In the C++, a shorter line
  indexes past the token vector, and an unresolved parent makes `getParentName`
  dereference NULL. Both are undefined behaviour, not handled error paths.
- An empty line is not a comment (`line[0]` is the terminating NUL). It has no
  fields, so it falls under the same precondition.
- Destructors are not modelled. `~SpaceObject` deletes the satellite vector
  but not the bodies in it (space_objects.h:49), and then deletes its orbit
  centre (space_objects.h:50-52). `~SolarSystem` deletes every registered body
  (solar_system.h:130-133). A centre is therefore deleted once by the registry
  and again by each body orbiting it.
- `Color::clamp` shadows `std::min`/`std::max` with its own parameters, and
  `Vector3::add(Vector3)` passes `this` (a pointer) where a value is expected.
  Neither compiles as written. Both are modelled as evidently intended.
- `length`, `normalize` and `distance` (which call `Math.sqrt`, itself not
  C++) and `lengthSquared` are not modelled. Neither are `toString`,
  constructors and accessors, `Color::add`/`scaleAdd`, or the `Tuple3` base
  class.
- The viewer glue (`scene.h`, the camera and keyboard handling under `trunk/`)
  is not part of this model.
- `VectorMath.ScaleAdd`: `Vector3::scaleAdd` takes a `Tuple3`, so a `Point3`
  may be passed as well; the model takes a `Vector3`, whose coordinates are
  all the function reads.
- `SpaceObjects.Animate`, `SpaceObjects.Draw`: both require that the satellite
  links reached from the start body point forward (`LinkedFrom`, `ForwardFrom`).
  Bodies that are not reached are not constrained.
  `LinkedFromIffNoSelfParentReached` shows that this holds exactly when no
  reached record names itself as parent. In the C++, a reached body that is its
  own satellite recurses until the stack overflows. Non-termination itself is
  not modelled.
- `VectorMath.ToInt`: computed over unbounded integers. The proved range
  (below 2^24) shows that the 32-bit `int` of the C++ cannot overflow.
  `PackingIsSum` relates the shift-and-or to the sum on 32-bit words.

Facts about the code that shape the model:

- An unresolved parent name does not leave the body detached. `get` returns
  NULL, and the private `add` calls `getParentName` (solar_system.h:25), which
  dereferences the NULL centre (space_objects.h:139-142). The model makes it a
  precondition.
- The private `add` attaches a body to every registered body whose name is the
  parent name (solar_system.h:23-30), not only to its orbit centre. That may
  include the body itself. The model counts paths accordingly.
- A Sun's transform is not an identity. It rotates by its orbit tilt and angle
  and translates by its own distance (space_objects.h:245-251).
- A Sun's parent name is `""` (space_objects.h:264-267), so a Sun is attached to
  any body named `""`. When names are distinct, a Sun after the first record is
  unreachable (`LaterSunUnreached`).
