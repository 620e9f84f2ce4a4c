/** The SolarSystem class of solar_system.h: the registry of every body, built
    line by line from the configuration text, and the three operations the
    scene calls on it. The file itself is not read here: the builder takes the
    complete lines, and `atof` is a parameter (C's string-to-double). */
module SolarSystem {
  import opened Wrappers
  import opened VectorMath
  import opened Links
  import opened Traces
  import opened SpaceObjects
  import opened SpaceObjectFacts

  // ------------------------------------------------------------------ split

  /** Index of the first d in s, or |s| when there is none. */
  function Find(s: string, d: char): (k: nat)
    ensures k <= |s| && (k < |s| ==> s[k] == d)
    ensures forall m :: 0 <= m < k ==> s[m] != d
  {
    if s == [] then 0 else if s[0] == d then 0 else 1 + Find(s[1..], d)
  }

  /** split: repeated getline(input, item, d). Each call reads up to the next
      d and drops it; a call that finds the input exhausted fails and ends
      the loop, so "" gives no token and a trailing d no trailing empty token. */
  function Split(s: string, d: char): (r: seq<string>)
    ensures forall k :: 0 <= k < |r| ==> d !in r[k]
    ensures s == [] <==> r == []
    decreases |s|
  {
    if s == [] then []
    else
      var k := Find(s, d);
      if k == |s| then [s] else [s[..k]] + Split(s[k + 1..], d)
  }

  /** The tokens with d between each pair: the inverse of Split. */
  function Join(ts: seq<string>, d: char): string
  {
    if ts == [] then [] else if |ts| == 1 then ts[0] else ts[0] + [d] + Join(ts[1..], d)
  }

  // ---------------------------------------------------------------- records

  /** A line starting with '*' is a comment. */
  predicate IsComment(line: string)
  {
    |line| > 0 && line[0] == '*'
  }

  /** Field n of a record line, "" when the line has fewer fields. */
  function Field(line: string, n: nat): string
  {
    var fields := Split(line, ';');
    if n < |fields| then fields[n] else ""
  }

  /** The eleven fields the constructor indexes, and three components in each
      of the two axis fields; anything shorter is read out of bounds. */
  predicate WellFormedLine(line: string)
  {
    && |Split(line, ';')| >= 11
    && |Split(Field(line, 5), ' ')| >= 3
    && |Split(Field(line, 7), ' ')| >= 3
  }

  /** Field 0 picks the subclass by exact comparison; anything else is a Moon. */
  function KindOf(tag: string): (k: Kind)
    ensures k == Sun <==> tag == "Sun"
    ensures k == Planet <==> tag == "Planet"
  {
    if tag == "Sun" then Sun else if tag == "Planet" then Planet else Moon
  }

  /** An axis field: three space-separated numbers. */
  function ParseAxis(field: string, atof: string -> real): Vector3
    requires |Split(field, ' ')| >= 3
  {
    var parts := Split(field, ' ');
    Vector3(atof(parts[0]), atof(parts[1]), atof(parts[2]))
  }

  /** The name a new body is attached under: getParentName is "" for a Sun
      and field 4 (the name of the orbit centre) for anything else. */
  function RecordParent(line: string): string
  {
    if KindOf(Field(line, 0)) == Sun then "" else Field(line, 4)
  }

  /** The lines that become bodies, in order. */
  function RecordLines(lines: seq<string>): (rs: seq<string>)
    ensures forall k :: 0 <= k < |rs| ==> !IsComment(rs[k]) && rs[k] in lines
    ensures |rs| <= |lines|
  {
    if lines == [] then []
    else
      var last := lines[|lines| - 1];
      RecordLines(lines[..|lines| - 1]) + (if IsComment(last) then [] else [last])
  }

  /** The names of the bodies the lines describe, in registry order. */
  function RecordNames(lines: seq<string>): (ns: seq<string>)
    ensures |ns| == |RecordLines(lines)|
  {
    var rs := RecordLines(lines);
    seq(|rs|, k requires 0 <= k < |rs| => Field(rs[k], 1))
  }

  /** What the constructor needs of its input: every record line is
      well-formed, and every non-Sun record names a body registered on an
      earlier line (otherwise get returns NULL and getParentName dereferences
      it). */
  predicate BuildPre(lines: seq<string>)
  {
    && (forall k :: 0 <= k < |lines| && !IsComment(lines[k]) ==> WellFormedLine(lines[k]))
    && (forall k :: 0 <= k < |lines| && !IsComment(lines[k]) && KindOf(Field(lines[k], 0)) != Sun ==>
          Field(lines[k], 4) in RecordNames(lines[..k]))
  }

  // --------------------------------------------------------------- registry

  /** get: the first registered body with this name, or None (NULL). */
  function Get(reg: seq<Body>, name: string): (r: Option<nat>)
    ensures r.Some? ==> r.value < |reg| && reg[r.value].name == name
    ensures r.Some? ==> forall m :: 0 <= m < r.value ==> reg[m].name != name
    ensures r.None? ==> forall m :: 0 <= m < |reg| ==> reg[m].name != name
  {
    GetFrom(reg, name, 0)
  }

  function GetFrom(reg: seq<Body>, name: string, k: nat): (r: Option<nat>)
    requires k <= |reg|
    requires forall m :: 0 <= m < k ==> reg[m].name != name
    ensures r.Some? ==> k <= r.value < |reg| && reg[r.value].name == name
    ensures r.Some? ==> forall m :: 0 <= m < r.value ==> reg[m].name != name
    ensures r.None? ==> forall m :: 0 <= m < |reg| ==> reg[m].name != name
    decreases |reg| - k
  {
    if k == |reg| then None
    else if reg[k].name == name then Some(k)
    else GetFrom(reg, name, k + 1)
  }

  /** The private add: the loop over the registry that appends obj to the
      satellites of every body named parent. The loop re-reads
      getParentName each round, but no name changes, so it is one value. */
  function Attach(reg: seq<Body>, obj: nat, parent: string): (r: seq<Body>)
    ensures |r| == |reg|
    ensures forall k :: 0 <= k < |reg| && reg[k].name == parent ==> r[k] == AddSatellite(reg[k], obj)
    ensures forall k :: 0 <= k < |reg| && reg[k].name != parent ==> r[k] == reg[k]
  {
    AttachFrom(reg, obj, parent, 0)
  }

  function AttachFrom(reg: seq<Body>, obj: nat, parent: string, k: nat): (r: seq<Body>)
    requires k <= |reg|
    ensures |r| == |reg|
    ensures forall m :: 0 <= m < k ==> r[m] == reg[m]
    ensures forall m :: k <= m < |reg| && reg[m].name == parent ==> r[m] == AddSatellite(reg[m], obj)
    ensures forall m :: k <= m < |reg| && reg[m].name != parent ==> r[m] == reg[m]
    decreases |reg| - k
  {
    if k == |reg| then reg
    else
      var here := if reg[k].name == parent then AddSatellite(reg[k], obj) else reg[k];
      AttachFrom(reg[k := here], obj, parent, k + 1)
  }

  /** A line the constructor can process against the current registry. */
  predicate Admissible(reg: seq<Body>, line: string)
  {
    !IsComment(line) ==>
      && WellFormedLine(line)
      && (KindOf(Field(line, 0)) != Sun ==> Get(reg, Field(line, 4)).Some?)
  }

  /** The body a record line describes, before it is attached. */
  predicate Describes(b: Body, line: string, atof: string -> real)
    requires WellFormedLine(line)
  {
    && b.kind == KindOf(Field(line, 0))
    && b.name == Field(line, 1)
    && b.rotationSpeed == atof(Field(line, 2))
    && b.distance == atof(Field(line, 3))
    && b.rotationAxis == ParseAxis(Field(line, 5), atof)
    && b.size == atof(Field(line, 6))
    && b.orbitAxis == ParseAxis(Field(line, 7), atof)
    && b.orbitTilt == atof(Field(line, 8))
    && b.rotationTilt == atof(Field(line, 9))
    && b.orbitSpeed == atof(Field(line, 10))
    && b.rotationAngle == 0.0 && b.orbitAngle == 0.0
    && b.showOrbit
  }

  /** The body a record line creates (new Sun/Planet/Moon): fields parsed
      with atof, centre resolved by get, angles zero, orbit shown, no
      satellites yet. */
  function NewBody(reg: seq<Body>, line: string, atof: string -> real): (b: Body)
    requires WellFormedLine(line)
    ensures Describes(b, line, atof) && b.center == Get(reg, Field(line, 4)) && b.satellites == []
  {
    Body(
      KindOf(Field(line, 0)), Field(line, 1), atof(Field(line, 2)), atof(Field(line, 3)),
      Get(reg, Field(line, 4)), ParseAxis(Field(line, 5), atof), atof(Field(line, 6)),
      ParseAxis(Field(line, 7), atof), atof(Field(line, 8)), atof(Field(line, 9)), atof(Field(line, 10)),
      0.0, 0.0, true, [])
  }

  /** One round of the constructor's loop: skip a comment; otherwise build the
      body with its centre resolved by get, register it, then attach it. */
  function Register(reg: seq<Body>, line: string, atof: string -> real): (r: seq<Body>)
    requires Admissible(reg, line)
    ensures IsComment(line) ==> r == reg
    ensures !IsComment(line) ==> |r| == |reg| + 1
    ensures !IsComment(line) ==> Describes(r[|reg|], line, atof) && r[|reg|].center == Get(reg, Field(line, 4))
    ensures !IsComment(line) ==> forall k :: 0 <= k < |reg| ==> r[k].(satellites := reg[k].satellites) == reg[k]
    ensures !IsComment(line) ==> forall k :: 0 <= k < |reg| ==>
              r[k].satellites == reg[k].satellites + (if reg[k].name == RecordParent(line) then [|reg|] else [])
    ensures !IsComment(line) ==> r[|reg|].satellites == (if Field(line, 1) == RecordParent(line) then [|reg|] else [])
  {
    if IsComment(line) then reg
    else
      var body := NewBody(reg, line, atof);
      var added := reg + [body];
      var parent := ParentName(added, |reg|);
      assert parent == RecordParent(line);
      var r := Attach(added, |reg|, parent);
      AttachNew(reg, body, parent, r);
      DescribesIgnoresSatellites(r[|reg|], body, line, atof);
      r
  }

  /** Attaching a newly appended body: each earlier body named parent gains
      it as its last satellite, the new body gains itself when it bears that
      name, and nothing else changes. */
  lemma AttachNew(reg: seq<Body>, body: Body, parent: string, r: seq<Body>)
    requires body.satellites == [] && r == Attach(reg + [body], |reg|, parent)
    ensures |r| == |reg| + 1 && r[|reg|].(satellites := body.satellites) == body
    ensures r[|reg|].satellites == (if body.name == parent then [|reg|] else [])
    ensures forall k :: 0 <= k < |reg| ==> r[k].(satellites := reg[k].satellites) == reg[k]
    ensures forall k :: 0 <= k < |reg| ==>
              r[k].satellites == reg[k].satellites + (if reg[k].name == parent then [|reg|] else [])
  {
    var added := reg + [body];
    assert forall k :: 0 <= k < |reg| ==> added[k] == reg[k];
  }

  /** The indices m from lo on with ps[m] == t, ascending. */
  function Matching(ps: seq<string>, t: string, lo: nat): (ss: seq<nat>)
    requires lo <= |ps|
    ensures forall m :: m in ss <==> lo <= m < |ps| && ps[m] == t
    ensures forall a, b :: 0 <= a < b < |ss| ==> ss[a] < ss[b]
    decreases |ps|
  {
    if |ps| == lo then []
    else
      var last := |ps| - 1;
      var earlier := Matching(ps[..last], t, lo);
      assert forall a :: 0 <= a < |earlier| ==> earlier[a] < last by {
        forall a | 0 <= a < |earlier|
          ensures earlier[a] < last
        {
          assert earlier[a] in earlier;
        }
      }
      earlier + (if ps[last] == t then [last] else [])
  }

  /** The parent name of each record: "" for a Sun, field 4 otherwise. */
  function RecordParents(recs: seq<string>): (ps: seq<string>)
    ensures |ps| == |recs| && forall m :: 0 <= m < |recs| ==> ps[m] == RecordParent(recs[m])
  {
    seq(|recs|, m requires 0 <= m < |recs| => RecordParent(recs[m]))
  }

  lemma RecordParentsAppend(recs: seq<string>, line: string)
    ensures RecordParents(recs + [line]) == RecordParents(recs) + [RecordParent(line)]
  {
    var a := RecordParents(recs + [line]);
    var b := RecordParents(recs) + [RecordParent(line)];
    forall m | 0 <= m < |a|
      ensures a[m] == b[m]
    {
      if m < |recs| {
        assert (recs + [line])[m] == recs[m];
      }
    }
  }

  /** One registration extends the Matching list of an earlier body by the
      new record where its parent name matches, and gives the new record its
      own list. */
  lemma MatchingStep(reg: seq<Body>, r: seq<Body>, ps: seq<string>, parent: string, k: nat)
    requires |reg| == |ps| && |r| == |reg| + 1 && k < |r|
    requires k < |reg| ==> reg[k].satellites == Matching(ps, reg[k].name, k)
    requires k < |reg| ==> r[k].name == reg[k].name
    requires k < |reg| ==> r[k].satellites == reg[k].satellites + (if reg[k].name == parent then [|reg|] else [])
    requires k == |reg| ==> r[k].satellites == (if r[k].name == parent then [|reg|] else [])
    ensures r[k].satellites == Matching(ps + [parent], r[k].name, k)
  {
    assert (ps + [parent])[..|reg|] == ps;
  }

  /** Every satellite list of r is the Matching list of its body's name
      from its own index on: body k holds, in registration order, each body
      from k on whose parent name is k's name. */
  predicate SatellitesMatch(r: seq<Body>, ps: seq<string>)
  {
    |r| == |ps| && forall k :: 0 <= k < |r| ==> r[k].satellites == Matching(ps, r[k].name, k)
  }

  /** One registration keeps the satellite lists matching. */
  lemma SatellitesStep(reg: seq<Body>, r: seq<Body>, ps: seq<string>, parent: string)
    requires SatellitesMatch(reg, ps) && |r| == |reg| + 1
    requires forall k :: 0 <= k < |reg| ==> r[k].name == reg[k].name
    requires forall k :: 0 <= k < |reg| ==>
               r[k].satellites == reg[k].satellites + (if reg[k].name == parent then [|reg|] else [])
    requires r[|reg|].satellites == (if r[|reg|].name == parent then [|reg|] else [])
    ensures SatellitesMatch(r, ps + [parent])
  {
    forall k | 0 <= k < |r|
      ensures r[k].satellites == Matching(ps + [parent], r[k].name, k)
    {
      MatchingStep(reg, r, ps, parent, k);
    }
  }

  /** Registering a line keeps the satellite lists matching the parent names
      of the records so far. */
  lemma RegisterAttaches(reg: seq<Body>, recs: seq<string>, line: string, atof: string -> real)
    requires SatellitesMatch(reg, RecordParents(recs)) && Admissible(reg, line)
    ensures SatellitesMatch(Register(reg, line, atof), RecordParents(recs + (if IsComment(line) then [] else [line])))
  {
    if IsComment(line) {
      assert recs + [] == recs;
    } else {
      var r := Register(reg, line, atof);
      RecordParentsAppend(recs, line);
      assert forall k :: 0 <= k < |reg| ==> r[k].(satellites := reg[k].satellites) == reg[k];
      assert r[|reg|].name == Field(line, 1);
      SatellitesStep(reg, r, RecordParents(recs), RecordParent(line));
    }
  }

  /** r is the registry built from the record lines recs: one body per
      record, in order, each described by its record, with its centre the
      first earlier body named in field 4 (None when there is none). */
  predicate Built(r: seq<Body>, recs: seq<string>, atof: string -> real)
  {
    && |r| == |recs|
    && (forall k :: 0 <= k < |r| ==> WellFormedLine(recs[k]) && Describes(r[k], recs[k], atof))
    && (forall k :: 0 <= k < |r| ==> r[k].center == Get(r[..k], Field(recs[k], 4)))
    && (forall k :: 0 <= k < |r| && r[k].kind != Sun ==> r[k].center.Some?)
  }

  /** The SolarSystem constructor over the lines of the file. */
  function Build(lines: seq<string>, atof: string -> real): (r: seq<Body>)
    requires BuildPre(lines)
    ensures Built(r, RecordLines(lines), atof)
    ensures SatellitesMatch(r, RecordParents(RecordLines(lines)))
    decreases |lines|, 1
  {
    if lines == [] then []
    else
      var init := lines[..|lines| - 1];
      var last := lines[|lines| - 1];
      BuildPrePrefix(lines);
      var reg := Build(init, atof);
      NamesAgree(lines, atof);
      RegisterExtends(reg, RecordLines(init), last, atof);
      RegisterAttaches(reg, RecordLines(init), last, atof);
      Register(reg, last, atof)
  }

  /** The precondition holds of every prefix. */
  lemma BuildPrePrefix(lines: seq<string>)
    requires BuildPre(lines) && lines != []
    ensures BuildPre(lines[..|lines| - 1])
    ensures RecordLines(lines) == RecordLines(lines[..|lines| - 1]) + (if IsComment(lines[|lines| - 1]) then [] else [lines[|lines| - 1]])
  {
    var init := lines[..|lines| - 1];
    forall k | 0 <= k < |init|
      ensures init[..k] == lines[..k]
    {
    }
  }

  /** get only reads names. */
  lemma GetReadsNames(a: seq<Body>, b: seq<Body>, name: string)
    requires |a| == |b| && forall k :: 0 <= k < |a| ==> a[k].name == b[k].name
    ensures Get(a, name) == Get(b, name)
  {
  }

  /** Describes does not look at the satellite list. */
  lemma DescribesIgnoresSatellites(a: Body, b: Body, line: string, atof: string -> real)
    requires WellFormedLine(line) && a.(satellites := b.satellites) == b
    ensures Describes(a, line, atof) == Describes(b, line, atof)
  {
  }

  /** An entry of a built registry keeps its description and its centre
      when a later body is appended and satellites are attached. */
  lemma EarlierEntryKept(reg: seq<Body>, r: seq<Body>, recs: seq<string>, atof: string -> real, k: nat)
    requires Built(reg, recs, atof) && k < |reg| < |r|
    requires forall m :: 0 <= m < |reg| ==> r[m].(satellites := reg[m].satellites) == reg[m]
    ensures WellFormedLine(recs[k]) && Describes(r[k], recs[k], atof)
    ensures r[k].center == Get(r[..k], Field(recs[k], 4))
    ensures r[k].kind != Sun ==> r[k].center.Some?
  {
    DescribesIgnoresSatellites(r[k], reg[k], recs[k], atof);
    GetReadsNames(r[..k], reg[..k], Field(recs[k], 4));
  }

  /** The entry a record line adds is described by it, and its centre is
      the body get finds among the earlier ones. */
  lemma NewEntryBuilt(reg: seq<Body>, line: string, atof: string -> real)
    requires Admissible(reg, line) && !IsComment(line)
    ensures WellFormedLine(line) && Describes(Register(reg, line, atof)[|reg|], line, atof)
    ensures Register(reg, line, atof)[|reg|].center == Get(Register(reg, line, atof)[..|reg|], Field(line, 4))
    ensures Register(reg, line, atof)[|reg|].kind != Sun ==> Register(reg, line, atof)[|reg|].center.Some?
  {
    var r := Register(reg, line, atof);
    GetReadsNames(r[..|reg|], reg, Field(line, 4));
  }

  /** A built registry with one more entry, described by the line, whose
      earlier entries changed only in their satellites, is built from the
      records plus that line. */
  lemma BuiltExtends(reg: seq<Body>, r: seq<Body>, recs: seq<string>, line: string, atof: string -> real)
    requires Built(reg, recs, atof) && |r| == |reg| + 1
    requires forall m :: 0 <= m < |reg| ==> r[m].(satellites := reg[m].satellites) == reg[m]
    requires WellFormedLine(line) && Describes(r[|reg|], line, atof)
    requires r[|reg|].center == Get(r[..|reg|], Field(line, 4))
    requires r[|reg|].kind != Sun ==> r[|reg|].center.Some?
    ensures Built(r, recs + [line], atof)
  {
    var recs' := recs + [line];
    forall k | 0 <= k < |r|
      ensures WellFormedLine(recs'[k]) && Describes(r[k], recs'[k], atof)
      ensures r[k].center == Get(r[..k], Field(recs'[k], 4))
      ensures r[k].kind != Sun ==> r[k].center.Some?
    {
      EntryAfterExtend(reg, r, recs, line, atof, k);
    }
  }

  /** Entry k of the extended registry, for BuiltExtends. */
  lemma EntryAfterExtend(reg: seq<Body>, r: seq<Body>, recs: seq<string>, line: string, atof: string -> real, k: nat)
    requires Built(reg, recs, atof) && |r| == |reg| + 1 && k < |r|
    requires forall m :: 0 <= m < |reg| ==> r[m].(satellites := reg[m].satellites) == reg[m]
    requires WellFormedLine(line) && Describes(r[|reg|], line, atof)
    requires r[|reg|].center == Get(r[..|reg|], Field(line, 4))
    requires r[|reg|].kind != Sun ==> r[|reg|].center.Some?
    ensures WellFormedLine((recs + [line])[k]) && Describes(r[k], (recs + [line])[k], atof)
    ensures r[k].center == Get(r[..k], Field((recs + [line])[k], 4))
    ensures r[k].kind != Sun ==> r[k].center.Some?
  {
    if k < |reg| {
      assert (recs + [line])[k] == recs[k];
      EarlierEntryKept(reg, r, recs, atof, k);
    } else {
      assert (recs + [line])[k] == line;
    }
  }

  /** One round of the loop extends a built registry by the line's body. */
  lemma RegisterExtends(reg: seq<Body>, recs: seq<string>, line: string, atof: string -> real)
    requires Built(reg, recs, atof) && Admissible(reg, line)
    ensures Built(Register(reg, line, atof), recs + (if IsComment(line) then [] else [line]), atof)
  {
    if !IsComment(line) {
      NewEntryBuilt(reg, line, atof);
      BuiltExtends(reg, Register(reg, line, atof), recs, line, atof);
    } else {
      assert recs + [] == recs;
    }
  }

  /** A record line whose parent name is among the names registered so far
      is admissible against the registry built from those records. */
  lemma AdmissibleAfter(reg: seq<Body>, recs: seq<string>, atof: string -> real, names: seq<string>, line: string)
    requires Built(reg, recs, atof)
    requires |names| == |recs| && forall k :: 0 <= k < |recs| ==> names[k] == Field(recs[k], 1)
    requires !IsComment(line) ==> WellFormedLine(line)
    requires !IsComment(line) && KindOf(Field(line, 0)) != Sun ==> Field(line, 4) in names
    ensures Admissible(reg, line)
  {
    if !IsComment(line) && KindOf(Field(line, 0)) != Sun {
      var m :| 0 <= m < |names| && names[m] == Field(line, 4);
      assert reg[m].name == Field(line, 4);
    }
  }

  /** The last line is admissible against the registry built from the lines
      before it. */
  lemma NamesAgree(lines: seq<string>, atof: string -> real)
    requires BuildPre(lines) && lines != []
    ensures BuildPre(lines[..|lines| - 1])
    ensures Admissible(Build(lines[..|lines| - 1], atof), lines[|lines| - 1])
    decreases |lines|, 0
  {
    BuildPrePrefix(lines);
    var reg := Build(lines[..|lines| - 1], atof);
    LastAdmissible(lines, reg, atof);
  }

  /** The last line is admissible against any registry built from the lines
      before it. */
  lemma LastAdmissible(lines: seq<string>, reg: seq<Body>, atof: string -> real)
    requires BuildPre(lines) && lines != []
    requires Built(reg, RecordLines(lines[..|lines| - 1]), atof)
    ensures Admissible(reg, lines[|lines| - 1])
  {
    LastLineFacts(lines);
    var n := |lines| - 1;
    AdmissibleAfter(reg, RecordLines(lines[..n]), atof, RecordNames(lines[..n]), lines[n]);
  }

  /** What BuildPre says of the last line. */
  lemma LastLineFacts(lines: seq<string>)
    requires BuildPre(lines) && lines != []
    ensures var n := |lines| - 1;
            && (!IsComment(lines[n]) ==> WellFormedLine(lines[n]))
            && (!IsComment(lines[n]) && KindOf(Field(lines[n], 0)) != Sun ==> Field(lines[n], 4) in RecordNames(lines[..n]))
  {
  }

  // ------------------------------------------------------------ operations

  /** SolarSystem::draw: the tree of the first registered body. Frames are
      balanced, and the spheres come out in pre-order over the satellite
      lists, a body reached along several paths once per path. */
  function SystemDraw(bs: seq<Body>): (t: seq<Event>)
    requires LinkedFrom(bs, 0)
    ensures Nested(t)
    ensures SphereIds(t) == Preorder(LinksOf(bs), 0)
  {
    DrawNested(bs, 0);
    DrawSpheresInPreorder(bs, 0);
    Draw(bs, 0)
  }

  /** SolarSystem::animate: one animation step of the first registered body's
      tree. Only angles change, and a Sun's orbit angle never does; how far
      each body moves is SystemAnimateAdvances. */
  function SystemAnimate(bs: seq<Body>): (r: seq<Body>)
    requires ForwardFrom(LinksOf(bs), 0)
    ensures |r| == |bs| && LinksOf(r) == LinksOf(bs)
    ensures forall j :: 0 <= j < |bs| ==> SameButAngles(bs[j], r[j])
    ensures forall j :: 0 <= j < |bs| && bs[j].kind == Sun ==> r[j].orbitAngle == bs[j].orbitAngle
  {
    Animate(bs, 0)
  }

  /** Each body's angles advance by its speeds once per path from the first
      body that reaches it. */
  lemma SystemAnimateAdvances(bs: seq<Body>, j: nat)
    requires ForwardFrom(LinksOf(bs), 0) && j < |bs|
    ensures SystemAnimate(bs)[j].rotationAngle
            == bs[j].rotationAngle + Scaled(Paths(LinksOf(bs), 0, j), bs[j].rotationSpeed)
    ensures SystemAnimate(bs)[j].orbitAngle
            == bs[j].orbitAngle + (if bs[j].kind == Sun then 0.0 else Scaled(Paths(LinksOf(bs), 0, j), bs[j].orbitSpeed))
  {
    AnimateAdvancesByPaths(bs, 0, j);
  }

  /** SolarSystem::toggleOrbit: the loop over the registry from index k on,
      setting every flag; nothing else changes. */
  function ToggleFrom(bs: seq<Body>, show: bool, k: nat): (r: seq<Body>)
    requires k <= |bs|
    ensures |r| == |bs|
    ensures forall j :: 0 <= j < k ==> r[j] == bs[j]
    ensures forall j :: k <= j < |bs| ==> r[j].showOrbit == show && r[j].(showOrbit := bs[j].showOrbit) == bs[j]
    decreases |bs| - k
  {
    if k == |bs| then bs else ToggleFrom(bs[k := ToggleOrbit(bs[k], show)], show, k + 1)
  }

  function ToggleAll(bs: seq<Body>, show: bool): (r: seq<Body>)
    ensures |r| == |bs|
    ensures forall j :: 0 <= j < |bs| ==> r[j].showOrbit == show && r[j].(showOrbit := bs[j].showOrbit) == bs[j]
    ensures LinksOf(r) == LinksOf(bs)
    ensures CentersBefore(bs) ==> CentersBefore(r)
    ensures WellLinked(bs) ==> WellLinked(r)
  {
    ToggleFrom(bs, show, 0)
  }
}
