/** What the SolarSystem constructor builds and what the scene then sees:
    split and its inverse, the satellite lists of the registry, when the
    result is a tree and when it is not, and whole-system draw, animate and
    toggle facts. */
module SolarSystemFacts {
  import opened Wrappers
  import opened Links
  import opened Traces
  import opened SpaceObjects
  import opened SpaceObjectFacts
  import opened SolarSystem

  // ------------------------------------------------------------------ split

  lemma JoinCons(t: string, ts: seq<string>, d: char)
    requires ts != []
    ensures Join([t] + ts, d) == t + [d] + Join(ts, d)
  {
    assert ([t] + ts)[1..] == ts;
  }

  /** split reads one token up to the first delimiter, then goes on after it. */
  lemma SplitCons(s: string, d: char)
    requires s != [] && Find(s, d) < |s|
    ensures s == s[..Find(s, d)] + [d] + s[Find(s, d) + 1..]
    ensures Split(s, d) == [s[..Find(s, d)]] + Split(s[Find(s, d) + 1..], d)
  {
  }

  /** Without a delimiter the whole input is one token. */
  lemma SplitWhole(s: string, d: char)
    requires s != [] && Find(s, d) == |s|
    ensures Split(s, d) == [s] && s[|s| - 1] != d
  {
  }

  /** The string with one trailing delimiter removed, as split sees it. */
  function DropTrailing(s: string, d: char): (r: string)
    ensures r == s || (s != [] && s[|s| - 1] == d && s == r + [d])
  {
    if s != [] && s[|s| - 1] == d then s[..|s| - 1] else s
  }

  lemma JoinStep(head: string, rest: string, d: char)
    requires rest != [] && Join(Split(rest, d), d) == DropTrailing(rest, d)
    ensures Join([head] + Split(rest, d), d) == DropTrailing(head + [d] + rest, d)
  {
    JoinCons(head, Split(rest, d), d);
    var s := head + [d] + rest;
    assert s[|s| - 1] == rest[|rest| - 1];
    if rest[|rest| - 1] == d {
      assert DropTrailing(rest, d) == rest[..|rest| - 1];
      assert DropTrailing(s, d) == s[..|s| - 1];
      assert s[..|s| - 1] == head + [d] + rest[..|rest| - 1];
    } else {
      assert DropTrailing(rest, d) == rest && DropTrailing(s, d) == s;
    }
  }

  /** Joining the tokens gives back the input, less the one trailing
      delimiter split drops. */
  lemma {:induction false} SplitJoin(s: string, d: char)
    ensures Join(Split(s, d), d) == DropTrailing(s, d)
    decreases |s|
  {
    if s != [] {
      var k := Find(s, d);
      if k == |s| {
        SplitWhole(s, d);
      } else {
        var head, rest := s[..k], s[k + 1..];
        SplitCons(s, d);
        if rest == [] {
          assert Split(s, d) == [head];
          assert s[..|s| - 1] == head;
        } else {
          SplitJoin(rest, d);
          JoinStep(head, rest, d);
        }
      }
    }
  }

  lemma FindNone(s: string, d: char)
    requires d !in s
    ensures Find(s, d) == |s|
  {
  }

  /** The first delimiter of t + [d] + u, for t free of delimiters, is the one
      after t. */
  lemma FindAfter(t: string, u: string, d: char)
    requires d !in t
    ensures Find(t + [d] + u, d) == |t|
  {
    var s := t + [d] + u;
    assert s[|t|] == d;
    assert forall m :: 0 <= m < |t| ==> s[m] == t[m];
  }

  /** Splitting the joined tokens gives them back, provided no token holds
      the delimiter and the last one is not empty (an empty last token would
      read as a trailing delimiter). */
  lemma {:induction false} JoinSplit(ts: seq<string>, d: char)
    requires forall k :: 0 <= k < |ts| ==> d !in ts[k]
    requires ts != [] ==> ts[|ts| - 1] != []
    ensures Split(Join(ts, d), d) == ts
    decreases |ts|
  {
    if |ts| == 1 {
      FindNone(ts[0], d);
      SplitWhole(ts[0], d);
    } else if |ts| > 1 {
      var t, u := ts[0], Join(ts[1..], d);
      var s := t + [d] + u;
      assert Join(ts, d) == s;
      FindAfter(t, u, d);
      SplitCons(s, d);
      assert s[..|t|] == t;
      assert s[|t| + 1..] == u;
      JoinSplit(ts[1..], d);
      assert ts == [t] + ts[1..];
    }
  }

  /** One token per delimiter, and one more when the input does not end with
      a delimiter (and is not empty). */
  lemma {:induction false} SplitCount(s: string, d: char)
    ensures |Split(s, d)| == multiset(s)[d] + (if s != [] && s[|s| - 1] != d then 1 else 0)
    decreases |s|
  {
    if s != [] {
      var k := Find(s, d);
      if k == |s| {
        assert d !in multiset(s);
      } else {
        var rest := s[k + 1..];
        assert s == s[..k] + [d] + rest;
        assert d !in multiset(s[..k]);
        assert multiset(s) == multiset(s[..k]) + multiset{d} + multiset(rest);
        SplitCount(rest, d);
        if rest != [] {
          assert s[|s| - 1] == rest[|rest| - 1];
        }
      }
    }
  }

  /** Field n of a record assembled from its fields is that field. */
  lemma FieldOfJoin(fields: seq<string>, n: nat)
    requires forall k :: 0 <= k < |fields| ==> ';' !in fields[k]
    requires fields != [] ==> fields[|fields| - 1] != []
    ensures Field(Join(fields, ';'), n) == if n < |fields| then fields[n] else ""
  {
    JoinSplit(fields, ';');
  }

  // -------------------------------------------------------------- satellites

  // ---------------------------------------------------------------- registry

  /** What the constructor leaves behind for the record lines recs: every
      body described by its record and attached where its parent name says.
      Build's contract is Registry(Build(lines, atof), RecordLines(lines), atof). */
  predicate Registry(r: seq<Body>, recs: seq<string>, atof: string -> real)
  {
    Built(r, recs, atof) && SatellitesMatch(r, RecordParents(recs))
  }

  /** No record names itself as its orbit centre (a Sun's parent name is ""). */
  predicate NoSelfParent(recs: seq<string>)
  {
    forall k :: 0 <= k < |recs| ==> RecordParent(recs[k]) != Field(recs[k], 1)
  }

  /** Only the first record is a Sun. */
  predicate OneSun(recs: seq<string>)
  {
    forall k :: 0 < k < |recs| ==> KindOf(Field(recs[k], 0)) != Sun
  }

  /** No record has the empty name. */
  predicate NamedRecords(recs: seq<string>)
  {
    forall k :: 0 <= k < |recs| ==> Field(recs[k], 1) != ""
  }

  /** No two records share a name, and no name is empty. */
  predicate DistinctNames(recs: seq<string>)
  {
    && (forall a, b :: 0 <= a < b < |recs| ==> Field(recs[a], 1) != Field(recs[b], 1))
    && NamedRecords(recs)
  }

  /** The centre of a non-Sun body is an earlier body carrying the record's
      parent name. */
  lemma CenterIsParent(r: seq<Body>, recs: seq<string>, atof: string -> real, j: nat)
    requires Built(r, recs, atof) && j < |r| && r[j].kind != Sun
    ensures r[j].center.Some? && r[j].center.value < j
    ensures r[r[j].center.value].name == RecordParent(recs[j])
  {
    var c := r[j].center.value;
    assert r[..j][c] == r[c];
  }

  /** getParentName on a built registry gives the name a record's body is
      attached under: "" for a Sun (Sun::getParentName), otherwise the name
      of its orbit centre, which is field 4 of its record. */
  lemma ParentNameIsRecordParent(r: seq<Body>, recs: seq<string>, atof: string -> real, j: nat)
    requires Built(r, recs, atof) && j < |r|
    ensures r[j].kind != Sun ==> r[j].center.Some? && r[j].center.value < |r|
    ensures ParentName(r, j) == RecordParent(recs[j])
  {
  }

  /** The first registered body is always a Sun: any other first record
      would have nothing to orbit. */
  lemma FirstIsSun(r: seq<Body>, recs: seq<string>, atof: string -> real)
    requires Built(r, recs, atof) && |r| > 0
    ensures r[0].kind == Sun
  {
    assert r[..0] == [];
  }

  /** m is in body i's satellite list exactly when i's name is m's parent
      name and m comes no earlier than i. */
  lemma SatelliteOf(r: seq<Body>, recs: seq<string>, atof: string -> real, i: nat, m: nat)
    requires Registry(r, recs, atof) && i < |r|
    ensures m in r[i].satellites <==> i <= m < |r| && RecordParent(recs[m]) == Field(recs[i], 1)
  {
  }

  /** Every centre of a built registry lies earlier. */
  lemma BuiltCentersBefore(r: seq<Body>, recs: seq<string>, atof: string -> real)
    requires Built(r, recs, atof)
    ensures CentersBefore(r)
  {
    forall i | 0 <= i < |r| && r[i].kind != Sun
      ensures r[i].center.Some? && r[i].center.value < i
    {
      CenterIsParent(r, recs, atof, i);
    }
  }

  /** Without self-parents the registry is what draw and animate need. */
  lemma BuiltWellLinked(r: seq<Body>, recs: seq<string>, atof: string -> real)
    requires Registry(r, recs, atof) && NoSelfParent(recs)
    ensures WellLinked(r)
  {
    BuiltCentersBefore(r, recs, atof);
    BuiltForward(r, recs, atof);
  }

  /** Without self-parents, draw and animate are defined from every body. */
  lemma BuiltLinkedFrom(r: seq<Body>, recs: seq<string>, atof: string -> real, i: nat)
    requires Registry(r, recs, atof) && NoSelfParent(recs) && i < |r|
    ensures WellLinked(r) && LinkedFrom(r, i)
  {
    BuiltWellLinked(r, recs, atof);
    ForwardEverywhere(LinksOf(r), i);
  }

  lemma BuiltForward(r: seq<Body>, recs: seq<string>, atof: string -> real)
    requires Registry(r, recs, atof) && NoSelfParent(recs)
    ensures Forward(LinksOf(r))
  {
    var ps := RecordParents(recs);
    assert forall k :: 0 <= k < |r| ==> ps[k] != r[k].name;
    MatchingIsForward(r, ps);
  }

  /** Satellite lists that match parent names are forward when no body
      carries its own parent name. */
  lemma MatchingIsForward(r: seq<Body>, ps: seq<string>)
    requires SatellitesMatch(r, ps)
    requires forall k :: 0 <= k < |r| ==> ps[k] != r[k].name
    ensures Forward(LinksOf(r))
  {
    var g := LinksOf(r);
    forall i, a | 0 <= i < |g| && 0 <= a < |g[i]|
      ensures i < g[i][a] < |g|
    {
      assert g[i][a] in Matching(ps, r[i].name, i);
    }
  }

  /** A record whose name is its own parent name is attached to itself, so
      the links are not forward and draw and animate never return. */
  lemma SelfParentLoops(r: seq<Body>, recs: seq<string>, atof: string -> real, k: nat)
    requires Registry(r, recs, atof) && k < |r| && RecordParent(recs[k]) == Field(recs[k], 1)
    ensures k in r[k].satellites
    ensures !Forward(LinksOf(r)) && !LinkedFrom(r, k)
  {
    SatelliteOf(r, recs, atof, k, k);
    var g := LinksOf(r);
    var a :| 0 <= a < |g[k]| && g[k][a] == k;
    assert !Between(g[k], k, |g|);
    assert !ForwardList(g, k, g[k]);
  }

  /** No record reached from body i along satellite links names itself as
      its parent. */
  ghost predicate NoSelfParentFrom(r: seq<Body>, recs: seq<string>, i: nat)
  {
    && |recs| == |r|
    && forall p :: Walk(LinksOf(r), p) && p[0] == i ==>
         RecordParent(recs[p[|p| - 1]]) != Field(recs[p[|p| - 1]], 1)
  }

  /** Draw and animate from body i of a built registry are well defined
      exactly when no self-parent record is reachable from i; self-parents
      elsewhere in the registry do not matter. */
  lemma LinkedFromIffNoSelfParentReached(r: seq<Body>, recs: seq<string>, atof: string -> real, i: nat)
    requires Registry(r, recs, atof) && i < |r|
    ensures LinkedFrom(r, i) <==> NoSelfParentFrom(r, recs, i)
  {
    BuiltCentersBefore(r, recs, atof);
    var g := LinksOf(r);
    forall k, m | 0 <= k < |g| && m in g[k]
      ensures k <= m < |g|
    {
      SatelliteOf(r, recs, atof, k, m);
    }
    assert Ascending(g);
    forall k | 0 <= k < |g|
      ensures k in g[k] <==> RecordParent(recs[k]) == Field(recs[k], 1)
    {
      SatelliteOf(r, recs, atof, k, k);
    }
    if NoSelfParentFrom(r, recs, i) {
      NoSelfLoopForward(g, i);
    }
    if ForwardFrom(g, i) {
      forall p | Walk(g, p) && p[0] == i
        ensures RecordParent(recs[p[|p| - 1]]) != Field(recs[p[|p| - 1]], 1)
      {
        ForwardNoSelfLoop(g, i, p);
      }
    }
  }

  /** With one Sun and no self-parents, every body is reached from the first. */
  lemma {:induction false} BuiltReachesAll(r: seq<Body>, recs: seq<string>, atof: string -> real, j: nat)
    requires Registry(r, recs, atof) && NoSelfParent(recs) && OneSun(recs) && j < |r|
    ensures WellLinked(r) && LinkedFrom(r, 0)
    ensures Paths(LinksOf(r), 0, j) > 0
    decreases j
  {
    BuiltLinkedFrom(r, recs, atof, 0);
    var g := LinksOf(r);
    if j == 0 {
      PathsToSelf(g, 0);
    } else {
      CenterIsParent(r, recs, atof, j);
      var c := r[j].center.value;
      SatelliteOf(r, recs, atof, c, j);
      BuiltReachesAll(r, recs, atof, c);
      ReachOneMore(g, 0, c, j);
    }
  }

  lemma DistinctNamesNoSelfParent(r: seq<Body>, recs: seq<string>, atof: string -> real)
    requires Built(r, recs, atof) && DistinctNames(recs)
    ensures NoSelfParent(recs)
  {
    forall k | 0 <= k < |recs|
      ensures RecordParent(recs[k]) != Field(recs[k], 1)
    {
      if r[k].kind != Sun {
        CenterIsParent(r, recs, atof, k);
      }
    }
  }

  /** In an ascending list a member occurs once. */
  lemma {:induction false} AscendingOnce(ss: seq<nat>, x: nat)
    requires forall a, b :: 0 <= a < b < |ss| ==> ss[a] < ss[b]
    requires x in ss
    ensures multiset(ss)[x] == 1
  {
    assert ss == [ss[0]] + ss[1..];
    if ss[0] == x {
      assert x !in ss[1..];
    } else {
      AscendingOnce(ss[1..], x);
    }
  }

  /** With one Sun and distinct names the registry is a tree rooted at the
      first body: each body is reached along exactly one path. */
  lemma {:induction false} BuiltIsTree(r: seq<Body>, recs: seq<string>, atof: string -> real, j: nat)
    requires Registry(r, recs, atof) && DistinctNames(recs) && OneSun(recs) && j < |r|
    ensures WellLinked(r) && LinkedFrom(r, 0)
    ensures Paths(LinksOf(r), 0, j) == 1
    decreases j
  {
    DistinctNamesNoSelfParent(r, recs, atof);
    BuiltLinkedFrom(r, recs, atof, 0);
    var g := LinksOf(r);
    if j == 0 {
      PathsToSelf(g, 0);
    } else {
      CenterIsParent(r, recs, atof, j);
      var c := r[j].center.value;
      SatelliteOf(r, recs, atof, c, j);
      AscendingOnce(r[c].satellites, j);
      forall q | 0 <= q < |g| && q != c
        ensures j !in g[q]
      {
        SatelliteOf(r, recs, atof, q, j);
      }
      assert OnlyParent(g, j, c);
      PathsViaOnlyParent(g, 0, j, c);
      BuiltIsTree(r, recs, atof, c);
    }
  }

  /** A Sun's parent name is "", so when no record has the empty name a Sun
      is in no satellite list; whenever the links from index 0 point forward,
      a Sun after the first record is reached by no path from it. */
  lemma SunInNoSatelliteList(r: seq<Body>, recs: seq<string>, atof: string -> real, k: nat)
    requires Registry(r, recs, atof) && NamedRecords(recs) && k < |r|
    requires KindOf(Field(recs[k], 0)) == Sun
    ensures forall q :: 0 <= q < |r| ==> k !in r[q].satellites
    ensures 0 < k && LinkedFrom(r, 0) ==> Paths(LinksOf(r), 0, k) == 0
  {
    forall q | 0 <= q < |r|
      ensures k !in r[q].satellites
    {
      SatelliteOf(r, recs, atof, q, k);
    }
    if 0 < k && LinkedFrom(r, 0) {
      var g := LinksOf(r);
      assert forall q :: 0 <= q < |g| ==> g[q] == r[q].satellites;
      UnlinkedUnreached(g, 0, k);
    }
  }

  /** With distinct names, a Sun after the first record is in no satellite
      list, so neither draw nor animate ever reaches it. */
  lemma LaterSunUnreached(r: seq<Body>, recs: seq<string>, atof: string -> real, k: nat)
    requires Registry(r, recs, atof) && DistinctNames(recs) && 0 < k < |r|
    requires KindOf(Field(recs[k], 0)) == Sun
    ensures forall q :: 0 <= q < |r| ==> k !in r[q].satellites
    ensures WellLinked(r) && LinkedFrom(r, 0) && Paths(LinksOf(r), 0, k) == 0
  {
    DistinctNamesNoSelfParent(r, recs, atof);
    BuiltLinkedFrom(r, recs, atof, 0);
    SunInNoSatelliteList(r, recs, atof, k);
  }

  /** The registry is determined by its record lines: comment lines, and
      how the records were interleaved with them, make no difference. */
  lemma RegistryUnique(a: seq<Body>, b: seq<Body>, recs: seq<string>, atof: string -> real)
    requires Registry(a, recs, atof) && Registry(b, recs, atof)
    ensures a == b
  {
    forall k | 0 <= k < |a|
      ensures a[k] == b[k]
    {
      SameEntry(a, b, recs, atof, k);
    }
  }

  /** Entry k of two registries built from the same records, for
      RegistryUnique. */
  lemma SameEntry(a: seq<Body>, b: seq<Body>, recs: seq<string>, atof: string -> real, k: nat)
    requires Registry(a, recs, atof) && Registry(b, recs, atof) && k < |a|
    ensures a[k] == b[k]
  {
    var line := recs[k];
    assert WellFormedLine(line) && Describes(a[k], line, atof) && Describes(b[k], line, atof);
    SamePrefixNames(a, b, recs, atof, k);
    GetReadsNames(a[..k], b[..k], Field(line, 4));
    assert a[k].center == b[k].center;
    assert a[k].satellites == b[k].satellites;
    DescribedSame(a[k], b[k], line, atof);
  }

  /** Two registries built from the same records agree on the names. */
  lemma SamePrefixNames(a: seq<Body>, b: seq<Body>, recs: seq<string>, atof: string -> real, k: nat)
    requires Built(a, recs, atof) && Built(b, recs, atof) && k <= |a|
    ensures |a[..k]| == |b[..k]| && forall m :: 0 <= m < k ==> a[..k][m].name == b[..k][m].name
  {
    forall m | 0 <= m < k
      ensures a[..k][m].name == b[..k][m].name
    {
      assert a[..k][m] == a[m] && b[..k][m] == b[m];
      assert Describes(a[m], recs[m], atof) && Describes(b[m], recs[m], atof);
    }
  }

  /** A record line fixes every field of the body but its centre and its
      satellites. */
  lemma DescribedSame(x: Body, y: Body, line: string, atof: string -> real)
    requires WellFormedLine(line) && Describes(x, line, atof) && Describes(y, line, atof)
    requires x.center == y.center && x.satellites == y.satellites
    ensures x == y
  {
  }

  lemma CommentsIgnored(lines: seq<string>, other: seq<string>, atof: string -> real)
    requires BuildPre(lines) && BuildPre(other) && RecordLines(lines) == RecordLines(other)
    ensures Build(lines, atof) == Build(other, atof)
  {
    RegistryUnique(Build(lines, atof), Build(other, atof), RecordLines(lines), atof);
  }

  // ----------------------------------------------------------------- scene

  /** Preconditions under which the registry is a tree from the first body. */
  predicate TreeShaped(r: seq<Body>, recs: seq<string>, atof: string -> real)
  {
    Registry(r, recs, atof) && DistinctNames(recs) && OneSun(recs) && |r| > 0
  }

  /** A freshly built tree draws every body once and every orbit but the
      Sun's once. */
  lemma FreshDrawShowsEachOnce(r: seq<Body>, recs: seq<string>, atof: string -> real, j: nat)
    requires TreeShaped(r, recs, atof) && j < |r|
    ensures WellLinked(r) && LinkedFrom(r, 0)
    ensures multiset(SphereIds(SystemDraw(r)))[j] == 1
    ensures multiset(RingIds(SystemDraw(r)))[j] == if j == 0 then 0 else 1
  {
    BuiltIsTree(r, recs, atof, j);
    PreorderCounts(LinksOf(r), 0, j);
    FirstIsSun(r, recs, atof);
    ShownOrbitsDrawRingPerPath(r, 0, j);
  }

  /** After n animation steps of a fresh tree, each body has turned n times
      its rotation speed and orbited n times its orbit speed (a Sun does not
      orbit). */
  lemma FreshTicks(r: seq<Body>, recs: seq<string>, atof: string -> real, n: nat, j: nat)
    requires TreeShaped(r, recs, atof) && j < |r|
    ensures WellLinked(r) && LinkedFrom(r, 0)
    ensures Ticks(r, n)[j].rotationAngle == Scaled(n, r[j].rotationSpeed)
    ensures Ticks(r, n)[j].orbitAngle == if r[j].kind == Sun then 0.0 else Scaled(n, r[j].orbitSpeed)
  {
    BuiltIsTree(r, recs, atof, j);
    TicksAccumulate(r, n, j);
    var p := Paths(LinksOf(r), 0, j);
    assert Describes(r[j], recs[j], atof);
    FromRest(r[j].rotationAngle, Ticks(r, n)[j].rotationAngle, r[j].rotationSpeed, n, p);
    if r[j].kind != Sun {
      FromRest(r[j].orbitAngle, Ticks(r, n)[j].orbitAngle, r[j].orbitSpeed, n, p);
    }
  }

  /** An angle that starts at zero and advances n times along one path. */
  lemma FromRest(a0: real, a: real, s: real, n: nat, p: nat)
    requires a0 == 0.0 && p == 1 && a == a0 + Scaled(n * p, s)
    ensures a == Scaled(n, s)
  {
  }

  /** toggleOrbit twice: the second call decides. */
  lemma ToggleLastWins(bs: seq<Body>, first: bool, second: bool)
    ensures ToggleAll(ToggleAll(bs, first), second) == ToggleAll(bs, second)
  {
    var a := ToggleAll(ToggleAll(bs, first), second);
    var b := ToggleAll(bs, second);
    forall j | 0 <= j < |bs|
      ensures a[j] == b[j]
    {
      assert a[j].(showOrbit := bs[j].showOrbit) == bs[j];
    }
  }

  /** Orbits hidden: the scene draws no ring; the spheres do not change. */
  lemma ToggleOffDrawsNoRing(bs: seq<Body>)
    requires LinkedFrom(bs, 0)
    ensures RingIds(SystemDraw(ToggleAll(bs, false))) == []
    ensures SphereIds(SystemDraw(ToggleAll(bs, false))) == SphereIds(SystemDraw(bs))
  {
    HiddenOrbitsDrawNoRing(ToggleAll(bs, false), 0);
  }

  /** Orbits shown: one ring per path to each non-Sun body, the root's own
      orbit excluded. */
  lemma ToggleOnDrawsRingPerPath(bs: seq<Body>, j: nat)
    requires LinkedFrom(bs, 0) && j < |bs|
    ensures multiset(RingIds(SystemDraw(ToggleAll(bs, true))))[j]
            == if bs[j].kind == Sun then 0 else Paths(LinksOf(bs), 0, j) - (if j == 0 then 1 else 0)
  {
    ShownOrbitsDrawRingPerPath(ToggleAll(bs, true), 0, j);
  }
}
