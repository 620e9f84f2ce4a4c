/** The abstract rendering calls the model emits in place of OpenGL/GLUT
    calls, and properties of event traces: balanced push/pop nesting and the
    bodies whose spheres and orbit rings a trace draws. */
module Traces {
  import opened VectorMath

  /** One rendering call. The body index on Sphere and Torus is a tag of the
      model only (GL sees the radii); it lets a trace say which body it drew. */
  datatype Event =
    | Push                                     // glPushMatrix
    | Pop                                      // glPopMatrix
    | Rotate(angle: real, axis: Vector3)       // glRotated(angle, x, y, z)
    | Translate(dx: real, dy: real, dz: real)  // glTranslated
    | SetColor(color: Color)                   // glColor3d
    | Sphere(radius: real, body: nat)          // glutWireSphere(radius, 20, 20)
    | Torus(radius: real, body: nat)           // glutWireTorus(radius, radius, 100, 1)

  /** A state change that neither opens/closes a frame nor draws anything. */
  predicate IsStateChange(e: Event)
  {
    e.Rotate? || e.Translate? || e.SetColor?
  }

  predicate AllStateChanges(t: seq<Event>)
  {
    forall k :: 0 <= k < |t| ==> IsStateChange(t[k])
  }

  /** Neither opens nor closes a frame. */
  predicate Frameless(t: seq<Event>)
  {
    forall k :: 0 <= k < |t| ==> !t[k].Push? && !t[k].Pop?
  }

  function Delta(e: Event): int
  {
    if e.Push? then 1 else if e.Pop? then -1 else 0
  }

  /** Frames opened minus frames closed. */
  function Net(t: seq<Event>): int
  {
    if t == [] then 0 else Net(t[..|t| - 1]) + Delta(t[|t| - 1])
  }

  /** Every pop closes an earlier push and every push is closed. */
  predicate Nested(t: seq<Event>)
  {
    && Net(t) == 0
    && forall k :: 0 <= k <= |t| ==> Net(t[..k]) >= 0
  }

  /** Bodies whose sphere the trace draws, in drawing order. */
  function SphereIds(t: seq<Event>): seq<nat>
  {
    if t == [] then [] else (if t[0].Sphere? then [t[0].body] else []) + SphereIds(t[1..])
  }

  /** Bodies whose orbit ring the trace draws, in drawing order. */
  function RingIds(t: seq<Event>): seq<nat>
  {
    if t == [] then [] else (if t[0].Torus? then [t[0].body] else []) + RingIds(t[1..])
  }

  lemma {:induction false} NetAppend(a: seq<Event>, b: seq<Event>)
    ensures Net(a + b) == Net(a) + Net(b)
    decreases |b|
  {
    if b == [] {
      assert a + b == a;
    } else {
      var b' := b[..|b| - 1];
      assert (a + b)[..|a + b| - 1] == a + b';
      NetAppend(a, b');
    }
  }

  lemma NestedAppend(a: seq<Event>, b: seq<Event>)
    requires Nested(a) && Nested(b)
    ensures Nested(a + b)
  {
    NetAppend(a, b);
    forall k | 0 <= k <= |a + b|
      ensures Net((a + b)[..k]) >= 0
    {
      if k <= |a| {
        assert (a + b)[..k] == a[..k];
      } else {
        assert (a + b)[..k] == a + b[..k - |a|];
        NetAppend(a, b[..k - |a|]);
      }
    }
  }

  lemma {:induction false} FramelessNet(t: seq<Event>)
    requires Frameless(t)
    ensures Net(t) == 0
    decreases |t|
  {
    if t != [] {
      FramelessNet(t[..|t| - 1]);
    }
  }

  lemma FramelessNested(t: seq<Event>)
    requires Frameless(t)
    ensures Nested(t)
  {
    FramelessNet(t);
    forall k | 0 <= k <= |t|
      ensures Net(t[..k]) >= 0
    {
      FramelessNet(t[..k]);
    }
  }

  /** Wrapping a nested trace in one push/pop pair keeps it nested. */
  lemma NestedWrap(t: seq<Event>)
    requires Nested(t)
    ensures Nested([Push] + t + [Pop])
  {
    var open := [Push] + t;
    NetAppend([Push], t);
    NetAppend(open, [Pop]);
    assert [Push][..0] == [];
    assert [Pop][..0] == [];
    forall k | 0 <= k <= |open + [Pop]|
      ensures Net((open + [Pop])[..k]) >= 0
    {
      if k == 0 {
        assert (open + [Pop])[..k] == [];
      } else if k <= |open| {
        assert (open + [Pop])[..k] == [Push] + t[..k - 1];
        NetAppend([Push], t[..k - 1]);
      } else {
        assert (open + [Pop])[..k] == open + [Pop];
      }
    }
  }

  lemma {:induction false} SphereIdsAppend(a: seq<Event>, b: seq<Event>)
    ensures SphereIds(a + b) == SphereIds(a) + SphereIds(b)
    decreases |a|
  {
    if a == [] {
      assert a + b == b;
    } else {
      var tail := a[1..] + b;
      assert a + b == [a[0]] + tail;
      SphereIdsCons(a[0], tail);
      SphereIdsAppend(a[1..], b);
    }
  }

  lemma SphereIdsCons(e: Event, t: seq<Event>)
    ensures SphereIds([e] + t) == (if e.Sphere? then [e.body] else []) + SphereIds(t)
  {
    assert ([e] + t)[1..] == t;
  }

  lemma {:induction false} RingIdsAppend(a: seq<Event>, b: seq<Event>)
    ensures RingIds(a + b) == RingIds(a) + RingIds(b)
    decreases |a|
  {
    if a == [] {
      assert a + b == b;
    } else {
      var tail := a[1..] + b;
      assert a + b == [a[0]] + tail;
      RingIdsCons(a[0], tail);
      RingIdsAppend(a[1..], b);
    }
  }

  lemma RingIdsCons(e: Event, t: seq<Event>)
    ensures RingIds([e] + t) == (if e.Torus? then [e.body] else []) + RingIds(t)
  {
    assert ([e] + t)[1..] == t;
  }

  /** State changes draw nothing. */
  lemma {:induction false} StateChangesDrawNothing(t: seq<Event>)
    requires AllStateChanges(t)
    ensures SphereIds(t) == [] && RingIds(t) == []
    decreases |t|
  {
    if t != [] {
      StateChangesDrawNothing(t[1..]);
    }
  }

  /** A trace of one event draws what that event draws. */
  lemma OneEventDraws(e: Event)
    ensures SphereIds([e]) == if e.Sphere? then [e.body] else []
    ensures RingIds([e]) == if e.Torus? then [e.body] else []
  {
    assert [e][1..] == [];
  }

  /** Leading state changes add nothing to what a trace draws. */
  lemma StateChangesThen(t: seq<Event>, u: seq<Event>)
    requires AllStateChanges(t)
    ensures SphereIds(t + u) == SphereIds(u) && RingIds(t + u) == RingIds(u)
  {
    StateChangesDrawNothing(t);
    SphereIdsAppend(t, u);
    RingIdsAppend(t, u);
  }

  /** A frame opened around a trace adds nothing to what it draws. */
  lemma WrapDraws(t: seq<Event>)
    ensures SphereIds([Push] + t + [Pop]) == SphereIds(t)
    ensures RingIds([Push] + t + [Pop]) == RingIds(t)
  {
    OneEventDraws(Push);
    OneEventDraws(Pop);
    SphereIdsAppend([Push], t);
    RingIdsAppend([Push], t);
    SphereIdsAppend([Push] + t, [Pop]);
    RingIdsAppend([Push] + t, [Pop]);
  }

  /** A framed trace followed by more: the frame adds nothing to what is drawn. */
  lemma WrapThenDraws(t: seq<Event>, u: seq<Event>)
    ensures SphereIds([Push] + t + [Pop] + u) == SphereIds(t) + SphereIds(u)
    ensures RingIds([Push] + t + [Pop] + u) == RingIds(t) + RingIds(u)
  {
    WrapDraws(t);
    SphereIdsAppend([Push] + t + [Pop], u);
    RingIdsAppend([Push] + t + [Pop], u);
  }

  lemma ConcatEmpty<T>(a: seq<T>)
    ensures [] + a == a && a + [] == a
  {
  }

  /** What three traces in a row draw. */
  lemma ThreePartsDraw(a: seq<Event>, b: seq<Event>, c: seq<Event>)
    ensures SphereIds(a + b + c) == SphereIds(a) + SphereIds(b) + SphereIds(c)
    ensures RingIds(a + b + c) == RingIds(a) + RingIds(b) + RingIds(c)
  {
    SphereIdsAppend(a, b);
    SphereIdsAppend(a + b, c);
    RingIdsAppend(a, b);
    RingIdsAppend(a + b, c);
  }

  lemma FramelessAppend(a: seq<Event>, b: seq<Event>)
    requires Frameless(a) && Frameless(b)
    ensures Frameless(a + b)
  {
    forall k | 0 <= k < |a + b|
      ensures !(a + b)[k].Push? && !(a + b)[k].Pop?
    {
      if k < |a| {
        assert (a + b)[k] == a[k];
      } else {
        assert (a + b)[k] == b[k - |a|];
      }
    }
  }
}
