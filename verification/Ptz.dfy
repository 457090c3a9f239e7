/** The movement handlers of the PTZ service (ServicePTZ.cpp) as traces of the shell commands
    they issue. A request pointer that may be NULL is an Option; a coordinate that is not a
    number fails both comparisons, as zero does. */
module Ptz {
  import opened Text

  datatype Direction = Left | Right | Up | Down

  datatype Command = Move(dir: Direction) | Sleep | Halt

  datatype Vector = Vector(x: real, y: real)

  datatype Speed = Speed(panTilt: Option<Vector>)

  datatype Request =
    | ContinuousMove(velocity: Option<Option<Speed>>)
    | RelativeMove(translation: Option<Option<Speed>>)
    | Stop

  /** The vector of a request, if every pointer on the way to it is set. */
  function Target(r: Option<Option<Speed>>): Option<Vector> {
    if r.Some? && r.value.Some? then r.value.value.panTilt else None
  }

  predicate NonZero(r: Option<Option<Speed>>) {
    Target(r).Some? && (Target(r).value.x != 0.0 || Target(r).value.y != 0.0)
  }

  /** The vector points that way: right and up are positive. */
  predicate Points(v: Vector, d: Direction) {
    match d
    case Left => v.x < 0.0
    case Right => v.x > 0.0
    case Up => v.y > 0.0
    case Down => v.y < 0.0
  }

  // ---------------------------------------------------------------- specification

  /** The directions a vector asks for: at most one per axis, the horizontal first. */
  function Directions(v: Vector): seq<Direction> {
    (if v.x > 0.0 then [Right] else if v.x < 0.0 then [Left] else []) +
    (if v.y > 0.0 then [Up] else if v.y < 0.0 then [Down] else [])
  }

  function Moves(ds: seq<Direction>): seq<Command> {
    if ds == [] then [] else [Move(ds[0])] + Moves(ds[1..])
  }

  function Nudges(ds: seq<Direction>): seq<Command> {
    if ds == [] then [] else [Move(ds[0]), Sleep, Halt] + Nudges(ds[1..])
  }

  lemma MovesOfVector(v: Vector)
    ensures Moves(Directions(v)) ==
            (if v.x > 0.0 then [Move(Right)] else if v.x < 0.0 then [Move(Left)] else []) +
            (if v.y > 0.0 then [Move(Up)] else if v.y < 0.0 then [Move(Down)] else [])
  {
    var h := if v.x > 0.0 then [Right] else if v.x < 0.0 then [Left] else [];
    MovesAppend(h, if v.y > 0.0 then [Up] else if v.y < 0.0 then [Down] else []);
  }

  lemma NudgesOfVector(v: Vector)
    ensures Nudges(Directions(v)) ==
            (if v.x > 0.0 then [Move(Right), Sleep, Halt]
             else if v.x < 0.0 then [Move(Left), Sleep, Halt] else []) +
            (if v.y > 0.0 then [Move(Up), Sleep, Halt]
             else if v.y < 0.0 then [Move(Down), Sleep, Halt] else [])
  {
    var h := if v.x > 0.0 then [Right] else if v.x < 0.0 then [Left] else [];
    NudgesAppend(h, if v.y > 0.0 then [Up] else if v.y < 0.0 then [Down] else []);
  }

  lemma Associative(a: seq<Command>, b: seq<Command>, c: seq<Command>)
    ensures a + (b + c) == (a + b) + c
  {
  }

  lemma {:induction false} MovesAppend(a: seq<Direction>, b: seq<Direction>)
    ensures Moves(a + b) == Moves(a) + Moves(b)
  {
    if a == [] {
      assert a + b == b;
    } else {
      MovesAppend(a[1..], b);
      assert (a + b)[1..] == a[1..] + b;
      Associative([Move(a[0])], Moves(a[1..]), Moves(b));
    }
  }

  lemma {:induction false} NudgesAppend(a: seq<Direction>, b: seq<Direction>)
    ensures Nudges(a + b) == Nudges(a) + Nudges(b)
  {
    if a == [] {
      assert a + b == b;
    } else {
      NudgesAppend(a[1..], b);
      assert (a + b)[1..] == a[1..] + b;
      Associative([Move(a[0]), Sleep, Halt], Nudges(a[1..]), Nudges(b));
    }
  }

  function Commands(r: Request): seq<Command> {
    match r
    case ContinuousMove(v) => if Target(v).Some? then Moves(Directions(Target(v).value)) else []
    case RelativeMove(t) => if Target(t).Some? then Nudges(Directions(Target(t).value)) else []
    case Stop => [Halt]
  }

  // ---------------------------------------------------------------- implementation

  class PtzService {
    var trace: seq<Command>

    constructor ()
      ensures trace == []
    {
      trace := [];
    }

    /** system() on the command configured for c, or usleep(). */
    method System(c: Command)
      modifies this
      ensures trace == old(trace) + [c]
    {
      trace := trace + [c];
    }

    method DoContinuousMove(request: Option<Option<Speed>>)
      modifies this
      ensures request.None? || request.value.None? || request.value.value.panTilt.None? ==> trace == old(trace)
      ensures request.Some? && request.value.Some? && request.value.value.panTilt.Some? ==>
                var v := request.value.value.panTilt.value;
                trace == old(trace) +
                  (if v.x > 0.0 then [Move(Right)] else if v.x < 0.0 then [Move(Left)] else []) +
                  (if v.y > 0.0 then [Move(Up)] else if v.y < 0.0 then [Move(Down)] else [])
      ensures trace == old(trace) + Commands(ContinuousMove(request))
    {
      if request.None? {
        return;
      }
      if request.value.None? {
        return;
      }
      if request.value.value.panTilt.None? {
        return;
      }
      var v := request.value.value.panTilt.value;
      MovesOfVector(v);
      if v.x > 0.0 {
        System(Move(Right));
      } else if v.x < 0.0 {
        System(Move(Left));
      }
      if v.y > 0.0 {
        System(Move(Up));
      } else if v.y < 0.0 {
        System(Move(Down));
      }
    }

    /** One direction of a relative move. */
    method Nudge(d: Direction)
      modifies this
      ensures trace == old(trace) + [Move(d), Sleep, Halt]
    {
      System(Move(d));
      System(Sleep);
      System(Halt);
    }

    method DoRelativeMove(request: Option<Option<Speed>>)
      modifies this
      ensures request.None? || request.value.None? || request.value.value.panTilt.None? ==> trace == old(trace)
      ensures request.Some? && request.value.Some? && request.value.value.panTilt.Some? ==>
                var v := request.value.value.panTilt.value;
                trace ==
                old(trace) +
                (if v.x > 0.0 then [Move(Right), Sleep, Halt]
                 else if v.x < 0.0 then [Move(Left), Sleep, Halt] else []) +
                (if v.y > 0.0 then [Move(Up), Sleep, Halt]
                 else if v.y < 0.0 then [Move(Down), Sleep, Halt] else [])
      ensures trace == old(trace) + Commands(RelativeMove(request))
    {
      if request.None? {
        return;
      }
      if request.value.None? {
        return;
      }
      if request.value.value.panTilt.None? {
        return;
      }
      var v := request.value.value.panTilt.value;
      NudgesOfVector(v);
      if v.x > 0.0 {
        Nudge(Right);
      } else if v.x < 0.0 {
        Nudge(Left);
      }
      if v.y > 0.0 {
        Nudge(Up);
      } else if v.y < 0.0 {
        Nudge(Down);
      }
    }

    method DoStop()
      modifies this
      ensures trace == old(trace) + [Halt] == old(trace) + Commands(Stop)
    {
      System(Halt);
    }

    method Handle(r: Request)
      modifies this
      ensures trace == old(trace) + Commands(r)
    {
      match r {
        case ContinuousMove(v) => DoContinuousMove(v);
        case RelativeMove(t) => DoRelativeMove(t);
        case Stop => DoStop();
      }
    }

    /** Serving a sequence of requests one after the other. */
    method Serve(requests: seq<Request>)
      modifies this
      ensures trace == old(trace) + Trace(requests)
    {
      for i := 0 to |requests|
        invariant trace + Trace(requests[i..]) == old(trace) + Trace(requests)
      {
        TraceStep(trace, requests, i);
        Handle(requests[i]);
      }
    }
  }

  function Trace(requests: seq<Request>): seq<Command> {
    if requests == [] then [] else Commands(requests[0]) + Trace(requests[1..])
  }

  lemma TraceStep(t: seq<Command>, requests: seq<Request>, i: nat)
    requires i < |requests|
    ensures t + Trace(requests[i..]) == (t + Commands(requests[i])) + Trace(requests[i + 1..])
  {
    assert requests[i..][1..] == requests[i + 1..];
    Associative(t, Commands(requests[i]), Trace(requests[i + 1..]));
  }

  // ---------------------------------------------------------------- the camera

  /** The directions in which the camera moves after a command, the halt command stopping
      every axis. */
  function Effect(moving: set<Direction>, c: Command): set<Direction> {
    match c
    case Move(d) => moving + {d}
    case Sleep => moving
    case Halt => {}
  }

  function Camera(moving: set<Direction>, t: seq<Command>): set<Direction>
    decreases |t|
  {
    if t == [] then moving else Camera(Effect(moving, t[0]), t[1..])
  }

  /** A continuous move with a vector that points in direction d. */
  predicate Starts(r: Request, d: Direction) {
    r.ContinuousMove? && Target(r.velocity).Some? && Points(Target(r.velocity).value, d)
  }

  predicate Stops(r: Request) {
    r.Stop? || (r.RelativeMove? && NonZero(r.translation))
  }

  lemma {:induction false} CameraAppend(moving: set<Direction>, a: seq<Command>, b: seq<Command>)
    ensures Camera(moving, a + b) == Camera(Camera(moving, a), b)
    decreases |a|
  {
    if a == [] {
      assert a + b == b;
    } else {
      CameraAppend(Effect(moving, a[0]), a[1..], b);
      assert (a + b)[1..] == a[1..] + b;
    }
  }

  lemma {:induction false} MovesKeepMoving(moving: set<Direction>, ds: seq<Direction>)
    ensures Camera(moving, Moves(ds)) == moving + set d | d in ds
    decreases |ds|
  {
    if ds != [] {
      MovesKeepMoving(moving + {ds[0]}, ds[1..]);
      assert Moves(ds)[1..] == Moves(ds[1..]);
      assert (set d | d in ds) == {ds[0]} + set d | d in ds[1..];
    }
  }

  lemma {:induction false} NudgesHalt(moving: set<Direction>, ds: seq<Direction>)
    ensures Camera(moving, Nudges(ds)) == if ds == [] then moving else {}
    decreases |ds|
  {
    if ds != [] {
      var t := [Move(ds[0]), Sleep, Halt];
      CameraAppend(moving, t, Nudges(ds[1..]));
      assert t == [Move(ds[0]), Sleep] + [Halt];
      CameraAppend(moving, [Move(ds[0]), Sleep], [Halt]);
      assert [Halt][1..] == [];
      NudgesHalt({}, ds[1..]);
    }
  }

  /** One request: a stopping one halts the camera, any other adds the directions it starts. */
  lemma RequestEffect(moving: set<Direction>, r: Request, d: Direction)
    ensures Stops(r) ==> Camera(moving, Commands(r)) == {}
    ensures !Stops(r) ==> (d in Camera(moving, Commands(r)) <==> d in moving || Starts(r, d))
  {
    match r {
      case ContinuousMove(v) =>
        if Target(v).Some? {
          MovesKeepMoving(moving, Directions(Target(v).value));
          DirectionsPoint(Target(v).value, d);
        }
      case RelativeMove(tr) =>
        if Target(tr).Some? {
          NudgesHalt(moving, Directions(Target(tr).value));
        }
      case Stop =>
        assert [Halt][1..] == [];
    }
  }

  lemma DirectionsPoint(v: Vector, d: Direction)
    ensures d in Directions(v) <==> Points(v, d)
  {
  }

  /** Request i started a movement in direction d that nothing later stopped. */
  ghost predicate StillMoving(requests: seq<Request>, i: nat, d: Direction) {
    i < |requests| && Starts(requests[i], d) && NoStop(requests[i + 1..])
  }

  ghost predicate NoStop(requests: seq<Request>) {
    forall j | 0 <= j < |requests| :: !Stops(requests[j])
  }

  /** After any sequence of requests to a camera at rest, it is moving in a direction exactly
      when some continuous move that way was not followed by a stop or a non-zero relative
      move. */
  lemma MovingIff(requests: seq<Request>, d: Direction)
    ensures d in Camera({}, Trace(requests)) <==> exists i: nat :: StillMoving(requests, i, d)
  {
    MovingFromIff({}, requests, d);
  }

  lemma {:induction false} MovingFromIff(moving: set<Direction>, requests: seq<Request>, d: Direction)
    ensures d in Camera(moving, Trace(requests)) <==>
            (d in moving && NoStop(requests)) || exists i: nat :: StillMoving(requests, i, d)
    decreases |requests|
  {
    if requests != [] {
      var r, rest := requests[0], requests[1..];
      var moving' := Camera(moving, Commands(r));
      CameraAppend(moving, Commands(r), Trace(rest));
      RequestEffect(moving, r, d);
      MovingFromIff(moving', rest, d);
      NoStopStep(requests);
      StillMovingShift(requests, d);
    }
  }

  lemma NoStopStep(requests: seq<Request>)
    requires requests != []
    ensures NoStop(requests) <==> !Stops(requests[0]) && NoStop(requests[1..])
  {
    assert forall j | 1 <= j < |requests| :: requests[j] == requests[1..][j - 1];
  }

  lemma StillMovingShift(requests: seq<Request>, d: Direction)
    requires requests != []
    ensures (exists i: nat :: StillMoving(requests, i, d)) <==>
            (Starts(requests[0], d) && NoStop(requests[1..])) || exists i: nat :: StillMoving(requests[1..], i, d)
  {
    var rest := requests[1..];
    forall i: nat ensures StillMoving(rest, i, d) <==> StillMoving(requests, i + 1, d) {
      if i < |rest| {
        assert requests[i + 2..] == rest[i + 1..];
      }
    }
    assert StillMoving(requests, 0, d) <==> Starts(requests[0], d) && NoStop(rest);
    if i: nat :| StillMoving(requests, i, d) {
      assert i > 0 ==> StillMoving(rest, i - 1, d);
    }
  }

  /** Command i is followed, after a pause, by a halt. */
  predicate HaltedAfter(t: seq<Command>, i: nat) {
    i + 2 < |t| && t[i + 1] == Sleep && t[i + 2] == Halt
  }

  /** In a relative move every directional command is followed by a halt before any other
      direction. */
  lemma RelativeMoveHaltsEachDirection(translation: Option<Option<Speed>>, j: nat)
    requires var t := Commands(RelativeMove(translation)); j < |t| && t[j].Move?
    ensures HaltedAfter(Commands(RelativeMove(translation)), j)
  {
    NudgesHaltEachDirection(Directions(Target(translation).value), j);
  }

  lemma {:induction false} NudgesHaltEachDirection(ds: seq<Direction>, i: nat)
    requires i < |Nudges(ds)| && Nudges(ds)[i].Move?
    ensures HaltedAfter(Nudges(ds), i)
    decreases |ds|
  {
    var t, u := Nudges(ds), Nudges(ds[1..]);
    assert t == [Move(ds[0]), Sleep, Halt] + u;
    if i >= 3 {
      assert u[i - 3] == t[i];
      NudgesHaltEachDirection(ds[1..], i - 3);
      assert u[i - 3 + 1] == t[i + 1] && u[i - 3 + 2] == t[i + 2];
    }
  }

  /** The commands of request i stand in the trace after those of the requests before it. */
  lemma {:induction false} TraceSplit(requests: seq<Request>, i: nat)
    requires i < |requests|
    ensures Trace(requests) == Trace(requests[..i]) + (Commands(requests[i]) + Trace(requests[i + 1..]))
    decreases i
  {
    if i > 0 {
      TraceSplit(requests[1..], i - 1);
      assert requests[..i][1..] == requests[1..][..i - 1];
      assert requests[1..][i..] == requests[i + 1..];
      Associative(Commands(requests[0]), Trace(requests[1..][..i - 1]),
        Commands(requests[i]) + Trace(requests[i + 1..]));
    }
  }

  /** The same wherever a relative move stands among the requests served: the camera command,
      the pause and the halt follow one another in the whole trace. */
  lemma ServedRelativeMoveHalts(requests: seq<Request>, i: nat, j: nat)
    requires i < |requests| && requests[i].RelativeMove?
    requires j < |Commands(requests[i])| && Commands(requests[i])[j].Move?
    ensures var t, at := Trace(requests), |Trace(requests[..i])| + j;
            at < |t| && t[at] == Commands(requests[i])[j] && HaltedAfter(t, at)
  {
    RelativeMoveHaltsEachDirection(requests[i].translation, j);
    TraceSplit(requests, i);
    InTheMiddle(Trace(requests[..i]), Commands(requests[i]), Trace(requests[i + 1..]), j);
    InTheMiddle(Trace(requests[..i]), Commands(requests[i]), Trace(requests[i + 1..]), j + 1);
    InTheMiddle(Trace(requests[..i]), Commands(requests[i]), Trace(requests[i + 1..]), j + 2);
  }

  lemma InTheMiddle(a: seq<Command>, b: seq<Command>, c: seq<Command>, j: nat)
    requires j < |b|
    ensures (a + (b + c))[|a| + j] == b[j]
  {
  }
}
