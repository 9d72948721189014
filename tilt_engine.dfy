/** The tilt engine of the profile card: the closure built at lines 32-105 of
    ProfileCard.jsx, here an object whose fields are the closure's variables.
    The browser's frame scheduler appears as an explicit queue of pending
    frame callbacks, and the clock, the document's focus and Math.exp /
    Math.hypot as parameters. */
module TiltEngine {
  import opened Wrappers
  import opened TiltMath

  /** INITIAL_DURATION: length of the entrance phase, in milliseconds. */
  const InitialDuration: real := 1200.0

  /** The loop keeps going while either axis is further than this from the target. */
  const SettleEpsilon: real := 0.05

  /** Host-side threshold under which a return to center counts as done. */
  const LeaveThreshold: real := 0.6

  /** What getCurrent() hands out. */
  datatype Snapshot = Snapshot(x: real, y: real, tx: real, ty: real)

  /** The continuation test at the end of a frame. */
  predicate KeepRunning(cx: real, cy: real, tx: real, ty: real, hasFocus: bool) {
    Abs(tx - cx) > SettleEpsilon || Abs(ty - cy) > SettleEpsilon || hasFocus
  }

  /** The host's completion check after a pointer leave:
      Math.hypot(tx - x, ty - y) < 0.6. */
  predicate LeaveComplete(s: Snapshot, hypot: (real, real) -> real) {
    hypot(s.tx - s.x, s.ty - s.y) < LeaveThreshold
  }

  /** The check is a plain comparison of squared distances. */
  lemma LeaveCompleteIff(s: Snapshot, hypot: (real, real) -> real)
    requires HypotLaw(hypot)
    ensures LeaveComplete(s, hypot) <==> Sq(s.tx - s.x) + Sq(s.ty - s.y) < Sq(LeaveThreshold)
  {
    var h := hypot(s.tx - s.x, s.ty - s.y);
    if h < LeaveThreshold {
      SqOrder(h, LeaveThreshold);
    } else {
      SqOrder(LeaveThreshold, h);
    }
  }

  /** Once both axes are within 0.4 of the target the check succeeds. */
  lemma LeaveCompleteNear(s: Snapshot, hypot: (real, real) -> real)
    requires HypotLaw(hypot)
    requires Abs(s.tx - s.x) <= 0.4 && Abs(s.ty - s.y) <= 0.4
    ensures LeaveComplete(s, hypot)
  {
    LeaveCompleteIff(s, hypot);
    SqOrder(Abs(s.tx - s.x), 0.4);
    SqOrder(Abs(s.ty - s.y), 0.4);
    assert Sq(Abs(s.tx - s.x)) == Sq(s.tx - s.x);
    assert Sq(Abs(s.ty - s.y)) == Sq(s.ty - s.y);
  }

  /** Removes a cancelled handle from the scheduler's queue. */
  function Without(q: seq<nat>, h: nat): (r: seq<nat>)
    ensures forall x :: x in r <==> x in q && x != h
    ensures |r| <= |q|
    ensures h !in q ==> r == q
  {
    if q == [] then []
    else if q[0] == h then Without(q[1..], h)
    else [q[0]] + Without(q[1..], h)
  }

  class Engine {
    /** Math.exp in its role k = 1 - exp(-dt / tau). */
    const decay: real -> real
    /** Math.hypot. */
    const hypot: (real, real) -> real

    /** The card shell (shellRef.current; the wrapper is mounted with it). */
    var surface: Option<Surface>
    /** The parameters last written onto the wrapper by setVars. */
    var style: Option<VisualParams>

    var rafId: Option<nat>
    var running: bool
    var lastTs: real
    var currentX: real
    var currentY: real
    var targetX: real
    var targetY: real
    var initialUntil: real

    /** Handles of this engine's frame callbacks the browser still holds. */
    var queued: seq<nat>
    /** The handle the next requestAnimationFrame returns (always positive). */
    var nextHandle: nat

    /** Outside a frame callback: exactly one callback is queued while the
        loop runs, none while it is stopped, and rafId names the queued one. */
    ghost predicate Valid()
      reads this
    {
      Scheduling() && (running <==> |queued| == 1)
    }

    /** What holds also inside a frame callback, after the browser has
        taken the callback off its queue. */
    ghost predicate Scheduling()
      reads this
    {
      && DecayLaw(decay) && HypotLaw(hypot)
      && 0 < nextHandle
      && |queued| <= 1
      && (|queued| == 1 ==> running && rafId == Some(queued[0]) && queued[0] < nextHandle)
    }

    /** getCurrent(): the current point and the target, as they are. */
    function GetCurrent(): (s: Snapshot)
      reads this
      ensures s.x == currentX && s.y == currentY
      ensures s.tx == targetX && s.ty == targetY
    {
      Snapshot(currentX, currentY, targetX, targetY)
    }

    /** The engine as useMemo builds it: stopped, at the origin. */
    constructor (decay: real -> real, hypot: (real, real) -> real, surface: Option<Surface>)
      requires DecayLaw(decay) && HypotLaw(hypot)
      ensures Valid()
      ensures this.decay == decay && this.hypot == hypot && this.surface == surface
      ensures style == None && rafId == None && !running && lastTs == 0.0
      ensures GetCurrent() == Snapshot(0.0, 0.0, 0.0, 0.0) && initialUntil == 0.0
      ensures queued == []
    {
      this.decay := decay;
      this.hypot := hypot;
      this.surface := surface;
      style := None;
      rafId := None;
      running := false;
      lastTs := 0.0;
      currentX, currentY := 0.0, 0.0;
      targetX, targetY := 0.0, 0.0;
      initialUntil := 0.0;
      queued := [];
      nextHandle := 1;
    }

    /** setVars(x, y): writes the parameters when the card is mounted. */
    method SetVars(x: real, y: real)
      modifies this`style
      ensures style == if surface.Some? then Some(Params(x, y, surface.value, hypot)) else old(style)
    {
      if surface.Some? {
        style := Some(Params(x, y, surface.value, hypot));
      }
    }

    /** requestAnimationFrame(step): queues a callback, returns its handle. */
    method RequestFrame() returns (h: nat)
      modifies this`queued, this`nextHandle
      ensures h == old(nextHandle) && nextHandle == h + 1
      ensures queued == old(queued) + [h]
    {
      h := nextHandle;
      queued := queued + [h];
      nextHandle := nextHandle + 1;
    }

    /** start(): schedules the loop unless it is already running. */
    method Start()
      requires Valid()
      modifies this`running, this`lastTs, this`rafId, this`queued, this`nextHandle
      ensures Valid()
      ensures old(running) ==> unchanged(this)
      ensures !old(running) ==>
        && running && lastTs == 0.0
        && queued == [old(nextHandle)] && rafId == Some(old(nextHandle))
        && nextHandle == old(nextHandle) + 1
    {
      if running {
        return;
      }
      running := true;
      lastTs := 0.0;
      var h := RequestFrame();
      rafId := Some(h);
    }

    /** The effect of one frame on the point, the style and the loop, given
        the state the frame started in. */
    twostate predicate Stepped(ts: real, hasFocus: bool)
      reads this
    {
      var k := decay(Elapsed(ts, old(lastTs)) / Tau(ts, old(initialUntil)));
      && currentX == Smooth(old(currentX), old(targetX), k)
      && currentY == Smooth(old(currentY), old(targetY), k)
      && targetX == old(targetX) && targetY == old(targetY)
      && initialUntil == old(initialUntil) && surface == old(surface)
      && style == (if surface.Some? then Some(Params(currentX, currentY, surface.value, hypot)) else old(style))
      && running == KeepRunning(currentX, currentY, targetX, targetY, hasFocus)
      && (running ==>
            lastTs == ts && queued == [old(nextHandle)]
            && rafId == Some(old(nextHandle)) && nextHandle == old(nextHandle) + 1)
      && (!running ==>
            lastTs == 0.0 && queued == [] && rafId == old(rafId) && nextHandle == old(nextHandle))
    }

    /** step(ts): the frame callback. A call after the loop stopped changes
        nothing. */
    method Step(ts: real, hasFocus: bool)
      requires Scheduling() && queued == []
      modifies this
      ensures Valid()
      ensures !old(running) ==> unchanged(this)
      ensures old(running) ==> Stepped(ts, hasFocus)
    {
      if !running {
        return;
      }
      if lastTs == 0.0 {
        lastTs := ts;
      }
      var dt := (ts - lastTs) / 1000.0;
      assert dt == Elapsed(ts, old(lastTs));
      lastTs := ts;
      var tau := Tau(ts, initialUntil);
      var k := decay(dt / tau);
      currentX := Smooth(currentX, targetX, k);
      currentY := Smooth(currentY, targetY, k);
      SetVars(currentX, currentY);
      if Abs(targetX - currentX) > SettleEpsilon || Abs(targetY - currentY) > SettleEpsilon || hasFocus {
        var h := RequestFrame();
        rafId := Some(h);
      } else {
        running := false;
        lastTs := 0.0;
      }
    }

    /** The browser delivers the next animation frame of this engine, with
        its timestamp and the document's focus at that moment. Frame
        timestamps never go backwards. */
    method Frame(ts: real, hasFocus: bool)
      requires Valid() && lastTs <= ts
      modifies this
      ensures Valid()
      ensures !old(running) ==> unchanged(this)
      ensures old(running) ==> Stepped(ts, hasFocus)
      ensures Between(old(currentX), currentX, targetX) && Between(old(currentY), currentY, targetY)
      ensures Abs(targetX - currentX) <= Abs(old(targetX) - old(currentX))
      ensures Abs(targetY - currentY) <= Abs(old(targetY) - old(currentY))
      ensures old(lastTs) == 0.0 ==> currentX == old(currentX) && currentY == old(currentY)
    {
      if queued == [] {
        return;
      }
      queued := queued[1..];
      ghost var k := decay(Elapsed(ts, lastTs) / Tau(ts, initialUntil));
      FactorInUnit(decay, Elapsed(ts, lastTs), ts, initialUntil);
      SmoothNoOvershoot(currentX, targetX, k);
      SmoothNoOvershoot(currentY, targetY, k);
      Step(ts, hasFocus);
    }

    /** setImmediate(x, y): moves the current point, leaves the target. */
    method SetImmediate(x: real, y: real)
      modifies this`currentX, this`currentY, this`style
      ensures currentX == x && currentY == y
      ensures style == if surface.Some? then Some(Params(x, y, surface.value, hypot)) else old(style)
    {
      currentX, currentY := x, y;
      SetVars(x, y);
    }

    /** setTarget(x, y): a pointer event. Only the target moves; the loop
        is started if it is stopped. */
    method SetTarget(x: real, y: real)
      requires Valid()
      modifies this`targetX, this`targetY, this`running, this`lastTs, this`rafId, this`queued, this`nextHandle
      ensures Valid()
      ensures targetX == x && targetY == y
      ensures currentX == old(currentX) && currentY == old(currentY)
      ensures running
      ensures old(running) ==>
        && lastTs == old(lastTs) && queued == old(queued)
        && rafId == old(rafId) && nextHandle == old(nextHandle)
      ensures !old(running) ==>
        && lastTs == 0.0 && queued == [old(nextHandle)]
        && rafId == Some(old(nextHandle)) && nextHandle == old(nextHandle) + 1
    {
      targetX, targetY := x, y;
      Start();
    }

    /** toCenter(): aims at the middle of the shell; nothing without one. */
    method ToCenter()
      requires Valid()
      modifies this`targetX, this`targetY, this`running, this`lastTs, this`rafId, this`queued, this`nextHandle
      ensures Valid()
      ensures surface.None? ==> unchanged(this)
      ensures surface.Some? ==>
        && targetX == surface.value.width as real / 2.0
        && targetY == surface.value.height as real / 2.0
        && running
      ensures surface.Some? && old(running) ==>
        && lastTs == old(lastTs) && queued == old(queued)
        && rafId == old(rafId) && nextHandle == old(nextHandle)
      ensures surface.Some? && !old(running) ==>
        && lastTs == 0.0 && queued == [old(nextHandle)]
        && rafId == Some(old(nextHandle)) && nextHandle == old(nextHandle) + 1
      ensures currentX == old(currentX) && currentY == old(currentY)
    {
      if surface.Some? {
        SetTarget(surface.value.width as real / 2.0, surface.value.height as real / 2.0);
      }
    }

    /** beginInitial(ms): the entrance phase lasts ms from now (the value
        performance.now() gives), and the loop is started. */
    method BeginInitial(ms: real, now: real)
      requires Valid()
      modifies this`initialUntil, this`running, this`lastTs, this`rafId, this`queued, this`nextHandle
      ensures Valid()
      ensures initialUntil == now + ms
      ensures running
      ensures old(running) ==>
        && lastTs == old(lastTs) && queued == old(queued)
        && rafId == old(rafId) && nextHandle == old(nextHandle)
      ensures !old(running) ==>
        && lastTs == 0.0 && queued == [old(nextHandle)]
        && rafId == Some(old(nextHandle)) && nextHandle == old(nextHandle) + 1
      ensures GetCurrent() == old(GetCurrent())
    {
      initialUntil := now + ms;
      Start();
    }

    /** cancel(): stops the loop and releases the pending frame. Calling it
        again changes nothing. */
    method Cancel()
      requires Valid()
      modifies this`rafId, this`running, this`queued
      ensures Valid()
      ensures !running && rafId == None && queued == []
      ensures !old(running) && old(rafId) == None ==> unchanged(this)
    {
      if rafId.Some? {
        queued := Without(queued, rafId.value);
      }
      rafId := None;
      running := false;
    }

    /** The mount effect: start off-center at (width - 70, 60), aim at the
        center and ease in slowly for INITIAL_DURATION. Without a shell it
        does nothing. */
    method Mount(now: real)
      requires Valid()
      modifies this`currentX, this`currentY, this`style, this`targetX, this`targetY, this`initialUntil,
               this`running, this`lastTs, this`rafId, this`queued, this`nextHandle
      ensures Valid()
      ensures surface.None? ==> unchanged(this)
      ensures surface.Some? ==>
        && currentX == surface.value.width as real - 70.0 && currentY == 60.0
        && style == Some(Params(surface.value.width as real - 70.0, 60.0, surface.value, hypot))
        && targetX == surface.value.width as real / 2.0
        && targetY == surface.value.height as real / 2.0
        && initialUntil == now + InitialDuration
        && running
      ensures surface.Some? && old(running) ==>
        && lastTs == old(lastTs) && queued == old(queued)
        && rafId == old(rafId) && nextHandle == old(nextHandle)
      ensures surface.Some? && !old(running) ==>
        && lastTs == 0.0 && queued == [old(nextHandle)]
        && rafId == Some(old(nextHandle)) && nextHandle == old(nextHandle) + 1
    {
      if surface.None? {
        return;
      }
      SetImmediate(surface.value.width as real - 70.0, 60.0);
      ToCenter();
      BeginInitial(InitialDuration, now);
    }

    /** The mount effect on a stopped engine followed by the first frame the
        browser delivers: that frame has no elapsed time, so the card is
        still drawn at (width - 70, 60), and the loop goes on toward the
        center unless the point already sits within the settle distance. */
    method MountFirstFrame(now: real, ts: real, hasFocus: bool)
      requires Valid() && !running && surface.Some? && 0.0 <= ts
      modifies this
      ensures Valid()
      ensures surface == old(surface)
      ensures currentX == surface.value.width as real - 70.0 && currentY == 60.0
      ensures style == Some(Params(surface.value.width as real - 70.0, 60.0, surface.value, hypot))
      ensures targetX == surface.value.width as real / 2.0
      ensures targetY == surface.value.height as real / 2.0
      ensures running <==> KeepRunning(currentX, currentY, targetX, targetY, hasFocus)
      ensures running ==> lastTs == ts
    {
      Mount(now);
      Frame(ts, hasFocus);
    }
  }
}
