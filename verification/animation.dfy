/** The frame animation state machine (`vi::gl::animation`): it cycles the UV
    rectangle of the sprite it drives through a borrowed array of frames,
    one frame per `speed` seconds of game time. The game clock is passed in
    as `now`; the driven sprite is passed in and returned. */
module Animations {
  import opened Base
  import opened Sprites

  datatype Animation = Animation(
    uvs: seq<Uv>,           // the borrowed frame array `u`
    speed: real,            // seconds per frame
    frameCount: nat,
    currentFrame: nat,
    stopAfter: nat,         // stop after this many frame changes; 0 = never
    frameChanged: bool,     // the last update advanced the frame
    frameChanges: nat,      // `_frameChanges`
    elapsedTime: real,      // `_elapsedTime`, the time accumulator
    lastUpdate: real,       // `_lastUpdate`
    playing: bool)          // `_playing`

  /** The frame array covers `frameCount` frames and the current frame is
      one of them (frame 0 of a non-empty array when `frameCount` is 0). */
  predicate Valid(a: Animation)
  {
    && a.frameCount <= |a.uvs|
    && a.currentFrame < |a.uvs|
    && (a.frameCount > 0 ==> a.currentFrame < a.frameCount)
  }

  /** `init`: stopped at frame 0 with cleared counters; the sprite shows
      frame 0 straight away. */
  function Init(s: Sprite, uvs: seq<Uv>, frameCount: nat, secondsPerFrame: real, stopAfter: nat)
    : (res: (Animation, Sprite))
    requires 0 < |uvs| && frameCount <= |uvs|
    ensures Valid(res.0)
    ensures res.0.currentFrame == 0 && !res.0.playing && !res.0.frameChanged
    ensures res.0.frameChanges == 0 && res.0.elapsedTime == 0.0 && res.0.lastUpdate == 0.0
    ensures res.0.uvs == uvs && res.0.frameCount == frameCount
    ensures res.0.speed == secondsPerFrame && res.0.stopAfter == stopAfter
    ensures res.1 == s.(uv := uvs[0])
  {
    (Animation(uvs, secondsPerFrame, frameCount, 0, stopAfter, false, 0, 0.0, 0.0, false),
     s.(uv := uvs[0]))
  }

  /** `play`: starts a stopped animation from the current game time and shows
      the current frame at once; an animation already playing is untouched. */
  function Play(a: Animation, s: Sprite, now: real): (res: (Animation, Sprite))
    requires Valid(a)
    ensures a.playing ==> res == (a, s)
    ensures !a.playing ==> res.0 == a.(playing := true, lastUpdate := now)
    ensures !a.playing ==> res.1 == s.(uv := a.uvs[a.currentFrame])
    ensures res.0.playing && Valid(res.0)
  {
    if a.playing then (a, s)
    else (a.(playing := true, lastUpdate := now), s.(uv := a.uvs[a.currentFrame]))
  }

  /** `pause`: stops playing and keeps the frame. */
  function Pause(a: Animation): (r: Animation)
    ensures !r.playing && r == a.(playing := false)
  {
    a.(playing := false)
  }

  /** `reset`: stopped, back at frame 0 with counters and accumulator cleared;
      the last-update stamp and the sprite's UV are left alone. */
  function Reset(a: Animation): (r: Animation)
    ensures !r.playing && r.currentFrame == 0 && !r.frameChanged
    ensures r.frameChanges == 0 && r.elapsedTime == 0.0
    ensures r.lastUpdate == a.lastUpdate
    ensures r.uvs == a.uvs && r.speed == a.speed && r.frameCount == a.frameCount && r.stopAfter == a.stopAfter
    ensures Valid(a) ==> Valid(r)
  {
    a.(currentFrame := 0, frameChanged := false, elapsedTime := 0.0,
       playing := false, frameChanges := 0)
  }

  /** `a.change(b)`: hands the sprite over from `a` to `b`. Nothing happens
      unless `a` is playing and `b` is not; then `a` is reset and `b` plays,
      showing its current frame on `b`'s sprite. */
  function Change(a: Animation, b: Animation, bSprite: Sprite, now: real)
    : (res: (Animation, Animation, Sprite))
    requires Valid(a) && Valid(b)
    ensures !(a.playing && !b.playing) ==> res == (a, b, bSprite)
    ensures a.playing && !b.playing ==>
      && res.0 == Reset(a) && !res.0.playing
      && res.1 == b.(playing := true, lastUpdate := now) && res.1.playing
      && res.2 == bSprite.(uv := b.uvs[b.currentFrame])
  {
    if !a.playing || b.playing then (a, b, bSprite)
    else
      var (b', s') := Play(b, bSprite, now);
      (Reset(a), b', s')
  }

  /** The guard makes `change` safe to call every frame: once the hand-over
      has happened, calling it again with the same pair changes nothing. */
  lemma ChangeIdempotent(a: Animation, b: Animation, s: Sprite, now: real, later: real)
    requires Valid(a) && Valid(b)
    ensures var (a1, b1, s1) := Change(a, b, s, now);
            Change(a1, b1, s1, later) == (a1, b1, s1)
  {
  }

  /** The frame array with left and right exchanged in the first `n` frames. */
  function FlippedH(u: seq<Uv>, n: nat): (r: seq<Uv>)
    requires n <= |u|
    ensures |r| == |u|
  {
    seq(|u|, i requires 0 <= i < |u| => if i < n then SwapLeftRight(u[i]) else u[i])
  }

  /** The frame array with top and bottom exchanged in the first `n` frames. */
  function FlippedV(u: seq<Uv>, n: nat): (r: seq<Uv>)
    requires n <= |u|
    ensures |r| == |u|
  {
    seq(|u|, i requires 0 <= i < |u| => if i < n then SwapTopBottom(u[i]) else u[i])
  }

  /** Flipping twice restores every frame. */
  lemma FlipInvolution(u: seq<Uv>, n: nat)
    requires n <= |u|
    ensures FlippedH(FlippedH(u, n), n) == u
    ensures FlippedV(FlippedV(u, n), n) == u
  {
    assert forall i :: 0 <= i < |u| ==> FlippedH(FlippedH(u, n), n)[i] == u[i];
    assert forall i :: 0 <= i < |u| ==> FlippedV(FlippedV(u, n), n)[i] == u[i];
  }

  /** `flipHorizontally`: swaps left and right in each of the first
      `frameCount` frames in place; frames beyond and all state stay. */
  method FlipHorizontally(a: Animation) returns (r: Animation)
    requires Valid(a)
    ensures r == a.(uvs := FlippedH(a.uvs, a.frameCount))
    ensures forall i :: 0 <= i < a.frameCount ==>
      r.uvs[i].left == a.uvs[i].right && r.uvs[i].right == a.uvs[i].left &&
      r.uvs[i].top == a.uvs[i].top && r.uvs[i].bottom == a.uvs[i].bottom
    ensures forall i :: a.frameCount <= i < |a.uvs| ==> r.uvs[i] == a.uvs[i]
  {
    var u := a.uvs;
    var i := 0;
    while i < a.frameCount
      invariant 0 <= i <= a.frameCount
      invariant |u| == |a.uvs|
      invariant forall j :: 0 <= j < i ==> u[j] == SwapLeftRight(a.uvs[j])
      invariant forall j :: i <= j < |u| ==> u[j] == a.uvs[j]
    {
      u := u[i := SwapLeftRight(u[i])];
      i := i + 1;
    }
    r := a.(uvs := u);
  }

  /** `flipVertically`: swaps top and bottom in each of the first
      `frameCount` frames in place. */
  method FlipVertically(a: Animation) returns (r: Animation)
    requires Valid(a)
    ensures r == a.(uvs := FlippedV(a.uvs, a.frameCount))
    ensures forall i :: 0 <= i < a.frameCount ==>
      r.uvs[i].top == a.uvs[i].bottom && r.uvs[i].bottom == a.uvs[i].top &&
      r.uvs[i].left == a.uvs[i].left && r.uvs[i].right == a.uvs[i].right
    ensures forall i :: a.frameCount <= i < |a.uvs| ==> r.uvs[i] == a.uvs[i]
  {
    var u := a.uvs;
    var i := 0;
    while i < a.frameCount
      invariant 0 <= i <= a.frameCount
      invariant |u| == |a.uvs|
      invariant forall j :: 0 <= j < i ==> u[j] == SwapTopBottom(a.uvs[j])
      invariant forall j :: i <= j < |u| ==> u[j] == a.uvs[j]
    {
      u := u[i := SwapTopBottom(u[i])];
      i := i + 1;
    }
    r := a.(uvs := u);
  }

  /** Whether an update at `now` moves a playing animation to the next frame:
      the accumulated time must exceed one frame period. */
  predicate Advances(a: Animation, now: real)
  {
    a.elapsedTime + (now - a.lastUpdate) > a.speed
  }

  /** `update`: a stopped animation is untouched. A playing one adds the time
      since the last update to its accumulator; if that exceeds one period it
      takes ONE period off and moves ONE frame on (however much time has
      passed), shows the new frame, counts the change and stops once the
      count passes a non-zero `stopAfter`. */
  function Update(a: Animation, s: Sprite, now: real): (res: (Animation, Sprite))
    requires Valid(a)
    requires a.playing && Advances(a, now) ==> a.frameCount > 0
    ensures !a.playing ==> res == (a, s)
    ensures Valid(res.0)
    ensures a.playing ==>
      && res.0.lastUpdate == now
      && res.0.frameChanged == Advances(a, now)
      && res.0.uvs == a.uvs && res.0.speed == a.speed
      && res.0.frameCount == a.frameCount && res.0.stopAfter == a.stopAfter
    ensures a.playing && !Advances(a, now) ==>
      && res.0.currentFrame == a.currentFrame && res.0.frameChanges == a.frameChanges
      && res.0.playing && res.1 == s
      && res.0.elapsedTime == a.elapsedTime + (now - a.lastUpdate)
    ensures a.playing && Advances(a, now) ==>
      && res.0.currentFrame == (a.currentFrame + 1) % a.frameCount
      && res.0.frameChanges == a.frameChanges + 1
      && res.1 == s.(uv := a.uvs[res.0.currentFrame])
      && res.0.elapsedTime == a.elapsedTime + (now - a.lastUpdate) - a.speed
      && (res.0.playing <==> !(a.stopAfter != 0 && res.0.frameChanges > a.stopAfter))
  {
    if !a.playing then (a, s)
    else
      var elapsed := a.elapsedTime + (now - a.lastUpdate);
      var a1 := a.(frameChanged := false, lastUpdate := now, elapsedTime := elapsed);
      if elapsed > a.speed then
        var frame := (a.currentFrame + 1) % a.frameCount;
        var changes := a.frameChanges + 1;
        var a2 := a1.(elapsedTime := elapsed - a.speed, currentFrame := frame,
                      frameChanged := true, frameChanges := changes);
        var a3 := if a.stopAfter != 0 && changes > a.stopAfter then a2.(playing := false) else a2;
        (a3, s.(uv := a.uvs[frame]))
      else (a1, s)
  }

  /** The frame after `f` in a cycle of `n` frames. */
  function NextFrame(f: nat, n: nat): (g: nat)
    requires f < n
    ensures g < n
    ensures g == (f + 1) % n
  {
    if f + 1 == n then
      ModSelf(n);
      0
    else
      ModSmall(f + 1, n);
      f + 1
  }

  lemma ModSelf(n: nat)
    requires n > 0
    ensures n % n == 0
  {
  }

  lemma ModSmall(a: nat, n: nat)
    requires a < n
    ensures a % n == a
  {
  }

  /** The frame reached from `f` after `k` frame changes. */
  function FrameAfter(f: nat, n: nat, k: nat): (g: nat)
    requires f < n
    ensures g < n
    decreases k
  {
    if k == 0 then f else FrameAfter(NextFrame(f, n), n, k - 1)
  }

  /** Runs `update` at each of the given times, in order. */
  function UpdateAll(a: Animation, s: Sprite, times: seq<real>): (res: (Animation, Sprite))
    requires Valid(a) && a.frameCount > 0
    ensures Valid(res.0)
    ensures res.0.frameCount == a.frameCount && res.0.uvs == a.uvs
    decreases |times|
  {
    if |times| == 0 then (a, s)
    else
      var (a1, s1) := Update(a, s, times[0]);
      UpdateAll(a1, s1, times[1..])
  }

  /** Over any run of updates the animation moves at most one frame per call:
      the frame-change counter grows by some k no larger than the number of
      calls, and the frame is the start frame moved on k places, cyclically.
      A stopped animation stays as it is for the whole run. */
  lemma {:induction false} AtMostOneFramePerUpdate(a: Animation, s: Sprite, times: seq<real>)
    requires Valid(a) && a.frameCount > 0
    ensures var r := UpdateAll(a, s, times).0;
            && a.frameChanges <= r.frameChanges <= a.frameChanges + |times|
            && r.currentFrame == FrameAfter(a.currentFrame, a.frameCount, r.frameChanges - a.frameChanges)
    ensures !a.playing ==> UpdateAll(a, s, times) == (a, s)
    decreases |times|
  {
    if |times| > 0 {
      var (a1, s1) := Update(a, s, times[0]);
      AtMostOneFramePerUpdate(a1, s1, times[1..]);
      if a.playing && Advances(a, times[0]) {
        assert a1.currentFrame == NextFrame(a.currentFrame, a.frameCount);
      }
    }
  }

  /** Partial catch-up: a long stall still moves only one frame and leaves
      the rest of the stalled time in the accumulator. */
  lemma StallMovesOneFrame(a: Animation, s: Sprite, now: real, periods: nat)
    requires Valid(a) && a.playing && a.frameCount > 0 && a.speed > 0.0
    requires a.elapsedTime == 0.0 && periods >= 2
    requires now - a.lastUpdate == periods as real * a.speed
    ensures var (r, _) := Update(a, s, now);
            r.currentFrame == (a.currentFrame + 1) % a.frameCount &&
            r.elapsedTime == (periods - 1) as real * a.speed
  {
    assert Advances(a, now);
  }
}
