/**
 * The racecar game's intermission node: a fire-once trigger placed at a depth
 * along the track. Each frame it compares the camera depth, plus a fixed
 * look-ahead, with its own depth; the first frame that reaches it latches the
 * trigger and emits one `changeSelector` event.
 */
module Racecar {
  import opened Optional

  /** How far the visible camera trails the logical track position. */
  const Lookahead: real := 6.0

  /** The `changeSelector` event: which selector to switch to, and where. */
  datatype ChangeSelector = ChangeSelector(selector: string, zCoordinate: real)

  /** The test an intermission performs against the camera each frame. */
  predicate Reached(cameraZ: real, zCoordinate: real) {
    cameraZ + Lookahead >= zCoordinate
  }

  /** One frame of the latch: the new `fired` flag and the event emitted, if any. */
  function Step(fired: bool, cameraZ: real, selector: string, zCoordinate: real)
    : (r: (bool, Option<ChangeSelector>))
    ensures r.0 == (fired || Reached(cameraZ, zCoordinate))
    ensures r.1.Some? <==> !fired && Reached(cameraZ, zCoordinate)
    ensures r.1.Some? ==> r.1.value == ChangeSelector(selector, zCoordinate)
  {
    if Reached(cameraZ, zCoordinate) && !fired then
      (true, Some(ChangeSelector(selector, zCoordinate)))
    else
      (fired, None)
  }

  /** What an intermission emits, frame by frame, over a run of camera positions. */
  function Frames(fired: bool, cameras: seq<real>, selector: string, zCoordinate: real)
    : (events: seq<Option<ChangeSelector>>)
    ensures |events| == |cameras|
    decreases |cameras|
  {
    if cameras == [] then []
    else
      var (fired', event) := Step(fired, cameras[0], selector, zCoordinate);
      [event] + Frames(fired', cameras[1..], selector, zCoordinate)
  }

  /** Once fired, no camera position makes the intermission emit again. */
  lemma {:induction false} FiredStaysSilent(cameras: seq<real>, selector: string, zCoordinate: real)
    ensures forall i | 0 <= i < |cameras| :: Frames(true, cameras, selector, zCoordinate)[i] == None
  {
    if cameras != [] {
      FiredStaysSilent(cameras[1..], selector, zCoordinate);
    }
  }

  /**
   * An armed intermission emits on frame i exactly when frame i is the first
   * frame whose camera reaches it; a camera that jumps past the depth counts.
   */
  lemma {:induction false} FiresOnFirstReach(cameras: seq<real>, selector: string, zCoordinate: real, i: nat)
    requires i < |cameras|
    ensures Frames(false, cameras, selector, zCoordinate)[i].Some?
        <==> Reached(cameras[i], zCoordinate) && forall j | 0 <= j < i :: !Reached(cameras[j], zCoordinate)
    ensures Frames(false, cameras, selector, zCoordinate)[i].Some?
        ==> Frames(false, cameras, selector, zCoordinate)[i].value == ChangeSelector(selector, zCoordinate)
  {
    var events := Frames(false, cameras, selector, zCoordinate);
    if Reached(cameras[0], zCoordinate) {
      if i > 0 {
        FiredStaysSilent(cameras[1..], selector, zCoordinate);
        assert events[i] == Frames(true, cameras[1..], selector, zCoordinate)[i - 1];
      }
    } else if i > 0 {
      FiresOnFirstReach(cameras[1..], selector, zCoordinate, i - 1);
      assert events[i] == Frames(false, cameras[1..], selector, zCoordinate)[i - 1];
      assert forall j | 0 <= j < i - 1 :: cameras[1..][j] == cameras[j + 1];
      if Reached(cameras[i], zCoordinate) && forall j | 0 <= j < i :: !Reached(cameras[j], zCoordinate) {
        assert forall j | 0 <= j < i - 1 :: !Reached(cameras[1..][j], zCoordinate);
      }
    }
  }

  /** Over any run of camera positions an intermission emits at most once. */
  lemma FiresAtMostOnce(fired: bool, cameras: seq<real>, selector: string, zCoordinate: real, i: nat, j: nat)
    requires i < |cameras| && j < |cameras|
    requires Frames(fired, cameras, selector, zCoordinate)[i].Some?
    requires Frames(fired, cameras, selector, zCoordinate)[j].Some?
    ensures i == j
  {
    if fired {
      FiredStaysSilent(cameras, selector, zCoordinate);
    } else {
      FiresOnFirstReach(cameras, selector, zCoordinate, i);
      FiresOnFirstReach(cameras, selector, zCoordinate, j);
    }
  }

  /** If some camera position reaches an armed intermission, it does fire. */
  lemma {:induction false} FiresIfReached(cameras: seq<real>, selector: string, zCoordinate: real, k: nat)
    requires k < |cameras| && Reached(cameras[k], zCoordinate)
    ensures exists i | 0 <= i <= k :: Frames(false, cameras, selector, zCoordinate)[i]
                                       == Some(ChangeSelector(selector, zCoordinate))
    decreases k
  {
    if j :| 0 <= j < k && Reached(cameras[j], zCoordinate) {
      FiresIfReached(cameras, selector, zCoordinate, j);
    } else {
      FiresOnFirstReach(cameras, selector, zCoordinate, k);
    }
  }

  /** A run of frames is its first frame followed by the rest of the run. */
  lemma FramesAt(fired: bool, cameras: seq<real>, selector: string, zCoordinate: real, i: nat)
    requires i < |cameras|
    ensures var (fired', event) := Step(fired, cameras[i], selector, zCoordinate);
      Frames(fired, cameras[i..], selector, zCoordinate)
        == [event] + Frames(fired', cameras[i + 1..], selector, zCoordinate)
  {
    assert cameras[i..][1..] == cameras[i + 1..];
  }

  /** Some frame among the first `n` reaches depth `zCoordinate`. */
  predicate ReachedWithin(cameras: seq<real>, zCoordinate: real, n: nat)
    requires n <= |cameras|
  {
    exists j | 0 <= j < n :: Reached(cameras[j], zCoordinate)
  }

  /** One more frame reaches the node within `n + 1` frames iff it did within `n` or frame `n` does. */
  lemma ReachedWithinNext(cameras: seq<real>, zCoordinate: real, n: nat)
    requires n < |cameras|
    ensures ReachedWithin(cameras, zCoordinate, n + 1)
        == (ReachedWithin(cameras, zCoordinate, n) || Reached(cameras[n], zCoordinate))
  {
    if Reached(cameras[n], zCoordinate) {
      assert ReachedWithin(cameras, zCoordinate, n + 1);
    }
  }

  /** An intermission node: its selector, its depth on the track and its latch. */
  class Intermission {
    var selector: string
    var zCoordinate: real
    var fired: bool
    /** The `changeSelector` events this node has put on the event bus. */
    ghost var emitted: seq<ChangeSelector>

    /** The latch has fired exactly when the one event it may emit has been emitted. */
    ghost predicate Valid()
      reads this
    {
      && (fired <==> emitted != [])
      && (fired ==> emitted == [ChangeSelector(selector, zCoordinate)])
    }

    /** A new intermission is armed. */
    constructor (selector: string, z: real)
      ensures Valid()
      ensures this.selector == selector && zCoordinate == z
      ensures !fired && emitted == []
    {
      this.selector := selector;
      zCoordinate := z;
      fired := false;
      emitted := [];
    }

    /** The per-frame update, given the camera depth of this frame. */
    method Update(cameraZ: real) returns (event: Option<ChangeSelector>)
      requires Valid()
      modifies this`fired, this`emitted
      ensures Valid()
      ensures (fired, event) == Step(old(fired), cameraZ, selector, zCoordinate)
      ensures emitted == old(emitted) + (if event.Some? then [event.value] else [])
      ensures selector == old(selector) && zCoordinate == old(zCoordinate)
    {
      event := None;
      if cameraZ + Lookahead >= zCoordinate && !fired {
        fired := true;
        event := Some(ChangeSelector(selector, zCoordinate));
        emitted := emitted + [event.value];
      }
    }

    /**
     * The scheduler driving this node through one frame per camera position:
     * what the node emits is `Frames` of its latch, so the run lemmas above
     * hold of the node itself, and afterwards the latch is set exactly when
     * it was set before or some frame reached the node; a fired node never
     * re-arms and emits nothing more.
     */
    method UpdateEach(cameras: seq<real>) returns (events: seq<Option<ChangeSelector>>)
      requires Valid()
      modifies this`fired, this`emitted
      ensures Valid()
      ensures events == Frames(old(fired), cameras, selector, zCoordinate)
      ensures fired == (old(fired) || ReachedWithin(cameras, zCoordinate, |cameras|))
      ensures old(fired) ==> emitted == old(emitted)
      ensures selector == old(selector) && zCoordinate == old(zCoordinate)
    {
      events := [];
      var i := 0;
      while i < |cameras|
        invariant 0 <= i <= |cameras| && Valid()
        invariant selector == old(selector) && zCoordinate == old(zCoordinate)
        invariant fired == (old(fired) || ReachedWithin(cameras, zCoordinate, i))
        invariant old(fired) ==> emitted == old(emitted)
        invariant events + Frames(fired, cameras[i..], selector, zCoordinate)
               == Frames(old(fired), cameras, selector, zCoordinate)
      {
        FramesAt(fired, cameras, selector, zCoordinate, i);
        ghost var wasFired := fired;
        var event := Update(cameras[i]);
        assert fired == (wasFired || Reached(cameras[i], zCoordinate));
        ReachedWithinNext(cameras, zCoordinate, i);
        assert events + [event] + Frames(fired, cameras[i + 1..], selector, zCoordinate)
            == events + ([event] + Frames(fired, cameras[i + 1..], selector, zCoordinate));
        events := events + [event];
        i := i + 1;
      }
    }
  }
}
