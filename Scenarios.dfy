/** Concrete hands and timed sequences that exercise the classifier, the filter and the
    frame step: two hands encoded by coordinates, the debounce timings of a held and of an
    interrupted gesture, and a Stop held for one and a half seconds. */
module Scenarios {
  import opened Gestures
  import opened Stability
  import opened Recognizer

  /** A hand from 21 x and 21 y coordinates. */
  function MakeHand(xs: seq<real>, ys: seq<real>): (h: Hand)
    requires |xs| == LandmarkCount && |ys| == LandmarkCount
    ensures forall i :: 0 <= i < LandmarkCount ==> h[i] == Landmark(xs[i], ys[i])
  {
    seq(LandmarkCount, i requires 0 <= i < LandmarkCount => Landmark(xs[i], ys[i]))
  }

  /** An open palm: four fingers straight up, thumb spread 0.15 to the side. */
  function OpenPalm(): Hand
  {
    MakeHand([0.5, 0.45, 0.4, 0.35, 0.25,
              0.45, 0.45, 0.45, 0.45, 0.5, 0.5, 0.5, 0.5,
              0.55, 0.55, 0.55, 0.55, 0.6, 0.6, 0.6, 0.6],
             [0.9, 0.8, 0.7, 0.65, 0.6,
              0.6, 0.5, 0.45, 0.4, 0.6, 0.5, 0.45, 0.4,
              0.6, 0.5, 0.45, 0.4, 0.6, 0.5, 0.45, 0.4])
  }

  /** Index finger up, the other three curled, and the thumb tip the highest point. */
  function PointingThumb(): Hand
  {
    MakeHand([0.5, 0.4, 0.4, 0.4, 0.4,
              0.45, 0.45, 0.45, 0.45, 0.5, 0.5, 0.5, 0.5,
              0.55, 0.55, 0.55, 0.55, 0.6, 0.6, 0.6, 0.6],
             [0.9, 0.5, 0.3, 0.2, 0.1,
              0.6, 0.5, 0.4, 0.3, 0.6, 0.65, 0.7, 0.7,
              0.6, 0.65, 0.7, 0.7, 0.6, 0.65, 0.7, 0.7])
  }

  lemma OpenPalmIsStop()
    ensures IsStop(OpenPalm()) && Classify(OpenPalm()) == Stop
  {
    var h := OpenPalm();
    assert h[ThumbTip].y > h[FingerTips[0]].y && h[ThumbTip].y < h[ThumbIp].y;
    assert h[FingerTips[1]].y < h[FingerBases[1]].y;
    assert h[MiddleTip].y < h[MiddlePip].y;
    forall k | 0 <= k < |FingerTips| ensures h[FingerTips[k]].y < h[FingerBases[k]].y {
    }
  }

  /** The Point and Thumbs Up rules can hold for the same hand; the priority makes it Point. */
  lemma PointOutranksThumbsUp()
    ensures IsPointing(PointingThumb()) && IsThumbsUp(PointingThumb())
    ensures Classify(PointingThumb()) == Point
  {
  }

  /** The all-zero hand is No Gesture. */
  lemma AllZeroHandIsNoGesture()
    ensures Classify(seq(LandmarkCount, _ => Landmark(0.0, 0.0))) == NoGesture
  {
    DegenerateHandIsNoGesture(seq(LandmarkCount, _ => Landmark(0.0, 0.0)));
  }

  /** Thumbs Up seen at 0.0, 0.2, 0.4 and 0.6 s by a filter that has seen nothing: the first
      observation starts the timer, 0.2 and 0.4 do not confirm, 0.6 confirms and moves the
      selection up once. */
  lemma HeldThumbsUpConfirmsOnce(s0: State)
    requires s0.last == None
    ensures var s1 := Filter(s0, ThumbsUp, 0.0);
            var s2 := Filter(s1, ThumbsUp, 0.2);
            var s3 := Filter(s2, ThumbsUp, 0.4);
            var s4 := Filter(s3, ThumbsUp, 0.6);
            !Confirms(s0, ThumbsUp, 0.0) && !Confirms(s1, ThumbsUp, 0.2) &&
            !Confirms(s2, ThumbsUp, 0.4) && Confirms(s3, ThumbsUp, 0.6) &&
            s3.current == s0.current && s3.selected == s0.selected &&
            s4.current == ThumbsUp && s4.selected == PreviousIndex(s0.selected) &&
            s4.paused == s0.paused && s4.lastTime == 0.6
  {
  }

  /** Thumbs Up at 0.0, Rock Sign at 0.3, Thumbs Up at 0.6: each change restarts the timer,
      so nothing is confirmed and no action fires. */
  lemma InterruptedThumbsUpNeverConfirms(s0: State)
    requires s0.last == None
    ensures var s1 := Filter(s0, ThumbsUp, 0.0);
            var s2 := Filter(s1, RockSign, 0.3);
            var s3 := Filter(s2, ThumbsUp, 0.6);
            !Confirms(s0, ThumbsUp, 0.0) && !Confirms(s1, RockSign, 0.3) && !Confirms(s2, ThumbsUp, 0.6) &&
            s3.current == s0.current && s3.selected == s0.selected && s3.paused == s0.paused &&
            s3.last == Some(ThumbsUp) && s3.lastTime == 0.6
  {
  }

  /** The same hand in every frame, at the given clock readings. */
  function HeldFrames(h: Hand, times: seq<real>): (inputs: seq<Input>)
    ensures |inputs| == |times|
    ensures forall i :: 0 <= i < |times| ==> inputs[i] == Input([h], times[i])
  {
    seq(|times|, i requires 0 <= i < |times| => Input([h], times[i]))
  }

  /** An open palm held from 0.0 to 1.5 s, one frame every 0.25 s, from start-up: at 0.5 s
      the hold is not yet strictly longer than the threshold, at 0.75 s Stop is confirmed and
      pauses, and every later frame is ignored, so the pause flag toggles exactly once and
      is still set at the end. */
  lemma HeldStopPausesOnce()
    ensures Run(InitialState(), HeldFrames(OpenPalm(), [0.0, 0.25, 0.5, 0.75, 1.0, 1.25, 1.5]))
            == State(Stop, true, 0, Some(Stop), 0.75)
  {
    var h := OpenPalm();
    OpenPalmIsStop();
    assert LastMatch(HandLabels([h])) == Stop;
    var all := HeldFrames(h, [0.0, 0.25, 0.5, 0.75, 1.0, 1.25, 1.5]);
    var head, tail := all[..4], all[4..];
    assert all == head + tail;
    RunAppend(InitialState(), head, tail);
    var s1 := Frame(InitialState(), [h], 0.0);
    var s2 := Frame(s1, [h], 0.25);
    var s3 := Frame(s2, [h], 0.5);
    var s4 := Frame(s3, [h], 0.75);
    assert s4 == State(Stop, true, 0, Some(Stop), 0.75);
    var i0, i1, i2, i3 := Input([h], 0.0), Input([h], 0.25), Input([h], 0.5), Input([h], 0.75);
    assert head == [i0, i1, i2, i3];
    assert [i0, i1, i2, i3][1..] == [i1, i2, i3] && [i1, i2, i3][1..] == [i2, i3] && [i2, i3][1..] == [i3];
    assert Run(s3, [i3]) == s4;
    assert Run(s2, [i2, i3]) == s4;
    assert Run(s1, [i1, i2, i3]) == s4;
    assert Run(InitialState(), head) == s4;
    PausedRunUnchanged(s4, tail);
  }

  /** An open palm at 0.0 s, a frame without hands at 0.3 s and the palm again at 0.6 s: the
      empty frame only blanks the shown label and leaves the timer running, so Stop is
      confirmed at 0.6 s and pauses. */
  lemma EmptyFrameDoesNotInterruptStop()
    ensures Run(InitialState(), [Input([OpenPalm()], 0.0), Input([], 0.3), Input([OpenPalm()], 0.6)])
            == State(Stop, true, 0, Some(Stop), 0.6)
  {
    var h := OpenPalm();
    OpenPalmIsStop();
    assert LastMatch(HandLabels([h])) == Stop;
    var i0, i1, i2 := Input([h], 0.0), Input([], 0.3), Input([h], 0.6);
    var s1 := Frame(InitialState(), [h], 0.0);
    var s2 := Frame(s1, [], 0.3);
    var s3 := Frame(s2, [h], 0.6);
    assert s3 == State(Stop, true, 0, Some(Stop), 0.6);
    assert [i0, i1, i2][1..] == [i1, i2] && [i1, i2][1..] == [i2];
    assert Run(s2, [i2]) == s3;
    assert Run(s1, [i1, i2]) == s3;
  }

  /** The same open palm held through the recognizer object: it ends up paused, and only
      the Stop action (or its button) can resume it. */
  method HeldStopOnRecognizer() returns (pausedAfterHold: bool, pausedAfterButton: bool)
    ensures pausedAfterHold && !pausedAfterButton
  {
    var r := new GestureRecognizer();
    var h := OpenPalm();
    OpenPalmIsStop();
    assert LastMatch(HandLabels([h])) == Stop;
    r.ProcessFrame([h], 0.0);
    assert r.Model() == State(NoGesture, false, 0, Some(Stop), 0.0);
    r.ProcessFrame([h], 0.25);
    assert r.Model() == State(NoGesture, false, 0, Some(Stop), 0.0);
    r.ProcessFrame([h], 0.5);
    assert r.Model() == State(NoGesture, false, 0, Some(Stop), 0.0);
    r.ProcessFrame([h], 0.75);
    assert r.Model() == State(Stop, true, 0, Some(Stop), 0.75);
    r.ProcessFrame([h], 1.0);
    r.ProcessFrame([h], 1.25);
    pausedAfterHold := r.paused;
    r.StopAction();
    pausedAfterButton := r.paused;
  }
}
