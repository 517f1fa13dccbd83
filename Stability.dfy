/** The per-frame logic of update_video_feed in handGestureRecognizer.py, as functions over
    a value of the program's mutable state: reducing the detected hands to one label, the
    stability filter that confirms a label once it has persisted for more than half a
    second, and the dispatch of a confirmed label to the list and pause actions. */
module Stability {
  import opened Gestures

  datatype Option<T> = None | Some(value: T)

  /** Number of entries in the item list; the selection stays within [0, ItemCount). */
  const ItemCount := 10

  /** Seconds a label must persist before it is confirmed (strictly more than this). */
  const StabilityThreshold: real := 0.5

  /** The program's module-level state: the confirmed label, the pause flag, the selected
      item, the label seen on the previous observed frame (none before the first one) and
      the time that label was first seen or last confirmed. */
  datatype State = State(current: Gesture, paused: bool, selected: int,
                         last: Option<Gesture>, lastTime: real)

  /** The state at start-up. */
  function InitialState(): (s: State)
    ensures s.last == None && !s.paused && ValidSelection(s)
  {
    State(NoGesture, false, 0, None, 0.0)
  }

  predicate ValidSelection(s: State)
  {
    0 <= s.selected < ItemCount
  }

  /** The four actions a confirmed label can trigger. */
  datatype Action = PreviousItem | NextItem | Refresh | TogglePause

  /** Selecting the previous item: nothing happens at the top of the list. */
  function PreviousIndex(i: int): (r: int)
    ensures 0 <= i < ItemCount ==> 0 <= r < ItemCount
    ensures r <= i
  {
    if i > 0 then i - 1 else i
  }

  /** Selecting the next item: nothing happens at the bottom of the list. */
  function NextIndex(i: int): (r: int)
    ensures 0 <= i < ItemCount ==> 0 <= r < ItemCount
    ensures r >= i
  {
    if i < ItemCount - 1 then i + 1 else i
  }

  /** The effect of an action: only the selection or the pause flag changes. */
  function Perform(s: State, a: Action): (r: State)
    ensures ValidSelection(s) ==> ValidSelection(r)
    ensures r.current == s.current && r.last == s.last && r.lastTime == s.lastTime
  {
    match a
    case PreviousItem => s.(selected := PreviousIndex(s.selected))
    case NextItem => s.(selected := NextIndex(s.selected))
    case Refresh => s.(selected := 0)
    case TogglePause => s.(paused := !s.paused)
  }

  /** Which action a confirmed label triggers; Point and No Gesture trigger none. */
  function ActionFor(g: Gesture): (r: Option<Action>)
    ensures r == None <==> (g == Point || g == NoGesture)
    ensures r == Some(TogglePause) <==> g == Stop
  {
    match g
    case ThumbsUp => Some(PreviousItem)
    case ThumbsDown => Some(NextItem)
    case RockSign => Some(Refresh)
    case Stop => Some(TogglePause)
    case Point => None
    case NoGesture => None
  }

  /** Applying the action of a confirmed label: the filter fields and the shown label are left
      alone, only Stop can toggle the pause flag, only Thumbs Up, Thumbs Down and Rock Sign can
      move the selection, and Point and No Gesture change nothing. */
  function Dispatch(s: State, g: Gesture): (r: State)
    ensures r.current == s.current && r.last == s.last && r.lastTime == s.lastTime
    ensures r.paused != s.paused ==> g == Stop
    ensures r.selected != s.selected ==> g == ThumbsUp || g == ThumbsDown || g == RockSign
    ensures g == Point || g == NoGesture ==> r == s
  {
    match ActionFor(g)
    case None => s
    case Some(a) => Perform(s, a)
  }

  /** The raw label `g` at time `now` confirms: it equals the previous observed label and
      strictly more than the threshold has passed since the timer was last restarted. */
  predicate Confirms(s: State, g: Gesture, now: real)
  {
    s.last == Some(g) && now - s.lastTime > StabilityThreshold
  }

  /** One step of the stability filter for the frame's label `g`. */
  function Filter(s: State, g: Gesture, now: real): (r: State)
    ensures ValidSelection(s) ==> ValidSelection(r)
  {
    if s.last == Some(g) then
      if now - s.lastTime > StabilityThreshold then Dispatch(s.(current := g, lastTime := now), g)
      else s
    else s.(last := Some(g), lastTime := now)
  }

  /** The label of each detected hand, in the detector's order. */
  function HandLabels(hands: seq<Hand>): seq<Gesture>
  {
    seq(|hands|, i requires 0 <= i < |hands| => Classify(hands[i]))
  }

  /** The label of a frame with hands, from the labels of its hands: the last one that is
      not No Gesture, or No Gesture when there is none. */
  function LastMatch(labels: seq<Gesture>): (r: Gesture)
    ensures r == NoGesture || r in labels
  {
    if labels == [] then NoGesture
    else if labels[|labels| - 1] != NoGesture then labels[|labels| - 1]
    else
      var r := LastMatch(labels[..|labels| - 1]);
      assert r != NoGesture ==> r in labels by {
        assert forall x :: x in labels[..|labels| - 1] ==> x in labels;
      }
      r
  }

  /** The loop of update_video_feed over the detected hands: a hand matching no rule
      leaves the label of an earlier hand in place. */
  method DetectGesture(hands: seq<Hand>) returns (detected: Gesture)
    ensures detected == LastMatch(HandLabels(hands))
  {
    ghost var labels := HandLabels(hands);
    detected := NoGesture;
    for i := 0 to |hands|
      invariant detected == LastMatch(labels[..i])
    {
      assert labels[..i + 1][..i] == labels[..i];
      var g := Classify(hands[i]);
      if g != NoGesture {
        detected := g;
      }
    }
    assert labels[..|hands|] == labels;
  }

  /** One frame of update_video_feed: nothing while paused; with no hands only the shown
      label is reset; otherwise the frame's label goes through the filter. */
  function Frame(s: State, hands: seq<Hand>, now: real): (r: State)
    ensures ValidSelection(s) ==> ValidSelection(r)
  {
    if s.paused then s
    else if |hands| == 0 then s.(current := NoGesture)
    else Filter(s, LastMatch(HandLabels(hands)), now)
  }

  /** A camera frame: the detector's hands and the clock reading taken for it. */
  datatype Input = Input(hands: seq<Hand>, now: real)

  /** The state after a sequence of frames. */
  function Run(s: State, inputs: seq<Input>): State
    decreases |inputs|
  {
    if inputs == [] then s else Run(Frame(s, inputs[0].hands, inputs[0].now), inputs[1..])
  }

  /** A label presented to the filter at a time. */
  datatype Observation = Observation(seen: Gesture, at: real)

  /** The state after presenting a sequence of labels to the filter. */
  function FilterRun(s: State, obs: seq<Observation>): State
    decreases |obs|
  {
    if obs == [] then s else FilterRun(Filter(s, obs[0].seen, obs[0].at), obs[1..])
  }

  // ---------------------------------------------------------------------------------------
  // The frame label

  /** LastMatch is No Gesture exactly when every label is; otherwise it is one of the labels
      and every later label is No Gesture. */
  lemma {:induction false} LastMatchIsLastNonEmpty(labels: seq<Gesture>)
    ensures LastMatch(labels) == NoGesture <==> forall i :: 0 <= i < |labels| ==> labels[i] == NoGesture
    ensures LastMatch(labels) != NoGesture ==>
              exists i :: 0 <= i < |labels| && labels[i] == LastMatch(labels) &&
                          forall j :: i < j < |labels| ==> labels[j] == NoGesture
    decreases |labels|
  {
    if labels != [] {
      var n := |labels| - 1;
      var init := labels[..n];
      LastMatchIsLastNonEmpty(init);
      assert forall i :: 0 <= i < n ==> init[i] == labels[i];
      if labels[n] == NoGesture && LastMatch(labels) != NoGesture {
        var i :| 0 <= i < |init| && init[i] == LastMatch(init) &&
                 forall j :: i < j < |init| ==> init[j] == NoGesture;
        assert labels[i] == LastMatch(labels);
      }
    }
  }

  /** The frame's label is No Gesture exactly when no hand matches a rule; otherwise it is
      the label of some hand and every later hand matches nothing. */
  lemma LastMatchIsLastMatchingHand(hands: seq<Hand>)
    ensures LastMatch(HandLabels(hands)) == NoGesture <==>
              forall i :: 0 <= i < |hands| ==> Classify(hands[i]) == NoGesture
    ensures LastMatch(HandLabels(hands)) != NoGesture ==>
              exists i :: 0 <= i < |hands| && Classify(hands[i]) == LastMatch(HandLabels(hands)) &&
                          forall j :: i < j < |hands| ==> Classify(hands[j]) == NoGesture
  {
    var labels := HandLabels(hands);
    LastMatchIsLastNonEmpty(labels);
    assert |labels| == |hands| && forall i :: 0 <= i < |hands| ==> labels[i] == Classify(hands[i]);
    if LastMatch(labels) != NoGesture {
      var i :| 0 <= i < |labels| && labels[i] == LastMatch(labels) &&
               forall j :: i < j < |labels| ==> labels[j] == NoGesture;
      assert Classify(hands[i]) == LastMatch(labels);
    }
  }

  // ---------------------------------------------------------------------------------------
  // The stability filter

  /** What one filter step does. A label that is not confirmed changes neither the confirmed
      label nor the selection nor the pause flag; it becomes the previous label, and the timer
      restarts only when the label differs from the previous one. A confirmed label becomes
      the confirmed label, restarts the timer, and applies the action it is mapped to. */
  lemma FilterOutcome(s: State, g: Gesture, now: real)
    ensures var r := Filter(s, g, now);
            !Confirms(s, g, now) ==>
              r.current == s.current && r.selected == s.selected && r.paused == s.paused &&
              r.last == Some(g) && r.lastTime == (if s.last == Some(g) then s.lastTime else now)
    ensures var r := Filter(s, g, now);
            Confirms(s, g, now) ==>
              r.current == g && r.last == s.last && r.lastTime == now &&
              (g == ThumbsUp ==> r.selected == PreviousIndex(s.selected) && r.paused == s.paused) &&
              (g == ThumbsDown ==> r.selected == NextIndex(s.selected) && r.paused == s.paused) &&
              (g == RockSign ==> r.selected == 0 && r.paused == s.paused) &&
              (g == Stop ==> r.selected == s.selected && r.paused == !s.paused) &&
              (g == Point || g == NoGesture ==> r.selected == s.selected && r.paused == s.paused)
  {
  }

  /** At most one action fires per step: a pause toggle leaves the selection alone and
      happens only for Stop; a selection change leaves the pause flag alone and moves by
      one item or back to the top. */
  lemma AtMostOneAction(s: State, g: Gesture, now: real)
    ensures var r := Filter(s, g, now);
            r.paused != s.paused ==> r.selected == s.selected && g == Stop && Confirms(s, g, now)
    ensures var r := Filter(s, g, now);
            r.selected != s.selected ==>
              r.paused == s.paused && Confirms(s, g, now) &&
              (r.selected == s.selected - 1 || r.selected == s.selected + 1 || r.selected == 0)
  {
  }

  /** What the filter remembers about the observations so far: if it holds a previous label,
      every observation since the one at time `lastTime` carried that label. */
  ghost predicate Witnessed(s: State, hist: seq<Observation>)
  {
    s.last.Some? ==>
      exists j :: 0 <= j < |hist| && hist[j].at == s.lastTime &&
                  forall k :: j <= k < |hist| ==> hist[k].seen == s.last.value
  }

  lemma FilterKeepsWitnessed(s: State, hist: seq<Observation>, o: Observation)
    requires Witnessed(s, hist)
    ensures Witnessed(Filter(s, o.seen, o.at), hist + [o])
  {
    var r := Filter(s, o.seen, o.at);
    var h := hist + [o];
    if r.lastTime != o.at || r.last != Some(o.seen) {
      // The observation was neither new nor confirmed: the old witness still works.
      var j :| 0 <= j < |hist| && hist[j].at == s.lastTime &&
               forall k :: j <= k < |hist| ==> hist[k].seen == s.last.value;
      assert h[j] == hist[j];
      assert forall k :: j <= k < |h| ==> h[k].seen == r.last.value by {
        forall k | j <= k < |h| ensures h[k].seen == r.last.value {
          if k < |hist| { assert h[k] == hist[k]; }
        }
      }
    } else {
      assert h[|hist|] == o;
    }
  }

  lemma {:induction false} FilterRunKeepsWitnessed(s: State, hist: seq<Observation>, obs: seq<Observation>)
    requires Witnessed(s, hist)
    ensures Witnessed(FilterRun(s, obs), hist + obs)
    decreases |obs|
  {
    if obs != [] {
      FilterKeepsWitnessed(s, hist, obs[0]);
      FilterRunKeepsWitnessed(Filter(s, obs[0].seen, obs[0].at), hist + [obs[0]], obs[1..]);
      assert hist + [obs[0]] + obs[1..] == hist + obs;
    } else {
      assert hist + obs == hist;
    }
  }

  /** A label is confirmed only after it has been observed without interruption since an
      observation more than the threshold earlier: starting from a filter that has seen
      nothing, a confirmation of `g` at `now` implies some earlier observation more than
      0.5 s before `now` from which on every observation was `g`. */
  lemma ConfirmationNeedsStableRun(s0: State, obs: seq<Observation>, g: Gesture, now: real)
    requires s0.last == None
    requires Confirms(FilterRun(s0, obs), g, now)
    ensures exists j :: 0 <= j < |obs| && now - obs[j].at > StabilityThreshold &&
                        forall k :: j <= k < |obs| ==> obs[k].seen == g
  {
    FilterRunKeepsWitnessed(s0, [], obs);
    assert [] + obs == obs;
  }

  // ---------------------------------------------------------------------------------------
  // Frames and runs

  /** While paused, a frame changes nothing; with no hand present, the filter state, the
      selection and the pause flag are untouched and the shown label becomes No Gesture. */
  lemma FrameWithoutFilter(s: State, hands: seq<Hand>, now: real)
    ensures s.paused ==> Frame(s, hands, now) == s
    ensures !s.paused && hands == [] ==>
              var r := Frame(s, hands, now);
              r.current == NoGesture && r.last == s.last && r.lastTime == s.lastTime &&
              r.selected == s.selected && !r.paused
  {
  }

  /** Once paused, no sequence of frames changes the state: holding Stop cannot resume. */
  lemma {:induction false} PausedRunUnchanged(s: State, inputs: seq<Input>)
    requires s.paused
    ensures Run(s, inputs) == s
    decreases |inputs|
  {
    if inputs != [] {
      PausedRunUnchanged(s, inputs[1..]);
    }
  }

  /** The selection stays within the item list over any sequence of frames. */
  lemma {:induction false} RunKeepsSelection(s: State, inputs: seq<Input>)
    requires ValidSelection(s)
    ensures ValidSelection(Run(s, inputs))
    decreases |inputs|
  {
    if inputs != [] {
      RunKeepsSelection(Frame(s, inputs[0].hands, inputs[0].now), inputs[1..]);
    }
  }

  /** Running two sequences of frames one after the other is running their concatenation. */
  lemma {:induction false} RunAppend(s: State, a: seq<Input>, b: seq<Input>)
    ensures Run(s, a + b) == Run(Run(s, a), b)
    decreases |a|
  {
    if a != [] {
      assert (a + b)[0] == a[0] && (a + b)[1..] == a[1..] + b;
      RunAppend(Frame(s, a[0].hands, a[0].now), a[1..], b);
    } else {
      assert a + b == b;
    }
  }

  /** The labels the filter is shown over a sequence of frames: one per frame with hands, with
      that frame's clock reading. A frame without hands presents nothing, so it does not
      interrupt the run of a label. */
  function HandObservations(inputs: seq<Input>): (obs: seq<Observation>)
    ensures |obs| <= |inputs|
    decreases |inputs|
  {
    if inputs == [] then []
    else if |inputs[0].hands| == 0 then HandObservations(inputs[1..])
    else [Observation(LastMatch(HandLabels(inputs[0].hands)), inputs[0].now)] + HandObservations(inputs[1..])
  }

  /** Two states that agree on everything but the shown label. */
  predicate SameFilterState(a: State, b: State)
  {
    a.paused == b.paused && a.selected == b.selected && a.last == b.last && a.lastTime == b.lastTime
  }

  /** The filter never reads the shown label, so states that differ only there stay so. */
  lemma FilterIgnoresShownLabel(s: State, t: State, g: Gesture, now: real)
    requires SameFilterState(s, t)
    ensures SameFilterState(Filter(s, g, now), Filter(t, g, now))
  {
  }

  /** A run of frames that ends unpaused behaves, apart from the shown label, as the filter
      shown only the labels of the frames with hands. */
  lemma {:induction false} RunIsFilterRunOfHandFrames(s: State, t: State, inputs: seq<Input>)
    requires SameFilterState(s, t)
    requires !Run(s, inputs).paused
    ensures SameFilterState(Run(s, inputs), FilterRun(t, HandObservations(inputs)))
    decreases |inputs|
  {
    if inputs != [] {
      var i, rest := inputs[0], inputs[1..];
      if s.paused {
        PausedRunUnchanged(s, inputs);
        assert false;
      } else if |i.hands| == 0 {
        RunIsFilterRunOfHandFrames(Frame(s, i.hands, i.now), t, rest);
      } else {
        var o := Observation(LastMatch(HandLabels(i.hands)), i.now);
        FilterIgnoresShownLabel(s, t, o.seen, o.at);
        var obs := [o] + HandObservations(rest);
        assert obs[0] == o && obs[1..] == HandObservations(rest);
        RunIsFilterRunOfHandFrames(Frame(s, i.hands, i.now), Filter(t, o.seen, o.at), rest);
      }
    }
  }

  /** From start-up, a label confirmed at the end of an unpaused run of frames has been the
      label of every frame with hands since one more than the threshold earlier; frames
      without hands in between do not break the run. */
  lemma FrameConfirmationNeedsStableRun(inputs: seq<Input>, g: Gesture, now: real)
    requires !Run(InitialState(), inputs).paused
    requires Confirms(Run(InitialState(), inputs), g, now)
    ensures exists j :: 0 <= j < |HandObservations(inputs)| &&
                        now - HandObservations(inputs)[j].at > StabilityThreshold &&
                        forall k :: j <= k < |HandObservations(inputs)| ==> HandObservations(inputs)[k].seen == g
  {
    var obs := HandObservations(inputs);
    RunIsFilterRunOfHandFrames(InitialState(), InitialState(), inputs);
    assert Confirms(FilterRun(InitialState(), obs), g, now);
    ConfirmationNeedsStableRun(InitialState(), obs, g, now);
  }

  // ---------------------------------------------------------------------------------------
  // Actions

  /** Next and previous undo each other away from the ends of the list; at the ends they do nothing. */
  lemma NextPreviousInverse(i: int)
    requires 0 <= i < ItemCount
    ensures i < ItemCount - 1 ==> PreviousIndex(NextIndex(i)) == i
    ensures i > 0 ==> NextIndex(PreviousIndex(i)) == i
    ensures NextIndex(ItemCount - 1) == ItemCount - 1 && PreviousIndex(0) == 0
  {
  }

  /** Toggling the pause flag twice restores the state. */
  lemma ToggleTwice(s: State)
    ensures Perform(Perform(s, TogglePause), TogglePause) == s
  {
  }
}
