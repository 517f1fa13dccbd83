/** The program's mutable globals and the functions that change them, as one object:
    the four actions behind the buttons and gestures, and the frame step of
    update_video_feed. Each method is proved against the function of Stability that
    describes its effect on the state value. */
module Recognizer {
  import opened Gestures
  import opened Stability

  class GestureRecognizer {
    var currentGesture: Gesture
    var paused: bool
    var selectedIndex: int
    var lastGesture: Option<Gesture>
    var lastGestureTime: real

    /** The object's fields as a state value. */
    function Model(): State
      reads this
    {
      State(currentGesture, paused, selectedIndex, lastGesture, lastGestureTime)
    }

    predicate Valid()
      reads this
    {
      ValidSelection(Model())
    }

    /** The values the globals have when the program starts. */
    constructor ()
      ensures Model() == InitialState() && Valid()
    {
      currentGesture := NoGesture;
      paused := false;
      selectedIndex := 0;
      lastGesture := None;
      lastGestureTime := 0.0;
    }

    method RefreshAction()
      requires Valid()
      modifies this
      ensures Valid()
      ensures Model() == Perform(old(Model()), Refresh)
      ensures selectedIndex == 0
    {
      selectedIndex := 0;
    }

    method NextItemAction()
      requires Valid()
      modifies this
      ensures Valid()
      ensures Model() == Perform(old(Model()), NextItem)
      ensures old(selectedIndex) < ItemCount - 1 ==> selectedIndex == old(selectedIndex) + 1
      ensures old(selectedIndex) >= ItemCount - 1 ==> selectedIndex == old(selectedIndex)
    {
      if selectedIndex < ItemCount - 1 {
        selectedIndex := selectedIndex + 1;
      }
    }

    method PreviousItemAction()
      requires Valid()
      modifies this
      ensures Valid()
      ensures Model() == Perform(old(Model()), PreviousItem)
      ensures old(selectedIndex) > 0 ==> selectedIndex == old(selectedIndex) - 1
      ensures old(selectedIndex) <= 0 ==> selectedIndex == old(selectedIndex)
    {
      if selectedIndex > 0 {
        selectedIndex := selectedIndex - 1;
      }
    }

    method StopAction()
      requires Valid()
      modifies this
      ensures Valid()
      ensures Model() == Perform(old(Model()), TogglePause)
      ensures paused == !old(paused)
    {
      if !paused {
        paused := true;
      } else {
        paused := false;
      }
    }

    /** One call of update_video_feed after the camera delivered a frame in which the
        detector found `hands`, with `now` the clock reading for that frame. */
    method ProcessFrame(hands: seq<Hand>, now: real)
      requires Valid()
      modifies this
      ensures Valid()
      ensures Model() == Frame(old(Model()), hands, now)
    {
      if !paused {
        if |hands| > 0 {
          var detected := DetectGesture(hands);
          if Some(detected) == lastGesture {
            if now - lastGestureTime > StabilityThreshold {
              currentGesture := detected;
              lastGestureTime := now;
              if currentGesture == ThumbsUp {
                PreviousItemAction();
              } else if currentGesture == ThumbsDown {
                NextItemAction();
              } else if currentGesture == RockSign {
                RefreshAction();
              } else if currentGesture == Stop {
                StopAction();
              }
            }
          } else {
            lastGesture := Some(detected);
            lastGestureTime := now;
          }
        } else {
          currentGesture := NoGesture;
        }
      }
    }
  }
}
