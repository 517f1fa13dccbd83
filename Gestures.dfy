/** The pose classifier of handGestureRecognizer.py: five geometric rules over the
    21 landmarks of one detected hand, and the fixed priority in which they are tried.
    Image coordinates grow downwards, so `a.y < b.y` means "a is above b". */
module Gestures {

  /** One normalised landmark. The detector's depth coordinate is never read by the rules. */
  datatype Landmark = Landmark(x: real, y: real)

  const LandmarkCount := 21

  type LandmarkIndex = i: int | 0 <= i < LandmarkCount

  /** The detector's output for one hand: exactly 21 landmarks in its anatomical numbering. */
  type Hand = h: seq<Landmark> | |h| == LandmarkCount witness seq(LandmarkCount, _ => Landmark(0.0, 0.0))

  // Landmark numbering of the hand detector (wrist = 0).
  const ThumbMcp: LandmarkIndex := 2
  const ThumbIp: LandmarkIndex := 3
  const ThumbTip: LandmarkIndex := 4
  const IndexMcp: LandmarkIndex := 5
  const IndexPip: LandmarkIndex := 6
  const IndexTip: LandmarkIndex := 8
  const MiddleMcp: LandmarkIndex := 9
  const MiddlePip: LandmarkIndex := 10
  const MiddleTip: LandmarkIndex := 12
  const RingMcp: LandmarkIndex := 13
  const RingPip: LandmarkIndex := 14
  const RingTip: LandmarkIndex := 16
  const PinkyMcp: LandmarkIndex := 17
  const PinkyPip: LandmarkIndex := 18
  const PinkyTip: LandmarkIndex := 20

  /** Tips and base joints of the four fingers, paired position by position. */
  const FingerTips: seq<LandmarkIndex> := [IndexTip, MiddleTip, RingTip, PinkyTip]
  const FingerBases: seq<LandmarkIndex> := [IndexMcp, MiddleMcp, RingMcp, PinkyMcp]

  /** The gesture labels; `NoGesture` is also what a frame shows when nothing matched. */
  datatype Gesture = NoGesture | ThumbsUp | ThumbsDown | RockSign | Point | Stop

  /** The text the program stores and compares for each label. */
  function Name(g: Gesture): string
  {
    match g
    case NoGesture => "No Gesture"
    case ThumbsUp => "Thumbs Up"
    case ThumbsDown => "Thumbs Down"
    case RockSign => "Rock Sign"
    case Point => "Point"
    case Stop => "Stop"
  }

  /** Distinct labels have distinct texts, so comparing labels is comparing the program's strings. */
  lemma NameInjective(a: Gesture, b: Gesture)
    ensures Name(a) == Name(b) <==> a == b
  {
  }

  function Abs(r: real): (a: real)
    ensures a >= 0.0 && (a == r || a == -r)
  {
    if r < 0.0 then -r else r
  }

  // Each rule's ensures spells it out with the detector's landmark numbers, which ties the
  // finger lists and the named indices above to the comparisons they stand for.

  /** Thumb tip above its IP and MCP joints and above all four finger tips. */
  predicate IsThumbsUp(h: Hand)
    ensures IsThumbsUp(h) <==>
              h[4].y < h[3].y && h[4].y < h[2].y &&
              h[4].y < h[8].y && h[4].y < h[12].y && h[4].y < h[16].y && h[4].y < h[20].y
  {
    assert FingerTips[0] == 8 && FingerTips[1] == 12 && FingerTips[2] == 16 && FingerTips[3] == 20;
    var tip := h[ThumbTip];
    (tip.y < h[ThumbIp].y && tip.y < h[ThumbMcp].y) &&
    (forall k :: 0 <= k < |FingerTips| ==> tip.y < h[FingerTips[k]].y)
  }

  /** Thumb tip below its IP and MCP joints and below all four finger tips. */
  predicate IsThumbsDown(h: Hand)
    ensures IsThumbsDown(h) <==>
              h[4].y > h[3].y && h[4].y > h[2].y &&
              h[4].y > h[8].y && h[4].y > h[12].y && h[4].y > h[16].y && h[4].y > h[20].y
  {
    assert FingerTips[0] == 8 && FingerTips[1] == 12 && FingerTips[2] == 16 && FingerTips[3] == 20;
    var tip := h[ThumbTip];
    (tip.y > h[ThumbIp].y && tip.y > h[ThumbMcp].y) &&
    (forall k :: 0 <= k < |FingerTips| ==> tip.y > h[FingerTips[k]].y)
  }

  /** Pinky and index tips above their PIP joints, middle and ring tips below theirs,
      thumb tip below its IP joint, which rules out Thumbs Up. */
  predicate IsRockSign(h: Hand)
    ensures IsRockSign(h) <==>
              h[20].y < h[18].y && h[8].y < h[6].y && h[12].y > h[10].y && h[16].y > h[14].y && h[4].y > h[3].y
    ensures IsRockSign(h) ==> !IsThumbsUp(h)
  {
    h[PinkyTip].y < h[PinkyPip].y &&
    h[IndexTip].y < h[IndexPip].y &&
    h[MiddleTip].y > h[MiddlePip].y &&
    h[RingTip].y > h[RingPip].y &&
    h[ThumbTip].y > h[ThumbIp].y
  }

  /** Index tip above its base; middle, ring and pinky tips each below their base. */
  predicate IsPointing(h: Hand)
    ensures IsPointing(h) <==>
              h[8].y < h[5].y && h[12].y > h[9].y && h[16].y > h[13].y && h[20].y > h[17].y
  {
    assert FingerTips[1] == 12 && FingerTips[2] == 16 && FingerTips[3] == 20 &&
           FingerBases[1] == 9 && FingerBases[2] == 13 && FingerBases[3] == 17;
    h[IndexTip].y < h[IndexMcp].y &&
    (forall k :: 1 <= k < |FingerTips| ==> h[FingerTips[k]].y > h[FingerBases[k]].y)
  }

  /** All four finger tips above their bases, and the thumb tip more than 0.1 away
      horizontally from the thumb MCP joint. */
  predicate IsStop(h: Hand)
    ensures IsStop(h) <==>
              h[8].y < h[5].y && h[12].y < h[9].y && h[16].y < h[13].y && h[20].y < h[17].y &&
              Abs(h[4].x - h[2].x) > 0.1
  {
    assert FingerTips[0] == 8 && FingerTips[1] == 12 && FingerTips[2] == 16 && FingerTips[3] == 20 &&
           FingerBases[0] == 5 && FingerBases[1] == 9 && FingerBases[2] == 13 && FingerBases[3] == 17;
    (forall k :: 0 <= k < |FingerTips| ==> h[FingerTips[k]].y < h[FingerBases[k]].y) &&
    Abs(h[ThumbTip].x - h[ThumbMcp].x) > 0.1
  }

  /** Whether the rule for `g` matches; no rule produces `NoGesture`. */
  predicate Holds(g: Gesture, h: Hand)
  {
    match g
    case NoGesture => false
    case ThumbsUp => IsThumbsUp(h)
    case ThumbsDown => IsThumbsDown(h)
    case RockSign => IsRockSign(h)
    case Point => IsPointing(h)
    case Stop => IsStop(h)
  }

  /** The tie-break policy as data: the order in which the rules are tried. */
  const Priority: seq<Gesture> := [Point, ThumbsUp, ThumbsDown, RockSign, Stop]

  /** Reference definition of "first matching rule wins" over an ordered list of rules. */
  function FirstMatch(rules: seq<Gesture>, h: Hand): Gesture
  {
    if rules == [] then NoGesture
    else if Holds(rules[0], h) then rules[0]
    else FirstMatch(rules[1..], h)
  }

  /** FirstMatch is the earliest rule in the list that holds, and NoGesture exactly when none does. */
  lemma {:induction false} FirstMatchIsEarliest(rules: seq<Gesture>, h: Hand)
    ensures FirstMatch(rules, h) == NoGesture <==> (forall k :: 0 <= k < |rules| ==> !Holds(rules[k], h))
    ensures FirstMatch(rules, h) != NoGesture ==>
              exists k :: 0 <= k < |rules| && rules[k] == FirstMatch(rules, h) && Holds(rules[k], h) &&
                          (forall j :: 0 <= j < k ==> !Holds(rules[j], h))
  {
    if rules != [] {
      FirstMatchIsEarliest(rules[1..], h);
      if !Holds(rules[0], h) {
        if FirstMatch(rules, h) != NoGesture {
          var k :| 0 <= k < |rules[1..]| && rules[1..][k] == FirstMatch(rules[1..], h) && Holds(rules[1..][k], h) &&
                   (forall j :: 0 <= j < k ==> !Holds(rules[1..][j], h));
          assert rules[k + 1] == rules[1..][k];
          forall j | 0 <= j < k + 1 ensures !Holds(rules[j], h) {
            if j > 0 { assert rules[j] == rules[1..][j - 1]; }
          }
        }
        forall k | 0 <= k < |rules| ensures FirstMatch(rules, h) == NoGesture ==> !Holds(rules[k], h) {
          if k > 0 { assert rules[k] == rules[1..][k - 1]; }
        }
      }
    }
  }

  /** The if/elif chain run for each detected hand: Point, then Thumbs Up, Thumbs Down,
      Rock Sign, Stop; `NoGesture` when no rule matches. */
  function Classify(h: Hand): (g: Gesture)
    ensures g != NoGesture ==> Holds(g, h)
  {
    if IsPointing(h) then Point
    else if IsThumbsUp(h) then ThumbsUp
    else if IsThumbsDown(h) then ThumbsDown
    else if IsRockSign(h) then RockSign
    else if IsStop(h) then Stop
    else NoGesture
  }

  /** The if/elif chain is exactly "first matching rule of Priority wins". */
  lemma ClassifyIsFirstMatch(h: Hand)
    ensures Classify(h) == FirstMatch(Priority, h)
  {
    var p1, p2, p3, p4 := [ThumbsUp, ThumbsDown, RockSign, Stop], [ThumbsDown, RockSign, Stop], [RockSign, Stop], [Stop];
    assert Priority[1..] == p1 && p1[1..] == p2 && p2[1..] == p3 && p3[1..] == p4 && p4[1..] == [];
    assert FirstMatch(p4, h) == if IsStop(h) then Stop else NoGesture;
    assert FirstMatch(p3, h) == if IsRockSign(h) then RockSign else FirstMatch(p4, h);
    assert FirstMatch(p2, h) == if IsThumbsDown(h) then ThumbsDown else FirstMatch(p3, h);
    assert FirstMatch(p1, h) == if IsThumbsUp(h) then ThumbsUp else FirstMatch(p2, h);
  }

  /** The priority policy spelled out: Point beats every other rule, and otherwise the first
      of Thumbs Up, Thumbs Down, Rock Sign, Stop that holds is the label. */
  lemma ClassifyPriority(h: Hand)
    ensures IsPointing(h) ==> Classify(h) == Point
    ensures !IsPointing(h) && IsThumbsUp(h) ==> Classify(h) == ThumbsUp
    ensures !IsPointing(h) && !IsThumbsUp(h) && IsThumbsDown(h) ==> Classify(h) == ThumbsDown
    ensures !IsPointing(h) && !IsThumbsUp(h) && !IsThumbsDown(h) && IsRockSign(h) ==> Classify(h) == RockSign
    ensures !IsPointing(h) && !IsThumbsUp(h) && !IsThumbsDown(h) && !IsRockSign(h) && IsStop(h) ==> Classify(h) == Stop
    ensures Classify(h) == NoGesture <==> forall g :: !Holds(g, h)
  {
  }

  /** The two thumb rules compare the thumb tip with its IP joint in strictly opposite directions. */
  lemma ThumbsUpDownExclusive(h: Hand)
    ensures !(IsThumbsUp(h) && IsThumbsDown(h))
  {
  }

  /** Point wants the middle tip below landmark 9 and Stop wants it above, so they never both hold. */
  lemma PointStopExclusive(h: Hand)
    ensures !(IsPointing(h) && IsStop(h))
  {
    if IsPointing(h) {
      assert FingerTips[1] == MiddleTip && FingerBases[1] == MiddleMcp;
      assert h[MiddleTip].y > h[MiddleMcp].y;
    }
  }

  /** A hand whose landmarks all coincide satisfies no strict comparison, so no rule matches. */
  lemma DegenerateHandIsNoGesture(h: Hand)
    requires forall i :: 0 <= i < |h| ==> h[i] == h[0]
    ensures forall g :: !Holds(g, h)
    ensures Classify(h) == NoGesture
  {
  }
}
