/** The length-driven parts of `updateCharInput` and `updateMsgInput`: the
    label text, the badge text and the badge style each input shows for a
    given value length (icon markup, CSS classes and animation left aside). */
module Counters {
  import opened Decimal

  /** `maxLength` of the message input. */
  const MaxLength: nat := 100

  /** What the character counter shows. `success` is the "success" badge
      style; `statsActive` says the statistics panel is shown and refreshed. */
  datatype CharView = CharView(heading: string, badge: string, success: bool, statsActive: bool)

  /** `updateCharInput` for a value of `length` characters. The badge always
      reads the length; the heading uses the plural "Characters" exactly when
      the length exceeds one. */
  function CharCounter(length: nat): (v: CharView)
    ensures v.badge == NatToString(length)
    ensures IsDigitString(v.badge) && ValueOf(v.badge) == length
    ensures v.success <==> length > 0
    ensures v.statsActive <==> length > 0
    ensures length == 0 ==> v.heading == "Enter Your Text"
    ensures length > 0 ==>
      v.heading == "You Entered " + v.badge + (if length == 1 then " Character" else " Characters")
  {
    if length == 0 then
      CharView("Enter Your Text", "0", false, false)
    else
      CharView("You Entered " + NatToString(length) + " Character" + (if length > 1 then "s" else ""),
               NatToString(length), true, true)
  }

  /** The four states of the message counter, in order of urgency. */
  datatype MsgState = Empty | KeepWriting | AlmostThere | LimitReached

  function Urgency(s: MsgState): nat {
    match s
    case Empty => 0
    case KeepWriting => 1
    case AlmostThere => 2
    case LimitReached => 3
  }

  /** What the message counter shows; `warning` is the "warning" style of
      both the badge and the progress bar (otherwise "success"). */
  datatype MsgView = MsgView(state: MsgState, heading: string, badge: string, warning: bool, statsActive: bool)

  function Min(a: nat, b: nat): nat {
    if a <= b then a else b
  }

  /** `updateMsgInput` for a value of `length` characters. The states
      partition the lengths at 0, 80 and 100; the warning style is on exactly
      past 80; the badge reads the length capped at 100, over 100. */
  function MsgCounter(length: nat): (v: MsgView)
    ensures v.state == Empty <==> length == 0
    ensures v.state == KeepWriting <==> 1 <= length <= 80
    ensures v.state == AlmostThere <==> 81 <= length <= 99
    ensures v.state == LimitReached <==> length >= 100
    ensures v.warning <==> length > 80
    ensures v.statsActive <==> length > 0
    ensures v.badge == NatToString(Min(length, MaxLength)) + " / 100"
    ensures v.heading == match v.state
      case Empty => "Express Your Thoughts"
      case KeepWriting => "Keep Writing..."
      case AlmostThere => "Almost There!"
      case LimitReached => "Limit Reached!"
  {
    var remaining: int := MaxLength - length;
    if length == 0 then
      MsgView(Empty, "Express Your Thoughts", "0 / 100", false, false)
    else if remaining >= 20 then
      MsgView(KeepWriting, "Keep Writing...", NatToString(length) + " / 100", false, true)
    else if remaining > 0 then
      MsgView(AlmostThere, "Almost There!", NatToString(length) + " / 100", true, true)
    else
      MsgView(LimitReached, "Limit Reached!", "100 / 100", true, true)
  }

  /** A longer message is never in a less urgent state. */
  lemma MsgUrgencyMonotone(a: nat, b: nat)
    requires a <= b
    ensures Urgency(MsgCounter(a).state) <= Urgency(MsgCounter(b).state)
  {
  }

  /** The counter before the slash denotes the length, capped at the maximum. */
  lemma MsgBadgeCount(length: nat)
    ensures var badge := MsgCounter(length).badge;
      |badge| > 6 && IsDigitString(badge[..|badge| - 6]) && ValueOf(badge[..|badge| - 6]) == Min(length, MaxLength)
  {
    var digits := NatToString(Min(length, MaxLength));
    assert MsgCounter(length).badge[..|MsgCounter(length).badge| - 6] == digits;
  }
}
