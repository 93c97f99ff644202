/**
 The in-call screen: it becomes connected once a remote stream is present,
 counts one second per interval tick while connected, toggles its mute,
 camera and speaker flags, and on hang-up hands its counter to `endCall` as
 the call's duration.
 */
module CallScreen {
  import opened Base
  import opened Domain
  import TimeText
  import CallSession

  datatype Screen = Screen(connected: bool, duration: nat, muted: bool, videoOff: bool, speakerOn: bool)

  /** What can change the screen: the remote stream prop, the 1 s interval, the three buttons. */
  datatype Input = RemoteStreamSet | Tick | ToggleMute | ToggleVideo | ToggleSpeaker

  /** The state a freshly mounted screen starts in. */
  function Initial(): (s: Screen)
    ensures !s.connected && s.duration == 0 && !s.muted && !s.videoOff && s.speakerOn
  {
    Screen(false, 0, false, false, true)
  }

  function Apply(s: Screen, i: Input): Screen
  {
    match i
    case RemoteStreamSet => s.(connected := true)
    case Tick => if s.connected then s.(duration := s.duration + 1) else s
    case ToggleMute => s.(muted := !s.muted)
    case ToggleVideo => s.(videoOff := !s.videoOff)
    case ToggleSpeaker => s.(speakerOn := !s.speakerOn)
  }

  function ApplyAll(s: Screen, inputs: seq<Input>): Screen
    decreases |inputs|
  {
    if |inputs| == 0 then s else ApplyAll(Apply(s, inputs[0]), inputs[1..])
  }

  /**
   The reference count: ticks that arrive once the screen is connected,
   either from the start or after some remote stream arrived.
   */
  function ConnectedTicks(connected: bool, inputs: seq<Input>): nat
    decreases |inputs|
  {
    if |inputs| == 0 then 0
    else
      var now := connected || inputs[0] == RemoteStreamSet;
      (if connected && inputs[0] == Tick then 1 else 0) + ConnectedTicks(now, inputs[1..])
  }

  /** Whether a remote stream ever arrived. */
  predicate EverConnected(connected: bool, inputs: seq<Input>)
  {
    connected || RemoteStreamSet in inputs
  }

  /** The counter is the number of connected ticks; the connected flag is never cleared. */
  lemma {:induction false} DurationCountsConnectedTicks(s: Screen, inputs: seq<Input>)
    ensures ApplyAll(s, inputs).duration == s.duration + ConnectedTicks(s.connected, inputs)
    ensures ApplyAll(s, inputs).connected <==> EverConnected(s.connected, inputs)
    decreases |inputs|
  {
    if |inputs| > 0 {
      DurationCountsConnectedTicks(Apply(s, inputs[0]), inputs[1..]);
      assert inputs == [inputs[0]] + inputs[1..];
    }
  }

  /** Toggling a button twice restores the screen. */
  lemma ToggleTwice(s: Screen, i: Input)
    requires i == ToggleMute || i == ToggleVideo || i == ToggleSpeaker
    ensures Apply(Apply(s, i), i) == s
    ensures Apply(s, i).duration == s.duration && Apply(s, i).connected == s.connected
  {
  }

  /**
   Hanging up after a run of inputs gives `endCall` the counter, so the call is
   recorded as completed exactly when at least one tick came while connected,
   and as cancelled otherwise (a call hung up within its first second).
   */
  lemma HangUpClassification(kind: Option<CallKind>, isOutgoing: bool, inputs: seq<Input>)
    ensures var d := ApplyAll(Initial(), inputs).duration;
      var m := CallSession.EndOutcome(kind, d, isOutgoing);
      && (m.status == Completed <==> ConnectedTicks(false, inputs) > 0)
      && (m.status == Cancelled <==> ConnectedTicks(false, inputs) == 0)
      && m.duration == ConnectedTicks(false, inputs)
  {
    DurationCountsConnectedTicks(Initial(), inputs);
  }

  /** Before a remote stream arrives, ticks do not count. */
  lemma NoStreamNoDuration(inputs: seq<Input>)
    requires RemoteStreamSet !in inputs
    ensures ApplyAll(Initial(), inputs).duration == 0
  {
    DurationCountsConnectedTicks(Initial(), inputs);
    NoStreamNoTicks(inputs);
  }

  lemma {:induction false} NoStreamNoTicks(inputs: seq<Input>)
    requires RemoteStreamSet !in inputs
    ensures ConnectedTicks(false, inputs) == 0
    decreases |inputs|
  {
    if |inputs| > 0 {
      assert forall x :: x in inputs[1..] ==> x in inputs;
      NoStreamNoTicks(inputs[1..]);
    }
  }

  /**
   The audio screen's status line: the `MM:SS` counter once connected
   (reading back to the counter), otherwise "Calling..." for the caller and
   "Incoming call..." for the callee.
   */
  function StatusLine(s: Screen, isOutgoing: bool): (t: string)
    ensures s.connected ==> TimeText.ParseClock(t) == Some(s.duration)
    ensures !s.connected && isOutgoing ==> t == "Calling..."
    ensures !s.connected && !isOutgoing ==> t == "Incoming call..."
  {
    if s.connected then
      TimeText.ClockRoundTrip(s.duration);
      TimeText.Clock(s.duration)
    else if isOutgoing then "Calling..."
    else "Incoming call..."
  }
}
