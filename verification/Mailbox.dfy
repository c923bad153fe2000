/** The command mailbox between the calibration firmware (the device) and the
    debug tool (the host): two shared words, written by both sides, with every
    read and write a step of its own. */
module Mailbox {

  const WAIT: nat := 1000
  const ACK: nat := 1
  const SET_UPDATE_PARAMETERS: nat := 41

  datatype Status = Ready | Executing | IllegalCommand | ResponseReady
  {
    predicate IsAnswer() { IllegalCommand? || ResponseReady? }
  }

  /** Where the device's loop stands: before which read or write. */
  datatype Device =
    | Poll
    | ReadAck
    | ReadCommand
    | Execute(cmd: nat)
    | Reply(answer: Status, stops: bool)
    | RearmFirst
    | RearmSecond
    | Stopped

  /** Where the host stands. */
  datatype Host = Idle | SawReady | Waiting | SawAnswer

  datatype Handled = Handled(cmd: nat, answer: Status)

  /** The two shared words, both programs, and what has happened so far.
      `lost` records that a command was overwritten before the device read it. */
  datatype State = State(status: Status, command: nat, device: Device, host: Host,
                         issued: seq<nat>, taken: nat, handled: seq<Handled>, received: seq<Status>,
                         lost: bool)

  /** The two orders in which the interface can be marked as ready. */
  datatype Order = WaitThenReady | ReadyThenWait

  /** One step of either side; a host about to issue picks the command. */
  datatype Action = DeviceStep | HostStep(cmd: nat)

  /** The firmware enters its loop by marking the interface as ready. */
  const START := State(Executing, 0, RearmFirst, Idle, [], 0, [], [], false)

  /** Commands a host may issue. */
  predicate CanIssue(cmd: nat) { cmd != WAIT && cmd != ACK && cmd != SET_UPDATE_PARAMETERS }

  /** A write to the command word loses a command the device has not read. */
  function WriteCommand(s: State, word: nat): State {
    s.(command := word, lost := s.lost || s.taken < |s.issued|)
  }

  function AnswerTo(legal: nat -> bool, cmd: nat): Status {
    if legal(cmd) then ResponseReady else IllegalCommand
  }

  function StepDevice(order: Order, legal: nat -> bool, s: State): State {
    match s.device
    case Poll =>
      s.(device := if s.status.IsAnswer() then ReadAck else if s.status.Ready? then ReadCommand else Poll)
    case ReadAck =>
      s.(device := if s.command == ACK then RearmFirst else Poll)
    case ReadCommand =>
      if s.command == WAIT then s.(device := Poll)
      else s.(device := Execute(s.command), taken := |s.issued|)
    case Execute(cmd) =>
      var answer := if cmd == SET_UPDATE_PARAMETERS then ResponseReady else AnswerTo(legal, cmd);
      s.(device := Reply(answer, cmd == SET_UPDATE_PARAMETERS), handled := s.handled + [Handled(cmd, answer)])
    case Reply(answer, stops) =>
      s.(status := answer, device := if stops then Stopped else Poll)
    case RearmFirst =>
      if order.WaitThenReady? then WriteCommand(s, WAIT).(device := RearmSecond)
      else s.(status := Ready, device := RearmSecond)
    case RearmSecond =>
      if order.WaitThenReady? then s.(status := Ready, device := Poll)
      else WriteCommand(s, WAIT).(device := Poll)
    case Stopped => s
  }

  /** A host that issues only on READY and acknowledges only an answer. */
  function StepHost(s: State, cmd: nat): State {
    match s.host
    case Idle => if s.status.Ready? then s.(host := SawReady) else s
    case SawReady =>
      if CanIssue(cmd) then WriteCommand(s, cmd).(host := Waiting, issued := s.issued + [cmd]) else s
    case Waiting =>
      if s.status.IsAnswer() then s.(host := SawAnswer, received := s.received + [s.status]) else s
    case SawAnswer => WriteCommand(s, ACK).(host := Idle)
  }

  function Step(order: Order, legal: nat -> bool, s: State, a: Action): State {
    match a
    case DeviceStep => StepDevice(order, legal, s)
    case HostStep(cmd) => StepHost(s, cmd)
  }

  function Run(order: Order, legal: nat -> bool, s: State, acts: seq<Action>): State
    decreases |acts|
  {
    if acts == [] then s else Run(order, legal, Step(order, legal, s, acts[0]), acts[1..])
  }

  /** Every handled command is the one issued at that place, with its answer,
      and the host received exactly these answers. */
  ghost predicate Matched(legal: nat -> bool, s: State) {
    && |s.received| <= |s.handled| <= |s.issued|
    && (forall k :: 0 <= k < |s.issued| ==> CanIssue(s.issued[k]))
    && (forall k :: 0 <= k < |s.handled| ==> s.handled[k] == Handled(s.issued[k], AnswerTo(legal, s.issued[k])))
    && (forall k :: 0 <= k < |s.received| ==> s.received[k] == s.handled[k].answer)
  }

  /** How far the current exchange has come. */
  datatype Phase = Rearming | Open | Issued | Taken | Replying | Answered | Seen | Acknowledged

  /** The state of one exchange: who is where and what the shared words hold. */
  ghost predicate In(s: State, phase: Phase) {
    var n, h, r := |s.issued|, |s.handled|, |s.received|;
    match phase
    case Rearming =>
      s.host.Idle? && n == h == r == s.taken && !s.status.Ready?
      && (s.device.RearmFirst? || (s.device.RearmSecond? && s.command == WAIT))
    case Open =>
      (s.host.Idle? || s.host.SawReady?) && n == h == r == s.taken && s.status.Ready? && s.command == WAIT
      && (s.device.Poll? || s.device.ReadCommand?)
    case Issued =>
      s.host.Waiting? && n == h + 1 && h == r == s.taken && s.status.Ready? && s.command == s.issued[n-1]
      && (s.device.Poll? || s.device.ReadCommand?)
    case Taken =>
      s.host.Waiting? && n == h + 1 == s.taken && h == r && s.status.Ready? && s.command == s.issued[n-1]
      && s.device == Execute(s.command)
    case Replying =>
      s.host.Waiting? && n == h == s.taken == r + 1 && s.status.Ready? && s.command == s.issued[n-1]
      && s.device == Reply(s.handled[r].answer, false) && s.handled[r].answer.IsAnswer()
    case Answered =>
      s.host.Waiting? && n == h == s.taken == r + 1 && s.status == s.handled[r].answer && s.status.IsAnswer()
      && s.command == s.issued[n-1] && (s.device.Poll? || s.device.ReadAck?)
    case Seen =>
      s.host.SawAnswer? && n == h == s.taken == r && n > 0 && s.status.IsAnswer()
      && s.command == s.issued[n-1] && (s.device.Poll? || s.device.ReadAck?)
    case Acknowledged =>
      s.host.Idle? && n == h == s.taken == r && s.status.IsAnswer()
      && s.command == ACK && (s.device.Poll? || s.device.ReadAck?)
  }

  /** What every reachable state satisfies when WAIT is written first. */
  ghost predicate Inv(legal: nat -> bool, s: State) {
    !s.lost && Matched(legal, s) && exists phase :: In(s, phase)
  }

  lemma DeviceKeepsInv(legal: nat -> bool, s: State, phase: Phase)
    requires !s.lost && Matched(legal, s) && In(s, phase)
    ensures Inv(legal, StepDevice(WaitThenReady, legal, s))
  {
    var t := StepDevice(WaitThenReady, legal, s);
    match phase
    case Rearming => assert In(t, if s.device.RearmFirst? then Rearming else Open);
    case Open => assert In(t, Open);
    case Issued => assert In(t, if s.device.Poll? then Issued else Taken);
    case Taken => assert In(t, Replying);
    case Replying => assert In(t, Answered);
    case Answered => assert In(t, Answered);
    case Seen => assert In(t, Seen);
    case Acknowledged => assert In(t, if s.device.Poll? then Acknowledged else Rearming);
  }

  lemma HostKeepsInv(legal: nat -> bool, s: State, phase: Phase, cmd: nat)
    requires !s.lost && Matched(legal, s) && In(s, phase)
    ensures Inv(legal, StepHost(s, cmd))
  {
    var t := StepHost(s, cmd);
    match phase
    case Open => assert In(t, if s.host.SawReady? && CanIssue(cmd) then Issued else Open);
    case Answered => assert In(t, Seen);
    case Seen => assert In(t, Acknowledged);
    case _ => assert In(t, phase);
  }

  lemma StepKeepsInv(legal: nat -> bool, s: State, a: Action)
    requires Inv(legal, s)
    ensures Inv(legal, Step(WaitThenReady, legal, s, a))
  {
    var phase :| In(s, phase);
    match a
    case DeviceStep => DeviceKeepsInv(legal, s, phase);
    case HostStep(cmd) => HostKeepsInv(legal, s, phase, cmd);
  }

  lemma {:induction false} RunKeepsInv(legal: nat -> bool, s: State, acts: seq<Action>)
    requires Inv(legal, s)
    ensures Inv(legal, Run(WaitThenReady, legal, s, acts))
    decreases |acts|
  {
    if acts != [] {
      StepKeepsInv(legal, s, acts[0]);
      RunKeepsInv(legal, Step(WaitThenReady, legal, s, acts[0]), acts[1..]);
    }
  }

  /** Exactly once: in every interleaving no command is overwritten, and the
      commands handled and the answers received are those issued, one for one
      and in order, with at most the latest still on its way. A legal command is
      answered with RESPONSE_READY and any other with ILLEGAL_COMMAND. No command is one
      of the three words that mean something else. */
  lemma ExactlyOnce(legal: nat -> bool, acts: seq<Action>)
    ensures var s := Run(WaitThenReady, legal, START, acts);
            && !s.lost && Matched(legal, s)
            && |s.issued| <= |s.received| + 1
            && (s.host.Idle? || s.host.SawReady? ==> |s.handled| == |s.received| == |s.issued|)
            && (forall k :: 0 <= k < |s.issued| ==> s.issued[k] != 1000 && s.issued[k] != 1 && s.issued[k] != 41)
            && (forall k :: 0 <= k < |s.handled| ==>
                  && s.handled[k].cmd == s.issued[k]
                  && (s.handled[k].answer == ResponseReady <==> legal(s.issued[k]))
                  && (s.handled[k].answer == IllegalCommand <==> !legal(s.issued[k])))
            && (forall k :: 0 <= k < |s.received| ==>
                  && (s.received[k] == ResponseReady <==> legal(s.issued[k]))
                  && (s.received[k] == IllegalCommand <==> !legal(s.issued[k])))
  {
    assert In(START, Rearming);
    RunKeepsInv(legal, START, acts);
  }

  /** Device steps in a schedule. */
  function DeviceSteps(acts: seq<Action>): nat {
    if acts == [] then 0 else (if acts[0].DeviceStep? then 1 else 0) + DeviceSteps(acts[1..])
  }

  /** Device steps until the outstanding command is handled. */
  function Remaining(s: State): nat {
    if |s.handled| >= |s.issued| then 0
    else match s.device
         case ReadCommand => 2
         case Execute(_) => 1
         case _ => 3
  }

  lemma StepBringsCloser(legal: nat -> bool, s: State, phase: Phase, a: Action)
    requires Matched(legal, s) && In(s, phase) && |s.handled| < |s.issued|
    ensures var t := Step(WaitThenReady, legal, s, a);
            t.issued == s.issued && Remaining(t) + (if a.DeviceStep? then 1 else 0) <= Remaining(s)
  {
  }

  /** No command waits: three steps of the device handle the outstanding one,
      whatever the host does in between. */
  lemma {:induction false} HandledSoon(legal: nat -> bool, s: State, acts: seq<Action>)
    requires Inv(legal, s) && DeviceSteps(acts) >= Remaining(s)
    ensures |Run(WaitThenReady, legal, s, acts).handled| >= |s.issued|
    decreases |acts|
  {
    if |s.handled| >= |s.issued| {
      HandledNeverShrinks(legal, s, acts);
    } else {
      var phase :| In(s, phase);
      StepBringsCloser(legal, s, phase, acts[0]);
      StepKeepsInv(legal, s, acts[0]);
      HandledSoon(legal, Step(WaitThenReady, legal, s, acts[0]), acts[1..]);
    }
  }

  lemma {:induction false} HandledNeverShrinks(legal: nat -> bool, s: State, acts: seq<Action>)
    ensures |Run(WaitThenReady, legal, s, acts).handled| >= |s.handled|
    decreases |acts|
  {
    if acts != [] {
      HandledNeverShrinks(legal, Step(WaitThenReady, legal, s, acts[0]), acts[1..]);
    }
  }

  /** Device steps until the answer to the outstanding command is written. */
  function ToAnswer(s: State): (n: nat)
    ensures n <= 4
  {
    if |s.received| >= |s.issued| then 0
    else if |s.handled| < |s.issued| then Remaining(s) + 1
    else if s.device.Reply? then 1
    else 0
  }

  lemma StepBringsAnswer(legal: nat -> bool, s: State, phase: Phase, a: Action)
    requires Matched(legal, s) && In(s, phase) && |s.received| < |s.issued|
    ensures var t := Step(WaitThenReady, legal, s, a);
            && t.issued == s.issued
            && (ToAnswer(t) == 0 || ToAnswer(t) + (if a.DeviceStep? then 1 else 0) <= ToAnswer(s))
            && (ToAnswer(s) == 0 && a.HostStep? ==> |t.received| == |t.issued|)
  {
  }

  lemma {:induction false} ReceivedNeverShrinks(legal: nat -> bool, s: State, acts: seq<Action>)
    ensures |Run(WaitThenReady, legal, s, acts).received| >= |s.received|
    decreases |acts|
  {
    if acts != [] {
      ReceivedNeverShrinks(legal, Step(WaitThenReady, legal, s, acts[0]), acts[1..]);
    }
  }

  /** No host waits: once the device has made four steps, whatever happened in between,
      the host has its answer, or receives it when it next looks. */
  lemma {:induction false} AnsweredSoon(legal: nat -> bool, s: State, before: seq<Action>, cmd: nat, after: seq<Action>)
    requires Inv(legal, s) && DeviceSteps(before) >= ToAnswer(s)
    ensures |Run(WaitThenReady, legal, s, before + [HostStep(cmd)] + after).received| >= |s.issued|
    decreases |before|
  {
    var acts := before + [HostStep(cmd)] + after;
    if |s.received| >= |s.issued| {
      ReceivedNeverShrinks(legal, s, acts);
    } else {
      var phase :| In(s, phase);
      var t := Step(WaitThenReady, legal, s, acts[0]);
      StepBringsAnswer(legal, s, phase, acts[0]);
      if before == [] {
        ReceivedNeverShrinks(legal, t, acts[1..]);
      } else {
        StepKeepsInv(legal, s, acts[0]);
        assert acts[1..] == before[1..] + [HostStep(cmd)] + after;
        AnsweredSoon(legal, t, before[1..], cmd, after);
      }
    }
  }

  /** The host issues between the two writes of the swapped order. */
  function Overwritten(cmd: nat): seq<Action> {
    [DeviceStep, HostStep(cmd), HostStep(cmd), DeviceStep]
  }

  /** The state after it: the command is gone and the host waits. */
  function AfterOverwrite(cmd: nat): State {
    State(Ready, WAIT, Poll, Waiting, [cmd], 0, [], [], true)
  }

  lemma SwappedOrderOverwrites(legal: nat -> bool, cmd: nat)
    requires CanIssue(cmd)
    ensures Run(ReadyThenWait, legal, START, Overwritten(cmd)) == AfterOverwrite(cmd)
  {
    var s1 := State(Ready, 0, RearmSecond, Idle, [], 0, [], [], false);
    var s2 := s1.(host := SawReady);
    var s3 := State(Ready, cmd, RearmSecond, Waiting, [cmd], 0, [], [], false);
    var acts := Overwritten(cmd);
    assert Step(ReadyThenWait, legal, START, acts[0]) == s1;
    assert Step(ReadyThenWait, legal, s1, acts[1]) == s2;
    assert Step(ReadyThenWait, legal, s2, acts[2]) == s3;
    assert Step(ReadyThenWait, legal, s3, acts[3]) == AfterOverwrite(cmd);
    assert acts[1..][1..][1..] == [DeviceStep];
    assert Run(ReadyThenWait, legal, s3, [DeviceStep]) == AfterOverwrite(cmd);
    assert acts[1..][1..] == [HostStep(cmd), DeviceStep];
    assert Run(ReadyThenWait, legal, s2, acts[1..][1..]) == AfterOverwrite(cmd);
    assert acts[1..] == [HostStep(cmd), HostStep(cmd), DeviceStep];
    assert Run(ReadyThenWait, legal, s1, acts[1..]) == AfterOverwrite(cmd);
  }

  /** Both sides then wait for each other for ever. */
  lemma {:induction false} OverwrittenIsNeverAnswered(legal: nat -> bool, s: State, acts: seq<Action>)
    requires s.status.Ready? && s.command == WAIT && s.host.Waiting? && (s.device.Poll? || s.device.ReadCommand?)
    ensures var t := Run(ReadyThenWait, legal, s, acts);
            t.handled == s.handled && t.received == s.received && t.host.Waiting?
    decreases |acts|
  {
    if acts != [] {
      OverwrittenIsNeverAnswered(legal, Step(ReadyThenWait, legal, s, acts[0]), acts[1..]);
    }
  }

  /** No interleaving overwrites a command. */
  ghost predicate NeverOverwrites(order: Order, legal: nat -> bool) {
    forall acts :: !Run(order, legal, START, acts).lost
  }

  /** The order of the two writes decides. */
  lemma WaitMustComeFirst(order: Order, legal: nat -> bool)
    ensures NeverOverwrites(order, legal) <==> order == WaitThenReady
  {
    if order == WaitThenReady {
      forall acts ensures !Run(order, legal, START, acts).lost {
        ExactlyOnce(legal, acts);
      }
    } else {
      SwappedOrderOverwrites(legal, 0);
      assert Run(order, legal, START, Overwritten(0)).lost;
    }
  }
}
