/** The command handshake between the debug host and the sequencer, over the shared words
    that hold the requested command, its parameter and the command status. Every load and store
    of a shared word is a step of its own. */
module Handshake {

  const CMD_WAIT_CMD: nat := 1000
  const CMD_RESPONSE_ACK: nat := 1
  const CMD_NOP: nat := 0
  const SET_UPDATE_PARAMETERS: nat := 41

  datatype Status = CmdReady | CmdExe | IllegalCmd | ResponseReady {
    predicate Done() {
      this == IllegalCmd || this == ResponseReady
    }
  }

  /** Where the sequencer is in its command loop: what it does next. */
  datatype Sequencer =
    | StoreWait
    | StoreReady
    | LoadStatus
    | LoadAck
    | LoadCommand
    | Handle(command: nat)
    | StoreStatus(status: Status, leave: bool)
    | Left

  /** Where the host is. */
  datatype Host =
    | Idle
    | StoreParameter(command: nat, parameter: nat)
    | StoreCommand(command: nat)
    | AwaitResponse
    | StoreAck

  datatype Request = Request(command: nat, parameter: nat)

  datatype State = State(
    sequencer: Sequencer,
    host: Host,
    status: Status,
    command: nat,
    parameter: nat,
    posted: seq<Request>,
    handled: seq<Request>,
    acknowledged: nat)

  ghost predicate Init(s: State) {
    && s.sequencer == StoreWait && s.host == Idle
    && s.status == CmdExe && s.command == CMD_NOP
    && s.posted == s.handled == [] && s.acknowledged == 0
  }

  ghost predicate SequencerStep(s: State, t: State) {
    match s.sequencer
    case StoreWait => t == s.(command := CMD_WAIT_CMD, sequencer := StoreReady)
    case StoreReady => t == s.(status := CmdReady, sequencer := LoadStatus)
    case LoadStatus =>
      t == s.(sequencer := if s.status.Done() then LoadAck
                           else if s.status == CmdReady then LoadCommand
                           else LoadStatus)
    case LoadAck => t == s.(sequencer := if s.command == CMD_RESPONSE_ACK then StoreWait else LoadStatus)
    case LoadCommand => t == s.(sequencer := if s.command == CMD_WAIT_CMD then LoadStatus else Handle(s.command))
    // The command and its parameter decide which of the two answers is given.
    case Handle(c) =>
      exists answer: Status :: answer.Done() &&
        t == s.(handled := s.handled + [Request(c, s.parameter)],
                sequencer := StoreStatus(answer, c == SET_UPDATE_PARAMETERS))
    case StoreStatus(answer, leave) => t == s.(status := answer, sequencer := if leave then Left else LoadStatus)
    case Left => false
  }

  /** The host posts a command only when it reads CMD_READY, then waits for the response and
      acknowledges it. */
  ghost predicate HostStep(s: State, t: State) {
    match s.host
    case Idle =>
      if s.status == CmdReady then
        exists c: nat, p: nat :: t == s.(host := StoreParameter(c, p))
      else t == s
    case StoreParameter(c, p) => t == s.(parameter := p, host := StoreCommand(c))
    case StoreCommand(c) =>
      t == s.(command := c, posted := s.posted + [Request(c, s.parameter)], host := AwaitResponse)
    case AwaitResponse => t == if s.status.Done() then s.(host := StoreAck) else s
    case StoreAck => t == s.(command := CMD_RESPONSE_ACK, acknowledged := s.acknowledged + 1, host := Idle)
  }

  ghost predicate Next(s: State, t: State) {
    SequencerStep(s, t) || HostStep(s, t)
  }

  /** Any interleaving of the two. */
  ghost predicate IsRun(run: seq<State>) {
    && run != [] && Init(run[0])
    && (forall i: nat | i + 1 < |run| :: Next(run[i], run[i + 1]))
  }

  /** A command the host may post: the two words that the handshake itself uses are not. */
  predicate Proper(command: nat) {
    command != CMD_WAIT_CMD && command != CMD_RESPONSE_ACK
  }

  /** The host is about to post only proper commands. */
  predicate HostProper(s: State) {
    match s.host
    case StoreParameter(c, _) => Proper(c)
    case StoreCommand(c) => Proper(c)
    case _ => true
  }

  ghost predicate ProperRun(run: seq<State>) {
    IsRun(run) && forall i: nat | i < |run| :: HostProper(run[i])
  }

  /** The request that has been posted but not handled, if any. */
  ghost predicate Pending(s: State) {
    |s.posted| == |s.handled| + 1 && s.handled == s.posted[..|s.handled|]
  }

  /** The states of a proper run, by what the handshake is waiting for. */
  ghost predicate Invariant(s: State) {
    && HostProper(s)
    && (|| Preparing(s) || Offering(s) || Requested(s) || Answering(s) || Answered(s) || Acknowledged(s))
  }

  ghost predicate Settled(s: State) {
    s.posted == s.handled && s.acknowledged == |s.posted|
  }

  ghost predicate Preparing(s: State) {
    && Settled(s) && s.host == Idle && s.status != CmdReady
    && (s.sequencer == StoreWait || (s.sequencer == StoreReady && s.command == CMD_WAIT_CMD))
  }

  ghost predicate Offering(s: State) {
    && Settled(s) && s.status == CmdReady && s.command == CMD_WAIT_CMD
    && (s.host == Idle || s.host.StoreParameter? || s.host.StoreCommand?)
    && (s.sequencer == LoadStatus || s.sequencer == LoadCommand)
  }

  ghost predicate Requested(s: State) {
    && s.status == CmdReady && s.host == AwaitResponse && Proper(s.command)
    && s.acknowledged == |s.handled| && s.posted == s.handled + [Request(s.command, s.parameter)]
    && (s.sequencer == LoadStatus || s.sequencer == LoadCommand || s.sequencer == Handle(s.command))
  }

  ghost predicate Answering(s: State) {
    && s.status == CmdReady && s.host == AwaitResponse && Proper(s.command)
    && s.posted == s.handled && s.acknowledged + 1 == |s.posted|
    && s.sequencer.StoreStatus? && s.sequencer.status.Done()
  }

  ghost predicate Answered(s: State) {
    && s.status.Done() && (s.host == AwaitResponse || s.host == StoreAck) && Proper(s.command)
    && s.posted == s.handled && s.acknowledged + 1 == |s.posted|
    && (s.sequencer == LoadStatus || s.sequencer == LoadAck || s.sequencer == Left)
  }

  ghost predicate Acknowledged(s: State) {
    && s.status.Done() && s.host == Idle && s.command == CMD_RESPONSE_ACK && Settled(s)
    && (s.sequencer == LoadStatus || s.sequencer == LoadAck || s.sequencer == Left)
  }

  lemma {:induction false} SequencerKeepsInvariant(s: State, t: State)
    requires Invariant(s) && SequencerStep(s, t)
    ensures Invariant(t)
  {
  }

  lemma {:induction false} HostKeepsInvariant(s: State, t: State)
    requires Invariant(s) && HostStep(s, t) && HostProper(t)
    ensures Invariant(t)
  {
  }

  lemma {:induction false} InvariantHolds(run: seq<State>, i: nat)
    requires ProperRun(run) && i < |run|
    ensures Invariant(run[i])
  {
    if i > 0 {
      InvariantHolds(run, i - 1);
      assert Next(run[i - 1], run[i]);
      if SequencerStep(run[i - 1], run[i]) {
        SequencerKeepsInvariant(run[i - 1], run[i]);
      } else {
        HostKeepsInvariant(run[i - 1], run[i]);
      }
    }
  }

  /** In every state of a proper run each request has been handled at most once, in the order
      posted and with the parameter posted, and at most the last is still to be handled. The
      sequencer overwrites the command only when every request has been handled and
      acknowledged, the host only when nothing is pending; a response is never to a request that
      was not handled. */
  lemma {:induction false} HandledExactlyOnce(run: seq<State>, i: nat)
    requires ProperRun(run) && i < |run|
    ensures var s := run[i];
      && (s.handled == s.posted || Pending(s))
      && (s.sequencer == StoreWait ==> s.handled == s.posted && s.acknowledged == |s.posted|)
      && (s.host.StoreCommand? || s.host.StoreAck? || s.status.Done() ==> s.handled == s.posted)
      && (s.host == Idle && s.status == CmdReady ==> s.handled == s.posted)
      && (Pending(s) ==> s.command == s.posted[|s.handled|].command && s.parameter == s.posted[|s.handled|].parameter)
  {
    InvariantHolds(run, i);
  }

  /** How many steps of the sequencer a pending request is from being handled. */
  function Distance(s: State): nat {
    match s.sequencer
    case LoadStatus => 3
    case LoadCommand => 2
    case _ => 1
  }

  /** The steps of the sequencer from run[i] to run[j]. */
  ghost function SequencerSteps(run: seq<State>, i: nat, j: nat): (n: nat)
    requires i <= j < |run|
  {
    if i == j then 0
    else SequencerSteps(run, i, j - 1) + if SequencerStep(run[j - 1], run[j]) then 1 else 0
  }

  /** One step while a request is pending: either it is handled, or the sequencer gets nearer
      to it unless it was the host's step. */
  lemma {:induction false} PendingAdvances(s: State, t: State)
    requires Requested(s) && Next(s, t)
    ensures t.handled == s.posted || (Requested(t) && t.posted == s.posted && t.handled == s.handled)
    ensures t.handled != s.posted ==> Distance(t) + (if SequencerStep(s, t) then 1 else 0) <= Distance(s)
  {
  }

  /** Handled requests stay handled. */
  lemma HandledStays(s: State, t: State)
    requires Next(s, t)
    ensures s.handled <= t.handled
  {
  }

  /** A pending request is handled within three steps of the sequencer, whatever the host does. */
  lemma {:induction false} PendingIsHandled(run: seq<State>, i: nat, j: nat)
    requires ProperRun(run) && i <= j < |run| && Pending(run[i])
    ensures run[i].handled < run[j].handled
            || (run[j].handled == run[i].handled && Requested(run[j]) && run[j].posted == run[i].posted
                && SequencerSteps(run, i, j) + Distance(run[j]) <= 3)
    ensures SequencerSteps(run, i, j) >= 3 ==> run[i].handled < run[j].handled
  {
    InvariantHolds(run, i);
    if i < j {
      PendingIsHandled(run, i, j - 1);
      HandledStays(run[j - 1], run[j]);
      if run[j - 1].handled == run[i].handled {
        PendingAdvances(run[j - 1], run[j]);
      }
    }
  }

  /** The host waits for a response that will never come. */
  ghost predicate Stuck(s: State) {
    && s.host == AwaitResponse && s.status == CmdReady && s.command == CMD_WAIT_CMD
    && (s.sequencer == LoadStatus || s.sequencer == LoadCommand)
  }

  lemma {:induction false} StuckForever(run: seq<State>, i: nat, j: nat)
    requires IsRun(run) && i <= j < |run| && Stuck(run[i])
    ensures Stuck(run[j]) && run[j].handled == run[i].handled
  {
    if i < j {
      StuckForever(run, i, j - 1);
      assert Next(run[j - 1], run[j]);
    }
  }

  lemma NeverStuck(run: seq<State>, i: nat)
    requires ProperRun(run) && i < |run|
    ensures !Stuck(run[i])
  {
    InvariantHolds(run, i);
  }

  lemma Extend(run: seq<State>, t: State)
    requires IsRun(run) && Next(run[|run| - 1], t)
    ensures IsRun(run + [t])
  {
  }

  /** The first command a host posts is c. */
  lemma PostFirst(c: nat) returns (run: seq<State>)
    ensures IsRun(run)
    ensures run[|run| - 1] ==
            State(LoadStatus, AwaitResponse, CmdReady, c, 0, [Request(c, 0)], [], 0)
  {
    var s := State(StoreWait, Idle, CmdExe, CMD_NOP, 0, [], [], 0);
    run := [s];
    s := s.(command := CMD_WAIT_CMD, sequencer := StoreReady);
    Extend(run, s);
    run := run + [s];
    s := s.(status := CmdReady, sequencer := LoadStatus);
    Extend(run, s);
    run := run + [s];
    s := s.(host := StoreParameter(c, 0));
    Extend(run, s);
    run := run + [s];
    s := s.(parameter := 0, host := StoreCommand(c));
    Extend(run, s);
    run := run + [s];
    s := s.(command := c, posted := [Request(c, 0)], host := AwaitResponse);
    Extend(run, s);
    run := run + [s];
  }

  /** Each of the two improper commands leaves the host stuck: WAIT_CMD is not recognised as a
      command, and the response to an acknowledgement posted as a command is taken as already
      acknowledged. */
  lemma ImproperCommandSticks(c: nat) returns (run: seq<State>)
    requires !Proper(c)
    ensures IsRun(run) && Stuck(run[|run| - 1])
    ensures run[|run| - 1].posted == [Request(c, 0)] && run[|run| - 1].acknowledged == 0
  {
    run := PostFirst(c);
    if c == CMD_RESPONSE_ACK {
      var s := run[|run| - 1];
      s := s.(sequencer := LoadCommand);
      Extend(run, s);
      run := run + [s];
      s := s.(sequencer := Handle(c));
      Extend(run, s);
      run := run + [s];
      assert IllegalCmd.Done();
      s := s.(handled := [Request(c, 0)], sequencer := StoreStatus(IllegalCmd, false));
      Extend(run, s);
      run := run + [s];
      s := s.(status := IllegalCmd, sequencer := LoadStatus);
      Extend(run, s);
      run := run + [s];
      s := s.(sequencer := LoadAck);
      Extend(run, s);
      run := run + [s];
      s := s.(sequencer := StoreWait);
      Extend(run, s);
      run := run + [s];
      s := s.(command := CMD_WAIT_CMD, sequencer := StoreReady);
      Extend(run, s);
      run := run + [s];
      s := s.(status := CmdReady, sequencer := LoadStatus);
      Extend(run, s);
      run := run + [s];
    }
  }
}
