/**
 The gateway as the service runs it: the loop of startDeviceGatewayLoop, the in-flight
 marker it shares with the ack handler, and what a connection does when it opens or
 closes. Each method is proved to be one step of the Gateway model.
 */
module GatewayLoop {
  import opened Wrappers
  import opened RedisQueue
  import opened DeviceCommands
  import opened Gateway

  class DeviceGateway {
    const queue: CommandQueue
    /** The socket of the current loop, until that socket closes. */
    var current: Option<nat>
    /** Whether that loop still goes round. */
    var running: bool
    var inFlight: Option<Flight>
    ghost var log: seq<Event>

    constructor (queue: CommandQueue)
      requires queue.Valid() && queue.enabled && queue.exclusive
      ensures this.queue == queue && Valid() && View() == Node(queue.db, false, None, [])
    {
      this.queue := queue;
      current := None;
      running := false;
      inFlight := None;
      log := [];
    }

    ghost predicate Valid()
      reads this, queue
    {
      queue.Valid() && queue.enabled && queue.exclusive && (running ==> current.Some?)
    }

    ghost function View(): Node
      reads this, queue
    {
      Node(queue.db, running, inFlight, log)
    }

    method ClearInFlight(c: CommandId)
      modifies this`inFlight
      ensures inFlight == if old(inFlight).Some? && old(inFlight).value.commandId == c then None else old(inFlight)
    {
      if inFlight.None? { return; }
      if inFlight.value.commandId == c { inFlight := None; }
    }

    /** A connection opens: its loop replaces the one of any older connection. */
    method Open(socket: nat)
      requires Valid()
      modifies this
      ensures Valid() && View() == StepF(old(View()), Restart) && current == Some(socket)
    {
      current := Some(socket);
      running := true;
      inFlight := None;
      log := log + [Interrupted];
    }

    /** A connection closes. The marker goes even when a newer connection has set it. */
    method Shut(socket: nat)
      requires Valid()
      modifies this
      ensures Valid() && View() == StepF(old(View()), if old(current) == Some(socket) then Close else LateClose)
      ensures current == if old(current) == Some(socket) then None else old(current)
    {
      if current == Some(socket) {
        current := None;
        running := false;
      }
      inFlight := None;
      log := log + [Interrupted];
    }

    /** The blocking read of a loop whose connection has gone comes back. */
    method FinishStaleRead()
      requires Valid()
      modifies queue
      ensures Valid() && View() == StepF(old(View()), StaleRead)
    {
      hide Inv, Evolves, ReadF;
      EvolvesSelf(queue.db);
      var _ := queue.NextReadable(New, true);
    }

    /** The body of the loop; `fate` says whether the connection is still there after the read,
        and whether its socket takes the message. */
    method Iterate(fate: Fate)
      requires Valid()
      modifies this, queue
      ensures Valid() && View() == LoopF(old(View()), fate)
    {
      hide Inv, Evolves, ReadF, ScheduleRetryF;
      if !running { return; }
      EvolvesSelf(queue.db);
      if inFlight.Some? {
        if queue.db.now - inFlight.value.sentAt < ACK_TIMEOUT_MS { return; }
        var _ := queue.ScheduleRetry(queue.db, inFlight.value.commandId);
        ClearInFlight(inFlight.value.commandId);
      }
      var next := queue.NextReadable(Pending, true);
      if next.None? {
        next := queue.NextReadable(New, true);
      }
      if fate.Gone? {
        running := false;
        return;
      }
      if next.None? { return; }
      var c := next.value.commandId;
      if fate.Refused? {
        EvolvesSelf(queue.db);
        var _ := queue.ScheduleRetry(queue.db, c);
        running := false;
        return;
      }
      inFlight := Some(Flight(c, queue.db.now));
      log := log + [Sent(c, queue.db.now)];
    }

    /** The device.command.ack handler. */
    method OnAck(ack: AckMessage) returns (outcome: AckOutcome)
      requires Valid()
      modifies this, queue
      ensures Valid() && View() == ArriveF(old(View()), ack) && outcome == AckF(old(queue.db), ack).1
    {
      hide Inv, Evolves, AckF;
      ClearInFlight(ack.commandId);
      outcome := queue.Ack(ack);
      log := log + [Acknowledged(ack.commandId)];
      if outcome.Terminal() {
        log := log + [Outcome(ack.commandId)];
      }
    }

    /** A socket that is not the current one. */
    function Other(): (socket: nat)
      reads this
      ensures current != Some(socket)
    {
      if current.Some? then current.value + 1 else 0
    }

    /** Anything but an iteration of the loop: a publisher, an ack, a connection that opens or
        closes, a read left behind by one, or the clock. */
    method Handle(step: Step)
      requires Valid() && !step.Loop?
      modifies this, queue
      ensures Valid() && View() == StepF(old(View()), step)
    {
      hide Inv, Evolves, AckF, EnqueueF, ArriveF, Apply;
      match step
      case Elapse(ms) =>
        ApplyKeepsInv(queue.db, Tick(ms));
        queue.db := Apply(queue.db, Tick(ms));
      case Publish(c, commandType, payload, gap) =>
        if c !in queue.db.issued {
          var queued, command := queue.Enqueue(c, commandType, payload, true, gap);
        }
      case Arrive(ack) =>
        var _ := OnAck(ack);
      case Restart => Open(Other());
      case Close => Shut(if current.Some? then current.value else Other());
      case LateClose => Shut(Other());
      case StaleRead => FinishStaleRead();
    }

    method HandleAll(steps: seq<Step>)
      requires Valid() && forall step :: step in steps ==> !step.Loop?
      modifies this, queue
      ensures Valid() && View() == RunF(old(View()), steps)
    {
      hide Inv, StepF;
      var i := 0;
      while i < |steps|
        invariant 0 <= i <= |steps| && Valid()
        invariant RunF(View(), steps[i..]) == RunF(old(View()), steps)
      {
        assert steps[i..][1..] == steps[i + 1..];
        Handle(steps[i]);
        i := i + 1;
      }
    }

    /** The loop, with whatever the other handlers do between two iterations. */
    method Drive(rounds: seq<Round>)
      requires Valid() && forall round, step :: round in rounds && step in round.between ==> !step.Loop?
      modifies this, queue
      ensures Valid() && View() == RunF(old(View()), RoundSteps(rounds))
    {
      hide Inv, StepF, LoopF;
      var i := 0;
      while i < |rounds|
        invariant 0 <= i <= |rounds| && Valid()
        invariant RunF(View(), RoundSteps(rounds[i..])) == RunF(old(View()), RoundSteps(rounds))
      {
        var round := rounds[i];
        RoundFirst(View(), rounds[i..]);
        LoopStep(View(), round.fate);
        assert rounds[i..][1..] == rounds[i + 1..] && rounds[i..][0] == round;
        Iterate(round.fate);
        HandleAll(round.between);
        i := i + 1;
      }
    }
  }

  /** One iteration, and what happens until the next one. */
  datatype Round = Round(fate: Fate, between: seq<Step>)

  function RoundSteps(rounds: seq<Round>): seq<Step> {
    if rounds == [] then [] else [Loop(rounds[0].fate)] + rounds[0].between + RoundSteps(rounds[1..])
  }

  lemma LoopStep(n: Node, fate: Fate)
    ensures StepF(n, Loop(fate)) == LoopF(n, fate)
  {
  }

  lemma RoundFirst(n: Node, rounds: seq<Round>)
    requires rounds != []
    ensures RunF(n, RoundSteps(rounds)) ==
            RunF(RunF(StepF(n, Loop(rounds[0].fate)), rounds[0].between), RoundSteps(rounds[1..]))
  {
    hide StepF;
    var first, rest := [Loop(rounds[0].fate)] + rounds[0].between, RoundSteps(rounds[1..]);
    RunAppend(n, first, rest);
    assert first[1..] == rounds[0].between;
  }
}
