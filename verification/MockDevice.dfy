/**
 The device side of command delivery: a bounded memory of the acknowledgements of handled
 commands, from which a redelivered command is answered without being handled again.
 */
module MockDevice {
  import opened Wrappers

  datatype Ack = Ack(commandId: string, ok: bool, errorCode: Option<string>)

  const MEMORY: nat := 200

  const SUPPORTED: set<string> := {
    "action.request", "approval.request", "chat.message", "device.token", "run.canceled",
    "run.details", "run.log", "run.start", "run.status", "run.step_update"
  }

  /** An insertion-ordered map of acks: setting a key that is there keeps its place. */
  datatype Memory = Memory(order: seq<string>, acks: map<string, Ack>)

  /** A command message; an absent id or type is the empty string. */
  datatype Command = Command(commandId: string, commandType: string)

  /** What the device sends back, and whether it handled the command. */
  datatype Response = Response(ack: Option<Ack>, handled: bool)

  function Set(m: Memory, ack: Ack): Memory {
    Memory(if ack.commandId in m.acks then m.order else m.order + [ack.commandId], m.acks[ack.commandId := ack])
  }

  function DropOldest(m: Memory): Memory {
    if |m.order| > MEMORY && m.order[0] != "" then Memory(m.order[1..], m.acks - {m.order[0]}) else m
  }

  function Remembered(m: Memory, ack: Ack): Memory {
    DropOldest(Set(m, ack))
  }

  /** The ack of a command that is handled now. */
  function AckFor(c: Command): Ack {
    if c.commandType in SUPPORTED then Ack(c.commandId, true, None)
    else Ack(c.commandId, false, Some("UNKNOWN_COMMAND"))
  }

  function Respond(m: Memory, c: Command): (Memory, Response) {
    if c.commandId != "" && c.commandId in m.acks then (m, Response(Some(m.acks[c.commandId]), false))
    else if c.commandId == "" || c.commandType == "" then (m, Response(None, false))
    else (Remembered(m, AckFor(c)), Response(Some(AckFor(c)), true))
  }

  class Device {
    var order: seq<string>
    var acks: map<string, Ack>
    /** Commands passed to the handler of their type, and acks sent. */
    ghost var dispatched: seq<Command>
    ghost var sent: seq<Ack>

    ghost function State(): Memory reads this {
      Memory(order, acks)
    }

    constructor ()
      ensures State() == Memory([], map[]) && dispatched == [] && sent == []
    {
      order, acks := [], map[];
      dispatched, sent := [], [];
    }

    method Send(ack: Ack)
      modifies this`sent
      ensures sent == old(sent) + [ack]
    {
      sent := sent + [ack];
    }

    method RememberCommandAck(ack: Ack)
      modifies this
      ensures State() == Remembered(old(State()), ack) && sent == old(sent) + [ack] && dispatched == old(dispatched)
    {
      if ack.commandId !in acks { order := order + [ack.commandId]; }
      acks := acks[ack.commandId := ack];
      if |order| > MEMORY {
        var oldest := order[0];
        if oldest != "" {
          order, acks := order[1..], acks - {oldest};
        }
      }
      Send(ack);
    }

    method HandleCommand(c: Command) returns (ghost r: Response)
      modifies this
      ensures (State(), r) == Respond(old(State()), c)
      ensures sent == old(sent) + if r.ack.Some? then [r.ack.value] else []
      ensures dispatched == old(dispatched) + if r.handled && c.commandType in SUPPORTED then [c] else []
    {
      if c.commandId != "" && c.commandId in acks {
        Send(acks[c.commandId]);
        return Response(Some(acks[c.commandId]), false);
      }
      if c.commandId == "" || c.commandType == "" { return Response(None, false); }
      if c.commandType !in SUPPORTED {
        RememberCommandAck(Ack(c.commandId, false, Some("UNKNOWN_COMMAND")));
        return Response(Some(AckFor(c)), true);
      }
      dispatched := dispatched + [c];
      RememberCommandAck(Ack(c.commandId, true, None));
      r := Response(Some(AckFor(c)), true);
    }
  }

  // ---------------------------------------------------------------- runs of deliveries

  function After(commands: seq<Command>): Memory {
    if commands == [] then Memory([], map[])
    else Respond(After(commands[..|commands| - 1]), commands[|commands| - 1]).0
  }

  /** The acks of the handled commands, in the order they were handled. */
  function History(commands: seq<Command>): seq<Ack> {
    if commands == [] then []
    else
      var init, last := commands[..|commands| - 1], commands[|commands| - 1];
      History(init) + if Respond(After(init), last).1.handled then [AckFor(last)] else []
  }

  function Latest(history: seq<Ack>): seq<Ack> {
    if |history| <= MEMORY then history else history[|history| - MEMORY..]
  }

  /** The memory holds these acks, in this order, and no others. */
  ghost predicate Holds(m: Memory, acks: seq<Ack>) {
    && |m.order| == |acks|
    && (forall k :: 0 <= k < |acks| ==> acks[k].commandId != "" && m.order[k] == acks[k].commandId)
    && (forall k :: 0 <= k < |acks| ==> m.order[k] in m.acks && m.acks[m.order[k]] == acks[k])
    && (forall id :: id in m.acks ==> id in m.order)
    && (forall i, k :: 0 <= i < k < |acks| ==> m.order[i] != m.order[k])
  }

  lemma SetHolds(m: Memory, acks: seq<Ack>, ack: Ack)
    requires Holds(m, acks) && ack.commandId !in m.acks && ack.commandId != ""
    ensures Holds(Set(m, ack), acks + [ack])
  {
    var next := Set(m, ack);
    assert forall k :: 0 <= k < |acks| ==> m.order[k] in m.acks && m.order[k] != ack.commandId;
  }

  lemma DropHolds(m: Memory, acks: seq<Ack>)
    requires Holds(m, acks) && |acks| <= MEMORY + 1
    ensures Holds(DropOldest(m), if |acks| > MEMORY then acks[1..] else acks)
  {
    if |acks| > MEMORY { DropFirst(m, acks); }
  }

  lemma NoOthers(order: seq<string>, ids: set<string>)
    requires order != [] && forall id :: id in ids ==> id in order
    ensures forall id :: id in ids && id != order[0] ==> id in order[1..]
  {
    assert order == [order[0]] + order[1..];
  }

  lemma DropFirst(m: Memory, acks: seq<Ack>)
    requires Holds(m, acks) && acks != []
    ensures Holds(Memory(m.order[1..], m.acks - {m.order[0]}), acks[1..])
  {
    var next := Memory(m.order[1..], m.acks - {m.order[0]});
    forall k | 0 <= k < |acks| - 1 ensures next.order[k] in next.acks && next.acks[next.order[k]] == acks[1..][k] {
      assert next.order[k] == m.order[k + 1] && m.order[0] != m.order[k + 1];
    }
    NoOthers(m.order, m.acks.Keys);
  }

  /** After any deliveries the memory is exactly the acks of the last 200 handled commands,
      oldest first, each command once. */
  lemma {:induction false} MemoryIsLatest(commands: seq<Command>)
    ensures Holds(After(commands), Latest(History(commands)))
    decreases |commands|
  {
    hide Holds;
    if commands == [] {
      NothingHeld();
    } else {
      var init, last := commands[..|commands| - 1], commands[|commands| - 1];
      MemoryIsLatest(init);
      var m, history := After(init), History(init);
      if Respond(m, last).1.handled {
        SetHolds(m, Latest(history), AckFor(last));
        DropHolds(Set(m, AckFor(last)), Latest(history) + [AckFor(last)]);
        LatestAppend(history, AckFor(last));
      } else {
        assert History(commands) == history;
      }
    }
  }

  lemma NothingHeld()
    ensures Holds(Memory([], map[]), [])
  {
  }

  lemma LatestAppend(history: seq<Ack>, ack: Ack)
    ensures var longer := Latest(history) + [ack];
      Latest(history + [ack]) == (if |longer| > MEMORY then longer[1..] else longer)
  {
  }

  /** The ack of a command that is not remembered, after any deliveries: it is handled, and
      confirmed exactly if its type is one of ten. */
  lemma FirstAck(commands: seq<Command>, c: Command)
    requires c.commandId != "" && c.commandType != "" && c.commandId !in After(commands).acks
    ensures var response := Respond(After(commands), c).1;
      && response.handled && response.ack.Some? && response.ack.value.commandId == c.commandId
      && (response.ack.value.ok <==>
            || c.commandType == "action.request" || c.commandType == "approval.request"
            || c.commandType == "chat.message" || c.commandType == "device.token"
            || c.commandType == "run.canceled" || c.commandType == "run.details"
            || c.commandType == "run.log" || c.commandType == "run.start"
            || c.commandType == "run.status" || c.commandType == "run.step_update")
      && response.ack.value.errorCode == if response.ack.value.ok then None else Some("UNKNOWN_COMMAND")
  {
    hide After, Remembered;
  }

  /** Without an id or a type there is neither an ack nor anything to remember. */
  lemma IncompleteIsIgnored(m: Memory, c: Command)
    requires c.commandId == "" || (c.commandType == "" && c.commandId !in m.acks)
    ensures Respond(m, c) == (m, Response(None, false))
  {
  }

  /** A command that was handled as number `n`, and not again since, is answered with the
      ack it got then, and its handler is not run, exactly as long as fewer than 200 other
      commands were handled since. */
  lemma RedeliveryAnsweredIff(commands: seq<Command>, n: nat, c: Command)
    requires n < |History(commands)| && History(commands)[n].commandId == c.commandId && c.commandType != ""
    requires forall k :: n < k < |History(commands)| ==> History(commands)[k].commandId != c.commandId
    ensures var response := Respond(After(commands), c).1;
      && (!response.handled <==> |History(commands)| - 1 - n < 200)
      && (!response.handled ==> response.ack == Some(History(commands)[n]))
  {
    hide History, After, Holds, Remembered;
    MemoryIsLatest(commands);
    HistoryHasIds(commands);
    var history, m := History(commands), After(commands);
    var latest := Latest(history);
    var from := |history| - |latest|;
    assert forall k :: 0 <= k < |latest| ==> latest[k] == history[from + k];
    HeldIff(m, latest, c.commandId);
    if n >= from {
      assert latest[n - from] == history[n];
      HeldAs(m, latest, n - from);
    }
  }

  lemma HeldAs(m: Memory, acks: seq<Ack>, k: nat)
    requires Holds(m, acks) && k < |acks|
    ensures acks[k].commandId in m.acks && m.acks[acks[k].commandId] == acks[k]
  {
  }

  lemma HeldIff(m: Memory, acks: seq<Ack>, id: string)
    requires Holds(m, acks)
    ensures id in m.acks <==> exists k :: 0 <= k < |acks| && acks[k].commandId == id
  {
    if id in m.acks {
      var k :| 0 <= k < |m.order| && m.order[k] == id;
      assert acks[k].commandId == id;
    }
  }

  lemma {:induction false} HistoryHasIds(commands: seq<Command>)
    ensures forall k :: 0 <= k < |History(commands)| ==> History(commands)[k].commandId != ""
    decreases |commands|
  {
    if commands != [] { HistoryHasIds(commands[..|commands| - 1]); }
  }
}
