// The plugin's request channel (packages/plugin-sdk/index.ts): requests, host responses and
// timeouts in any interleaving. Request ids are the printed strings the host echoes back.
module PluginBridge {
  import opened Decimals

  datatype Outcome = Answered(data: string) | Failed(status: int)

  datatype Settlement = Settlement(id: string, outcome: Outcome)

  // `calls` are requests still awaiting `ready`; `timers` are the armed timeouts, by request.
  datatype Channel = Channel(
    ready: bool, calls: nat, sequence: nat, pending: set<string>, timers: set<string>,
    posted: seq<string>, settled: seq<Settlement>)

  datatype Event =
    | Call
    | Issue                                        // a call resumes once the port is there
    | Response(id: string, ok: bool, data: string, status: int)
    | Timeout(id: string)

  function RequestId(n: nat): string { "r" + Decimal(n) }

  function Init(ready: bool): Channel { Channel(ready, 0, 0, {}, {}, [], []) }

  predicate Enabled(c: Channel, event: Event) {
    match event
    case Issue => c.ready && c.calls > 0
    case Timeout(id) => id in c.timers
    case _ => true
  }

  function Settle(c: Channel, id: string, outcome: Outcome): Channel {
    c.(pending := c.pending - {id}, timers := c.timers - {id}, settled := c.settled + [Settlement(id, outcome)])
  }

  function Step(c: Channel, event: Event): Channel
    requires Enabled(c, event)
  {
    match event
    case Call => c.(calls := c.calls + 1)
    case Issue =>
      var id := RequestId(c.sequence + 1);
      c.(calls := c.calls - 1, sequence := c.sequence + 1, pending := c.pending + {id}, timers := c.timers + {id},
         posted := c.posted + [id])
    case Response(id, ok, data, status) =>
      if id in c.pending then Settle(c, id, if ok then Answered(data) else Failed(status)) else c
    case Timeout(id) => Settle(c, id, Failed(408))
  }

  class Bridge {
    const ready: bool
    var calls: nat
    var sequence: nat
    var pending: set<string>
    var timers: set<string>
    var posted: seq<string>
    var settled: seq<Settlement>

    ghost function State(): Channel
      reads this
    {
      Channel(ready, calls, sequence, pending, timers, posted, settled)
    }

    constructor (guestPort: bool)
      ensures State() == Init(guestPort)
    {
      ready := guestPort;
      calls, sequence, pending, timers, posted, settled := 0, 0, {}, {}, [], [];
    }

    method StartRequest()
      modifies this
      ensures State() == Step(old(State()), Call)
    {
      calls := calls + 1;
    }

    method IssueRequest()
      requires Enabled(State(), Issue)
      modifies this
      ensures State() == Step(old(State()), Issue)
    {
      calls := calls - 1;
      sequence := sequence + 1;
      var id := RequestId(sequence);
      timers := timers + {id};
      pending := pending + {id};
      posted := posted + [id];
    }

    method OnPortMessage(id: string, ok: bool, data: string, status: int)
      modifies this
      ensures State() == Step(old(State()), Response(id, ok, data, status))
    {
      if id !in pending { return; }
      pending := pending - {id};
      timers := timers - {id};
      if ok {
        settled := settled + [Settlement(id, Answered(data))];
      } else {
        settled := settled + [Settlement(id, Failed(status))];
      }
    }

    method OnTimeout(id: string)
      requires Enabled(State(), Timeout(id))
      modifies this
      ensures State() == Step(old(State()), Timeout(id))
    {
      timers := timers - {id};
      pending := pending - {id};
      settled := settled + [Settlement(id, Failed(408))];
    }
  }

  // ---------------------------------------------------------------- runs

  ghost predicate Inv(c: Channel) {
    && |c.posted| == c.sequence
    && (forall i :: 0 <= i < |c.posted| ==> c.posted[i] == RequestId(i + 1))
    && c.timers == c.pending
    && (forall i :: 0 <= i < |c.settled| ==> c.settled[i].id in c.posted && c.settled[i].id !in c.pending)
    && (forall i, j :: 0 <= i < j < |c.settled| ==> c.settled[i].id != c.settled[j].id)
    && (forall id :: id in c.pending ==> id in c.posted)
    && (forall id :: id in c.posted && id !in c.pending ==> exists i :: 0 <= i < |c.settled| && c.settled[i].id == id)
  }

  lemma RequestIdsDiffer(i: nat, j: nat)
    requires RequestId(i) == RequestId(j)
    ensures i == j
  {
    assert RequestId(i)[1..] == Decimal(i) && RequestId(j)[1..] == Decimal(j);
    DecimalIsInjective(i, j);
  }

  lemma NextIdIsNew(c: Channel)
    requires Inv(c)
    ensures RequestId(c.sequence + 1) !in c.posted
  {
    var id := RequestId(c.sequence + 1);
    forall i | 0 <= i < |c.posted| ensures c.posted[i] != id {
      if c.posted[i] == id { RequestIdsDiffer(i + 1, c.sequence + 1); }
    }
  }

  lemma SettleKeepsInv(c: Channel, id: string, outcome: Outcome)
    requires Inv(c) && id in c.pending
    ensures Inv(Settle(c, id, outcome))
  {
    var next := Settle(c, id, outcome);
    forall other | other in next.posted && other !in next.pending
      ensures exists i :: 0 <= i < |next.settled| && next.settled[i].id == other
    {
      if other == id {
        assert next.settled[|c.settled|].id == id;
      } else {
        var i :| 0 <= i < |c.settled| && c.settled[i].id == other;
        assert next.settled[i].id == other;
      }
    }
  }

  lemma IssueKeepsInv(c: Channel)
    requires Inv(c) && Enabled(c, Issue)
    ensures Inv(Step(c, Issue))
  {
    var next, id := Step(c, Issue), RequestId(c.sequence + 1);
    NextIdIsNew(c);
    assert forall other :: other in next.posted <==> other in c.posted || other == id;
    assert next.settled == c.settled;
  }

  lemma StepKeepsInv(c: Channel, event: Event)
    requires Inv(c) && Enabled(c, event)
    ensures Inv(Step(c, event))
  {
    match event {
      case Call =>
      case Issue => IssueKeepsInv(c);
      case Response(id, ok, data, status) =>
        if id in c.pending { SettleKeepsInv(c, id, if ok then Answered(data) else Failed(status)); }
      case Timeout(id) => SettleKeepsInv(c, id, Failed(408));
    }
  }

  ghost predicate IsRun(states: seq<Channel>, events: seq<Event>) {
    && |states| == |events| + 1
    && (states[0] == Init(true) || states[0] == Init(false))
    && (forall i {:trigger events[i]} :: 0 <= i < |events| ==>
          Enabled(states[i], events[i]) && states[i + 1] == Step(states[i], events[i]))
  }

  lemma {:induction false} RunKeepsInv(states: seq<Channel>, events: seq<Event>, i: nat)
    requires IsRun(states, events) && i < |states|
    ensures Inv(states[i])
  {
    if i > 0 {
      RunKeepsInv(states, events, i - 1);
      StepKeepsInv(states[i - 1], events[i - 1]);
    }
  }

  // In every interleaving: ids never repeat, no request settles twice, and the pending table
  // is exactly the posted requests that have not settled, each with its timeout armed.
  lemma RequestsSettleOnce(states: seq<Channel>, events: seq<Event>, i: nat)
    requires IsRun(states, events) && i < |states|
    ensures var c := states[i];
      && (forall a, b :: 0 <= a < b < |c.posted| ==> c.posted[a] != c.posted[b])
      && (forall a, b :: 0 <= a < b < |c.settled| ==> c.settled[a].id != c.settled[b].id)
      && c.timers == c.pending
      && (forall id :: id in c.pending <==> id in c.posted && forall a :: 0 <= a < |c.settled| ==> c.settled[a].id != id)
  {
    RunKeepsInv(states, events, i);
    var c := states[i];
    forall a, b | 0 <= a < b < |c.posted| ensures c.posted[a] != c.posted[b] {
      if c.posted[a] == c.posted[b] { RequestIdsDiffer(a + 1, b + 1); }
    }
  }

  // A late, repeated or unknown response changes nothing.
  lemma LateResponsesAreIgnored(states: seq<Channel>, events: seq<Event>, i: nat)
    requires IsRun(states, events) && i < |events| && events[i].Response?
    requires events[i].id !in states[i].posted || exists a :: 0 <= a < |states[i].settled| && states[i].settled[a].id == events[i].id
    ensures states[i + 1] == states[i]
  {
    RunKeepsInv(states, events, i);
  }

  // ---------------------------------------------------------------- outcomes

  // A request settles with the data or the status of its response, and with 408 when its
  // timeout comes first; nothing else settles one.
  lemma SettlesWith(c: Channel, event: Event)
    requires Enabled(c, event)
    ensures var settled := Step(c, event).settled;
      match event
      case Response(id, ok, data, status) =>
        settled == if id !in c.pending then c.settled
                   else if ok then c.settled + [Settlement(id, Answered(data))]
                   else c.settled + [Settlement(id, Failed(status))]
      case Timeout(id) => settled == c.settled + [Settlement(id, Failed(408))]
      case _ => settled == c.settled
  {
  }

  // Requests are numbered from one, and a call posts exactly one.
  lemma PostedIdsShow(states: seq<Channel>, events: seq<Event>, i: nat)
    requires IsRun(states, events) && i < |events|
    ensures states[i + 1].posted ==
      if events[i] == Issue then states[i].posted + ["r" + Decimal(|states[i].posted| + 1)] else states[i].posted
  {
    RunKeepsInv(states, events, i);
  }
}
