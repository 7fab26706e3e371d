/**
  Many appenders, many subscribers, every interleaving.

  An Append is two phases: one locked step that pushes the line and captures
  the open channels, then one step per captured channel, outside the lock. A
  subscriber is one run of the event handler: it subscribes, takes its snapshot,
  receives, and is cancelled at any time. A line carries its place in the lock
  order and its appender so that two equal texts can be told apart.
*/
module LogFanout {
  import opened Wrappers
  import opened LogBuf

  datatype Line = Line(pos: nat, who: nat, text: string)

  // A line that was not delivered, and how many lines were waiting then.
  datatype Drop = Drop(pos: nat, waiting: nat)

  datatype Sub = Sub(
    chan: Chan<Line>,
    base: nat,                    // lines in the history when it subscribed
    snapshot: Option<seq<Line>>,
    snapAt: nat,                  // lines in the history when it took the snapshot
    entered: seq<Line>,           // everything ever put into the channel
    received: seq<Line>,
    drops: seq<Drop>,
    closes: nat)

  // An Append past its locked section: the captured channels it has yet to offer the line to.
  datatype Delivery = Delivery(line: Line, rest: seq<nat>)

  // Subscriber ids are positions in `subs`; `open` is the key set of the buffer's map.
  datatype Sys = Sys(
    cap: nat,
    history: seq<Line>,
    lines: seq<Line>,
    open: set<nat>,
    subs: seq<Sub>,
    busy: map<nat, Delivery>)

  function Init(cap: nat): Sys {
    Sys(cap, [], [], {}, [], map[])
  }

  datatype Step =
    | Push(who: nat, text: string, order: seq<nat>)
    | Offer(who: nat)
    | AppendReturns(who: nat)
    | Subscribe
    | TakeSnapshot(id: nat)
    | Receive(id: nat)
    | Cancel(id: nat)

  predicate Distinct(ids: seq<nat>) {
    forall i, k | 0 <= i < k < |ids| :: ids[i] != ids[k]
  }

  predicate Enabled(s: Sys, step: Step) {
    match step
    case Push(who, _, order) => who !in s.busy && Distinct(order) && (set id <- order) == s.open
    case Offer(who) => who in s.busy && s.busy[who].rest != [] && s.busy[who].rest[0] < |s.subs|
    case AppendReturns(who) => who in s.busy && s.busy[who].rest == []
    case Subscribe => true
    case TakeSnapshot(id) => id < |s.subs| && s.subs[id].snapshot.None?
    case Receive(id) => id < |s.subs| && s.subs[id].snapshot.Some? && s.subs[id].chan.queue != []
    case Cancel(id) => id < |s.subs|
  }

  function Apply(s: Sys, step: Step): Sys
    requires Enabled(s, step)
  {
    match step
    case Push(who, text, order) =>
      var line := Line(|s.history|, who, text);
      s.(history := s.history + [line], lines := RingPush(s.cap, s.lines, line),
         busy := s.busy[who := Delivery(line, order)])
    case Offer(who) =>
      var d := s.busy[who];
      s.(subs := s.subs[d.rest[0] := Offered(s.subs[d.rest[0]], d.line)],
         busy := s.busy[who := Delivery(d.line, d.rest[1..])])
    case AppendReturns(who) => s.(busy := s.busy - {who})
    case Subscribe =>
      s.(subs := s.subs + [Sub(Chan([], false), |s.history|, None, 0, [], [], [], 0)], open := s.open + {|s.subs|})
    case TakeSnapshot(id) =>
      s.(subs := s.subs[id := s.subs[id].(snapshot := Some(s.lines), snapAt := |s.history|)])
    case Receive(id) =>
      var q := s.subs[id].chan.queue;
      s.(subs := s.subs[id := s.subs[id].(chan := s.subs[id].chan.(queue := q[1..]),
                                         received := s.subs[id].received + [q[0]])])
    case Cancel(id) =>
      if id in s.open then
        s.(open := s.open - {id},
           subs := s.subs[id := s.subs[id].(chan := s.subs[id].chan.(closed := true), closes := s.subs[id].closes + 1)])
      else s
  }

  // One non-blocking send, with what became of the line.
  function Offered(sub: Sub, line: Line): Sub {
    if sub.chan.closed then sub
    else if |sub.chan.queue| < CHANNEL_CAPACITY then
      sub.(chan := SafeSend(sub.chan, line), entered := sub.entered + [line])
    else
      sub.(chan := SafeSend(sub.chan, line), drops := sub.drops + [Drop(line.pos, |sub.chan.queue|)])
  }

  predicate Valid(s: Sys, steps: seq<Step>)
    decreases |steps|
  {
    steps == [] || (Enabled(s, steps[0]) && Valid(Apply(s, steps[0]), steps[1..]))
  }

  function Exec(s: Sys, steps: seq<Step>): Sys
    requires Valid(s, steps)
    decreases |steps|
  {
    if steps == [] then s else Exec(Apply(s, steps[0]), steps[1..])
  }

  // ---------------------------------------------------------------- what happened, read off the steps

  // The lines these steps append to a history of `n` lines.
  function Pushed(n: nat, steps: seq<Step>): seq<Line>
    decreases |steps|
  {
    if steps == [] then []
    else if steps[0].Push? then [Line(n, steps[0].who, steps[0].text)] + Pushed(n + 1, steps[1..])
    else Pushed(n, steps[1..])
  }

  function Count(step: Step, steps: seq<Step>): nat
    decreases |steps|
  {
    if steps == [] then 0 else (if steps[0] == step then 1 else 0) + Count(step, steps[1..])
  }

  // Somebody who has pushed a line and not returned from that Append.
  predicate Appending(who: nat, already: bool, steps: seq<Step>)
    decreases |steps|
  {
    if steps == [] then already
    else Appending(who, if steps[0].Push? && steps[0].who == who then true
                        else if steps[0] == AppendReturns(who) then false else already, steps[1..])
  }

  function TakenBy(s: Sys, id: nat): nat {
    if id < |s.subs| then |s.subs[id].received| else 0
  }

  lemma StepTells(s: Sys, step: Step, who: nat, id: nat)
    requires Enabled(s, step)
    ensures var e := Apply(s, step);
      && e.history == s.history + (if step.Push? then [Line(|s.history|, step.who, step.text)] else [])
      && |e.subs| == |s.subs| + (if step == Subscribe then 1 else 0)
      && (who in e.busy <==> (step.Push? && step.who == who) || (who in s.busy && step != AppendReturns(who)))
      && TakenBy(e, id) == TakenBy(s, id) + (if step == Receive(id) then 1 else 0)
  {
  }

  lemma {:induction false} HistoryIsPushed(s: Sys, steps: seq<Step>)
    requires Valid(s, steps)
    ensures Exec(s, steps).history == s.history + Pushed(|s.history|, steps)
    decreases |steps|
  {
    hide Apply, Enabled, TakenBy;
    if steps == [] {
    } else {
      StepTells(s, steps[0], 0, 0);
      HistoryIsPushed(Apply(s, steps[0]), steps[1..]);
    }
  }

  lemma {:induction false} CountsTell(s: Sys, steps: seq<Step>, id: nat)
    requires Valid(s, steps)
    ensures |Exec(s, steps).subs| == |s.subs| + Count(Subscribe, steps)
    ensures TakenBy(Exec(s, steps), id) == TakenBy(s, id) + Count(Receive(id), steps)
    decreases |steps|
  {
    hide Apply, Enabled, TakenBy;
    if steps == [] {
    } else {
      StepTells(s, steps[0], 0, id);
      CountsTell(Apply(s, steps[0]), steps[1..], id);
    }
  }

  lemma {:induction false} BusyTells(s: Sys, steps: seq<Step>, who: nat)
    requires Valid(s, steps)
    ensures who in Exec(s, steps).busy <==> Appending(who, who in s.busy, steps)
    decreases |steps|
  {
    hide Apply, Enabled, TakenBy;
    if steps == [] {
    } else {
      StepTells(s, steps[0], who, 0);
      BusyTells(Apply(s, steps[0]), steps[1..], who);
    }
  }

  /**
    The history is the lines pushed, in the order of the pushes; an Append is under way from its push
    to its return; every subscriber's run and every line taken from a channel is a step of its own.
  */
  lemma BehaviourIs(cap: nat, steps: seq<Step>, who: nat, id: nat)
    requires Valid(Init(cap), steps)
    ensures var e := Exec(Init(cap), steps);
      && e.history == Pushed(0, steps)
      && |e.subs| == Count(Subscribe, steps)
      && (who in e.busy <==> Appending(who, false, steps))
      && (id < |e.subs| ==> |e.subs[id].received| == Count(Receive(id), steps))
  {
    HistoryIsPushed(Init(cap), steps);
    CountsTell(Init(cap), steps, id);
    BusyTells(Init(cap), steps, who);
  }

  // ---------------------------------------------------------------- invariant

  predicate RingOk(s: Sys) {
    && s.lines == Last(s.cap, s.history)
    && (forall p | 0 <= p < |s.history| :: s.history[p].pos == p)
  }

  predicate Recorded(history: seq<Line>, line: Line) {
    line.pos < |history| && history[line.pos] == line
  }

  // In the order in which each single appender appended them.
  predicate InAppenderOrder(entered: seq<Line>) {
    forall i, k | 0 <= i < k < |entered| && entered[i].who == entered[k].who :: entered[i].pos < entered[k].pos
  }

  predicate SubOk(cap: nat, history: seq<Line>, sub: Sub) {
    && sub.base <= |history|
    && (sub.snapshot.Some? ==>
          sub.base <= sub.snapAt <= |history| && sub.snapshot.value == Last(cap, history[..sub.snapAt]))
    && sub.entered == sub.received + sub.chan.queue
    && |sub.chan.queue| <= CHANNEL_CAPACITY
    && sub.closes == (if sub.chan.closed then 1 else 0)
    && (forall line <- sub.entered :: Recorded(history, line) && sub.base <= line.pos)
    && InAppenderOrder(sub.entered)
    && (forall d <- sub.drops :: d.waiting == CHANNEL_CAPACITY)
  }

  predicate SubsOk(s: Sys) {
    && (forall sub <- s.subs :: SubOk(s.cap, s.history, sub))
    && (forall id <- s.open :: id < |s.subs|)
    && (forall id | 0 <= id < |s.subs| :: id in s.open <==> !s.subs[id].chan.closed)
  }

  // What a delivery may still do to one channel keeps the channel in order.
  predicate MayFollow(sub: Sub, line: Line) {
    sub.base <= line.pos && forall e <- sub.entered | e.who == line.who :: e.pos < line.pos
  }

  predicate DeliveryOk(s: Sys, who: nat, d: Delivery) {
    && d.line.who == who && Recorded(s.history, d.line)
    && Distinct(d.rest)
    && (forall id <- d.rest :: id < |s.subs| && MayFollow(s.subs[id], d.line))
  }

  predicate DeliveriesOk(s: Sys) {
    forall who <- s.busy :: DeliveryOk(s, who, s.busy[who])
  }

  predicate Entered(sub: Sub, p: nat) {
    exists line <- sub.entered :: line.pos == p
  }

  predicate Dropped(sub: Sub, p: nat) {
    exists d <- sub.drops :: d.pos == p
  }

  predicate InFlight(s: Sys, id: nat, p: nat) {
    exists who <- s.busy :: s.busy[who].line.pos == p && id in s.busy[who].rest
  }

  // The line at place `p` has not slipped past subscriber `id`.
  predicate Covered(s: Sys, id: nat, p: nat)
    requires id < |s.subs|
  {
    Entered(s.subs[id], p) || Dropped(s.subs[id], p) || InFlight(s, id, p)
  }

  predicate AllCovered(s: Sys) {
    forall id, p | 0 <= id < |s.subs| && !s.subs[id].chan.closed && s.subs[id].base <= p < |s.history| :: Covered(s, id, p)
  }

  predicate Inv(s: Sys) {
    s.cap >= 1 && RingOk(s) && SubsOk(s) && DeliveriesOk(s) && AllCovered(s)
  }

  lemma SubOkGrows(cap: nat, history: seq<Line>, line: Line, sub: Sub)
    requires SubOk(cap, history, sub)
    ensures SubOk(cap, history + [line], sub)
  {
    if sub.snapshot.Some? {
      assert (history + [line])[..sub.snapAt] == history[..sub.snapAt];
    }
  }

  lemma PushKeeps(s: Sys, step: Step)
    requires Inv(s) && Enabled(s, step) && step.Push?
    ensures Inv(Apply(s, step))
  {
    var s' := Apply(s, step);
    var line := Line(|s.history|, step.who, step.text);
    RingIsLast(s.cap, s.history, line);
    forall sub | sub in s'.subs ensures SubOk(s.cap, s'.history, sub) {
      SubOkGrows(s.cap, s.history, line, sub);
    }
    forall who | who in s'.busy ensures DeliveryOk(s', who, s'.busy[who]) {
      if who == step.who {
        forall id | id in step.order ensures id < |s.subs| && MayFollow(s.subs[id], line) {
          assert id in s.open;
          assert SubOk(s.cap, s.history, s.subs[id]);
        }
      } else {
        assert DeliveryOk(s, who, s.busy[who]);
      }
    }
    forall id, p | 0 <= id < |s'.subs| && !s'.subs[id].chan.closed && s'.subs[id].base <= p < |s'.history|
      ensures Covered(s', id, p)
    {
      if p == |s.history| {
        assert id in s.open;
        assert step.who in s'.busy && id in s'.busy[step.who].rest;
      } else {
        assert Covered(s, id, p);
        if InFlight(s, id, p) {
          var who :| who in s.busy && s.busy[who].line.pos == p && id in s.busy[who].rest;
          assert s'.busy[who] == s.busy[who];
        }
      }
    }
  }

  lemma OfferedOk(cap: nat, history: seq<Line>, sub: Sub, line: Line)
    requires SubOk(cap, history, sub) && Recorded(history, line) && MayFollow(sub, line)
    ensures SubOk(cap, history, Offered(sub, line))
  {
    var sub' := Offered(sub, line);
    assert sub'.entered == sub'.received + sub'.chan.queue;
  }

  lemma OfferKeepsCover(s: Sys, who: nat, id: nat, p: nat)
    requires Inv(s) && Enabled(s, Offer(who))
    requires id < |s.subs| && Covered(s, id, p) && !Apply(s, Offer(who)).subs[id].chan.closed
    ensures Covered(Apply(s, Offer(who)), id, p)
  {
    var s' := Apply(s, Offer(who));
    var d := s.busy[who];
    var sub, sub' := s.subs[id], s'.subs[id];
    if Entered(sub, p) {
      var line :| line in sub.entered && line.pos == p;
      assert line in sub'.entered;
    } else if Dropped(sub, p) {
      var drop :| drop in sub.drops && drop.pos == p;
      assert drop in sub'.drops;
    } else {
      var a :| a in s.busy && s.busy[a].line.pos == p && id in s.busy[a].rest;
      if a == who && id == d.rest[0] {
        assert d.line in sub'.entered || Drop(p, |sub.chan.queue|) in sub'.drops;
      } else {
        assert id in s'.busy[a].rest;
      }
    }
  }

  lemma OfferKeeps(s: Sys, who: nat)
    requires Inv(s) && Enabled(s, Offer(who))
    ensures Inv(Apply(s, Offer(who)))
  {
    var s' := Apply(s, Offer(who));
    var d := s.busy[who];
    var target := d.rest[0];
    assert DeliveryOk(s, who, d);
    OfferedOk(s.cap, s.history, s.subs[target], d.line);
    forall a | a in s'.busy ensures DeliveryOk(s', a, s'.busy[a]) {
      assert DeliveryOk(s, a, s.busy[a]);
      forall id | id in s'.busy[a].rest ensures id < |s'.subs| && MayFollow(s'.subs[id], s'.busy[a].line) {
        assert id in s.busy[a].rest;
        if id == target {
          assert a != who;
        }
      }
    }
    forall id, p | 0 <= id < |s'.subs| && !s'.subs[id].chan.closed && s'.subs[id].base <= p < |s'.history|
      ensures Covered(s', id, p)
    {
      OfferKeepsCover(s, who, id, p);
    }
  }

  lemma HandlerKeeps(s: Sys, step: Step)
    requires Inv(s) && Enabled(s, step)
    requires step.TakeSnapshot? || step.Receive? || step.Cancel?
    ensures Inv(Apply(s, step))
  {
    var s' := Apply(s, step);
    var id := step.id;
    assert SubOk(s.cap, s.history, s.subs[id]);
    assert s.history[..|s.history|] == s.history;
    var sub, sub' := s.subs[id], s'.subs[id];
    assert sub'.entered == sub'.received + sub'.chan.queue;
    forall a | a in s'.busy ensures DeliveryOk(s', a, s'.busy[a]) {
      assert DeliveryOk(s, a, s.busy[a]);
    }
    forall i, p | 0 <= i < |s'.subs| && !s'.subs[i].chan.closed && s'.subs[i].base <= p < |s'.history|
      ensures Covered(s', i, p)
    {
      assert Covered(s, i, p);
    }
  }

  lemma OtherKeeps(s: Sys, step: Step)
    requires Inv(s) && Enabled(s, step)
    requires step.AppendReturns? || step.Subscribe?
    ensures Inv(Apply(s, step))
  {
    var s' := Apply(s, step);
    forall a | a in s'.busy ensures DeliveryOk(s', a, s'.busy[a]) {
      assert DeliveryOk(s, a, s.busy[a]);
    }
    forall id, p | 0 <= id < |s'.subs| && !s'.subs[id].chan.closed && s'.subs[id].base <= p < |s'.history|
      ensures Covered(s', id, p)
    {
      assert Covered(s, id, p);
      if InFlight(s, id, p) {
        var a :| a in s.busy && s.busy[a].line.pos == p && id in s.busy[a].rest;
        assert a in s'.busy && s'.busy[a] == s.busy[a];
      }
    }
  }

  lemma InvStep(s: Sys, step: Step)
    requires Inv(s) && Enabled(s, step)
    ensures Inv(Apply(s, step))
  {
    match step
    case Push(_, _, _) => PushKeeps(s, step);
    case Offer(who) => OfferKeeps(s, who);
    case AppendReturns(_) => OtherKeeps(s, step);
    case Subscribe => OtherKeeps(s, step);
    case TakeSnapshot(_) => HandlerKeeps(s, step);
    case Receive(_) => HandlerKeeps(s, step);
    case Cancel(_) => HandlerKeeps(s, step);
  }

  lemma {:induction false} InvAlways(s: Sys, steps: seq<Step>)
    requires Inv(s) && Valid(s, steps)
    ensures Inv(Exec(s, steps))
    decreases |steps|
  {
    if steps == [] {
    } else {
      InvStep(s, steps[0]);
      InvAlways(Apply(s, steps[0]), steps[1..]);
    }
  }

  // ---------------------------------------------------------------- main results

  lemma InitHolds(cap: nat)
    requires cap >= 1
    ensures Inv(Init(cap))
  {
  }

  /** The ring is the last `cap` lines of the lock-ordered history, whoever appended them. */
  lemma RingIsTail(cap: nat, steps: seq<Step>)
    requires cap >= 1 && Valid(Init(cap), steps)
    ensures var e := Exec(Init(cap), steps); e.lines == Last(cap, e.history)
  {
    CapIsFixed(Init(cap), steps);
    InitHolds(cap);
    InvAlways(Init(cap), steps);
  }

  lemma {:induction false} CapIsFixed(s: Sys, steps: seq<Step>)
    requires Valid(s, steps)
    ensures Exec(s, steps).cap == s.cap
    decreases |steps|
  {
    if steps == [] {
    } else {
      CapIsFixed(Apply(s, steps[0]), steps[1..]);
    }
  }

  /**
    The handover has no gap: from the first line of the snapshot onwards, every line is in the
    snapshot, has entered the channel, is still in flight in some Append, or was dropped while the
    channel held 256 waiting lines.
  */
  lemma HandoverIsGapFree(cap: nat, steps: seq<Step>, id: nat, p: nat)
    requires cap >= 1 && Valid(Init(cap), steps)
    requires var e := Exec(Init(cap), steps);
      && id < |e.subs| && e.subs[id].snapshot.Some? && !e.subs[id].chan.closed
      && e.subs[id].snapAt - |e.subs[id].snapshot.value| <= p < |e.history|
    ensures var e := Exec(Init(cap), steps);
      var sub := e.subs[id];
      || e.history[p] in sub.snapshot.value
      || e.history[p] in sub.entered
      || InFlight(e, id, p)
      || Drop(p, 256) in sub.drops
  {
    InitHolds(cap);
    InvAlways(Init(cap), steps);
    var e := Exec(Init(cap), steps);
    var sub := e.subs[id];
    assert SubOk(e.cap, e.history, sub);
    var snap := sub.snapshot.value;
    if p < sub.snapAt {
      assert snap[p - (sub.snapAt - |snap|)] == e.history[p];
    } else {
      assert Covered(e, id, p);
      if Entered(sub, p) {
        var line :| line in sub.entered && line.pos == p;
        assert Recorded(e.history, line);
      }
    }
  }

  /**
    Whatever a subscriber receives are lines that were appended since it subscribed, and the lines of
    one appender come in the order in which it appended them, none twice.
  */
  lemma ReceivedInAppenderOrder(cap: nat, steps: seq<Step>, id: nat)
    requires cap >= 1 && Valid(Init(cap), steps) && id < |Exec(Init(cap), steps).subs|
    ensures var e := Exec(Init(cap), steps);
      var got := e.subs[id].received;
      && (forall line <- got :: Recorded(e.history, line) && e.subs[id].base <= line.pos)
      && (forall i, k | 0 <= i < k < |got| && got[i].who == got[k].who :: got[i].pos < got[k].pos)
      && (forall i, k | 0 <= i < k < |got| :: got[i] != got[k])
  {
    InitHolds(cap);
    InvAlways(Init(cap), steps);
    var e := Exec(Init(cap), steps);
    var sub := e.subs[id];
    assert SubOk(e.cap, e.history, sub);
    assert forall i | 0 <= i < |sub.received| :: sub.received[i] == sub.entered[i];
  }

  /** A line is shown twice only if it was appended between the subscription and the snapshot. */
  lemma OnlyOverlapIsRepeated(cap: nat, steps: seq<Step>, id: nat, line: Line)
    requires cap >= 1 && Valid(Init(cap), steps) && id < |Exec(Init(cap), steps).subs|
    requires var sub := Exec(Init(cap), steps).subs[id];
      sub.snapshot.Some? && line in sub.snapshot.value && line in sub.received
    ensures var sub := Exec(Init(cap), steps).subs[id];
      sub.base <= line.pos < sub.snapAt
  {
    InitHolds(cap);
    InvAlways(Init(cap), steps);
    var e := Exec(Init(cap), steps);
    var sub := e.subs[id];
    assert SubOk(e.cap, e.history, sub);
    assert line in sub.entered;
    var i :| 0 <= i < |sub.snapshot.value| && sub.snapshot.value[i] == line;
    assert line == e.history[sub.snapAt - |sub.snapshot.value| + i];
  }

  /** Channels are closed at most once, and exactly when their id has left the map. */
  lemma ClosedAtMostOnce(cap: nat, steps: seq<Step>, id: nat)
    requires cap >= 1 && Valid(Init(cap), steps) && id < |Exec(Init(cap), steps).subs|
    ensures var e := Exec(Init(cap), steps);
      e.subs[id].closes <= 1 && (e.subs[id].closes == 1 <==> id !in e.open)
  {
    InitHolds(cap);
    InvAlways(Init(cap), steps);
    var e := Exec(Init(cap), steps);
    assert SubOk(e.cap, e.history, e.subs[id]);
  }

  // What no later step may change about a subscriber.
  predicate SameSubscriber(sub: Sub, sub': Sub) {
    && sub'.base == sub.base
    && sub.entered <= sub'.entered
    && (sub.snapshot.Some? ==> sub'.snapshot == sub.snapshot)
    && (sub.chan.closed ==> sub'.chan.closed && sub'.entered == sub.entered && sub'.drops == sub.drops)
  }

  lemma SameSubscriberStep(s: Sys, step: Step, id: nat)
    requires Inv(s) && Enabled(s, step) && id < |s.subs|
    ensures id < |Apply(s, step).subs| && SameSubscriber(s.subs[id], Apply(s, step).subs[id])
    ensures !s.subs[id].chan.closed && Apply(s, step).subs[id].chan.closed ==> step == Cancel(id)
  {
  }

  /**
    Ids are never reused: an id stays with its subscriber, only that subscriber's own cancel can
    close its channel, and after the close nothing enters it.
  */
  lemma {:induction false} SubscriberIsStable(s: Sys, steps: seq<Step>, id: nat)
    requires Inv(s) && Valid(s, steps) && id < |s.subs|
    ensures id < |Exec(s, steps).subs| && SameSubscriber(s.subs[id], Exec(s, steps).subs[id])
    ensures !s.subs[id].chan.closed && Exec(s, steps).subs[id].chan.closed ==> Cancel(id) in steps
    decreases |steps|
  {
    if steps == [] {
    } else {
      InvStep(s, steps[0]);
      SameSubscriberStep(s, steps[0], id);
      SubscriberIsStable(Apply(s, steps[0]), steps[1..], id);
    }
  }
}
