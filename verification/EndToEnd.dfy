/** Producers, channel and dispatcher together (src/client.rs): every interleaving of any number of
    producers, each with its own batcher, over one FIFO command channel. */
module EndToEnd {
  import opened Bytes
  import opened Messages
  import opened Sessions
  import opened SessionLaws
  import opened Dispatchers
  import opened DispatcherLaws
  import B = Batchers
  import BL = BatcherLaws
  import W = WireGrowth
  import C = Coalesce

  /** A command, the producer that sent it, and whether it came out of its batcher. */
  datatype Tagged = Tagged(producer: nat, batched: bool, cmd: Cmd)

  /** A producer: its batcher, everything it has handed to the batcher, and, while it sits in
      flush_wait, the barrier it waits for. */
  datatype Producer = Producer(batcher: B.Batcher<Item>, accepted: seq<Item>, waiting: Option<nat>)

  datatype System = System(
    producers: seq<Producer>,
    sent: seq<Tagged>,       // all commands the channel has taken, oldest first
    received: nat,           // how many of them the dispatcher has processed
    dispatcher: Dispatcher)

  /** `Micro`: one step of a batcher call; `SendOther`: any command sent directly; `FlushWait`:
      enqueue a barrier and block; `Return`: the barrier was answered. */
  datatype Step =
    | Micro(p: nat, micro: BL.Micro<Item>)
    | SendOther(sender: nat, cmd: Cmd)
    | FlushWait(waiter: nat, ticket: nat)
    | Return(returning: nat)
    | Dispatch

  /** The command for a batch: the gamepad batchers have their own, the others a fixed batch. */
  function CommandOf(s: B.Sent<Item>): Cmd {
    match s
    case One(it) => Single(it)
    case Batch(items) =>
      if forall i :: 0 <= i < |items| ==> items[i].PadDeduped? then
        FrameBatch(seq(|items|, i requires 0 <= i < |items| && items[i].PadDeduped? => items[i].frame))
      else if forall i :: 0 <= i < |items| ==> items[i].PadUnchecked? then
        FrameBatchUnchecked(seq(|items|, i requires 0 <= i < |items| && items[i].PadUnchecked? => items[i].raw))
      else if forall i :: 0 <= i < |items| ==> items[i].PadPacked? then
        PackedBatch(seq(|items|, i requires 0 <= i < |items| && items[i].PadPacked? => items[i].payload))
      else FixedBatch(items)
  }

  lemma CommandCarriesItsItems(s: B.Sent<Item>)
    ensures ItemsOf(CommandOf(s)) == B.FramesOf(s) && !CommandOf(s).FlushAck?
  {
  }

  function Cmds(sent: seq<Tagged>): (r: seq<Cmd>)
    ensures |r| == |sent|
    ensures forall i :: 0 <= i < |r| ==> r[i] == sent[i].cmd
  {
    seq(|sent|, i requires 0 <= i < |sent| => sent[i].cmd)
  }

  predicate Answered(d: Dispatcher, ticket: nat) {
    exists i :: 0 <= i < |d.acks| && d.acks[i].ticket == ticket
  }

  predicate TicketUsed(sent: seq<Tagged>, ticket: nat) {
    exists i :: 0 <= i < |sent| && sent[i].cmd == FlushAck(ticket)
  }

  /** A producer blocked in flush_wait takes no other step. */
  predicate Enabled(s: System, st: Step) {
    match st
    case Micro(p, _) => p < |s.producers| && s.producers[p].waiting == None
    case SendOther(p, cmd) =>
      && p < |s.producers| && s.producers[p].waiting == None
      && !cmd.FlushAck?
    case FlushWait(p, ticket) =>
      p < |s.producers| && s.producers[p].waiting == None && !TicketUsed(s.sent, ticket)
    case Return(p) =>
      p < |s.producers| && s.producers[p].waiting.Some? && Answered(s.dispatcher, s.producers[p].waiting.value)
    case Dispatch => s.received < |s.sent| && !s.dispatcher.stopped
  }

  function After(e: C.Env, s: System, st: Step): System
    requires Enabled(s, st)
  {
    match st
    case Micro(p, m) =>
      var pr := s.producers[p];
      var b := BL.MicroStep(pr.batcher, m);
      var pr' := Producer(b, pr.accepted + BL.TakenBy(m), None);
      var added := if |b.sent| > |pr.batcher.sent| then [Tagged(p, true, CommandOf(b.sent[|b.sent| - 1]))] else [];
      s.(producers := s.producers[p := pr'], sent := s.sent + added)
    case SendOther(p, cmd) => s.(sent := s.sent + [Tagged(p, false, cmd)])
    case FlushWait(p, ticket) =>
      s.(producers := s.producers[p := s.producers[p].(waiting := Some(ticket))],
         sent := s.sent + [Tagged(p, false, FlushAck(ticket))])
    case Return(p) => s.(producers := s.producers[p := s.producers[p].(waiting := None)])
    case Dispatch =>
      s.(received := s.received + 1, dispatcher := Dispatchers.Dispatch(e, s.dispatcher, s.sent[s.received].cmd))
  }

  ghost predicate Runs(e: C.Env, s: System, steps: seq<Step>)
    decreases |steps|
  {
    steps == [] || (Enabled(s, steps[0]) && Runs(e, After(e, s, steps[0]), steps[1..]))
  }

  function Final(e: C.Env, s: System, steps: seq<Step>): System
    requires Runs(e, s, steps)
    decreases |steps|
  {
    if steps == [] then s else Final(e, After(e, s, steps[0]), steps[1..])
  }

  /** Any number of producers with any batchers, on a freshly opened session. */
  ghost predicate Initial(e: C.Env, q: OpenRequest, s: System) {
    && (forall p :: 0 <= p < |s.producers| ==>
          && s.producers[p].batcher.buffer == [] && s.producers[p].batcher.sent == []
          && s.producers[p].accepted == [] && s.producers[p].waiting == None)
    && s.sent == [] && s.received == 0
    && s.dispatcher == Start(Open(e, q).0)
  }

  // The invariant ------------------------------------------------------------------------

  function BatchedBy(t: Tagged, p: nat): seq<Item> {
    if t.producer == p && t.batched then ItemsOf(t.cmd) else []
  }

  /** The frames producer `p`'s batcher has put on the channel, in channel order. */
  function ItemsBy(sent: seq<Tagged>, p: nat): seq<Item> {
    if sent == [] then []
    else
      var last := sent[|sent| - 1];
      ItemsBy(sent[..|sent| - 1], p) + BatchedBy(last, p)
  }

  /** A waiting producer's barrier is on the channel, behind all its frames. */
  ghost predicate BarrierSent(s: System, p: nat)
    requires p < |s.producers|
  {
    var pr := s.producers[p];
    pr.waiting.Some? ==> exists i :: BarrierAt(s.sent, p, pr.waiting.value, i)
  }

  ghost predicate BarrierAt(sent: seq<Tagged>, p: nat, ticket: nat, i: nat) {
    && i < |sent| && sent[i] == Tagged(p, false, FlushAck(ticket))
    && ItemsBy(sent[..i], p) == ItemsBy(sent, p)
  }

  ghost predicate Inv(e: C.Env, s0: Session, s: System) {
    && s.received <= |s.sent|
    && s.dispatcher == DispatchAll(e, Start(s0), Cmds(s.sent[..s.received]))
    && (forall p :: 0 <= p < |s.producers| ==>
          && ItemsBy(s.sent, p) + s.producers[p].batcher.buffer == s.producers[p].accepted
          && BarrierSent(s, p))
    && TicketsUnique(s.sent)
  }

  ghost predicate TicketsUnique(sent: seq<Tagged>) {
    forall i, j :: 0 <= i < |sent| && 0 <= j < |sent| && sent[i].cmd.FlushAck? && sent[i].cmd == sent[j].cmd ==> i == j
  }

  lemma ItemsBySnoc(sent: seq<Tagged>, t: Tagged, p: nat)
    ensures ItemsBy(sent + [t], p) == ItemsBy(sent, p) + BatchedBy(t, p)
  {
    var all := sent + [t];
    assert all[..|all| - 1] == sent;
  }

  lemma {:induction false} DispatchAllSnoc(e: C.Env, d: Dispatcher, cmds: seq<Cmd>, cmd: Cmd)
    ensures DispatchAll(e, d, cmds + [cmd]) ==
            (var d1 := DispatchAll(e, d, cmds); if d1.stopped then d1 else Dispatchers.Dispatch(e, d1, cmd))
    decreases |cmds|
  {
    hide Dispatchers.Dispatch;
    var all := cmds + [cmd];
    if cmds == [] {
      assert all[1..] == [];
    } else if !d.stopped {
      assert all[1..] == cmds[1..] + [cmd];
      DispatchAllSnoc(e, Dispatchers.Dispatch(e, d, cmds[0]), cmds[1..], cmd);
    }
  }

  /** A command that carries none of `p`'s frames leaves its barrier in place. */
  lemma BarrierStays(sent: seq<Tagged>, t: Tagged, p: nat, ticket: nat, i: nat)
    requires BarrierAt(sent, p, ticket, i) && BatchedBy(t, p) == []
    ensures BarrierAt(sent + [t], p, ticket, i)
  {
    ItemsBySnoc(sent, t, p);
    assert (sent + [t])[..i] == sent[..i];
  }

  /** A micro-step keeps one producer's part of the invariant. */
  lemma MicroKeepsProducer(e: C.Env, s: System, st: Step, p: nat)
    requires Enabled(s, st) && st.Micro? && p < |s.producers|
    requires ItemsBy(s.sent, p) + s.producers[p].batcher.buffer == s.producers[p].accepted && BarrierSent(s, p)
    ensures var s' := After(e, s, st);
            && ItemsBy(s'.sent, p) + s'.producers[p].batcher.buffer == s'.producers[p].accepted
            && BarrierSent(s', p)
  {
    hide CommandOf, ItemsOf, ItemsBy;
    var s' := After(e, s, st);
    var b, b' := s.producers[st.p].batcher, s'.producers[st.p].batcher;
    if s'.sent != s.sent {
      var t := Tagged(st.p, true, CommandOf(B.CommandFor(b)));
      assert s'.sent == s.sent + [t];
      CommandCarriesItsItems(B.CommandFor(b));
      ItemsBySnoc(s.sent, t, p);
      if p != st.p && s.producers[p].waiting.Some? {
        var i :| BarrierAt(s.sent, p, s.producers[p].waiting.value, i);
        BarrierStays(s.sent, t, p, s.producers[p].waiting.value, i);
      }
    } else if p == st.p {
      assert b'.buffer == b.buffer + BL.TakenBy(st.micro);
      assert ItemsBy(s.sent, p) + b.buffer + BL.TakenBy(st.micro)
          == ItemsBy(s.sent, p) + (b.buffer + BL.TakenBy(st.micro));
    }
  }

  lemma MicroKeepsInv(e: C.Env, s0: Session, s: System, st: Step)
    requires Inv(e, s0, s) && Enabled(s, st) && st.Micro?
    ensures Inv(e, s0, After(e, s, st))
  {
    hide DispatchAll, CommandOf, ItemsOf, ItemsBy, BarrierSent;
    var s' := After(e, s, st);
    assert s'.sent[..s.received] == s.sent[..s.received];
    forall p | 0 <= p < |s.producers|
      ensures ItemsBy(s'.sent, p) + s'.producers[p].batcher.buffer == s'.producers[p].accepted
      ensures BarrierSent(s', p)
    {
      MicroKeepsProducer(e, s, st, p);
    }
    if s'.sent != s.sent {
      CommandCarriesItsItems(B.CommandFor(s.producers[st.p].batcher));
    }
  }

  lemma SendKeepsInv(e: C.Env, s0: Session, s: System, st: Step)
    requires Inv(e, s0, s) && Enabled(s, st) && (st.SendOther? || st.FlushWait?)
    ensures Inv(e, s0, After(e, s, st))
  {
    hide DispatchAll, ItemsOf, BL.MicroStep, ItemsBy, Cmds;
    var s' := After(e, s, st);
    var t := s'.sent[|s.sent|];
    assert s'.sent == s.sent + [t] && s'.sent[..s.received] == s.sent[..s.received];
    forall p | 0 <= p < |s.producers|
      ensures ItemsBy(s'.sent, p) + s'.producers[p].batcher.buffer == s'.producers[p].accepted
      ensures BarrierSent(s', p)
    {
      ItemsBySnoc(s.sent, t, p);
      if s.producers[p].waiting.Some? {
        var i :| BarrierAt(s.sent, p, s.producers[p].waiting.value, i);
        BarrierStays(s.sent, t, p, s.producers[p].waiting.value, i);
      } else if st.FlushWait? && st.waiter == p {
        assert s'.sent[..|s.sent|] == s.sent;
        assert BarrierAt(s'.sent, p, st.ticket, |s.sent|);
      }
    }
  }

  lemma StepKeepsInv(e: C.Env, s0: Session, s: System, st: Step)
    requires Inv(e, s0, s) && Enabled(s, st)
    ensures Inv(e, s0, After(e, s, st))
  {
    var s' := After(e, s, st);
    match st
    case Micro(_, _) => MicroKeepsInv(e, s0, s, st);
    case SendOther(_, _) => SendKeepsInv(e, s0, s, st);
    case FlushWait(_, _) => SendKeepsInv(e, s0, s, st);
    case Return(_) =>
    case Dispatch =>
      hide DispatchAll, Dispatchers.Dispatch;
      var done := Cmds(s.sent[..s.received]);
      assert Cmds(s.sent[..s'.received]) == done + [s.sent[s.received].cmd];
      DispatchAllSnoc(e, Start(s0), done, s.sent[s.received].cmd);
  }

  lemma {:induction false} RunKeepsInv(e: C.Env, s0: Session, s: System, steps: seq<Step>)
    requires Inv(e, s0, s) && Runs(e, s, steps)
    ensures Inv(e, s0, Final(e, s, steps))
    decreases |steps|
  {
    hide Inv, Enabled, After;
    if steps != [] {
      StepKeepsInv(e, s0, s, steps[0]);
      RunKeepsInv(e, s0, After(e, s, steps[0]), steps[1..]);
    }
  }

  lemma InitialInv(e: C.Env, q: OpenRequest, s: System)
    requires Initial(e, q, s)
    ensures Inv(e, Open(e, q).0, s)
  {
    hide Open;
  }

  // Answers ------------------------------------------------------------------------------

  /** On every transport an answer, Ok or not, comes only from a processed barrier. */
  lemma {:induction false} AnswersComeFromBarriers(e: C.Env, d: Dispatcher, cmds: seq<Cmd>, ticket: nat)
    returns (n: nat)
    requires Answered(DispatchAll(e, d, cmds), ticket) && !Answered(d, ticket)
    ensures n < |cmds| && cmds[n] == FlushAck(ticket)
    ensures Answered(DispatchAll(e, d, cmds[..n + 1]), ticket)
    decreases |cmds|
  {
    hide Execute, FlushSession, Answer;
    var d1 := Dispatchers.Dispatch(e, d, cmds[0]);
    assert cmds[..1][0] == cmds[0] && cmds[..1][1..] == [];
    if Answered(d1, ticket) {
      n := 0;
      NewAnswerIsTheBarriers(e, d, cmds[0], ticket);
    } else {
      var k := AnswersComeFromBarriers(e, d1, cmds[1..], ticket);
      n := k + 1;
      assert cmds[..n + 1][1..] == cmds[1..][..k + 1] && cmds[..n + 1][0] == cmds[0];
    }
  }

  lemma NoBarrierNoAnswer(e: C.Env, d: Dispatcher, cmds: seq<Cmd>, ticket: nat)
    requires !Answered(d, ticket) && forall j :: 0 <= j < |cmds| ==> cmds[j] != FlushAck(ticket)
    ensures !Answered(DispatchAll(e, d, cmds), ticket)
  {
    if Answered(DispatchAll(e, d, cmds), ticket) {
      var j := AnswersComeFromBarriers(e, d, cmds, ticket);
      assert false;
    }
  }

  lemma NewAnswerIsTheBarriers(e: C.Env, d: Dispatcher, cmd: Cmd, ticket: nat)
    requires Answered(Dispatchers.Dispatch(e, d, cmd), ticket) && !Answered(d, ticket)
    ensures cmd == FlushAck(ticket)
  {
    hide Execute, FlushSession, Answer;
    var d1 := Dispatchers.Dispatch(e, d, cmd);
    assert |d1.acks| >= |d.acks| && d1.acks[..|d.acks|] == d.acks;
    assert forall k :: 0 <= k < |d.acks| ==> d1.acks[k] == d.acks[k];
  }

  /** What the wire holds once the dispatcher has processed `cmds` of a session opened for `q`. */
  function Serialized(q: OpenRequest, cmds: seq<Cmd>): seq<byte> {
    SerializeAll(Creates(q) + IdealRun(Opened(q), cmds).msgs)
  }

  lemma StreamIsSerialized(e: C.Env, q: OpenRequest, cmds: seq<Cmd>)
    requires C.Reliable(e)
    ensures var d := DispatchAll(e, Start(Open(e, q).0), cmds);
            d.session.writer.Valid() && d.session.writer.Stream() == Serialized(q, cmds)
  {
    hide Open, SerializeAll, Creates, Opened, IdealRun, DispatchAll;
    OpenDoes(e, q);
    DispatchAllDoes(e, Start(Open(e, q).0), cmds);
    SerializeAllAppend(Creates(q), IdealRun(Opened(q), cmds).msgs);
  }

  /** On a reliable transport a flush command behind any commands but a Close leaves nothing buffered:
      the wire is exactly their serialization. */
  lemma FlushCommandDelivers(e: C.Env, q: OpenRequest, cmds: seq<Cmd>)
    requires C.Reliable(e) && !Closes(cmds)
    ensures var w := DispatchAll(e, Start(Open(e, q).0), cmds + [Flush]).session.writer;
            w.pending == [] && w.wire == Serialized(q, cmds)
  {
    hide Open, DispatchAll, Serialized, Dispatchers.Dispatch;
    var d := DispatchAll(e, Start(Open(e, q).0), cmds);
    DispatchAllSnoc(e, Start(Open(e, q).0), cmds, Flush);
    StreamIsSerialized(e, q, cmds);
    OpenDoes(e, q);
    DispatchAllDoes(e, Start(Open(e, q).0), cmds);
    FlushCommandRecordsIff(e, d);
  }

  /** Right after a processed barrier nothing is buffered. */
  lemma BarrierEmptiesTheBuffer(e: C.Env, q: OpenRequest, cmds: seq<Cmd>, ticket: nat)
    requires C.Reliable(e) && Answered(DispatchAll(e, Start(Open(e, q).0), cmds + [FlushAck(ticket)]), ticket)
    requires !Answered(DispatchAll(e, Start(Open(e, q).0), cmds), ticket)
    ensures DispatchAll(e, Start(Open(e, q).0), cmds + [FlushAck(ticket)]).session.writer.pending == []
  {
    hide Open, DispatchAll, FlushSession, Serialized, Answer;
    var d := DispatchAll(e, Start(Open(e, q).0), cmds);
    DispatchAllSnoc(e, Start(Open(e, q).0), cmds, FlushAck(ticket));
    StreamIsSerialized(e, q, cmds);
    FlushDoes(e, d.session);
  }

  lemma {:induction false} DispatchAllSplit(e: C.Env, d: Dispatcher, a: seq<Cmd>, b: seq<Cmd>)
    ensures DispatchAll(e, d, a + b) == DispatchAll(e, DispatchAll(e, d, a), b)
    decreases |a|
  {
    hide Dispatchers.Dispatch;
    if a == [] {
      assert a + b == b;
    } else if !d.stopped {
      assert (a + b)[0] == a[0] && (a + b)[1..] == a[1..] + b;
      DispatchAllSplit(e, Dispatchers.Dispatch(e, d, a[0]), a[1..], b);
    }
  }

  /** On every transport, what is on the wire stays there. */
  lemma WireOnlyGrows(e: C.Env, d: Dispatcher, a: seq<Cmd>, b: seq<Cmd>)
    ensures DispatchAll(e, d, a).session.writer.wire <= DispatchAll(e, d, a + b).session.writer.wire
  {
    hide DispatchAll;
    DispatchAllSplit(e, d, a, b);
    W.DispatchAllExtends(e, DispatchAll(e, d, a), b);
  }

  // Batcher calls are runs ---------------------------------------------------------------

  function MicroSteps(p: nat, ms: seq<BL.Micro<Item>>): (r: seq<Step>)
    ensures |r| == |ms|
  {
    if ms == [] then [] else [Micro(p, ms[0])] + MicroSteps(p, ms[1..])
  }

  lemma AfterMicro(e: C.Env, s: System, p: nat, m: BL.Micro<Item>)
    requires p < |s.producers| && s.producers[p].waiting == None
    ensures Enabled(s, Micro(p, m))
    ensures var s' := After(e, s, Micro(p, m)); var pr := s.producers[p];
            && |s'.producers| == |s.producers| && s'.dispatcher == s.dispatcher
            && s'.producers[p] == Producer(BL.MicroStep(pr.batcher, m), pr.accepted + BL.TakenBy(m), None)
  {
  }

  lemma {:induction false} MicrosRun(e: C.Env, s: System, p: nat, ms: seq<BL.Micro<Item>>)
    requires p < |s.producers| && s.producers[p].waiting == None
    ensures Runs(e, s, MicroSteps(p, ms))
    ensures var f := Final(e, s, MicroSteps(p, ms));
            && p < |f.producers| && f.producers[p].batcher == BL.MicroRun(s.producers[p].batcher, ms)
            && f.producers[p].accepted == s.producers[p].accepted + BL.Taken(ms)
            && f.dispatcher == s.dispatcher
    decreases |ms|
  {
    hide BL.MicroStep, CommandOf, After, Enabled, BL.TakenBy, ItemsOf;
    if ms == [] {
      assert s.producers[p].accepted + [] == s.producers[p].accepted;
    } else {
      AfterMicro(e, s, p, ms[0]);
      var s1 := After(e, s, Micro(p, ms[0]));
      var steps := MicroSteps(p, ms);
      assert steps[0] == Micro(p, ms[0]) && steps[1..] == MicroSteps(p, ms[1..]);
      MicrosRun(e, s1, p, ms[1..]);
      assert s.producers[p].accepted + BL.TakenBy(ms[0]) + BL.Taken(ms[1..])
          == s.producers[p].accepted + BL.Taken(ms);
    }
  }

  /** Every batcher call, whatever the channel answers, is a run of the system's steps, so the
      theorem below covers every interleaving of such calls. */
  lemma CallIsARun(e: C.Env, s: System, p: nat, net: nat -> B.Answer, op: B.Op<Item>) returns (steps: seq<Step>, k: nat)
    requires p < |s.producers| && s.producers[p].waiting == None
    ensures Runs(e, s, steps) && p < |Final(e, s, steps).producers|
    ensures Final(e, s, steps).producers[p].batcher == B.Apply(net, s.producers[p].batcher, op).0
    ensures k <= |B.Given(op)| && (B.Apply(net, s.producers[p].batcher, op).1.Ok? ==> k == |B.Given(op)|)
    ensures Final(e, s, steps).producers[p].accepted == s.producers[p].accepted + B.Given(op)[..k]
  {
    hide B.Apply, BL.MicroRun, Runs, Final;
    var ms;
    ms, k := BL.ApplyIsMicros(net, s.producers[p].batcher, op);
    steps := MicroSteps(p, ms);
    MicrosRun(e, s, p, ms);
  }

  // The theorem --------------------------------------------------------------------------

  /** For any number of producers, any interleaving and any buffering, on a reliable transport:
      when producer `p` has flushed its batcher and its flush_wait is answered, Ok or with an
      earlier command's error, some `n` commands, ending with its barrier, have been dispatched
      such that

      - the wire begins with exactly their serialization, in channel order (and holds nothing else
        if nothing was dispatched since), the screen size being the one in force at each command;
      - the frames `p` has among them are exactly the frames it pushed, in push order, each once. */
  lemma FlushWaitDelivers(e: C.Env, q: OpenRequest, s: System, steps: seq<Step>, p: nat, ticket: nat) returns (n: nat)
    requires C.Reliable(e) && Initial(e, q, s) && Runs(e, s, steps)
    requires p < |Final(e, s, steps).producers|
    requires var f := Final(e, s, steps);
             && f.producers[p].batcher.buffer == [] && f.producers[p].waiting == Some(ticket)
             && Answered(f.dispatcher, ticket)
    ensures var f := Final(e, s, steps);
            && 0 < n <= f.received <= |f.sent|
            && f.sent[n - 1] == Tagged(p, false, FlushAck(ticket))
            && Serialized(q, Cmds(f.sent[..n])) <= f.dispatcher.session.writer.wire
            && (n == f.received ==> Serialized(q, Cmds(f.sent[..n])) == f.dispatcher.session.writer.wire)
            && ItemsBy(f.sent[..n], p) == f.producers[p].accepted
  {
    hide Runs, Final, Open, DispatchAll, Serialized, After, Enabled;
    var s0 := Open(e, q).0;
    InitialInv(e, q, s);
    RunKeepsInv(e, s0, s, steps);
    var f := Final(e, s, steps);
    var cmds := Cmds(f.sent[..f.received]);
    NothingAnsweredAtStart(s0, ticket);
    var k := AnswersComeFromBarriers(e, Start(s0), cmds, ticket);
    n := k + 1;
    var i := TheBarrier(f, p, ticket, k);
    SameTicketsEarlier(f.sent, f.received, ticket, k);
    WireAtBarrier(e, q, cmds, ticket, k);
    assert Cmds(f.sent[..n]) == cmds[..n];
    assert f.sent[..k] + [f.sent[k]] == f.sent[..n];

    ItemsBySnoc(f.sent[..k], f.sent[k], p);
    assert ItemsBy(f.sent, p) + [] == ItemsBy(f.sent, p);
  }

  lemma NothingAnsweredAtStart(s: Session, ticket: nat)
    ensures !Answered(Start(s), ticket)
  {
  }

  lemma TheBarrier(f: System, p: nat, ticket: nat, k: nat) returns (i: nat)
    requires p < |f.producers| && f.producers[p].waiting == Some(ticket) && BarrierSent(f, p)
    requires k < |f.sent| && f.sent[k].cmd == FlushAck(ticket) && TicketsUnique(f.sent)
    ensures i == k && BarrierAt(f.sent, p, ticket, k)
  {
    i :| BarrierAt(f.sent, p, ticket, i);
    assert f.sent[i].cmd == f.sent[k].cmd;
  }

  lemma SameTicketsEarlier(sent: seq<Tagged>, received: nat, ticket: nat, k: nat)
    requires TicketsUnique(sent) && k < received <= |sent| && sent[k].cmd == FlushAck(ticket)
    ensures forall j :: 0 <= j < k ==> Cmds(sent[..received])[j] != FlushAck(ticket)
  {
  }

  lemma WireAtBarrier(e: C.Env, q: OpenRequest, cmds: seq<Cmd>, ticket: nat, k: nat)
    requires C.Reliable(e) && k < |cmds| && cmds[k] == FlushAck(ticket)
    requires Answered(DispatchAll(e, Start(Open(e, q).0), cmds[..k + 1]), ticket)
    requires forall j :: 0 <= j < k ==> cmds[j] != FlushAck(ticket)
    ensures var wire := DispatchAll(e, Start(Open(e, q).0), cmds).session.writer.wire;
            && Serialized(q, cmds[..k + 1]) <= wire
            && (k + 1 == |cmds| ==> Serialized(q, cmds[..k + 1]) == wire)
  {
    hide Open, DispatchAll, Serialized;
    var done := cmds[..k + 1];
    assert done == cmds[..k] + [FlushAck(ticket)];
    NothingAnsweredAtStart(Open(e, q).0, ticket);
    NoBarrierNoAnswer(e, Start(Open(e, q).0), cmds[..k], ticket);
    BarrierEmptiesTheBuffer(e, q, cmds[..k], ticket);
    StreamIsSerialized(e, q, done);
    assert cmds == done + cmds[k + 1..];
    WireOnlyGrows(e, Start(Open(e, q).0), done, cmds[k + 1..]);
    var w := DispatchAll(e, Start(Open(e, q).0), done).session.writer;
    assert w.wire + [] == w.wire;
    if k + 1 == |cmds| {
      assert cmds == done;
    }
  }

  // The theorem applies ------------------------------------------------------------------

  predicate AnsweredOk(d: Dispatcher, ticket: nat) {
    exists i :: 0 <= i < |d.acks| && d.acks[i].ticket == ticket && d.acks[i].result.Ok?
  }

  lemma {:induction false} TouchesNeverFail(d: Devices, items: seq<Item>)
    requires forall i :: 0 <= i < |items| ==> items[i].Touch?
    ensures IdealEach(d, items).errors == [] && IdealEach(d, items).dev == d
    decreases |items|
  {
    if items != [] {
      TouchesNeverFail(d, items[1..]);
    }
  }

  lemma TouchCommand(items: seq<Item>)
    requires items != [] && forall i :: 0 <= i < |items| ==> items[i].Touch?
    ensures CommandOf(B.Batch(items)) == FixedBatch(items)
  {
    assert items[0].Touch?;
  }

  function OneProducer(s0: Session): System {
    System([Producer(B.New(B.TouchShape, 0), [], None)], [], 0, Start(s0))
  }

  function DeliverySteps(items: seq<Item>): seq<Step> {
    [Micro(0, BL.Take(items)), Micro(0, BL.Offer(true)), FlushWait(0, 7), Dispatch, Dispatch]
  }

  /** There are such runs: a producer takes up to a batch of touches into its batcher, flushes it,
      waits, and is answered Ok once both its commands are dispatched. */
  lemma DeliveryHappens(e: C.Env, q: OpenRequest, items: seq<Item>)
    requires C.Reliable(e) && 0 < |items| <= B.TOUCH_BATCH_FRAMES
    requires forall i :: 0 <= i < |items| ==> items[i].Touch?
    ensures var s := OneProducer(Open(e, q).0);
            && Initial(e, q, s) && Runs(e, s, DeliverySteps(items))
            && var f := Final(e, s, DeliverySteps(items));
               && |f.producers| == 1 && f.producers[0].accepted == items
               && f.producers[0].batcher.buffer == [] && f.producers[0].waiting == Some(7)
               && AnsweredOk(f.dispatcher, 7) && f.received == |f.sent|
  {
    hide Open, CommandOf, Dispatchers.Dispatch, AnsweredOk, Serialized;
    var s := OneProducer(Open(e, q).0);
    var steps := DeliverySteps(items);
    AfterMicro(e, s, 0, steps[0].micro);
    var s1 := After(e, s, steps[0]);
    assert [] + items == items && s1.producers[0].batcher.buffer == items && s1.sent == [];
    var s2 := After(e, s1, steps[1]);
    TouchCommand(items);
    assert s2.sent == [Tagged(0, true, FixedBatch(items))];
    var s3 := After(e, s2, steps[2]);
    assert s3.sent == s2.sent + [Tagged(0, false, FlushAck(7))];
    OpenDoes(e, q);
    TwoDispatches(e, s.dispatcher.session, items);
    var s4 := After(e, s3, steps[3]);
    var s5 := After(e, s4, steps[4]);
    FiveSteps(e, s, steps, s1, s2, s3, s4, s5);
  }

  lemma TwoDispatches(e: C.Env, s: Session, items: seq<Item>)
    requires C.Reliable(e) && s.writer.Valid() && forall i :: 0 <= i < |items| ==> items[i].Touch?
    ensures var d1 := Dispatchers.Dispatch(e, Start(s), FixedBatch(items));
            !d1.stopped && AnsweredOk(Dispatchers.Dispatch(e, d1, FlushAck(7)), 7)
  {
    hide Execute, FlushSession, IdealEach;
    ExecuteDoes(e, s, FixedBatch(items));
    TouchesNeverFail(s.dev, items);
    var d1 := Dispatchers.Dispatch(e, Start(s), FixedBatch(items));
    FlushDoes(e, d1.session);
    var d2 := Dispatchers.Dispatch(e, d1, FlushAck(7));
    assert d2.acks[0].ticket == 7 && d2.acks[0].result.Ok?;
  }

  lemma FiveSteps(e: C.Env, s: System, steps: seq<Step>, s1: System, s2: System, s3: System, s4: System, s5: System)
    requires |steps| == 5
    requires Enabled(s, steps[0]) && s1 == After(e, s, steps[0])
    requires Enabled(s1, steps[1]) && s2 == After(e, s1, steps[1])
    requires Enabled(s2, steps[2]) && s3 == After(e, s2, steps[2])
    requires Enabled(s3, steps[3]) && s4 == After(e, s3, steps[3])
    requires Enabled(s4, steps[4]) && s5 == After(e, s4, steps[4])
    ensures Runs(e, s, steps) && Final(e, s, steps) == s5
  {
    hide After, Enabled;
    var r1, r2, r3, r4 := steps[1..], steps[2..], steps[3..], steps[4..];
    assert r1[1..] == r2 && r2[1..] == r3 && r3[1..] == r4 && r4[1..] == [];
    assert Runs(e, s4, r4) && Final(e, s4, r4) == s5;
    assert Runs(e, s3, r3) && Final(e, s3, r3) == s5;
    assert Runs(e, s2, r2) && Final(e, s2, r2) == s5;
    assert Runs(e, s1, r1) && Final(e, s1, r1) == s5;
  }
}
