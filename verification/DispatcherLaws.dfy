/** What the dispatcher promises: batches mean their frames, barriers report errors exactly once,
    and a whole run puts the commands' messages on the wire in channel order. */
module DispatcherLaws {
  import opened Bytes
  import opened Frames
  import opened Messages
  import opened Sessions
  import opened SessionLaws
  import opened Dispatchers
  import C = Coalesce
  import L = CoalesceLaws

  // Batches ------------------------------------------------------------------------------

  function Singles(items: seq<Item>): (r: seq<Cmd>)
    ensures |r| == |items|
    ensures forall i :: 0 <= i < |r| ==> r[i] == Single(items[i])
  {
    seq(|items|, i requires 0 <= i < |items| => Single(items[i]))
  }

  /** On any transport, a fixed batch of any length leaves the dispatcher exactly where its frames
      sent one by one would, failing frames included. */
  lemma {:induction false} FixedBatchIsOneAtATime(e: C.Env, d: Dispatcher, items: seq<Item>)
    requires !d.stopped
    ensures Dispatch(e, d, FixedBatch(items)) == DispatchAll(e, d, Singles(items))
    decreases |items|
  {
    hide Perform;
    if items != [] {
      var d1 := Dispatch(e, d, Single(items[0]));
      assert Singles(items)[1..] == Singles(items[1..]);
      FixedBatchIsOneAtATime(e, d1, items[1..]);
    }
  }

  /** The senders' shortcut: a batch of one frame, of any kind, is the single-frame command. */
  lemma BatchOfOneIsSingle(e: C.Env, d: Dispatcher, it: Item, frame: PadFrame, payload: Payload)
    requires !d.stopped
    ensures Dispatch(e, d, FixedBatch([it])) == Dispatch(e, d, Single(it))
    ensures Dispatch(e, d, FrameBatch([frame])) == Dispatch(e, d, Single(PadDeduped(frame)))
    ensures Dispatch(e, d, FrameBatchUnchecked([frame])) == Dispatch(e, d, Single(PadUnchecked(frame)))
    ensures Dispatch(e, d, PackedBatch([payload])) == Dispatch(e, d, Single(PadPacked(payload)))
  {
    hide Perform, SetFrameRawBatch, SetPackedBatch, SetFrameRawBatchUnchecked;
    var items := [it];
    assert items[1..] == [];
    var (s1, r) := Perform(e, d.session, it);
    assert PerformEach(e, s1, items[1..]) == (s1, []) && ErrorsIn(r) + [] == ErrorsIn(r);
    OneDeduped(e, d.session, frame);
    OnePacked(e, d.session, payload);
    OneUnchecked(e, d.session, frame);
  }

  lemma OneDeduped(e: C.Env, s: Session, frame: PadFrame)
    ensures var (s1, r1) := SetFrameRawBatch(e, s, [frame]);
            var (s2, r2) := Perform(e, s, PadDeduped(frame));
            s1 == s2 && ErrorsIn(r1) == ErrorsIn(r2)
  {
    hide C.Push, C.PushEncoded, FullState;
    var one := [frame];
    assert one[1..] == [];
    if PadReady(s.dev).Ok? {
      var (slot, report) := FullState(PadReady(s.dev).value.slot, frame);
      if report.Some? {
        var staged: seq<Payload> := [] + [report.value];
        assert staged == [report.value];
        assert DedupeFrom(e, s.writer, PadReady(s.dev).value.slot, [], 0, one)
            == DedupeFrom(e, s.writer, slot, staged, 1, one[1..]);
        assert InputMessages(HID_ID_GAMEPAD, staged) == [InputMessage(HID_ID_GAMEPAD, report.value)];
        GamepadPushIsPush(e, s.writer, report.value);
      } else {
        assert DedupeFrom(e, s.writer, PadReady(s.dev).value.slot, [], 0, one)
            == DedupeFrom(e, s.writer, slot, [], 0, one[1..]);
      }
    }
  }

  lemma OnePacked(e: C.Env, s: Session, payload: Payload)
    ensures var (s1, r1) := SetPackedBatch(e, s, [payload]);
            var (s2, r2) := Perform(e, s, PadPacked(payload));
            s1 == s2 && ErrorsIn(r1) == ErrorsIn(r2)
  {
    hide C.Push, C.PushEncoded;
    GamepadPushIsPush(e, s.writer, payload);
  }

  lemma OneUnchecked(e: C.Env, s: Session, frame: PadFrame)
    ensures var (s1, r1) := SetFrameRawBatchUnchecked(e, s, [frame]);
            var (s2, r2) := Perform(e, s, PadUnchecked(frame));
            s1 == s2 && ErrorsIn(r1) == ErrorsIn(r2)
  {
    hide Pack, SetPackedBatch, C.Push;
    assert PackAll([frame]) == [Pack(frame)];
    OnePacked(e, s, Pack(frame));
  }

  // The error ledger ---------------------------------------------------------------------

  /** What happens to the ledger: an error is recorded, or a barrier flushes and reports. */
  datatype Event = Fault(error: Error) | Barrier(ticket: nat, flushed: Result<nat>)

  predicate Failing(ev: Event) {
    ev.Fault? || ev.flushed.Err?
  }

  function ErrorOf(ev: Event): Error
    requires Failing(ev)
  {
    match ev
    case Fault(x) => x
    case Barrier(_, f) => f.error
  }

  function Faults(errors: seq<Error>): (r: seq<Event>)
    ensures |r| == |errors|
    ensures forall i :: 0 <= i < |r| ==> r[i] == Fault(errors[i])
  {
    seq(|errors|, i requires 0 <= i < |errors| => Fault(errors[i]))
  }

  function EventsOf(e: C.Env, s: Session, cmd: Cmd): seq<Event> {
    match cmd
    case FlushAck(ticket) => [Barrier(ticket, FlushSession(e, s).1)]
    case Close => []
    case _ => Faults(Execute(e, s, cmd).1)
  }

  function Log(e: C.Env, d: Dispatcher, cmds: seq<Cmd>): seq<Event>
    decreases |cmds|
  {
    if d.stopped || cmds == [] then []
    else EventsOf(e, d.session, cmds[0]) + Log(e, Dispatch(e, d, cmds[0]), cmds[1..])
  }

  /** The position of the error held just before event `i`: the first fault since the last barrier,
      or that barrier's own flush error if it was busy reporting an older one. */
  function Held(log: seq<Event>, i: nat): (h: Option<nat>)
    requires i <= |log|
    ensures h.Some? ==> h.value < i && Failing(log[h.value])
  {
    if i == 0 then None
    else
      var h := Held(log, i - 1);
      match log[i - 1]
      case Fault(_) => if h.Some? then h else Some(i - 1)
      case Barrier(_, f) => if h.Some? && f.Err? then Some(i - 1) else None
  }

  /** What the barrier at `i` answers. */
  function Reported(log: seq<Event>, i: nat): Result<nat>
    requires i < |log| && log[i].Barrier?
  {
    match Held(log, i)
    case Some(h) => Err(ErrorOf(log[h]))
    case None => log[i].flushed
  }

  /** Where a reported error came from. */
  function Source(log: seq<Event>, i: nat): (p: nat)
    requires i < |log| && log[i].Barrier? && Reported(log, i).Err?
    ensures p <= i && Failing(log[p]) && Reported(log, i) == Err(ErrorOf(log[p]))
  {
    match Held(log, i)
    case Some(h) => h
    case None => i
  }

  function Answers(log: seq<Event>, n: nat): seq<Ack>
    requires n <= |log|
  {
    if n == 0 then []
    else if log[n - 1].Fault? then Answers(log, n - 1)
    else Answers(log, n - 1) + [Ack(log[n - 1].ticket, Reported(log, n - 1))]
  }

  function HeldError(log: seq<Event>): Option<Error> {
    match Held(log, |log|)
    case None => None
    case Some(h) => Some(ErrorOf(log[h]))
  }

  ghost predicate Matches(d: Dispatcher, log: seq<Event>) {
    d.pendingError == HeldError(log) && d.acks == Answers(log, |log|)
  }

  lemma {:induction false} HeldOfPrefix(log: seq<Event>, more: seq<Event>, i: nat)
    requires i <= |log|
    ensures Held(log + more, i) == Held(log, i)
  {
    if i > 0 {
      HeldOfPrefix(log, more, i - 1);
    }
  }

  lemma {:induction false} AnswersOfPrefix(log: seq<Event>, more: seq<Event>, n: nat)
    requires n <= |log|
    ensures Answers(log + more, n) == Answers(log, n)
  {
    if n > 0 {
      AnswersOfPrefix(log, more, n - 1);
      HeldOfPrefix(log, more, n - 1);
    }
  }

  lemma {:induction false} FaultsRecorded(d: Dispatcher, log: seq<Event>, errors: seq<Error>)
    requires Matches(d, log)
    ensures Matches(d.(pendingError := Record(d.pendingError, errors)), log + Faults(errors))
    decreases |errors|
  {
    if errors == [] {
      assert log + Faults(errors) == log;
    } else {
      var log1 := log + [Fault(errors[0])];
      HeldOfPrefix(log, [Fault(errors[0])], |log|);
      AnswersOfPrefix(log, [Fault(errors[0])], |log|);
      FaultsRecorded(d.(pendingError := Record(d.pendingError, [errors[0]])), log1, errors[1..]);
      assert log1 + Faults(errors[1..]) == log + Faults(errors);
    }
  }

  lemma DispatchMatches(e: C.Env, d: Dispatcher, log: seq<Event>, cmd: Cmd)
    requires Matches(d, log)
    ensures Matches(Dispatch(e, d, cmd), log + EventsOf(e, d.session, cmd))
  {
    hide Execute, FlushSession;
    var s := Execute(e, d.session, cmd).0;
    if cmd.Close? {
      assert log + [] == log;
    } else if cmd.FlushAck? {
      var ev := EventsOf(e, d.session, cmd);
      HeldOfPrefix(log, ev, |log|);
      AnswersOfPrefix(log, ev, |log|);
    } else {
      FaultsRecorded(d, log, Execute(e, d.session, cmd).1);
    }
  }

  lemma {:induction false} LogMatches(e: C.Env, d: Dispatcher, log: seq<Event>, cmds: seq<Cmd>)
    requires Matches(d, log)
    ensures Matches(DispatchAll(e, d, cmds), log + Log(e, d, cmds))
    decreases |cmds|
  {
    hide Dispatch, EventsOf, Matches;
    if d.stopped || cmds == [] {
      assert log + [] == log;
    } else {
      var ev := EventsOf(e, d.session, cmds[0]);
      DispatchMatches(e, d, log, cmds[0]);
      LogMatches(e, Dispatch(e, d, cmds[0]), log + ev, cmds[1..]);
      assert log + ev + Log(e, Dispatch(e, d, cmds[0]), cmds[1..]) == log + Log(e, d, cmds);
    }
  }

  /** For every run on every transport, the barriers' answers are the ledger's, in order, and one
      for each barrier before the first Close. */
  lemma AnswersAreTheLedgers(e: C.Env, s: Session, cmds: seq<Cmd>)
    ensures var log := Log(e, Start(s), cmds);
            DispatchAll(e, Start(s), cmds).acks == Answers(log, |log|)
  {
    LogMatches(e, Start(s), [], cmds);
    var log := Log(e, Start(s), cmds);
    assert [] + log == log;
  }

  predicate BarrierFree(log: seq<Event>, from: nat, to: nat)
    requires from <= to <= |log|
  {
    forall k :: from <= k < to ==> log[k].Fault?
  }

  /** A barrier answers with the error kept back by the previous barrier, if there is one, else with
      the first fault since then (or since the session began), else with its own flush. */
  lemma FirstErrorSincePreviousBarrier(log: seq<Event>, previous: Option<nat>, i: nat)
    requires i < |log| && log[i].Barrier?
    requires previous.Some? ==> previous.value < i && log[previous.value].Barrier?
    requires BarrierFree(log, if previous.Some? then previous.value + 1 else 0, i)
    ensures var from := if previous.Some? then previous.value + 1 else 0;
            Reported(log, i) ==
            if previous.Some? && Held(log, previous.value).Some? && log[previous.value].flushed.Err? then
              Err(log[previous.value].flushed.error)
            else if from < i then Err(log[from].error)
            else log[i].flushed
  {
    if previous.Some? {
      HeldBetween(log, previous.value, i);
    } else {
      HeldFromStart(log, i);
    }
  }

  lemma {:induction false} HeldFromStart(log: seq<Event>, i: nat)
    requires i <= |log| && BarrierFree(log, 0, i)
    ensures Held(log, i) == if i > 0 then Some(0) else None
    decreases i
  {
    if i > 0 {
      HeldFromStart(log, i - 1);
    }
  }

  lemma {:induction false} HeldBetween(log: seq<Event>, p: nat, i: nat)
    requires p < i <= |log| && log[p].Barrier? && BarrierFree(log, p + 1, i)
    ensures Held(log, i) ==
            if Held(log, p).Some? && log[p].flushed.Err? then Some(p)
            else if p + 1 < i then Some(p + 1)
            else None
    decreases i
  {
    if p + 1 < i {
      HeldBetween(log, p, i - 1);
    }
  }

  lemma {:induction false} HeldIsRecent(log: seq<Event>, i: nat, j: nat)
    requires i < j <= |log| && log[i].Barrier?
    ensures Held(log, j).Some? ==> Held(log, j).value >= i
    ensures Held(log, j).Some? && Held(log, j).value == i ==> Held(log, i).Some?
    decreases j
  {
    if i + 1 < j {
      HeldIsRecent(log, i, j - 1);
    }
  }

  /** No error is reported twice: later barriers report errors that happened later. */
  lemma ErrorsAreReportedOnce(log: seq<Event>, i: nat, j: nat)
    requires i < j < |log| && log[i].Barrier? && log[j].Barrier?
    requires Reported(log, i).Err? && Reported(log, j).Err?
    ensures Source(log, i) < Source(log, j)
  {
    HeldIsRecent(log, i, j);
  }

  /** Every command of the list succeeds, in order. */
  predicate Clean(e: C.Env, d: Dispatcher, cmds: seq<Cmd>)
    decreases |cmds|
  {
    cmds == [] || (Execute(e, d.session, cmds[0]).1 == [] && Clean(e, Dispatch(e, d, cmds[0]), cmds[1..]))
  }

  predicate Plainly(cmds: seq<Cmd>) {
    forall i :: 0 <= i < |cmds| ==> !cmds[i].FlushAck? && !cmds[i].Close?
  }

  /** On any transport, a barrier answers Ok if and only if no error was pending, every command
      since the previous barrier succeeded and its own flush did; nothing is then left in the
      buffer or pending. */
  lemma {:induction false} BarrierOkIff(e: C.Env, d: Dispatcher, cmds: seq<Cmd>, ticket: nat)
    requires !d.stopped && Plainly(cmds)
    ensures var before := DispatchAll(e, d, cmds);
            var d' := DispatchAll(e, d, cmds + [FlushAck(ticket)]);
            && |d'.acks| == |d.acks| + 1 && d'.acks[..|d.acks|] == d.acks && d'.acks[|d.acks|].ticket == ticket
            && (d'.acks[|d.acks|].result.Ok? <==>
                  d.pendingError == None && Clean(e, d, cmds) && FlushSession(e, before.session).1.Ok?)
            && (d'.acks[|d.acks|].result.Ok? ==> d'.session.writer.pending == [] && d'.pendingError == None)
    decreases |cmds|
  {
    var all := cmds + [FlushAck(ticket)];
    if cmds == [] {
      assert all[1..] == [];
    } else {
      hide Execute, FlushSession;
      assert all[1..] == cmds[1..] + [FlushAck(ticket)];
      BarrierOkIff(e, Dispatch(e, d, cmds[0]), cmds[1..], ticket);
    }
  }

  /** A Close is final: whatever is queued behind it changes nothing, so a barrier there is never
      answered. */
  lemma {:induction false} NothingRunsBehindClose(e: C.Env, d: Dispatcher, before: seq<Cmd>, behind: seq<Cmd>)
    ensures DispatchAll(e, d, before + [Close] + behind) == DispatchAll(e, d, before + [Close])
    ensures DispatchAll(e, d, before + [Close]).stopped
    ensures Plainly(before) ==> DispatchAll(e, d, before + [Close] + behind).acks == d.acks
    decreases |before|
  {
    hide Execute, FlushSession;
    var all, short := before + [Close] + behind, before + [Close];
    if d.stopped {
    } else if before == [] {
      assert all[0] == short[0] == Close;
    } else {
      assert all[0] == short[0] == before[0];
      assert all[1..] == before[1..] + [Close] + behind && short[1..] == before[1..] + [Close];
      NothingRunsBehindClose(e, Dispatch(e, d, before[0]), before[1..], behind);
    }
  }

  // Flush commands ---------------------------------------------------------------------------

  /** A flush of the buffer will fail: there is something to write, and its write or its transport
      flush will be refused. */
  predicate FlushIsRefused(e: C.Env, w: C.Writer) {
    w.pending != [] && !(e.writeOk(w.calls) && e.flushOk(w.calls + 1))
  }

  function RefusalOf(e: C.Env, w: C.Writer): Error {
    if e.writeOk(w.calls) then FlushFailed(w.calls + 1) else WriteFailed(w.calls)
  }

  /** The wire after a flush attempt: the buffered bytes are on it if their write was taken. */
  ghost predicate Flushed(e: C.Env, before: Session, after: Session) {
    && after.dev == before.dev
    && after.writer.wire == before.writer.wire + (if e.writeOk(before.writer.calls) then before.writer.pending else [])
    && after.writer.pending == if FlushIsRefused(e, before.writer) then before.writer.pending else []
  }

  /** On every transport a flush command puts the buffered bytes on the wire and records an error if
      and only if the buffer was not empty and its write or transport flush was refused. */
  lemma FlushCommandRecordsIff(e: C.Env, d: Dispatcher)
    ensures var d' := Dispatch(e, d, Flush);
            && Flushed(e, d.session, d'.session) && d'.acks == d.acks && d'.stopped == d.stopped
            && d'.pendingError ==
               if d.pendingError == None && FlushIsRefused(e, d.session.writer)
               then Some(RefusalOf(e, d.session.writer)) else d.pendingError
  {
    var w := d.session.writer;
    assert w.wire + [] == w.wire;
  }

  /** A barrier flushes in the same way, always answers, and leaves an error pending exactly if its own
      flush was refused while it had an older one to report. */
  lemma BarrierFlushesAndAnswers(e: C.Env, d: Dispatcher, ticket: nat)
    ensures var d' := Dispatch(e, d, FlushAck(ticket));
            var refused := FlushIsRefused(e, d.session.writer);
            && Flushed(e, d.session, d'.session)
            && d'.acks == d.acks + [Ack(ticket,
                 if d.pendingError.Some? then Err(d.pendingError.value)
                 else if refused then Err(RefusalOf(e, d.session.writer))
                 else Ok(|d.session.writer.pending|))]
            && d'.pendingError == if d.pendingError.Some? && refused then Some(RefusalOf(e, d.session.writer)) else None
  {
    var w := d.session.writer;
    assert w.wire + [] == w.wire;
  }

  /** The transport comes back exactly from a closed session whose last flush succeeds, with everything
      that was on the wire or buffered. */
  lemma JoinRecoversIff(e: C.Env, s: Session)
    ensures Join(e, s) ==
            if s.dev.closed && !FlushIsRefused(e, s.writer) then Recovered(s.writer.Stream()) else Panicked
  {
    assert s.writer.wire + [] == s.writer.wire;
  }

  // Whole runs on a reliable transport ------------------------------------------------------

  function ItemsOf(cmd: Cmd): seq<Item> {
    match cmd
    case Single(it) => [it]
    case FixedBatch(items) => items
    case FrameBatch(frames) => DedupedItems(frames)
    case FrameBatchUnchecked(frames) => UncheckedItems(frames)
    case PackedBatch(payloads) => PackedItems(payloads)
    case _ => []
  }

  /** A command's ideal: a batch is its items, one after the other. */
  function IdealCmd(d: Devices, cmd: Cmd): Outcome {
    match cmd
    case Text(text, strict) => IdealScript(d, TypeText(text, strict))
    case Tap(scancode, mods) => IdealScript(d, KeyTap(scancode, mods))
    case AndroidTap(k, m) => IdealScript(d, AndroidKeyTap(k, m))
    case SetScreenSize(w, h) => Outcome(d.(screenW := w, screenH := h), [], [])
    case Flush => Outcome(d, [], [])
    case FlushAck(_) => Outcome(d, [], [])
    case Close => Outcome(Closed(d), Destroys(d), [])
    case _ => IdealEach(d, ItemsOf(cmd))
  }

  lemma OneItem(d: Devices, it: Item)
    ensures IdealEach(d, [it]) == Ideal(d, it)
  {
    var o := Ideal(d, it);
    var one := [it];
    assert one[1..] == [];
    assert o.msgs + [] == o.msgs && o.errors + [] == o.errors;
  }

  lemma {:induction false} PerformEachDoes(e: C.Env, s: Session, items: seq<Item>)
    requires C.Reliable(e) && s.writer.Valid()
    ensures var (s', errors) := PerformEach(e, s, items); var o := IdealEach(s.dev, items);
            Did(s, s', o) && errors == o.errors
    decreases |items|
  {
    hide Perform, Ideal, SerializeAll;
    if items == [] {
      SerializeAllNone();
    } else {
      var (s1, r) := Perform(e, s, items[0]);
      PerformDoes(e, s, items[0]);
      PerformEachDoes(e, s1, items[1..]);
      DidThenDid(s, s1, PerformEach(e, s1, items[1..]).0, Ideal(s.dev, items[0]),
                 IdealEach(s1.dev, items[1..]), IdealEach(s.dev, items));
    }
  }

  lemma FlushDoes(e: C.Env, s: Session)
    requires C.Reliable(e) && s.writer.Valid()
    ensures var (s', r) := FlushSession(e, s);
            r.Ok? && Did(s, s', Outcome(s.dev, [], [])) && s'.writer.pending == []
  {
    SerializeAllNone();
    L.FlushNowGrows(e, s.writer);
  }

  lemma ExecuteDoes(e: C.Env, s: Session, cmd: Cmd)
    requires C.Reliable(e) && s.writer.Valid()
    ensures var (s', errors) := Execute(e, s, cmd); var o := IdealCmd(s.dev, cmd);
            && Did(s, s', o)
            && errors == (if cmd.FixedBatch? then o.errors else FirstError(o.errors))
  {
    hide Perform, Ideal, SerializeAll, CloseAll, SetFrameRawBatch, SetPackedBatch, FlushSession, RunScript, PerformEach,
         IdealEach, IdealScript, SetFrameRawBatchUnchecked;
    match cmd
    case Single(it) =>
      PerformDoes(e, s, it);
      OneItem(s.dev, it);
    case FixedBatch(items) => PerformEachDoes(e, s, items);
    case FrameBatch(frames) => FrameBatchDoes(e, s, frames);
    case FrameBatchUnchecked(frames) => UncheckedBatchDoes(e, s, frames);
    case PackedBatch(payloads) => PackedBatchDoes(e, s, payloads);
    case Text(text, strict) => RunScriptDoes(e, s, TypeText(text, strict));
    case Tap(scancode, mods) => RunScriptDoes(e, s, KeyTap(scancode, mods));
    case AndroidTap(k, m) => RunScriptDoes(e, s, AndroidKeyTap(k, m));
    case SetScreenSize(w, h) => SerializeAllNone();
    case Flush => FlushDoes(e, s);
    case FlushAck(_) => FlushDoes(e, s);
    case Close => CloseDoes(e, s);
  }

  /** Commands in channel order up to and including the first Close. */
  function IdealRun(d: Devices, cmds: seq<Cmd>): Outcome
    decreases |cmds|
  {
    if cmds == [] then Outcome(d, [], [])
    else
      var o := IdealCmd(d, cmds[0]);
      if cmds[0].Close? then o
      else
        var rest := IdealRun(o.dev, cmds[1..]);
        Outcome(rest.dev, o.msgs + rest.msgs, o.errors + rest.errors)
  }

  predicate Closes(cmds: seq<Cmd>) {
    exists i :: 0 <= i < |cmds| && cmds[i].Close?
  }

  lemma {:induction false} DispatchAllDoes(e: C.Env, d: Dispatcher, cmds: seq<Cmd>)
    requires C.Reliable(e) && d.session.writer.Valid() && !d.stopped
    ensures var d' := DispatchAll(e, d, cmds);
            Did(d.session, d'.session, IdealRun(d.session.dev, cmds)) && (d'.stopped <==> Closes(cmds))
    decreases |cmds|
  {
    hide Execute, IdealCmd, SerializeAll;
    if cmds == [] {
      SerializeAllNone();
    } else {
      ExecuteDoes(e, d.session, cmds[0]);
      var d1 := Dispatch(e, d, cmds[0]);
      if cmds[0].Close? {
        assert d1.stopped;
      } else {
        DispatchAllDoes(e, d1, cmds[1..]);
        DidThenDid(d.session, d1.session, DispatchAll(e, d1, cmds[1..]).session, IdealCmd(d.session.dev, cmds[0]),
                   IdealRun(d1.session.dev, cmds[1..]), IdealRun(d.session.dev, cmds));
        assert Closes(cmds[1..]) ==> Closes(cmds) by {
          if i :| 0 <= i < |cmds[1..]| && cmds[1..][i].Close? { assert cmds[i + 1].Close?; }
        }
        assert Closes(cmds) ==> Closes(cmds[1..]) by {
          if i :| 0 <= i < |cmds| && cmds[i].Close? { assert cmds[1..][i - 1].Close?; }
        }
      }
    }
  }

  /** Everything a run sends: creates, the commands' messages, destroys. */
  function Trace(q: OpenRequest, cmds: seq<Cmd>): seq<Msg> {
    var o := IdealRun(Opened(q), cmds);
    Creates(q) + o.msgs + Destroys(o.dev)
  }

  /** A whole session on a reliable transport: the transport comes back holding exactly the trace,
      whether a Close or a disconnected channel ended it. */
  lemma WholeRun(e: C.Env, q: OpenRequest, cmds: seq<Cmd>)
    requires C.Reliable(e)
    ensures DispatcherThread(e, Open(e, q).0, cmds) == Recovered(SerializeAll(Trace(q, cmds)))
  {
    hide Open, CloseAll, SerializeAll, Creates, Opened, IdealRun, DispatchAll, Destroys, C.IntoInner;
    OpenDoes(e, q);
    var s := Open(e, q).0;
    DispatchAllDoes(e, Start(s), cmds);
    var d := DispatchAll(e, Start(s), cmds);
    var o := IdealRun(Opened(q), cmds);
    CloseDoes(e, d.session);
    if d.stopped {
      ClosedAfterClose(Opened(q), cmds);
      DestroysNone(o.dev);
    }
    var last := if d.stopped then d.session else CloseAll(e, d.session).0;
    SerializeAllNone();
    SerializeAllAppend(Creates(q), o.msgs);
    SerializeAllAppend(Creates(q) + o.msgs, Destroys(o.dev));
    assert last.writer.Stream() == SerializeAll(Trace(q, cmds)) && last.dev.closed;
    L.ReliableIntoInner(e, last.writer);
  }

  lemma DestroysNone(d: Devices)
    ensures d.closed ==> Destroys(d) == []
    ensures Closed(d).closed
  {
  }

  lemma {:induction false} ClosedAfterClose(d: Devices, cmds: seq<Cmd>)
    requires Closes(cmds)
    ensures IdealRun(d, cmds).dev.closed
    decreases |cmds|
  {
    hide IdealEach, IdealScript;
    if cmds[0].Close? {
    } else {
      var i :| 0 <= i < |cmds| && cmds[i].Close?;
      assert cmds[1..][i - 1].Close?;
      ClosedAfterClose(IdealCmd(d, cmds[0]).dev, cmds[1..]);
    }
  }
}
