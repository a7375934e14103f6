/** The dispatcher thread's loops (src/client.rs), proved against Dispatchers. */
module DispatcherLoops {
  import opened Bytes
  import opened Frames
  import opened Messages
  import opened Sessions
  import opened Dispatchers
  import C = Coalesce
  import opened HidSessions

  class DispatcherLoop {
    const session: HidSession
    var pendingError: Option<Error>
    var acks: seq<Ack>

    function View(stopped: bool): Dispatcher
      reads this, session, session.writer
    {
      Dispatcher(session.View(), pendingError, acks, stopped)
    }

    function Env(): C.Env {
      session.writer.env
    }

    constructor (session: HidSession)
      ensures this.session == session
      ensures View(false) == Start(session.View())
    {
      this.session := session;
      pendingError, acks := None, [];
    }

    method RecordFirstError<T>(r: Result<T>)
      modifies this`pendingError
      ensures pendingError == Record(old(pendingError), ErrorsIn(r))
    {
      if pendingError == None && r.Err? {
        pendingError := Some(r.error);
      }
    }

    method PerformItem(item: Item) returns (r: Result<()>)
      modifies session, session.writer
      ensures (session.View(), r) == Perform(Env(), old(session.View()), item)
    {
      hide Perform;
      match item
      case KeyEdge(scancode, pressed, mods) => r := session.Key(scancode, pressed, mods);
      case MouseMotion(dx, dy, buttons) => r := session.Mouse(dx, dy, buttons);
      case MouseButtons(state) => r := session.MouseButtonState(state);
      case AndroidKey(a, k, n, m) => r := session.InjectKey(a, k, n, m);
      case Touch(a, id, x, y, p) => r := session.InjectTouchEvent(a, id, x, y, p);
      case Scroll(x, y, h, v, b) => r := session.InjectScrollEvent(x, y, h, v, b);
      case PadDeduped(f) => r := session.SetFrameRaw(f);
      case PadUnchecked(f) => r := session.SetFrameRawUnchecked(f);
      case PadPacked(p) => r := session.SetFrameRawPacked(p);
      case PadRawReport(report) => r := session.InjectRawReport(report);
      case Control(p) => r := session.SendControl(p);
    }

    /** A fixed batch: every frame is performed and the first error kept. */
    method PerformBatch(items: seq<Item>)
      modifies this`pendingError, session, session.writer
      ensures var (s, errors) := PerformEach(Env(), old(session.View()), items);
              session.View() == s && pendingError == Record(old(pendingError), errors)
    {
      hide Perform;
      for i := 0 to |items|
        invariant var (s, errors) := PerformEach(Env(), session.View(), items[i..]);
                  var (s0, errors0) := PerformEach(Env(), old(session.View()), items);
                  s == s0 && Record(pendingError, errors) == Record(old(pendingError), errors0)
      {
        assert items[i..][0] == items[i] && items[i..][1..] == items[i + 1..];
        var r := PerformItem(items[i]);
        RecordFirstError(r);
      }
    }

    /** dispatch_to_session: returns whether the loop must stop. */
    method DispatchOne(cmd: Cmd) returns (stop: bool)
      modifies this, session, session.writer
      ensures View(stop) == Dispatch(Env(), old(View(false)), cmd)
    {
      hide Perform, CloseAll, Sessions.SetFrameRawBatch, Sessions.SetPackedBatch, RunScript, PerformEach,
           Sessions.SetFrameRawBatchUnchecked, FlushSession;
      stop := false;
      match cmd
      case Close =>
        var ignored := session.TryCloseAll();
        stop := true;
      case Single(item) => { var r := PerformItem(item); RecordFirstError(r); }
      case FixedBatch(items) => PerformBatch(items);
      case FrameBatch(frames) => { var r := session.SetFrameRawBatch(frames); RecordFirstError(r); }
      case FrameBatchUnchecked(frames) => { var r := session.SetFrameRawBatchUnchecked(frames); RecordFirstError(r); }
      case PackedBatch(payloads) => { var r := session.SetPackedBatch(payloads); RecordFirstError(r); }
      case Text(text, strict) => { var r := session.TypeText(text, strict); RecordFirstError(r); }
      case Tap(scancode, mods) => { var r := session.TapKey(scancode, mods); RecordFirstError(r); }
      case AndroidTap(k, m) => { var r := session.TapAndroidKey(k, m); RecordFirstError(r); }
      case SetScreenSize(w, h) => session.SetScreenSize(w, h);
      case Flush => { var r := session.FlushNow(); RecordFirstError(r); }
      case FlushAck(ticket) =>
        var prior := pendingError;
        pendingError := None;
        var flushed := session.FlushNow();
        var result := flushed;
        if prior.Some? {
          if flushed.Err? { pendingError := Some(flushed.error); }
          result := Err(prior.value);
        }
        acks := acks + [Ack(ticket, result)];
    }

    /** dispatcher_loop, up to the end of the queue or a Close: one blocking receive, then whatever
        else is already there. `waiting(i)` says whether command `i` has arrived when the loop
        polls for it. */
    method Run(cmds: seq<Cmd>, waiting: nat -> bool) returns (stopped: bool)
      modifies this, session, session.writer
      ensures View(stopped) == DispatchAll(Env(), old(View(false)), cmds)
    {
      hide Dispatch;
      stopped := false;
      var i := 0;
      while i < |cmds|
        invariant i <= |cmds|
        invariant DispatchAll(Env(), View(false), cmds[i..]) == DispatchAll(Env(), old(View(false)), cmds)
      {
        stopped := Receive(cmds, i);
        i := i + 1;
        if stopped { return; }
        while i < |cmds| && waiting(i)
          invariant i <= |cmds|
          invariant DispatchAll(Env(), View(false), cmds[i..]) == DispatchAll(Env(), old(View(false)), cmds)
        {
          stopped := Receive(cmds, i);
          i := i + 1;
          if stopped { return; }
        }
      }
    }

    method Receive(cmds: seq<Cmd>, i: nat) returns (stopped: bool)
      requires i < |cmds|
      modifies this, session, session.writer
      ensures View(stopped) == Dispatch(Env(), old(View(false)), cmds[i])
      ensures DispatchAll(Env(), old(View(false)), cmds[i..]) ==
              if stopped then View(stopped) else DispatchAll(Env(), View(stopped), cmds[i + 1..])
    {
      hide Dispatch;
      stopped := DispatchOne(cmds[i]);
      assert cmds[i..][0] == cmds[i] && cmds[i..][1..] == cmds[i + 1..];
    }

    /** The thread's end: close the session if the channel vanished, then recover the transport. */
    method Thread(cmds: seq<Cmd>, waiting: nat -> bool) returns (joined: Joined)
      requires pendingError == None && acks == []
      modifies this, session, session.writer
      ensures joined == DispatcherThread(Env(), old(session.View()), cmds)
    {
      hide DispatchAll, CloseAll, C.IntoInner;
      var stopped := Run(cmds, waiting);
      if !stopped {
        var ignored := session.TryCloseAll();
      }
      if !session.closed { return Panicked; }
      var recovered := session.writer.IntoInner();
      joined := if recovered.Err? then Panicked else Recovered(recovered.value);
    }
  }
}
