/** The touch handle as the object of src/multitouch.rs, proved against Multitouch. */
module MultitouchHandles {
  import opened Bytes
  import opened Sessions
  import opened Multitouch
  import opened Tapes
  import HS = HidSessions

  class MultitouchHandle {
    const session: HS.HidSession
    const active: array<bool>
    ghost var log: seq<TouchItem>
    ghost var tape: Tape

    ghost predicate Valid()
      reads this
    {
      active.Length == MAX_POINTERS
    }

    ghost function View(): Handle
      requires Valid()
      reads this, active, session, session.writer
    {
      Handle(session.View(), active[..], log, tape)
    }

    constructor (session: HS.HidSession)
      ensures Valid() && fresh(active) && this.session == session
      ensures View() == New(session.View())
    {
      this.session := session;
      active := new bool[MAX_POINTERS](_ => false);
      log, tape := [], Blank();
      new;
      assert active[..] == seq(10, _ => false);
    }

    method Inject(action: byte, id: u64, x: i32, y: i32, pressure: u16) returns (r: Result<()>)
      requires Valid()
      modifies this`log, this`tape, session, session.writer
      ensures Valid() && active[..] == old(active[..])
      ensures (View(), r) == Multitouch.Inject(session.writer.env, old(View()), Touch(action, id, x, y, pressure))
    {
      hide Perform, Record;
      ghost var was := session.View();
      r := session.InjectTouchEvent(action, id, x, y, pressure);
      tape := Record(session.writer.env, was.writer, TouchMessage(was.dev, Touch(action, id, x, y, pressure)), tape);
      if r.Ok? {
        log := log + [Touch(action, id, x, y, pressure)];
      }
    }

    method Down(id: u64, x: i32, y: i32, pressure: u16) returns (r: Result<()>)
      requires Valid()
      modifies this`log, this`tape, active, session, session.writer
      ensures Valid() && (View(), r) == Multitouch.Down(session.writer.env, old(View()), id, x, y, pressure)
    {
      hide Perform;
      if id >= MAX_POINTERS { return Err(PointerIdOutOfRange(id)); }
      if active[id] { return Err(PointerAlreadyDown(id)); }
      r := Inject(ACTION_DOWN, id, x, y, pressure);
      if r.Err? { return; }
      active[id] := true;
    }

    method MoveTo(id: u64, x: i32, y: i32, pressure: u16) returns (r: Result<()>)
      requires Valid()
      modifies this`log, this`tape, session, session.writer
      ensures Valid() && (View(), r) == Multitouch.MoveTo(session.writer.env, old(View()), id, x, y, pressure)
    {
      hide Perform;
      if id >= MAX_POINTERS { return Err(PointerIdOutOfRange(id)); }
      if !active[id] { return Err(PointerNotActive(id)); }
      r := Inject(ACTION_MOVE, id, x, y, pressure);
    }

    method Lift(action: byte, id: u64) returns (r: Result<()>)
      requires Valid() && (action == ACTION_UP || action == ACTION_CANCEL)
      modifies this`log, this`tape, active, session, session.writer
      ensures Valid() && (View(), r) == Multitouch.Lift(session.writer.env, old(View()), action, id)
    {
      hide Perform;
      if id >= MAX_POINTERS { return Err(PointerIdOutOfRange(id)); }
      if !active[id] { return Err(PointerNotActive(id)); }
      r := Inject(action, id, 0, 0, 0);
      if r.Err? { return; }
      active[id] := false;
    }

    method Pinch(lerp: Lerp, p0: PinchPath, p1: PinchPath, steps: u32) returns (r: Result<()>)
      requires Valid()
      modifies this`log, this`tape, session, session.writer
      ensures Valid() && (View(), r) == Multitouch.Pinch(session.writer.env, old(View()), lerp, p0, p1, steps)
    {
      hide Multitouch.Inject;
      var n := if steps < 2 then 2 else steps;
      if p0.id >= MAX_POINTERS { return Err(PointerIdOutOfRange(p0.id)); }
      if p1.id >= MAX_POINTERS { return Err(PointerIdOutOfRange(p1.id)); }
      if !active[p0.id] || !active[p1.id] {
        return Err(PointerNotActive(if !active[p0.id] then p0.id else p1.id));
      }
      for i := 1 to n + 1
        invariant Valid() && active[..] == old(active[..])
        invariant PinchFrom(session.writer.env, View(), lerp, p0, p1, i, n)
               == PinchFrom(session.writer.env, old(View()), lerp, p0, p1, 1, n)
      {
        var m0, m1 := PinchMove(lerp, p0, i, n), PinchMove(lerp, p1, i, n);
        r := Inject(ACTION_MOVE, p0.id, m0.x, m0.y, FULL_PRESSURE);
        if r.Err? { return; }
        r := Inject(ACTION_MOVE, p1.id, m1.x, m1.y, FULL_PRESSURE);
        if r.Err? { return; }
      }
      r := Ok(());
    }

    method ReleaseAll() returns (r: Result<()>)
      requires Valid()
      modifies this`log, this`tape, active, session, session.writer
      ensures Valid() && (View(), r) == Multitouch.ReleaseAll(session.writer.env, old(View()))
    {
      hide Multitouch.Inject;
      for id := 0 to MAX_POINTERS
        invariant Valid()
        invariant ReleaseFrom(session.writer.env, View(), id)
               == ReleaseFrom(session.writer.env, old(View()), 0)
      {
        if active[id] {
          r := Inject(ACTION_UP, id, 0, 0, 0);
          if r.Err? { return; }
          active[id] := false;
        }
      }
      r := Ok(());
    }

    method FlushNow() returns (r: Result<nat>)
      requires Valid()
      modifies this`tape, session.writer
      ensures Valid() && (View(), r) == Multitouch.FlushNow(session.writer.env, old(View()))
    {
      hide RecordFlush;
      ghost var was := session.View();
      r := session.FlushNow();
      tape := RecordFlush(session.writer.env, was.writer, tape);
    }
  }
}
