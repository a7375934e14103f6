/** The action injector as the object of ai-device-kernel/src/bridge.rs, proved against Bridge. */
module ActionInjectors {
  import opened Bytes
  import opened Frames
  import opened Messages
  import opened Typing
  import opened Sessions
  import opened Actions
  import opened Bridge
  import D = Dispatchers
  import HS = HidSessions
  import C = Coalesce

  class ActionInjector {
    const session: HS.HidSession
    const lerp: Lerp
    var nextId: u64
    var batchDepth: u32

    function Env(): C.Env {
      session.writer.env
    }

    function View(): Injector
      reads this, session, session.writer
    {
      Injector(session.View(), nextId, batchDepth)
    }

    constructor (session: HS.HidSession, lerp: Lerp)
      ensures View() == Injector(session.View(), 0, 0) && this.session == session && this.lerp == lerp
    {
      this.session, this.lerp := session, lerp;
      nextId, batchDepth := 0, 0;
    }

    method MaybeFlush() returns (r: Result<()>)
      modifies session, session.writer
      ensures var (inj, x) := Bridge.MaybeFlush(Env(), old(View()));
              View() == inj && r == if x.Some? then Err(x.value) else Ok(())
    {
      hide D.FlushSession;
      r := Ok(());
      if batchDepth == 0 {
        var flushed := session.FlushNow();
        if flushed.Err? { r := Err(flushed.error); }
      }
    }

    /** The ending that every served action shares. */
    method Finish(id: u64, r: Result<()>) returns (o: BridgeOutcome)
      modifies session, session.writer
      ensures (View(), o) ==
              if r.Err? then (old(View()), Rejected(id, r.error))
              else
                var (inj, x) := Bridge.MaybeFlush(Env(), old(View()));
                (inj, if x.Some? then Rejected(id, x.value) else BridgeOutcome(id, true, None))
    {
      hide D.FlushSession;
      if r.Err? { return Rejected(id, r.error); }
      var flushed := MaybeFlush();
      o := if flushed.Err? then Rejected(id, flushed.error) else BridgeOutcome(id, true, None);
    }

    method TapAt(x: i32, y: i32) returns (r: Result<()>)
      modifies session, session.writer
      ensures (session.View(), r) == RunScript(Env(), old(session.View()), Work(lerp, Tap(x, y)).value)
    {
      hide Perform;
      HS.RunScriptTwo(Env(), session.View(),
        Touch(ACTION_DOWN, 0, x, y, FULL_PRESSURE), Touch(ACTION_UP, 0, x, y, 0));
      r := session.InjectTouchEvent(ACTION_DOWN, 0, x, y, FULL_PRESSURE);
      if r.Err? { return; }
      r := session.InjectTouchEvent(ACTION_UP, 0, x, y, 0);
    }

    method SwipeAlong(x1: i32, y1: i32, x2: i32, y2: i32, durMs: u32) returns (r: Result<()>)
      modifies session, session.writer
      ensures (session.View(), r)
           == RunScript(Env(), old(session.View()), Work(lerp, Swipe(x1, y1, x2, y2, durMs)).value)
    {
      hide Perform, SwipeSteps;
      var steps := SwipeSteps(x1, y1, x2, y2, durMs);
      ghost var items := Work(lerp, Swipe(x1, y1, x2, y2, durMs)).value.items;
      RunItemsCons(Env(), session.View(), Touch(ACTION_DOWN, 0, x1, y1, FULL_PRESSURE),
                   SwipeMoves(lerp, x1, y1, x2, y2, 1, steps));
      r := session.InjectTouchEvent(ACTION_DOWN, 0, x1, y1, FULL_PRESSURE);
      if r.Err? { return; }
      for i := 1 to steps
        invariant RunItems(Env(), session.View(), SwipeMoves(lerp, x1, y1, x2, y2, i, steps))
               == RunItems(Env(), old(session.View()), items)
      {
        var x, y := lerp(x1, x2, i, steps), lerp(y1, y2, i, steps);
        RunItemsCons(Env(), session.View(), Touch(ACTION_MOVE, 0, x, y, FULL_PRESSURE),
                     SwipeMoves(lerp, x1, y1, x2, y2, i + 1, steps));
        r := session.InjectTouchEvent(ACTION_MOVE, 0, x, y, FULL_PRESSURE);
        if r.Err? { return; }
      }
      HS.RunScriptTwo(Env(), session.View(),
        Touch(ACTION_MOVE, 0, x2, y2, FULL_PRESSURE), Touch(ACTION_UP, 0, x2, y2, 0));
      r := session.InjectTouchEvent(ACTION_MOVE, 0, x2, y2, FULL_PRESSURE);
      if r.Err? { return; }
      r := session.InjectTouchEvent(ACTION_UP, 0, x2, y2, 0);
    }

    method PressKey(code: u32) returns (r: Result<()>)
      modifies session, session.writer
      ensures (session.View(), r) == RunScript(Env(), old(session.View()), Work(lerp, Key(code)).value)
    {
      hide Perform;
      HS.RunScriptTwo(Env(), session.View(), AndroidKey(ACTION_DOWN, code, 0, 0), AndroidKey(ACTION_UP, code, 0, 0));
      r := session.InjectKey(ACTION_DOWN, code, 0, 0);
      if r.Err? { return; }
      r := session.InjectKey(ACTION_UP, code, 0, 0);
    }

    /** Per character: both edges, or a refusal of the character. */
    method TypeString(text: seq<char>) returns (r: Result<()>)
      modifies session, session.writer
      ensures (session.View(), r) == RunScript(Env(), old(session.View()), Work(lerp, TypeText(text)).value)
    {
      hide RunScript;
      r := session.TypeText(text, true);
    }

    method SendOne(item: Item) returns (r: Result<()>)
      requires item.PadRawReport? || item.Control?
      modifies session, session.writer
      ensures (session.View(), r) == RunScript(Env(), old(session.View()), Script([item], None))
    {
      hide Perform;
      RunItemsCons(Env(), session.View(), item, []);
      assert [item] + [] == [item];
      match item {
        case PadRawReport(report) => r := session.InjectRawReport(report);
        case Control(p) => r := session.SendControl(p);
      }
      assert r.Ok? ==> r.value == ();
    }

    method Apply(action: Action) returns (o: BridgeOutcome)
      modifies this`nextId, session, session.writer
      ensures (View(), o) == ApplyOne(Env(), lerp, old(View()), action)
    {
      hide RunScript, D.FlushSession, SwipeMoves, SwipeSteps, Sessions.TypeText;
      var id := nextId;
      nextId := NextId(nextId);
      var r: Result<()>;
      match action {
        case Tap(x, y) => r := TapAt(x, y);
        case Swipe(x1, y1, x2, y2, dur) => r := SwipeAlong(x1, y1, x2, y2, dur);
        case TypeText(text) => r := TypeString(text);
        case Key(code) => r := PressKey(code);
        case GamepadFrame(report) => r := SendOne(PadRawReport(report));
        case Launch(target) => r := SendOne(Control(StartApp(target)));
        case SetClipboard(text, paste) => r := SendOne(Control(Plain.SetClipboard(0, paste, text)));
        case InjectRaw(bytes) => r := SendOne(PadRawReport(bytes));
        case DumpObservation(_, _) => return BridgeOutcome(id, false, Some(NotImplemented));
        case Elsewhere(_) => return BridgeOutcome(id, false, Some(NotImplemented));
      }
      o := Finish(id, r);
    }

    method ApplyMany(actions: seq<Action>) returns (outcomes: seq<BridgeOutcome>, firstFailure: Option<nat>)
      modifies this, session, session.writer
      ensures (View(), outcomes, firstFailure) == Bridge.ApplyMany(Env(), lerp, old(View()), actions)
    {
      hide ApplyOne, ApplyUntilFailure, InLoop, D.FlushSession, Bridge.MaybeFlush;
      outcomes, firstFailure := [], None;
      batchDepth := if batchDepth == U32_MAX then U32_MAX else batchDepth + 1;
      ghost var start := View();
      LoopStart(Env(), lerp, start, actions);
      var i := 0;
      while i < |actions| && firstFailure == None
        invariant i <= |actions|
        invariant InLoop(Env(), lerp, start, actions, View(), i, outcomes, firstFailure)
      {
        ghost var before, seen := View(), outcomes;
        var o := Apply(actions[i]);
        outcomes := outcomes + [o];
        if !o.landed { firstFailure := Some(|outcomes| - 1); }
        LoopStep(Env(), lerp, start, actions, before, i, seen);
        i := i + 1;
      }
      LoopEnd(Env(), lerp, start, actions, View(), i, outcomes, firstFailure);
      batchDepth := if batchDepth == 0 then 0 else batchDepth - 1;
      if batchDepth == 0 {
        var flushed := session.FlushNow();
        if flushed.Err? && firstFailure == None {
          firstFailure := Some(|outcomes|);
          outcomes := outcomes + [Rejected(U64_MAX, flushed.error)];
        }
      }
    }
  }

  /** Where the loop of apply_many stands after `i` actions. */
  ghost predicate InLoop(e: C.Env, lerp: Lerp, start: Injector, actions: seq<Action>,
                         inj: Injector, i: nat, outcomes: seq<BridgeOutcome>, failure: Option<nat>)
  {
    && i <= |actions| && failure == FailureOf(outcomes)
    && (var whole := ApplyUntilFailure(e, lerp, start, actions);
        if failure == None then
          var rest := ApplyUntilFailure(e, lerp, inj, actions[i..]);
          whole == (rest.0, outcomes + rest.1)
        else whole == (inj, outcomes))
  }

  lemma LoopStart(e: C.Env, lerp: Lerp, start: Injector, actions: seq<Action>)
    ensures InLoop(e, lerp, start, actions, start, 0, [], None)
  {
    hide ApplyUntilFailure;
    var rest := ApplyUntilFailure(e, lerp, start, actions);
    assert actions[0..] == actions && [] + rest.1 == rest.1;
  }

  lemma LoopStep(e: C.Env, lerp: Lerp, start: Injector, actions: seq<Action>,
                 inj: Injector, i: nat, outcomes: seq<BridgeOutcome>)
    requires InLoop(e, lerp, start, actions, inj, i, outcomes, None) && i < |actions|
    ensures var (inj1, o) := ApplyOne(e, lerp, inj, actions[i]);
            InLoop(e, lerp, start, actions, inj1, i + 1, outcomes + [o], if o.landed then None else Some(|outcomes|))
  {
    hide ApplyOne;
    assert actions[i..][0] == actions[i] && actions[i..][1..] == actions[i + 1..];
    var (inj1, o) := ApplyOne(e, lerp, inj, actions[i]);
    var more := ApplyUntilFailure(e, lerp, inj1, actions[i + 1..]).1;
    assert outcomes + ([o] + more) == outcomes + [o] + more;
  }

  lemma LoopEnd(e: C.Env, lerp: Lerp, start: Injector, actions: seq<Action>,
                inj: Injector, i: nat, outcomes: seq<BridgeOutcome>, failure: Option<nat>)
    requires InLoop(e, lerp, start, actions, inj, i, outcomes, failure) && (i == |actions| || failure.Some?)
    ensures ApplyUntilFailure(e, lerp, start, actions) == (inj, outcomes) && failure == FailureOf(outcomes)
  {
    if failure == None {
      assert actions[i..] == [] && outcomes + [] == outcomes;
    }
  }

  lemma RunItemsCons(e: C.Env, s: Session, it: Item, rest: seq<Item>)
    ensures var (s1, r) := Perform(e, s, it);
            RunItems(e, s, [it] + rest) == if r.Err? then (s1, r) else RunItems(e, s1, rest)
  {
    hide Perform;
    assert ([it] + rest)[1..] == rest;
  }
}
