/** What a chunked execution promises. */
module BridgeLaws {
  import opened Bytes
  import opened Frames
  import opened Messages
  import opened Sessions
  import opened SessionLaws
  import opened Actions
  import opened Bridge
  import Typing
  import D = Dispatchers
  import DL = DispatcherLaws
  import C = Coalesce
  import L = CoalesceLaws

  // Outcomes -------------------------------------------------------------------------------

  predicate AllLanded(outcomes: seq<BridgeOutcome>) {
    forall i :: 0 <= i < |outcomes| ==> outcomes[i].landed
  }

  function IdAt(first: u64, k: nat): u64 {
    (first + k) % 0x1_0000_0000_0000_0000
  }

  lemma NextIdAt(first: u64, k: nat)
    ensures IdAt(IdAt(first, 1), k) == IdAt(first, k + 1)
    ensures IdAt(first, 0) == first
  {
  }

  lemma ApplyOneBasics(e: C.Env, lerp: Lerp, inj: Injector, a: Action)
    ensures var (inj1, o) := ApplyOne(e, lerp, inj, a);
            && o.id == inj.nextId && inj1.nextId == IdAt(inj.nextId, 1) && inj1.batchDepth == inj.batchDepth
            && (o.landed <==> o.code == None)
  {
    hide RunScript, Work, D.FlushSession;
  }

  /** The loop is one-at-a-time execution of what it consumed. */
  lemma {:induction false} LoopIsEach(e: C.Env, lerp: Lerp, inj: Injector, actions: seq<Action>)
    ensures var (inj1, outcomes) := ApplyUntilFailure(e, lerp, inj, actions);
            |outcomes| <= |actions| && (inj1, outcomes) == ApplyEach(e, lerp, inj, actions[..|outcomes|])
    decreases |actions|
  {
    hide ApplyOne;
    if actions == [] {
      assert actions[..0] == [];
    } else {
      var (inj1, o) := ApplyOne(e, lerp, inj, actions[0]);
      if !o.landed {
        assert actions[..1][1..] == [] && actions[..1][0] == actions[0];
        assert [o] + [] == [o];
      } else {
        LoopIsEach(e, lerp, inj1, actions[1..]);
        var n := |ApplyUntilFailure(e, lerp, inj, actions).1|;
        assert actions[..n][1..] == actions[1..][..n - 1] && actions[..n][0] == actions[0];
      }
    }
  }

  lemma {:induction false} LoopStopsAtFirstFailure(e: C.Env, lerp: Lerp, inj: Injector, actions: seq<Action>)
    ensures var (inj1, outcomes) := ApplyUntilFailure(e, lerp, inj, actions);
            var n := |outcomes|;
            && n <= |actions|
            && (n > 0 ==> AllLanded(outcomes[..n - 1]))
            && (n < |actions| ==> n > 0 && !outcomes[n - 1].landed)
    decreases |actions|
  {
    hide ApplyOne;
    if actions != [] {
      var (inj1, o) := ApplyOne(e, lerp, inj, actions[0]);
      if o.landed {
        LoopStopsAtFirstFailure(e, lerp, inj1, actions[1..]);
        var rest := ApplyUntilFailure(e, lerp, inj1, actions[1..]).1;
        var outcomes := [o] + rest;
        assert forall k :: 0 < k < |outcomes| ==> outcomes[k] == rest[k - 1];
      }
    }
  }

  lemma {:induction false} LoopCountsIds(e: C.Env, lerp: Lerp, inj: Injector, actions: seq<Action>)
    ensures var (inj1, outcomes) := ApplyUntilFailure(e, lerp, inj, actions);
            && inj1.batchDepth == inj.batchDepth
            && (forall k :: 0 <= k < |outcomes| ==> outcomes[k].id == IdAt(inj.nextId, k))
            && inj1.nextId == IdAt(inj.nextId, |outcomes|)
    decreases |actions|
  {
    hide ApplyOne, IdAt;
    NextIdAt(inj.nextId, 0);
    if actions != [] {
      var (inj1, o) := ApplyOne(e, lerp, inj, actions[0]);
      ApplyOneBasics(e, lerp, inj, actions[0]);
      if o.landed {
        LoopCountsIds(e, lerp, inj1, actions[1..]);
        var rest := ApplyUntilFailure(e, lerp, inj1, actions[1..]).1;
        var outcomes := [o] + rest;
        forall k | 0 < k < |outcomes|
          ensures outcomes[k].id == IdAt(inj.nextId, k)
        {
          assert outcomes[k] == rest[k - 1];
          NextIdAt(inj.nextId, k - 1);
        }
        NextIdAt(inj.nextId, |rest|);
      }
    }
  }

  /** On every transport: the outcomes are all landed except possibly the last; `first_failure`
      names exactly that one; nothing was consumed after it; ids count up from the injector's,
      wrapping; and when no failure is reported nothing is left in the buffer. A failed final flush
      after an otherwise clean chunk adds one outcome under the reserved id. */
  lemma ChunkOutcomes(e: C.Env, lerp: Lerp, inj: Injector, actions: seq<Action>)
    requires inj.batchDepth == 0
    ensures var (inj1, outcomes, failure) := ApplyMany(e, lerp, inj, actions);
            var n := |outcomes|;
            && (n > 0 ==> AllLanded(outcomes[..n - 1]))
            && failure == (if n > 0 && !outcomes[n - 1].landed then Some(n - 1) else None)
            && (failure == None ==> n == |actions| && inj1.session.writer.pending == [])
            && n <= |actions| + 1
            && (forall k :: 0 <= k < n && k < |actions| ==> outcomes[k].id == IdAt(inj.nextId, k))
            && (n == |actions| + 1 ==> outcomes[n - 1].id == U64_MAX && failure == Some(|actions|))
            && inj1.nextId == IdAt(inj.nextId, if n > |actions| then |actions| else n) && inj1.batchDepth == 0
  {
    hide ApplyUntilFailure, ApplyEach;
    var deeper := inj.(batchDepth := 1);
    LoopStopsAtFirstFailure(e, lerp, deeper, actions);
    LoopCountsIds(e, lerp, deeper, actions);
    var (inj1, outcomes) := ApplyUntilFailure(e, lerp, deeper, actions);
    if outcomes != [] && outcomes[|outcomes| - 1].landed {
      var n := |outcomes|;
      assert outcomes == outcomes[..n - 1] + [outcomes[n - 1]];
    }
    FlushedOrFailed(e, inj1.session);
  }

  lemma FlushedOrFailed(e: C.Env, s: Session)
    ensures D.FlushSession(e, s).1.Ok? ==> D.FlushSession(e, s).0.writer.pending == []
  {
  }

  // One action -------------------------------------------------------------------------------

  /** On every transport a served action is its session calls, up to the first that fails. Outside a chunk
      a flush follows, and the action lands if and only if all of that succeeds; inside a chunk there
      is no flush. */
  lemma ActionIsCallsThenFlush(e: C.Env, lerp: Lerp, inj: Injector, a: Action)
    requires Work(lerp, a).Some?
    ensures var (inj1, o) := ApplyOne(e, lerp, inj, a);
            var (s, r) := RunScript(e, inj.session, Work(lerp, a).value);
            && (r.Err? ==> inj1.session == s && !o.landed && o.code == Some(Classify(r.error)))
            && (r.Ok? && inj.batchDepth > 0 ==> inj1.session == s && o.landed)
            && (r.Ok? && inj.batchDepth == 0 ==>
                  && DL.Flushed(e, s, inj1.session)
                  && (o.landed <==> !DL.FlushIsRefused(e, s.writer))
                  && (o.landed ==> inj1.session.writer.pending == []
                                   && inj1.session.writer.wire == s.writer.Stream())
                  && (!o.landed ==> o.code == Some(KernelError)))
  {
    hide RunScript, Work;
    var (s, r) := RunScript(e, inj.session, Work(lerp, a).value);
    assert s.writer.wire + [] == s.writer.wire;
  }

  /** An action that the bridge does not serve touches nothing. */
  lemma UnservedActionsDoNothing(e: C.Env, lerp: Lerp, inj: Injector, a: Action)
    requires a.DumpObservation? || a.Elsewhere?
    ensures ApplyOne(e, lerp, inj, a).0.session == inj.session
    ensures ApplyOne(e, lerp, inj, a).1 == BridgeOutcome(inj.nextId, false, Some(NotImplemented))
  {
  }

  /** On a reliable transport an action applied outside a chunk lands exactly if its ideal meets no
      error, and then the wire is what the stream was, followed by the action's messages. */
  lemma ActionReachesTheWire(e: C.Env, lerp: Lerp, inj: Injector, a: Action)
    requires C.Reliable(e) && inj.session.writer.Valid() && inj.batchDepth == 0 && Work(lerp, a).Some?
    ensures var (inj1, o) := ApplyOne(e, lerp, inj, a);
            var ideal := IdealScript(inj.session.dev, Work(lerp, a).value);
            && inj1.session.dev == ideal.dev
            && inj1.session.writer.Stream() == inj.session.writer.Stream() + SerializeAll(ideal.msgs)
            && (o.landed <==> ideal.errors == [])
            && (o.landed ==> inj1.session.writer.pending == []
                             && inj1.session.writer.wire == inj.session.writer.Stream() + SerializeAll(ideal.msgs))
  {
    hide RunScript, IdealScript, SerializeAll, Work, ApplyOne;
    ActionIsCallsThenFlush(e, lerp, inj, a);
    RunScriptDoes(e, inj.session, Work(lerp, a).value);
    var s := RunScript(e, inj.session, Work(lerp, a).value).0;
    assert s.writer.wire + s.writer.pending == s.writer.Stream();
  }

  /** A tap is a down and an up of pointer 0 at its point, a key is pressed and released. */
  lemma TapAndKeyArePairs(lerp: Lerp, d: Devices, x: i32, y: i32, code: u32)
    ensures IdealScript(d, Work(lerp, Tap(x, y)).value)
         == Outcome(d, [Other(InjectTouch(0, 0, x, y, d.screenW, d.screenH, 0xFFFF)),
                        Other(InjectTouch(1, 0, x, y, d.screenW, d.screenH, 0))], [])
    ensures IdealScript(d, Work(lerp, Key(code)).value)
         == Outcome(d, [Other(InjectKeycode(0, code, 0, 0)), Other(InjectKeycode(1, code, 0, 0))], [])
  {
    TwoUntilError(d, AndroidKey(0, code, 0, 0), AndroidKey(1, code, 0, 0));
    TwoUntilError(d, Touch(0, 0, x, y, 0xFFFF), Touch(1, 0, x, y, 0));
    hide IdealScript;
  }

  /** The other served actions but texts are one message, with the refusals of that message. */
  lemma OtherActionsAreOneMessage(lerp: Lerp, d: Devices, frame: Payload, report: seq<byte>, target: seq<byte>,
                                  text: seq<byte>, paste: bool)
    ensures IdealScript(d, Work(lerp, Launch(target)).value)
         == if |target| <= 255 then Outcome(d, [Other(StartApp(target))], []) else Outcome(d, [], [NameTooLong])
    ensures IdealScript(d, Work(lerp, Action.SetClipboard(text, paste)).value)
         == Outcome(d, [Other(Plain.SetClipboard(0, paste, text))], [])
    ensures IdealScript(d, Work(lerp, GamepadFrame(frame)).value) == Ideal(d, PadRawReport(frame))
    ensures IdealScript(d, Work(lerp, InjectRaw(report)).value) == Ideal(d, PadRawReport(report))
  {
    OneUntilError(d, Control(StartApp(target)));
    OneUntilError(d, Control(Plain.SetClipboard(0, paste, text)));
    OneUntilError(d, PadRawReport(report));
    OneUntilError(d, PadRawReport(frame));
    ControlIdeal(d, StartApp(target));
    ControlIdeal(d, Plain.SetClipboard(0, paste, text));
    NameFits(target);
    hide IdealScript, Ideal, Serialize;
  }

  lemma ControlIdeal(d: Devices, p: Plain)
    ensures Ideal(d, Control(p)) ==
            if Serialize(Other(p)).Ok? then Outcome(d, [Other(p)], []) else Outcome(d, [], [Serialize(Other(p)).error])
  {
    hide Serialize;
  }

  lemma NameFits(name: seq<byte>)
    ensures Serialize(Other(StartApp(name))).Ok? == (|name| <= 255)
    ensures |name| > 255 ==> Serialize(Other(StartApp(name))).error == NameTooLong
    ensures forall paste, text :: Serialize(Other(Plain.SetClipboard(0, paste, text))).Ok?
  {
  }

  lemma TwoUntilError(d: Devices, a: Item, b: Item)
    requires (a.AndroidKey? || a.Touch?) && (b.AndroidKey? || b.Touch?)
    ensures IdealScript(d, Script([a, b], None)) == Outcome(d, Ideal(d, a).msgs + Ideal(d, b).msgs, [])
  {
    assert [a, b][1..] == [b];
    OneUntilError(d, b);
  }

  lemma OneUntilError(d: Devices, it: Item)
    ensures IdealUntilError(d, [it]) == Ideal(d, it)
    ensures IdealScript(d, Script([it], None)) == Ideal(d, it)
  {
    hide Ideal;
    var o := Ideal(d, it);
    assert [it][1..] == [] && o.msgs + [] == o.msgs;
    assert o.errors == [] ==> IdealUntilError(d, [it]) == Outcome(o.dev, o.msgs + [], []);
  }

  /** The `k`-th touch of a swipe from (x1, y1) to (x2, y2) in `n` steps. */
  function SwipeTouch(lerp: Lerp, x1: i32, y1: i32, x2: i32, y2: i32, k: nat, n: nat): Item {
    if k == 0 then Touch(ACTION_DOWN, 0, x1, y1, FULL_PRESSURE)
    else if k < n then Touch(ACTION_MOVE, 0, lerp(x1, x2, k, n), lerp(y1, y2, k, n), FULL_PRESSURE)
    else if k == n then Touch(ACTION_MOVE, 0, x2, y2, FULL_PRESSURE)
    else Touch(ACTION_UP, 0, x2, y2, 0)
  }

  lemma {:induction false} SwipeMovesAt(lerp: Lerp, x1: i32, y1: i32, x2: i32, y2: i32, i: nat, n: nat)
    requires 1 <= i <= n
    ensures var items := SwipeMoves(lerp, x1, y1, x2, y2, i, n);
            && |items| == n + 2 - i
            && forall k :: 0 <= k < |items| ==> items[k] == SwipeTouch(lerp, x1, y1, x2, y2, i + k, n)
    decreases n - i
  {
    var items := SwipeMoves(lerp, x1, y1, x2, y2, i, n);
    if i < n {
      SwipeMovesAt(lerp, x1, y1, x2, y2, i + 1, n);
      var rest := SwipeMoves(lerp, x1, y1, x2, y2, i + 1, n);
      assert items[0] == SwipeTouch(lerp, x1, y1, x2, y2, i, n);
      hide SwipeTouch, SwipeMoves;
      forall k | 0 < k < |items|
        ensures items[k] == SwipeTouch(lerp, x1, y1, x2, y2, i + k, n)
      {
        assert items[k] == rest[k - 1] && i + 1 + (k - 1) == i + k;
      }
    }
  }

  /** A swipe is a down at its start, a move at each of its steps, the last exactly at its end, and an up
      there. It has as many steps as whole 16 ms or whole 40 pixels, whichever is more, within 2 to 256. */
  lemma SwipeIsOneDenseStroke(lerp: Lerp, x1: i32, y1: i32, x2: i32, y2: i32, durMs: u32)
    returns (n: nat)
    ensures 2 <= n <= 256
    ensures var script := Work(lerp, Swipe(x1, y1, x2, y2, durMs)).value;
            && script.ending == None && |script.items| == n + 2
            && forall k :: 0 <= k < n + 2 ==> script.items[k] == SwipeTouch(lerp, x1, y1, x2, y2, k, n)
    ensures var reach := Max(Abs(WrappingSub32(x2, x1)), Abs(WrappingSub32(y2, y1)));
            && (n < 256 ==> durMs < 16 * (n + 1) && reach < 40 * (n + 1))
            && (n > 2 ==> 16 * n <= durMs || 40 * n <= reach)
  {
    n := SwipeSteps(x1, y1, x2, y2, durMs);
    SwipeMovesAt(lerp, x1, y1, x2, y2, 1, n);
    hide SwipeMoves, WrappingSub32;
    var items := Work(lerp, Swipe(x1, y1, x2, y2, durMs)).value.items;
    assert forall k :: 0 < k < |items| ==> items[k] == SwipeMoves(lerp, x1, y1, x2, y2, 1, n)[k - 1];
  }

  /** The codes tell a caller what to do: a kernel error is a transport failure and can be tried again, a
      permission error is an input that will never do, anything else is not served in this state. */
  lemma CodesOfFailures(x: Error)
    ensures Classify(x) == KernelError <==> x.WriteFailed? || x.FlushFailed?
    ensures Classify(x) == PermissionDenied <==>
            || x.ControlMessageTooLarge? || x.NameTooLong? || x.ReportDescTooLong? || x.ScancodeOutOfRange?
            || x.PointerIdOutOfRange? || x.UnsupportedChar?
    ensures Classify(x) in {KernelError, PermissionDenied, NotImplemented}
  {
  }

  /** A chunk inside a chunk makes no flush of its own: it is its actions at their depth, and leaves the
      depth as it was. */
  lemma NestedChunkDoesNotFlush(e: C.Env, lerp: Lerp, inj: Injector, actions: seq<Action>)
    requires 0 < inj.batchDepth < U32_MAX
    ensures var (inj1, outcomes, failure) := ApplyMany(e, lerp, inj, actions);
            && |outcomes| <= |actions|
            && inj1.(batchDepth := inj.batchDepth + 1)
               == ApplyEach(e, lerp, inj.(batchDepth := inj.batchDepth + 1), actions[..|outcomes|]).0
            && inj1.batchDepth == inj.batchDepth
  {
    hide ApplyUntilFailure, ApplyEach;
    var deeper := inj.(batchDepth := inj.batchDepth + 1);
    LoopIsEach(e, lerp, deeper, actions);
    LoopCountsIds(e, lerp, deeper, actions);
  }

  // Landed, and on the wire ------------------------------------------------------------------

  /** What was on the stream stays there, in front. */
  predicate Longer(a: Session, b: Session) {
    a.writer.Stream() <= b.writer.Stream()
  }

  lemma PerformLengthens(e: C.Env, s: Session, it: Item)
    requires s.writer.Valid()
    ensures Perform(e, s, it).0.writer.Valid() && Longer(s, Perform(e, s, it).0)
  {
    hide Plan, C.Push, L.MessageFlushes, L.AcceptedMessage, Encoding;
    var p := Plan(s.dev, it).1;
    if p.Ok? && p.value.Some? {
      L.PushGrows(e, s.writer, p.value.value);
    }
  }

  lemma {:induction false} RunItemsLengthens(e: C.Env, s: Session, items: seq<Item>)
    requires s.writer.Valid()
    ensures RunItems(e, s, items).0.writer.Valid() && Longer(s, RunItems(e, s, items).0)
    decreases |items|
  {
    hide Perform;
    if items != [] {
      PerformLengthens(e, s, items[0]);
      RunItemsLengthens(e, Perform(e, s, items[0]).0, items[1..]);
    }
  }

  lemma ApplyOneLengthens(e: C.Env, lerp: Lerp, inj: Injector, a: Action)
    requires inj.session.writer.Valid()
    ensures var inj1 := ApplyOne(e, lerp, inj, a).0;
            inj1.session.writer.Valid() && Longer(inj.session, inj1.session)
  {
    hide RunItems, Work, C.FlushNow;
    var w := Work(lerp, a);
    if w.Some? {
      RunItemsLengthens(e, inj.session, w.value.items);
      L.FlushNowGrows(e, RunItems(e, inj.session, w.value.items).0.writer);
    }
  }

  /** The state after the first `i` actions, and after `j`. */
  lemma {:induction false} EachLengthens(e: C.Env, lerp: Lerp, inj: Injector, actions: seq<Action>, i: nat, j: nat)
    requires inj.session.writer.Valid() && i <= j <= |actions|
    ensures var (a, b) := (ApplyEach(e, lerp, inj, actions[..i]).0, ApplyEach(e, lerp, inj, actions[..j]).0);
            b.session.writer.Valid() && Longer(a.session, b.session)
    decreases j
  {
    hide ApplyOne;
    if j > 0 {
      var inj1 := ApplyOne(e, lerp, inj, actions[0]).0;
      ApplyOneLengthens(e, lerp, inj, actions[0]);
      EachLengthens(e, lerp, inj1, actions[1..], if i > 0 then i - 1 else 0, j - 1);
      assert actions[..j][1..] == actions[1..][..j - 1];
      if i > 0 {
        assert actions[..i][1..] == actions[1..][..i - 1];
      } else {
        assert actions[1..][..0] == [] && actions[..0] == [];
      }
    }
  }

  /** The injector inside a chunk, after its first `k` actions. */
  function Staged(e: C.Env, lerp: Lerp, inj: Injector, actions: seq<Action>, k: nat): Injector
    requires k <= |actions|
  {
    ApplyEach(e, lerp, inj.(batchDepth := 1), actions[..k]).0
  }

  /** The state in which the chunk's final flush is made. */
  function BeforeFlush(e: C.Env, lerp: Lerp, inj: Injector, actions: seq<Action>): C.Writer {
    ApplyUntilFailure(e, lerp, inj.(batchDepth := 1), actions).0.session.writer
  }

  /** On every transport: an action reported as landed has all its bytes on the wire after the chunk,
      and so have the actions before it, if and only if the final flush finds nothing to write, or
      its write is taken, or those bytes had already left the buffer. If the write is refused the
      chunk reports a failure, but under another outcome. */
  lemma LandedIsOnTheWireIff(e: C.Env, lerp: Lerp, inj: Injector, actions: seq<Action>, k: nat)
    requires inj.batchDepth == 0 && inj.session.writer.Valid()
    requires k < |ApplyMany(e, lerp, inj, actions).1| && ApplyMany(e, lerp, inj, actions).1[k].landed
    ensures k < |actions|
    ensures var (inj1, outcomes, failure) := ApplyMany(e, lerp, inj, actions);
            var upTo := Staged(e, lerp, inj, actions, k + 1).session.writer.Stream();
            var w := BeforeFlush(e, lerp, inj, actions);
            && (upTo <= inj1.session.writer.wire <==>
                  w.pending == [] || e.writeOk(w.calls) || |upTo| <= |w.wire|)
            && (w.pending != [] && !e.writeOk(w.calls) ==> failure.Some? && failure.value != k)
  {
    hide ApplyUntilFailure, ApplyEach, ApplyOne, C.FlushNow;
    var deeper := inj.(batchDepth := 1);
    LoopIsEach(e, lerp, deeper, actions);
    LoopCountsIds(e, lerp, deeper, actions);
    LoopStopsAtFirstFailure(e, lerp, deeper, actions);
    var (looped, outcomes) := ApplyUntilFailure(e, lerp, deeper, actions);
    EachLengthens(e, lerp, deeper, actions, k + 1, |outcomes|);
    FlushWritesOrNot(e, looped.session.writer);
    var upTo, w := Staged(e, lerp, inj, actions, k + 1).session.writer.Stream(), looped.session.writer;
    PrefixOfFirstPart(upTo, w.wire, w.pending);
  }

  lemma FlushWritesOrNot(e: C.Env, w: C.Writer)
    ensures C.FlushNow(e, w).0.wire == if w.pending == [] || !e.writeOk(w.calls) then w.wire else w.Stream()
    ensures w.pending != [] && !e.writeOk(w.calls) ==> C.FlushNow(e, w).1.Err?
  {
  }

  lemma PrefixOfFirstPart(part: seq<byte>, a: seq<byte>, b: seq<byte>)
    requires part <= a + b
    ensures part <= a <==> |part| <= |a|
    ensures b == [] ==> part <= a
  {
    if |part| <= |a| {
      assert forall i :: 0 <= i < |part| ==> part[i] == (a + b)[i] == a[i];
    }
    if b == [] {
      assert a + b == a;
    }
  }

  /** A touch that fits below the limit and inside the window is only buffered. */
  lemma TouchIsBuffered(e: C.Env, s: Session, t: Item)
    requires t.Touch? && !s.writer.direct && |s.writer.pending| + 32 < s.writer.hardLimit
    requires !e.expired(s.writer.ticks)
    ensures var (s', r) := Perform(e, s, t);
            && r == Ok(()) && s'.writer.wire == s.writer.wire && s'.writer.calls == s.writer.calls
            && |s.writer.pending| < |s'.writer.pending| <= |s.writer.pending| + 32
            && s'.writer.ticks == s.writer.ticks + 1
            && s'.writer.direct == s.writer.direct && s'.writer.hardLimit == s.writer.hardLimit
  {
    var m := Plan(s.dev, t).1.value.value;
    assert m == Other(InjectTouch(t.touch, t.pointerId, t.x, t.y, s.dev.screenW, s.dev.screenH, t.pressure));
    L.EncodingOk(m);
    TouchLength(m);
    hide Serialize, Encoding;
  }

  lemma TouchLength(m: Msg)
    requires m.Other? && m.plain.InjectTouch?
    ensures Serialize(m).Ok? && |Encoding(m)| == 32
  {
  }

  /** A tap that landed and is not on the wire: it is buffered, and the final flush is refused. */
  lemma LandedTapNotOnTheWire(e: C.Env, lerp: Lerp, inj: Injector, x: i32, y: i32)
    requires inj.batchDepth == 0 && !inj.session.writer.direct && inj.session.writer.pending == []
    requires inj.session.writer.hardLimit > 64 && !e.writeOk(inj.session.writer.calls)
    requires !e.expired(inj.session.writer.ticks) && !e.expired(inj.session.writer.ticks + 1)
    ensures var (inj1, outcomes, failure) := ApplyMany(e, lerp, inj, [Tap(x, y)]);
            && |outcomes| == 2 && outcomes[0].landed && failure == Some(1)
            && inj1.session.writer.wire == inj.session.writer.wire
  {
    hide Perform;
    var down, up := Touch(ACTION_DOWN, 0, x, y, FULL_PRESSURE), Touch(ACTION_UP, 0, x, y, 0);
    var s := inj.session;
    TouchIsBuffered(e, s, down);
    var s1 := Perform(e, s, down).0;
    TouchIsBuffered(e, s1, up);
    var s2 := Perform(e, s1, up).0;
    var taps, items := [Tap(x, y)], [down, up];
    assert items[1..] == [up] && items[1..][1..] == [] && taps[1..] == [];
    assert RunItems(e, s, items) == RunItems(e, s1, items[1..]) == RunItems(e, s2, []) == (s2, Ok(()));
    var deeper := inj.(batchDepth := 1);
    assert Work(lerp, Tap(x, y)) == Some(Script(items, None));
    var (inj1, o) := ApplyOne(e, lerp, deeper, Tap(x, y));
    assert o.landed && inj1.session == s2;
    assert ApplyUntilFailure(e, lerp, inj1, taps[1..]) == (inj1, []);
    assert [o] + [] == [o];
  }

  // Chunk and one at a time ----------------------------------------------------------------

  /** Same devices, same ids, same bytes so far, wherever they wait. */
  ghost predicate Alike(a: Injector, b: Injector) {
    && a.session.dev == b.session.dev && a.nextId == b.nextId
    && a.session.writer.Valid() && b.session.writer.Valid()
    && a.session.writer.Stream() == b.session.writer.Stream()
  }

  lemma FlushKeepsAlike(e: C.Env, a: Injector, b: Injector)
    requires C.Reliable(e) && Alike(a, b)
    ensures MaybeFlush(e, a).1 == None && Alike(MaybeFlush(e, a).0, b) && Alike(b, MaybeFlush(e, a).0)
  {
    L.FlushNowGrows(e, a.session.writer);
  }

  lemma ApplyOneKeepsAlike(e: C.Env, lerp: Lerp, a: Injector, b: Injector, act: Action)
    requires C.Reliable(e) && Alike(a, b)
    ensures var (a1, o1) := ApplyOne(e, lerp, a, act);
            var (b1, o2) := ApplyOne(e, lerp, b, act);
            o1 == o2 && Alike(a1, b1)
  {
    hide RunScript, Work, MaybeFlush, IdealScript;
    var w := Work(lerp, act);
    if w.Some? {
      RunScriptDoes(e, a.session, w.value);
      RunScriptDoes(e, b.session, w.value);
      var (sa, ra) := RunScript(e, a.session, w.value);
      var (sb, rb) := RunScript(e, b.session, w.value);
      SameErrors(ra, rb);
      if ra.Ok? {
        var a1 := a.(nextId := NextId(a.nextId), session := sa);
        var b1 := b.(nextId := NextId(b.nextId), session := sb);
        FlushKeepsAlike(e, a1, b1);
        FlushKeepsAlike(e, b1, MaybeFlush(e, a1).0);
      }
    }
  }

  lemma SameErrors(r1: Result<()>, r2: Result<()>)
    requires AsErrors(r1) == AsErrors(r2)
    ensures r1.Ok? == r2.Ok? && (r1.Err? ==> r1.error == r2.error)
  {
    assert r1.Err? ==> AsErrors(r1)[0] == r1.error;
    assert r2.Err? ==> AsErrors(r2)[0] == r2.error;
  }

  lemma {:induction false} ApplyEachKeepsAlike(e: C.Env, lerp: Lerp, a: Injector, b: Injector, actions: seq<Action>)
    requires C.Reliable(e) && Alike(a, b)
    ensures var (a1, o1) := ApplyEach(e, lerp, a, actions);
            var (b1, o2) := ApplyEach(e, lerp, b, actions);
            o1 == o2 && Alike(a1, b1)
    decreases |actions|
  {
    hide ApplyOne, Alike;
    if actions != [] {
      ApplyOneKeepsAlike(e, lerp, a, b, actions[0]);
      ApplyEachKeepsAlike(e, lerp,
        ApplyOne(e, lerp, a, actions[0]).0, ApplyOne(e, lerp, b, actions[0]).0, actions[1..]);
    }
  }

  /** On a reliable transport a chunk is its consumed prefix, one action at a time, then a flush:
      same outcomes, same devices and exactly the same bytes on the wire. */
  lemma ChunkIsOneAtATime(e: C.Env, lerp: Lerp, inj: Injector, actions: seq<Action>)
    requires C.Reliable(e) && inj.batchDepth == 0 && inj.session.writer.Valid()
    ensures |ApplyMany(e, lerp, inj, actions).1| <= |actions|
    ensures var (inj1, outcomes, failure) := ApplyMany(e, lerp, inj, actions);
            var (inj2, each) := ApplyEach(e, lerp, inj, actions[..|outcomes|]);
            var flushed := D.FlushSession(e, inj2.session).0;
            && outcomes == each
            && inj1.session.dev == flushed.dev && inj1.nextId == inj2.nextId
            && inj1.session.writer.wire == flushed.writer.wire
            && inj1.session.writer.pending == [] == flushed.writer.pending
  {
    hide ApplyUntilFailure, ApplyEach, SerializeAll;
    var deeper := inj.(batchDepth := 1);
    LoopIsEach(e, lerp, deeper, actions);
    LoopCountsIds(e, lerp, deeper, actions);
    var (looped, outcomes) := ApplyUntilFailure(e, lerp, deeper, actions);
    var prefix := actions[..|outcomes|];
    ApplyEachKeepsAlike(e, lerp, deeper, inj, prefix);
    var inj2 := ApplyEach(e, lerp, inj, prefix).0;
    DL.FlushDoes(e, looped.session);
    DL.FlushDoes(e, inj2.session);
    SerializeAllNone();
    StreamIsWire(e, looped.session);
    StreamIsWire(e, inj2.session);
  }

  lemma StreamIsWire(e: C.Env, s: Session)
    requires C.Reliable(e) && s.writer.Valid()
    ensures var s' := D.FlushSession(e, s).0;
            s'.dev == s.dev && s'.writer.pending == [] && s'.writer.wire == s.writer.Stream()
  {
    L.FlushNowGrows(e, s.writer);
  }

  predicate Typeable(text: seq<char>) {
    forall i :: 0 <= i < |text| ==> Typing.StrokeOf(text[i]).Some?
  }

  /** On a reliable transport a text lands exactly if every character has a stroke and, unless it is
      empty, the keyboard is open. It fails as PermissionDenied at its first character without a
      stroke, as NotImplemented if a stroke comes first and there is no keyboard; the strokes before
      that were already sent. */
  lemma TextLandsIff(e: C.Env, lerp: Lerp, inj: Injector, text: seq<char>)
    requires C.Reliable(e) && inj.session.writer.Valid()
    ensures var (inj1, o) := ApplyOne(e, lerp, inj, Action.TypeText(text));
            var open := inj.session.dev.kbd.Some?;
            && (o.landed <==> Typeable(text) && (open || text == []))
            && (!o.landed ==>
                  o.code == Some(if open || Typing.StrokeOf(text[0]).None? then PermissionDenied else NotImplemented))
            && inj1.session.writer.Stream() == inj.session.writer.Stream()
               + SerializeAll(IdealUntilError(inj.session.dev, Sessions.TypeText(text, true).items).msgs)
  {
    hide RunScript, SerializeAll, IdealUntilError, IdealScript, D.FlushSession, Sessions.TypeText, Typing.StrokeOf,
         Typeable;
    var script := Sessions.TypeText(text, true);
    RunScriptDoes(e, inj.session, script);
    TextErrors(inj.session.dev, text);
    var s := RunScript(e, inj.session, script).0;
    DL.FlushDoes(e, s);
    SerializeAllNone();
  }

  lemma TextErrors(d: Devices, text: seq<char>)
    ensures var script := Sessions.TypeText(text, true);
            var o := IdealScript(d, script);
            && o.msgs == IdealUntilError(d, script.items).msgs
            && o.errors == if Typeable(text) && (d.kbd.Some? || text == []) then []
                           else if d.kbd.Some? || Typing.StrokeOf(text[0]).None? then [UnsupportedChar]
                           else [KeyboardNotOpen]
  {
    hide IdealUntilError;
    TextEnding(text);
    if d.kbd.Some? {
      StrokesNeverFail(d, text);
    } else {
      NoKeyboard(d, text);
    }
  }

  lemma {:induction false} TextEnding(text: seq<char>)
    ensures Sessions.TypeText(text, true).ending == if Typeable(text) then None else Some(UnsupportedChar)
    decreases |text|
  {
    if text != [] {
      TextEnding(text[1..]);
      assert Typeable(text) <==> Typing.StrokeOf(text[0]).Some? && Typeable(text[1..]) by {
        assert forall i :: 0 < i < |text| ==> text[i] == text[1..][i - 1];
        assert forall i :: 0 <= i < |text[1..]| ==> text[1..][i] == text[i + 1];
      }
    }
  }

  lemma NoKeyboard(d: Devices, text: seq<char>)
    requires d.kbd == None
    ensures var items := Sessions.TypeText(text, true).items;
            && (text == [] || Typing.StrokeOf(text[0]).None? ==> items == [])
            && IdealUntilError(d, items) == Outcome(d, [], if items == [] then [] else [KeyboardNotOpen])
            && (items != [] ==> Typing.StrokeOf(text[0]).Some?)
  {
  }

  lemma {:induction false} StrokesNeverFail(d: Devices, text: seq<char>)
    requires d.kbd.Some?
    ensures IdealUntilError(d, Sessions.TypeText(text, true).items).errors == []
    decreases |text|
  {
    hide Ideal, Typing.StrokeOf;
    if text != [] {
      var k := Typing.StrokeOf(text[0]);
      if k.Some? {
        var down, up := KeyEdge(k.value.scancode, true, k.value.mods), KeyEdge(k.value.scancode, false, k.value.mods);
        var rest := Sessions.TypeText(text[1..], true).items;
        var all := [down, up] + rest;
        StrokeIsKey(text[0]);
        KeyNeverFails(d, down);
        KeyNeverFails(Ideal(d, down).dev, up);
        var d2 := Ideal(Ideal(d, down).dev, up).dev;
        StrokesNeverFail(d2, text[1..]);
        assert all[1..] == [up] + rest && all[1..][1..] == rest;
      }
    }
  }

  lemma StrokeIsKey(c: char)
    requires Typing.StrokeOf(c).Some?
    ensures Typing.StrokeOf(c).value.scancode <= 0x65
  {
    Typing.ShiftedDigitRoundTrip(c, 0);
    Typing.SymbolRoundTrip(c, 0);
  }

  lemma KeyNeverFails(d: Devices, it: Item)
    requires d.kbd.Some? && it.KeyEdge? && it.scancode <= 0x65
    ensures Ideal(d, it).errors == [] && Ideal(d, it).dev.kbd.Some?
  {
  }
}
