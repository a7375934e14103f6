/** Where a session's promises stop: calls after a close, an open that fails half-way, and a close
    that is tried again (src/session.rs). */
module SessionFaults {
  import opened Bytes
  import opened Frames
  import opened Messages
  import opened Sessions
  import opened SessionLaws
  import opened Lifecycle
  import C = Coalesce
  import L = CoalesceLaws

  // Calls after a close ------------------------------------------------------------------

  /** What a direct user of the session can do. */
  datatype Call = Input(item: Item) | CloseCall

  function Calls(d: Devices, calls: seq<Call>): seq<Msg>
    decreases |calls|
  {
    if calls == [] then []
    else
      match calls[0]
      case CloseCall => Destroys(d) + Calls(Closed(d), calls[1..])
      case Input(it) =>
        var o := Ideal(d, it);
        o.msgs + Calls(o.dev, calls[1..])
  }

  /** The call sends an input of device `id`, whatever the session's `closed` flag says: a key with
      a scancode that the descriptor covers, or any mouse call. */
  predicate Unguarded(q: OpenRequest, it: Item, id: u16) {
    || (id == HID_ID_KEYBOARD && q.kbd && it.KeyEdge? && (it.scancode <= 0x65 || IsModifier(it.scancode)))
    || (id == HID_ID_MOUSE && q.mouse && (it.MouseMotion? || it.MouseButtons?))
  }

  predicate InputBehindClose(q: OpenRequest, calls: seq<Call>, id: u16) {
    exists i, j :: 0 <= i < j < |calls| && calls[i] == CloseCall && calls[j].Input? && Unguarded(q, calls[j].item, id)
  }

  predicate InputBehindDestroy(ms: seq<Msg>, id: u16) {
    exists i, j :: 0 <= i < j < |ms| && ms[i] == UhidDestroy(id) && ms[j].UhidInput? && ms[j].id == id
  }

  predicate AnyUnguarded(q: OpenRequest, calls: seq<Call>, id: u16) {
    exists j :: 0 <= j < |calls| && calls[j].Input? && Unguarded(q, calls[j].item, id)
  }

  predicate HasInput(ms: seq<Msg>, id: u16) {
    exists j :: 0 <= j < |ms| && ms[j].UhidInput? && ms[j].id == id
  }

  /** A session opened for `q` and then closed. */
  predicate Shut(d: Devices, q: OpenRequest) {
    d.closed && d.kbd.Some? == q.kbd && d.mouse == q.mouse && d.pad == None
  }

  lemma ShutPlan(q: OpenRequest, d: Devices, it: Item, id: u16)
    requires Shut(d, q)
    ensures var o := Ideal(d, it);
            Shut(o.dev, q) && |o.msgs| <= 1 && (HasInput(o.msgs, id) <==> Unguarded(q, it, id))
            && forall m :: m in o.msgs ==> !m.UhidDestroy?
  {
    hide FullState, Pack;
    var o := Ideal(d, it);
    if Unguarded(q, it, id) {
      assert o.msgs[0].UhidInput? && o.msgs[0].id == id;
    }
  }

  lemma {:induction false} ShutCalls(q: OpenRequest, d: Devices, calls: seq<Call>, id: u16)
    requires Shut(d, q)
    ensures HasInput(Calls(d, calls), id) <==> AnyUnguarded(q, calls, id)
    ensures forall m :: m in Calls(d, calls) ==> !m.UhidDestroy?
    decreases |calls|
  {
    hide Ideal, Unguarded;
    if calls != [] {
      var rest := calls[1..];
      if calls[0].Input? {
        ShutPlan(q, d, calls[0].item, id);
        var o := Ideal(d, calls[0].item);
        ShutCalls(q, o.dev, rest, id);
        HasInputSplit(o.msgs, Calls(o.dev, rest), id);
        assert Calls(d, calls) == o.msgs + Calls(o.dev, rest);
      } else {
        assert calls[0] == CloseCall && Closed(d) == d && Destroys(d) == [];
        assert Calls(d, calls) == [] + Calls(d, rest) == Calls(d, rest);
        ShutCalls(q, d, rest, id);
      }
      AnyUnguardedHere(q, calls, id);
    }
  }

  lemma AnyUnguardedHere(q: OpenRequest, calls: seq<Call>, id: u16)
    requires calls != []
    ensures AnyUnguarded(q, calls, id) <==>
            AnyUnguarded(q, calls[1..], id) || (calls[0].Input? && Unguarded(q, calls[0].item, id))
  {
    hide Unguarded;
    var rest := calls[1..];
    if j :| 0 <= j < |rest| && rest[j].Input? && Unguarded(q, rest[j].item, id) {
      assert calls[j + 1].Input? && Unguarded(q, calls[j + 1].item, id);
    }
    if j :| 0 < j < |calls| && calls[j].Input? && Unguarded(q, calls[j].item, id) {
      assert rest[j - 1].Input? && Unguarded(q, rest[j - 1].item, id);
    }
  }

  lemma HasInputSplit(a: seq<Msg>, b: seq<Msg>, id: u16)
    ensures HasInput(a + b, id) <==> HasInput(a, id) || HasInput(b, id)
  {
    var ab := a + b;
    if j :| 0 <= j < |a| && a[j].UhidInput? && a[j].id == id {
      assert ab[j].UhidInput? && ab[j].id == id;
    }
    if j :| 0 <= j < |b| && b[j].UhidInput? && b[j].id == id {
      assert ab[|a| + j].UhidInput? && ab[|a| + j].id == id;
    }
    if j :| 0 <= j < |ab| && ab[j].UhidInput? && ab[j].id == id {
      if j >= |a| {
        assert b[j - |a|].UhidInput? && b[j - |a|].id == id;
      }
    }
  }

  /** `key` and the mouse methods do not look at `closed`. In the ideal's messages, which a reliable
      transport carries, a device receives an input behind its own UHID_DESTROY if and only if the
      caller makes such a call after a close; the gamepad never does. AfterClose has the condition
      for a transport that fails. */
  lemma {:induction false} InputBehindDestroyIff(q: OpenRequest, d: Devices, calls: seq<Call>, id: u16)
    requires Live(d, q)
    ensures InputBehindDestroy(Calls(d, calls), id) <==> InputBehindClose(q, calls, id)
    ensures id == HID_ID_GAMEPAD ==> !InputBehindDestroy(Calls(d, calls), id)
    decreases |calls|
  {
    hide Ideal, Unguarded;
    var ms := Calls(d, calls);
    if calls == [] {
    } else if calls[0].Input? {
      var rest := calls[1..];
      var o := Ideal(d, calls[0].item);
      IdealStaysLive(q, d, calls[0].item);
      assert forall i :: 0 <= i < |o.msgs| ==> IsInput(q, o.msgs[i]);
      InputBehindDestroyIff(q, o.dev, rest, id);
      BehindDestroyShift(o.msgs, Calls(o.dev, rest), id);
      BehindCloseShift(q, calls, id);
    } else {
      var rest := calls[1..];
      ShutCalls(q, Closed(d), rest, id);
      BehindDestroys(Destroys(d), Calls(Closed(d), rest), q, id);
      BehindFirstClose(q, calls, id);
      AnyUnguardedWanted(q, rest, id);
    }
    PadIsGuarded(q, calls);
  }

  lemma PadIsGuarded(q: OpenRequest, calls: seq<Call>)
    ensures !InputBehindClose(q, calls, HID_ID_GAMEPAD)
  {
  }

  lemma AnyUnguardedWanted(q: OpenRequest, calls: seq<Call>, id: u16)
    ensures AnyUnguarded(q, calls, id) ==> Wanted(q, id)
  {
  }

  lemma BehindDestroyShift(first: seq<Msg>, rest: seq<Msg>, id: u16)
    requires forall m :: m in first ==> !m.UhidDestroy?
    ensures InputBehindDestroy(first + rest, id) <==> InputBehindDestroy(rest, id)
  {
    var ms := first + rest;
    assert forall k :: 0 <= k < |first| ==> ms[k] in first;
    if i, j :| 0 <= i < j < |rest| && rest[i] == UhidDestroy(id) && rest[j].UhidInput? && rest[j].id == id {
      assert ms[|first| + i] == UhidDestroy(id) && ms[|first| + j] == rest[j];
    }
    if i, j :| 0 <= i < j < |ms| && ms[i] == UhidDestroy(id) && ms[j].UhidInput? && ms[j].id == id {
      assert rest[i - |first|] == UhidDestroy(id) && rest[j - |first|] == ms[j];
    }
  }

  lemma BehindCloseShift(q: OpenRequest, calls: seq<Call>, id: u16)
    requires calls != [] && calls[0].Input?
    ensures InputBehindClose(q, calls, id) <==> InputBehindClose(q, calls[1..], id)
  {
    hide Unguarded;
    var rest := calls[1..];
    if i, j :| 0 <= i < j < |rest| && rest[i] == CloseCall && rest[j].Input? && Unguarded(q, rest[j].item, id) {
      assert calls[i + 1] == CloseCall && calls[j + 1].Input? && Unguarded(q, calls[j + 1].item, id);
    }
    if i, j :| 0 <= i < j < |calls| && calls[i] == CloseCall && calls[j].Input? && Unguarded(q, calls[j].item, id) {
      assert rest[i - 1] == CloseCall && rest[j - 1].Input? && Unguarded(q, rest[j - 1].item, id);
    }
  }

  lemma BehindFirstClose(q: OpenRequest, calls: seq<Call>, id: u16)
    requires calls != [] && calls[0] == CloseCall
    ensures InputBehindClose(q, calls, id) <==> AnyUnguarded(q, calls[1..], id)
  {
    hide Unguarded;
    var rest := calls[1..];
    if i, j :| 0 <= i < j < |calls| && calls[i] == CloseCall && calls[j].Input? && Unguarded(q, calls[j].item, id) {
      assert rest[j - 1].Input? && Unguarded(q, rest[j - 1].item, id);
    }
    if j :| 0 <= j < |rest| && rest[j].Input? && Unguarded(q, rest[j].item, id) {
      assert calls[0] == CloseCall && calls[j + 1].Input? && Unguarded(q, calls[j + 1].item, id);
    }
  }

  lemma WantedIsDestroyed(q: OpenRequest, id: u16)
    ensures UhidDestroy(id) in DestroysOf(q) <==> Wanted(q, id)
    ensures forall k :: 0 <= k < |DestroysOf(q)| ==> DestroysOf(q)[k].UhidDestroy?
  {
    var n := (if q.kbd then 1 else 0);
    var k := if id == HID_ID_KEYBOARD then 0 else if id == HID_ID_MOUSE then n else n + (if q.mouse then 1 else 0);
    assert Wanted(q, id) ==> k < |DestroysOf(q)| && DestroysOf(q)[k] == UhidDestroy(id);
  }

  lemma BehindDestroys(destroys: seq<Msg>, rest: seq<Msg>, q: OpenRequest, id: u16)
    requires destroys == DestroysOf(q)
    requires forall m :: m in rest ==> !m.UhidDestroy?
    ensures InputBehindDestroy(destroys + rest, id) <==> Wanted(q, id) && HasInput(rest, id)
  {
    hide DestroysOf, Wanted;
    var ms := destroys + rest;
    WantedIsDestroyed(q, id);
    assert forall k :: |destroys| <= k < |ms| ==> ms[k] in rest;
    if Wanted(q, id) && HasInput(rest, id) {
      var i :| 0 <= i < |destroys| && destroys[i] == UhidDestroy(id);
      var j :| 0 <= j < |rest| && rest[j].UhidInput? && rest[j].id == id;
      assert ms[i] == UhidDestroy(id) && ms[|destroys| + j] == rest[j];
    }
    if i, j :| 0 <= i < j < |ms| && ms[i] == UhidDestroy(id) && ms[j].UhidInput? && ms[j].id == id {
      assert destroys[i] == UhidDestroy(id) && UhidDestroy(id) in destroys;
      assert rest[j - |destroys|] == ms[j];
    }
  }

  // The calls on a session ---------------------------------------------------------------

  function RunCalls(e: C.Env, s: Session, calls: seq<Call>): Session
    decreases |calls|
  {
    if calls == [] then s
    else
      match calls[0]
      case CloseCall => RunCalls(e, CloseAll(e, s).0, calls[1..])
      case Input(it) => RunCalls(e, Perform(e, s, it).0, calls[1..])
  }

  function CallsDevices(d: Devices, calls: seq<Call>): Devices
    decreases |calls|
  {
    if calls == [] then d
    else
      match calls[0]
      case CloseCall => CallsDevices(Closed(d), calls[1..])
      case Input(it) => CallsDevices(Ideal(d, it).dev, calls[1..])
  }

  /** On a reliable transport the calls append exactly those messages to the session's stream. */
  lemma {:induction false} CallsReachTheStream(e: C.Env, s: Session, calls: seq<Call>)
    requires C.Reliable(e) && s.writer.Valid()
    ensures Did(s, RunCalls(e, s, calls), Outcome(CallsDevices(s.dev, calls), Calls(s.dev, calls), []))
    decreases |calls|
  {
    hide Perform, CloseAll, Ideal, SerializeAll, Destroys, Closed, Appends;
    if calls == [] {
      NothingDone(s);
    } else {
      var first := match calls[0] case CloseCall => Outcome(Closed(s.dev), Destroys(s.dev), [])
                                  case Input(it) => Ideal(s.dev, it);
      var s1 := match calls[0] case CloseCall => CloseAll(e, s).0 case Input(it) => Perform(e, s, it).0;
      if calls[0].CloseCall? {
        CloseDoes(e, s);
      } else {
        PerformDoes(e, s, calls[0].item);
      }
      StillValid(s, s1, first);
      CallsReachTheStream(e, s1, calls[1..]);
      DidThenDid(s, s1, RunCalls(e, s1, calls[1..]), first,
                 Outcome(CallsDevices(s1.dev, calls[1..]), Calls(s1.dev, calls[1..]), []),
                 Outcome(CallsDevices(s.dev, calls), Calls(s.dev, calls), []));
    }
  }

  lemma NothingDone(s: Session)
    requires s.writer.Valid()
    ensures Did(s, s, Outcome(s.dev, [], []))
  {
    SerializeAllNone();
  }

  lemma StillValid(a: Session, b: Session, o: Outcome)
    requires Did(a, b, o)
    ensures b.writer.Valid()
  {
  }

  // Critical messages on a failing transport -----------------------------------------------

  /** Of `count` critical messages sent from transport call `calls` on, each one write and one
      flush: how many are acknowledged, and how many reach the wire. They differ by the one whose
      write lands and whose flush fails. */
  function Acks(e: C.Env, calls: nat, count: nat): (k: nat)
    ensures k <= count
    decreases count
  {
    if count == 0 || !e.writeOk(calls) || !e.flushOk(calls + 1) then 0 else 1 + Acks(e, calls + 2, count - 1)
  }

  function Lands(e: C.Env, calls: nat, count: nat): (k: nat)
    ensures k <= count
    decreases count
  {
    if count == 0 || !e.writeOk(calls) then 0
    else if !e.flushOk(calls + 1) then 1
    else 1 + Lands(e, calls + 2, count - 1)
  }

  function CallsAfter(e: C.Env, calls: nat, count: nat): nat {
    var k := Acks(e, calls, count);
    calls + 2 * k + (if k == count then 0 else if e.writeOk(calls + 2 * k) then 2 else 1)
  }

  lemma {:induction false} LandsIsAcksOrOneMore(e: C.Env, calls: nat, count: nat)
    ensures var k := Acks(e, calls, count);
            Lands(e, calls, count) == k + (if k < count && e.writeOk(calls + 2 * k) then 1 else 0)
    decreases count
  {
    if count > 0 {
      LandsIsAcksOrOneMore(e, calls + 2, count - 1);
    }
  }

  lemma {:induction false} AcksOfFewer(e: C.Env, calls: nat, a: nat, b: nat)
    requires a <= b
    ensures Acks(e, calls, a) == Min(Acks(e, calls, b), a)
    decreases a
  {
    if a > 0 {
      AcksOfFewer(e, calls + 2, a - 1, b - 1);
    }
  }

  /** A series of messages, up to the first that fails. */
  function SendEach(e: C.Env, w: C.Writer, ms: seq<Msg>): (C.Writer, Result<()>)
    decreases |ms|
  {
    if ms == [] then (w, Ok(()))
    else
      var (w1, r) := C.Push(e, w, ms[0]);
      if r.Err? then (w1, Err(r.error)) else SendEach(e, w1, ms[1..])
  }

  lemma {:induction false} SendEachAppend(e: C.Env, w: C.Writer, a: seq<Msg>, b: seq<Msg>)
    ensures var (w1, r) := SendEach(e, w, a);
            SendEach(e, w, a + b) == if r.Err? then (w1, r) else SendEach(e, w1, b)
    decreases |a|
  {
    hide C.Push;
    if a == [] {
      assert a + b == b;
    } else {
      assert (a + b)[0] == a[0] && (a + b)[1..] == a[1..] + b;
      SendEachAppend(e, C.Push(e, w, a[0]).0, a[1..], b);
    }
  }

  lemma SendEachOne(e: C.Env, s: Session, m: Msg, wanted: bool)
    ensures var (s', r) := if wanted then Send(e, s, m) else Unit(s);
            (s'.writer, r) == SendEach(e, s.writer, if wanted then [m] else []) && s'.dev == s.dev
  {
    hide C.Push;
    var one := [m];
    assert one[1..] == [];
  }

  predicate AllCritical(ms: seq<Msg>) {
    forall i :: 0 <= i < |ms| ==> ms[i].Critical() && Serialize(ms[i]).Ok?
  }

  /** A critical message with nothing buffered is one write and one flush. */
  lemma PushCritical(e: C.Env, w: C.Writer, m: Msg)
    requires w.pending == [] && m.Critical() && Serialize(m).Ok?
    ensures var (w', r) := C.Push(e, w, m);
            var landed, flushed := e.writeOk(w.calls), e.flushOk(w.calls + 1);
            && w'.pending == []
            && w'.wire == w.wire + (if landed then Encoding(m) else [])
            && w'.calls == w.calls + (if landed then 2 else 1)
            && (r.Ok? <==> landed && flushed)
            && (!landed ==> r == Err(WriteFailed(w.calls)))
            && (landed && !flushed ==> r == Err(FlushFailed(w.calls + 1)))
  {
    hide Serialize;
    L.EncodingOk(m);
  }

  /** The error of a critical message sent at transport call `n` that fails. */
  function FailureAt(e: C.Env, n: nat): Error {
    if e.writeOk(n) then FlushFailed(n + 1) else WriteFailed(n)
  }

  /** The three counters, one message on. */
  lemma Unfold(e: C.Env, calls: nat, count: nat)
    ensures count == 0 ==> Acks(e, calls, 0) == 0 && Lands(e, calls, 0) == 0 && CallsAfter(e, calls, 0) == calls
    ensures count > 0 ==>
              if e.writeOk(calls) && e.flushOk(calls + 1) then
                && Acks(e, calls, count) == 1 + Acks(e, calls + 2, count - 1)
                && Lands(e, calls, count) == 1 + Lands(e, calls + 2, count - 1)
                && CallsAfter(e, calls, count) == CallsAfter(e, calls + 2, count - 1)
              else
                var landed := e.writeOk(calls);
                && Acks(e, calls, count) == 0 && Lands(e, calls, count) == (if landed then 1 else 0)
                && CallsAfter(e, calls, count) == calls + (if landed then 2 else 1)
  {
  }

  lemma {:induction false} SendEachLands(e: C.Env, w: C.Writer, ms: seq<Msg>)
    requires w.pending == [] && AllCritical(ms)
    ensures var (w', r) := SendEach(e, w, ms);
            && w'.pending == [] && w'.wire == w.wire + SerializeAll(ms[..Lands(e, w.calls, |ms|)])
            && (r.Ok? <==> Acks(e, w.calls, |ms|) == |ms|) && (r.Ok? ==> r == Ok(()))
            && (r.Err? ==> r.error == FailureAt(e, w.calls + 2 * Acks(e, w.calls, |ms|)))
            && w'.calls == CallsAfter(e, w.calls, |ms|)
    decreases |ms|
  {
    hide C.Push, SerializeAll, Serialize, Acks, Lands, CallsAfter;
    Unfold(e, w.calls, |ms|);
    SerializeAllNone();
    var l := Lands(e, w.calls, |ms|);
    if ms == [] {
      assert ms[..l] == [];
    } else {
      PushCritical(e, w, ms[0]);
      var (w1, r1) := C.Push(e, w, ms[0]);
      SerializeAllOne(ms[0]);
      if r1.Ok? {
        SendEachLands(e, w1, ms[1..]);
        assert ms[..l] == [ms[0]] + ms[1..][..l - 1];
        SerializeAllAppend([ms[0]], ms[1..][..l - 1]);
      } else {
        assert ms[..0] == [] && ms[..1] == [ms[0]];
      }
    }
  }

  /** With bytes buffered, the first critical message drains them before it is sent. */
  function Acked(e: C.Env, w: C.Writer, count: nat): (k: nat)
    ensures k <= count
  {
    var (w1, r) := C.FlushNow(e, w);
    if r.Err? then 0 else Acks(e, w1.calls, count)
  }

  function Landed(e: C.Env, w: C.Writer, count: nat): (k: nat)
    ensures k <= count
  {
    var (w1, r) := C.FlushNow(e, w);
    if r.Err? then 0 else Lands(e, w1.calls, count)
  }

  /** The first critical message sent now reaches the wire. */
  predicate FirstLands(e: C.Env, w: C.Writer) {
    var (w1, r) := C.FlushNow(e, w);
    r.Ok? && e.writeOk(w1.calls)
  }

  /** What draining the buffer puts on the wire. */
  function Drained(e: C.Env, w: C.Writer): seq<byte> {
    if e.writeOk(w.calls) then w.pending else []
  }

  lemma DrainedFirst(e: C.Env, w: C.Writer, ms: seq<Msg>)
    requires w.Valid() && ms != [] && AllCritical(ms)
    ensures var (w1, f) := C.FlushNow(e, w);
            && w1.Valid() && w1.wire == w.wire + Drained(e, w)
            && (f.Ok? ==> w1.pending == [] && SendEach(e, w, ms) == SendEach(e, w1, ms))
            && (f.Err? ==>
                  && w1.pending == w.pending
                  && SendEach(e, w, ms) == (w1.(pushed := w1.pushed + 1), Err(f.error)))
  {
    hide Serialize, C.SendFor;
    var (w1, f) := C.FlushNow(e, w);
    L.CountingDoesNotMatter(e, w, 1);
    if f.Ok? {
      assert C.Push(e, w, ms[0]) == C.Push(e, w1, ms[0]);
    } else {
      assert !w.direct;
    }
  }

  lemma SendEachDrains(e: C.Env, w: C.Writer, ms: seq<Msg>)
    requires w.Valid() && ms != [] && AllCritical(ms)
    ensures var (w', r) := SendEach(e, w, ms);
            && w'.Valid()
            && w'.wire == w.wire + Drained(e, w) + SerializeAll(ms[..Landed(e, w, |ms|)])
            && (r.Ok? <==> Acked(e, w, |ms|) == |ms|) && (r.Ok? ==> r == Ok(()))
            && w'.pending == (if C.FlushNow(e, w).1.Err? then w.pending else [])
  {
    hide SendEach, SerializeAll, Serialize, C.FlushNow, AllCritical;
    DrainedFirst(e, w, ms);
    var (w1, f) := C.FlushNow(e, w);
    if f.Ok? {
      SendEachLands(e, w1, ms);
    } else {
      assert ms[..0] == [];
      SerializeAllNone();
    }
  }

  lemma AckedOfFewer(e: C.Env, w: C.Writer, a: nat, b: nat)
    requires a <= b
    ensures Acked(e, w, a) == Min(Acked(e, w, b), a)
  {
    hide C.FlushNow;
    AcksOfFewer(e, C.FlushNow(e, w).0.calls, a, b);
  }

  /** A series is acknowledged in full exactly if it returns Ok, an empty one always. */
  lemma SendEachAcked(e: C.Env, w: C.Writer, ms: seq<Msg>)
    requires w.Valid() && AllCritical(ms)
    ensures SendEach(e, w, ms).1.Ok? <==> ms == [] || Acked(e, w, |ms|) == |ms|
    ensures SendEach(e, w, ms).1.Ok? ==> SendEach(e, w, ms).1 == Ok(())
  {
    hide Acked, AllCritical;
    if ms != [] {
      SendEachDrains(e, w, ms);
    }
  }

  lemma CreatesAreCritical(q: OpenRequest)
    ensures AllCritical(Creates(q))
  {
  }

  lemma DestroysAreCritical(d: Devices)
    ensures AllCritical(Destroys(d))
  {
  }

  lemma PrefixIsCritical(a: seq<Msg>, b: seq<Msg>)
    requires AllCritical(a + b)
    ensures AllCritical(a)
  {
    assert forall i :: 0 <= i < |a| ==> (a + b)[i] == a[i];
  }

  // Opening ------------------------------------------------------------------------------

  /** The devices that the first `k` requested creates opened. */
  function OpenedFirst(q: OpenRequest, k: nat): Devices {
    var mouseAt := if q.kbd then 1 else 0;
    var padAt := mouseAt + (if q.mouse then 1 else 0);
    Devices(if q.kbd && 0 < k then Some(Kbd({})) else None, q.mouse && mouseAt < k,
            if q.pad && padAt < k then Some(Pad(FRESH_SLOT, true)) else None, false, 1080, 1920)
  }

  lemma DestroysOfFirst(q: OpenRequest, k: nat)
    requires k <= |Creates(q)|
    ensures |DestroysOf(q)| == |Creates(q)| && Destroys(OpenedFirst(q, k)) == DestroysOf(q)[..k]
  {
  }

  /** On every transport opening is sending the creates, and the devices are those whose create was
      acknowledged. */
  lemma OpenIsCreates(e: C.Env, q: OpenRequest)
    ensures var (s, r) := OpenDevices(e, q);
            && (s.writer, r) == SendEach(e, OpenWriter(q), Creates(q))
            && s.dev == OpenedFirst(q, Acks(e, 0, |Creates(q)|))
  {
    hide Send, SendEach, Serialize, SerializeAll, AllCritical, CreateKeyboard, CreateMouse, CreateGamepad, Acks, Lands;
    var s0 := Session(NO_DEVICES, OpenWriter(q));
    var m1 := if q.kbd then [CreateKeyboard(q)] else [];
    var m2 := if q.mouse then [CreateMouse(q)] else [];
    var m3 := if q.pad then [CreateGamepad(q)] else [];
    CreatesAreCritical(q);
    PrefixIsCritical(m1 + m2, m3);
    PrefixIsCritical(m1, m2);
    AcksOfFewer(e, 0, |m1 + m2|, |m1 + m2 + m3|);
    AcksOfFewer(e, 0, |m1|, |m1 + m2 + m3|);
    SendEachOne(e, s0, CreateKeyboard(q), q.kbd);
    SendEachLands(e, s0.writer, m1);
    var s1 := OpenKeyboard(e, q, s0).0;
    SendEachAppend(e, s0.writer, m1, m2);
    SendEachOne(e, s1, CreateMouse(q), q.mouse);
    SendEachLands(e, s0.writer, m1 + m2);
    var s2 := OpenMouse(e, q, s1).0;
    SendEachAppend(e, s0.writer, m1 + m2, m3);
    SendEachOne(e, s2, CreateGamepad(q), q.pad);
    SendEachLands(e, s0.writer, m1 + m2 + m3);
  }

  /** On every transport closing is sending the destroys; failing at the gamepad frees its slot. */
  lemma CloseIsDestroys(e: C.Env, s: Session)
    requires s.writer.Valid() && !s.dev.closed
    ensures var (s', r) := CloseAll(e, s);
            var ms := Destroys(s.dev);
            var k := Acked(e, s.writer, |ms|);
            var bound := s.dev.pad.Some? && s.dev.pad.value.bound;
            && (s'.writer, r) == SendEach(e, s.writer, ms)
            && s'.dev == if k == |ms| then Closed(s.dev)
                         else if bound && k == |ms| - 1 then
                           s.dev.(pad := Some(s.dev.pad.value.(bound := false)))
                         else s.dev
  {
    hide Send, SendEach, Serialize, SerializeAll, AllCritical, Acked, Landed;
    var bound := s.dev.pad.Some? && s.dev.pad.value.bound;
    var m1 := if s.dev.kbd.Some? then [UhidDestroy(HID_ID_KEYBOARD)] else [];
    var m2 := if s.dev.mouse then [UhidDestroy(HID_ID_MOUSE)] else [];
    var m3 := if bound then [UhidDestroy(HID_ID_GAMEPAD)] else [];
    DestroysAreCritical(s.dev);
    PrefixIsCritical(m1 + m2, m3);
    PrefixIsCritical(m1, m2);
    AckedOfFewer(e, s.writer, |m1 + m2|, |m1 + m2 + m3|);
    AckedOfFewer(e, s.writer, |m1|, |m1 + m2 + m3|);
    SendEachOne(e, s, UhidDestroy(HID_ID_KEYBOARD), s.dev.kbd.Some?);
    SendEachAcked(e, s.writer, m1);
    var s1 := CloseKeyboard(e, s).0;
    SendEachAppend(e, s.writer, m1, m2);
    SendEachOne(e, s1, UhidDestroy(HID_ID_MOUSE), s.dev.mouse);
    SendEachAcked(e, s.writer, m1 + m2);
    var s2 := CloseMouse(e, s1).0;
    SendEachAppend(e, s.writer, m1 + m2, m3);
    var freed := if bound then s2.(dev := s2.dev.(pad := Some(s2.dev.pad.value.(bound := false)))) else s2;
    SendEachOne(e, freed, UhidDestroy(HID_ID_GAMEPAD), bound);
    SendEachAcked(e, s.writer, m1 + m2 + m3);
  }

  predicate EveryCreatedIsDestroyed(created: seq<Msg>, destroyed: seq<Msg>) {
    forall m :: m in created && m.UhidCreate? ==> UhidDestroy(m.id) in destroyed
  }

  /** A failed open on any transport: `k` creates were acknowledged, `l` reached the wire, and the
      rollback got `d` of the `k` destroys it owes onto the wire. Every device that was created is
      destroyed again if and only if the call that failed was a create's write and all those
      destroys reach the wire: a create that lands and then fails to flush is never rolled back. */
  lemma OpenRollsBackIff(e: C.Env, q: OpenRequest)
    ensures var (s, r) := Open(e, q);
            var n := |Creates(q)|;
            var k, l := Acks(e, 0, n), Lands(e, 0, n);
            var after := CallsAfter(e, 0, n);
            var d := Lands(e, after, k);
            && s.writer.pending == [] && |DestroysOf(q)| == n
            && (r.Ok? <==> k == n) && (r.Err? ==> r.error == FailureAt(e, 2 * k))
            && (k == n ==> s.dev == Opened(q) && s.writer.wire == SerializeAll(Creates(q)))
            && (k < n ==>
                  && s.writer.wire == SerializeAll(Creates(q)[..l] + DestroysOf(q)[..d])
                  && (s.dev.closed <==> Acks(e, after, k) == k)
                  && (EveryCreatedIsDestroyed(Creates(q)[..l], DestroysOf(q)[..d]) <==>
                        !e.writeOk(2 * k) && Lands(e, 2 * k + 1, k) == k))
  {
    hide SendEach, SerializeAll, OpenDevices, CloseAll, DropSession, Acks, Lands, EveryCreatedIsDestroyed, Creates,
         DestroysOf, OpenedFirst, Opened, Destroys;
    var (s, r) := OpenDevices(e, q);
    var n := |Creates(q)|;
    var k, l := Acks(e, 0, n), Lands(e, 0, n);
    OpenLands(e, q);
    LandsIsAcksOrOneMore(e, 0, n);
    DestroysOfFirst(q, k);
    if k == n {
      assert Creates(q)[..n] == Creates(q);
      AllOpened(q);
    } else {
      var d := Lands(e, s.writer.calls, k);
      RollbackLands(e, s, DestroysOf(q)[..k]);
      assert DestroysOf(q)[..k][..d] == DestroysOf(q)[..d];
      SerializeAllAppend(Creates(q)[..l], DestroysOf(q)[..d]);
      RollbackIsCompleteIff(q, l, d);
    }
  }

  lemma AllOpened(q: OpenRequest)
    ensures OpenedFirst(q, |Creates(q)|) == Opened(q)
  {
  }

  /** Opening up to its first failure, before any rollback. */
  lemma OpenLands(e: C.Env, q: OpenRequest)
    ensures var (s, r) := OpenDevices(e, q);
            var n := |Creates(q)|;
            && s.writer.pending == [] && s.writer.wire == SerializeAll(Creates(q)[..Lands(e, 0, n)])
            && s.writer.calls == CallsAfter(e, 0, n)
            && (r.Ok? <==> Acks(e, 0, n) == n) && (r.Err? ==> r.error == FailureAt(e, 2 * Acks(e, 0, n)))
            && s.dev == OpenedFirst(q, Acks(e, 0, n)) && !s.dev.closed
  {
    hide SendEach, SerializeAll, OpenDevices, Acks, Lands, CallsAfter, Creates;
    OpenIsCreates(e, q);
    CreatesAreCritical(q);
    SendEachLands(e, OpenWriter(q), Creates(q));
    var bytes := SerializeAll(Creates(q)[..Lands(e, 0, |Creates(q)|)]);
    assert [] + bytes == bytes;
  }

  lemma RollbackLands(e: C.Env, s: Session, ms: seq<Msg>)
    requires s.writer.pending == [] && !s.dev.closed && Destroys(s.dev) == ms
    ensures var s' := DropSession(e, s);
            && s'.writer.pending == []
            && s'.writer.wire == s.writer.wire + SerializeAll(ms[..Lands(e, s.writer.calls, |ms|)])
            && (s'.dev.closed <==> Acks(e, s.writer.calls, |ms|) == |ms|)
  {
    hide SendEach, SerializeAll, Acks, Lands, CloseAll;
    DestroysAreCritical(s.dev);
    CloseIsDestroys(e, s);
    SendEachLands(e, s.writer, ms);
  }

  lemma CreatesMatchDestroys(q: OpenRequest)
    ensures |DestroysOf(q)| == |Creates(q)|
    ensures forall i :: 0 <= i < |Creates(q)| ==>
              Creates(q)[i].UhidCreate? && DestroysOf(q)[i] == UhidDestroy(Creates(q)[i].id)
    ensures forall i, j :: 0 <= i < j < |DestroysOf(q)| ==> DestroysOf(q)[i] != DestroysOf(q)[j]
  {
  }

  lemma RollbackIsCompleteIff(q: OpenRequest, l: nat, d: nat)
    requires l <= |Creates(q)| && |DestroysOf(q)| == |Creates(q)| && d <= |DestroysOf(q)|
    ensures EveryCreatedIsDestroyed(Creates(q)[..l], DestroysOf(q)[..d]) <==> l <= d
  {
    var creates, destroys := Creates(q), DestroysOf(q);
    CreatesMatchDestroys(q);
    hide Creates, DestroysOf;
    if l <= d {
      forall m | m in creates[..l] && m.UhidCreate?
        ensures UhidDestroy(m.id) in destroys[..d]
      {
        var i :| 0 <= i < l && creates[i] == m;
        assert destroys[..d][i] == UhidDestroy(m.id);
      }
    } else {
      assert creates[d] in creates[..l];
      assert destroys[d] !in destroys[..d];
    }
  }

  /** The leak: the keyboard's create lands, its flush fails, and the open returns the error with
      the device still there and nothing owed. */
  lemma CreatedKeyboardLeaks(e: C.Env, q: OpenRequest)
    requires q.kbd && e.writeOk(0) && !e.flushOk(1)
    ensures var (s, r) := Open(e, q);
            && r == Err(FlushFailed(1)) && s.dev.closed && s.writer.pending == []
            && s.writer.wire == Encoding(CreateKeyboard(q))
  {
    hide Serialize, SerializeAll, CreateKeyboard;
    CreatesSerialize(q);
    PushCriticalKeyboard(e, q);
  }

  lemma PushCriticalKeyboard(e: C.Env, q: OpenRequest)
    requires e.writeOk(0) && !e.flushOk(1)
    ensures var (w, r) := C.Push(e, OpenWriter(q), CreateKeyboard(q));
            && r == Err(FlushFailed(1)) && w.pending == [] && w.wire == Encoding(CreateKeyboard(q))
  {
    PushCritical(e, OpenWriter(q), CreateKeyboard(q)) by { CreatesSerialize(q); }
    assert [] + Encoding(CreateKeyboard(q)) == Encoding(CreateKeyboard(q));
  }

  // Closing twice ------------------------------------------------------------------------

  /** What a second close owes after a first that acknowledged `k` destroys: the keyboard and mouse
      once more, but not a gamepad whose slot was freed. */
  function Retried(q: OpenRequest, k: nat): seq<Msg>
    requires k <= |DestroysOf(q)|
  {
    var all := DestroysOf(q);
    if k == |all| then []
    else if q.pad && k == |all| - 1 then all[..k]
    else all
  }

  /** The destroys that reach the wire in a close and in a second one after it. */
  function FirstSent(e: C.Env, q: OpenRequest, s: Session): seq<Msg> {
    DestroysOf(q)[..Landed(e, s.writer, |DestroysOf(q)|)]
  }

  function SecondSent(e: C.Env, q: OpenRequest, s: Session): seq<Msg> {
    var again := Retried(q, Acked(e, s.writer, |DestroysOf(q)|));
    again[..Landed(e, CloseAll(e, s).0.writer, |again|)]
  }

  /** What the two closes drain from the buffer onto the wire: each close with something to send
      first writes what is still buffered. */
  function DrainedByBoth(e: C.Env, q: OpenRequest, s: Session): seq<byte> {
    var all := DestroysOf(q);
    (if all == [] then [] else Drained(e, s.writer))
    + (if Retried(q, Acked(e, s.writer, |all|)) == [] then [] else Drained(e, CloseAll(e, s).0.writer))
  }

  /** On every transport, whatever is buffered: two closes leave on the wire what draining the buffer
      put there, then those destroys. */
  lemma CloseThenRetry(e: C.Env, q: OpenRequest, s: Session)
    requires s.writer.Valid() && Live(s.dev, q)
    ensures var (s1, r1) := CloseAll(e, s);
            var (s2, r2) := CloseAll(e, s1);
            && (r1.Ok? <==> Acked(e, s.writer, |DestroysOf(q)|) == |DestroysOf(q)|)
            && (r2.Ok? ==> SecondSent(e, q, s) == Retried(q, Acked(e, s.writer, |DestroysOf(q)|)))
            && (r2.Ok? <==> s2.dev.closed)
            && s2.writer.wire
            == s.writer.wire + DrainedByBoth(e, q, s) + SerializeAll(FirstSent(e, q, s) + SecondSent(e, q, s))
  {
    OwedAtFirst(q, s.dev);
    hide SendEach, SerializeAll, CloseAll, AllCritical, Acked, Landed, Drained, DestroysOf, Destroys, Retried, Live;
    var all := DestroysOf(q);
    var w := s.writer;
    var (s1, r1) := CloseAll(e, s);
    var k, l := Acked(e, w, |all|), Landed(e, w, |all|);
    DestroysAreCritical(s.dev);
    CloseIsDestroys(e, s);
    SerializeAllNone();
    LandedOrNot(e, w, |all|);
    if k == |all| {
      ClosedIsClosed(e, s1);
      NothingRetried(e, q, s1.writer);
      assert DrainedByBoth(e, q, s) == if all == [] then [] else Drained(e, w);
      assert all[..|all|] == all && all + [] == all;
      if all == [] {
        NothingToSend(e, w);
        assert w.wire + [] + [] == w.wire;
      } else {
        SendEachDrains(e, w, all);
      }
    } else {
      SendEachDrains(e, w, all);
      SecondClose(e, q, s, s1, k, l);
    }
  }

  lemma OwedAtFirst(q: OpenRequest, d: Devices)
    requires Live(d, q)
    ensures Destroys(d) == DestroysOf(q) && !d.closed && Closed(d).closed
    ensures (d.pad.Some? && d.pad.value.bound) == q.pad
  {
  }

  lemma NothingRetried(e: C.Env, q: OpenRequest, w: C.Writer)
    ensures Retried(q, |DestroysOf(q)|) == [] && Retried(q, |DestroysOf(q)|)[..Landed(e, w, 0)] == []
  {
  }

  lemma NothingToSend(e: C.Env, w: C.Writer)
    ensures SendEach(e, w, []) == (w, Ok(())) && Acked(e, w, 0) == 0 && Landed(e, w, 0) == 0
  {
  }

  lemma LandedOrNot(e: C.Env, w: C.Writer, n: nat)
    ensures Acked(e, w, n) == n ==> Landed(e, w, n) == n
    ensures Landed(e, w, n) > 0 ==> C.FlushNow(e, w).1.Ok?
    ensures n > 0 ==> (Landed(e, w, n) > 0 <==> FirstLands(e, w))
    ensures Landed(e, w, n) in {Acked(e, w, n), Acked(e, w, n) + 1}
  {
    hide C.FlushNow;
    LandsIsAcksOrOneMore(e, C.FlushNow(e, w).0.calls, n);
  }

  lemma DrainedIsBuffer(e: C.Env, w: C.Writer)
    ensures Drained(e, w) in {[], w.pending}
  {
  }

  /** The second close, after a first that failed. */
  lemma SecondClose(e: C.Env, q: OpenRequest, s: Session, s1: Session, k: nat, l: nat)
    requires s.writer.Valid() && s1.writer.Valid()
    requires k < |DestroysOf(q)| && l <= |DestroysOf(q)|
    requires Live(s.dev, q)
    requires s1.dev == if q.pad && k == |DestroysOf(q)| - 1 then s.dev.(pad := Some(s.dev.pad.value.(bound := false)))
                       else s.dev
    requires s1.writer.wire == s.writer.wire + Drained(e, s.writer) + SerializeAll(DestroysOf(q)[..l])
    requires s1.writer.pending == (if C.FlushNow(e, s.writer).1.Err? then s.writer.pending else [])
    requires l > 0 ==> C.FlushNow(e, s.writer).1.Ok?
    ensures var (s2, r2) := CloseAll(e, s1);
            var sent := Retried(q, k)[..Landed(e, s1.writer, |Retried(q, k)|)];
            var drained := if Retried(q, k) == [] then [] else Drained(e, s1.writer);
            && (r2.Ok? ==> sent == Retried(q, k)) && (r2.Ok? <==> s2.dev.closed)
            && s2.writer.wire
            == s.writer.wire + (Drained(e, s.writer) + drained) + SerializeAll(DestroysOf(q)[..l] + sent)
  {
    OwedAfterFailure(q, s.dev, k);
    hide SendEach, SerializeAll, CloseAll, AllCritical, Acked, Landed, C.FlushNow, DestroysOf, Retried, Live,
         Destroys, Drained;
    var again := Retried(q, k);
    var sent := again[..Landed(e, s1.writer, |again|)];
    var first := SerializeAll(DestroysOf(q)[..l]);
    DestroysAreCritical(s1.dev);
    DrainedIsBuffer(e, s1.writer);
    CloseIsDestroys(e, s1);
    SerializeAllNone();
    SerializeAllAppend(DestroysOf(q)[..l], sent);
    var d1 := Drained(e, s.writer);
    if again == [] {
      NothingToSend(e, s1.writer);
      assert first + [] == first && d1 + [] == d1;
    } else {
      SendEachDrains(e, s1.writer, again);
      LandedOrNot(e, s1.writer, |again|);
      assert again[..|again|] == again;
      var d2 := Drained(e, s1.writer);
      assert l == 0 ==> DestroysOf(q)[..l] == [];
      Reassociate(s.writer.wire, d1, first, d2, SerializeAll(sent));
    }
  }

  lemma Reassociate(wire: seq<byte>, d1: seq<byte>, first: seq<byte>, d2: seq<byte>, again: seq<byte>)
    requires first == [] || d2 == []
    ensures wire + d1 + first + d2 + again == wire + (d1 + d2) + (first + again)
  {
  }

  lemma OwedAfterFailure(q: OpenRequest, d: Devices, k: nat)
    requires Live(d, q) && k < |DestroysOf(q)|
    ensures var freed := if q.pad && k == |DestroysOf(q)| - 1 then d.(pad := Some(d.pad.value.(bound := false))) else d;
            Destroys(freed) == Retried(q, k) && !freed.closed
  {
  }

  lemma ClosedIsClosed(e: C.Env, s: Session)
    ensures s.dev.closed ==> CloseAll(e, s) == (s, Ok(()))
  {
  }

  function Count(ms: seq<Msg>, m: Msg): nat {
    multiset(ms)[m]
  }

  predicate OnlyPad(q: OpenRequest) {
    q.pad && !q.kbd && !q.mouse
  }

  /** Over every transport and every buffer, each device's destroy is on the wire exactly once after
      a close and a second one if and only if one of the two lands all the destroys and the other
      none. */
  lemma RetryIsExactlyOnceIff(e: C.Env, q: OpenRequest, s: Session)
    requires s.writer.Valid() && Live(s.dev, q)
    ensures var first, second := FirstSent(e, q, s), SecondSent(e, q, s);
            var n := |DestroysOf(q)|;
            && CloseAll(e, CloseAll(e, s).0).0.writer.wire
            == s.writer.wire + DrainedByBoth(e, q, s) + SerializeAll(first + second)
            && ((forall id: u16 :: Wanted(q, id) ==> Count(first + second, UhidDestroy(id)) == 1) <==>
                  (|first| == n && |second| == 0) || (|first| == 0 && |second| == n))
  {
    hide CloseAll, SerializeAll, Acked, Landed, DestroysOf, Retried, Count, Wanted, DrainedByBoth;
    CloseThenRetry(e, q, s);
    var n := |DestroysOf(q)|;
    LandedOrNot(e, s.writer, n);
    ExactlyOnceIff(q, Acked(e, s.writer, n), |FirstSent(e, q, s)|, |SecondSent(e, q, s)|);
  }

  /** If the second close succeeds, that is so exactly if the first one did, or the retry makes up
      for it: the gamepad is the only device and its destroy does reach the wire in the failed
      close, or there are others and the first destroy does not. */
  lemma SuccessfulRetryIsExactlyOnceIff(e: C.Env, q: OpenRequest, s: Session)
    requires s.writer.Valid() && Live(s.dev, q)
    requires CloseAll(e, CloseAll(e, s).0).1.Ok?
    ensures (forall id: u16 :: Wanted(q, id) ==>
               Count(FirstSent(e, q, s) + SecondSent(e, q, s), UhidDestroy(id)) == 1) <==>
            CloseAll(e, s).1.Ok? || (OnlyPad(q) <==> FirstLands(e, s.writer))
  {
    hide CloseAll, SerializeAll, Acked, Landed, FirstLands, Count, Wanted;
    CloseThenRetry(e, q, s);
    RetryIsExactlyOnceIff(e, q, s);
    LandedOrNot(e, s.writer, |DestroysOf(q)|);
  }

  /** All of `count` destroys reach the wire: the buffer drains, every write is taken, and every flush
      but the last succeeds. */
  predicate AllLand(e: C.Env, w: C.Writer, count: nat) {
    var (w1, r) := C.FlushNow(e, w);
    r.Ok? && AllTaken(e, w1.calls, count)
  }

  predicate AllTaken(e: C.Env, calls: nat, count: nat) {
    && (forall i :: 0 <= i < count ==> e.writeOk(calls + 2 * i))
    && (forall i :: 0 <= i < count - 1 ==> e.flushOk(calls + 2 * i + 1))
  }

  lemma AllTakenCons(e: C.Env, calls: nat, count: nat)
    requires count > 0
    ensures AllTaken(e, calls, count) <==>
            e.writeOk(calls) && (count == 1 || (e.flushOk(calls + 1) && AllTaken(e, calls + 2, count - 1)))
  {
    if AllTaken(e, calls, count) {
      assert e.writeOk(calls + 2 * 0) && (count > 1 ==> e.flushOk(calls + 2 * 0 + 1));
      forall i | 0 <= i < count - 1
        ensures e.writeOk(calls + 2 + 2 * i) && (i < count - 2 ==> e.flushOk(calls + 2 + 2 * i + 1))
      {
        assert e.writeOk(calls + 2 * (i + 1)) && (i < count - 2 ==> e.flushOk(calls + 2 * (i + 1) + 1));
      }
    }
    if e.writeOk(calls) && (count == 1 || (e.flushOk(calls + 1) && AllTaken(e, calls + 2, count - 1))) {
      forall i | 0 <= i < count
        ensures e.writeOk(calls + 2 * i) && (i < count - 1 ==> e.flushOk(calls + 2 * i + 1))
      {
        if i > 0 {
          assert e.writeOk(calls + 2 + 2 * (i - 1)) && (i < count - 1 ==> e.flushOk(calls + 2 + 2 * (i - 1) + 1));
        }
      }
    }
  }

  lemma {:induction false} AllTakenIff(e: C.Env, calls: nat, count: nat)
    ensures Lands(e, calls, count) == count <==> AllTaken(e, calls, count)
    decreases count
  {
    hide AllTaken;
    if count > 0 {
      AllTakenCons(e, calls, count);
      AllTakenIff(e, calls + 2, count - 1);
    } else {
      NoneTaken(e, calls);
    }
  }

  lemma NoneTaken(e: C.Env, calls: nat)
    ensures AllTaken(e, calls, 0)
  {
  }

  lemma AllLandIff(e: C.Env, w: C.Writer, count: nat)
    requires count > 0
    ensures Landed(e, w, count) == count <==> AllLand(e, w, count)
  {
    hide C.FlushNow, AllTaken;
    AllTakenIff(e, C.FlushNow(e, w).0.calls, count);
  }

  /** If the second close fails as well, each destroy is on the wire exactly once if and only if one
      of the two closes got all of them there, its last flush failing, and the other not even the
      first. */
  lemma FailedRetryIsExactlyOnceIff(e: C.Env, q: OpenRequest, s: Session)
    requires s.writer.Valid() && Live(s.dev, q)
    requires CloseAll(e, CloseAll(e, s).0).1.Err?
    ensures var w1, n := CloseAll(e, s).0.writer, |DestroysOf(q)|;
            (forall id: u16 :: Wanted(q, id) ==>
               Count(FirstSent(e, q, s) + SecondSent(e, q, s), UhidDestroy(id)) == 1) <==>
            || (AllLand(e, s.writer, n) && !FirstLands(e, w1))
            || (!FirstLands(e, s.writer) && AllLand(e, w1, n))
  {
    hide CloseAll, SerializeAll, Acked, Landed, FirstLands, Count, Wanted, DestroysOf, AllLand;
    var s1, n := CloseAll(e, s).0, |DestroysOf(q)|;
    CloseThenRetry(e, q, s);
    RetryIsExactlyOnceIff(e, q, s);
    RetriedNothing(e, q, s);
    AllLandIff(e, s.writer, n);
    AllLandIff(e, s1.writer, n);
    LandedOrNot(e, s.writer, n);
    LandedOrNot(e, s1.writer, |Retried(q, Acked(e, s.writer, n))|);
  }

  /** A second close that fails had something to send. */
  lemma RetriedNothing(e: C.Env, q: OpenRequest, s: Session)
    requires s.writer.Valid() && Live(s.dev, q) && CloseAll(e, CloseAll(e, s).0).1.Err?
    ensures Retried(q, Acked(e, s.writer, |DestroysOf(q)|)) != []
    ensures DestroysOf(q) != []
  {
    hide CloseAll, Acked, Landed, SendEach;
    OwedAtFirst(q, s.dev);
    var s1, n := CloseAll(e, s).0, |DestroysOf(q)|;
    CloseIsDestroys(e, s);
    DestroysAreCritical(s.dev);
    if Acked(e, s.writer, n) == n {
      ClosedIsClosed(e, s1);
    } else {
      SentIsValid(e, s.writer, Destroys(s.dev));
      OwedAfterFailure(q, s.dev, Acked(e, s.writer, n));
      CloseIsDestroys(e, s1);
      NothingToSend(e, s1.writer);
    }
  }

  lemma SentIsValid(e: C.Env, w: C.Writer, ms: seq<Msg>)
    requires w.Valid() && AllCritical(ms)
    ensures SendEach(e, w, ms).0.Valid()
  {
    hide Landed, Acked, SerializeAll, AllCritical;
    if ms != [] {
      SendEachDrains(e, w, ms);
    }
  }

  lemma ExactlyOnceIff(q: OpenRequest, k: nat, l: nat, again: nat)
    requires k <= l <= |DestroysOf(q)| && l <= k + 1 && again <= |Retried(q, k)|
    ensures var sent := DestroysOf(q)[..l] + Retried(q, k)[..again];
            var n := |DestroysOf(q)|;
            (forall id: u16 :: Wanted(q, id) ==> Count(sent, UhidDestroy(id)) == 1) <==>
            (l == n && again == 0) || (l == 0 && again == n)
  {
    hide Count;
    var all := DestroysOf(q);
    var sent := all[..l] + Retried(q, k)[..again];
    if (l == |all| && again == 0) || (l == 0 && again == |all|) {
      assert sent == all by {
        assert all[..|all|] == all && all[..0] == [] && Retried(q, k)[..0] == [];
      }
      forall id: u16 | Wanted(q, id)
        ensures Count(sent, UhidDestroy(id)) == 1
      {
        EachOnce(q, id);
      }
    } else if l > 0 && again > 0 {
      FirstIsRepeated(q, k, l, again);
    } else {
      LastIsMissing(q, sent, if l > 0 then l else again);
    }
  }

  lemma EachOnce(q: OpenRequest, id: u16)
    requires Wanted(q, id)
    ensures Count(DestroysOf(q), UhidDestroy(id)) == 1
  {
  }

  lemma LastIsMissing(q: OpenRequest, sent: seq<Msg>, n: nat)
    requires n < |DestroysOf(q)| && sent == DestroysOf(q)[..n]
    ensures var last := DestroysOf(q)[|DestroysOf(q)| - 1];
            Wanted(q, last.id) && last == UhidDestroy(last.id) && Count(sent, last) == 0
  {
    assert forall i :: 0 <= i < |sent| ==> sent[i] == DestroysOf(q)[i];
  }

  lemma FirstIsRepeated(q: OpenRequest, k: nat, l: nat, again: nat)
    requires k <= |DestroysOf(q)| && 0 < l <= |DestroysOf(q)| && 0 < again <= |Retried(q, k)|
    ensures var first := DestroysOf(q)[0];
            && Wanted(q, first.id) && first == UhidDestroy(first.id)
            && Count(DestroysOf(q)[..l] + Retried(q, k)[..again], first) >= 2
  {
    var ms := DestroysOf(q)[..l] + Retried(q, k)[..again];
    assert ms[0] == DestroysOf(q)[0] && ms[l] == Retried(q, k)[0] == DestroysOf(q)[0];
    TwiceCounts(ms, 0, l);
  }

  lemma TwiceCounts(ms: seq<Msg>, i: nat, j: nat)
    requires i < j < |ms| && ms[i] == ms[j]
    ensures Count(ms, ms[i]) >= 2
  {
    assert ms == ms[..j] + ms[j..];
    assert ms[i] in ms[..j] && ms[i] in ms[j..];
  }

  /** A keyboard destroyed twice: its destroy lands, the flush fails, and the retry sends it again. */
  lemma KeyboardDestroyedTwice(e: C.Env, q: OpenRequest, s: Session)
    requires q.kbd && !q.mouse && !q.pad && Live(s.dev, q) && s.writer.pending == []
    requires var c := s.writer.calls; e.writeOk(c) && !e.flushOk(c + 1) && e.writeOk(c + 2) && e.flushOk(c + 3)
    ensures var (s1, r1) := CloseAll(e, s);
            var (s2, r2) := CloseAll(e, s1);
            var destroy := Encoding(UhidDestroy(HID_ID_KEYBOARD));
            && r1 == Err(FlushFailed(s.writer.calls + 1)) && r2 == Ok(())
            && s2.writer.wire == s.writer.wire + (destroy + destroy)
  {
    hide C.Push, Serialize, Encoding;
    DestroysSerialize();
    var m := UhidDestroy(HID_ID_KEYBOARD);
    PushCritical(e, s.writer, m);
    var w1 := C.Push(e, s.writer, m).0;
    PushCritical(e, w1, m);
  }

  /** A gamepad never destroyed: the write of its destroy fails, and the retry owes nothing. */
  lemma GamepadNeverDestroyed(e: C.Env, q: OpenRequest, s: Session)
    requires OnlyPad(q) && Live(s.dev, q) && s.writer.pending == [] && !e.writeOk(s.writer.calls)
    ensures var (s1, r1) := CloseAll(e, s);
            var (s2, r2) := CloseAll(e, s1);
            && r1 == Err(WriteFailed(s.writer.calls)) && r2 == Ok(()) && s2.dev.closed
            && s2.writer.wire == s.writer.wire
  {
    hide C.Push, Serialize, Encoding;
    DestroysSerialize();
    PushCritical(e, s.writer, UhidDestroy(HID_ID_GAMEPAD));
  }
}
