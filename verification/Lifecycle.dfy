/** The life of a device on the wire: one UHID_CREATE, then its inputs, then one UHID_DESTROY
    (src/session.rs, src/client.rs). */
module Lifecycle {
  import opened Bytes
  import opened Frames
  import opened Messages
  import opened Sessions
  import opened SessionLaws
  import opened Dispatchers
  import opened DispatcherLaws
  import C = Coalesce

  predicate Wanted(q: OpenRequest, id: u16) {
    || (id == HID_ID_KEYBOARD && q.kbd)
    || (id == HID_ID_MOUSE && q.mouse)
    || (id == HID_ID_GAMEPAD && q.pad)
  }

  /** The devices of an open session: those requested, and the gamepad slot still bound. */
  predicate Live(d: Devices, q: OpenRequest) {
    && d.kbd.Some? == q.kbd && d.mouse == q.mouse && d.pad.Some? == q.pad
    && (d.pad.Some? ==> d.pad.value.bound)
    && !d.closed
  }

  predicate IsInput(q: OpenRequest, m: Msg) {
    && Serialize(m).Ok?
    && (m.Other? || (m.UhidInput? && Wanted(q, m.id)))
  }

  predicate Inputs(q: OpenRequest, msgs: seq<Msg>) {
    forall i :: 0 <= i < |msgs| ==> IsInput(q, msgs[i])
  }

  predicate StaysLive(q: OpenRequest, o: Outcome) {
    Live(o.dev, q) && Inputs(q, o.msgs)
  }

  lemma PlanStaysLive(q: OpenRequest, d: Devices, it: Item)
    requires Live(d, q)
    ensures var (d', p) := Plan(d, it);
            && Live(d', q)
            && (p.Ok? && p.value.Some? ==>
                  p.value.value.Other? || (p.value.value.UhidInput? && Wanted(q, p.value.value.id)))
  {
    hide FullState, Pack, KeyReport, MouseReport;
  }

  lemma IdealStaysLive(q: OpenRequest, d: Devices, it: Item)
    requires Live(d, q)
    ensures StaysLive(q, Ideal(d, it))
  {
    hide Plan, Serialize, Live, Wanted;
    PlanStaysLive(q, d, it);
    var p := Plan(d, it).1;
    if p.Ok? && p.value.Some? && Serialize(p.value.value).Ok? {
      assert Ideal(d, it).msgs == [p.value.value];
      assert IsInput(q, p.value.value);
    } else {
      assert Ideal(d, it).msgs == [];
    }
  }

  lemma {:induction false} EachStaysLive(q: OpenRequest, d: Devices, items: seq<Item>)
    requires Live(d, q)
    ensures StaysLive(q, IdealEach(d, items))
    decreases |items|
  {
    hide Ideal, Live, IsInput;
    if items != [] {
      IdealStaysLive(q, d, items[0]);
      EachStaysLive(q, Ideal(d, items[0]).dev, items[1..]);
    }
  }

  lemma {:induction false} UntilErrorStaysLive(q: OpenRequest, d: Devices, items: seq<Item>)
    requires Live(d, q)
    ensures StaysLive(q, IdealUntilError(d, items))
    decreases |items|
  {
    hide Ideal, Live, IsInput;
    if items != [] {
      IdealStaysLive(q, d, items[0]);
      UntilErrorStaysLive(q, Ideal(d, items[0]).dev, items[1..]);
    }
  }

  lemma CmdStaysLive(q: OpenRequest, d: Devices, cmd: Cmd)
    requires Live(d, q) && !cmd.Close?
    ensures StaysLive(q, IdealCmd(d, cmd))
  {
    hide IdealEach, IdealUntilError, IsInput;
    match cmd
    case Text(text, strict) => UntilErrorStaysLive(q, d, TypeText(text, strict).items);
    case Tap(scancode, mods) => UntilErrorStaysLive(q, d, KeyTap(scancode, mods).items);
    case AndroidTap(k, m) => UntilErrorStaysLive(q, d, AndroidKeyTap(k, m).items);
    case SetScreenSize(w, h) =>
    case Flush =>
    case FlushAck(_) =>
    case _ => EachStaysLive(q, d, ItemsOf(cmd));
  }

  /** The UHID_DESTROYs that closing an open session owes. */
  function DestroysOf(q: OpenRequest): seq<Msg> {
    (if q.kbd then [UhidDestroy(HID_ID_KEYBOARD)] else [])
    + (if q.mouse then [UhidDestroy(HID_ID_MOUSE)] else [])
    + (if q.pad then [UhidDestroy(HID_ID_GAMEPAD)] else [])
  }

  lemma LiveDestroys(q: OpenRequest, d: Devices)
    requires Live(d, q)
    ensures Destroys(d) == DestroysOf(q) && Destroys(Closed(d)) == []
    ensures IdealCmd(d, Close).msgs == DestroysOf(q) && Destroys(IdealCmd(d, Close).dev) == []
  {
  }

  lemma NoInputs(q: OpenRequest)
    ensures Inputs(q, [])
  {
  }

  lemma InputsAppend(q: OpenRequest, a: seq<Msg>, b: seq<Msg>)
    requires Inputs(q, a) && Inputs(q, b)
    ensures Inputs(q, a + b)
  {
  }

  lemma SwapTails(first: seq<Msg>, a: seq<Msg>, b: seq<Msg>, c: seq<Msg>, d: seq<Msg>)
    requires a + b == c + d
    ensures first + a + b == first + c + d
  {
    assert first + a + b == first + (a + b) && first + c + d == first + (c + d);
  }

  lemma {:induction false} RunIsInputsThenDestroys(q: OpenRequest, d: Devices, cmds: seq<Cmd>)
    returns (inputs: seq<Msg>)
    requires Live(d, q)
    ensures var o := IdealRun(d, cmds);
            Inputs(q, inputs) && o.msgs + Destroys(o.dev) == inputs + DestroysOf(q)
    decreases |cmds|
  {
    hide IdealCmd, Inputs, Live, Destroys, DestroysOf, Closed;
    NoInputs(q);
    LiveDestroys(q, d);
    assert [] + DestroysOf(q) == DestroysOf(q);
    if cmds == [] {
      inputs := [];
    } else if cmds[0].Close? {
      inputs := [];
      assert DestroysOf(q) + [] == DestroysOf(q);
    } else {
      var o := IdealCmd(d, cmds[0]);
      CmdStaysLive(q, d, cmds[0]);
      var rest := IdealRun(o.dev, cmds[1..]);
      var later := RunIsInputsThenDestroys(q, o.dev, cmds[1..]);
      inputs := o.msgs + later;
      InputsAppend(q, o.msgs, later);
      SwapTails(o.msgs, rest.msgs, Destroys(rest.dev), later, DestroysOf(q));
    }
  }

  /** Every run, closed by command or by a vanished channel, sends creates, inputs, destroys. */
  lemma TraceShape(q: OpenRequest, cmds: seq<Cmd>) returns (inputs: seq<Msg>)
    ensures Inputs(q, inputs) && Trace(q, cmds) == Creates(q) + inputs + DestroysOf(q)
    ensures Serializable(Trace(q, cmds))
  {
    hide IdealRun, Inputs;
    inputs := RunIsInputsThenDestroys(q, Opened(q), cmds);
    var o := IdealRun(Opened(q), cmds);
    assert Creates(q) + o.msgs + Destroys(o.dev) == Creates(q) + (o.msgs + Destroys(o.dev));
    assert Creates(q) + inputs + DestroysOf(q) == Creates(q) + (inputs + DestroysOf(q));
    ShapeSerializable(q, inputs);
  }

  lemma ShapeSerializable(q: OpenRequest, inputs: seq<Msg>)
    requires Inputs(q, inputs)
    ensures Serializable(Creates(q) + inputs + DestroysOf(q))
  {
    var ms := Creates(q) + inputs + DestroysOf(q);
    forall i | 0 <= i < |ms|
      ensures Serialize(ms[i]).Ok?
    {
      var n := |Creates(q)|;
      if n <= i < n + |inputs| {
        assert IsInput(q, inputs[i - n]);
      }
    }
  }

  // The device's view --------------------------------------------------------------------

  function ParseEach(frames: seq<seq<byte>>): Option<seq<Msg>> {
    if frames == [] then Some([])
    else if frames[0] == [] then None
    else match (Parse(frames[0]), ParseEach(frames[1..]))
         case (Some(m), Some(rest)) => Some([m] + rest)
         case _ => None
  }

  /** The messages a receiver reads from a byte stream. */
  function Receive(bytes: seq<byte>): Option<seq<Msg>> {
    match Split(bytes)
    case None => None
    case Some(frames) => ParseEach(frames)
  }

  function SentEach(ms: seq<Msg>): (r: seq<Msg>)
    requires Serializable(ms)
    ensures |r| == |ms|
    ensures forall i :: 0 <= i < |ms| ==> r[i] == Sent(ms[i])
  {
    if ms == [] then [] else [Sent(ms[0])] + SentEach(ms[1..])
  }

  lemma {:induction false} ParseEachEncoding(ms: seq<Msg>)
    requires Serializable(ms)
    ensures ParseEach(Encodings(ms)) == Some(SentEach(ms))
  {
    hide Parse, Encoding, Serialize;
    if ms != [] {
      assert Encodings(ms)[1..] == Encodings(ms[1..]);
      ParseSerialized(ms[0]);
      ParseEachEncoding(ms[1..]);
    }
  }

  predicate About(m: Msg, id: u16) {
    !m.Other? && m.id == id
  }

  /** One UHID_CREATE at `c`, one UHID_DESTROY at `d`, and everything else about the device is an
      input strictly between them. */
  predicate Lives(ms: seq<Msg>, id: u16, c: nat, d: nat) {
    && c < d < |ms|
    && ms[c].UhidCreate? && ms[c].id == id
    && ms[d] == UhidDestroy(id)
    && (forall k :: 0 <= k < |ms| && About(ms[k], id) && k != c && k != d ==> ms[k].UhidInput? && c < k < d)
  }

  lemma LivesInTrace(q: OpenRequest, inputs: seq<Msg>, id: u16) returns (c: nat, d: nat)
    requires Inputs(q, inputs)
    ensures var ms := Creates(q) + inputs + DestroysOf(q);
            if Wanted(q, id) then Lives(ms, id, c, d)
            else forall k :: 0 <= k < |ms| ==> !About(ms[k], id)
  {
    hide Serialize;
    var n := |Creates(q)|;
    var ms := Creates(q) + inputs + DestroysOf(q);
    forall k | n <= k < n + |inputs|
      ensures IsInput(q, ms[k])
    {
      assert ms[k] == inputs[k - n];
    }
    c := if id == HID_ID_KEYBOARD then 0
         else if id == HID_ID_MOUSE then (if q.kbd then 1 else 0)
         else n - (if q.pad then 1 else 0);
    d := n + |inputs| + c;
  }

  /** Over every dispatcher-driven run on a reliable transport, with any buffering: the bytes on
      the wire read back as a message list in which each opened device lives exactly once, with
      every one of its inputs between its create and its destroy and nothing after, and a device
      that was not opened never appears. */
  lemma DeviceLifecycle(e: C.Env, q: OpenRequest, cmds: seq<Cmd>, id: u16) returns (wire: seq<byte>, c: nat, d: nat)
    requires C.Reliable(e)
    ensures DispatcherThread(e, Open(e, q).0, cmds) == Recovered(wire)
    ensures Receive(wire).Some?
    ensures var ms := Receive(wire).value;
            if Wanted(q, id) then Lives(ms, id, c, d)
            else forall k :: 0 <= k < |ms| ==> !About(ms[k], id)
  {
    hide DispatcherThread, Open, IdealRun, Trace, SerializeAll, Creates, DestroysOf, Inputs, Serialize, ParseEach,
         Split;
    WholeRun(e, q, cmds);
    wire := SerializeAll(Trace(q, cmds));
    var inputs := TraceShape(q, cmds);
    SplitRecoversMessages(Trace(q, cmds));
    ParseEachEncoding(Trace(q, cmds));
    c, d := LivesInTrace(q, inputs, id);
    SentKeepsIds(Trace(q, cmds), id);
  }

  lemma SentKeepsIds(ms: seq<Msg>, id: u16)
    requires Serializable(ms)
    ensures forall k :: 0 <= k < |ms| ==> (About(SentEach(ms)[k], id) <==> About(ms[k], id))
    ensures forall k :: 0 <= k < |ms| ==>
              && SentEach(ms)[k].UhidInput? == ms[k].UhidInput? && SentEach(ms)[k].UhidCreate? == ms[k].UhidCreate?
              && (ms[k].UhidDestroy? ==> SentEach(ms)[k] == ms[k])
  {
    hide Serialize;
  }
}
