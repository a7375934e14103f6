/** What a call of the coalescing writer does to the transport, and what its result says about it:
    which calls it made, when it is Ok, which reason it gives, and what its counters count. */
module WriterLaws {
  import opened Bytes
  import opened Frames
  import opened Messages
  import opened Coalesce
  import L = CoalesceLaws

  // The transport calls of one operation -----------------------------------------------------

  predicate TakenAt(e: Env, from: nat, calls: seq<TransportCall>, i: nat)
    requires i < |calls|
  {
    if calls[i] == WriteCall then e.writeOk(from + i) else e.flushOk(from + i)
  }

  predicate AllTaken(e: Env, from: nat, calls: seq<TransportCall>) {
    forall i :: 0 <= i < |calls| ==> TakenAt(e, from, calls, i)
  }

  predicate TakenUpTo(e: Env, from: nat, calls: seq<TransportCall>, n: int)
    requires n <= |calls|
  {
    forall i :: 0 <= i < n ==> TakenAt(e, from, calls, i)
  }

  function FlushesIn(calls: seq<TransportCall>): nat {
    if calls == [] then 0
    else FlushesIn(calls[..|calls| - 1]) + (if calls[|calls| - 1] == FlushCall then 1 else 0)
  }

  predicate OfTransport(x: Error) {
    x.WriteFailed? || x.FlushFailed?
  }

  function FailureOf(call: TransportCall, n: nat): Error {
    if call == WriteCall then WriteFailed(n) else FlushFailed(n)
  }

  /** `calls` are the transport calls made between `a` and `b`. Only the last can be refused, and
      then the result is its error; an Ok result ends with a flush if anything was called. */
  ghost predicate Traced<T>(e: Env, a: Writer, b: Writer, calls: seq<TransportCall>, r: Result<T>) {
    && b.made == a.made + calls && b.calls == a.calls + |calls|
    && (forall i :: 0 <= i < |calls| - 1 ==> TakenAt(e, a.calls, calls, i))
    && (calls != [] && !TakenAt(e, a.calls, calls, |calls| - 1) ==>
          r.Err? && r.error == FailureOf(calls[|calls| - 1], b.calls - 1))
    && (r.Err? && OfTransport(r.error) ==> calls != [] && !TakenAt(e, a.calls, calls, |calls| - 1))
    && b.flushes + (if r.Err? && r.error.FlushFailed? then 1 else 0) == a.flushes + FlushesIn(calls)
    && (r.Ok? && calls != [] ==> calls[|calls| - 1] == FlushCall)
    && (r.Ok? ==> b.written + |a.wire| == a.written + |b.wire|)
    && (calls == [] ==> b.wire == a.wire)
  }

  lemma {:induction false} FlushesAppend(a: seq<TransportCall>, b: seq<TransportCall>)
    ensures FlushesIn(a + b) == FlushesIn(a) + FlushesIn(b)
    decreases |b|
  {
    if b == [] {
      assert a + b == a;
    } else {
      assert (a + b)[..|a + b| - 1] == a + b[..|b| - 1];
      FlushesAppend(a, b[..|b| - 1]);
    }
  }

  lemma FlushesSmall()
    ensures FlushesIn([]) == 0 && FlushesIn([WriteCall]) == 0
    ensures FlushesIn([FlushCall]) == 1 && FlushesIn([WriteCall, FlushCall]) == 1
  {
    assert [WriteCall, FlushCall][..1] == [WriteCall];
  }

  lemma TracedThen<S, T>(e: Env, a: Writer, b: Writer, c: Writer, x: seq<TransportCall>, y: seq<TransportCall>,
                         r1: Result<S>, r2: Result<T>)
    requires Traced(e, a, b, x, r1) && r1.Ok? && Traced(e, b, c, y, r2)
    ensures Traced(e, a, c, x + y, r2)
  {
    var all := x + y;
    FlushesAppend(x, y);
    assert a.made + x + y == a.made + all;
    forall i | 0 <= i < |all|
      ensures TakenAt(e, a.calls, all, i) ==
              if i < |x| then TakenAt(e, a.calls, x, i) else TakenAt(e, b.calls, y, i - |x|)
    {
    }
    assert forall i :: 0 <= i < |x| ==> TakenAt(e, a.calls, x, i) by {
      if x != [] {
        assert TakenAt(e, a.calls, x, |x| - 1);
      }
    }
    if y == [] {
      assert all == x;
    } else {
      assert all[|all| - 1] == y[|y| - 1];
    }
  }

  function FlushCalls(e: Env, w: Writer): seq<TransportCall> {
    if w.pending == [] then [] else SendCalls(e, w)
  }

  function SendCalls(e: Env, w: Writer): seq<TransportCall> {
    if e.writeOk(w.calls) then [WriteCall, FlushCall] else [WriteCall]
  }

  lemma SendNowTraced(e: Env, w: Writer, bytes: seq<byte>)
    ensures var (w', r) := SendNow(e, w, bytes); Traced(e, w, w', SendCalls(e, w), r)
  {
    FlushesSmall();
    assert w.made + [WriteCall] + [FlushCall] == w.made + [WriteCall, FlushCall];
    if e.writeOk(w.calls) {
      assert TakenAt(e, w.calls, SendCalls(e, w), 0);
      assert TakenAt(e, w.calls, SendCalls(e, w), 1) == e.flushOk(w.calls + 1);
    } else {
      assert !TakenAt(e, w.calls, SendCalls(e, w), 0);
    }
  }

  lemma NothingTraced<T>(e: Env, a: Writer, b: Writer, r: Result<T>)
    requires b.made == a.made && b.calls == a.calls && b.flushes == a.flushes && b.wire == a.wire
    requires b.written == a.written && (r.Err? ==> !OfTransport(r.error))
    ensures Traced(e, a, b, [], r)
  {
    FlushesSmall();
    assert a.made + [] == a.made;
  }

  /** The counters and buffers that the transport does not see. */
  lemma TracedFrom<T>(e: Env, a: Writer, a1: Writer, b: Writer, b1: Writer, calls: seq<TransportCall>, r: Result<T>)
    requires Traced(e, a, b, calls, r)
    requires a1.made == a.made && a1.calls == a.calls && a1.flushes == a.flushes && a1.wire == a.wire
    requires a1.written == a.written
    requires b1.made == b.made && b1.calls == b.calls && b1.flushes == b.flushes && b1.wire == b.wire
    requires b1.written == b.written
    ensures Traced(e, a1, b1, calls, r)
  {
  }

  lemma SameOutcomeTraced<S, T>(e: Env, a: Writer, b: Writer, calls: seq<TransportCall>, r1: Result<S>, r2: Result<T>)
    requires Traced(e, a, b, calls, r1) && r1.Ok? == r2.Ok? && (r1.Err? ==> r1.error == r2.error)
    ensures Traced(e, a, b, calls, r2)
  {
  }

  lemma FlushNowTraced(e: Env, w: Writer)
    ensures var (w', r) := FlushNow(e, w); Traced(e, w, w', FlushCalls(e, w), r)
  {
    hide Traced;
    var (w', r) := FlushNow(e, w);
    if w.pending == [] {
      NothingTraced(e, w, w', r);
    } else {
      SendNowTraced(e, w, w.pending);
      var (w1, r1) := SendNow(e, w, w.pending);
      TracedFrom(e, w, w, w1, w', SendCalls(e, w), r1);
      SameOutcomeTraced(e, w, w', SendCalls(e, w), r1, r);
    }
  }

  lemma FlushForTraced(e: Env, w: Writer, reason: FlushReason)
    ensures var (w', r) := FlushFor(e, w, reason); Traced(e, w, w', FlushCalls(e, w), r)
  {
    hide Traced;
    FlushNowTraced(e, w);
    SameOutcomeTraced(e, w, FlushNow(e, w).0, FlushCalls(e, w), FlushNow(e, w).1, FlushFor(e, w, reason).1);
  }

  lemma CheckWindowTraced(e: Env, w: Writer, otherwise: FlushReason) returns (calls: seq<TransportCall>)
    ensures var (w', r) := CheckWindow(e, w, otherwise); Traced(e, w, w', calls, r)
  {
    hide Traced, FlushFor;
    var w1 := w.(ticks := w.ticks + 1);
    var (w', r) := CheckWindow(e, w, otherwise);
    if e.expired(w.ticks) && w.pending != [] {
      calls := FlushCalls(e, w1);
      FlushForTraced(e, w1, Window);
      TracedFrom(e, w1, w, w', w', calls, r);
    } else {
      calls := [];
      NothingTraced(e, w, w', r);
    }
  }

  lemma SettleTraced(e: Env, w: Writer) returns (calls: seq<TransportCall>)
    ensures var (w', r) := Settle(e, w); Traced(e, w, w', calls, r)
  {
    hide Traced, FlushFor, CheckWindow;
    if |w.pending| >= w.hardLimit {
      calls := FlushCalls(e, w);
      FlushForTraced(e, w, Full);
    } else {
      calls := CheckWindowTraced(e, w, Pending);
    }
  }

  lemma SendForTraced(e: Env, w: Writer, bytes: seq<byte>, reason: FlushReason)
    ensures var (w', r) := SendFor(e, w, bytes, reason); Traced(e, w, w', SendCalls(e, w), r)
  {
    hide Traced;
    SendNowTraced(e, w, bytes);
    SameOutcomeTraced(e, w, SendNow(e, w, bytes).0, SendCalls(e, w), SendNow(e, w, bytes).1,
                      SendFor(e, w, bytes, reason).1);
  }

  lemma PushEncodedTraced(e: Env, w: Writer, bytes: seq<byte>) returns (calls: seq<TransportCall>)
    ensures var (w', r) := PushEncoded(e, w, bytes); Traced(e, w, w', calls, r)
  {
    hide Traced, SendFor, Settle;
    var w1 := w.(pushed := w.pushed + 1);
    var (w', r) := PushEncoded(e, w, bytes);
    if w.direct {
      calls := SendCalls(e, w1);
      SendForTraced(e, w1, bytes, Window);
      TracedFrom(e, w1, w, w', w', calls, r);
    } else {
      var w2 := w1.(pending := w1.pending + bytes);
      calls := SettleTraced(e, w2);
      TracedFrom(e, w2, w, w', w', calls, r);
    }
  }

  lemma PushTraced(e: Env, w: Writer, m: Msg) returns (calls: seq<TransportCall>)
    ensures var (w', r) := Push(e, w, m);
            && Traced(e, w, w', calls, r)
            && (r.Err? && !OfTransport(r.error) ==> Serialize(m).Err?)
            && (r.Ok? ==> Serialize(m).Ok?)
  {
    hide Traced, SendFor, Settle, Serialize, FlushNow;
    var w1 := w.(pushed := w.pushed + 1);
    var (w', r) := Push(e, w, m);
    SerializeErrors(m);
    if w.direct {
      if Serialize(m).Ok? {
        calls := SendCalls(e, w1);
        SendForTraced(e, w1, Serialize(m).value, if m.Critical() then Critical else Window);
        TracedFrom(e, w1, w, w', w', calls, r);
      } else {
        calls := [];
        NothingTraced(e, w, w', r);
      }
    } else if m.Critical() {
      calls := CriticalTraced(e, w, m);
    } else if Serialize(m).Ok? {
      var w2 := w1.(pending := w1.pending + Serialize(m).value);
      calls := SettleTraced(e, w2);
      TracedFrom(e, w2, w, w', w', calls, r);
    } else {
      calls := [];
      NothingTraced(e, w, w', r);
    }
    TransportErrors(e, w, m);
  }

  lemma CriticalTraced(e: Env, w: Writer, m: Msg) returns (calls: seq<TransportCall>)
    requires !w.direct && m.Critical()
    ensures var (w', r) := Push(e, w, m); Traced(e, w, w', calls, r)
  {
    hide Traced, SendFor, Settle, Serialize, FlushNow;
    var w1 := w.(pushed := w.pushed + 1);
    var (w', r) := Push(e, w, m);
    SerializeErrors(m);
    var (w2, r2) := FlushNow(e, w1);
    var first := FlushCalls(e, w1);
    FlushNowTraced(e, w1);
    TracedFrom(e, w1, w, w2, w2, first, r2);
    if r2.Err? {
      calls := first;
      SameOutcomeTraced(e, w, w', calls, r2, r);
    } else if Serialize(m).Err? {
      calls := first + [];
      NothingTraced(e, w2, w', r);
      TracedThen(e, w, w2, w', first, [], r2, r);
    } else {
      calls := first + SendCalls(e, w2);
      SendForTraced(e, w2, Serialize(m).value, Critical);
      TracedThen(e, w, w2, w', first, SendCalls(e, w2), r2, r);
    }
  }

  lemma SerializeErrors(m: Msg)
    ensures Serialize(m).Err? ==> !OfTransport(Serialize(m).error)
  {
  }

  lemma TransportErrors(e: Env, w: Writer, m: Msg)
    ensures var r := Push(e, w, m).1;
            (r.Err? && !OfTransport(r.error) ==> Serialize(m).Err?) && (r.Ok? ==> Serialize(m).Ok?)
  {
    hide Serialize;
  }

  // Batches ----------------------------------------------------------------------------------

  function Writes(n: nat): (r: seq<TransportCall>)
    ensures |r| == n
  {
    seq(n, _ => WriteCall)
  }

  lemma {:induction false} NoFlushInWrites(n: nat)
    ensures FlushesIn(Writes(n)) == 0
  {
    if n > 0 {
      NoFlushInWrites(n - 1);
      assert Writes(n)[..n - 1] == Writes(n - 1);
    }
  }

  /** The chunks of a direct batch are writes only, and only the last can be refused. */
  lemma {:induction false} DirectChunksTraced(e: Env, w: Writer, parts: seq<seq<byte>>) returns (n: nat)
    ensures var (w', r) := DirectChunks(e, w, parts);
            && w'.made == w.made + Writes(n) && w'.calls == w.calls + n
            && w'.flushes == w.flushes && w'.written == w.written && (n == 0 ==> w'.wire == w.wire)
            && TakenUpTo(e, w.calls, Writes(n), n - 1)
            && (r.Ok? ==> AllTaken(e, w.calls, Writes(n)) && |w'.wire| == |w.wire| + |Concat(parts)|)
            && (r.Err? ==> n > 0 && !TakenAt(e, w.calls, Writes(n), n - 1) && r.error == WriteFailed(w'.calls - 1))
    decreases |parts|
  {
    hide TakenAt, Writes;
    if parts == [] {
      n := 0;
      NoWrites(w.made);
    } else {
      var k := Min(|parts|, DIRECT_GAMEPAD_BATCH_FRAMES);
      var (w1, r1) := WriteAll(e, w, Concat(parts[..k]));
      if r1.Err? {
        n := 1;
        WritesCons(e, w.calls, 0);
        assert w.made + [WriteCall] == w.made + Writes(1);
      } else {
        var later := DirectChunksTraced(e, w1, parts[k..]);
        n := later + 1;
        WritesCons(e, w.calls, later);
        assert w.made + [WriteCall] + Writes(later) == w.made + Writes(n);
        L.ConcatSplit(parts, k);
      }
    }
  }

  lemma NoWrites(made: seq<TransportCall>)
    ensures made + Writes(0) == made
  {
  }

  /** One more write in front. */
  lemma WritesCons(e: Env, from: nat, later: nat)
    ensures Writes(later + 1) == [WriteCall] + Writes(later)
    ensures e.writeOk(from) && TakenUpTo(e, from + 1, Writes(later), later - 1) ==>
              TakenUpTo(e, from, Writes(later + 1), later)
    ensures e.writeOk(from) && AllTaken(e, from + 1, Writes(later)) ==> AllTaken(e, from, Writes(later + 1))
    ensures if later == 0 then TakenAt(e, from, Writes(1), 0) == e.writeOk(from)
            else TakenAt(e, from, Writes(later + 1), later) == TakenAt(e, from + 1, Writes(later), later - 1)
  {
    var all := Writes(later + 1);
    forall i | 0 < i < later + 1
      ensures TakenAt(e, from, all, i) == TakenAt(e, from + 1, Writes(later), i - 1)
    {
    }
  }

  lemma FailedWritesTraced<T>(e: Env, w: Writer, w': Writer, n: nat, r: Result<T>)
    requires w'.made == w.made + Writes(n) && w'.calls == w.calls + n && n > 0
    requires w'.flushes == w.flushes
    requires TakenUpTo(e, w.calls, Writes(n), n - 1)
    requires !TakenAt(e, w.calls, Writes(n), n - 1) && r == Err(WriteFailed(w'.calls - 1))
    ensures Traced(e, w, w', Writes(n), r)
  {
    NoFlushInWrites(n);
    hide TakenAt, FlushesIn;
  }

  lemma WritesThenFlushTraced(e: Env, w: Writer, w1: Writer, n: nat, bytes: nat)
    requires w1.made == w.made + Writes(n) && w1.calls == w.calls + n && AllTaken(e, w.calls, Writes(n))
    requires w1.flushes == w.flushes && w1.written == w.written && |w1.wire| == |w.wire| + bytes
    ensures var (w2, r2) := FlushTransport(e, w1);
            var r: Result<FlushReason> := if r2.Err? then Err(r2.error) else Ok(Window);
            Traced(e, w, if r2.Err? then w2 else Account(w2, bytes), Writes(n) + [FlushCall], r)
  {
    var calls := Writes(n) + [FlushCall];
    NoFlushInWrites(n);
    assert calls[..n] == Writes(n) && w.made + Writes(n) + [FlushCall] == w.made + calls;
    ThenFlush(e, w.calls, n);
    hide TakenAt;
  }

  lemma DirectBatchTraced(e: Env, w: Writer, parts: seq<seq<byte>>) returns (calls: seq<TransportCall>)
    ensures var (w', r) := DirectBatch(e, w, parts);
            Traced(e, w, w', calls, r) && (r.Err? ==> OfTransport(r.error))
  {
    hide DirectChunks, Concat, AllTaken, TakenAt, Traced, Writes;
    var n := DirectChunksTraced(e, w, parts);
    var (w1, r1) := DirectChunks(e, w, parts);
    if r1.Err? {
      calls := Writes(n);
      FailedWritesTraced(e, w, w1, n, DirectBatch(e, w, parts).1);
    } else {
      calls := Writes(n) + [FlushCall];
      WritesThenFlushTraced(e, w, w1, n, |Concat(parts)|);
    }
  }

  lemma ThenFlush(e: Env, from: nat, n: nat)
    requires AllTaken(e, from, Writes(n))
    ensures var calls := Writes(n) + [FlushCall];
            && (forall i :: 0 <= i < n ==> TakenAt(e, from, calls, i))
            && TakenAt(e, from, calls, n) == e.flushOk(from + n)
  {
    var calls := Writes(n) + [FlushCall];
    assert forall i :: 0 <= i < n ==> TakenAt(e, from, Writes(n), i) == TakenAt(e, from, calls, i);
  }

  lemma {:induction false} BufferEachTraced(e: Env, w: Writer, parts: seq<seq<byte>>, reason: FlushReason)
    returns (calls: seq<TransportCall>)
    ensures var (w', r) := BufferEach(e, w, parts, reason);
            Traced(e, w, w', calls, r) && (r.Err? ==> OfTransport(r.error))
    decreases |parts|
  {
    hide Traced, FlushNow, CheckWindow;
    var (w', r) := BufferEach(e, w, parts, reason);
    if parts == [] {
      calls := CheckWindowTraced(e, w, reason);
      CheckWindowFails(e, w, reason);
    } else {
      var w1 := w.(pending := w.pending + parts[0]);
      if |w1.pending| < w.hardLimit {
        calls := BufferEachTraced(e, w1, parts[1..], reason);
        TracedFrom(e, w1, w, w', w', calls, r);
      } else {
        var (w2, r2) := FlushNow(e, w1);
        FlushNowTraced(e, w1);
        FlushNowFails(e, w1);
        TracedFrom(e, w1, w, w2, w2, FlushCalls(e, w1), r2);
        if r2.Err? {
          calls := FlushCalls(e, w1);
          SameOutcomeTraced(e, w, w', calls, r2, r);
        } else {
          var later := BufferEachTraced(e, w2, parts[1..], Full);
          calls := FlushCalls(e, w1) + later;
          TracedThen(e, w, w2, w', FlushCalls(e, w1), later, r2, r);
        }
      }
    }
  }

  lemma FlushNowFails(e: Env, w: Writer)
    ensures FlushNow(e, w).1.Err? ==> OfTransport(FlushNow(e, w).1.error)
  {
  }

  lemma CheckWindowFails(e: Env, w: Writer, reason: FlushReason)
    ensures CheckWindow(e, w, reason).1.Err? ==> OfTransport(CheckWindow(e, w, reason).1.error)
  {
  }

  lemma PushBatchTraced(e: Env, w: Writer, parts: seq<seq<byte>>) returns (calls: seq<TransportCall>)
    ensures var (w', r) := PushBatch(e, w, parts);
            Traced(e, w, w', calls, r) && (r.Err? ==> OfTransport(r.error))
  {
    hide Traced, DirectBatch, CheckWindow, BufferEach, PushEncoded, Concat;
    var w1 := w.(pushed := w.pushed + |parts|);
    var (w', r) := PushBatch(e, w, parts);
    if parts == [] {
      calls := [];
      NothingTraced(e, w, w', r);
    } else if |parts| == 1 {
      calls := PushEncodedTraced(e, w, parts[0]);
      EncodedFails(e, w, parts[0]);
    } else if w.direct {
      calls := DirectBatchTraced(e, w1, parts);
      TracedFrom(e, w1, w, w', w', calls, r);
    } else if |w.pending| + |parts| * GAMEPAD_MESSAGE_BYTES <= w.hardLimit {
      var w2 := w1.(pending := w1.pending + Concat(parts));
      calls := CheckWindowTraced(e, w2, Pending);
      CheckWindowFails(e, w2, Pending);
      TracedFrom(e, w2, w, w', w', calls, r);
    } else {
      calls := BufferEachTraced(e, w1, parts, Pending);
      TracedFrom(e, w1, w, w', w', calls, r);
    }
  }

  lemma EncodedFails(e: Env, w: Writer, bytes: seq<byte>)
    ensures PushEncoded(e, w, bytes).1.Err? ==> OfTransport(PushEncoded(e, w, bytes).1.error)
  {
    hide FlushNow, CheckWindow;
    var w1 := w.(pushed := w.pushed + 1, pending := w.pending + bytes);
    FlushNowFails(e, w1);
    CheckWindowFails(e, w1, Pending);
  }

  /** Every entry point on every transport. The call is Ok if and only if its message can be
      serialized and every write and flush it made was taken; it stops at the first that is not, and
      returns its error. An Ok call that made any transport call made a flush last. The flush
      counter counts the flushes taken, and after an Ok call the byte counter has grown as the wire
      has. */
  lemma CallIsOkIff(e: Env, w: Writer, op: Op)
    ensures var (w', r) := Apply(e, w, op);
            && w.made <= w'.made
            && (var calls := w'.made[|w.made|..];
                && Traced(e, w, w', calls, r)
                && (r.Ok? <==> Acceptable(op) && AllTaken(e, w.calls, calls)))
  {
    hide Traced, Push, PushEncoded, PushBatch, FlushFor, Serialize;
    var (w', r) := Apply(e, w, op);
    var calls: seq<TransportCall>;
    match op {
      case PushMessage(m) => calls := PushTraced(e, w, m);
      case PushPacked(id, p) =>
        calls := PushEncodedTraced(e, w, InputMessage(id, p));
        EncodedFails(e, w, InputMessage(id, p));
      case PushFields(id, f) =>
        calls := PushEncodedTraced(e, w, InputMessage(id, Pack(f)));
        EncodedFails(e, w, InputMessage(id, Pack(f)));
      case PushRaw(id, size, data) => calls := PushTraced(e, w, UhidInput(id, size, data));
      case PushPackedBatch(id, ps) => calls := PushBatchTraced(e, w, InputMessages(id, ps));
      case PushFieldsBatch(id, fs) => calls := PushBatchTraced(e, w, InputMessages(id, PackAll(fs)));
      case Flush =>
        calls := FlushCalls(e, w);
        FlushForTraced(e, w, if w.pending == [] then Pending else Window);
        FlushForFails(e, w, if w.pending == [] then Pending else Window);
    }
    TracedMade(e, w, w', calls, r);
    OkIffTaken(e, w, w', calls, r);
  }

  lemma FlushForFails(e: Env, w: Writer, reason: FlushReason)
    ensures FlushFor(e, w, reason).1.Err? ==> OfTransport(FlushFor(e, w, reason).1.error)
  {
  }

  lemma TracedMade<T>(e: Env, a: Writer, b: Writer, calls: seq<TransportCall>, r: Result<T>)
    requires Traced(e, a, b, calls, r)
    ensures a.made <= b.made && b.made[|a.made|..] == calls
  {
  }

  lemma OkIffTaken<T>(e: Env, a: Writer, b: Writer, calls: seq<TransportCall>, r: Result<T>)
    requires Traced(e, a, b, calls, r)
    ensures r.Ok? ==> AllTaken(e, a.calls, calls)
    ensures AllTaken(e, a.calls, calls) ==> r.Ok? || !OfTransport(r.error)
  {
  }

  // Reasons ----------------------------------------------------------------------------------

  /** How many frames bring `buffered` bytes to the limit, at least one. */
  function UntilFull(buffered: nat, limit: nat): (n: nat)
    ensures n >= 1
  {
    if buffered + GAMEPAD_MESSAGE_BYTES >= limit then 1
    else (limit - buffered + GAMEPAD_MESSAGE_BYTES - 1) / GAMEPAD_MESSAGE_BYTES
  }

  /** The frames of a batch that stay buffered: those behind the last full buffer, or all of them. */
  function LeftOver(buffered: nat, count: nat, limit: nat): nat {
    if count < UntilFull(buffered, limit) then count
    else (count - UntilFull(buffered, limit)) % UntilFull(0, limit)
  }

  predicate IsBatch(op: Op) {
    op.PushPackedBatch? || op.PushFieldsBatch?
  }

  /** A batch of more than one frame: it is checked as a whole against the limit. */
  predicate IsMany(op: Op) {
    IsBatch(op) && |Requested(op)| > 1
  }

  /** The bytes buffered once the call's messages have joined them. */
  function Joined(w: Writer, op: Op): nat {
    |w.pending| + |Concat(Requested(op))|
  }

  predicate IsCritical(op: Op) {
    op.PushMessage? && op.msg.Critical()
  }

  predicate Idle(w: Writer, op: Op) {
    if op.Flush? then w.pending == [] else IsBatch(op) && Requested(op) == []
  }

  /** The reason of an Ok call, told from the state before it. `expired` is the one reading of the
      flush window that the call may make. */
  function ReasonFor(w: Writer, op: Op, expired: bool): FlushReason {
    if Idle(w, op) then Pending
    else if IsCritical(op) then Critical
    else if w.direct || op.Flush? then Window
    else if IsMany(op) && Joined(w, op) > w.hardLimit then
      if expired && LeftOver(|w.pending|, |Requested(op)|, w.hardLimit) > 0 then Window else Full
    else if !IsMany(op) && Joined(w, op) >= w.hardLimit then Full
    else if expired then Window
    else Pending
  }

  lemma ModStep(n: nat, c: nat)
    requires n >= c > 0
    ensures (n - c) % c == n % c
  {
    var q := n / c;
    assert n == q * c + n % c;
    assert n - c == (q - 1) * c + n % c;
    ModUnique(n - c, c, q - 1, n % c);
  }

  lemma Multiple(k: int, c: nat)
    requires k > 0
    ensures k * c >= c
  {
  }

  lemma ModUnique(n: nat, c: nat, q: int, r: nat)
    requires c > 0 && n == q * c + r && r < c
    ensures n % c == r
  {
    var q' := n / c;
    DivMod(n, c);
    Distribute(q, q', c);
    if q > q' {
      Multiple(q - q', c);
    } else if q < q' {
      Multiple(q' - q, c);
    }
  }

  lemma DivMod(n: nat, c: nat)
    requires c > 0
    ensures n == (n / c) * c + n % c && n % c < c
  {
  }

  lemma Distribute(a: int, b: int, c: int)
    ensures (a - b) * c == a * c - b * c && (b - a) * c == b * c - a * c
  {
  }

  lemma UntilFullStep(buffered: nat, limit: nat)
    requires buffered + GAMEPAD_MESSAGE_BYTES < limit
    ensures UntilFull(buffered, limit) == 1 + UntilFull(buffered + GAMEPAD_MESSAGE_BYTES, limit)
  {
  }

  /** How a batch that does not fit ends: with a full buffer, or with left-overs for the window. */
  function OverLimitReason(buffered: nat, count: nat, limit: nat, expired: bool, reason: FlushReason): FlushReason {
    if count < UntilFull(buffered, limit) then
      if expired && buffered + count > 0 then Window else reason
    else if expired && LeftOver(buffered, count, limit) > 0 then Window
    else Full
  }

  lemma AfterFull(buffered: nat, count: nat, limit: nat, expired: bool, reason: FlushReason)
    requires count > 0 && buffered + GAMEPAD_MESSAGE_BYTES >= limit
    ensures OverLimitReason(0, count - 1, limit, expired, Full)
         == OverLimitReason(buffered, count, limit, expired, reason)
  {
    var c := UntilFull(0, limit);
    if count - 1 < c {
      ModUnique(count - 1, c, 0, count - 1);
    } else {
      ModStep(count - 1, c);
    }
  }

  lemma {:induction false} BufferEachReason(e: Env, w: Writer, parts: seq<seq<byte>>, reason: FlushReason)
    requires forall i :: 0 <= i < |parts| ==> |parts[i]| == GAMEPAD_MESSAGE_BYTES
    requires BufferEach(e, w, parts, reason).1.Ok?
    ensures BufferEach(e, w, parts, reason).1.value
         == OverLimitReason(|w.pending|, |parts|, w.hardLimit, e.expired(w.ticks), reason)
    decreases |parts|
  {
    hide FlushNow;
    if parts == [] {
      CheckWindowReason(e, w, reason);
    } else {
      var w1 := w.(pending := w.pending + parts[0]);
      if |w1.pending| < w.hardLimit {
        BufferEachReason(e, w1, parts[1..], reason);
        UntilFullStep(|w.pending|, w.hardLimit);
      } else {
        FlushNowKeeps(e, w1);
        var w2 := FlushNow(e, w1).0;
        BufferEachReason(e, w2, parts[1..], Full);
        AfterFull(|w.pending|, |parts|, w.hardLimit, e.expired(w.ticks), reason);
      }
    }
  }

  lemma CheckWindowReason(e: Env, w: Writer, reason: FlushReason)
    ensures CheckWindow(e, w, reason).1.Ok? ==>
              CheckWindow(e, w, reason).1.value == if e.expired(w.ticks) && w.pending != [] then Window else reason
  {
  }

  lemma FlushNowKeeps(e: Env, w: Writer)
    ensures var (w', r) := FlushNow(e, w);
            && w'.hardLimit == w.hardLimit && w'.ticks == w.ticks && (r.Ok? ==> w'.pending == [])
  {
  }

  lemma PushReason(e: Env, w: Writer, m: Msg)
    requires Push(e, w, m).1.Ok?
    ensures Serialize(m).Ok? && Encoding(m) != []
    ensures Push(e, w, m).1.value ==
            if m.Critical() then Critical
            else if w.direct then Window
            else if |w.pending| + |Encoding(m)| >= w.hardLimit then Full
            else if e.expired(w.ticks) then Window
            else Pending
  {
    TransportErrors(e, w, m);
    Framing(m, []);
    L.EncodingOk(m);
    hide Serialize, Encoding, FlushNow;
  }

  lemma PushBatchReason(e: Env, w: Writer, parts: seq<seq<byte>>)
    requires forall i :: 0 <= i < |parts| ==> |parts[i]| == GAMEPAD_MESSAGE_BYTES
    requires PushBatch(e, w, parts).1.Ok? && |parts| > 1
    ensures var total := |w.pending| + |parts| * GAMEPAD_MESSAGE_BYTES;
            PushBatch(e, w, parts).1.value ==
            if w.direct then Window
            else if total <= w.hardLimit then (if e.expired(w.ticks) then Window else Pending)
            else OverLimitReason(|w.pending|, |parts|, w.hardLimit, e.expired(w.ticks), Pending)
  {
    hide FlushNow, BufferEach, DirectChunks, CheckWindow;
    var w1 := w.(pushed := w.pushed + |parts|);
    if !w.direct {
      if |w.pending| + |parts| * GAMEPAD_MESSAGE_BYTES <= w.hardLimit {
        ConcatLength(parts, GAMEPAD_MESSAGE_BYTES);
        CheckWindowReason(e, w1.(pending := w1.pending + Concat(parts)), Pending);
      } else {
        BufferEachReason(e, w1, parts, Pending);
      }
    }
  }

  lemma EnoughToFill(buffered: nat, count: nat, limit: nat)
    requires buffered + count * GAMEPAD_MESSAGE_BYTES > limit && count > 0
    ensures count >= UntilFull(buffered, limit)
  {
  }

  /** On every transport an Ok call gives exactly that reason: Critical for a critical message; Full
      when the call brings the buffer to its limit, unless a batch leaves frames behind and the window
      has expired; Window for an expired window, an explicit flush or a direct write; Pending when
      nothing was flushed. */
  lemma ReasonOfOkCall(e: Env, w: Writer, op: Op)
    requires Apply(e, w, op).1.Ok?
    ensures Apply(e, w, op).1.value == ReasonFor(w, op, e.expired(w.ticks))
  {
    hide Push, PushBatch, Encoding, Serialize, InputMessage, LeftOver, UntilFull;
    match op
    case PushMessage(m) => MessageReason(e, w, op, m);
    case PushRaw(id, size, data) => MessageReason(e, w, op, UhidInput(id, size, data));
    case PushPacked(id, p) => OneReason(e, w, op, InputMessage(id, p));
    case PushFields(id, f) => OneReason(e, w, op, InputMessage(id, Pack(f)));
    case PushPackedBatch(id, ps) => BatchReason(e, w, op);
    case PushFieldsBatch(id, fs) => BatchReason(e, w, op);
    case Flush =>
  }

  lemma ConcatOne(bytes: seq<byte>)
    ensures Concat([bytes]) == bytes
  {
    assert Concat([bytes]) == bytes + Concat([bytes][1..]);
  }

  lemma MessageReason(e: Env, w: Writer, op: Op, m: Msg)
    requires op == PushMessage(m) || (m.UhidInput? && op == PushRaw(m.id, m.size, m.data))
    requires Push(e, w, m).1.Ok?
    ensures Push(e, w, m).1.value == ReasonFor(w, op, e.expired(w.ticks))
  {
    hide Push, Encoding, Serialize;
    PushReason(e, w, m);
    ConcatOne(Encoding(m));
  }

  lemma OneReason(e: Env, w: Writer, op: Op, bytes: seq<byte>)
    requires bytes != [] && Requested(op) == [bytes] && !op.Flush? && !op.PushMessage?
    requires PushEncoded(e, w, bytes).1.Ok?
    ensures PushEncoded(e, w, bytes).1.value == ReasonFor(w, op, e.expired(w.ticks))
  {
    hide FlushNow, InputMessage, Requested;
    ConcatOne(bytes);
  }

  lemma BatchReason(e: Env, w: Writer, op: Op)
    requires IsBatch(op) && Apply(e, w, op).1.Ok?
    ensures Apply(e, w, op).1.value == ReasonFor(w, op, e.expired(w.ticks))
  {
    hide PushEncoded, DirectBatch, BufferEach, CheckWindow, InputMessage, UntilFull, LeftOver;
    var parts := Requested(op);
    assert Apply(e, w, op) == PushBatch(e, w, parts);
    ConcatLength(parts, GAMEPAD_MESSAGE_BYTES);
    if |parts| == 1 {
      assert parts == [parts[0]];
      OneReason(e, w, op, parts[0]);
    } else if |parts| > 1 {
      PushBatchReason(e, w, parts);
      if !w.direct && Joined(w, op) > w.hardLimit {
        EnoughToFill(|w.pending|, |parts|, w.hardLimit);
      }
    }
  }

  // Counters ---------------------------------------------------------------------------------

  /** The messages a call counts as pushed, whatever becomes of them. */
  function Counted(op: Op): nat {
    if op.Flush? then 0 else if IsBatch(op) then |Requested(op)| else 1
  }

  lemma {:induction false} BufferEachCounts(e: Env, w: Writer, parts: seq<seq<byte>>, reason: FlushReason)
    ensures BufferEach(e, w, parts, reason).0.pushed == w.pushed
    decreases |parts|
  {
    if parts != [] {
      var w1 := w.(pending := w.pending + parts[0]);
      BufferEachCounts(e, w1, parts[1..], reason);
      BufferEachCounts(e, FlushNow(e, w1).0, parts[1..], Full);
    }
  }

  lemma {:induction false} DirectChunksCount(e: Env, w: Writer, parts: seq<seq<byte>>)
    ensures DirectChunks(e, w, parts).0.pushed == w.pushed
    decreases |parts|
  {
    if parts != [] {
      var n := Min(|parts|, DIRECT_GAMEPAD_BATCH_FRAMES);
      DirectChunksCount(e, WriteAll(e, w, Concat(parts[..n])).0, parts[n..]);
    }
  }

  /** The push counter grows by the call's messages, failed calls included. */
  lemma PushesAreCounted(e: Env, w: Writer, op: Op)
    ensures Apply(e, w, op).0.pushed == w.pushed + Counted(op)
  {
    hide BufferEach, DirectChunks, InputMessage, Serialize, Push, PushEncoded, PushBatch, FlushNow;
    match op
    case PushMessage(m) => MessageCounts(e, w, m);
    case PushRaw(id, size, data) => MessageCounts(e, w, UhidInput(id, size, data));
    case PushPacked(id, p) => EncodedCounts(e, w, InputMessage(id, p));
    case PushFields(id, f) => EncodedCounts(e, w, InputMessage(id, Pack(f)));
    case PushPackedBatch(id, ps) => BatchCounts(e, w, InputMessages(id, ps));
    case PushFieldsBatch(id, fs) => BatchCounts(e, w, InputMessages(id, PackAll(fs)));
    case Flush => FlushCounts(e, w);
  }

  lemma FlushCounts(e: Env, w: Writer)
    ensures FlushNow(e, w).0.pushed == w.pushed
  {
  }

  lemma EncodedCounts(e: Env, w: Writer, bytes: seq<byte>)
    ensures PushEncoded(e, w, bytes).0.pushed == w.pushed + 1
  {
  }

  lemma MessageCounts(e: Env, w: Writer, m: Msg)
    ensures Push(e, w, m).0.pushed == w.pushed + 1
  {
    hide Serialize;
  }

  lemma BatchCounts(e: Env, w: Writer, parts: seq<seq<byte>>)
    ensures PushBatch(e, w, parts).0.pushed == w.pushed + |parts|
  {
    hide BufferEach, DirectChunks, PushEncoded, FlushNow;
    var w1 := w.(pushed := w.pushed + |parts|);
    if |parts| == 1 {
      EncodedCounts(e, w, parts[0]);
    }
    BufferEachCounts(e, w1, parts, Pending);
    DirectChunksCount(e, w1, parts);
    FlushCounts(e, w1.(pending := w1.pending + Concat(parts), ticks := w1.ticks + 1));
  }

  // Modes and costs --------------------------------------------------------------------------

  /** A writer is direct exactly with a zero limit and a zero window, and it shows when a write fails: a
      direct writer loses the report, any other keeps it for the next flush. */
  lemma OnlyDirectWritersLose(e: Env, windowIsZero: bool, limit: nat, id: u16, p: Payload)
    requires !e.writeOk(0)
    ensures var w := Apply(e, WithLimits(windowIsZero, limit), PushPacked(id, p)).0;
            w.wire == [] && w.pending == if windowIsZero && limit == 0 then [] else InputMessage(id, p)
  {
    hide InputMessage;
    assert [] + InputMessage(id, p) == InputMessage(id, p);
  }

  function ChunksOf(count: nat): nat {
    (count + 31) / 32
  }

  lemma {:induction false} ChunkWrites(e: Env, w: Writer, parts: seq<seq<byte>>)
    requires Reliable(e)
    ensures var (w', r) := DirectChunks(e, w, parts);
            r.Ok? && w'.made == w.made + Writes(ChunksOf(|parts|)) && w'.calls == w.calls + ChunksOf(|parts|)
    decreases |parts|
  {
    hide Concat;
    if parts == [] {
      assert w.made + Writes(0) == w.made;
    } else {
      var n := Min(|parts|, DIRECT_GAMEPAD_BATCH_FRAMES);
      ChunkWrites(e, WriteAll(e, w, Concat(parts[..n])).0, parts[n..]);
      assert ChunksOf(|parts|) == 1 + ChunksOf(|parts| - n);
      assert w.made + [WriteCall] + Writes(ChunksOf(|parts| - n)) == w.made + Writes(ChunksOf(|parts|));
    }
  }

  /** What a direct batch costs on a reliable transport: one write per 32 frames and a single flush. */
  lemma DirectBatchCosts(e: Env, w: Writer, op: Op)
    requires Reliable(e) && w.direct && IsMany(op)
    ensures var w' := Apply(e, w, op).0;
            && w'.made == w.made + Writes(ChunksOf(|Requested(op)|)) + [FlushCall]
            && w'.flushes == w.flushes + 1
  {
    hide DirectChunks, InputMessage, Concat;
    ChunkWrites(e, w.(pushed := w.pushed + |Requested(op)|), Requested(op));
    var n := DirectChunksTraced(e, w.(pushed := w.pushed + |Requested(op)|), Requested(op));
    assert Apply(e, w, op) == PushBatch(e, w, Requested(op));
  }
}
