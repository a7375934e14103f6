/** What the coalescing writer promises, for every transport, clock and operation sequence. */
module CoalesceLaws {
  import opened Bytes
  import opened Frames
  import opened Messages
  import opened Coalesce

  // What a call puts on the stream, and which flushes it performs ---------------------------

  /** A message is accepted when it was written or appended to the buffer. */
  function AcceptedEncoded(e: Env, w: Writer): nat {
    if w.direct && !e.writeOk(w.calls) then 0 else 1
  }

  function AcceptedMessage(e: Env, w: Writer, m: Msg): nat {
    if Serialize(m).Err? then 0
    else if m.Critical() && !w.direct then
      var (w1, r) := FlushNow(e, w);
      if r.Ok? && e.writeOk(w1.calls) then 1 else 0
    else AcceptedEncoded(e, w)
  }

  /** Direct batches: the frames of the chunks written before one fails. */
  function AcceptedChunks(e: Env, calls: nat, count: nat): (k: nat)
    ensures k <= count
    decreases count
  {
    var n := Min(count, DIRECT_GAMEPAD_BATCH_FRAMES);
    if count == 0 || !e.writeOk(calls) then 0 else n + AcceptedChunks(e, calls + 1, count - n)
  }

  /** Buffered batches: the frames up to and including the one whose flush fails. */
  function AcceptedBuffered(e: Env, w: Writer, parts: seq<seq<byte>>): (k: nat)
    ensures k <= |parts|
    decreases |parts|
  {
    if parts == [] then 0
    else
      var w1 := w.(pending := w.pending + parts[0]);
      if |w1.pending| < w.hardLimit then 1 + AcceptedBuffered(e, w1, parts[1..])
      else
        var (w2, r) := FlushNow(e, w1);
        1 + (if r.Err? then 0 else AcceptedBuffered(e, w2, parts[1..]))
  }

  predicate FitsWhole(w: Writer, count: nat) {
    |w.pending| + count * GAMEPAD_MESSAGE_BYTES <= w.hardLimit
  }

  function AcceptedBatch(e: Env, w: Writer, parts: seq<seq<byte>>): (k: nat)
    ensures k <= |parts|
  {
    if parts == [] then 0
    else if |parts| == 1 then AcceptedEncoded(e, w)
    else if w.direct then AcceptedChunks(e, w.calls, |parts|)
    else if FitsWhole(w, |parts|) then |parts|
    else AcceptedBuffered(e, w.(pushed := w.pushed + |parts|), parts)
  }

  /** How many of its requested messages a call puts on the stream. */
  function Accepted(e: Env, w: Writer, op: Op): nat {
    match op
    case PushMessage(m) => AcceptedMessage(e, w, m)
    case PushPacked(_, _) => AcceptedEncoded(e, w)
    case PushFields(_, _) => AcceptedEncoded(e, w)
    case PushRaw(id, size, data) => AcceptedMessage(e, w, UhidInput(id, size, data))
    case PushPackedBatch(id, ps) => AcceptedBatch(e, w, InputMessages(id, ps))
    case PushFieldsBatch(id, fs) => AcceptedBatch(e, w, InputMessages(id, PackAll(fs)))
    case Flush => 0
  }

  /** The states in which a call asks for its buffer to be flushed, in order. */
  function WindowFlushes(e: Env, w: Writer): seq<Writer> {
    if e.expired(w.ticks) && w.pending != [] then [w.(ticks := w.ticks + 1)] else []
  }

  function SettleFlushes(e: Env, w: Writer): seq<Writer> {
    if |w.pending| >= w.hardLimit then [w] else WindowFlushes(e, w)
  }

  function EncodedFlushes(e: Env, w: Writer, bytes: seq<byte>): seq<Writer> {
    if w.direct then [] else SettleFlushes(e, w.(pushed := w.pushed + 1, pending := w.pending + bytes))
  }

  function MessageFlushes(e: Env, w: Writer, m: Msg): seq<Writer> {
    if w.direct then []
    else if m.Critical() then [w.(pushed := w.pushed + 1)]
    else if Serialize(m).Err? then []
    else EncodedFlushes(e, w, Encoding(m))
  }

  function BufferedFlushes(e: Env, w: Writer, parts: seq<seq<byte>>): seq<Writer>
    decreases |parts|
  {
    if parts == [] then WindowFlushes(e, w)
    else
      var w1 := w.(pending := w.pending + parts[0]);
      if |w1.pending| < w.hardLimit then BufferedFlushes(e, w1, parts[1..])
      else
        var (w2, r) := FlushNow(e, w1);
        [w1] + (if r.Err? then [] else BufferedFlushes(e, w2, parts[1..]))
  }

  function BatchFlushes(e: Env, w: Writer, parts: seq<seq<byte>>): seq<Writer> {
    var w1 := w.(pushed := w.pushed + |parts|);
    if parts == [] || (|parts| > 1 && w.direct) then []
    else if |parts| == 1 then EncodedFlushes(e, w, parts[0])
    else if FitsWhole(w, |parts|) then WindowFlushes(e, w1.(pending := w1.pending + Concat(parts)))
    else BufferedFlushes(e, w1, parts)
  }

  function FlushStates(e: Env, w: Writer, op: Op): seq<Writer> {
    match op
    case PushMessage(m) => MessageFlushes(e, w, m)
    case PushPacked(id, p) => EncodedFlushes(e, w, InputMessage(id, p))
    case PushFields(id, f) => EncodedFlushes(e, w, InputMessage(id, Pack(f)))
    case PushRaw(id, size, data) => MessageFlushes(e, w, UhidInput(id, size, data))
    case PushPackedBatch(id, ps) => BatchFlushes(e, w, InputMessages(id, ps))
    case PushFieldsBatch(id, fs) => BatchFlushes(e, w, InputMessages(id, PackAll(fs)))
    case Flush => [w]
  }

  /** A flush tears when the transport takes the buffered bytes and then fails to flush: the buffer
      is kept, and the next flush sends it again. */
  predicate Tears(e: Env, w: Writer) {
    w.pending != [] && e.writeOk(w.calls) && !e.flushOk(w.calls + 1)
  }

  predicate AnyTears(e: Env, states: seq<Writer>) {
    exists i :: 0 <= i < |states| && Tears(e, states[i])
  }

  lemma AnyTearsCons(e: Env, w: Writer, rest: seq<Writer>)
    ensures AnyTears(e, [w] + rest) <==> Tears(e, w) || AnyTears(e, rest)
  {
    var all := [w] + rest;
    assert all[0] == w;
    if i :| 0 <= i < |rest| && Tears(e, rest[i]) {
      assert all[i + 1] == rest[i];
    }
    if i :| 0 < i < |all| && Tears(e, all[i]) {
      assert rest[i - 1] == all[i];
    }
  }

  lemma OneTears(e: Env, w: Writer)
    ensures AnyTears(e, [w]) <==> Tears(e, w)
  {
    AnyTearsCons(e, w, []);
    assert [w] + [] == [w];
  }

  // Conservation under failures ----------------------------------------------------------

  /** The call's result shows the tear: a flush error with bytes still buffered. */
  predicate Duplicated<T>(after: Writer, r: Result<T>) {
    r.Err? && r.error.FlushFailed? && after.pending != []
  }

  /** The stream grew by `added`, plus a second copy of the kept buffer if it was duplicated. */
  ghost predicate Grew<T>(before: Writer, after: Writer, added: seq<byte>, r: Result<T>) {
    && after.direct == before.direct && after.hardLimit == before.hardLimit
    && after.Valid()
    && after.Stream() == before.Stream() + added + (if Duplicated(after, r) then after.pending else [])
  }

  /** ... and it was duplicated exactly if one of the flushes in `states` tore. */
  ghost predicate GrewBy<T>(
    e: Env, before: Writer, after: Writer, added: seq<byte>, states: seq<Writer>, r: Result<T>)
  {
    Grew(before, after, added, r) && (Duplicated(after, r) <==> AnyTears(e, states))
  }

  lemma GrewThenGrew<S, T>(
    a: Writer, b: Writer, c: Writer, first: seq<byte>, second: seq<byte>, r1: Result<S>, r2: Result<T>)
    requires Grew(a, b, first, r1) && !Duplicated(b, r1) && Grew(b, c, second, r2)
    ensures Grew(a, c, first + second, r2)
  {
    var tail := if Duplicated(c, r2) then c.pending else [];
    assert a.Stream() + first + [] == a.Stream() + first;
    assert a.Stream() + first + second + tail == a.Stream() + (first + second) + tail;
  }

  lemma FlushNowGrows(e: Env, w: Writer)
    requires w.Valid()
    ensures var (w', r) := FlushNow(e, w);
            && Grew(w, w', [], r)
            && (Duplicated(w', r) <==> Tears(e, w))
            && (r.Ok? ==> w'.pending == [] && w'.wire == w.Stream() && r.value == |w.pending|)
            && (r.Err? ==> w'.pending == w.pending != [])
  {
  }

  lemma FlushForGrows(e: Env, w: Writer, reason: FlushReason)
    requires w.Valid()
    ensures var (w', r) := FlushFor(e, w, reason);
            && GrewBy(e, w, w', [], [w], r)
            && (r.Ok? ==> w'.pending == [] && w'.wire == w.Stream())
  {
    FlushNowGrows(e, w);
    OneTears(e, w);
  }

  lemma CheckWindowGrows(e: Env, w: Writer, otherwise: FlushReason)
    requires w.Valid()
    ensures var (w', r) := CheckWindow(e, w, otherwise); GrewBy(e, w, w', [], WindowFlushes(e, w), r)
  {
    FlushForGrows(e, w.(ticks := w.ticks + 1), Window);
  }

  lemma SettleGrows(e: Env, w: Writer)
    requires w.Valid()
    ensures var (w', r) := Settle(e, w); GrewBy(e, w, w', [], SettleFlushes(e, w), r)
  {
    FlushForGrows(e, w, Full);
    CheckWindowGrows(e, w, Pending);
  }

  lemma SendForGrows(e: Env, w: Writer, bytes: seq<byte>, reason: FlushReason)
    requires w.pending == []
    ensures var (w', r) := SendFor(e, w, bytes, reason);
            && (r.Ok? ==> e.writeOk(w.calls)) && !Duplicated(w', r)
            && Grew(w, w', if e.writeOk(w.calls) then bytes else [], r)
  {
  }

  lemma PushEncodedGrows(e: Env, w: Writer, bytes: seq<byte>)
    requires w.Valid()
    ensures var (w', r) := PushEncoded(e, w, bytes);
            var k := AcceptedEncoded(e, w);
            && (r.Ok? ==> k == 1)
            && GrewBy(e, w, w', if k == 1 then bytes else [], EncodedFlushes(e, w, bytes), r)
  {
    if w.direct {
      SendForGrows(e, w.(pushed := w.pushed + 1), bytes, Window);
    } else {
      SettleGrows(e, w.(pushed := w.pushed + 1, pending := w.pending + bytes));
    }
  }

  lemma CriticalGrows(e: Env, w: Writer, m: Msg)
    requires !w.direct && m.Critical()
    ensures var (w', r) := Push(e, w, m);
            var k := AcceptedMessage(e, w, m);
            && (r.Ok? ==> k == 1 && Serialize(m).Ok?)
            && GrewBy(e, w, w', if k == 1 then Encoding(m) else [], MessageFlushes(e, w, m), r)
  {
    hide FlushNow, SendFor, Serialize, Encoding;
    var w1 := w.(pushed := w.pushed + 1);
    CountingDoesNotMatter(e, w, 1);
    FlushNowGrows(e, w1);
    OneTears(e, w1);
    var (w2, r2) := FlushNow(e, w1);
    EncodingOk(m);
    if r2.Ok? && Serialize(m).Ok? {
      SendForGrows(e, w2, Serialize(m).value, Critical);
    }
  }

  /** The push counter has no influence on a flush. */
  lemma CountingDoesNotMatter(e: Env, w: Writer, n: nat)
    ensures var (w1, r1) := FlushNow(e, w);
            FlushNow(e, w.(pushed := w.pushed + n)) == (w1.(pushed := w1.pushed + n), r1)
  {
  }

  lemma EncodingOk(m: Msg)
    ensures Serialize(m).Ok? ==> Serialize(m) == Ok(Encoding(m))
    ensures Serialize(m).Err? ==> !Serialize(m).error.FlushFailed?
  {
  }

  lemma PushGrows(e: Env, w: Writer, m: Msg)
    requires w.Valid()
    ensures var (w', r) := Push(e, w, m);
            var k := AcceptedMessage(e, w, m);
            && (r.Ok? ==> k == 1 && Serialize(m).Ok?)
            && GrewBy(e, w, w', if k == 1 then Encoding(m) else [], MessageFlushes(e, w, m), r)
  {
    hide Settle, SendFor, Serialize, Encoding, SettleFlushes;
    var w1 := w.(pushed := w.pushed + 1);
    EncodingOk(m);
    if w.direct {
      if Serialize(m).Ok? {
        SendForGrows(e, w1, Encoding(m), if m.Critical() then Critical else Window);
      }
    } else if m.Critical() {
      CriticalGrows(e, w, m);
    } else if Serialize(m).Ok? {
      SettleGrows(e, w1.(pending := w1.pending + Encoding(m)));
    }
  }

  lemma ConcatSplit(parts: seq<seq<byte>>, n: nat)
    requires n <= |parts|
    ensures Concat(parts) == Concat(parts[..n]) + Concat(parts[n..])
  {
    assert parts == parts[..n] + parts[n..];
    ConcatAppend(parts[..n], parts[n..]);
  }

  lemma NoParts()
    ensures Concat([]) == []
  {
  }

  lemma {:induction false} DirectChunksGrow(e: Env, w: Writer, parts: seq<seq<byte>>)
    ensures var (w', r) := DirectChunks(e, w, parts);
            var k := AcceptedChunks(e, w.calls, |parts|);
            && (r.Ok? ==> k == |parts|) && (r.Err? ==> r.error.WriteFailed?)
            && w' == w.(wire := w.wire + Concat(parts[..k]), calls := w'.calls, made := w'.made)
    decreases |parts|
  {
    hide Concat;
    NoParts();
    assert w.wire + [] == w.wire && parts[..0] == [];
    if parts != [] {
      var n := Min(|parts|, DIRECT_GAMEPAD_BATCH_FRAMES);
      var (w1, r1) := WriteAll(e, w, Concat(parts[..n]));
      if r1.Ok? {
        DirectChunksGrow(e, w1, parts[n..]);
        var k := AcceptedChunks(e, w.calls, |parts|);
        var j := AcceptedChunks(e, w1.calls, |parts[n..]|);
        ConcatSplit(parts[..k], n);
        assert parts[..k][..n] == parts[..n] && parts[..k][n..] == parts[n..][..j];
        assert w.wire + Concat(parts[..n]) + Concat(parts[n..][..j]) == w.wire + Concat(parts[..k]);
      }
    }
  }

  lemma {:induction false} BufferEachGrows(e: Env, w: Writer, parts: seq<seq<byte>>, reason: FlushReason)
    requires !w.direct
    ensures var (w', r) := BufferEach(e, w, parts, reason);
            var k := AcceptedBuffered(e, w, parts);
            && (r.Ok? ==> k == |parts|)
            && GrewBy(e, w, w', Concat(parts[..k]), BufferedFlushes(e, w, parts), r)
    decreases |parts|
  {
    hide FlushNow, CheckWindow, Grew, AnyTears, Tears;
    if parts == [] {
      CheckWindowGrows(e, w, reason);
    } else {
      var (w', r) := BufferEach(e, w, parts, reason);
      var k := AcceptedBuffered(e, w, parts);
      var w1 := w.(pending := w.pending + parts[0]);
      BufferedGrows(w, w1, parts[0]);
      var rest := parts[1..];
      var j := k - 1;
      if |w1.pending| >= w.hardLimit {
        FlushNowGrows(e, w1);
        var (w2, r2) := FlushNow(e, w1);
        if r2.Ok? {
          GrewKeepsMode(w1, w2, [], r2);
          BufferEachGrows(e, w2, rest, Full);
          AnyTearsCons(e, w1, BufferedFlushes(e, w2, rest));
          GrewThenGrew(w1, w2, w', [], Concat(rest[..j]), r2, r);
        } else {
          OneTears(e, w1);
          assert [w1] + [] == [w1];
          GrewSameError(w1, w', r2, r);
        }
      } else {
        BufferEachGrows(e, w1, rest, reason);
      }
      assert parts[..k][0] == parts[0] && parts[..k][1..] == rest[..j];
      assert [] + Concat(rest[..j]) == Concat(rest[..j]);
      var accepted: Result<()> := Ok(());
      GrewThenGrew(w, w1, w', parts[0], Concat(rest[..j]), accepted, r);
    }
  }

  lemma BufferedGrows(w: Writer, w1: Writer, bytes: seq<byte>)
    requires !w.direct && w1 == w.(pending := w.pending + bytes)
    ensures var accepted: Result<()> := Ok(()); Grew(w, w1, bytes, accepted) && !Duplicated(w1, accepted)
  {
  }

  lemma GrewKeepsMode<T>(a: Writer, b: Writer, added: seq<byte>, r: Result<T>)
    requires Grew(a, b, added, r)
    ensures b.direct == a.direct && b.hardLimit == a.hardLimit
  {
  }

  lemma GrewSameError<S, T>(a: Writer, b: Writer, r1: Result<S>, r2: Result<T>)
    requires r1.Err? && r2.Err? && r1.error == r2.error && Grew(a, b, [], r1)
    ensures Grew(a, b, [], r2) && (Duplicated(b, r2) <==> Duplicated(b, r1))
  {
  }

  lemma DirectBatchGrows(e: Env, w: Writer, parts: seq<seq<byte>>)
    requires w.direct && w.Valid()
    ensures var (w', r) := DirectBatch(e, w, parts);
            var k := AcceptedChunks(e, w.calls, |parts|);
            && (r.Ok? ==> k == |parts|) && !Duplicated(w', r)
            && Grew(w, w', Concat(parts[..k]), r)
  {
    hide DirectChunks, Concat, AcceptedChunks;
    DirectChunksGrow(e, w, parts);
  }

  lemma PushBatchGrows(e: Env, w: Writer, parts: seq<seq<byte>>)
    requires w.Valid()
    ensures var (w', r) := PushBatch(e, w, parts);
            var k := AcceptedBatch(e, w, parts);
            && (r.Ok? ==> k == |parts|)
            && GrewBy(e, w, w', Concat(parts[..k]), BatchFlushes(e, w, parts), r)
  {
    hide DirectBatch, PushEncoded, CheckWindow, BufferEach, AcceptedChunks, AcceptedBuffered, BufferedFlushes,
         EncodedFlushes,
         WindowFlushes;
    var w1 := w.(pushed := w.pushed + |parts|);
    if parts == [] {
    } else if |parts| == 1 {
      PushEncodedGrows(e, w, parts[0]);
      assert Concat(parts[..1]) == parts[0] + Concat([]);
    } else if w.direct {
      DirectBatchGrows(e, w1, parts);
    } else if FitsWhole(w, |parts|) {
      assert parts[..|parts|] == parts;
      CheckWindowGrows(e, w1.(pending := w1.pending + Concat(parts)), Pending);
    } else {
      BufferEachGrows(e, w1, parts, Pending);
    }
  }

  /** One call, whatever the transport does: exactly the accepted prefix of the requested messages
      joins the stream, all of it if the call returned Ok; and the kept buffer joins it a second
      time exactly if a flush of the call tore. */
  lemma ApplyConserves(e: Env, w: Writer, op: Op)
    requires w.Valid()
    ensures Accepted(e, w, op) <= |Requested(op)|
    ensures var (w', r) := Apply(e, w, op);
            var k := Accepted(e, w, op);
            && (r.Ok? ==> k == |Requested(op)| && Acceptable(op))
            && GrewBy(e, w, w', Concat(Requested(op)[..k]), FlushStates(e, w, op), r)
  {
    hide Push, PushEncoded, PushBatch, FlushFor, AcceptedMessage, AcceptedEncoded, AcceptedBatch, MessageFlushes,
         EncodedFlushes,
         BatchFlushes, AnyTears, Grew, Serialize, Encoding;
    match op
    case PushMessage(m) => PushMessageGrows(e, w, m);
    case PushPacked(id, p) => PushOneGrows(e, w, InputMessage(id, p));
    case PushFields(id, f) => PushOneGrows(e, w, InputMessage(id, Pack(f)));
    case PushRaw(id, size, data) => PushMessageGrows(e, w, UhidInput(id, size, data));
    case PushPackedBatch(id, ps) => PushBatchGrows(e, w, InputMessages(id, ps));
    case PushFieldsBatch(id, fs) => PushBatchGrows(e, w, InputMessages(id, PackAll(fs)));
    case Flush => FlushForGrows(e, w, if w.pending == [] then Pending else Window);
  }

  lemma PushOneGrows(e: Env, w: Writer, bytes: seq<byte>)
    requires w.Valid()
    ensures AcceptedEncoded(e, w) <= 1
    ensures var (w', r) := PushEncoded(e, w, bytes);
            && (r.Ok? ==> AcceptedEncoded(e, w) == 1)
            && GrewBy(e, w, w', Concat([bytes][..AcceptedEncoded(e, w)]), EncodedFlushes(e, w, bytes), r)
  {
    hide PushEncoded, EncodedFlushes;
    PushEncodedGrows(e, w, bytes);
    var one: seq<seq<byte>> := [bytes];
    assert |one[..0]| == 0 && one[..1] == one && one[1..] == [] && Concat(one) == bytes + Concat(one[1..]);
  }

  lemma PushMessageGrows(e: Env, w: Writer, m: Msg)
    requires w.Valid()
    ensures var asked := if Serialize(m).Ok? then [Encoding(m)] else [];
            AcceptedMessage(e, w, m) <= |asked|
    ensures var (w', r) := Push(e, w, m);
            var asked := if Serialize(m).Ok? then [Encoding(m)] else [];
            var k := AcceptedMessage(e, w, m);
            && (r.Ok? ==> k == |asked| && Serialize(m).Ok?)
            && GrewBy(e, w, w', Concat(asked[..k]), MessageFlushes(e, w, m), r)
  {
    hide Push, MessageFlushes, Serialize, Encoding;
    PushGrows(e, w, m);
    var b := Encoding(m);
    var one: seq<seq<byte>> := [b];
    assert |one[..0]| == 0 && one[..1] == one && one[1..] == [] && Concat(one) == b + Concat(one[1..]);
  }

  /** Over a run: the messages that joined the stream, in call order. */
  function AcceptedBytes(e: Env, w: Writer, ops: seq<Op>): seq<byte>
    requires w.Valid()
    decreases |ops|
  {
    if ops == [] then []
    else
      ApplyConserves(e, w, ops[0]);
      var w1 := Apply(e, w, ops[0]).0;
      Concat(Requested(ops[0])[..Accepted(e, w, ops[0])]) + AcceptedBytes(e, w1, ops[1..])
  }

  predicate EverTears(e: Env, w: Writer, ops: seq<Op>)
    decreases |ops|
  {
    ops != [] && (AnyTears(e, FlushStates(e, w, ops[0])) || EverTears(e, Apply(e, w, ops[0]).0, ops[1..]))
  }

  predicate AllOk(e: Env, w: Writer, ops: seq<Op>)
    decreases |ops|
  {
    ops == [] || (var (w1, r) := Apply(e, w, ops[0]); r.Ok? && AllOk(e, w1, ops[1..]))
  }

  /** Exactly once: over any run on any transport, the stream is the accepted messages in call
      order, once each, if and only if no flush of the run found a non-empty buffer, had its write
      taken and its transport flush fail. Otherwise the stream is longer. */
  lemma {:induction false} RunConservesIffNeverTorn(e: Env, w: Writer, ops: seq<Op>)
    requires w.Valid()
    ensures Run(e, w, ops).Valid()
    ensures |Run(e, w, ops).Stream()| >= |w.Stream() + AcceptedBytes(e, w, ops)|
    ensures Run(e, w, ops).Stream() == w.Stream() + AcceptedBytes(e, w, ops) <==> !EverTears(e, w, ops)
    ensures AllOk(e, w, ops) ==> AcceptedBytes(e, w, ops) == RequestedAll(ops) && !EverTears(e, w, ops)
    decreases |ops|
  {
    hide Apply, Requested, Grew, Duplicated, Accepted, FlushStates, AnyTears;
    if ops == [] {
      assert w.Stream() == w.Stream() + [];
    } else {
      var (w1, r) := Apply(e, w, ops[0]);
      ApplyConserves(e, w, ops[0]);
      var first := Concat(Requested(ops[0])[..Accepted(e, w, ops[0])]);
      StreamGrew(w, w1, first, r);
      RunConservesIffNeverTorn(e, w1, ops[1..]);
      var later := AcceptedBytes(e, w1, ops[1..]);
      assert w.Stream() + first + later == w.Stream() + (first + later);
      assert Requested(ops[0])[..|Requested(ops[0])|] == Requested(ops[0]);
    }
  }

  lemma StreamGrew<T>(before: Writer, after: Writer, added: seq<byte>, r: Result<T>)
    requires Grew(before, after, added, r)
    ensures after.Valid() && (r.Ok? ==> !Duplicated(after, r))
    ensures if Duplicated(after, r) then |after.Stream()| > |before.Stream() + added|
            else after.Stream() == before.Stream() + added
  {
  }

  /** A run that duplicates: one report is pushed at the limit, its write lands, the transport's
      flush fails, and the retry sends the same twenty bytes again. */
  lemma OneReportSentTwice(e: Env, id: u16, p: Payload)
    requires e.writeOk(0) && !e.flushOk(1) && e.writeOk(2) && e.flushOk(3)
    ensures var ops := [PushPacked(id, p), Flush];
            var w := WithLimits(false, 20);
            && Accepted(e, w, ops[0]) == 1 && Accepted(e, Apply(e, w, ops[0]).0, ops[1]) == 0
            && Run(e, w, ops).wire == InputMessage(id, p) + InputMessage(id, p)
            && Run(e, w, ops).pending == []
  {
    hide InputMessage;
    var m := InputMessage(id, p);
    var ops := [PushPacked(id, p), Flush];
    assert ops[1..][1..] == [];
    var w := WithLimits(false, 20);
    assert [] + m == m;
    var w1 := Apply(e, w, ops[0]).0;
    assert w1.wire == m && w1.pending == m && w1.calls == 2;
    assert Apply(e, w1, ops[1]).0.wire == m + m;
    assert Run(e, w, ops) == Run(e, w1, ops[1..]) == Run(e, Apply(e, w1, Flush).0, ops[1..][1..]);
  }

  // Transports that never fail -------------------------------------------------------------

  lemma {:induction false} DirectChunksOk(e: Env, w: Writer, parts: seq<seq<byte>>)
    requires Reliable(e)
    ensures DirectChunks(e, w, parts).1.Ok?
    decreases |parts|
  {
    if parts != [] {
      var n := Min(|parts|, DIRECT_GAMEPAD_BATCH_FRAMES);
      DirectChunksOk(e, WriteAll(e, w, Concat(parts[..n])).0, parts[n..]);
    }
  }

  lemma {:induction false} BufferEachOk(e: Env, w: Writer, parts: seq<seq<byte>>, reason: FlushReason)
    requires Reliable(e)
    ensures BufferEach(e, w, parts, reason).1.Ok?
    decreases |parts|
  {
    if parts != [] {
      var w1 := w.(pending := w.pending + parts[0]);
      BufferEachOk(e, FlushNow(e, w1).0, parts[1..], Full);
      BufferEachOk(e, w1, parts[1..], reason);
    }
  }

  lemma PushBatchOk(e: Env, w: Writer, parts: seq<seq<byte>>)
    requires Reliable(e)
    ensures PushBatch(e, w, parts).1.Ok?
  {
    var w1 := w.(pushed := w.pushed + |parts|);
    DirectChunksOk(e, w1, parts);
    BufferEachOk(e, w1, parts, Pending);
  }

  lemma ReliableOk(e: Env, w: Writer, op: Op)
    requires Reliable(e) && w.Valid()
    ensures Apply(e, w, op).1.Ok? <==> Acceptable(op)
  {
    match op
    case PushPackedBatch(id, ps) => PushBatchOk(e, w, InputMessages(id, ps));
    case PushFieldsBatch(id, fs) => PushBatchOk(e, w, InputMessages(id, PackAll(fs)));
    case _ =>
  }

  lemma RefusedAsksNothing(e: Env, w: Writer, op: Op)
    requires Reliable(e) && w.Valid() && (op.PushMessage? || op.PushRaw?) && !Acceptable(op)
    ensures Requested(op) == [] && Apply(e, w, op).1.Err? && !Apply(e, w, op).1.error.FlushFailed?
  {
    hide Serialize;
    EncodingOk(if op.PushMessage? then op.msg else UhidInput(op.rawId, op.size, op.data));
  }

  /** On a reliable transport a call fails only for a message that cannot be serialized, and the
      stream grows by exactly what was requested. */
  lemma ReliableApply(e: Env, w: Writer, op: Op)
    requires Reliable(e) && w.Valid()
    ensures var (w', r) := Apply(e, w, op);
            && (r.Ok? <==> Acceptable(op))
            && w'.Valid() && w'.direct == w.direct && w'.hardLimit == w.hardLimit
            && w'.Stream() == w.Stream() + Concat(Requested(op)) && |w'.wire| >= |w.wire|
  {
    ApplyConserves(e, w, op);
    hide Apply, Requested, Acceptable;
    ReasonIsTruthful(e, w, op);
    ReliableOk(e, w, op);
    if !Acceptable(op) {
      RefusedAsksNothing(e, w, op);
    }
    assert Requested(op)[..|Requested(op)|] == Requested(op);
  }

  lemma ReliableBatch(e: Env, w: Writer, id: u16, payloads: seq<Payload>)
    requires Reliable(e) && w.Valid()
    ensures var (w', r) := PushBatch(e, w, InputMessages(id, payloads));
            && r.Ok? && w'.Valid() && w'.direct == w.direct && w'.hardLimit == w.hardLimit
            && w'.Stream() == w.Stream() + Concat(InputMessages(id, payloads)) && |w'.wire| >= |w.wire|
  {
    ReliableApply(e, w, PushPackedBatch(id, payloads));
  }

  function RequestedAll(ops: seq<Op>): seq<byte> {
    if ops == [] then [] else Concat(Requested(ops[0])) + RequestedAll(ops[1..])
  }

  lemma {:induction false} ReliableRun(e: Env, w: Writer, ops: seq<Op>)
    requires Reliable(e) && w.Valid()
    ensures Run(e, w, ops).Valid()
    ensures Run(e, w, ops).Stream() == w.Stream() + RequestedAll(ops)
    decreases |ops|
  {
    hide Apply, Requested;
    if ops != [] {
      ReliableApply(e, w, ops[0]);
      ReliableRun(e, Apply(e, w, ops[0]).0, ops[1..]);
    }
  }

  lemma ReliableIntoInner(e: Env, w: Writer)
    requires Reliable(e) && w.Valid()
    ensures IntoInner(e, w) == Ok(w.Stream())
  {
    FlushNowGrows(e, w);
  }

  /** Mode independence: whatever the windows, limits and clocks, two writers given the same
      calls leave the same bytes: every requested message, in order. */
  lemma ModeIndependence(
    e1: Env, zero1: bool, limit1: nat, e2: Env, zero2: bool, limit2: nat, ops: seq<Op>)
    requires Reliable(e1) && Reliable(e2)
    ensures IntoInner(e1, Run(e1, WithLimits(zero1, limit1), ops)) == Ok(RequestedAll(ops))
    ensures IntoInner(e2, Run(e2, WithLimits(zero2, limit2), ops))
         == IntoInner(e1, Run(e1, WithLimits(zero1, limit1), ops))
  {
    hide Run, RequestedAll, IntoInner;
    var none: seq<byte> := [];
    assert none + RequestedAll(ops) == RequestedAll(ops);
    ReliableRun(e1, WithLimits(zero1, limit1), ops);
    ReliableRun(e2, WithLimits(zero2, limit2), ops);
    ReliableIntoInner(e1, Run(e1, WithLimits(zero1, limit1), ops));
    ReliableIntoInner(e2, Run(e2, WithLimits(zero2, limit2), ops));
  }

  // What the return value says -----------------------------------------------------------

  /** A successful call reports `Pending` exactly when it put nothing on the wire. */
  ghost predicate Truthful(before: Writer, after: Writer, r: Result<FlushReason>) {
    && |after.wire| >= |before.wire|
    && (r.Ok? ==> (r.value == Pending <==> after.wire == before.wire))
  }

  lemma {:induction false} BufferEachTruthful(
    e: Env, start: Writer, w: Writer, parts: seq<seq<byte>>, reason: FlushReason)
    requires forall i :: 0 <= i < |parts| ==> parts[i] != []
    requires Truthful(start, w, Ok(reason))
    ensures var (w', r) := BufferEach(e, w, parts, reason); Truthful(start, w', r)
    decreases |parts|
  {
    if parts != [] {
      var w1 := w.(pending := w.pending + parts[0]);
      BufferEachTruthful(e, start, w1, parts[1..], reason);
      var (w2, r2) := FlushNow(e, w1);
      if r2.Ok? {
        BufferEachTruthful(e, start, w2, parts[1..], Full);
      }
    }
  }

  lemma PushBatchTruthful(e: Env, w: Writer, parts: seq<seq<byte>>)
    requires w.Valid()
    requires forall i :: 0 <= i < |parts| ==> parts[i] != []
    ensures var (w', r) := PushBatch(e, w, parts); Truthful(w, w', r)
  {
    var w1 := w.(pushed := w.pushed + |parts|);
    if |parts| > 1 && w.direct {
      DirectChunksGrow(e, w1, parts);
      assert parts[..|parts|] == parts;
    } else if |parts| > 1 {
      BufferEachTruthful(e, w, w1, parts, Pending);
    }
  }

  lemma ReasonIsTruthful(e: Env, w: Writer, op: Op)
    requires w.Valid()
    ensures var (w', r) := Apply(e, w, op); Truthful(w, w', r)
  {
    match op
    case PushMessage(m) => PushTruthful(e, w, m);
    case PushRaw(id, size, data) => PushTruthful(e, w, UhidInput(id, size, data));
    case PushPackedBatch(id, ps) => PushBatchTruthful(e, w, InputMessages(id, ps));
    case PushFieldsBatch(id, fs) => PushBatchTruthful(e, w, InputMessages(id, PackAll(fs)));
    case _ =>
  }

  lemma PushTruthful(e: Env, w: Writer, m: Msg)
    requires w.Valid()
    ensures var (w', r) := Push(e, w, m); Truthful(w, w', r)
  {
    if Serialize(m).Ok? {
      Framing(m, []);
      assert Encoding(m) != [];
    }
  }

  // Accounting ---------------------------------------------------------------------------

  /** Flushes performed, plus the one still owed for a non-empty buffer. */
  function Owed(w: Writer): nat {
    w.flushes + (if w.pending == [] then 0 else 1)
  }

  lemma FlushNowOwes(e: Env, w: Writer)
    ensures Owed(FlushNow(e, w).0) == Owed(w) && FlushNow(e, w).0.pushed == w.pushed
  {
  }

  lemma {:induction false} BufferEachOwes(e: Env, w: Writer, parts: seq<seq<byte>>, reason: FlushReason)
    ensures var w' := BufferEach(e, w, parts, reason).0;
            Owed(w') <= Owed(w) + |parts| && w'.pushed == w.pushed
    decreases |parts|
  {
    if parts == [] {
      FlushNowOwes(e, w.(ticks := w.ticks + 1));
    } else {
      var w1 := w.(pending := w.pending + parts[0]);
      FlushNowOwes(e, w1);
      BufferEachOwes(e, FlushNow(e, w1).0, parts[1..], Full);
      BufferEachOwes(e, w1, parts[1..], reason);
    }
  }

  /** Each call owes at most one flush per message pushed, failures included. */
  lemma ApplyOwes(e: Env, w: Writer, op: Op)
    requires w.Valid()
    ensures var w' := Apply(e, w, op).0;
            w'.pushed >= w.pushed && Owed(w') - Owed(w) <= w'.pushed - w.pushed
  {
    hide Push, PushEncoded, PushBatch, FlushNow;
    match op
    case PushMessage(m) => PushOwes(e, w, m);
    case PushRaw(id, size, data) => PushOwes(e, w, UhidInput(id, size, data));
    case PushPacked(id, p) => PushEncodedOwes(e, w, InputMessage(id, p));
    case PushFields(id, f) => PushEncodedOwes(e, w, InputMessage(id, Pack(f)));
    case PushPackedBatch(id, ps) => PushBatchOwes(e, w, InputMessages(id, ps));
    case PushFieldsBatch(id, fs) => PushBatchOwes(e, w, InputMessages(id, PackAll(fs)));
    case Flush => FlushNowOwes(e, w);
  }

  lemma PushEncodedOwes(e: Env, w: Writer, bytes: seq<byte>)
    requires w.Valid()
    ensures var w' := PushEncoded(e, w, bytes).0;
            w'.pushed >= w.pushed && Owed(w') - Owed(w) <= w'.pushed - w.pushed
  {
  }

  lemma PushOwes(e: Env, w: Writer, m: Msg)
    requires w.Valid()
    ensures var w' := Push(e, w, m).0;
            w'.pushed >= w.pushed && Owed(w') - Owed(w) <= w'.pushed - w.pushed
  {
    hide Serialize;
  }

  lemma PushBatchOwes(e: Env, w: Writer, parts: seq<seq<byte>>)
    requires w.Valid()
    ensures var w' := PushBatch(e, w, parts).0;
            w'.pushed >= w.pushed && Owed(w') - Owed(w) <= w'.pushed - w.pushed
  {
    var w1 := w.(pushed := w.pushed + |parts|);
    if |parts| > 1 && w.direct {
      DirectChunksGrow(e, w1, parts);
    } else if |parts| > 1 {
      BufferEachOwes(e, w1, parts, Pending);
    }
  }

  /** Over every run, on every transport, there are never more flushes than messages. */
  lemma {:induction false} FlushesNeverExceedPushes(e: Env, w: Writer, ops: seq<Op>)
    requires w.Valid() && Owed(w) <= w.pushed
    ensures Owed(Run(e, w, ops)) <= Run(e, w, ops).pushed
    decreases |ops|
  {
    if ops != [] {
      ApplyOwes(e, w, ops[0]);
      ApplyConserves(e, w, ops[0]);
      FlushesNeverExceedPushes(e, Apply(e, w, ops[0]).0, ops[1..]);
    }
  }

  lemma {:induction false} BufferEachWritten(e: Env, w: Writer, parts: seq<seq<byte>>, reason: FlushReason)
    requires Reliable(e) && w.written == |w.wire|
    ensures var w' := BufferEach(e, w, parts, reason).0; w'.written == |w'.wire|
    decreases |parts|
  {
    if parts != [] {
      var w1 := w.(pending := w.pending + parts[0]);
      BufferEachWritten(e, FlushNow(e, w1).0, parts[1..], Full);
      BufferEachWritten(e, w1, parts[1..], reason);
    }
  }

  lemma PushBatchWritten(e: Env, w: Writer, parts: seq<seq<byte>>)
    requires Reliable(e) && w.Valid() && w.written == |w.wire|
    ensures var w' := PushBatch(e, w, parts).0; w'.written == |w'.wire|
  {
    var w1 := w.(pushed := w.pushed + |parts|);
    if |parts| > 1 && w.direct {
      DirectChunksOk(e, w1, parts);
      DirectChunksGrow(e, w1, parts);
      assert parts[..|parts|] == parts;
    } else if |parts| > 1 {
      BufferEachWritten(e, w1, parts, Pending);
    }
  }

  lemma ApplyWritten(e: Env, w: Writer, op: Op)
    requires Reliable(e) && w.Valid() && w.written == |w.wire|
    ensures Apply(e, w, op).0.written == |Apply(e, w, op).0.wire|
  {
    hide Push, PushEncoded, FlushNow, PushBatch, InputMessage, Pack, InputMessages, PackAll;
    match op
    case PushMessage(m) => PushWritten(e, w, m);
    case PushRaw(id, size, data) => PushWritten(e, w, UhidInput(id, size, data));
    case PushPacked(id, p) => PushEncodedWritten(e, w, InputMessage(id, p));
    case PushFields(id, f) => PushEncodedWritten(e, w, InputMessage(id, Pack(f)));
    case PushPackedBatch(id, ps) => PushBatchWritten(e, w, InputMessages(id, ps));
    case PushFieldsBatch(id, fs) => PushBatchWritten(e, w, InputMessages(id, PackAll(fs)));
    case Flush => FlushWritten(e, w);
  }

  lemma FlushWritten(e: Env, w: Writer)
    requires Reliable(e) && w.written == |w.wire|
    ensures FlushNow(e, w).0.written == |FlushNow(e, w).0.wire|
  {
  }

  lemma PushEncodedWritten(e: Env, w: Writer, bytes: seq<byte>)
    requires Reliable(e) && w.written == |w.wire|
    ensures PushEncoded(e, w, bytes).0.written == |PushEncoded(e, w, bytes).0.wire|
  {
  }

  lemma PushWritten(e: Env, w: Writer, m: Msg)
    requires Reliable(e) && w.written == |w.wire|
    ensures Push(e, w, m).0.written == |Push(e, w, m).0.wire|
  {
    hide Serialize;
  }

  /** On a reliable transport the byte counter is the number of bytes on the wire. */
  lemma {:induction false} WrittenCountsTheWire(e: Env, w: Writer, ops: seq<Op>)
    requires Reliable(e) && w.Valid() && w.written == |w.wire|
    ensures Run(e, w, ops).written == |Run(e, w, ops).wire|
    decreases |ops|
  {
    hide Apply, Requested, Acceptable;
    if ops != [] {
      ReliableApply(e, w, ops[0]);
      ApplyWritten(e, w, ops[0]);
      WrittenCountsTheWire(e, Apply(e, w, ops[0]).0, ops[1..]);
    }
  }

  // The buffer bound ---------------------------------------------------------------------

  lemma {:induction false} BufferEachBound(e: Env, w: Writer, parts: seq<seq<byte>>, reason: FlushReason)
    requires w.pending == [] || |w.pending| < w.hardLimit
    ensures var (w', r) := BufferEach(e, w, parts, reason);
            r.Ok? ==> w'.pending == [] || |w'.pending| < w.hardLimit
    decreases |parts|
  {
    if parts != [] {
      var w1 := w.(pending := w.pending + parts[0]);
      if |w1.pending| < w.hardLimit {
        BufferEachBound(e, w1, parts[1..], reason);
      } else if FlushNow(e, w1).1.Ok? {
        BufferEachBound(e, FlushNow(e, w1).0, parts[1..], Full);
      }
    }
  }

  /** The batch branch that admits a batch filling the buffer to the brim. */
  predicate FillsExactly(w: Writer, op: Op) {
    var n := |Requested(op)|;
    && (op.PushPackedBatch? || op.PushFieldsBatch?)
    && !w.direct && n > 1
    && |w.pending| + n * GAMEPAD_MESSAGE_BYTES == w.hardLimit
  }

  predicate EmptyBatch(op: Op) {
    (op.PushPackedBatch? || op.PushFieldsBatch?) && Requested(op) == []
  }

  /** After every successful call on any transport, whatever was buffered before and whatever the
      limit, at most `hardLimit` bytes are buffered (an empty batch does nothing at all). With a
      limit, the buffer is full to it exactly after a batch that fits to the brim inside the window,
      or if it already was and the call pushed nothing. */
  lemma PendingBound(e: Env, w: Writer, op: Op)
    requires w.Valid()
    ensures var (w', r) := Apply(e, w, op);
            && (EmptyBatch(op) ==> w' == w && r.Ok?)
            && (r.Ok? && !EmptyBatch(op) ==> |w'.pending| <= w.hardLimit)
            && (r.Ok? && w.hardLimit > 0 ==>
                  (|w'.pending| == w.hardLimit <==>
                    || (FillsExactly(w, op) && !e.expired(w.ticks))
                    || (EmptyBatch(op) && |w.pending| == w.hardLimit)))
  {
    hide InputMessage, Pack;
    match op
    case PushMessage(m) => PushMessageBound(e, w, m);
    case PushRaw(id, size, data) => PushMessageBound(e, w, UhidInput(id, size, data));
    case PushPackedBatch(id, ps) => PushBatchBound(e, w, InputMessages(id, ps));
    case PushFieldsBatch(id, fs) => PushBatchBound(e, w, InputMessages(id, PackAll(fs)));
    case _ =>
  }

  lemma PushMessageBound(e: Env, w: Writer, m: Msg)
    requires w.Valid()
    ensures var (w', r) := Push(e, w, m);
            r.Ok? ==> w'.pending == [] || |w'.pending| < w.hardLimit
  {
    hide Serialize;
  }

  lemma PushBatchBound(e: Env, w: Writer, parts: seq<seq<byte>>)
    requires w.Valid()
    requires forall i :: 0 <= i < |parts| ==> |parts[i]| == GAMEPAD_MESSAGE_BYTES
    ensures var (w', r) := PushBatch(e, w, parts);
            var brim := !w.direct && |parts| > 1 && |w.pending| + |parts| * GAMEPAD_MESSAGE_BYTES == w.hardLimit;
            && (r.Ok? && parts != [] ==> |w'.pending| <= w.hardLimit)
            && (r.Ok? && w.hardLimit > 0 ==>
                  (|w'.pending| == w.hardLimit <==>
                    (brim && !e.expired(w.ticks)) || (parts == [] && |w.pending| == w.hardLimit)))
  {
    var w1 := w.(pushed := w.pushed + |parts|);
    if |parts| > 1 {
      ConcatLength(parts, GAMEPAD_MESSAGE_BYTES);
      DirectChunksGrow(e, w1, parts);
      if !w.direct && !FitsWhole(w, |parts|) {
        OverLimitBound(e, w1, parts);
      }
    }
  }

  lemma OverLimitBound(e: Env, w: Writer, parts: seq<seq<byte>>)
    requires parts != []
    ensures var (w', r) := BufferEach(e, w, parts, Pending);
            r.Ok? ==> w'.pending == [] || |w'.pending| < w.hardLimit
  {
    var w1 := w.(pending := w.pending + parts[0]);
    if |w1.pending| < w.hardLimit {
      BufferEachBound(e, w1, parts[1..], Pending);
    } else if FlushNow(e, w1).1.Ok? {
      BufferEachBound(e, FlushNow(e, w1).0, parts[1..], Full);
    }
  }

  /** Over every run on a reliable transport, for any limit and mode, at most `hardLimit` bytes are
      ever buffered after a call. */
  lemma {:induction false} PendingBoundOverRuns(e: Env, w: Writer, ops: seq<Op>)
    requires Reliable(e) && w.Valid() && |w.pending| <= w.hardLimit
    ensures |Run(e, w, ops).pending| <= w.hardLimit
    decreases |ops|
  {
    hide Apply, EmptyBatch, FillsExactly;
    if ops != [] {
      PendingBound(e, w, ops[0]);
      RefusedKeepsBound(e, w, ops[0]);
      ReliableApply(e, w, ops[0]);
      PendingBoundOverRuns(e, Apply(e, w, ops[0]).0, ops[1..]);
    }
  }

  /** A call refused for its message leaves the buffer alone, or empties it first. */
  lemma RefusedKeepsBound(e: Env, w: Writer, op: Op)
    requires Reliable(e) && w.Valid()
    ensures Apply(e, w, op).1.Err? ==>
              Apply(e, w, op).0.pending == w.pending || Apply(e, w, op).0.pending == []
  {
    hide Serialize, PushBatch, PushEncoded;
    ReliableOk(e, w, op);
  }
}
