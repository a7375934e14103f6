/** What a failing transport leaves on the stream, message by message: every message that was
    written or buffered, and every buffer that a torn flush sent a second time. */
module Tapes {
  import opened Bytes
  import opened Messages
  import C = Coalesce
  import L = CoalesceLaws

  /** What is buffered: first, perhaps, the bytes that were buffered when the tape began. */
  datatype Held = Held(backlog: bool, msgs: seq<Msg>)

  /** A message on the stream, and whether its call returned Ok; or a buffer sent again. */
  datatype Entry = Sent(msg: Msg, ok: bool) | Repeated(again: Held)

  datatype Tape = Tape(entries: seq<Entry>, held: Held)

  const NOTHING := Held(false, [])

  function Blank(): Tape {
    Tape([], Held(true, []))
  }

  /** `sent`: the message was written or buffered; `torn`: a flush of the call tore; `drained`:
      nothing is buffered after the call. */
  function Extend(tape: Tape, m: Msg, ok: bool, sent: bool, torn: bool, drained: bool): Tape {
    var held := if sent then tape.held.(msgs := tape.held.msgs + [m]) else tape.held;
    Tape(tape.entries + (if sent then [Sent(m, ok)] else []) + (if torn then [Repeated(held)] else []),
         if drained then NOTHING else held)
  }

  /** The tape after a push. */
  function Record(e: C.Env, w: C.Writer, m: Msg, tape: Tape): Tape {
    var (w', r) := C.Push(e, w, m);
    Extend(tape, m, r.Ok?, L.AcceptedMessage(e, w, m) == 1, L.AnyTears(e, L.MessageFlushes(e, w, m)), w'.pending == [])
  }

  /** The tape after an explicit flush. */
  function RecordFlush(e: C.Env, w: C.Writer, tape: Tape): Tape {
    Tape(tape.entries + (if L.Tears(e, w) then [Repeated(tape.held)] else []),
         if C.FlushNow(e, w).0.pending == [] then NOTHING else tape.held)
  }

  // Its messages and bytes ----------------------------------------------------------------

  function HeardIn(x: Entry): seq<Msg> {
    match x
    case Sent(m, _) => [m]
    case Repeated(again) => again.msgs
  }

  /** The messages on the stream, in order. */
  function Heard(entries: seq<Entry>): seq<Msg> {
    if entries == [] then [] else Heard(entries[..|entries| - 1]) + HeardIn(entries[|entries| - 1])
  }

  function HeldBytes(backlog: seq<byte>, held: Held): seq<byte> {
    (if held.backlog then backlog else []) + SerializeAll(held.msgs)
  }

  function EntryBytes(backlog: seq<byte>, x: Entry): seq<byte> {
    match x
    case Sent(m, _) => Encoding(m)
    case Repeated(again) => HeldBytes(backlog, again)
  }

  function TapeBytes(backlog: seq<byte>, entries: seq<Entry>): seq<byte> {
    if entries == [] then []
    else TapeBytes(backlog, entries[..|entries| - 1]) + EntryBytes(backlog, entries[|entries| - 1])
  }

  /** The writer came from `start` with exactly the tape's bytes added to its stream, and exactly its
      held messages buffered. */
  ghost predicate Plays(start: C.Writer, w: C.Writer, tape: Tape) {
    && w.Valid() && w.direct == start.direct && w.hardLimit == start.hardLimit
    && w.Stream() == start.Stream() + TapeBytes(start.pending, tape.entries)
    && w.pending == HeldBytes(start.pending, tape.held)
  }

  lemma BlankPlays(w: C.Writer)
    requires w.Valid()
    ensures Plays(w, w, Blank())
  {
    assert SerializeAll([]) == [];
    assert w.pending + [] == w.pending && w.Stream() + [] == w.Stream();
  }

  lemma HeardSnoc(entries: seq<Entry>, x: Entry)
    ensures Heard(entries + [x]) == Heard(entries) + HeardIn(x)
  {
    assert (entries + [x])[..|entries|] == entries;
  }

  lemma TapeBytesSnoc(backlog: seq<byte>, entries: seq<Entry>, x: Entry)
    ensures TapeBytes(backlog, entries + [x]) == TapeBytes(backlog, entries) + EntryBytes(backlog, x)
  {
    assert (entries + [x])[..|entries|] == entries;
  }

  /** The messages a push adds: the message itself, then the buffer if its flush tore. */
  lemma HeardExtend(tape: Tape, m: Msg, ok: bool, sent: bool, torn: bool, drained: bool)
    ensures Heard(Extend(tape, m, ok, sent, torn, drained).entries) == Heard(tape.entries)
         + (if sent then [m] else []) + (if torn then tape.held.msgs + (if sent then [m] else []) else [])
  {
    hide Heard;
    var held := if sent then tape.held.(msgs := tape.held.msgs + [m]) else tape.held;
    var first := tape.entries + (if sent then [Sent(m, ok)] else []);
    HeardSnoc(tape.entries, Sent(m, ok));
    HeardSnoc(first, Repeated(held));
    assert tape.entries + [] == tape.entries && first + [] == first;
  }

  lemma HeldBytesSnoc(backlog: seq<byte>, held: Held, m: Msg)
    ensures HeldBytes(backlog, held.(msgs := held.msgs + [m])) == HeldBytes(backlog, held) + Encoding(m)
  {
    hide SerializeAll, Encoding;
    SerializeAllAppend(held.msgs, [m]);
    SerializeAllOne(m);
  }

  lemma NothingHeld(backlog: seq<byte>)
    ensures HeldBytes(backlog, NOTHING) == []
  {
  }

  lemma ExtendBytes(
    backlog: seq<byte>, tape: Tape, m: Msg, ok: bool, sent: bool, torn: bool, drained: bool, now: seq<byte>)
    requires now == if sent then Encoding(m) else []
    ensures var tape' := Extend(tape, m, ok, sent, torn, drained);
            var held := HeldBytes(backlog, tape.held) + now;
            && TapeBytes(backlog, tape'.entries)
            == TapeBytes(backlog, tape.entries) + now + (if torn then held else [])
            && HeldBytes(backlog, tape'.held) == if drained then [] else held
  {
    hide SerializeAll, TapeBytes, HeldBytes, Encoding;
    var held := if sent then tape.held.(msgs := tape.held.msgs + [m]) else tape.held;
    var first := tape.entries + (if sent then [Sent(m, ok)] else []);
    HeldBytesSnoc(backlog, tape.held, m);
    NothingHeld(backlog);
    assert HeldBytes(backlog, held) == HeldBytes(backlog, tape.held) + now;
    TapeBytesSnoc(backlog, tape.entries, Sent(m, ok));
    TapeBytesSnoc(backlog, first, Repeated(held));
    assert tape.entries + [] == tape.entries && first + [] == first;
  }

  /** A push leaves nothing buffered, or what was, followed by its message if that was accepted. */
  lemma PushPending(e: C.Env, w: C.Writer, m: Msg)
    requires w.Valid()
    ensures var w' := C.Push(e, w, m).0;
            w'.pending == [] || w'.pending == w.pending + (if L.AcceptedMessage(e, w, m) == 1 then Encoding(m) else [])
    ensures m.Critical() && L.AcceptedMessage(e, w, m) == 1 ==>
              C.Push(e, w, m).0.pending == [] && !L.AnyTears(e, L.MessageFlushes(e, w, m))
  {
    hide Serialize, Encoding;
    L.EncodingOk(m);
    L.CountingDoesNotMatter(e, w, 1);
  }

  /** Growing by `now`, and then perhaps by a second copy of the buffer, is growing by both. */
  lemma GrewTwice(start: C.Writer, a: C.Writer, b: C.Writer, bytes: seq<byte>, now: seq<byte>, again: seq<byte>)
    requires a.Stream() == start.Stream() + bytes && b.Stream() == a.Stream() + now + again
    ensures b.Stream() == start.Stream() + (bytes + now + again)
  {
  }

  /** On every transport the tape of a push plays. */
  lemma RecordPlays(e: C.Env, start: C.Writer, w: C.Writer, m: Msg, tape: Tape)
    requires Plays(start, w, tape)
    ensures Plays(start, C.Push(e, w, m).0, Record(e, w, m, tape))
  {
    hide TapeBytes, HeldBytes, Encoding, C.Push, L.AcceptedMessage, L.MessageFlushes, L.AnyTears, Extend;
    var (w', r) := C.Push(e, w, m);
    var sent := L.AcceptedMessage(e, w, m) == 1;
    var torn := L.AnyTears(e, L.MessageFlushes(e, w, m));
    var now := if sent then Encoding(m) else [];
    L.PushGrows(e, w, m);
    PushPending(e, w, m);
    ExtendBytes(start.pending, tape, m, r.Ok?, sent, torn, w'.pending == [], now);
    GrewTwice(start, w, w', TapeBytes(start.pending, tape.entries), now, if torn then w'.pending else []);
  }

  lemma RecordFlushPlays(e: C.Env, start: C.Writer, w: C.Writer, tape: Tape)
    requires Plays(start, w, tape)
    ensures Plays(start, C.FlushNow(e, w).0, RecordFlush(e, w, tape))
  {
    hide TapeBytes, HeldBytes, C.FlushNow;
    var w' := C.FlushNow(e, w).0;
    var bytes := TapeBytes(start.pending, tape.entries);
    L.FlushNowGrows(e, w);
    TapeBytesSnoc(start.pending, tape.entries, Repeated(tape.held));
    NothingHeld(start.pending);
    assert tape.entries + [] == tape.entries && bytes + [] == bytes;
    GrewTwice(start, w, w', bytes, [], if L.Tears(e, w) then w'.pending else []);
  }
}
