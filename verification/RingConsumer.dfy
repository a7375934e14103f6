/** The gamepad fast path's consumer thread (src/client.rs) on top of the ring: pop, set the frame,
    look at the close flag only when the ring was found empty, close the session on every exit. */
module RingConsumer {
  import opened Bytes
  import opened Frames
  import opened Messages
  import opened Sessions
  import opened SessionLaws
  import opened Lifecycle
  import opened Rings
  import D = Dispatchers
  import C = Coalesce
  import L = CoalesceLaws

  /** Why the loop ended; `seen` counts the frames published when the last, empty, pop loaded the
      head. */
  datatype Exit = ByClose(seen: nat) | ByError

  datatype Phase =
    | Polling
    | Got(frame: PadFrame)
    | FoundEmpty(seen: nat)
    | Leaving(exit: Exit)
    | Done(exit: Exit, joined: D.Joined)

  datatype System = System(
    ring: Ring<PadFrame>, closeFlag: bool, errorFlag: bool, session: Session, phase: Phase)

  /** `Thread`: a ring step of either thread; `SetClose`: a client closes; the rest is the loop. */
  datatype Move = Thread(step: Step<PadFrame>) | SetClose | Deliver | CheckClose | CloseSession

  predicate IsPop(st: Step<PadFrame>) {
    st.PopLoadTail? || st.PopLoadHead? || st.PopEmpty? || st.ReadSlot? || st.PublishTail?
  }

  predicate Allowed(m: Modulus, s: System, mv: Move) {
    match mv
    case Thread(st) => Rings.Enabled(m, s.ring, st) && (IsPop(st) ==> s.phase == Polling)
    case SetClose => true
    case Deliver => s.phase.Got?
    case CheckClose => s.phase.FoundEmpty?
    case CloseSession => s.phase.Leaving?
  }

  function Next(m: Modulus, e: C.Env, s: System, mv: Move): System
    requires Allowed(m, s, mv)
  {
    match mv
    case Thread(st) =>
      var phase :=
        match st
        case PublishTail => Got(s.ring.popping.frame)
        case PopEmpty => FoundEmpty(s.ring.popping.seen)
        case _ => s.phase;
      s.(ring := Rings.After(m, s.ring, st), phase := phase)
    case SetClose => s.(closeFlag := true)
    case Deliver =>
      var (session, r) := Perform(e, s.session, PadDeduped(s.phase.frame));
      s.(session := session, errorFlag := s.errorFlag || r.Err?,
         phase := if r.Ok? then Polling else Leaving(ByError))
    case CheckClose => s.(phase := if s.closeFlag then Leaving(ByClose(s.phase.seen)) else Polling)
    case CloseSession =>
      var session := CloseAll(e, s.session).0;
      s.(session := session, phase := Done(s.phase.exit, D.Join(e, session)))
  }

  predicate Runs(m: Modulus, e: C.Env, s: System, moves: seq<Move>)
    decreases |moves|
  {
    moves == [] || (Allowed(m, s, moves[0]) && Runs(m, e, Next(m, e, s, moves[0]), moves[1..]))
  }

  function Final(m: Modulus, e: C.Env, s: System, moves: seq<Move>): System
    requires Runs(m, e, s, moves)
    decreases |moves|
  {
    if moves == [] then s else Final(m, e, Next(m, e, s, moves[0]), moves[1..])
  }

  function Start(s0: Session): System {
    System(Empty<PadFrame>(), false, false, s0, Polling)
  }

  // The invariant ------------------------------------------------------------------------

  /** The session after the frames popped so far, and whether they were all taken. */
  function Played(e: C.Env, s0: Session, frames: seq<PadFrame>): (Session, Result<()>) {
    RunItems(e, s0, DedupedItems(frames))
  }

  ghost predicate Inv(m: Modulus, e: C.Env, s0: Session, s: System) {
    && Rings.Inv(m, s.ring)
    && (match s.phase
        case Polling => (s.session, Ok(())) == Played(e, s0, s.ring.popped)
        case Got(f) =>
          && s.ring.popped != [] && f == s.ring.popped[|s.ring.popped| - 1]
          && (s.session, Ok(())) == Played(e, s0, s.ring.popped[..|s.ring.popped| - 1])
        case FoundEmpty(seen) =>
          (s.session, Ok(())) == Played(e, s0, s.ring.popped) && seen == |s.ring.popped|
        case Leaving(exit) => Left(e, s0, s.ring, s.session, exit)
        case Done(exit, joined) =>
          var (last, _) := Played(e, s0, s.ring.popped);
          && Left(e, s0, s.ring, last, exit)
          && s.session == CloseAll(e, last).0 && joined == D.Join(e, s.session))
    && (!s.phase.Polling? ==> s.ring.popping.PopIdle?)
  }

  ghost predicate Left(e: C.Env, s0: Session, ring: Ring<PadFrame>, last: Session, exit: Exit) {
    var (session, r) := Played(e, s0, ring.popped);
    && session == last
    && (exit.ByClose? ==> r == Ok(()) && exit.seen == |ring.popped|)
    && (exit.ByError? ==> r.Err? && ring.popped != [])
  }

  lemma {:induction false} RunItemsSnoc(e: C.Env, s: Session, items: seq<Item>, it: Item)
    ensures var (s1, r1) := RunItems(e, s, items);
            RunItems(e, s, items + [it]) == if r1.Err? then (s1, r1) else Perform(e, s1, it)
    decreases |items|
  {
    hide Perform;
    var all := items + [it];
    if items == [] {
      assert all[1..] == [];
      var r := Perform(e, s, it).1;
      assert r.Ok? ==> r.value == ();
    } else {
      assert all[1..] == items[1..] + [it];
      RunItemsSnoc(e, Perform(e, s, items[0]).0, items[1..], it);
    }
  }

  lemma PlayedOneMore(e: C.Env, s0: Session, frames: seq<PadFrame>)
    requires frames != []
    ensures var last := |frames| - 1;
            var (s1, r1) := Played(e, s0, frames[..last]);
            Played(e, s0, frames) == if r1.Err? then (s1, r1) else Perform(e, s1, PadDeduped(frames[last]))
  {
    hide Perform, RunItems;
    var last := |frames| - 1;
    assert DedupedItems(frames) == DedupedItems(frames[..last]) + [PadDeduped(frames[last])];
    RunItemsSnoc(e, s0, DedupedItems(frames[..last]), PadDeduped(frames[last]));
  }

  lemma ThreadKeepsInv(m: Modulus, e: C.Env, s0: Session, s: System, st: Step<PadFrame>)
    requires Inv(m, e, s0, s) && Allowed(m, s, Thread(st))
    ensures Inv(m, e, s0, Next(m, e, s, Thread(st)))
  {
    hide Played, CloseAll, Rings.Inv, D.Join;
    Rings.StepKeepsInv(m, s.ring, st);
    if st.PopEmpty? {
      EmptyCheck(m, s.ring);
    }
    if st.PublishTail? {
      var r := s.ring;
      assert (r.popped + [r.popping.frame])[..|r.popped|] == r.popped;
    }
  }

  lemma MoveKeepsInv(m: Modulus, e: C.Env, s0: Session, s: System, mv: Move)
    requires Inv(m, e, s0, s) && Allowed(m, s, mv)
    ensures Inv(m, e, s0, Next(m, e, s, mv))
  {
    match mv
    case Thread(st) => ThreadKeepsInv(m, e, s0, s, st);
    case Deliver => DeliverKeepsInv(m, e, s0, s);
    case _ =>
      hide Perform, Rings.Inv, Played, CloseAll, D.Join;
  }

  lemma DeliverKeepsInv(m: Modulus, e: C.Env, s0: Session, s: System)
    requires Inv(m, e, s0, s) && Allowed(m, s, Deliver)
    ensures Inv(m, e, s0, Next(m, e, s, Deliver))
  {
    hide Perform, Rings.Inv, Played;
    PlayedOneMore(e, s0, s.ring.popped);
    var r := Perform(e, s.session, PadDeduped(s.phase.frame)).1;
    assert r.Ok? ==> r.value == ();
  }

  lemma {:induction false} RunKeepsInv(m: Modulus, e: C.Env, s0: Session, s: System, moves: seq<Move>)
    requires Inv(m, e, s0, s) && Runs(m, e, s, moves)
    ensures Inv(m, e, s0, Final(m, e, s, moves))
    decreases |moves|
  {
    hide Inv, Allowed, Next;
    if moves != [] {
      MoveKeepsInv(m, e, s0, s, moves[0]);
      RunKeepsInv(m, e, s0, Next(m, e, s, moves[0]), moves[1..]);
    }
  }

  lemma StartInv(m: Modulus, e: C.Env, s0: Session)
    ensures Inv(m, e, s0, Start(s0))
  {
    assert DedupedItems([]) == [];
  }

  // Shutdown -----------------------------------------------------------------------------

  /** Every exit, on every transport and in every interleaving: what was delivered is a prefix of
      what was accepted. A close-flag exit delivered exactly the frames published before the head
      load of the last, empty, pop; at most eight later ones are lost. The transport comes back
      only from a closed session. */
  lemma RingShutdown(m: Modulus, e: C.Env, s0: Session, moves: seq<Move>)
    requires Runs(m, e, Start(s0), moves) && Final(m, e, Start(s0), moves).phase.Done?
    ensures var s := Final(m, e, Start(s0), moves);
            var (last, r) := Played(e, s0, s.ring.popped);
            && s.ring.popped <= s.ring.accepted
            && |s.ring.accepted| - |s.ring.popped| <= RING_CAPACITY
            && s.session == CloseAll(e, last).0
            && (s.phase.joined.Recovered? ==> s.session.dev.closed)
            && (match s.phase.exit
                case ByClose(seen) =>
                  r == Ok(()) && seen <= |s.ring.accepted| && s.ring.popped == s.ring.accepted[..seen]
                case ByError => r.Err?)
  {
    hide Runs, Final, Played, CloseAll;
    StartInv(m, e, s0);
    RunKeepsInv(m, e, s0, Start(s0), moves);
  }

  /** On a reliable transport there is no error exit, and the wire holds the create, the reports of
      the frames published before that head load, and the destroys: nothing else. */
  lemma RingDelivers(m: Modulus, e: C.Env, q: OpenRequest, moves: seq<Move>)
    requires C.Reliable(e) && q.pad
    requires Runs(m, e, Start(Open(e, q).0), moves) && Final(m, e, Start(Open(e, q).0), moves).phase.Done?
    ensures var s := Final(m, e, Start(Open(e, q).0), moves);
            && s.phase.exit.ByClose? && s.phase.exit.seen <= |s.ring.accepted|
            && s.phase.joined == D.Recovered(SerializeAll(
                 Creates(q) + ReportMessages(Reports(FRESH_SLOT, s.ring.accepted[..s.phase.exit.seen]).1)
                 + DestroysOf(q)))
  {
    hide Runs, Final, CloseAll, Open, SerializeAll, RunItems, Creates, DestroysOf, Reports, ReportMessages, Ideal;
    var s0 := Open(e, q).0;
    RingShutdown(m, e, s0, moves);
    var s := Final(m, e, Start(s0), moves);
    var frames := s.ring.popped;
    var last := Played(e, s0, frames).0;
    OpenDoes(e, q);
    RunItemsDoes(e, s0, DedupedItems(frames));
    IdealDeduped(Opened(q), frames);
    UntilErrorIsEach(Opened(q), DedupedItems(frames));
    CloseDoes(e, last);
    var reports := ReportMessages(Reports(FRESH_SLOT, frames).1);
    DestroysOfOpened(q, last.dev);
    SerializeAllAppend(Creates(q), reports);
    SerializeAllAppend(Creates(q) + reports, DestroysOf(q));
    L.ReliableIntoInner(e, s.session.writer);
    EndOfRun(m, e, s0, moves);
  }

  lemma EndOfRun(m: Modulus, e: C.Env, s0: Session, moves: seq<Move>)
    requires Runs(m, e, Start(s0), moves) && Final(m, e, Start(s0), moves).phase.Done?
    ensures var s := Final(m, e, Start(s0), moves);
            s.phase.joined == D.Join(e, s.session)
            && (s.phase.exit.ByClose? ==> s.phase.exit.seen == |s.ring.popped|)
  {
    hide Runs, Final, Played, CloseAll;
    StartInv(m, e, s0);
    RunKeepsInv(m, e, s0, Start(s0), moves);
  }

  lemma DestroysOfOpened(q: OpenRequest, d: Devices)
    requires q.pad && d.kbd == Opened(q).kbd && d.mouse == q.mouse && !d.closed
    requires d.pad.Some? && d.pad.value.bound
    ensures Destroys(d) == DestroysOf(q) && Closed(d).closed
  {
  }

  // Why the loop ends ------------------------------------------------------------------------

  predicate LeftByClose(s: System) {
    (s.phase.Leaving? || s.phase.Done?) && s.phase.exit.ByClose?
  }

  predicate LeftByError(s: System) {
    (s.phase.Leaving? || s.phase.Done?) && s.phase.exit.ByError?
  }

  /** The flag is set exactly if a client closed, and the error flag exactly if the loop left on an
      error. */
  lemma {:induction false} FlagsTell(m: Modulus, e: C.Env, s: System, moves: seq<Move>)
    requires Runs(m, e, s, moves) && (s.errorFlag <==> LeftByError(s))
    ensures var end := Final(m, e, s, moves);
            (end.closeFlag <==> s.closeFlag || SetClose in moves) && (end.errorFlag <==> LeftByError(end))
    decreases |moves|
  {
    hide Allowed, Next;
    if moves != [] {
      MoveFlags(m, e, s, moves[0]);
      FlagsTell(m, e, Next(m, e, s, moves[0]), moves[1..]);
      assert SetClose in moves <==> moves[0] == SetClose || SetClose in moves[1..];
    }
  }

  lemma MoveFlags(m: Modulus, e: C.Env, s: System, mv: Move)
    requires Allowed(m, s, mv) && (s.errorFlag <==> LeftByError(s))
    ensures var s' := Next(m, e, s, mv);
            && (s'.closeFlag <==> s.closeFlag || mv == SetClose) && (s'.errorFlag <==> LeftByError(s'))
            && (LeftByClose(s') ==> LeftByClose(s) || (mv == CheckClose && s.closeFlag))
  {
    hide Perform, CloseAll, D.Join, Rings.After;
    match mv
    case Deliver =>
      var r := Perform(e, s.session, PadDeduped(s.phase.frame)).1;
      assert r.Ok? || r.Err?;
    case _ =>
  }

  /** A loop that left because of a close did so at a look at the flag, after a client had set it. */
  lemma {:induction false} CloseExitNeedsClose(m: Modulus, e: C.Env, s: System, moves: seq<Move>) returns (i: nat)
    requires Runs(m, e, s, moves) && (s.errorFlag <==> LeftByError(s))
    requires !LeftByClose(s) && LeftByClose(Final(m, e, s, moves))
    ensures i < |moves| && moves[i] == CheckClose && (s.closeFlag || SetClose in moves[..i])
    decreases |moves|
  {
    hide Allowed, Next;
    MoveFlags(m, e, s, moves[0]);
    var s1 := Next(m, e, s, moves[0]);
    if LeftByClose(s1) {
      i := 0;
    } else {
      var k := CloseExitNeedsClose(m, e, s1, moves[1..]);
      i := k + 1;
      assert moves[..i] == [moves[0]] + moves[1..][..k];
    }
  }

  /** Over every run of a freshly started consumer that is done because of a close: a client closed
      before the look at the flag that ended it. */
  lemma ClosedBeforeTheExit(m: Modulus, e: C.Env, s0: Session, moves: seq<Move>) returns (i: nat, j: nat)
    requires Runs(m, e, Start(s0), moves)
    requires var s := Final(m, e, Start(s0), moves); s.phase.Done? && s.phase.exit.ByClose?
    ensures i < j < |moves| && moves[i] == SetClose && moves[j] == CheckClose
  {
    hide Runs, Final;
    j := CloseExitNeedsClose(m, e, Start(s0), moves);
    i :| 0 <= i < j && moves[..j][i] == SetClose;
  }

  /** As long as nobody closes, a consumer on a reliable transport never leaves its loop. */
  lemma NobodyClosesNobodyLeaves(m: Modulus, e: C.Env, q: OpenRequest, moves: seq<Move>)
    requires C.Reliable(e) && q.pad && Runs(m, e, Start(Open(e, q).0), moves) && SetClose !in moves
    ensures var s := Final(m, e, Start(Open(e, q).0), moves);
            !s.phase.Leaving? && !s.phase.Done? && !s.closeFlag && !s.errorFlag
  {
    hide Runs, Final, Open, Played, CloseAll;
    var s0 := Open(e, q).0;
    var s := Final(m, e, Start(s0), moves);
    FlagsTell(m, e, Start(s0), moves);
    if LeftByClose(s) {
      var i := CloseExitNeedsClose(m, e, Start(s0), moves);
      assert false;
    }
    StartInv(m, e, s0);
    RunKeepsInv(m, e, s0, Start(s0), moves);
    PlayedIsOk(e, q, s.ring.popped);
  }

  lemma PlayedIsOk(e: C.Env, q: OpenRequest, frames: seq<PadFrame>)
    requires C.Reliable(e) && q.pad
    ensures Played(e, Open(e, q).0, frames).1.Ok?
  {
    hide Open, RunItems, Ideal, Reports, ReportMessages, SerializeAll, Creates;
    var s0 := Open(e, q).0;
    OpenDoes(e, q);
    RunItemsDoes(e, s0, DedupedItems(frames));
    IdealDeduped(Opened(q), frames);
    UntilErrorIsEach(Opened(q), DedupedItems(frames));
  }

  /** A look at the flag leaves the loop exactly if a client has closed by then, and else polls on. */
  lemma LookLeavesIff(m: Modulus, e: C.Env, s0: Session, moves: seq<Move>)
    requires Runs(m, e, Start(s0), moves + [CheckClose])
    ensures Runs(m, e, Start(s0), moves)
    ensures Final(m, e, Start(s0), moves + [CheckClose]).phase ==
            if SetClose in moves then Leaving(ByClose(|Final(m, e, Start(s0), moves).ring.popped|)) else Polling
  {
    hide Runs, Final, Played, CloseAll;
    OneMoreMove(m, e, Start(s0), moves, CheckClose);
    FlagsTell(m, e, Start(s0), moves);
    StartInv(m, e, s0);
    RunKeepsInv(m, e, s0, Start(s0), moves);
  }

  lemma {:induction false} OneMoreMove(m: Modulus, e: C.Env, s: System, moves: seq<Move>, mv: Move)
    requires Runs(m, e, s, moves + [mv])
    ensures Runs(m, e, s, moves) && Allowed(m, Final(m, e, s, moves), mv)
    ensures Final(m, e, s, moves + [mv]) == Next(m, e, Final(m, e, s, moves), mv)
    decreases |moves|
  {
    hide Allowed, Next;
    var all := moves + [mv];
    if moves == [] {
      assert all[1..] == [];
    } else {
      assert all[0] == moves[0] && all[1..] == moves[1..] + [mv];
      OneMoreMove(m, e, Next(m, e, s, moves[0]), moves[1..], mv);
    }
  }

  predicate IsLoopMove(mv: Move) {
    mv.Deliver? || mv.CheckClose? || mv.CloseSession? || (mv.Thread? && IsPop(mv.step))
  }

  /** The loop is never stuck: in every reachable state it has a next move, unless it is done. */
  lemma LoopIsNeverStuck(m: Modulus, e: C.Env, s0: Session, moves: seq<Move>) returns (mv: Move)
    requires Runs(m, e, Start(s0), moves)
    ensures var s := Final(m, e, Start(s0), moves);
            s.phase.Done? || (IsLoopMove(mv) && Allowed(m, s, mv))
  {
    hide Runs, Final, Played, CloseAll, Rings.Inv, Rings.Enabled;
    StartInv(m, e, s0);
    RunKeepsInv(m, e, s0, Start(s0), moves);
    var s := Final(m, e, Start(s0), moves);
    Rings.NeitherThreadIsStuck(m, s.ring);
    mv := match s.phase
          case Got(_) => Deliver
          case FoundEmpty(_) => CheckClose
          case Polling =>
            Thread(match s.ring.popping
                   case PopIdle => PopLoadTail
                   case PopTail(_) => PopLoadHead
                   case PopHead(_, _, _) => if Rings.Enabled(m, s.ring, PopEmpty) then PopEmpty else ReadSlot
                   case PopRead(_, _) => PublishTail)
          case _ => CloseSession;
  }

  // The lost frame -----------------------------------------------------------------------

  /** The consumer finds the ring empty, the producer pushes a frame and then closes, the consumer
      reads the close flag: the push was accepted before the close and is never delivered. */
  function LosingRun(f: PadFrame): seq<Move> {
    [Thread(PopLoadTail), Thread(PopLoadHead),
     Thread(LoadHead(f)), Thread(LoadTail(0)), Thread(WriteSlot), Thread(PublishHead),
     SetClose, Thread(PopEmpty), CheckClose, CloseSession]
  }

  lemma AcceptedBeforeCloseYetLost(m: Modulus, e: C.Env, s0: Session, f: PadFrame)
    ensures Runs(m, e, Start(s0), LosingRun(f))
    ensures var s := Final(m, e, Start(s0), LosingRun(f));
            s.phase.Done? && s.phase.exit == ByClose(0) && s.ring.accepted == [f] && s.ring.popped == []
  {
    hide CloseAll, D.Join;
    var moves := LosingRun(f);
    var s0' := Start(s0);
    assert Rings.WrappingSub(m, 0, 0) == 0;
    var s1 := Next(m, e, s0', moves[0]);
    var s2 := Next(m, e, s1, moves[1]);
    var s3 := Next(m, e, s2, moves[2]);
    var s4 := Next(m, e, s3, moves[3]);
    var s5 := Next(m, e, s4, moves[4]);
    var s6 := Next(m, e, s5, moves[5]);
    var s7 := Next(m, e, s6, moves[6]);
    var s8 := Next(m, e, s7, moves[7]);
    var s9 := Next(m, e, s8, moves[8]);
    var s10 := Next(m, e, s9, moves[9]);
    RunFrom(m, e, moves, 10, s10, s10);
    RunFrom(m, e, moves, 9, s9, s10);
    RunFrom(m, e, moves, 8, s8, s10);
    RunFrom(m, e, moves, 7, s7, s10);
    RunFrom(m, e, moves, 6, s6, s10);
    RunFrom(m, e, moves, 5, s5, s10);
    RunFrom(m, e, moves, 4, s4, s10);
    RunFrom(m, e, moves, 3, s3, s10);
    RunFrom(m, e, moves, 2, s2, s10);
    RunFrom(m, e, moves, 1, s1, s10);
    RunFrom(m, e, moves, 0, s0', s10);
    assert moves[0..] == moves;
  }

  lemma RunFrom(m: Modulus, e: C.Env, moves: seq<Move>, i: nat, s: System, end: System)
    requires i <= |moves|
    requires i == |moves| ==> s == end
    requires i < |moves| ==>
               && Allowed(m, s, moves[i]) && Runs(m, e, Next(m, e, s, moves[i]), moves[i + 1..])
               && Final(m, e, Next(m, e, s, moves[i]), moves[i + 1..]) == end
    ensures Runs(m, e, s, moves[i..]) && Final(m, e, s, moves[i..]) == end
  {
    hide Allowed, Next;
    if i < |moves| {
      assert moves[i..][1..] == moves[i + 1..];
    }
  }
}
