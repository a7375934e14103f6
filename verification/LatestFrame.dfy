/** The latest-frame cache (src/device.rs): a pump thread overwrites a versioned snapshot, any
    number of readers look at it or wait on it. Every lock section is one step. */
module LatestFrames {
  import opened Bytes
  import opened Device

  datatype Snapshot<F> = Snapshot(version: u64, summary: F)

  datatype Cache<F> = Cache(latest: Option<Snapshot<F>>, version: u64, terminalError: Option<ReadError>)

  datatype Observation<F> = Observation(boundary: u64, snapshot: Option<Snapshot<F>>)

  function Fresh<F>(): Cache<F> {
    Cache(None, 0, None)
  }

  function SaturatingNext(v: u64): u64 {
    if v == U64_MAX then v else v + 1
  }

  function StoreSummary<F>(c: Cache<F>, f: F): Cache<F> {
    var version := SaturatingNext(c.version);
    c.(version := version, latest := Some(Snapshot(version, f)))
  }

  function Observe<F>(c: Cache<F>): Observation<F> {
    Observation(c.version, c.latest)
  }

  function SnapshotAfter<F>(c: Cache<F>, after: u64): Option<Snapshot<F>> {
    if c.version > after then c.latest else None
  }

  /** One look of a waiter: a matching frame, else the terminal error, else (for a timed wait whose
      deadline passed) a timeout, else wait for the next update. */
  function Poll<F>(c: Cache<F>, matches: Snapshot<F> -> bool, expired: bool): Option<Read<Snapshot<F>>> {
    if c.latest.Some? && matches(c.latest.value) then Some(Got(c.latest.value))
    else if c.terminalError.Some? then Some(Failed(c.terminalError.value))
    else if expired then Some(Failed(TimedOut))
    else None
  }

  // Interleavings ------------------------------------------------------------------------

  /** One step of the pump or of some reader. */
  datatype Step<!F> =
    | PumpFrame(frame: F)
    | PumpOther
    | PumpError(error: ReadError)
    | ReadObservation
    | ReadAfter(after: u64)
    | WaitPoll(matches: Snapshot<F> -> bool, expired: bool)

  /** What a step hands its reader. */
  datatype Seen<F> =
    | Nothing
    | Observed(observation: Observation<F>)
    | After(snapshot: Option<Snapshot<F>>)
    | Polled(result: Option<Read<Snapshot<F>>>)

  predicate IsPump<F>(st: Step<F>) {
    st.PumpFrame? || st.PumpOther? || st.PumpError?
  }

  /** The pump stops at its first error; readers may always run. */
  predicate Enabled<F>(c: Cache<F>, st: Step<F>) {
    IsPump(st) ==> c.terminalError == None
  }

  function Apply<F>(c: Cache<F>, st: Step<F>): (Cache<F>, Seen<F>) {
    match st
    case PumpFrame(f) => (StoreSummary(c, f), Nothing)
    case PumpOther => (c, Nothing)
    case PumpError(x) => (c.(terminalError := Some(x)), Nothing)
    case ReadObservation => (c, Observed(Observe(c)))
    case ReadAfter(v) => (c, After(SnapshotAfter(c, v)))
    case WaitPoll(matches, expired) => (c, Polled(Poll(c, matches, expired)))
  }

  function Run<F>(c: Cache<F>, steps: seq<Step<F>>): Cache<F>
    decreases |steps|
  {
    if steps == [] then c else Run(Apply(c, steps[0]).0, steps[1..])
  }

  ghost predicate Runs<F>(c: Cache<F>, steps: seq<Step<F>>)
    decreases |steps|
  {
    steps == [] || (Enabled(c, steps[0]) && Runs(Apply(c, steps[0]).0, steps[1..]))
  }

  /** The frames the pump processed, in order. */
  function Frames<F>(steps: seq<Step<F>>): seq<F> {
    if steps == [] then []
    else (match steps[0] case PumpFrame(f) => [f] case _ => []) + Frames(steps[1..])
  }

  function Capped(n: nat): u64 {
    if n > U64_MAX then U64_MAX else n
  }

  /** The cache is the pump's history in short. */
  predicate Summarizes<F(==)>(c: Cache<F>, frames: seq<F>) {
    && c.version == Capped(|frames|)
    && c.latest == (if frames == [] then None else Some(Snapshot(c.version, frames[|frames| - 1])))
  }

  lemma StoreSummarizes<F>(c: Cache<F>, frames: seq<F>, f: F)
    requires Summarizes(c, frames)
    ensures Summarizes(StoreSummary(c, f), frames + [f])
  {
  }

  lemma {:induction false} RunSummarizes<F>(c: Cache<F>, frames: seq<F>, steps: seq<Step<F>>)
    requires Summarizes(c, frames)
    ensures Summarizes(Run(c, steps), frames + Frames(steps))
    decreases |steps|
  {
    hide Summarizes, StoreSummary;
    if steps == [] {
      assert frames + [] == frames;
    } else {
      var c1 := Apply(c, steps[0]).0;
      if steps[0].PumpFrame? {
        var f := steps[0].frame;
        StoreSummarizes(c, frames, f);
        RunSummarizes(c1, frames + [f], steps[1..]);
        assert frames + [f] + Frames(steps[1..]) == frames + ([f] + Frames(steps[1..]));
      } else {
        OnlyVersionsMatter(c, c1, frames);
        RunSummarizes(c1, frames, steps[1..]);
        assert [] + Frames(steps[1..]) == Frames(steps[1..]);
      }
    }
  }

  lemma OnlyVersionsMatter<F>(c: Cache<F>, d: Cache<F>, frames: seq<F>)
    requires Summarizes(c, frames) && d.version == c.version && d.latest == c.latest
    ensures Summarizes(d, frames)
  {
  }

  /** For every interleaving of the pump with any number of readers: the version is the number of
      frames processed (saturating), the latest snapshot is the last of them with that version,
      and there is a terminal error exactly if the pump has met one. */
  lemma CacheIsThePumpsHistory<F>(steps: seq<Step<F>>)
    requires Runs(Fresh<F>(), steps)
    ensures Summarizes(Run(Fresh(), steps), Frames(steps))
    ensures Run(Fresh(), steps).terminalError.Some? <==> exists i :: 0 <= i < |steps| && steps[i].PumpError?
  {
    RunSummarizes(Fresh(), [], steps);
    assert [] + Frames(steps) == Frames(steps);
    ErrorIffMet(Fresh(), steps);
  }

  lemma {:induction false} ErrorIffMet<F>(c: Cache<F>, steps: seq<Step<F>>)
    ensures Run(c, steps).terminalError.Some? <==>
            c.terminalError.Some? || exists i :: 0 <= i < |steps| && steps[i].PumpError?
    decreases |steps|
  {
    hide StoreSummary;
    if steps != [] {
      var c1 := Apply(c, steps[0]).0;
      assert c1.terminalError.Some? <==> c.terminalError.Some? || steps[0].PumpError? by { StoreKeepsError(c); }
      ErrorIffMet(c1, steps[1..]);
      if i :| 0 <= i < |steps| && steps[i].PumpError? {
        assert i > 0 ==> steps[1..][i - 1].PumpError?;
      }
      if i :| 0 <= i < |steps[1..]| && steps[1..][i].PumpError? {
        assert steps[i + 1].PumpError?;
      }
    }
  }

  lemma StoreKeepsError<F>(c: Cache<F>)
    ensures forall f: F :: StoreSummary(c, f).terminalError == c.terminalError
  {
  }

  /** What a reader sees at any moment of any interleaving is one consistent state: an observation's
      snapshot carries its boundary and is the last frame processed before it; a snapshot after a
      version is newer than it; a wait returns the last frame only if it matches, the terminal
      error only if there is one and no matching frame is cached, and a timeout only if neither. */
  lemma ReadersSeeConsistentStates<F>(steps: seq<Step<F>>, reader: Step<F>)
    requires Runs(Fresh<F>(), steps) && !IsPump(reader)
    ensures var frames := Frames(steps);
            var newest := if frames == [] then None else Some(Snapshot(Capped(|frames|), frames[|frames| - 1]));
            var c := Run(Fresh(), steps);
            match Apply(c, reader).1
            case Nothing => false
            case Observed(o) =>
              && o.boundary == Capped(|frames|) && o.snapshot == newest
              && (o.snapshot.Some? ==> o.snapshot.value.version == o.boundary)
              && (o.snapshot == None <==> o.boundary == 0)
            case After(s) =>
              s == if newest.Some? && newest.value.version > reader.after then newest else None
            case Polled(r) =>
              var hit := newest.Some? && reader.matches(newest.value);
              && (hit <==> r.Some? && r.value.Got?) && (hit ==> r.value.value == newest.value)
              && (r.Some? && r.value.Failed? ==>
                    && !hit
                    && (c.terminalError.Some? ==> r.value.error == c.terminalError.value)
                    && (c.terminalError == None ==> r.value.error == TimedOut && reader.expired))
              && (r == None <==> !hit && c.terminalError == None && !reader.expired)
  {
    hide Runs, Run, Frames;
    CacheIsThePumpsHistory(steps);
  }

  /** `wait_next(v)` returns only versions above `v`, and a caller that feeds each version back
      gets a later frame each time. */
  lemma WaitNextMovesOn<F>(before: seq<Step<F>>, between: seq<Step<F>>, v: u64, first: Snapshot<F>, second: Snapshot<F>)
    requires Runs(Fresh<F>(), before + between)
    requires Poll(Run(Fresh(), before), (s: Snapshot<F>) => s.version > v, false) == Some(Got(first))
    requires Poll(Run(Fresh(), before + between), (s: Snapshot<F>) => s.version > first.version, false)
          == Some(Got(second))
    ensures v < first.version < second.version
    ensures 0 < |Frames(before)| < |Frames(before + between)|
    ensures first.summary == Frames(before)[|Frames(before)| - 1]
    ensures second.summary == Frames(before + between)[|Frames(before + between)| - 1]
  {
    hide Run, Runs, Frames, Poll;
    WaitReturnsTheLast(before, (s: Snapshot<F>) => s.version > v, first);
    WaitReturnsTheLast(before + between, (s: Snapshot<F>) => s.version > first.version, second);
  }

  lemma WaitReturnsTheLast<F>(steps: seq<Step<F>>, matches: Snapshot<F> -> bool, s: Snapshot<F>)
    requires Poll(Run(Fresh(), steps), matches, false) == Some(Got(s))
    ensures var frames := Frames(steps);
            frames != [] && s == Snapshot(Capped(|frames|), frames[|frames| - 1]) && matches(s)
  {
    hide Run, Frames;
    RunSummarizes(Fresh(), [], steps);
    assert [] + Frames(steps) == Frames(steps);
  }

  /** A frame stored after a boundary was captured is newer than the boundary if and only if the
      counter had not saturated. */
  lemma NewFrameIsNewerIff<F>(c: Cache<F>, f: F)
    ensures SnapshotAfter(StoreSummary(c, f), c.version).Some? <==> c.version < U64_MAX
    ensures Poll(StoreSummary(c, f), (s: Snapshot<F>) => s.version > c.version, false).None? <==>
            c.version == U64_MAX && c.terminalError == None
  {
  }

  // The pump -----------------------------------------------------------------------------

  /** latest_frame_summary_loop: `abandoned(i)` says whether all readers are gone before event `i`.
      Returns the cache and whether the loop ended because it was abandoned. */
  function Pump<F, S>(p: Parsers<F, S>, b: seq<byte>, c: Cache<F>, abandoned: nat -> bool, i: nat): (Cache<F>, bool)
    decreases |b|
  {
    if abandoned(i) then (c, true)
    else
      match ReadDeviceEvent(p, b)
      case Failed(x) => (c.(terminalError := Some(x)), false)
      case Got((ev, rest)) =>
        EventsAreNotEmpty(p, b);
        Pump(p, rest, if ev.FrameSummary? then StoreSummary(c, ev.summary) else c, abandoned, i + 1)
  }

  lemma EventsAreNotEmpty<F, S>(p: Parsers<F, S>, b: seq<byte>)
    requires ReadDeviceEvent(p, b).Got?
    ensures |ReadDeviceEvent(p, b).value.1| < |b|
  {
    hide Encode, ReadDeviceEvent;
    var w := OnlyEncodingsAreAccepted(p, b);
    EncodingNotEmpty(w);
  }

  lemma EncodingNotEmpty(w: WireEvent)
    requires Encodable(w)
    ensures |Encode(w)| > 0
  {
  }

  function FramesOf<F, S>(events: seq<DeviceEvent<F, S>>): seq<F> {
    if events == [] then []
    else (match events[0] case FrameSummary(f) => [f] case _ => []) + FramesOf(events[1..])
  }

  /** Pumping a stream of well-formed events up to the first bytes that are none: the pump handles
      the events before the first moment all readers are gone, `m` of them, and caches the last
      frame summary among those, versioned by their number; the error of the bad bytes is stored
      exactly if the readers stayed throughout. */
  lemma {:induction false} PumpCachesTheLastFrame<F, S>(
    p: Parsers<F, S>, ws: seq<WireEvent>, rest: seq<byte>, c: Cache<F>, frames: seq<F>, abandoned: nat -> bool, i: nat)
    returns (m: nat)
    requires AllWellFormed(p, ws) && ReadDeviceEvent(p, rest).Failed? && Summarizes(c, frames)
    ensures m <= |ws| && (forall k :: i <= k < i + m ==> !abandoned(k)) && (m < |ws| ==> abandoned(i + m))
    ensures var (c', gone) := Pump(p, EncodeAll(p, ws) + rest, c, abandoned, i);
            && (gone <==> abandoned(i + m)) && Summarizes(c', frames + FramesOf(Meanings(p, ws[..m])))
            && c'.terminalError == if gone then c.terminalError else Some(ReadDeviceEvent(p, rest).error)
    decreases |ws|
  {
    hide ReadDeviceEvent, Encode, Summarizes, Meaning, StoreSummary, FramesOf;
    assert frames + FramesOf<F, S>([]) == frames by { NoFrames<F, S>(frames); }
    if abandoned(i) {
      m := 0;
    } else if ws == [] {
      m := 0;
      assert [] + rest == rest;
      OnlyVersionsMatter(c, c.(terminalError := Some(ReadDeviceEvent(p, rest).error)), frames);
    } else {
      var b := EncodeAll(p, ws) + rest;
      var later := EncodeAll(p, ws[1..]) + rest;
      assert b == Encode(ws[0]) + later;
      EventRoundTrip(p, ws[0], later);
      EventsAreNotEmpty(p, b);
      var ev := Meaning(p, ws[0]);
      var c1 := if ev.FrameSummary? then StoreSummary(c, ev.summary) else c;
      var now := FramesOf([ev]);
      EventSummarizes(c, frames, ev);
      m := PumpCachesTheLastFrame(p, ws[1..], rest, c1, frames + now, abandoned, i + 1);
      var more := Meanings(p, ws[1..][..m]);
      assert ws[..m + 1][1..] == ws[1..][..m];
      assert Meanings(p, ws[..m + 1]) == [ev] + more;
      FramesOfCons(ev, more);
      assert frames + now + FramesOf(more) == frames + (now + FramesOf(more));
      m := m + 1;
    }
  }

  lemma NoFrames<F, S>(frames: seq<F>)
    ensures frames + FramesOf<F, S>([]) == frames
  {
  }

  lemma FramesOfCons<F, S>(ev: DeviceEvent<F, S>, more: seq<DeviceEvent<F, S>>)
    ensures FramesOf([ev] + more) == FramesOf([ev]) + FramesOf(more)
  {
    assert ([ev] + more)[1..] == more && [ev][1..] == [];
  }

  lemma EventSummarizes<F, S>(c: Cache<F>, frames: seq<F>, ev: DeviceEvent<F, S>)
    requires Summarizes(c, frames)
    ensures var c1 := if ev.FrameSummary? then StoreSummary(c, ev.summary) else c;
            && Summarizes(c1, frames + FramesOf([ev])) && c1.terminalError == c.terminalError
  {
    assert frames + [] == frames;
  }
}
