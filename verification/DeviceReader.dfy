/** The readers and the latest-frame receiver as the objects of src/device.rs: an advancing stream
    position and a shared state updated in place, proved against Device and LatestFrames. */
module DeviceReaders {
  import opened Bytes
  import Utf8
  import opened Device
  import opened LatestFrames

  /** A byte stream with a read position. After an error the position is unspecified. */
  class Reader {
    const data: seq<byte>
    var pos: nat

    predicate Valid()
      reads this
    {
      pos <= |data|
    }

    function Rest(): seq<byte>
      requires Valid()
      reads this
    {
      data[pos..]
    }

    constructor (data: seq<byte>)
      ensures Valid() && Rest() == data
    {
      this.data := data;
      pos := 0;
    }

    /** Whether `r` and the new position are what `spec` says. */
    ghost predicate Reads<T>(r: Read<T>, spec: Read<(T, seq<byte>)>)
      requires Valid()
      reads this
    {
      match spec
      case Failed(x) => r == Failed(x)
      case Got((v, rest)) => r == Got(v) && Rest() == rest
    }

    method ReadExact(n: nat) returns (r: Read<seq<byte>>)
      requires Valid()
      modifies this
      ensures Valid() && Reads(r, Take(old(Rest()), n))
    {
      if n > |data| - pos {
        pos := |data|;
        return Failed(UnexpectedEof);
      }
      assert data[pos..][..n] == data[pos..pos + n] && data[pos..][n..] == data[pos + n..];
      r := Got(data[pos..pos + n]);
      pos := pos + n;
    }

    method ReadClipboard() returns (r: Read<DeviceMessage>)
      requires Valid()
      modifies this
      ensures Valid() && Reads(r, Device.ReadClipboard(old(Rest())))
    {
      hide Take;
      var head := ReadExact(4);
      if head.Failed? { return Failed(head.error); }
      HeadLength(old(Rest()), 4);
      var len := ReadU32Be(head.value);
      if len > MAX_PAYLOAD { return Failed(ClipboardTooLarge); }
      var payload := ReadExact(len);
      if payload.Failed? { return Failed(payload.error); }
      var text := Utf8.Decode(payload.value);
      r := if text == None then Failed(NotUtf8) else Got(Clipboard(text.value));
    }

    method ReadAckClipboard() returns (r: Read<DeviceMessage>)
      requires Valid()
      modifies this
      ensures Valid() && Reads(r, Device.ReadAckClipboard(old(Rest())))
    {
      hide Take;
      var head := ReadExact(8);
      if head.Failed? { return Failed(head.error); }
      HeadLength(old(Rest()), 8);
      r := Got(AckClipboard(ReadU64Be(head.value)));
    }

    method ReadUhidOutput() returns (r: Read<DeviceMessage>)
      requires Valid()
      modifies this
      ensures Valid() && Reads(r, Device.ReadUhidOutput(old(Rest())))
    {
      hide Take;
      var id := ReadExact(2);
      if id.Failed? { return Failed(id.error); }
      HeadLength(old(Rest()), 2);
      ghost var b1 := Rest();
      var head := ReadExact(2);
      if head.Failed? { return Failed(head.error); }
      HeadLength(b1, 2);
      var size := ReadU16Be(head.value);
      assert size <= MAX_PAYLOAD;
      var data := ReadExact(size);
      if data.Failed? { return Failed(data.error); }
      r := Got(UhidOutput(ReadU16Be(id.value), data.value));
    }

    method ReadEnvelope<F, S>(p: Parsers<F, S>, tag: byte) returns (r: Read<DeviceEvent<F, S>>)
      requires Valid()
      modifies this
      ensures Valid() && Reads(r, Device.ReadEnvelope(p, tag, old(Rest())))
    {
      hide Take;
      var head := ReadExact(4);
      if head.Failed? { return Failed(head.error); }
      HeadLength(old(Rest()), 4);
      var len := ReadU32Be(head.value);
      if len > MAX_PAYLOAD { return Failed(EnvelopeTooLarge); }
      var payload := ReadExact(len);
      if payload.Failed? { return Failed(payload.error); }
      r := Interpret(p, tag, payload.value);
    }

    method ReadNative(tag: byte) returns (r: Read<DeviceMessage>)
      requires Valid() && tag <= 2
      modifies this
      ensures Valid() && Reads(r, Device.ReadNative(tag, old(Rest())))
    {
      if tag == TYPE_CLIPBOARD {
        r := ReadClipboard();
      } else if tag == TYPE_ACK_CLIPBOARD {
        r := ReadAckClipboard();
      } else {
        r := ReadUhidOutput();
      }
    }

    method ReadTag() returns (r: Read<byte>)
      requires Valid()
      modifies this
      ensures Valid()
      ensures if old(Rest()) == [] then r == Failed(UnexpectedEof)
              else r == Got(old(Rest())[0]) && Rest() == old(Rest())[1..]
    {
      var one := ReadExact(1);
      if one.Failed? { return Failed(one.error); }
      r := Got(one.value[0]);
    }

    method ReadDeviceMessage() returns (r: Read<DeviceMessage>)
      requires Valid()
      modifies this
      ensures Valid() && Reads(r, Device.ReadDeviceMessage(old(Rest())))
    {
      var tag := ReadTag();
      if tag.Failed? { return Failed(tag.error); }
      if tag.value > 2 { return Failed(UnknownType(tag.value)); }
      r := ReadNative(tag.value);
    }

    method ReadDeviceEvent<F, S>(p: Parsers<F, S>) returns (r: Read<DeviceEvent<F, S>>)
      requires Valid()
      modifies this
      ensures Valid() && Reads(r, Device.ReadDeviceEvent(p, old(Rest())))
    {
      var tag := ReadTag();
      if tag.Failed? { return Failed(tag.error); }
      if tag.value > 2 {
        r := ReadEnvelope(p, tag.value);
        return;
      }
      var message := ReadNative(tag.value);
      r := if message.Failed? then Failed(message.error) else Got(Native(message.value));
    }
  }

  lemma HeadLength(b: seq<byte>, n: nat)
    ensures Take(b, n).Got? ==> |Take(b, n).value.0| == n
  {
  }

  // The latest-frame receiver --------------------------------------------------------------

  class LatestFrameSummaryReceiver<F> {
    var latest: Option<Snapshot<F>>
    var version: u64
    var terminalError: Option<ReadError>
    ghost var frames: seq<F>

    function View(): Cache<F>
      reads this
    {
      Cache(latest, version, terminalError)
    }

    /** The cache is short for the frames stored so far. */
    ghost predicate Valid()
      reads this
    {
      Summarizes(View(), frames)
    }

    constructor ()
      ensures Valid() && View() == Fresh() && frames == []
    {
      latest, version, terminalError := None, 0, None;
      frames := [];
    }

    method StoreSummary(summary: F)
      requires Valid()
      modifies this
      ensures Valid() && frames == old(frames) + [summary]
      ensures View() == LatestFrames.StoreSummary(old(View()), summary)
    {
      frames := frames + [summary];
      version := if version == U64_MAX then version else version + 1;
      latest := Some(Snapshot(version, summary));
    }

    method StoreTerminalError(error: ReadError)
      requires Valid()
      modifies this
      ensures Valid() && frames == old(frames)
      ensures View() == old(View()).(terminalError := Some(error))
    {
      terminalError := Some(error);
    }

    /** The boundary is the number of frames stored (saturating), and the snapshot is the last of
        them, numbered by that boundary; there is none exactly if nothing was stored. */
    method Observe() returns (o: Observation<F>)
      requires Valid()
      ensures o.boundary == Capped(|frames|)
      ensures frames == [] <==> o.snapshot == None
      ensures frames != [] ==> o.snapshot == Some(Snapshot(o.boundary, frames[|frames| - 1]))
      ensures o == LatestFrames.Observe(View())
    {
      o := Observation(version, latest);
    }

    /** wait_matching: `updates` are the pump's steps that arrive while this reader sleeps, and
        `timesOut(k)` says whether the deadline has passed at its k-th look. Returns None if it
        would still be waiting. */
    method WaitMatching(matches: Snapshot<F> -> bool, updates: seq<LatestFrames.Step<F>>, timesOut: nat -> bool)
      returns (r: Option<Read<Snapshot<F>>>, ghost looks: nat)
      requires Valid() && forall i :: 0 <= i < |updates| ==> IsPump(updates[i])
      modifies this
      ensures Valid() && looks <= |updates| && View() == LatestFrames.Run(old(View()), updates[..looks])
      ensures r == Poll(View(), matches, timesOut(looks))
      ensures r == None ==> looks == |updates|
      ensures forall k :: 0 <= k < looks ==>
                Poll(LatestFrames.Run(old(View()), updates[..k]), matches, timesOut(k)) == None
    {
      looks := 0;
      assert updates[..0] == [];
      for i := 0 to |updates|
        invariant Valid() && looks == i && View() == LatestFrames.Run(old(View()), updates[..i])
        invariant forall k :: 0 <= k < i ==>
                    Poll(LatestFrames.Run(old(View()), updates[..k]), matches, timesOut(k)) == None
      {
        r := Look(matches, timesOut(i));
        if r.Some? { return; }
        RunSnoc(old(View()), updates[..i], updates[i]);
        assert updates[..i + 1] == updates[..i] + [updates[i]];
        Receive(updates[i]);
        looks := looks + 1;
      }
      r := Look(matches, timesOut(|updates|));
    }

    method Look(matches: Snapshot<F> -> bool, expired: bool) returns (r: Option<Read<Snapshot<F>>>)
      ensures r == Poll(View(), matches, expired)
    {
      if latest.Some? && matches(latest.value) { return Some(Got(latest.value)); }
      if terminalError.Some? { return Some(Failed(terminalError.value)); }
      if expired { return Some(Failed(TimedOut)); }
      r := None;
    }

    method Receive(update: LatestFrames.Step<F>)
      requires Valid() && IsPump(update)
      modifies this
      ensures Valid() && frames == old(frames) + Frames([update])
      ensures View() == LatestFrames.Apply(old(View()), update).0
    {
      match update
      case PumpFrame(f) => StoreSummary(f);
      case PumpOther =>
      case PumpError(x) => StoreTerminalError(x);
    }

    /** latest_frame_summary_loop. */
    method RunPump<S>(p: Parsers<F, S>, reader: Reader, abandoned: nat -> bool) returns (gone: bool)
      requires Valid() && reader.Valid()
      modifies this, reader
      ensures Valid() && (View(), gone) == Pump(p, old(reader.Rest()), old(View()), abandoned, 0)
    {
      hide Device.ReadDeviceEvent, LatestFrames.StoreSummary;
      gone := false;
      var i := 0;
      while true
        invariant Valid() && reader.Valid()
        invariant Pump(p, reader.Rest(), View(), abandoned, i) == Pump(p, old(reader.Rest()), old(View()), abandoned, 0)
        decreases |reader.data| - reader.pos
      {
        if abandoned(i) { return true; }
        ghost var b := reader.Rest();
        var event := reader.ReadDeviceEvent(p);
        if event.Failed? {
          StoreTerminalError(event.error);
          return;
        }
        EventsAreNotEmpty(p, b);
        if event.value.FrameSummary? {
          StoreSummary(event.value.summary);
        }
        i := i + 1;
      }
    }
  }

  lemma {:induction false} RunSnoc<F>(c: Cache<F>, steps: seq<LatestFrames.Step<F>>, st: LatestFrames.Step<F>)
    ensures LatestFrames.Run(c, steps + [st]) == LatestFrames.Apply(LatestFrames.Run(c, steps), st).0
    decreases |steps|
  {
    hide LatestFrames.Apply;
    var all := steps + [st];
    if steps == [] {
      assert all[1..] == [];
    } else {
      assert all[1..] == steps[1..] + [st];
      RunSnoc(LatestFrames.Apply(c, steps[0]).0, steps[1..], st);
    }
  }
}
