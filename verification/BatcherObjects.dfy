/** The batchers as the objects of src/client.rs, with their frame arrays updated in place, proved
    against Batchers. `blocking` selects the plain or the `try_` form of a method. */
module BatcherObjects {
  import opened Bytes
  import B = Batchers

  /** The part of the client a batcher uses: its end of the command channel. */
  class Channel<F> {
    const net: nat -> B.Answer
    var sent: seq<B.Sent<F>>
    var sends: nat

    constructor (net: nat -> B.Answer)
      ensures this.net == net && sent == [] && sends == 0
    {
      this.net := net;
      sent, sends := [], 0;
    }

    method Send(cmd: B.Sent<F>, blocking: bool) returns (r: Result<()>)
      modifies this
      ensures sends == old(sends) + 1
      ensures match B.Refusal(net(old(sends)), blocking)
              case Some(x) => r == Err(x) && sent == old(sent)
              case None => r == Ok(()) && sent == old(sent) + [cmd]
    {
      var refusal := B.Refusal(net(sends), blocking);
      sends := sends + 1;
      if refusal.Some? { return Err(refusal.value); }
      sent := sent + [cmd];
      r := Ok(());
    }
  }

  /** TouchFrameBatcher, and with `singles` the keyboard, Android-key, mouse and scroll batchers. */
  class FrameBatcher<F> {
    const client: Channel<F>
    const shape: B.Shape
    const cap: B.Capacity
    const blank: F
    const frames: array<F>
    var len: nat

    ghost predicate Valid()
      reads this
    {
      (shape == B.TouchShape || shape == B.LazyShape) && frames.Length == cap && len <= cap
    }

    function View(): B.Batcher<F>
      requires len <= frames.Length
      reads this, client, frames
    {
      B.Batcher(shape, cap, frames[..len], client.sent, client.sends)
    }

    constructor (client: Channel<F>, shape: B.Shape, blank: F)
      requires shape == B.TouchShape || shape == B.LazyShape
      requires client.sent == [] && client.sends == 0
      ensures Valid() && fresh(frames) && this.client == client
      ensures View() == B.New(shape, 0)
    {
      this.client, this.shape, this.blank := client, shape, blank;
      cap := B.CapacityOf(shape, 0);
      frames := new F[B.CapacityOf(shape, 0)](_ => blank);
      len := 0;
    }

    method Flush(blocking: bool) returns (r: Result<()>)
      requires Valid()
      modifies this, client, frames
      ensures Valid() && (View(), r) == B.Flush(client.net, old(View()), blocking)
    {
      if len == 0 {
        assert View().buffer == [];
        return Ok(());
      }
      var cmd := if len == 1 && shape != B.TouchShape then B.One(frames[0]) else B.Batch(frames[..len]);
      r := client.Send(cmd, blocking);
      if r.Ok? {
        forall i | 0 <= i < frames.Length {
          frames[i] := blank;
        }
        len := 0;
      }
    }

    method Push(frame: F, blocking: bool) returns (r: Result<()>)
      requires Valid()
      modifies this, client, frames
      ensures Valid() && (View(), r) == B.Push(client.net, old(View()), frame, blocking)
    {
      if len == cap {
        r := Flush(blocking);
        if r.Err? { return; }
      }
      ghost var before := frames[..len];
      frames[len] := frame;
      len := len + 1;
      assert frames[..len] == before + [frame];
      r := Ok(());
    }

    method PushMany(given: seq<F>, blocking: bool) returns (r: Result<()>)
      requires Valid()
      modifies this, client, frames
      ensures Valid() && (View(), r) == B.PushMany(client.net, old(View()), given, blocking)
    {
      hide B.Push;
      for i := 0 to |given|
        invariant Valid()
        invariant B.PushMany(client.net, View(), given[i..], blocking)
               == B.PushMany(client.net, old(View()), given, blocking)
      {
        assert given[i..][1..] == given[i + 1..];
        r := Push(given[i], blocking);
        if r.Err? { return; }
      }
      r := Ok(());
    }

    method PushManySlice(given: seq<F>, blocking: bool) returns (r: Result<()>)
      requires Valid()
      modifies this, client, frames
      ensures Valid() && (View(), r) == B.PushSlice(client.net, old(View()), given, blocking)
    {
      var idx := 0;
      while idx < |given|
        invariant idx <= |given| && Valid()
        invariant B.PushSlice(client.net, View(), given[idx..], blocking)
               == B.PushSlice(client.net, old(View()), given, blocking)
      {
        ghost var rest := given[idx..];
        if len == cap {
          r := Flush(blocking);
          if r.Err? { return; }
        }
        var n := if |given| - idx < cap - len then |given| - idx else cap - len;
        assert n == B.Room(View(), |rest|);
        CopyFrames(given, idx, n);
        assert rest[..n] == given[idx..idx + n] && rest[n..] == given[idx + n..];
        idx := idx + n;
        if len == cap {
          r := Flush(blocking);
          if r.Err? { return; }
        }
      }
      r := Ok(());
    }

    method CopyFrames(given: seq<F>, idx: nat, n: nat)
      requires Valid() && idx + n <= |given| && len + n <= cap
      modifies this`len, frames
      ensures Valid()
      ensures View() == old(View()).(buffer := old(View()).buffer + given[idx..idx + n])
    {
      ghost var before := frames[..len];
      for i := 0 to n
        modifies frames
        invariant frames[..len + i] == before + given[idx..idx + i]
      {
        frames[len + i] := given[idx + i];
        assert frames[..len + i + 1] == frames[..len + i] + [given[idx + i]];
      }
      len := len + n;
    }
  }

  /** GamepadFrameBatcher and PackedGamepadFrameBatcher: a fixed array up to 32 frames, a vector
      beyond. */
  class GamepadBatcher<F> {
    const client: Channel<F>
    const blank: F
    const batchSize: B.Capacity
    const useFixed: bool
    var fixedFrames: array<F>
    var fixedLen: nat
    var frames: seq<F>

    ghost predicate Valid()
      reads this
    {
      && fixedFrames.Length == B.FIXED_BATCH_FRAMES
      && fixedLen <= batchSize
      && useFixed == (batchSize <= B.FIXED_BATCH_FRAMES)
      && (useFixed ==> frames == [])
      && (!useFixed ==> fixedLen == 0)
    }

    function View(): B.Batcher<F>
      requires fixedLen <= fixedFrames.Length
      reads this, client, fixedFrames
    {
      B.Batcher(if useFixed then B.EagerFixed else B.EagerVector, batchSize,
                if useFixed then fixedFrames[..fixedLen] else frames, client.sent, client.sends)
    }

    constructor (client: Channel<F>, batchSize: nat, blank: F)
      requires client.sent == [] && client.sends == 0
      ensures Valid() && fresh(fixedFrames) && this.client == client
      ensures View() == B.New(B.EagerShape(batchSize), batchSize)
    {
      this.client, this.blank := client, blank;
      this.batchSize := B.CapacityOf(B.EagerFixed, batchSize);
      useFixed := B.CapacityOf(B.EagerFixed, batchSize) <= B.FIXED_BATCH_FRAMES;
      fixedFrames := new F[B.FIXED_BATCH_FRAMES](_ => blank);
      fixedLen, frames := 0, [];
    }

    /** The fixed array is swapped out for sending and swapped back if the channel refuses it. */
    method FlushFixed(blocking: bool) returns (r: Result<()>)
      requires Valid() && useFixed
      modifies this, client
      ensures Valid() && (fixedFrames == old(fixedFrames) || fresh(fixedFrames))
      ensures (View(), r) == B.Flush(client.net, old(View()), blocking)
    {
      if fixedLen == 0 {
        assert View().buffer == [];
        return Ok(());
      }
      if fixedLen == 1 {
        r := client.Send(B.One(fixedFrames[0]), blocking);
        if r.Ok? { fixedLen := 0; }
        return;
      }
      var batch := new F[B.FIXED_BATCH_FRAMES](_ => blank);
      batch, fixedFrames := fixedFrames, batch;
      var n := fixedLen;
      r := client.Send(B.Batch(batch[..n]), blocking);
      if r.Err? {
        fixedLen := n;
        batch, fixedFrames := fixedFrames, batch;
      } else {
        fixedLen := 0;
      }
    }

    /** The vector is moved into the command and moved back out of a refused one. */
    method FlushVector(blocking: bool) returns (r: Result<()>)
      requires Valid() && !useFixed
      modifies this`frames, client
      ensures Valid() && (View(), r) == B.Flush(client.net, old(View()), blocking)
    {
      if frames == [] { return Ok(()); }
      if |frames| == 1 {
        r := client.Send(B.One(frames[0]), blocking);
        if r.Ok? { frames := []; }
        return;
      }
      var taken := frames;
      frames := [];
      r := client.Send(B.Batch(taken), blocking);
      if r.Err? {
        frames := taken;
      }
    }

    method Flush(blocking: bool) returns (r: Result<()>)
      requires Valid()
      modifies this, client
      ensures Valid() && (fixedFrames == old(fixedFrames) || fresh(fixedFrames))
      ensures (View(), r) == B.Flush(client.net, old(View()), blocking)
    {
      if useFixed {
        r := FlushFixed(blocking);
      } else {
        r := FlushVector(blocking);
      }
    }

    method Push(frame: F, blocking: bool) returns (r: Result<()>)
      requires Valid()
      modifies this, client, fixedFrames
      ensures Valid() && (fixedFrames == old(fixedFrames) || fresh(fixedFrames))
      ensures (View(), r) == B.Push(client.net, old(View()), frame, blocking)
    {
      if useFixed {
        if fixedLen >= batchSize {
          r := FlushFixed(blocking);
          if r.Err? { return; }
          assert fixedLen < batchSize;
        }
        ghost var before := fixedFrames[..fixedLen];
        fixedFrames[fixedLen] := frame;
        fixedLen := fixedLen + 1;
        assert fixedFrames[..fixedLen] == before + [frame];
        r := Ok(());
        if fixedLen >= batchSize {
          r := FlushFixed(blocking);
        }
        return;
      }
      frames := frames + [frame];
      r := Ok(());
      if |frames| >= batchSize {
        r := FlushVector(blocking);
      }
    }

    method PushMany(given: seq<F>, blocking: bool) returns (r: Result<()>)
      requires Valid()
      modifies this, client, fixedFrames
      ensures Valid() && (fixedFrames == old(fixedFrames) || fresh(fixedFrames))
      ensures (View(), r) == B.PushMany(client.net, old(View()), given, blocking)
    {
      hide B.Push;
      for i := 0 to |given|
        invariant Valid() && (fixedFrames == old(fixedFrames) || fresh(fixedFrames))
        invariant B.PushMany(client.net, View(), given[i..], blocking)
               == B.PushMany(client.net, old(View()), given, blocking)
      {
        assert given[i..][1..] == given[i + 1..];
        r := Push(given[i], blocking);
        if r.Err? { return; }
      }
      r := Ok(());
    }

    method PushManySlice(given: seq<F>, blocking: bool) returns (r: Result<()>)
      requires Valid()
      modifies this, client, fixedFrames
      ensures Valid() && (fixedFrames == old(fixedFrames) || fresh(fixedFrames))
      ensures (View(), r) == B.PushSlice(client.net, old(View()), given, blocking)
    {
      var idx := 0;
      while idx < |given|
        invariant idx <= |given| && Valid() && (fixedFrames == old(fixedFrames) || fresh(fixedFrames))
        invariant B.PushSlice(client.net, View(), given[idx..], blocking)
               == B.PushSlice(client.net, old(View()), given, blocking)
      {
        ghost var rest := given[idx..];
        r := FlushIfFull(blocking);
        if r.Err? { return; }
        var n := if |given| - idx < batchSize - Len() then |given| - idx else batchSize - Len();
        assert n == B.Room(View(), |rest|);
        Extend(given, idx, n);
        assert rest[..n] == given[idx..idx + n] && rest[n..] == given[idx + n..];
        idx := idx + n;
        r := FlushIfFull(blocking);
        if r.Err? { return; }
      }
      r := Ok(());
    }

    function Len(): nat
      reads this
    {
      if useFixed then fixedLen else |frames|
    }

    method FlushIfFull(blocking: bool) returns (r: Result<()>)
      requires Valid()
      modifies this, client
      ensures Valid() && (fixedFrames == old(fixedFrames) || fresh(fixedFrames))
      ensures (View(), r) == B.FlushIfBrimming(client.net, old(View()), blocking)
      ensures r.Ok? ==> Len() < batchSize
    {
      r := Ok(());
      if Len() >= batchSize {
        r := Flush(blocking);
        assert r.Ok? ==> View().buffer == [];
      }
    }

    method Extend(given: seq<F>, idx: nat, n: nat)
      requires Valid() && idx + n <= |given| && Len() + n <= batchSize
      modifies this`fixedLen, this`frames, fixedFrames
      ensures Valid()
      ensures View() == old(View()).(buffer := old(View()).buffer + given[idx..idx + n])
    {
      if useFixed {
        ghost var before := fixedFrames[..fixedLen];
        for i := 0 to n
          modifies fixedFrames
          invariant fixedFrames[..fixedLen + i] == before + given[idx..idx + i]
        {
          fixedFrames[fixedLen + i] := given[idx + i];
          assert fixedFrames[..fixedLen + i + 1] == fixedFrames[..fixedLen + i] + [given[idx + i]];
        }
        fixedLen := fixedLen + n;
      } else {
        frames := frames + given[idx..idx + n];
      }
    }
  }
}
