/** The JNI entry points of `vgmplayer_jni.cpp` over its process-wide state:
    the player and its loader, the configured sample rate and ROM directory,
    and the spectrum ring buffer with its write index. One `Session` object
    holds what the C++ keeps in globals. */
module Engine {
  import opened Pcm
  import opened Options
  import opened Devices
  import opened Libvgm
  import Ring
  import Tags
  import BitReverse

  /** MAX_FRAMES: the largest request nFillBuffer makes of Render. */
  const MaxFrames: nat := 4096

  const DefaultSampleRate: uint32 := 44100

  /** log2 of FFT_SIZE. */
  const FftBits: nat := 10

  /** A ring whose every slot is 0, as after memset. */
  const Silent: seq<int> := seq(Ring.N, _ => 0)

  /** `(remaining > MAX_FRAMES) ? MAX_FRAMES : remaining`. */
  function Chunk(remaining: int): (c: int)
    ensures 0 < remaining ==> 1 <= c <= MaxFrames && c <= remaining
    ensures remaining <= MaxFrames ==> c == remaining
    ensures remaining > MaxFrames ==> c == MaxFrames
  {
    if remaining > MaxFrames then MaxFrames else remaining
  }

  /** Frames delivered by a run of Render calls. */
  function Delivered(calls: seq<RenderCall>): (n: nat)
  {
    if calls == [] then 0 else Delivered(calls[..|calls| - 1]) + calls[|calls| - 1].got
  }

  /** Every call in `calls` was made as nFillBuffer's loop makes it: only while
      frames remain, asking for the next chunk of what remains, and answered
      with at most that many frames. */
  ghost predicate Requested(frames: int, calls: seq<RenderCall>)
  {
    calls == [] ||
    (Requested(frames, calls[..|calls| - 1]) &&
     var c, before := calls[|calls| - 1], Delivered(calls[..|calls| - 1]);
     before < frames && c.request == Chunk(frames - before) && c.got <= c.request)
  }

  /** The whole exchange of one nFillBuffer with the renderer: it keeps asking
      while frames remain and stops at the first call that yields nothing. */
  ghost predicate ChunkProtocol(frames: int, calls: seq<RenderCall>, written: int)
  {
    calls != [] && Requested(frames, calls)
    && AllProductive(calls[..|calls| - 1])
    && written == Delivered(calls)
    && (written == frames || calls[|calls| - 1].got == 0)
  }

  /** Every call delivered at least one frame. */
  ghost predicate AllProductive(calls: seq<RenderCall>)
  {
    forall c :: 0 <= c < |calls| ==> calls[c].got > 0
  }

  /** What nFillBuffer's loop keeps while it runs: every call so far was
      made as the loop makes it, delivered at least one frame, and together
      they delivered `written` frames. */
  ghost predicate Progress(frames: int, calls: seq<RenderCall>, written: int)
  {
    Requested(frames, calls) && AllProductive(calls) && Delivered(calls) == written
  }

  /** One more call as the loop makes it, asking for the next chunk of what
      remains: if it yields nothing the exchange is complete, otherwise the
      loop goes on with `got` more frames written. */
  lemma ProgressStep(frames: int, calls: seq<RenderCall>, written: int, got: nat)
    requires Progress(frames, calls, written) && written < frames
    requires got <= Chunk(frames - written)
    ensures got == 0 ==>
      ChunkProtocol(frames, calls + [RenderCall(Chunk(frames - written), got)], written + got)
    ensures got > 0 ==>
      Progress(frames, calls + [RenderCall(Chunk(frames - written), got)], written + got)
  {
    var c := RenderCall(Chunk(frames - written), got);
    var next := calls + [c];
    assert next[..|next| - 1] == calls;
    assert forall k :: 0 <= k < |calls| ==> next[k] == calls[k];
  }

  /** The loop ends with every frame delivered. */
  lemma ProgressFull(frames: int, calls: seq<RenderCall>)
    requires 0 < frames && Progress(frames, calls, frames)
    ensures ChunkProtocol(frames, calls, frames)
  {
    var front := calls[..|calls| - 1];
    assert forall k :: 0 <= k < |front| ==> front[k] == calls[k];
  }

  lemma {:induction false} RequestedBounds(frames: int, calls: seq<RenderCall>)
    requires Requested(frames, calls)
    ensures calls != [] ==> Delivered(calls) <= frames
    ensures forall c :: 0 <= c < |calls| ==> 1 <= calls[c].request <= MaxFrames
  {
    if calls != [] {
      var front := calls[..|calls| - 1];
      RequestedBounds(frames, front);
      forall c | 0 <= c < |calls|
        ensures 1 <= calls[c].request <= MaxFrames
      {
        if c < |front| {
          assert calls[c] == front[c];
        }
      }
    }
  }

  /** What the exchange guarantees: no request is empty or above MAX_FRAMES,
      the frames written never exceed the frames asked for, and a short fill
      happens only because the renderer returned 0. */
  lemma ChunkProtocolBounds(frames: int, calls: seq<RenderCall>, written: int)
    requires ChunkProtocol(frames, calls, written)
    ensures 0 < frames && written <= frames
    ensures forall c :: 0 <= c < |calls| ==> 1 <= calls[c].request <= MaxFrames
    ensures written < frames ==> calls[|calls| - 1].got == 0
  {
    RequestedBounds(frames, calls);
  }

  /** The player set-up of nOpen: a new VGMPlayer with the sample rate, the
      file-request callback and playbackHz 0, then LoadFile from `l`. */
  method NewPlayer(l: Loader, rate: uint32) returns (p: Player, failed: bool)
    ensures fresh(p)
    ensures failed <==> !(l.data.Some? && l.data.value.Playable?)
    ensures !failed ==> p.song == Some(l.data.value.song) && p.devices == l.data.value.song.devices
    ensures p.seeks == [] && p.output == [] && p.renders == [] && p.rateRequests == [rate]
    ensures p.sampleRate == rate && p.fileCallback && p.playbackHz == 0 && !p.playing
  {
    p := new Player();
    p.SetSampleRate(rate);
    p.SetFileReqCallback();
    p.SetPlayerOptions(0);
    failed := p.LoadFile(l);
  }

  /** The glue's `(UINT32)` cast in nSetDeviceVolume and its `(jint)` cast in
      nGetDeviceVolume undo each other: when a device has id `(UINT32)id` and
      the library stores the full 32-bit volume it is given, as the stand-in
      SetDeviceVolume does, the UI reads back exactly `vol`, negative values
      included. */
  lemma VolumeReadBack(devs: seq<DeviceInfo>, id: int32, vol: int32)
    requires FirstWithId(devs, ToUint32(id)) < |devs|
    ensures ToInt32(VolumeOf(SetVolume(devs, ToUint32(id), ToUint32(vol)), ToUint32(id))) == vol
  {
    SetVolumeThenGet(devs, ToUint32(id), ToUint32(vol), ToUint32(id));
    SignedRoundTrip(vol);
  }

  /** Writing two values just past a spliced-in run extends the run. */
  lemma Splice<T>(d0: seq<T>, lo: nat, outs: seq<T>, d: seq<T>, x: T, y: T)
    requires lo + |outs| + 2 <= |d0|
    requires d == d0[..lo] + outs + d0[lo + |outs|..]
    ensures d[lo + |outs| := x][lo + |outs| + 1 := y]
         == d0[..lo] + (outs + [x, y]) + d0[lo + |outs| + 2..]
  {
    var lhs := d[lo + |outs| := x][lo + |outs| + 1 := y];
    var rhs := d0[..lo] + (outs + [x, y]) + d0[lo + |outs| + 2..];
    assert |lhs| == |rhs|;
    forall p | 0 <= p < |lhs|
      ensures lhs[p] == rhs[p]
    {
      if p < lo {
      } else if p < lo + |outs| + 2 {
      } else {
      }
    }
  }

  /** One step of the conversion loop on values: writing frame i of `src` at
      dst frame `base + i` and at ring slot `w` extends what the first i
      frames produced by what frame i produces. */
  lemma ConvertStep(dst0: seq<int16>, ring0: seq<int>, idx0: nat, base: nat, src: seq<Frame32>,
                    i: nat, d: seq<int16>, r: seq<int>, w: nat)
    requires i < |src| && 2 * (base + i) + 2 <= |dst0| == |d| && |r| == Ring.N && w < Ring.N
    requires ChunkConverted(d, r, w, dst0, ring0, idx0, base, src[..i])
    ensures ChunkConverted(d[2 * (base + i) := ToPcm16(src[i].left)][2 * (base + i) + 1 := ToPcm16(src[i].right)],
                           r[w := Mono(src[i])], Ring.Next(w), dst0, ring0, idx0, base, src[..i + 1])
  {
    var f := src[i];
    assert src[..i + 1] == src[..i] + [f];
    MonosSnoc(src[..i], f);
    InterleaveSnoc(src[..i], f);
    Ring.WriteSnoc(ring0, idx0, Monos(src[..i]), Mono(f));
    Splice(dst0, 2 * base, Interleave(src[..i]), d, ToPcm16(f.left), ToPcm16(f.right));
  }

  /** The output `d`, the ring `r` and the write index `w` once the frames
      `done` of one chunk have been converted at frame `base`, starting from
      `dst0`, `ring0` and `idx0`: the invariant of the conversion loop. */
  ghost predicate ChunkConverted(d: seq<int16>, r: seq<int>, w: nat, dst0: seq<int16>, ring0: seq<int>,
                                 idx0: nat, base: nat, done: seq<Frame32>)
  {
    |ring0| == Ring.N && idx0 < Ring.N && 2 * (base + |done|) <= |dst0|
    && d == dst0[..2 * base] + Interleave(done) + dst0[2 * (base + |done|)..]
    && r == Ring.Write(ring0, idx0, Monos(done))
    && w == Ring.Slot(idx0, |done|)
  }

  /** The output `d`, the ring `r` and the write index `w` once the frames
      `rendered` have been converted, starting from `dst0`, `ring0` and
      `idx0`: the frames' samples interleaved at the front of the output,
      their mono sums written around the ring, the index moved past them. */
  ghost predicate Converted(d: seq<int16>, r: seq<int>, w: nat, dst0: seq<int16>, ring0: seq<int>,
                            idx0: nat, rendered: seq<Frame32>)
  {
    |ring0| == Ring.N && idx0 < Ring.N && 2 * |rendered| <= |dst0|
    && d == Interleave(rendered) + dst0[2 * |rendered|..]
    && r == Ring.Write(ring0, idx0, Monos(rendered))
    && w == Ring.Slot(idx0, |rendered|)
  }

  /** One pass of nFillBuffer's loop on the output: if `d` holds every frame
      converted so far and the pass converts `chunk` right after them, giving
      `d'`, then `d'` holds the conversion of `rendered + chunk`. */
  lemma FillStepOutput(dst0: seq<int16>, rendered: seq<Frame32>, base: nat, chunk: seq<Frame32>,
                       d: seq<int16>, d': seq<int16>)
    requires base == |rendered| && 2 * (|rendered| + |chunk|) <= |dst0|
    requires d == Interleave(rendered) + dst0[2 * |rendered|..]
    requires d' == d[..2 * base] + Interleave(chunk) + d[2 * (base + |chunk|)..]
    ensures d' == Interleave(rendered + chunk) + dst0[2 * |rendered + chunk|..]
  {
    var n, m := |rendered|, |chunk|;
    var left := Interleave(rendered);
    assert |left| == 2 * n;
    assert d[..2 * n] == left;
    assert d[2 * (n + m)..] == dst0[2 * n..][2 * m..] == dst0[2 * (n + m)..];
    assert |rendered + chunk| == n + m;
    InterleaveAppend(rendered, chunk);
  }

  /** The same on the ring: writing the chunk's mono samples from where the
      earlier frames left off is writing the mono samples of
      `rendered + chunk` from the start. */
  lemma FillStepRing(ring0: seq<int>, idx0: nat, rendered: seq<Frame32>, chunk: seq<Frame32>,
                     r: seq<int>, w: nat)
    requires |ring0| == Ring.N && idx0 < Ring.N
    requires r == Ring.Write(ring0, idx0, Monos(rendered))
    requires w == Ring.Slot(idx0, |rendered|)
    ensures Ring.Write(r, w, Monos(chunk)) == Ring.Write(ring0, idx0, Monos(rendered + chunk))
  {
    MonosAppend(rendered, chunk);
    Ring.WriteAppend(ring0, idx0, Monos(rendered), Monos(chunk));
  }

  /** The same for the write index. */
  lemma FillStepIndex(idx0: nat, rendered: seq<Frame32>, chunk: seq<Frame32>, w: nat)
    requires idx0 < Ring.N && w == Ring.Slot(idx0, |rendered|)
    ensures Ring.Slot(w, |chunk|) == Ring.Slot(idx0, |rendered + chunk|)
  {
    Ring.SlotAdd(idx0, |rendered|, |chunk|);
  }

  class Session {
    /** gPlayer. */
    var player: Player?
    /** gLoader. */
    var loader: Loader?
    /** gTitleBuf and gChipBuf are non-null (this file never allocates them). */
    var titleBuf: bool
    var chipBuf: bool
    /** gSampleRate. */
    var sampleRate: uint32
    /** gRomPath. */
    var romPath: string
    /** gFftRingBuffer, holding the integer mono sum l + r. */
    const ring: array<int>
    /** gFftWriteIdx. */
    var writeIdx: nat
    /** The static WAVE_32BS buf[MAX_FRAMES] of nFillBuffer. */
    const renderBuf: array<Frame32>
    /** The native objects currently allocated and not yet freed. */
    ghost var live: set<object>

    /** At most one player, owned together with its loader; no other native
        object is alive. */
    ghost predicate Valid()
      reads this, player, loader
    {
      ring.Length == Ring.N && renderBuf.Length == MaxFrames && writeIdx < Ring.N
      && (player == null <==> loader == null)
      && live == (if player == null then {} else {player, loader})
      && (player != null ==> player.song.Some? && loader.data == Some(Playable(player.song.value)))
    }

    /** The state after cleanup(): nothing open, nothing allocated, the ring
        silent and its index back at 0. */
    ghost predicate Closed()
      reads this, ring
    {
      player == null && loader == null && live == {} && !titleBuf && !chipBuf
      && ring[..] == Silent && writeIdx == 0
    }

    /** The static initial state of the globals. */
    constructor ()
      ensures Valid() && Closed()
      ensures sampleRate == DefaultSampleRate && romPath == ""
    {
      player, loader := null, null;
      titleBuf, chipBuf := false, false;
      sampleRate := DefaultSampleRate;
      romPath := "";
      ring := new int[Ring.N](_ => 0);
      writeIdx := 0;
      renderBuf := new Frame32[MaxFrames](_ => Silence);
      live := {};
      new;
      assert ring[..] == Silent;
    }

    /** cleanup(): stop and unload the player, free it and the loader, free
        the title and chip buffers, silence the ring and reset its index. */
    method Cleanup()
      requires Valid()
      modifies this, ring, player
      ensures Valid() && Closed()
      ensures sampleRate == old(sampleRate) && romPath == old(romPath)
      ensures old(player) != null ==> !old(player).playing && old(player).song == None
    {
      if player != null {
        player.Stop();
        player.UnloadFile();
        live := live - {player};
        player := null;
      }
      if loader != null {
        live := live - {loader};
        loader := null;
      }
      titleBuf := false;
      chipBuf := false;
      forall p | 0 <= p < ring.Length {
        ring[p] := 0;
      }
      writeIdx := 0;
      assert ring[..] == Silent;
    }

    /** nClose. */
    method Close()
      requires Valid()
      modifies this, ring, player
      ensures Valid() && Closed()
      ensures sampleRate == old(sampleRate) && romPath == old(romPath)
    {
      Cleanup();
    }

    /** nOpen: tear down, then load `path` and start a new player. Each
        failure releases what was acquired before it. */
    method Open(path: string, disk: Disk, loaderAllocOk: bool) returns (ok: bool)
      requires Valid()
      modifies this, ring, player
      ensures Valid()
      ensures ok <==> Openable(disk, path, loaderAllocOk)
      ensures ok ==> fresh(player) && fresh(loader) && loader.path == path
      ensures ok ==> player.song == Some(disk[path].song) && player.sampleRate == sampleRate
      ensures ok ==> player.devices == disk[path].song.devices && player.seeks == [] && player.output == [] && player.renders == []
      ensures ok ==> player.rateRequests == [sampleRate, sampleRate]
      ensures ok ==> player.playing && player.fileCallback && player.playbackHz == 0
      ensures !ok ==> Closed()
      ensures ok ==> ring[..] == Silent && writeIdx == 0 && !titleBuf && !chipBuf
      ensures sampleRate == old(sampleRate) && romPath == old(romPath)
    {
      Cleanup();
      var l, p := Acquire(path, disk, loaderAllocOk);
      if p == null {
        return false;
      }
      p.SetSampleRate(sampleRate);
      p.Start();
      player, loader := p, l;
      ok := true;
    }

    /** The allocation steps of nOpen: FileLoader_Init, DataLoader_Load and
        the player set-up. gLoader and gPlayer are kept in locals until all
        three succeed; every failure path of the C++ frees what it acquired
        and resets them to null, so only `live` tells. */
    method Acquire(path: string, disk: Disk, loaderAllocOk: bool) returns (l: Loader?, p: Player?)
      modifies this`live
      ensures p != null <==> Openable(disk, path, loaderAllocOk)
      ensures p == null ==> l == null && live == {}
      ensures p != null ==> l != null && fresh(l) && fresh(p) && live == {p, l}
      ensures p != null ==> l.path == path && l.data == Some(disk[path])
      ensures p != null ==> p.song == Some(disk[path].song) && p.devices == disk[path].song.devices
      ensures p != null ==>
        p.sampleRate == sampleRate && p.fileCallback && p.playbackHz == 0 && !p.playing
        && p.seeks == [] && p.output == [] && p.renders == [] && p.rateRequests == [sampleRate]
    {
      l := FileLoaderInit(path, loaderAllocOk);
      if l == null {
        live := {};
        return null, null;
      }
      live := {l};
      var failed := l.Load(disk);
      if failed {
        live := {};
        return null, null;
      }
      var np;
      np, failed := NewPlayer(l, sampleRate);
      live := {l, np};
      if failed {
        live := {};
        return null, null;
      }
      p := np;
      live := {p, l};
    }

    /** nSetSampleRate: `(UINT32)rate` is stored for the next open and handed
        to the open player, which takes it when stopped. */
    method SetSampleRate(rate: int32)
      requires Valid()
      modifies this`sampleRate, player
      ensures Valid()
      ensures sampleRate == ToUint32(rate)
      ensures player != null ==> player.rateRequests == old(player.rateRequests) + [sampleRate]
      ensures player != null && !player.playing ==> player.sampleRate == sampleRate
      ensures player != null ==>
        player.song == old(player.song) && player.devices == old(player.devices) && player.playing == old(player.playing) && player.position == old(player.position) && player.ended == old(player.ended) && player.seeks == old(player.seeks)
        && player.output == old(player.output) && player.renders == old(player.renders) && player.fileCallback == old(player.fileCallback) && player.playbackHz == old(player.playbackHz)
    {
      sampleRate := ToUint32(rate);
      if player != null {
        player.SetSampleRate(sampleRate);
      }
    }

    /** nSetRomPath. */
    method SetRomPath(path: string)
      modifies this`romPath
      ensures romPath == path
    {
      romPath := path;
    }

    /** nPlay: re-apply the sample rate and start, if a player is open. A
        stopped player takes the rate before it starts. */
    method Play()
      requires Valid()
      modifies player
      ensures Valid()
      ensures player != null ==> player.playing && player.rateRequests == old(player.rateRequests) + [sampleRate]
      ensures player != null && !old(player.playing) ==> player.sampleRate == sampleRate
      ensures player != null ==>
        player.song == old(player.song) && player.devices == old(player.devices) && player.seeks == old(player.seeks)
        && player.output == old(player.output) && player.renders == old(player.renders) && player.fileCallback == old(player.fileCallback) && player.playbackHz == old(player.playbackHz)
    {
      if player != null {
        player.SetSampleRate(sampleRate);
        player.Start();
      }
    }

    /** nStop. */
    method Stop()
      requires Valid()
      modifies player
      ensures Valid()
      ensures player != null ==> !player.playing
      ensures player != null ==>
        player.song == old(player.song) && player.devices == old(player.devices) && player.sampleRate == old(player.sampleRate) && player.position == old(player.position) && player.ended == old(player.ended) && player.seeks == old(player.seeks)
        && player.output == old(player.output) && player.renders == old(player.renders) && player.rateRequests == old(player.rateRequests) && player.fileCallback == old(player.fileCallback) && player.playbackHz == old(player.playbackHz)
    {
      if player != null {
        player.Stop();
      }
    }

    /** nSeek: a no-op when closed; otherwise the position is truncated to
        32 bits, `(UINT32)samplePos`, and handed to the player. */
    method Seek(samplePos: int)
      requires Valid()
      modifies player
      ensures Valid()
      ensures player != null ==> player.seeks == old(player.seeks) + [ToUint32(samplePos)]
      ensures player != null ==>
        player.song == old(player.song) && player.devices == old(player.devices) && player.playing == old(player.playing) && player.sampleRate == old(player.sampleRate)
        && player.output == old(player.output) && player.renders == old(player.renders) && player.rateRequests == old(player.rateRequests) && player.fileCallback == old(player.fileCallback) && player.playbackHz == old(player.playbackHz)
    {
      if player != null {
        player.Seek(ToUint32(samplePos));
      }
    }

    /** nIsEnded: true when closed. */
    function IsEnded(): (ended: bool)
      reads this, player
      ensures player == null ==> ended
      ensures player != null ==> (ended <==> player.ended)
    {
      player == null || player.ended
    }

    /** nGetTotalSamples: 0 when closed. */
    function TotalSamples(): (n: int)
      reads this, player
      ensures player == null ==> n == 0
      ensures player != null ==> n == player.TotalSamples()
    {
      if player == null then 0 else player.TotalSamples()
    }

    /** nGetCurrentSample: 0 when closed. */
    function CurrentSample(): (n: int)
      reads this, player
      ensures player == null ==> n == 0
      ensures player != null ==> n == player.position
    {
      if player == null then 0 else player.position
    }

    /** nGetTags: "" when closed or when libvgm has no tag list; otherwise
        every tag followed by "|||". */
    method GetTags() returns (s: string)
      ensures player == null ==> s == ""
      ensures player != null ==>
        s == match player.Tags() case None => "" case Some(ts) => Tags.Join(ts)
    {
      if player == null {
        return "";
      }
      var t := player.Tags();
      if t.None? {
        return "";
      }
      var ts := t.value;
      s := "";
      var k := 0;
      while k < |ts|
        invariant 0 <= k <= |ts|
        invariant s == Tags.Join(ts[..k])
      {
        Tags.JoinSnoc(ts[..k], ts[k]);
        assert ts[..k + 1] == ts[..k] + [ts[k]];
        s := s + ts[k] + Tags.Separator;
        k := k + 1;
      }
      assert ts[..k] == ts;
    }

    /** The inner loop of nGetDeviceCount: whether `id` was already pushed. */
    static method Seen(ids: seq<uint32>, id: uint32) returns (found: bool)
      ensures found <==> id in ids
    {
      found := false;
      var e := 0;
      while e < |ids|
        invariant 0 <= e <= |ids|
        invariant id !in ids[..e]
      {
        if ids[e] == id {
          return true;
        }
        assert ids[..e + 1] == ids[..e] + [ids[e]];
        e := e + 1;
      }
      assert ids[..e] == ids;
    }

    /** nGetDeviceCount: the number of distinct device ids, 0 when closed or
        when libvgm reports an error status. */
    method GetDeviceCount() returns (count: int)
      ensures player == null ==> count == 0
      ensures player != null ==>
        count == if player.DeviceStatus() <= UsableStatus then |Elements(Ids(player.devices))| else 0
    {
      if player == null {
        return 0;
      }
      var devs := player.devices;
      if player.DeviceStatus() > UsableStatus {
        return 0;
      }
      var ids: seq<uint32> := [];
      var n := 0;
      while n < |devs|
        invariant 0 <= n <= |devs|
        invariant ids == Dedup(Ids(devs[..n]))
      {
        var d := devs[n];
        var found := Seen(ids, d.id);
        DedupSnoc(devs, n);
        if !found {
          ids := ids + [d.id];
        }
        n := n + 1;
      }
      assert devs[..n] == devs;
      DedupCount(Ids(devs));
      count := |ids|;
    }

    /** nGetDeviceName: first device with id `(UINT32)id`; "Unknown" when it
        has no name, "" when closed, on an error status or with no match. */
    method GetDeviceName(id: int32) returns (name: string)
      ensures player == null ==> name == ""
      ensures player != null ==>
        name == if player.DeviceStatus() <= UsableStatus then NameOf(player.devices, ToUint32(id)) else ""
    {
      if player == null {
        return "";
      }
      var devs := player.devices;
      var key := ToUint32(id);
      if player.DeviceStatus() <= UsableStatus {
        var i := 0;
        while i < |devs|
          invariant 0 <= i <= |devs|
          invariant forall j :: 0 <= j < i ==> devs[j].id != key
        {
          if devs[i].id == key {
            assert FirstWithId(devs, key) == i;
            name := match devs[i].name case Some(n) => n case None => UnknownName;
            return;
          }
          i := i + 1;
        }
        assert FirstWithId(devs, key) == |devs|;
      }
      name := "";
    }

    /** nGetDeviceVolume: volume of the first device with id `(UINT32)id`;
        0x100 when closed, on an error status or with no match. */
    method GetDeviceVolume(id: int32) returns (volume: int32)
      ensures player == null ==> volume == DefaultVolume
      ensures player != null ==>
        volume == if player.DeviceStatus() <= UsableStatus then ToInt32(VolumeOf(player.devices, ToUint32(id))) else DefaultVolume
    {
      if player == null {
        return DefaultVolume;
      }
      var devs := player.devices;
      var key := ToUint32(id);
      if player.DeviceStatus() <= UsableStatus {
        var i := 0;
        while i < |devs|
          invariant 0 <= i <= |devs|
          invariant forall j :: 0 <= j < i ==> devs[j].id != key
        {
          if devs[i].id == key {
            assert FirstWithId(devs, key) == i;
            return ToInt32(devs[i].volume);
          }
          i := i + 1;
        }
        assert FirstWithId(devs, key) == |devs|;
      }
      volume := DefaultVolume;
    }

    /** nSetDeviceVolume: forwarded with both arguments cast to UINT32. */
    method SetDeviceVolume(id: int32, vol: int32)
      requires Valid()
      modifies player
      ensures Valid()
      ensures player != null ==>
        player.devices == SetVolume(old(player.devices), ToUint32(id), ToUint32(vol))
      ensures player != null ==>
        player.song == old(player.song) && player.playing == old(player.playing) && player.sampleRate == old(player.sampleRate) && player.position == old(player.position) && player.ended == old(player.ended) && player.seeks == old(player.seeks)
        && player.output == old(player.output) && player.renders == old(player.renders) && player.rateRequests == old(player.rateRequests) && player.fileCallback == old(player.fileCallback) && player.playbackHz == old(player.playbackHz)
    {
      if player != null {
        player.SetDeviceVolume(ToUint32(id), ToUint32(vol));
      }
    }

    /** `memset(buf, 0, chunk * sizeof(WAVE_32BS))`. */
    method ClearRenderBuf(n: nat)
      requires n <= renderBuf.Length
      modifies renderBuf
      ensures forall k :: 0 <= k < n ==> renderBuf[k] == Silence
      ensures forall k :: n <= k < renderBuf.Length ==> renderBuf[k] == old(renderBuf[k])
    {
      forall k | 0 <= k < n {
        renderBuf[k] := Silence;
      }
    }

    /** One step of nFillBuffer's conversion loop: the frame's two channels,
        shifted and saturated, go to dst[at] and dst[at + 1], and their sum
        to the ring slot at the write index, which moves on by one. */
    method PutFrame(dst: array<int16>, at: nat, f: Frame32)
      requires ring.Length == Ring.N && writeIdx < Ring.N && at + 1 < dst.Length
      modifies dst, ring, this`writeIdx
      ensures dst[..] == old(dst[..])[at := ToPcm16(f.left)][at + 1 := ToPcm16(f.right)]
      ensures ring[..] == old(ring[..])[old(writeIdx) := Mono(f)]
      ensures writeIdx == Ring.Next(old(writeIdx))
    {
      var l := ToPcm16(f.left);
      var r := ToPcm16(f.right);
      dst[at] := l;
      dst[at + 1] := r;
      ring[writeIdx] := l as int + r as int;
      writeIdx := (writeIdx + 1) % Ring.N;
    }

    /** The conversion loop of nFillBuffer for one rendered chunk: frame i of
        the render buffer is shifted and saturated into dst[2 * (base + i)]
        (left) and dst[2 * (base + i) + 1] (right), and its mono sum is stored
        at the write index, which then advances modulo FFT_SIZE. */
    method ConvertChunk(dst: array<int16>, base: nat, got: nat, ghost src: seq<Frame32>)
      requires ring.Length == Ring.N && renderBuf.Length == MaxFrames && writeIdx < Ring.N
      requires got <= MaxFrames && 2 * (base + got) <= dst.Length
      requires src == renderBuf[..got]
      modifies dst, ring, this`writeIdx
      ensures dst[..] == old(dst[..])[..2 * base] + Interleave(src) + old(dst[..])[2 * (base + |src|)..]
      ensures ring[..] == Ring.Write(old(ring[..]), old(writeIdx), Monos(src))
      ensures writeIdx == Ring.Slot(old(writeIdx), |src|)
    {
      ghost var ring0, idx0 := ring[..], writeIdx;
      ghost var dst0: seq<int16> := dst[..];
      assert dst0 == dst0[..2 * base] + Interleave(src[..0]) + dst0[2 * (base + 0)..];
      assert ChunkConverted(dst[..], ring[..], writeIdx, dst0, ring0, idx0, base, src[..0]);
      for i := 0 to got
        invariant ChunkConverted(dst[..], ring[..], writeIdx, dst0, ring0, idx0, base, src[..i])
      {
        var f := renderBuf[i];
        ConvertFrame(dst, base, i, f, src, ring0, idx0, dst0);
      }
      assert src[..got] == src;
    }

    /** One iteration of the conversion loop, stated against what the loop
        has converted so far: PutFrame on frame i of `src`. */
    method ConvertFrame(dst: array<int16>, base: nat, i: nat, f: Frame32, ghost src: seq<Frame32>,
                        ghost ring0: seq<int>, ghost idx0: nat, ghost dst0: seq<int16>)
      requires ring.Length == Ring.N && |ring0| == Ring.N && idx0 < Ring.N
      requires i < |src| && f == src[i] && 2 * (base + i) + 2 <= dst.Length == |dst0|
      requires ChunkConverted(dst[..], ring[..], writeIdx, dst0, ring0, idx0, base, src[..i])
      modifies dst, ring, this`writeIdx
      ensures ChunkConverted(dst[..], ring[..], writeIdx, dst0, ring0, idx0, base, src[..i + 1])
    {
      ConvertStep(dst0, ring0, idx0, base, src, i, dst[..], ring[..], writeIdx);
      PutFrame(dst, 2 * (base + i), f);
    }

    /** `memset` of the render buffer, then `Render((UINT32)chunk, buf)`:
        the frames delivered are the first `got` of the buffer. */
    method RenderInto(chunk: nat) returns (got: nat)
      requires player != null && renderBuf.Length == MaxFrames && chunk <= MaxFrames
      modifies renderBuf, player`position, player`ended, player`output, player`renders
      ensures got <= chunk
      ensures player.output == old(player.output) + renderBuf[..got]
      ensures player.renders == old(player.renders) + [RenderCall(chunk, got)]
    {
      ClearRenderBuf(chunk);
      got := player.Render(chunk, renderBuf);
    }

    /** One pass of nFillBuffer's loop: clear the render buffer, ask the
        player for `chunk` frames, and convert what it delivers at frame
        `base` of `dst`. The ghost parameters describe everything
        converted so far; `delivered` is what this pass adds to it. */
    method RenderChunk(dst: array<int16>, base: nat, chunk: nat, ghost ring0: seq<int>,
                       ghost idx0: nat, ghost dst0: seq<int16>, ghost rendered: seq<Frame32>)
      returns (got: nat, ghost delivered: seq<Frame32>)
      requires base == |rendered|
      requires player != null && ring.Length == Ring.N && renderBuf.Length == MaxFrames
      requires |dst0| == dst.Length
      requires chunk <= MaxFrames && 2 * (|rendered| + chunk) <= dst.Length
      requires Converted(dst[..], ring[..], writeIdx, dst0, ring0, idx0, rendered)
      modifies dst, ring, this`writeIdx, renderBuf, player`position, player`ended, player`output, player`renders
      ensures got <= chunk && delivered == renderBuf[..got]
      ensures player.output == old(player.output) + delivered
      ensures player.renders == old(player.renders) + [RenderCall(chunk, got)]
      ensures Converted(dst[..], ring[..], writeIdx, dst0, ring0, idx0, rendered + delivered)
    {
      ghost var d, r, w := dst[..], ring[..], writeIdx;
      got := RenderInto(chunk);
      delivered := renderBuf[..got];
      ConvertChunk(dst, base, got, delivered);
      FillStepOutput(dst0, rendered, base, delivered, d, dst[..]);
      FillStepRing(ring0, idx0, rendered, delivered, r, w);
      FillStepIndex(idx0, rendered, delivered, w);
    }

    /** nFillBuffer: render up to `frames` stereo frames into `dst` as
        interleaved int16 and feed each frame's mono sum to the ring.
        `calls` records the exchange with the renderer and `rendered` the
        frames it delivered; `dst` past the written frames is left alone.
        Without a player, or for a non-positive count, nothing happens. */
    method FillBuffer(dst: array<int16>, frames: int32)
      returns (written: int, ghost calls: seq<RenderCall>, ghost rendered: seq<Frame32>)
      requires Valid()
      requires player != null && frames > 0 ==> 2 * frames <= dst.Length
      modifies this`writeIdx, dst, ring, renderBuf, player
      ensures Valid()
      ensures player == null || frames <= 0 ==> written == 0 && calls == []
      ensures player != null && frames > 0 ==> ChunkProtocol(frames, calls, written)
      ensures 0 <= written && |rendered| == written
      ensures player != null && frames > 0 ==> written <= frames
      ensures dst[..] == Interleave(rendered) + old(dst[..])[2 * |rendered|..]
      ensures ring[..] == Ring.Write(old(ring[..]), old(writeIdx), Monos(rendered))
      ensures writeIdx == (old(writeIdx) + |rendered|) % Ring.N
      ensures player != null ==>
        player.song == old(player.song) && player.devices == old(player.devices) && player.playing == old(player.playing) && player.sampleRate == old(player.sampleRate) && player.seeks == old(player.seeks)
        && player.fileCallback == old(player.fileCallback) && player.playbackHz == old(player.playbackHz)
      ensures player != null ==> player.output == old(player.output) + rendered
      ensures player != null ==> player.renders == old(player.renders) + calls
      ensures player == null || frames <= 0 ==> renderBuf[..] == old(renderBuf[..])
      ensures player != null && frames <= 0 ==>
        player.position == old(player.position) && player.ended == old(player.ended)
    {
      if player == null || frames <= 0 {
        return 0, [], [];
      }
      written, calls, rendered := FillOpen(dst, frames);
    }

    /** nFillBuffer with a player open and frames to render. */
    method FillOpen(dst: array<int16>, frames: int32)
      returns (written: int, ghost calls: seq<RenderCall>, ghost rendered: seq<Frame32>)
      requires Valid() && player != null && frames > 0 && 2 * frames <= dst.Length
      modifies this`writeIdx, dst, ring, renderBuf, player`position, player`ended, player`output, player`renders
      ensures Valid()
      ensures ChunkProtocol(frames, calls, written) && 0 <= written <= frames && |rendered| == written
      ensures dst[..] == Interleave(rendered) + old(dst[..])[2 * |rendered|..]
      ensures ring[..] == Ring.Write(old(ring[..]), old(writeIdx), Monos(rendered))
      ensures writeIdx == (old(writeIdx) + |rendered|) % Ring.N
      ensures player.output == old(player.output) + rendered
      ensures player.renders == old(player.renders) + calls
    {
      ghost var idx0 := writeIdx;
      written, calls, rendered := RenderLoop(dst, frames);
      ChunkProtocolBounds(frames, calls, written);
      Ring.SlotIsMod(idx0, |rendered|);
    }

    /** The chunk loop of nFillBuffer: while frames remain, request the next
        chunk and stop early at the first one that yields nothing. */
    method RenderLoop(dst: array<int16>, frames: nat)
      returns (written: nat, ghost calls: seq<RenderCall>, ghost rendered: seq<Frame32>)
      requires player != null && ring.Length == Ring.N && renderBuf.Length == MaxFrames
      requires writeIdx < Ring.N && 0 < frames && 2 * frames <= dst.Length
      modifies this`writeIdx, dst, ring, renderBuf, player`position, player`ended, player`output, player`renders
      ensures ChunkProtocol(frames, calls, written)
      ensures |rendered| == written && player.output == old(player.output) + rendered
      ensures player.renders == old(player.renders) + calls
      ensures Converted(dst[..], ring[..], writeIdx, old(dst[..]), old(ring[..]), old(writeIdx), rendered)
    {
      calls, rendered := [], [];
      ghost var ring0, idx0, dst0 := ring[..], writeIdx, dst[..];
      var remaining: int := frames;
      written := 0;
      while remaining > 0
        invariant written + remaining == frames && 0 <= remaining
        invariant Progress(frames, calls, written) && |rendered| == written
        invariant player.output == old(player.output) + rendered
        invariant player.renders == old(player.renders) + calls
        invariant Converted(dst[..], ring[..], writeIdx, dst0, ring0, idx0, rendered)
        decreases remaining
      {
        var chunk := if remaining > MaxFrames then MaxFrames else remaining;
        assert chunk == Chunk(frames - written);
        var got;
        ghost var delivered;
        got, delivered := RenderChunk(dst, written, chunk, ring0, idx0, dst0, rendered);
        ProgressStep(frames, calls, written, got);
        calls := calls + [RenderCall(chunk, got)];
        rendered := rendered + delivered;
        written := written + got;
        if got == 0 {
          break;
        }
        remaining := remaining - got;
      }
      if remaining == 0 {
        ProgressFull(frames, calls);
      }
    }

    /** The integer phase of nGetSpectrum: copy the ring starting at the write
        index (oldest sample first) into a fresh vector, then apply the
        bit-reversal permutation of fft_process. The Hann window that the C++
        applies in between is a floating-point scaling and is skipped, so the
        result is the unwindowed snapshot, permuted. The ring is only read. */
    method SpectrumInput() returns (a: array<int>)
      requires Valid()
      ensures fresh(a)
      ensures a[..] == BitReverse.BitReversed(Ring.Rotation(ring[..], writeIdx), FftBits)
    {
      a := new int[Ring.N];
      for i := 0 to Ring.N
        invariant forall p :: 0 <= p < i ==> a[p] == ring[(writeIdx + p) % Ring.N]
      {
        a[i] := ring[(writeIdx + i) % Ring.N];
      }
      assert a[..] == Ring.Rotation(ring[..], writeIdx);
      assert BitReverse.Pow2(FftBits) == Ring.N;
      BitReverse.BitReversePermute(a, FftBits);
    }

    /** nGetTrackLengthDirect: probe a file with a loader and player of its
        own. With no modifies clause it cannot touch the session. */
    method TrackLengthDirect(path: string, disk: Disk, loaderAllocOk: bool) returns (length: int)
      ensures length == if Openable(disk, path, loaderAllocOk) then disk[path].song.totalSamples else 0
    {
      var loc := FileLoaderInit(path, loaderAllocOk);
      if loc == null {
        return 0;
      }
      var failed := loc.Load(disk);
      if failed {
        return 0;
      }
      var p := new Player();
      p.SetSampleRate(sampleRate);
      failed := p.LoadFile(loc);
      if failed {
        return 0;
      }
      length := p.TotalSamples();
      p.UnloadFile();
    }
  }
}
