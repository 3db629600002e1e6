/** Stand-ins for the parts of libvgm the glue calls: the file loader
    (DATA_LOADER with FileLoader_Init / DataLoader_Load / DataLoader_Deinit)
    and the VGMPlayer object. libvgm itself is not part of this model; these
    classes fix only what the glue relies on, and where libvgm's own behaviour
    decides a value (rendered audio, play position after a seek, end of song)
    the body leaves it arbitrary. */
module Libvgm {
  import opened Pcm
  import opened Options
  import opened Devices

  /** What libvgm would make of a loadable VGM file. `totalSamples` is the
      value of Tick2Sample(GetTotalTicks()) for it; `tags` is GetTags(), None
      for a null list; `deviceStatus` is the return code of GetSongDeviceInfo. */
  datatype Song = Song(
    totalSamples: uint32,
    tags: Option<seq<string>>,
    devices: seq<DeviceInfo>,
    deviceStatus: nat)

  /** A readable file: either one VGMPlayer::LoadFile accepts or one it rejects. */
  datatype Entry = Unparsable | Playable(song: Song)

  /** The file system as the loaders see it: a path that is not a key cannot
      be loaded (DataLoader_Load fails). */
  type Disk = map<string, Entry>

  /** One call of Render: frames asked for, frames got. */
  datatype RenderCall = RenderCall(request: nat, got: nat)

  /** A DATA_LOADER bound to one path. */
  class Loader {
    const path: string
    /** The file's content once DataLoader_Load succeeded. */
    var data: Option<Entry>

    constructor (path: string)
      ensures this.path == path && data == None
    {
      this.path := path;
      data := None;
    }

    /** DataLoader_Load: returns nonzero (true here) on failure. */
    method Load(disk: Disk) returns (failed: bool)
      modifies this
      ensures failed <==> path !in disk
      ensures data == if failed then old(data) else Some(disk[path])
    {
      failed := path !in disk;
      if !failed {
        data := Some(disk[path]);
      }
    }
  }

  /** FileLoader_Init: allocates a loader for `path`; null when allocation
      fails, which `allocOk` stands for. */
  method FileLoaderInit(path: string, allocOk: bool) returns (l: Loader?)
    ensures l != null <==> allocOk
    ensures l != null ==> fresh(l) && l.path == path && l.data == None
  {
    if allocOk {
      l := new Loader(path);
    } else {
      l := null;
    }
  }

  /** A VGMPlayer object. */
  class Player {
    var sampleRate: uint32
    /** SetFileReqCallback has installed the glue's file-request callback. */
    var fileCallback: bool
    /** VGM_PLAY_OPTIONS.playbackHz as last set. */
    var playbackHz: nat
    /** The loaded file, None before LoadFile and after UnloadFile. */
    var song: Option<Song>
    var playing: bool
    /** PLAYSTATE_END. */
    var ended: bool
    /** Tick2Sample(GetCurPos(PLAYPOS_TICK)). */
    var position: uint32
    var devices: seq<DeviceInfo>
    /** The sample positions handed to Seek so far, in order. */
    ghost var seeks: seq<uint32>
    /** Every frame Render has delivered so far, in order. */
    ghost var output: seq<Frame32>
    /** Every Render call so far, in order: frames asked for and got. */
    ghost var renders: seq<RenderCall>
    /** Every rate handed to SetSampleRate so far, in order. */
    ghost var rateRequests: seq<uint32>

    constructor ()
      ensures song == None && !playing && !fileCallback && devices == [] && seeks == [] && output == [] && renders == []
      ensures rateRequests == []
    {
      sampleRate := 44100;
      fileCallback := false;
      playbackHz := 0;
      song := None;
      playing := false;
      ended := false;
      position := 0;
      devices := [];
      seeks := [];
      output := [];
      renders := [];
      rateRequests := [];
    }

    /** SetSampleRate: the request is recorded in `rateRequests`. A stopped
        player takes the new rate; whether a playing one does is libvgm's
        business. */
    method SetSampleRate(rate: uint32)
      modifies this`sampleRate, this`rateRequests
      ensures rateRequests == old(rateRequests) + [rate]
      ensures !playing ==> sampleRate == rate
    {
      rateRequests := rateRequests + [rate];
      if playing {
        var r: uint32 := *;
        sampleRate := r;
      } else {
        sampleRate := rate;
      }
    }

    method SetFileReqCallback()
      modifies this`fileCallback
      ensures fileCallback
    {
      fileCallback := true;
    }

    method SetPlayerOptions(hz: nat)
      modifies this`playbackHz
      ensures playbackHz == hz
    {
      playbackHz := hz;
    }

    /** LoadFile: nonzero (true here) when the loader holds no file this
        player accepts. */
    method LoadFile(loader: Loader) returns (failed: bool)
      modifies this`song, this`devices, this`position, this`ended
      ensures failed <==> !(loader.data.Some? && loader.data.value.Playable?)
      ensures failed ==> song == old(song) && devices == old(devices)
      ensures !failed ==>
        song == Some(loader.data.value.song) && devices == loader.data.value.song.devices
    {
      failed := !(loader.data.Some? && loader.data.value.Playable?);
      if !failed {
        song := Some(loader.data.value.song);
        devices := loader.data.value.song.devices;
        position := 0;
        ended := false;
      }
    }

    method UnloadFile()
      modifies this`song, this`devices
      ensures song == None && devices == []
    {
      song := None;
      devices := [];
    }

    /** Start: the player is playing afterwards; where playback starts and
        the end flag are libvgm's business. */
    method Start()
      modifies this`playing, this`position, this`ended
      ensures playing
    {
      playing := true;
      var p: uint32 := *;
      var e: bool := *;
      position, ended := p, e;
    }

    method Stop()
      modifies this`playing
      ensures !playing
    {
      playing := false;
    }

    /** Render: up to `frames` frames into buf[..got], recorded in `output`.
        How many and which is libvgm's business; the glue relies only on
        got <= frames. */
    method Render(frames: nat, buf: array<Frame32>) returns (got: nat)
      requires frames <= buf.Length
      modifies this`position, this`ended, this`output, this`renders, buf
      ensures got <= frames
      ensures output == old(output) + buf[..got]
      ensures renders == old(renders) + [RenderCall(frames, got)]
    {
      var n: int := *;
      got := if n < 0 then 0 else if n > frames then frames else n;
      var k := 0;
      while k < got
        invariant 0 <= k <= got && output == old(output) && renders == old(renders)
      {
        var f: Frame32 := *;
        buf[k] := f;
        k := k + 1;
      }
      var p: uint32 := *;
      var e: bool := *;
      position, ended := p, e;
      output := output + buf[..got];
      renders := renders + [RenderCall(frames, got)];
    }

    /** Seek(PLAYPOS_SAMPLE, pos): the request is recorded in `seeks`; where
        playback lands is libvgm's business. */
    method Seek(pos: uint32)
      modifies this`position, this`ended, this`seeks
      ensures seeks == old(seeks) + [pos]
    {
      seeks := seeks + [pos];
      var p: uint32 := *;
      var e: bool := *;
      position, ended := p, e;
    }

    /** SetDeviceVolume: the devices with that id take the new volume. */
    method SetDeviceVolume(id: uint32, vol: uint32)
      modifies this`devices
      ensures devices == SetVolume(old(devices), id, vol)
    {
      devices := SetVolume(devices, id, vol);
    }

    /** GetTags: the tag list of the loaded file, None for a null list. */
    function Tags(): (tags: Option<seq<string>>)
      reads this
    {
      if song.Some? then song.value.tags else None
    }

    /** Tick2Sample(GetTotalTicks()). */
    function TotalSamples(): (n: uint32)
      reads this
    {
      if song.Some? then song.value.totalSamples else 0
    }

    /** The status GetSongDeviceInfo returns with the device list. */
    function DeviceStatus(): (status: nat)
      reads this
    {
      if song.Some? then song.value.deviceStatus else 0
    }
  }

  /** Whether FileLoader_Init, DataLoader_Load and LoadFile all succeed for
      `path`: the condition under which an open or a probe gets a song. */
  predicate Openable(disk: Disk, path: string, allocOk: bool)
  {
    allocOk && path in disk && disk[path].Playable?
  }
}
