/** The sound-chip devices libvgm reports for a song (PLR_DEV_INFO) and the
    lookups the glue performs over them. */
module Devices {
  import opened Pcm
  import opened Options

  /** One emulated device. `name` is None when the device declaration has no
      name function or that function yields null. */
  datatype DeviceInfo = DeviceInfo(id: uint32, name: Option<string>, volume: uint32)

  /** GetSongDeviceInfo returns 0 (ok) or 1 (warning) when the list is usable. */
  const UsableStatus: nat := 0x01

  /** The volume reported when no device matches: 0x100, unity gain. */
  const DefaultVolume: uint32 := 0x100

  const UnknownName: string := "Unknown"

  function Ids(devs: seq<DeviceInfo>): (ids: seq<uint32>)
    ensures |ids| == |devs|
    ensures forall i :: 0 <= i < |devs| ==> ids[i] == devs[i].id
  {
    if devs == [] then [] else Ids(devs[..|devs| - 1]) + [devs[|devs| - 1].id]
  }

  /** The ids in order of first appearance, each once: what the nested
      search-then-push_back loop of `nGetDeviceCount` builds. */
  function Dedup(ids: seq<uint32>): (r: seq<uint32>)
    ensures |r| <= |ids|
  {
    if ids == [] then []
    else
      var seen := Dedup(ids[..|ids| - 1]);
      if ids[|ids| - 1] in seen then seen else seen + [ids[|ids| - 1]]
  }

  /** One more device: its id is pushed unless it was already seen. */
  lemma DedupSnoc(devs: seq<DeviceInfo>, n: nat)
    requires n < |devs|
    ensures Dedup(Ids(devs[..n + 1])) ==
      if devs[n].id in Dedup(Ids(devs[..n])) then Dedup(Ids(devs[..n]))
      else Dedup(Ids(devs[..n])) + [devs[n].id]
  {
    var ids := Ids(devs[..n + 1]);
    assert devs[..n + 1][..n] == devs[..n];
    assert ids[..|ids| - 1] == Ids(devs[..n]);
  }

  predicate NoDuplicates(s: seq<uint32>) {
    forall i, j :: 0 <= i < j < |s| ==> s[i] != s[j]
  }

  function Elements(s: seq<uint32>): (e: set<uint32>) {
    set x | x in s
  }

  /** Dedup keeps every id, invents none, and repeats none. */
  lemma {:induction false} DedupIsDistinct(ids: seq<uint32>)
    ensures Elements(Dedup(ids)) == Elements(ids)
    ensures NoDuplicates(Dedup(ids))
  {
    if ids != [] {
      var front := ids[..|ids| - 1];
      DedupIsDistinct(front);
      assert ids == front + [ids[|ids| - 1]];
      assert Elements(ids) == Elements(front) + {ids[|ids| - 1]};
    }
  }

  /** A sequence without repeats has as many elements as its set. */
  lemma {:induction false} DistinctCard(s: seq<uint32>)
    requires NoDuplicates(s)
    ensures |Elements(s)| == |s|
  {
    if s != [] {
      var front := s[..|s| - 1];
      DistinctCard(front);
      assert s == front + [s[|s| - 1]];
      assert s[|s| - 1] !in front;
      assert Elements(s) == Elements(front) + {s[|s| - 1]};
    }
  }

  /** The device count is the number of distinct ids. */
  lemma DedupCount(ids: seq<uint32>)
    ensures |Dedup(ids)| == |Elements(ids)|
  {
    DedupIsDistinct(ids);
    DistinctCard(Dedup(ids));
  }

  /** Position of the first device with the given id, or |devs| if none. */
  function FirstWithId(devs: seq<DeviceInfo>, id: uint32): (k: nat)
    ensures k <= |devs|
    ensures forall i :: 0 <= i < k ==> devs[i].id != id
    ensures k < |devs| ==> devs[k].id == id
  {
    if devs == [] then 0
    else if devs[0].id == id then 0
    else 1 + FirstWithId(devs[1..], id)
  }

  /** Device i is the first one in the list with the given id. */
  predicate IsFirst(devs: seq<DeviceInfo>, i: int, id: uint32) {
    0 <= i < |devs| && devs[i].id == id && forall j :: 0 <= j < i ==> devs[j].id != id
  }

  /** The name the UI gets for a device id: the first match's name or
      "Unknown" when it has none, and "" when no device has that id. */
  function NameOf(devs: seq<DeviceInfo>, id: uint32): (name: string)
    ensures (forall i :: 0 <= i < |devs| ==> devs[i].id != id) ==> name == ""
    ensures forall i :: IsFirst(devs, i, id) && devs[i].name.Some? ==> name == devs[i].name.value
    ensures forall i :: IsFirst(devs, i, id) && devs[i].name.None? ==> name == UnknownName
  {
    var k := FirstWithId(devs, id);
    if k == |devs| then ""
    else match devs[k].name
      case Some(n) => n
      case None => UnknownName
  }

  /** The volume the UI gets for a device id: the first match's volume, or
      0x100 when no device has that id. */
  function VolumeOf(devs: seq<DeviceInfo>, id: uint32): (volume: uint32)
    ensures (forall i :: 0 <= i < |devs| ==> devs[i].id != id) ==> volume == DefaultVolume
    ensures forall i :: IsFirst(devs, i, id) ==> volume == devs[i].volume
  {
    var k := FirstWithId(devs, id);
    if k == |devs| then DefaultVolume else devs[k].volume
  }

  /** What SetDeviceVolume does to the device list: every device with the
      given id takes the new volume; nothing else changes. */
  function SetVolume(devs: seq<DeviceInfo>, id: uint32, vol: uint32): (r: seq<DeviceInfo>)
    ensures |r| == |devs|
    ensures forall i :: 0 <= i < |devs| ==> r[i].id == devs[i].id && r[i].name == devs[i].name
    ensures forall i :: 0 <= i < |devs| ==>
      r[i].volume == if devs[i].id == id then vol else devs[i].volume
  {
    seq(|devs|, i requires 0 <= i < |devs| =>
      if devs[i].id == id then devs[i].(volume := vol) else devs[i])
  }

  /** Two device lists with the same ids in the same order find the same
      first match for every id. */
  lemma {:induction false} FirstWithIdSameIds(a: seq<DeviceInfo>, b: seq<DeviceInfo>, id: uint32)
    requires |a| == |b| && forall i :: 0 <= i < |a| ==> a[i].id == b[i].id
    ensures FirstWithId(a, id) == FirstWithId(b, id)
  {
    if a != [] && a[0].id != id {
      FirstWithIdSameIds(a[1..], b[1..], id);
    }
  }

  /** Setting a volume and reading it back: the id that was set reports the
      new volume if some device has it, every other id reports what it did
      before, and no name changes. */
  lemma SetVolumeThenGet(devs: seq<DeviceInfo>, id: uint32, vol: uint32, other: uint32)
    ensures VolumeOf(SetVolume(devs, id, vol), other)
         == if other == id && FirstWithId(devs, id) < |devs| then vol else VolumeOf(devs, other)
    ensures NameOf(SetVolume(devs, id, vol), other) == NameOf(devs, other)
  {
    var r := SetVolume(devs, id, vol);
    FirstWithIdSameIds(r, devs, other);
  }
}
