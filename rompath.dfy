/** `RequestFileCallback`: libvgm asks the glue for an auxiliary file (a ROM
    or sample bank) by name; the glue tries the name as given, then the name
    under the configured ROM directory. */
module RomPath {
  import opened Options
  import opened Libvgm

  function LastIsSlash(dir: string): (slash: bool)
    requires dir != []
  {
    dir[|dir| - 1] == '/'
  }

  /** The directory without the one trailing '/' it may end in. */
  function DirPart(dir: string): (d: string)
    requires dir != []
  {
    if LastIsSlash(dir) then dir[..|dir| - 1] else dir
  }

  /** `fullPath = gRomPath; if (back() != '/') fullPath += "/"; fullPath += fileName`. */
  function UnderRomPath(romPath: string, fileName: string): (p: string)
    requires romPath != []
    ensures p == DirPart(romPath) + "/" + fileName
    ensures p[..|romPath|] == romPath
    ensures |p| == |romPath| + |fileName| + (if LastIsSlash(romPath) then 0 else 1)
  {
    var dir := if LastIsSlash(romPath) then romPath else romPath + "/";
    dir + fileName
  }

  /** Exactly one '/' is inserted when the directory lacks one, none when it
      has one: the file name follows the directory after a single added
      character or none. */
  lemma UnderRomPathShape(romPath: string, fileName: string)
    requires romPath != []
    ensures var p := UnderRomPath(romPath, fileName);
      var cut := |p| - |fileName|;
      p[cut..] == fileName && p[cut - 1] == '/'
      && (cut == |romPath| + 1 <==> !LastIsSlash(romPath))
  {
    var p := UnderRomPath(romPath, fileName);
    assert p == DirPart(romPath) + "/" + fileName;
  }

  /** Which file the callback hands back to libvgm (a loaded DATA_LOADER), or
      None for the null pointer. A loader whose load failed is released
      before the next attempt, so nothing else stays allocated. */
  function RequestFile(disk: Disk, romPath: string, fileName: string): (r: Option<string>)
    ensures r.Some? ==> r.value in disk
    ensures fileName in disk ==> r == Some(fileName)
    ensures fileName !in disk && romPath != [] && UnderRomPath(romPath, fileName) in disk
      ==> r == Some(UnderRomPath(romPath, fileName))
    ensures r == None <==>
      fileName !in disk && (romPath == [] || UnderRomPath(romPath, fileName) !in disk)
  {
    if fileName in disk then Some(fileName)
    else if romPath != [] && UnderRomPath(romPath, fileName) in disk then
      Some(UnderRomPath(romPath, fileName))
    else None
  }
}
