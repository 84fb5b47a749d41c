/** Preparing a CurseForge modpack instance (cfsync/cf.go): the Forge server the
    instance's mod loader names, then the `mods` directory brought in line with the
    instance's installed add-ons (missing files fetched, files no longer listed
    removed). JSON decoding, URL parsing and HTTP are inputs, as in `Forge`. */
module CurseForge {
  import opened Wrappers
  import opened Disk
  import opened StringSets
  import Forge

  const ModsSubdir: string := "mods"

  /** `CfInstalledAddonFile`: where an add-on's file comes from and its name on disk. */
  datatype InstalledFile = InstalledFile(downloadUrl: string, fileNameOnDisk: string)

  /** `CfMinecraftInstance`, with each add-on given by its installed file. */
  datatype MinecraftInstance = MinecraftInstance(baseModLoaderUrl: string, name: string, guid: string,
                                                 installedAddons: seq<InstalledFile>)

  function ModsDir(basePath: Path): Path
  {
    JoinPath([basePath, ModsSubdir])
  }

  /** The mods directory is `mods` itself, or `mods` inside the base path. */
  lemma ModsDirPath(basePath: Path)
    ensures ModsDir(basePath) == if basePath == "" then ModsSubdir else basePath + "/" + ModsSubdir
  {
    if basePath == "" {
      assert ["", ModsSubdir][1..] == [ModsSubdir];
      assert [ModsSubdir][1..] == [];
      assert NonEmpty([ModsSubdir]) == [ModsSubdir] + NonEmpty([]);
      assert NonEmpty(["", ModsSubdir]) == [ModsSubdir];
    } else {
      JoinPathFile(basePath, ModsSubdir, ModsSubdir);
    }
  }

  /** The file names the add-ons ask for. */
  function Latest(addons: seq<InstalledFile>): set<string>
  {
    set a | a in addons :: a.fileNameOnDisk
  }

  /** `PrepareModFile`: a file already present is kept as it is; otherwise it is fetched
      and written, and nothing is written when the fetch fails. */
  function ModFileSpec(files: map<Path, Bytes>, modPath: Path, downloadUrl: string,
                       fetch: string -> Forge.HttpResult): (r: Forge.Effect)
    ensures modPath in files ==> r == Forge.Effect(files, Pass)
    ensures modPath !in files ==> (r.err == Pass <==> Forge.Succeeded(fetch(downloadUrl)))
    ensures modPath !in files && r.err == Pass ==> modPath in r.files && r.files[modPath] == fetch(downloadUrl).body
    ensures r.err == Pass ==> modPath in r.files
    ensures r.err.Fail? ==> r.files == files
    ensures r.files - {modPath} == files - {modPath}
    ensures files.Keys <= r.files.Keys
  {
    if modPath in files then Forge.Effect(files, Pass)
    else match fetch(downloadUrl)
      case NetError(m) => Forge.Effect(files, Fail(m))
      case Response(status, text, body) =>
        if status != Forge.StatusOK then Forge.Effect(files, Fail(Forge.DownloadError(downloadUrl, status, text)))
        else Forge.Effect(files[modPath := body], Pass)
  }

  method PrepareModFile(fs: FileSystem<Bytes>, modPath: Path, downloadUrl: string, fetch: string -> Forge.HttpResult)
    returns (err: Outcome)
    modifies fs
    ensures Forge.Effect(fs.files, err) == ModFileSpec(old(fs.files), modPath, downloadUrl, fetch)
  {
    if fs.Exists(modPath) {
      return Pass;
    }
    var resp := fetch(downloadUrl);
    if resp.NetError? {
      return Fail(resp.msg);
    }
    if resp.status != Forge.StatusOK {
      return Fail(Forge.DownloadError(downloadUrl, resp.status, resp.statusText));
    }
    Forge.WriteNoTrunc(fs, modPath, resp.body);
    assert Forge.WrittenOver([], resp.body) == resp.body;
    err := Pass;
  }

  /** The download loop of `PrepareMods`: each add-on in order, stopping at the first
      failure. Files are only ever added, and on success every add-on's file is there. */
  function DownloadsSpec(files: map<Path, Bytes>, modsPath: Path, addons: seq<InstalledFile>,
                         fetch: string -> Forge.HttpResult): (r: Forge.Effect)
    ensures files.Keys <= r.files.Keys
    ensures r.err == Pass ==> forall a :: a in addons ==> JoinPath([modsPath, a.fileNameOnDisk]) in r.files
    decreases |addons|
  {
    if |addons| == 0 then Forge.Effect(files, Pass)
    else
      var e := ModFileSpec(files, JoinPath([modsPath, addons[0].fileNameOnDisk]), addons[0].downloadUrl, fetch);
      if e.err.Fail? then Forge.Effect(e.files, Fail("failed to prepare mod file: " + e.err.msg))
      else
        var r := DownloadsSpec(e.files, modsPath, addons[1..], fetch);
        assert forall a :: a in addons ==> a == addons[0] || a in addons[1..];
        r
  }

  /** `files` without the entries of `dir` whose names are in `stale`. */
  function Pruned(files: map<Path, Bytes>, dir: Path, stale: set<string>): map<Path, Bytes>
  {
    map p | p in files && !(InDir(dir, p) && p[|dir| + 1..] in stale) :: files[p]
  }

  /** `PrepareMods`: fetch what the add-ons list, then, if that all succeeded, remove the
      files that were in the mods directory beforehand and that no add-on names. */
  function ModsSpec(files: map<Path, Bytes>, basePath: Path, addons: seq<InstalledFile>,
                    fetch: string -> Forge.HttpResult): Forge.Effect
  {
    var modsPath := ModsDir(basePath);
    var d := DownloadsSpec(files, modsPath, addons, fetch);
    if d.err.Fail? then d
    else Forge.Effect(Pruned(d.files, modsPath, DirNames(files, modsPath) - Latest(addons)), Pass)
  }

  /** A mod's path is a directory entry only under its own name. */
  lemma ModPathEntry(dir: Path, name: string)
    requires dir != ""
    ensures InDir(dir, JoinPath([dir, name])) ==> JoinPath([dir, name])[|dir| + 1..] == name
  {
    if name == "" {
      assert [dir, name][1..] == [name];
      assert NonEmpty([name]) == [];
      assert NonEmpty([dir, name]) == [dir];
    } else {
      JoinPathFile(dir, name, name);
    }
  }

  /** What synchronising the mods directory promises: when a download fails nothing has
      been removed; on success every add-on's file is present, a file that was in the
      directory stays exactly when an add-on names it, and the only files ever removed
      are such unlisted entries of the mods directory. */
  lemma ModsSyncContract(files: map<Path, Bytes>, basePath: Path, addons: seq<InstalledFile>,
                         fetch: string -> Forge.HttpResult)
    ensures var dir := ModsDir(basePath);
            var r := ModsSpec(files, basePath, addons, fetch);
            && (r.err.Fail? ==> files.Keys <= r.files.Keys)
            && (r.err == Pass ==> forall a :: a in addons ==> JoinPath([dir, a.fileNameOnDisk]) in r.files)
            && (r.err == Pass ==> forall n :: n in DirNames(files, dir) ==> (dir + "/" + n in r.files <==> n in Latest(addons)))
            && (forall p :: p in files && p !in r.files ==>
                  InDir(dir, p) && p[|dir| + 1..] in DirNames(files, dir) - Latest(addons))
  {
    var dir := ModsDir(basePath);
    ModsDirPath(basePath);
    var d := DownloadsSpec(files, dir, addons, fetch);
    var stale := DirNames(files, dir) - Latest(addons);
    var r := ModsSpec(files, basePath, addons, fetch);
    if d.err == Pass {
      forall a | a in addons ensures JoinPath([dir, a.fileNameOnDisk]) in r.files {
        ModPathEntry(dir, a.fileNameOnDisk);
      }
      forall n | n in DirNames(files, dir) ensures dir + "/" + n in r.files <==> n in Latest(addons) {
        DirNamesMembers(files, dir, n);
        var p := dir + "/" + n;
        assert p[..|dir| + 1] == dir + "/" && p[|dir| + 1..] == n;
        assert InDir(dir, p);
      }
    }
  }

  /** Removing one more stale name removes exactly that entry's path. */
  lemma PruneStep(files: map<Path, Bytes>, dir: Path, stale: set<string>, name: string)
    requires name != "" && '/' !in name
    ensures Pruned(files, dir, stale + {name}) == Pruned(files, dir, stale) - {dir + "/" + name}
  {
    var q := dir + "/" + name;
    assert q[..|dir| + 1] == dir + "/" && q[|dir| + 1..] == name;
    forall p | InDir(dir, p) && p[|dir| + 1..] == name ensures p == q {
      assert p == p[..|dir| + 1] + p[|dir| + 1..];
    }
  }

  /** `LocateExistingModFiles`. */
  method LocateExistingModFiles(fs: FileSystem<Bytes>, modsPath: Path) returns (existing: StringSet)
    ensures fresh(existing)
    ensures existing.members == DirNames(fs.files, modsPath)
  {
    var names := fs.ReadDirnames(modsPath);
    existing := new StringSet(names);
  }

  /** `PrepareMods`. */
  method PrepareMods(fs: FileSystem<Bytes>, instance: MinecraftInstance, basePath: Path,
                     fetch: string -> Forge.HttpResult)
    returns (err: Outcome)
    modifies fs
    ensures Forge.Effect(fs.files, err) == ModsSpec(old(fs.files), basePath, instance.installedAddons, fetch)
  {
    var addons := instance.installedAddons;
    var modsPath := ModsDir(basePath);
    ModsDirPath(basePath);
    ghost var files0 := fs.files;
    var existing := LocateExistingModFiles(fs, modsPath);

    var latestMods := new StringSet([]);
    err := DownloadMods(fs, modsPath, addons, latestMods, fetch);
    if err.Fail? {
      return;
    }

    var removeThese := existing.Difference(latestMods);
    forall n | n in removeThese.members ensures n != "" && '/' !in n && modsPath + "/" + n in fs.files {
      DirNamesMembers(files0, modsPath, n);
    }
    RemoveOldModFiles(fs, modsPath, removeThese);
    err := Pass;
  }

  /** The download loop of `PrepareMods`: each add-on's name joins `latestMods` and its
      file is prepared, stopping at the first failure. */
  method DownloadMods(fs: FileSystem<Bytes>, modsPath: Path, addons: seq<InstalledFile>, latestMods: StringSet,
                      fetch: string -> Forge.HttpResult)
    returns (err: Outcome)
    modifies fs, latestMods
    ensures Forge.Effect(fs.files, err) == DownloadsSpec(old(fs.files), modsPath, addons, fetch)
    ensures err == Pass ==> latestMods.members == old(latestMods.members) + Latest(addons)
  {
    var i := 0;
    while i < |addons|
      invariant i <= |addons|
      invariant DownloadsSpec(old(fs.files), modsPath, addons, fetch) == DownloadsSpec(fs.files, modsPath, addons[i..], fetch)
      invariant latestMods.members == old(latestMods.members) + Latest(addons[..i])
    {
      var addon := addons[i];
      var filename := addon.fileNameOnDisk;
      LatestStep(addons, i);
      latestMods.Add(filename);
      var modPath := JoinPath([modsPath, filename]);
      DownloadsUnfold(fs.files, modsPath, addons, i, fetch);
      var e := PrepareModFile(fs, modPath, addon.downloadUrl, fetch);
      if e.Fail? {
        return Fail("failed to prepare mod file: " + e.msg);
      }
      i := i + 1;
    }
    assert addons[..i] == addons;
    err := Pass;
  }

  lemma LatestStep(addons: seq<InstalledFile>, i: nat)
    requires i < |addons|
    ensures Latest(addons[..i + 1]) == Latest(addons[..i]) + {addons[i].fileNameOnDisk}
  {
    assert addons[..i + 1] == addons[..i] + [addons[i]];
  }

  /** One step of the download loop, from the `i`-th add-on on. */
  lemma DownloadsUnfold(files: map<Path, Bytes>, modsPath: Path, addons: seq<InstalledFile>, i: nat,
                        fetch: string -> Forge.HttpResult)
    requires i < |addons|
    ensures var a := addons[i];
            var e := ModFileSpec(files, JoinPath([modsPath, a.fileNameOnDisk]), a.downloadUrl, fetch);
            DownloadsSpec(files, modsPath, addons[i..], fetch)
              == if e.err.Fail? then Forge.Effect(e.files, Fail("failed to prepare mod file: " + e.err.msg))
                 else DownloadsSpec(e.files, modsPath, addons[i + 1..], fetch)
  {
    assert addons[i..][0] == addons[i];
    assert addons[i..][1..] == addons[i + 1..];
  }

  /** The removal loop of `PrepareMods`, over the stale names in the set's order. Each
      names a file that is present, so no removal fails. */
  method RemoveOldModFiles(fs: FileSystem<Bytes>, modsPath: Path, removeThese: StringSet)
    requires modsPath != ""
    requires forall n :: n in removeThese.members ==> n != "" && '/' !in n && modsPath + "/" + n in fs.files
    modifies fs
    ensures fs.files == Pruned(old(fs.files), modsPath, removeThese.members)
  {
    ghost var stale := removeThese.members;
    var rest := removeThese.members;
    while rest != {}
      invariant rest <= stale
      invariant fs.files == Pruned(old(fs.files), modsPath, stale - rest)
      decreases rest
    {
      var name :| name in rest;
      JoinPathFile(modsPath, name, name);
      PruneStep(old(fs.files), modsPath, stale - rest, name);
      assert (stale - rest) + {name} == stale - (rest - {name});
      assert modsPath + "/" + name in fs.files by {
        var p := modsPath + "/" + name;
        assert p[..|modsPath| + 1] == modsPath + "/" && p[|modsPath| + 1..] == name;
      }
      var e := fs.Remove(JoinPath([modsPath, name]));
      assert e == Pass;
      rest := rest - {name};
    }
  }

  /** `PrepareInstance`, given what decoding the instance file gives and the path
      `url.Parse` finds in its mod-loader URL: Forge first, then, only if that succeeded,
      the mods; the Forge jar's name is returned. */
  function InstanceSpec(files: map<Path, Bytes>, decoded: Result<MinecraftInstance>, forgeUrlPath: Result<string>,
                        basePath: Path, unzip: Bytes -> Result<seq<Forge.ZipEntry>>, sha1: Bytes -> Bytes,
                        fetch: string -> Forge.HttpResult, resolve: (string, string) -> Forge.Resolution): Forge.Prepared
  {
    match decoded
    case Err(m) => Forge.Prepared(files, Err("failed to load instance file: " + m))
    case Ok(instance) =>
      var f := Forge.PrepareForgeSpec(files, instance.baseModLoaderUrl, forgeUrlPath, basePath, unzip, sha1, fetch, resolve);
      if f.result.Err? then Forge.Prepared(f.files, Err("failed to prepare forge: " + f.result.msg))
      else
        var m := ModsSpec(f.files, basePath, instance.installedAddons, fetch);
        if m.err.Fail? then Forge.Prepared(m.files, Err("failed to prepare mods: " + m.err.msg))
        else Forge.Prepared(m.files, f.result)
  }

  /** What preparing an instance promises: a bad instance file is an error and writes
      nothing; otherwise the instance is ready exactly when Forge and then the mods were
      prepared, a Forge failure (a bad mod-loader URL, a jar that cannot be fetched, ...)
      is returned with the mods step never run, and on success the Forge jar's name is
      returned and every add-on's file is in the mods directory. */
  lemma PrepareInstanceContract(files: map<Path, Bytes>, decoded: Result<MinecraftInstance>, forgeUrlPath: Result<string>,
                                basePath: Path, unzip: Bytes -> Result<seq<Forge.ZipEntry>>, sha1: Bytes -> Bytes,
                                fetch: string -> Forge.HttpResult, resolve: (string, string) -> Forge.Resolution)
    ensures var r := InstanceSpec(files, decoded, forgeUrlPath, basePath, unzip, sha1, fetch, resolve);
            && (decoded.Err? ==> r.result.Err? && r.files == files)
            && (decoded.Ok? ==>
                  var instance := decoded.value;
                  var f := Forge.PrepareForgeSpec(files, instance.baseModLoaderUrl, forgeUrlPath, basePath,
                                                  unzip, sha1, fetch, resolve);
                  && (r.result.Ok? <==>
                        f.result.Ok? && ModsSpec(f.files, basePath, instance.installedAddons, fetch).err == Pass)
                  && (f.result.Err? ==> r.result.Err? && r.files == f.files)
                  && (forgeUrlPath.Err? ==> r.result.Err? && r.files == files)
                  && ((forgeUrlPath.Ok? && JoinPath([basePath, Forge.LastSegment(forgeUrlPath.value)]) !in files
                        && !Forge.Succeeded(fetch(instance.baseModLoaderUrl))) ==> r.result.Err? && r.files == files)
                  && (r.result.Ok? ==>
                        && forgeUrlPath.Ok? && r.result.value == Forge.LastSegment(forgeUrlPath.value)
                        && forall a :: a in instance.installedAddons ==>
                             JoinPath([ModsDir(basePath), a.fileNameOnDisk]) in r.files))
  {
    if decoded.Ok? {
      var instance := decoded.value;
      Forge.PrepareForgeFailures(files, instance.baseModLoaderUrl, forgeUrlPath, basePath, unzip, sha1, fetch, resolve);
      var f := Forge.PrepareForgeSpec(files, instance.baseModLoaderUrl, forgeUrlPath, basePath, unzip, sha1, fetch, resolve);
      if f.result.Ok? {
        Forge.PrepareForgeSuccess(files, instance.baseModLoaderUrl, forgeUrlPath, basePath, unzip, sha1, fetch, resolve);
      }
      ModsSyncContract(f.files, basePath, instance.installedAddons, fetch);
    }
  }

  method PrepareInstance(fs: FileSystem<Bytes>, decoded: Result<MinecraftInstance>, forgeUrlPath: Result<string>,
                         basePath: Path, unzip: Bytes -> Result<seq<Forge.ZipEntry>>,
                         sha1: Bytes -> Bytes, fetch: string -> Forge.HttpResult,
                         resolve: (string, string) -> Forge.Resolution)
    returns (r: Result<string>)
    modifies fs
    ensures Forge.Prepared(fs.files, r)
              == InstanceSpec(old(fs.files), decoded, forgeUrlPath, basePath, unzip, sha1, fetch, resolve)
  {
    if decoded.Err? {
      return Err("failed to load instance file: " + decoded.msg);
    }
    var instance := decoded.value;
    var forged := Forge.PrepareForge(fs, instance.baseModLoaderUrl, forgeUrlPath, basePath, unzip, sha1, fetch, resolve);
    if forged.Err? {
      return Err("failed to prepare forge: " + forged.msg);
    }
    var err := PrepareMods(fs, instance, basePath, fetch);
    if err.Fail? {
      return Err("failed to prepare mods: " + err.msg);
    }
    r := Ok(forged.value);
  }
}
