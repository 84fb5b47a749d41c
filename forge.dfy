/** Preparing a Forge server (cfsync/forge.go): the Forge jar, the libraries its
    `version.json` lists (laid out as a Maven repository under `libraries/`, each checked
    against its SHA-1 sums), and the vanilla server jar. HTTP downloads, SHA-1, zip
    reading and JSON decoding are inputs: `fetch` answers a GET, `sha1` digests file
    contents, `unzip` lists a jar's entries with their decoded manifests. */
module Forge {
  import opened Wrappers
  import opened Disk
  import Text

  const MainLibrariesRepo: string := "https://libraries.minecraft.net/"
  const ForgeLibrariesSubpath: string := "libraries"

  /** An HTTP GET: a response (status code, status text, body), or a transport error. */
  datatype HttpResult = Response(status: int, statusText: string, body: Bytes) | NetError(msg: string)

  const StatusOK: int := 200

  /** Decimal digits of a number, as `%d` prints it. */
  function NatToString(n: nat): (s: string)
    ensures |s| >= 1
    ensures forall i :: 0 <= i < |s| ==> '0' <= s[i] <= '9'
  {
    if n < 10 then ["0123456789"[n]] else NatToString(n / 10) + ["0123456789"[n % 10]]
  }

  function IntToString(n: int): string
  {
    if n < 0 then "-" + NatToString(-n) else NatToString(n)
  }

  /** `buildDownloadError`. */
  function DownloadError(url: string, status: int, statusText: string): string
  {
    "download from " + url + " failed with " + IntToString(status) + " " + statusText
  }

  /** What a write of `data` leaves in a file opened without `O_TRUNC`: the new bytes over
      the start of the old content, and whatever of the old content lies beyond them. */
  function WrittenOver(previous: Bytes, data: Bytes): (r: Bytes)
    ensures |r| == if |previous| > |data| then |previous| else |data|
    ensures r[..|data|] == data
    ensures |previous| > |data| ==> r[|data|..] == previous[|data|..]
  {
    data + (if |previous| > |data| then previous[|data|..] else [])
  }

  /** `os.OpenFile(p, O_CREATE|O_WRONLY)` followed by writing `data`. */
  method WriteNoTrunc(fs: FileSystem<Bytes>, p: Path, data: Bytes)
    modifies fs
    ensures fs.files == old(fs.files)[p := WrittenOver(Previous(old(fs.files), p), data)]
  {
    var previous := Previous(fs.files, p);
    fs.Write(p, WrittenOver(previous, data));
  }

  /** The `%x` formatting of a digest: two lower-case hex digits per byte. */
  const HexDigits: string := "0123456789abcdef"

  function HexByte(b: bv8): string
  {
    [HexDigits[(b as int) / 16], HexDigits[(b as int) % 16]]
  }

  function Hex(bytes: Bytes): (h: string)
    ensures |h| == 2 * |bytes|
    ensures forall i :: 0 <= i < |h| ==> h[i] in HexDigits
  {
    if |bytes| == 0 then "" else HexByte(bytes[0]) + Hex(bytes[1..])
  }

  function DigitValue(c: char): Option<nat>
  {
    if '0' <= c <= '9' then Some(c as int - '0' as int)
    else if 'a' <= c <= 'f' then Some(c as int - 'a' as int + 10)
    else None
  }

  /** One byte from two hex digits. */
  function UnhexPair(hi: char, lo: char): Option<bv8>
  {
    match (DigitValue(hi), DigitValue(lo))
    case (Some(h), Some(l)) => if h < 16 && l < 16 then Some((h * 16 + l) as bv8) else None
    case _ => None
  }

  /** Reading lower-case hex back into bytes. */
  function Unhex(h: string): Option<Bytes>
    decreases |h|
  {
    if |h| == 0 then Some([])
    else if |h| == 1 then None
    else match (UnhexPair(h[0], h[1]), Unhex(h[2..]))
      case (Some(b), Some(rest)) => Some([b] + rest)
      case _ => None
  }

  lemma HexByteDigits(b: bv8)
    ensures DigitValue(HexByte(b)[0]) == Some((b as int) / 16)
    ensures DigitValue(HexByte(b)[1]) == Some((b as int) % 16)
  {
    forall k | 0 <= k < 16 ensures DigitValue(HexDigits[k]) == Some(k) {
      if k < 10 {
        assert HexDigits[k] as int == '0' as int + k;
      } else {
        assert HexDigits[k] as int == 'a' as int + (k - 10);
      }
    }
  }

  lemma UnhexByte(b: bv8)
    ensures UnhexPair(HexByte(b)[0], HexByte(b)[1]) == Some(b)
  {
    HexByteDigits(b);
    var hi, lo := (b as int) / 16, (b as int) % 16;
    assert hi < 16 && lo < 16;
    assert (hi * 16 + lo) as bv8 == b;
  }

  lemma UnhexCons(b: bv8, rest: string)
    ensures Unhex(HexByte(b) + rest) == if Unhex(rest).Some? then Some([b] + Unhex(rest).value) else None
  {
    var h := HexByte(b) + rest;
    assert h[0] == HexByte(b)[0] && h[1] == HexByte(b)[1] && h[2..] == rest;
    UnhexByte(b);
  }

  /** The hex form loses nothing: it reads back as the digest it was made from. */
  lemma {:induction false} HexRoundTrip(bytes: Bytes)
    ensures Unhex(Hex(bytes)) == Some(bytes)
  {
    if |bytes| > 0 {
      UnhexCons(bytes[0], Hex(bytes[1..]));
      HexRoundTrip(bytes[1..]);
      assert [bytes[0]] + bytes[1..] == bytes;
    }
  }

  /** The acceptance rule of `VerifyChecksums` for contents already read: no expected
      sums means no check; otherwise the lower-case hex SHA-1 must be one of them. */
  predicate ChecksumAccepts(content: Bytes, checksums: seq<string>, sha1: Bytes -> Bytes)
  {
    |checksums| == 0 || Hex(sha1(content)) in checksums
  }

  /** Sums are compared as written: one using a letter that is not lower-case hex (an
      upper-case digest, say) never matches, so a list of only such sums rejects every
      file. */
  lemma NonLowerHexNeverMatches(content: Bytes, checksums: seq<string>, sha1: Bytes -> Bytes)
    requires |checksums| > 0
    requires forall i :: 0 <= i < |checksums| ==> exists j :: 0 <= j < |checksums[i]| && checksums[i][j] !in HexDigits
    ensures !ChecksumAccepts(content, checksums, sha1)
  {
    var h := Hex(sha1(content));
    forall i | 0 <= i < |checksums| ensures checksums[i] != h {
      var j :| 0 <= j < |checksums[i]| && checksums[i][j] !in HexDigits;
      if |checksums[i]| == |h| {
        assert h[j] in HexDigits;
      }
    }
  }

  /** `VerifyChecksums`. */
  method VerifyChecksums(fs: FileSystem<Bytes>, filePath: Path, checksums: seq<string>, sha1: Bytes -> Bytes)
    returns (err: Outcome)
    ensures err == Pass <==>
              |checksums| == 0 || (filePath in fs.files && ChecksumAccepts(fs.files[filePath], checksums, sha1))
    ensures err.Fail? && filePath in fs.files ==>
              err.msg == "checksum " + Hex(sha1(fs.files[filePath])) + " of " + filePath + " was not expected"
  {
    if |checksums| == 0 {
      return Pass;
    }
    var read := fs.Read(filePath);
    if read.Err? {
      return Fail("failed to open file for checksum: " + read.msg);
    }
    var actual := Hex(sha1(read.value));
    var i := 0;
    while i < |checksums|
      invariant i <= |checksums|
      invariant actual !in checksums[..i]
    {
      if checksums[i] == actual {
        return Pass;
      }
      assert checksums[..i + 1] == checksums[..i] + [checksums[i]];
      i := i + 1;
    }
    assert checksums[..i] == checksums;
    err := Fail("checksum " + actual + " of " + filePath + " was not expected");
  }

  /** A library's Maven coordinate `group:artifact:version`. */
  datatype Coordinate = Coordinate(group: string, artifact: string, version: string)

  function Colons(s: string): nat
  {
    if |s| == 0 then 0 else (if s[0] == ':' then 1 else 0) + Colons(s[1..])
  }

  lemma {:induction false} ColonsAppend(a: string, b: string)
    ensures Colons(a + b) == Colons(a) + Colons(b)
  {
    if |a| > 0 {
      assert (a + b)[1..] == a[1..] + b;
      ColonsAppend(a[1..], b);
    } else {
      assert a + b == b;
    }
  }

  lemma {:induction false} NoColons(s: string)
    requires ':' !in s
    ensures Colons(s) == 0
  {
    if |s| > 0 {
      NoColons(s[1..]);
    }
  }

  /** Joining with a first element in front of a non-empty list. */
  lemma JoinCons(x: string, parts: seq<string>, sep: string)
    requires |parts| >= 1
    ensures Text.Join([x] + parts, sep) == x + sep + Text.Join(parts, sep)
  {
    assert ([x] + parts)[1..] == parts;
  }

  /** `strings.SplitN(coordinates, ":", 3)`, keeping only a split into three parts. */
  function ParseCoordinate(coordinates: string): (r: Option<Coordinate>)
    ensures r.Some? ==> ':' !in r.value.group && ':' !in r.value.artifact
    ensures r.Some? ==> r.value.group + ":" + r.value.artifact + ":" + r.value.version == coordinates
  {
    var parts := Text.SplitN(coordinates, ':', 3);
    if |parts| < 3 then None
    else
      ThreeParts(coordinates);
      Some(Coordinate(parts[0], parts[1], parts[2]))
  }

  lemma ThreeParts(coordinates: string)
    requires |Text.SplitN(coordinates, ':', 3)| == 3
    ensures var parts := Text.SplitN(coordinates, ':', 3);
            parts[0] + ":" + parts[1] + ":" + parts[2] == coordinates
  {
    var parts := Text.SplitN(coordinates, ':', 3);
    assert parts == [parts[0]] + [parts[1], parts[2]];
    JoinCons(parts[0], [parts[1], parts[2]], ":");
    assert [parts[1], parts[2]] == [parts[1]] + [parts[2]];
    JoinCons(parts[1], [parts[2]], ":");
  }

  /** A coordinate is rejected exactly when it has fewer than two colons; any further colon
      stays in the version. */
  lemma CoordinateNeedsTwoColons(coordinates: string)
    ensures ParseCoordinate(coordinates).None? <==> Colons(coordinates) < 2
    ensures ParseCoordinate(coordinates).Some? ==>
              Colons(ParseCoordinate(coordinates).value.version) == Colons(coordinates) - 2
  {
    var parts := Text.SplitN(coordinates, ':', 3);
    if |parts| == 1 {
      assert coordinates == parts[0];
      NoColons(coordinates);
    } else if |parts| == 2 {
      assert parts[1..] == [parts[1]];
      assert coordinates == parts[0] + ":" + parts[1];
      NoColons(parts[0]);
      NoColons(parts[1]);
      ColonsAppend(parts[0], ":");
      ColonsAppend(parts[0] + ":", parts[1]);
    } else {
      var c := ParseCoordinate(coordinates).value;
      NoColons(c.group);
      NoColons(c.artifact);
      ColonsAppend(c.group, ":");
      ColonsAppend(c.group + ":", c.artifact);
      ColonsAppend(c.group + ":" + c.artifact, ":");
      ColonsAppend(c.group + ":" + c.artifact + ":", c.version);
    }
  }

  function JarName(c: Coordinate): string
  {
    c.artifact + "-" + c.version + ".jar"
  }

  function GroupParts(c: Coordinate): seq<string>
  {
    Text.Split(c.group, '.')
  }

  /** Where a library is stored: outPath/libraries/<group, one directory per
      dot-separated part>/<artifact>/<version>/<artifact>-<version>.jar. */
  function LibraryPath(outPath: Path, c: Coordinate): Path
  {
    var dirOfFile := JoinPath([outPath, ForgeLibrariesSubpath, JoinPath(GroupParts(c)), c.artifact, c.version]);
    JoinPath([dirOfFile, JarName(c)])
  }

  /** The path of a library within a Maven repository: each group part followed by "/",
      then artifact "/" version "/" and the jar name. */
  function UrlPathOf(groupParts: seq<string>, artifact: string, version: string): string
  {
    Text.Concat(seq(|groupParts|, i requires 0 <= i < |groupParts| => groupParts[i] + "/"))
      + artifact + "/" + version + "/" + artifact + "-" + version + ".jar"
  }

  /** `DownloadLibrary`'s `strings.Builder` loop. */
  method BuildUrlPath(groupParts: seq<string>, artifact: string, version: string) returns (urlPath: string)
    ensures urlPath == UrlPathOf(groupParts, artifact, version)
  {
    var built := "";
    var i := 0;
    while i < |groupParts|
      invariant i <= |groupParts|
      invariant built == Text.Concat(seq(i, k requires 0 <= k < i => groupParts[k] + "/"))
    {
      ConcatSnoc(seq(i, k requires 0 <= k < i => groupParts[k] + "/"), groupParts[i] + "/");
      assert seq(i, k requires 0 <= k < i => groupParts[k] + "/") + [groupParts[i] + "/"]
             == seq(i + 1, k requires 0 <= k < i + 1 => groupParts[k] + "/");
      built := built + groupParts[i] + "/";
      i := i + 1;
    }
    assert seq(i, k requires 0 <= k < i => groupParts[k] + "/")
           == seq(|groupParts|, k requires 0 <= k < |groupParts| => groupParts[k] + "/");
    urlPath := built + artifact + "/" + version + "/" + artifact + "-" + version + ".jar";
  }

  lemma {:induction false} ConcatSnoc(parts: seq<string>, x: string)
    ensures Text.Concat(parts + [x]) == Text.Concat(parts) + x
  {
    if |parts| > 0 {
      assert (parts + [x])[1..] == parts[1..] + [x];
      ConcatSnoc(parts[1..], x);
    } else {
      assert parts + [x] == [x];
    }
  }

  /** Each part followed by "/" is the parts joined by "/", plus a final "/". */
  lemma {:induction false} ConcatSlashed(parts: seq<string>)
    requires |parts| >= 1
    ensures Text.Concat(seq(|parts|, i requires 0 <= i < |parts| => parts[i] + "/")) == Text.Join(parts, "/") + "/"
  {
    var slashed := seq(|parts|, i requires 0 <= i < |parts| => parts[i] + "/");
    if |parts| > 1 {
      assert slashed[1..] == seq(|parts| - 1, i requires 0 <= i < |parts| - 1 => parts[1..][i] + "/");
      ConcatSlashed(parts[1..]);
    } else {
      assert slashed[1..] == [];
    }
  }

  lemma {:induction false} NonEmptyAll(elems: seq<string>)
    requires forall i :: 0 <= i < |elems| ==> elems[i] != ""
    ensures NonEmpty(elems) == elems
  {
    if |elems| > 0 {
      NonEmptyAll(elems[1..]);
      assert [elems[0]] + elems[1..] == elems;
    }
  }

  /** When no name in a coordinate is empty, the library's place under `outPath` mirrors
      its place in the repository: the local path is outPath + "/libraries/" followed by
      exactly the URL path. */
  lemma LocalPathMirrorsUrlPath(outPath: Path, c: Coordinate)
    requires outPath != "" && c.artifact != "" && c.version != ""
    requires forall i :: 0 <= i < |GroupParts(c)| ==> GroupParts(c)[i] != ""
    ensures LibraryPath(outPath, c)
              == outPath + "/" + ForgeLibrariesSubpath + "/" + UrlPathOf(GroupParts(c), c.artifact, c.version)
  {
    var gp := GroupParts(c);
    var g := GroupPath(gp);
    var jar := JarName(c);
    var dir := JoinPath([outPath, ForgeLibrariesSubpath, g, c.artifact, c.version]);
    JoinFive(outPath, ForgeLibrariesSubpath, g, c.artifact, c.version);
    JoinPathFile(dir, jar, jar);
    ConcatSlashed(gp);
    assert UrlPathOf(gp, c.artifact, c.version) == (g + "/") + c.artifact + "/" + c.version + "/" + jar;
  }

  /** A group's directories: its parts joined by "/", none of them dropped. */
  lemma GroupPath(gp: seq<string>) returns (g: string)
    requires |gp| >= 1
    requires forall i :: 0 <= i < |gp| ==> gp[i] != ""
    ensures g == JoinPath(gp) == Text.Join(gp, "/") && g != ""
  {
    NonEmptyAll(gp);
    g := Text.Join(gp, "/");
    if |gp| > 1 {
      assert g == gp[0] + "/" + Text.Join(gp[1..], "/");
    }
    assert |gp[0]| > 0;
  }

  lemma JoinFive(a: string, b: string, c: string, d: string, e: string)
    requires a != "" && b != "" && c != "" && d != "" && e != ""
    ensures JoinPath([a, b, c, d, e]) == a + "/" + b + "/" + c + "/" + d + "/" + e
  {
    var elems := [a, b, c, d, e];
    NonEmptyAll(elems);
    assert Text.Join([e], "/") == e;
    JoinCons(d, [e], "/");
    assert [d] + [e] == [d, e];
    JoinCons(c, [d, e], "/");
    assert [c] + [d, e] == [c, d, e];
    JoinCons(b, [c, d, e], "/");
    assert [b] + [c, d, e] == [b, c, d, e];
    JoinCons(a, [b, c, d, e], "/");
    assert [a] + [b, c, d, e] == elems;
  }

  /** What turning a repository and a library's path within it into the URL to fetch
      gives: `url.Parse` of the repository, then `Parse` of the path against it, printed
      back with `String()`; or the error of either parse. */
  datatype Resolution = Resolved(url: string) | BadRepository(msg: string) | BadReference(msg: string)

  /** The repository a library names, or the main Minecraft library repository when it
      names none. */
  function Repository(repoUrl: string): string
  {
    if repoUrl == "" then MainLibrariesRepo else repoUrl
  }

  /** Where a library is fetched from: its repository path resolved against its
      repository. */
  function LibraryUrl(repoUrl: string, c: Coordinate, resolve: (string, string) -> Resolution): Resolution
  {
    resolve(Repository(repoUrl), UrlPathOf(GroupParts(c), c.artifact, c.version))
  }

  /** A GET that answered 200. */
  predicate Succeeded(h: HttpResult)
  {
    h.Response? && h.status == StatusOK
  }

  /** A file's contents, or nothing when it does not exist. */
  function Previous(files: map<Path, Bytes>, p: Path): Bytes
  {
    if p in files then files[p] else []
  }

  /** What `DownloadLibrary` leaves behind, and which URL (if any) it fetched. */
  datatype Download = Download(files: map<Path, Bytes>, err: Outcome, fetched: Option<string>)

  /** The fetch half of `DownloadLibrary`: GET the URL, write the body over the file
      without truncating it, and remove it again if it then fails verification. */
  function FetchLibrarySpec(files: map<Path, Bytes>, path: Path, url: string, checksums: seq<string>,
                            sha1: Bytes -> Bytes, fetch: string -> HttpResult): Download
  {
    match fetch(url)
    case NetError(m) => Download(files, Fail("failed to retrieve library: " + m), Some(url))
    case Response(status, text, body) =>
      if status != StatusOK then Download(files, Fail(DownloadError(url, status, text)), Some(url))
      else
        var written := WrittenOver(Previous(files, path), body);
        if ChecksumAccepts(written, checksums, sha1) then Download(files[path := written], Pass, Some(url))
        else
          Download(files - {path},
                   Fail("checksum " + Hex(sha1(written)) + " of " + path + " was not expected"), Some(url))
  }

  /** What a fetch promises: a GET that fails or answers other than 200 is an error and
      writes nothing; after a 200 the step succeeds exactly when what the write leaves
      in the file verifies, the file then holds it, and otherwise the file is gone; no
      other file changes. */
  lemma FetchLibraryContract(files: map<Path, Bytes>, path: Path, url: string, checksums: seq<string>,
                             sha1: Bytes -> Bytes, fetch: string -> HttpResult)
    ensures var r := FetchLibrarySpec(files, path, url, checksums, sha1, fetch);
            && r.fetched == Some(url)
            && (!Succeeded(fetch(url)) ==> r.err.Fail? && r.files == files)
            && (Succeeded(fetch(url)) ==>
                  var written := WrittenOver(Previous(files, path), fetch(url).body);
                  && (r.err == Pass <==> ChecksumAccepts(written, checksums, sha1))
                  && (r.err == Pass ==> r.files == files[path := written])
                  && (r.err.Fail? ==> r.files == files - {path} && path !in r.files))
            && (r.err == Pass ==> path in r.files && ChecksumAccepts(r.files[path], checksums, sha1))
            && r.files - {path} == files - {path}
  {
  }

  function DownloadLibrarySpec(files: map<Path, Bytes>, outPath: Path, coordinates: string, repoUrl: string,
                               checksums: seq<string>, sha1: Bytes -> Bytes, fetch: string -> HttpResult,
                               resolve: (string, string) -> Resolution): Download
  {
    match ParseCoordinate(coordinates)
    case None => Download(files, Fail("invalid library coordinate " + coordinates), None)
    case Some(c) =>
      var path := LibraryPath(outPath, c);
      if path in files && ChecksumAccepts(files[path], checksums, sha1) then Download(files, Pass, None)
      else match LibraryUrl(repoUrl, c, resolve)
        case BadRepository(m) => Download(files, Fail("failed to parse repo URL: " + m), None)
        case BadReference(m) => Download(files, Fail("failed to build full URL: " + m), None)
        case Resolved(url) => FetchLibrarySpec(files, path, url, checksums, sha1, fetch)
  }

  /** What `DownloadLibrary` promises: a malformed coordinate, or a repository or path
      that does not parse as a URL, is refused before anything is fetched or touched; a
      library already in place that verifies is left alone and not fetched, one that
      does not verify is fetched again, with the fetch's own promises; on success the
      library is in place and verifies; and no other file changes. */
  lemma DownloadLibraryContract(files: map<Path, Bytes>, outPath: Path, coordinates: string, repoUrl: string,
                                checksums: seq<string>, sha1: Bytes -> Bytes, fetch: string -> HttpResult,
                                resolve: (string, string) -> Resolution)
    ensures var r := DownloadLibrarySpec(files, outPath, coordinates, repoUrl, checksums, sha1, fetch, resolve);
            && (ParseCoordinate(coordinates).None? ==> r.files == files && r.err.Fail? && r.fetched.None?)
            && (ParseCoordinate(coordinates).Some? ==>
                  var c := ParseCoordinate(coordinates).value;
                  var path := LibraryPath(outPath, c);
                  var loc := LibraryUrl(repoUrl, c, resolve);
                  && (path in files && ChecksumAccepts(files[path], checksums, sha1) ==>
                        r == Download(files, Pass, None))
                  && (!(path in files && ChecksumAccepts(files[path], checksums, sha1)) ==>
                        && (!loc.Resolved? ==> r.files == files && r.err.Fail? && r.fetched.None?)
                        && (loc.Resolved? ==>
                              && r.fetched == Some(loc.url)
                              && (!Succeeded(fetch(loc.url)) ==> r.err.Fail? && r.files == files)
                              && (Succeeded(fetch(loc.url)) ==>
                                    var written := WrittenOver(Previous(files, path), fetch(loc.url).body);
                                    && (r.err == Pass <==> ChecksumAccepts(written, checksums, sha1))
                                    && (r.err == Pass ==> r.files == files[path := written])
                                    && (r.err.Fail? ==> r.files == files - {path} && path !in r.files))))
                  && (r.err == Pass ==> path in r.files && ChecksumAccepts(r.files[path], checksums, sha1))
                  && r.files - {path} == files - {path})
  {
    if ParseCoordinate(coordinates).Some? {
      var c := ParseCoordinate(coordinates).value;
      var loc := LibraryUrl(repoUrl, c, resolve);
      if loc.Resolved? {
        FetchLibraryContract(files, LibraryPath(outPath, c), loc.url, checksums, sha1, fetch);
      }
    }
  }

  /** The overwrite without truncation: fetching a library again over a longer corrupt
      copy leaves that copy's tail behind the new bytes, so (with any sums given) the
      result is checked against different contents than were downloaded. */
  lemma RedownloadKeepsOldTail(previous: Bytes, body: Bytes)
    requires |previous| > |body|
    ensures WrittenOver(previous, body) != body
    ensures WrittenOver(previous, body)[|body|..] == previous[|body|..]
  {
    assert |WrittenOver(previous, body)| == |previous|;
  }

  /** `DownloadLibrary`, with the URL parsing as `resolve`. */
  method DownloadLibrary(fs: FileSystem<Bytes>, outPath: Path, coordinates: string, repoUrl: string,
                         expectedChecksums: seq<string>, sha1: Bytes -> Bytes, fetch: string -> HttpResult,
                         resolve: (string, string) -> Resolution)
    returns (err: Outcome, ghost fetched: Option<string>)
    modifies fs
    ensures Download(fs.files, err, fetched)
              == DownloadLibrarySpec(old(fs.files), outPath, coordinates, repoUrl, expectedChecksums, sha1, fetch, resolve)
  {
    fetched := None;
    var coordParts := Text.SplitN(coordinates, ':', 3);
    if |coordParts| < 3 {
      return Fail("invalid library coordinate " + coordinates), None;
    }
    var c := ParseCoordinate(coordinates).value;
    var groupParts := Text.Split(c.group, '.');
    var pathOfFile := LibraryPath(outPath, c);

    if fs.Exists(pathOfFile) {
      var verified := VerifyChecksums(fs, pathOfFile, expectedChecksums, sha1);
      if verified == Pass {
        return Pass, None;
      }
    }

    var urlPath := BuildUrlPath(groupParts, c.artifact, c.version);
    var repo := if repoUrl == "" then MainLibrariesRepo else repoUrl;
    var fullUrl := resolve(repo, urlPath);
    if fullUrl.BadRepository? {
      return Fail("failed to parse repo URL: " + fullUrl.msg), None;
    }
    if fullUrl.BadReference? {
      return Fail("failed to build full URL: " + fullUrl.msg), None;
    }
    fetched := Some(fullUrl.url);
    err := FetchLibrary(fs, pathOfFile, fullUrl.url, expectedChecksums, sha1, fetch);
  }

  /** From the GET on: write, verify, and remove what does not verify. */
  method FetchLibrary(fs: FileSystem<Bytes>, pathOfFile: Path, fullUrl: string, expectedChecksums: seq<string>,
                      sha1: Bytes -> Bytes, fetch: string -> HttpResult)
    returns (err: Outcome)
    modifies fs
    ensures Download(fs.files, err, Some(fullUrl))
              == FetchLibrarySpec(old(fs.files), pathOfFile, fullUrl, expectedChecksums, sha1, fetch)
  {
    var resp := fetch(fullUrl);
    if resp.NetError? {
      return Fail("failed to retrieve library: " + resp.msg);
    }
    if resp.status != StatusOK {
      return Fail(DownloadError(fullUrl, resp.status, resp.statusText));
    }
    WriteNoTrunc(fs, pathOfFile, resp.body);
    err := VerifyChecksums(fs, pathOfFile, expectedChecksums, sha1);
    if err.Fail? {
      var _ := fs.Remove(pathOfFile);
    }
  }

  /** One entry of `version.json`'s `libraries`. */
  datatype Library = Library(name: string, url: string, serverreq: bool, checksums: seq<string>)

  /** The decoded `version.json`. */
  datatype ForgeVersion = ForgeVersion(inheritsFrom: string, libraries: seq<Library>)

  /** What a run of steps over the filesystem leaves. */
  datatype Effect = Effect(files: map<Path, Bytes>, err: Outcome)

  /** The library loop of `PrepareLibrariesFromForgeVersionJson`: the server-side libraries
      in manifest order, stopping at the first failure. */
  function LibrariesSpec(files: map<Path, Bytes>, basePath: Path, libs: seq<Library>,
                         sha1: Bytes -> Bytes, fetch: string -> HttpResult,
                         resolve: (string, string) -> Resolution): Effect
    decreases |libs|
  {
    if |libs| == 0 then Effect(files, Pass)
    else if !libs[0].serverreq then LibrariesSpec(files, basePath, libs[1..], sha1, fetch, resolve)
    else
      var d := DownloadLibrarySpec(files, basePath, libs[0].name, libs[0].url, libs[0].checksums, sha1, fetch, resolve);
      if d.err.Fail? then Effect(d.files, Fail("failed to download " + libs[0].name + ": " + d.err.msg))
      else LibrariesSpec(d.files, basePath, libs[1..], sha1, fetch, resolve)
  }

  function ServerOnly(libs: seq<Library>): seq<Library>
  {
    if |libs| == 0 then []
    else if libs[0].serverreq then [libs[0]] + ServerOnly(libs[1..])
    else ServerOnly(libs[1..])
  }

  /** Client-only libraries play no part: the outcome is that of the server-side ones. */
  lemma {:induction false} OnlyServerLibraries(files: map<Path, Bytes>, basePath: Path, libs: seq<Library>,
                                               sha1: Bytes -> Bytes, fetch: string -> HttpResult,
                                               resolve: (string, string) -> Resolution)
    ensures LibrariesSpec(files, basePath, libs, sha1, fetch, resolve)
              == LibrariesSpec(files, basePath, ServerOnly(libs), sha1, fetch, resolve)
    decreases |libs|
  {
    if |libs| > 0 {
      if libs[0].serverreq {
        var s := ServerOnly(libs);
        assert s[0] == libs[0] && s[1..] == ServerOnly(libs[1..]);
        var d := DownloadLibrarySpec(files, basePath, libs[0].name, libs[0].url, libs[0].checksums, sha1, fetch, resolve);
        OnlyServerLibraries(d.files, basePath, libs[1..], sha1, fetch, resolve);
      } else {
        OnlyServerLibraries(files, basePath, libs[1..], sha1, fetch, resolve);
      }
    }
  }

  function ServerJarPath(basePath: Path, version: string): Path
  {
    JoinPath([basePath, "minecraft_server." + version + ".jar"])
  }

  /** A character `html/template` replaces in text it inserts. */
  predicate Escaped(c: char)
  {
    c == '\0' || c == '"' || c == '&' || c == '\'' || c == '+' || c == '<' || c == '>'
  }

  /** A replaced character that no replacement contains: all but "&". */
  predicate Removed(c: char)
  {
    Escaped(c) && c != '&'
  }

  /** What `html/template` writes for one character of inserted text: an entity for the
      characters markup gives a meaning to, U+FFFD for NUL, the character itself
      otherwise. */
  function EscapeChar(c: char): (r: string)
    ensures forall i :: 0 <= i < |r| ==> !Removed(r[i])
    ensures !Escaped(c) ==> r == [c]
  {
    if c == '\0' then "\U{FFFD}"
    else if c == '"' then "&#34;"
    else if c == '&' then "&amp;"
    else if c == '\'' then "&#39;"
    else if c == '+' then "&#43;"
    else if c == '<' then "&lt;"
    else if c == '>' then "&gt;"
    else [c]
  }

  /** The escaping `html/template` applies to a value inserted into text: no character
      with a meaning in markup other than "&" (nor NUL) is left, and a value that has
      none of the replaced characters comes out as it went in. */
  function HtmlEscape(s: string): (r: string)
    ensures forall i :: 0 <= i < |r| ==> !Removed(r[i])
    ensures (forall i :: 0 <= i < |s| ==> !Escaped(s[i])) ==> r == s
  {
    if |s| == 0 then ""
    else
      var head := EscapeChar(s[0]);
      var tail := HtmlEscape(s[1..]);
      assert forall i :: |head| <= i < |head + tail| ==> (head + tail)[i] == tail[i - |head|];
      head + tail
  }

  /** The vanilla server download URL for a version, from the `minecraftServerUrl`
      template: the version, escaped, in both places. */
  function ServerJarUrl(version: string): string
  {
    var v := HtmlEscape(version);
    "https://s3.amazonaws.com/Minecraft.Download/versions/" + v + "/minecraft_server." + v + ".jar"
  }

  /** An ordinary version such as "1.12.2" goes into the URL as it is, while one holding
      a quote, "'", "+", "<", ">" or NUL does not. */
  lemma ServerJarUrlEscapes(version: string)
    ensures (forall i :: 0 <= i < |version| ==> !Escaped(version[i])) ==>
              ServerJarUrl(version)
                == "https://s3.amazonaws.com/Minecraft.Download/versions/" + version + "/minecraft_server." + version + ".jar"
    ensures (exists i :: 0 <= i < |version| && Removed(version[i])) ==> HtmlEscape(version) != version
  {
  }

  /** `DownloadMinecraftServer`: nothing to do when the jar is present; otherwise fetch it
      and write it. */
  function ServerJarSpec(files: map<Path, Bytes>, basePath: Path, version: string, fetch: string -> HttpResult): (r: Effect)
    ensures ServerJarPath(basePath, version) in files ==> r == Effect(files, Pass)
    ensures ServerJarPath(basePath, version) !in files ==>
              (r.err == Pass <==> Succeeded(fetch(ServerJarUrl(version))))
    ensures ServerJarPath(basePath, version) !in files && r.err == Pass ==>
              && ServerJarPath(basePath, version) in r.files
              && r.files[ServerJarPath(basePath, version)] == fetch(ServerJarUrl(version)).body
    ensures r.err == Pass ==> ServerJarPath(basePath, version) in r.files
    ensures r.files - {ServerJarPath(basePath, version)} == files - {ServerJarPath(basePath, version)}
    ensures r.err.Fail? ==> r.files == files
  {
    var outFilePath := ServerJarPath(basePath, version);
    if outFilePath in files then Effect(files, Pass)
    else
      var url := ServerJarUrl(version);
      match fetch(url)
      case NetError(m) => Effect(files, Fail("failed to download minecraft server: " + m))
      case Response(status, text, body) =>
        if status != StatusOK then Effect(files, Fail(DownloadError(url, status, text)))
        else Effect(files[outFilePath := body], Pass)
  }

  method DownloadMinecraftServer(fs: FileSystem<Bytes>, basePath: Path, version: string, fetch: string -> HttpResult)
    returns (err: Outcome)
    modifies fs
    ensures Effect(fs.files, err) == ServerJarSpec(old(fs.files), basePath, version, fetch)
  {
    var outFilePath := ServerJarPath(basePath, version);
    if fs.Exists(outFilePath) {
      return Pass;
    }
    var url := ServerJarUrl(version);
    var resp := fetch(url);
    if resp.NetError? {
      return Fail("failed to download minecraft server: " + resp.msg);
    }
    if resp.status != StatusOK {
      return Fail(DownloadError(url, resp.status, resp.statusText));
    }
    WriteNoTrunc(fs, outFilePath, resp.body);
    assert WrittenOver([], resp.body) == resp.body;
    err := Pass;
  }

  /** `PrepareLibrariesFromForgeVersionJson` after decoding: the libraries, then the server
      jar, whose error is dropped. */
  function FromVersionJsonSpec(files: map<Path, Bytes>, basePath: Path, content: ForgeVersion,
                               sha1: Bytes -> Bytes, fetch: string -> HttpResult,
                               resolve: (string, string) -> Resolution): Effect
  {
    var libs := LibrariesSpec(files, basePath, content.libraries, sha1, fetch, resolve);
    if libs.err.Fail? then libs
    else Effect(ServerJarSpec(libs.files, basePath, content.inheritsFrom, fetch).files, Pass)
  }

  /** A failure to fetch the server jar is never reported: once the libraries are in
      place the step succeeds. */
  lemma ServerJarErrorDropped(files: map<Path, Bytes>, basePath: Path, content: ForgeVersion,
                              sha1: Bytes -> Bytes, fetch: string -> HttpResult,
                              resolve: (string, string) -> Resolution)
    ensures (FromVersionJsonSpec(files, basePath, content, sha1, fetch, resolve).err == Pass)
            == (LibrariesSpec(files, basePath, content.libraries, sha1, fetch, resolve).err == Pass)
  {
  }

  /** `PrepareLibrariesFromForgeVersionJson` on what decoding a `version.json` gives: a
      decoding error is returned as it is. */
  function VersionJsonSpec(files: map<Path, Bytes>, basePath: Path, decoded: Result<ForgeVersion>,
                           sha1: Bytes -> Bytes, fetch: string -> HttpResult,
                           resolve: (string, string) -> Resolution): Effect
  {
    match decoded
    case Err(m) => Effect(files, Fail(m))
    case Ok(content) => FromVersionJsonSpec(files, basePath, content, sha1, fetch, resolve)
  }

  /** `PrepareLibrariesFromForgeVersionJson`, with the JSON decoding as input. */
  method PrepareLibrariesFromForgeVersionJson(fs: FileSystem<Bytes>, basePath: Path, decoded: Result<ForgeVersion>,
                                              sha1: Bytes -> Bytes, fetch: string -> HttpResult,
                                              resolve: (string, string) -> Resolution)
    returns (err: Outcome)
    modifies fs
    ensures decoded.Err? ==> err == Fail(decoded.msg) && fs.files == old(fs.files)
    ensures Effect(fs.files, err) == VersionJsonSpec(old(fs.files), basePath, decoded, sha1, fetch, resolve)
  {
    if decoded.Err? {
      return Fail(decoded.msg);
    }
    var content := decoded.value;
    var i := 0;
    while i < |content.libraries|
      invariant i <= |content.libraries|
      invariant LibrariesSpec(old(fs.files), basePath, content.libraries, sha1, fetch, resolve)
                  == LibrariesSpec(fs.files, basePath, content.libraries[i..], sha1, fetch, resolve)
    {
      var library := content.libraries[i];
      assert content.libraries[i..][1..] == content.libraries[i + 1..];
      if library.serverreq {
        var e, _ := DownloadLibrary(fs, basePath, library.name, library.url, library.checksums, sha1, fetch, resolve);
        if e.Fail? {
          return Fail("failed to download " + library.name + ": " + e.msg);
        }
      }
      i := i + 1;
    }
    var _ := DownloadMinecraftServer(fs, basePath, content.inheritsFrom, fetch);
    err := Pass;
  }

  /** A jar entry: its name and, for a `version.json`, what opening and decoding it gives. */
  datatype ZipEntry = ZipEntry(name: string, manifest: Result<ForgeVersion>)

  predicate IsVersionJson(e: ZipEntry)
  {
    e.name == "version.json"
  }

  predicate HasVersionJson(entries: seq<ZipEntry>)
  {
    exists i :: 0 <= i < |entries| && IsVersionJson(entries[i])
  }

  /** The entry loop of `PrepareLibrariesForForge`: every `version.json` entry in jar
      order, stopping at the first failure; other entries are passed over. */
  function ManifestsSpec(files: map<Path, Bytes>, basePath: Path, entries: seq<ZipEntry>,
                         sha1: Bytes -> Bytes, fetch: string -> HttpResult,
                         resolve: (string, string) -> Resolution): Effect
    decreases |entries|
  {
    if |entries| == 0 then Effect(files, Pass)
    else if !IsVersionJson(entries[0]) then ManifestsSpec(files, basePath, entries[1..], sha1, fetch, resolve)
    else
      var e := VersionJsonSpec(files, basePath, entries[0].manifest, sha1, fetch, resolve);
      if e.err.Fail? then e else ManifestsSpec(e.files, basePath, entries[1..], sha1, fetch, resolve)
  }

  /** The entry loop passes over an entry that is not a `version.json`. */
  lemma ManifestsSkip(files: map<Path, Bytes>, basePath: Path, entries: seq<ZipEntry>, i: nat,
                      sha1: Bytes -> Bytes, fetch: string -> HttpResult, resolve: (string, string) -> Resolution)
    requires i < |entries| && !IsVersionJson(entries[i])
    ensures ManifestsSpec(files, basePath, entries[i..], sha1, fetch, resolve)
              == ManifestsSpec(files, basePath, entries[i + 1..], sha1, fetch, resolve)
  {
    assert entries[i..][0] == entries[i];
    assert entries[i..][1..] == entries[i + 1..];
  }

  /** The entry loop processes a `version.json` entry and stops if that fails. */
  lemma ManifestsStep(files: map<Path, Bytes>, basePath: Path, entries: seq<ZipEntry>, i: nat,
                      sha1: Bytes -> Bytes, fetch: string -> HttpResult, resolve: (string, string) -> Resolution)
    requires i < |entries| && IsVersionJson(entries[i])
    ensures var e := VersionJsonSpec(files, basePath, entries[i].manifest, sha1, fetch, resolve);
            ManifestsSpec(files, basePath, entries[i..], sha1, fetch, resolve)
              == if e.err.Fail? then e else ManifestsSpec(e.files, basePath, entries[i + 1..], sha1, fetch, resolve)
  {
    assert entries[i..][0] == entries[i];
    assert entries[i..][1..] == entries[i + 1..];
  }

  /** Entries none of which is a `version.json` leave everything as it was. */
  lemma {:induction false} NoManifests(files: map<Path, Bytes>, basePath: Path, entries: seq<ZipEntry>,
                                       sha1: Bytes -> Bytes, fetch: string -> HttpResult,
                                       resolve: (string, string) -> Resolution)
    requires !HasVersionJson(entries)
    ensures ManifestsSpec(files, basePath, entries, sha1, fetch, resolve) == Effect(files, Pass)
    decreases |entries|
  {
    if |entries| > 0 {
      assert !IsVersionJson(entries[0]);
      assert !HasVersionJson(entries[1..]) by {
        forall i | 0 <= i < |entries[1..]| ensures !IsVersionJson(entries[1..][i]) {
          assert entries[1..][i] == entries[i + 1];
        }
      }
      NoManifests(files, basePath, entries[1..], sha1, fetch, resolve);
    }
  }

  /** The loop succeeds only when every `version.json` it meets decodes. */
  lemma {:induction false} ManifestsDecode(files: map<Path, Bytes>, basePath: Path, entries: seq<ZipEntry>,
                                           sha1: Bytes -> Bytes, fetch: string -> HttpResult,
                                           resolve: (string, string) -> Resolution)
    ensures ManifestsSpec(files, basePath, entries, sha1, fetch, resolve).err == Pass ==>
              forall i :: 0 <= i < |entries| && IsVersionJson(entries[i]) ==> entries[i].manifest.Ok?
    decreases |entries|
  {
    if |entries| > 0 && ManifestsSpec(files, basePath, entries, sha1, fetch, resolve).err == Pass {
      var next := files;
      if IsVersionJson(entries[0]) {
        next := VersionJsonSpec(files, basePath, entries[0].manifest, sha1, fetch, resolve).files;
      }
      ManifestsDecode(next, basePath, entries[1..], sha1, fetch, resolve);
      forall i | 0 <= i < |entries| && IsVersionJson(entries[i]) ensures entries[i].manifest.Ok? {
        if i > 0 {
          assert entries[1..][i - 1] == entries[i];
        }
      }
    }
  }

  /** `PrepareLibrariesForForge` on the filesystem: open the jar, then process its
      `version.json` entries; a jar that is missing, unreadable or without one is an
      error. */
  function ForgeLibrariesSpec(files: map<Path, Bytes>, forgeJarPath: Path, basePath: Path,
                              unzip: Bytes -> Result<seq<ZipEntry>>, sha1: Bytes -> Bytes,
                              fetch: string -> HttpResult, resolve: (string, string) -> Resolution): Effect
  {
    if forgeJarPath !in files then
      Effect(files, Fail("unable to open forge jar: " + OpenError(forgeJarPath)))
    else match unzip(files[forgeJarPath])
      case Err(m) => Effect(files, Fail("unable to open forge jar: " + m))
      case Ok(entries) =>
        if !HasVersionJson(entries) then Effect(files, Fail("unable to find version.json in " + forgeJarPath))
        else ManifestsSpec(files, basePath, entries, sha1, fetch, resolve)
  }

  /** What preparing a Forge jar's libraries promises: a jar that is missing, does not
      open, or has no `version.json` is an error and nothing is written; success means
      the jar opened, has a `version.json`, and every `version.json` in it decoded. */
  lemma ForgeLibrariesContract(files: map<Path, Bytes>, forgeJarPath: Path, basePath: Path,
                               unzip: Bytes -> Result<seq<ZipEntry>>, sha1: Bytes -> Bytes,
                               fetch: string -> HttpResult, resolve: (string, string) -> Resolution)
    ensures var r := ForgeLibrariesSpec(files, forgeJarPath, basePath, unzip, sha1, fetch, resolve);
            && (forgeJarPath !in files ==> r.err.Fail? && r.files == files)
            && (forgeJarPath in files && unzip(files[forgeJarPath]).Err? ==> r.err.Fail? && r.files == files)
            && (forgeJarPath in files && unzip(files[forgeJarPath]).Ok? && !HasVersionJson(unzip(files[forgeJarPath]).value) ==>
                  r == Effect(files, Fail("unable to find version.json in " + forgeJarPath)))
            && (r.err == Pass ==>
                  && forgeJarPath in files && unzip(files[forgeJarPath]).Ok?
                  && var entries := unzip(files[forgeJarPath]).value;
                  && HasVersionJson(entries)
                  && forall i :: 0 <= i < |entries| && IsVersionJson(entries[i]) ==> entries[i].manifest.Ok?)
  {
    if forgeJarPath in files && unzip(files[forgeJarPath]).Ok? {
      ManifestsDecode(files, basePath, unzip(files[forgeJarPath]).value, sha1, fetch, resolve);
    }
  }

  /** `PrepareLibrariesForForge`. */
  method PrepareLibrariesForForge(fs: FileSystem<Bytes>, forgeJarPath: Path, basePath: Path,
                                  unzip: Bytes -> Result<seq<ZipEntry>>,
                                  sha1: Bytes -> Bytes, fetch: string -> HttpResult,
                                  resolve: (string, string) -> Resolution)
    returns (err: Outcome)
    modifies fs
    ensures Effect(fs.files, err) == ForgeLibrariesSpec(old(fs.files), forgeJarPath, basePath, unzip, sha1, fetch, resolve)
  {
    var read := fs.Read(forgeJarPath);
    if read.Err? {
      return Fail("unable to open forge jar: " + read.msg);
    }
    var r := unzip(read.value);
    if r.Err? {
      return Fail("unable to open forge jar: " + r.msg);
    }
    var found;
    err, found := PrepareVersionJsons(fs, r.value, basePath, sha1, fetch, resolve);
    if err.Fail? {
      return err;
    }
    if !found {
      NoManifests(old(fs.files), basePath, r.value, sha1, fetch, resolve);
      return Fail("unable to find version.json in " + forgeJarPath);
    }
  }

  /** The entry loop of `PrepareLibrariesForForge`, reporting whether it met a
      `version.json`. */
  method PrepareVersionJsons(fs: FileSystem<Bytes>, entries: seq<ZipEntry>, basePath: Path,
                             sha1: Bytes -> Bytes, fetch: string -> HttpResult,
                             resolve: (string, string) -> Resolution)
    returns (err: Outcome, found: bool)
    modifies fs
    ensures Effect(fs.files, err) == ManifestsSpec(old(fs.files), basePath, entries, sha1, fetch, resolve)
    ensures found <==> HasVersionJson(entries)
    ensures err.Fail? ==> found
  {
    err := Pass;
    found := false;
    var i := 0;
    while i < |entries|
      invariant i <= |entries| && err == Pass
      invariant found <==> exists k :: 0 <= k < i && IsVersionJson(entries[k])
      invariant ManifestsSpec(old(fs.files), basePath, entries, sha1, fetch, resolve)
                  == ManifestsSpec(fs.files, basePath, entries[i..], sha1, fetch, resolve)
    {
      var f := entries[i];
      if f.name == "version.json" {
        ManifestsStep(fs.files, basePath, entries, i, sha1, fetch, resolve);
        found := true;
        err := PrepareLibrariesFromForgeVersionJson(fs, basePath, f.manifest, sha1, fetch, resolve);
        if err.Fail? {
          assert IsVersionJson(entries[i]);
          return;
        }
      } else {
        ManifestsSkip(fs.files, basePath, entries, i, sha1, fetch, resolve);
      }
      i := i + 1;
    }
    assert entries[i..] == [];
  }

  /** The file name in a URL path: what follows its last "/" (`path.Split`). */
  function LastSegment(p: string): (name: string)
    ensures '/' !in name
    ensures |name| <= |p| && p[|p| - |name|..] == name
    ensures |name| < |p| ==> p[|p| - |name| - 1] == '/'
  {
    if |p| == 0 || p[|p| - 1] == '/' then ""
    else LastSegment(p[..|p| - 1]) + [p[|p| - 1]]
  }

  /** `DownloadForge`: the jar is written only after a 200, over whatever was there. */
  function DownloadForgeSpec(files: map<Path, Bytes>, forgeUrl: string, outFilePath: Path,
                             fetch: string -> HttpResult): (r: Effect)
    ensures r.err == Pass <==> Succeeded(fetch(forgeUrl))
    ensures r.err == Pass ==>
              r.files == files[outFilePath := WrittenOver(Previous(files, outFilePath), fetch(forgeUrl).body)]
    ensures r.err.Fail? ==> r.files == files
  {
    match fetch(forgeUrl)
    case NetError(m) => Effect(files, Fail(m))
    case Response(status, text, body) =>
      if status != StatusOK then Effect(files, Fail(DownloadError(forgeUrl, status, text)))
      else Effect(files[outFilePath := WrittenOver(Previous(files, outFilePath), body)], Pass)
  }

  method DownloadForge(fs: FileSystem<Bytes>, forgeUrl: string, outFilePath: Path, fetch: string -> HttpResult)
    returns (err: Outcome)
    modifies fs
    ensures Effect(fs.files, err) == DownloadForgeSpec(old(fs.files), forgeUrl, outFilePath, fetch)
  {
    var resp := fetch(forgeUrl);
    if resp.NetError? {
      return Fail(resp.msg);
    }
    if resp.status != StatusOK {
      return Fail(DownloadError(forgeUrl, resp.status, resp.statusText));
    }
    WriteNoTrunc(fs, outFilePath, resp.body);
    err := Pass;
  }

  /** The jar step of `PrepareForge`: a jar already there is kept, otherwise it is
      downloaded. */
  function ForgeJarStep(files: map<Path, Bytes>, forgeUrl: string, jar: Path, fetch: string -> HttpResult): Effect
  {
    if jar in files then Effect(files, Pass) else DownloadForgeSpec(files, forgeUrl, jar, fetch)
  }

  /** What `PrepareForge` leaves behind and returns. */
  datatype Prepared = Prepared(files: map<Path, Bytes>, result: Result<string>)

  /** `PrepareForge`, with the path `url.Parse` finds in the Forge URL as input: the jar is
      named after the last segment of that path, fetched only when absent, and its
      libraries are then prepared; the name is returned. */
  function PrepareForgeSpec(files: map<Path, Bytes>, forgeUrl: string, parsedPath: Result<string>, basePath: Path,
                            unzip: Bytes -> Result<seq<ZipEntry>>, sha1: Bytes -> Bytes,
                            fetch: string -> HttpResult, resolve: (string, string) -> Resolution): Prepared
  {
    match parsedPath
    case Err(m) => Prepared(files, Err("invalid forge URL: " + m))
    case Ok(p) =>
      var jar := JoinPath([basePath, LastSegment(p)]);
      var d := ForgeJarStep(files, forgeUrl, jar, fetch);
      if d.err.Fail? then Prepared(d.files, Err("failed to download forge from " + forgeUrl + ": " + d.err.msg))
      else
        var l := ForgeLibrariesSpec(d.files, jar, basePath, unzip, sha1, fetch, resolve);
        if l.err.Fail? then Prepared(l.files, Err("failed to prepare libraries: " + l.err.msg))
        else Prepared(l.files, Ok(LastSegment(p)))
  }

  /** The jar `PrepareForge` works from: the one already there, or the downloaded one. */
  function ForgeJarContent(files: map<Path, Bytes>, jar: Path, forgeUrl: string, fetch: string -> HttpResult): Bytes
  {
    if jar in files then files[jar]
    else match fetch(forgeUrl)
      case Response(_, _, body) => body
      case NetError(_) => []
  }

  /** The jar `PrepareForge` goes on with: the one already there, or the one a 200 wrote. */
  lemma JarInPlace(files: map<Path, Bytes>, jar: Path, forgeUrl: string, fetch: string -> HttpResult)
    requires jar in files || Succeeded(fetch(forgeUrl))
    ensures var d := ForgeJarStep(files, forgeUrl, jar, fetch);
            d.err == Pass && jar in d.files && d.files[jar] == ForgeJarContent(files, jar, forgeUrl, fetch)
  {
    if jar !in files {
      assert WrittenOver([], fetch(forgeUrl).body) == fetch(forgeUrl).body;
    }
  }

  /** What `PrepareForge` promises when it fails early: a URL that does not parse, or a
      jar that is absent and cannot be fetched, is an error and nothing is written. */
  lemma PrepareForgeFailures(files: map<Path, Bytes>, forgeUrl: string, parsedPath: Result<string>, basePath: Path,
                             unzip: Bytes -> Result<seq<ZipEntry>>, sha1: Bytes -> Bytes,
                             fetch: string -> HttpResult, resolve: (string, string) -> Resolution)
    ensures var r := PrepareForgeSpec(files, forgeUrl, parsedPath, basePath, unzip, sha1, fetch, resolve);
            && (parsedPath.Err? ==> r.result.Err? && r.files == files)
            && ((parsedPath.Ok? && JoinPath([basePath, LastSegment(parsedPath.value)]) !in files
                  && !Succeeded(fetch(forgeUrl))) ==> r.result.Err? && r.files == files)
  {
  }

  /** What `PrepareForge` promises on success: the jar's name is returned, the jar was
      already there or a fetch answered 200, and that jar opened and has a
      `version.json`, every one of which decoded. */
  lemma PrepareForgeSuccess(files: map<Path, Bytes>, forgeUrl: string, parsedPath: Result<string>, basePath: Path,
                            unzip: Bytes -> Result<seq<ZipEntry>>, sha1: Bytes -> Bytes,
                            fetch: string -> HttpResult, resolve: (string, string) -> Resolution)
    requires PrepareForgeSpec(files, forgeUrl, parsedPath, basePath, unzip, sha1, fetch, resolve).result.Ok?
    ensures parsedPath.Ok?
    ensures PrepareForgeSpec(files, forgeUrl, parsedPath, basePath, unzip, sha1, fetch, resolve).result.value
              == LastSegment(parsedPath.value)
    ensures var jar := JoinPath([basePath, LastSegment(parsedPath.value)]);
            && (jar in files || Succeeded(fetch(forgeUrl)))
            && unzip(ForgeJarContent(files, jar, forgeUrl, fetch)).Ok?
            && var entries := unzip(ForgeJarContent(files, jar, forgeUrl, fetch)).value;
            && HasVersionJson(entries)
            && forall i :: 0 <= i < |entries| && IsVersionJson(entries[i]) ==> entries[i].manifest.Ok?
  {
    var jar := JoinPath([basePath, LastSegment(parsedPath.value)]);
    var d := ForgeJarStep(files, forgeUrl, jar, fetch);
    assert d.err == Pass;
    assert ForgeLibrariesSpec(d.files, jar, basePath, unzip, sha1, fetch, resolve).err == Pass;
    JarInPlace(files, jar, forgeUrl, fetch);
    ForgeLibrariesContract(d.files, jar, basePath, unzip, sha1, fetch, resolve);
  }

  method PrepareForge(fs: FileSystem<Bytes>, forgeUrl: string, parsedPath: Result<string>, basePath: Path,
                      unzip: Bytes -> Result<seq<ZipEntry>>, sha1: Bytes -> Bytes, fetch: string -> HttpResult,
                      resolve: (string, string) -> Resolution)
    returns (r: Result<string>)
    modifies fs
    ensures Prepared(fs.files, r) == PrepareForgeSpec(old(fs.files), forgeUrl, parsedPath, basePath, unzip, sha1, fetch, resolve)
  {
    if parsedPath.Err? {
      return Err("invalid forge URL: " + parsedPath.msg);
    }
    var filename := LastSegment(parsedPath.value);
    var forgeFilePath := JoinPath([basePath, filename]);
    if !fs.Exists(forgeFilePath) {
      var err := DownloadForge(fs, forgeUrl, forgeFilePath, fetch);
      if err.Fail? {
        return Err("failed to download forge from " + forgeUrl + ": " + err.msg);
      }
    }
    var err := PrepareLibrariesForForge(fs, forgeFilePath, basePath, unzip, sha1, fetch, resolve);
    if err.Fail? {
      return Err("failed to prepare libraries: " + err.msg);
    }
    r := Ok(filename);
  }
}
