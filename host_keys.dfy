/** The SSH server's host keys (remote_shell_service.go): where the key file lives, how
    missing keys are generated, and how the keys are written to and read back from a
    file of PEM blocks (RFC 7468 section 2). */
module HostKeys {
  import opened Wrappers
  import opened Disk

  /** The current, hidden key file name, and the older visible one. */
  const HostKeyFilename: string := ".hostKey.pem"
  const OldHostKeyFilename: string := "hostKey.pem"

  /** PEM block labels. */
  const RSAKeyType: string := "RSA PRIVATE KEY"
  const ECKeyType: string := "EC PRIVATE KEY"

  /** A private key, by the key material the DER structure carries. */
  datatype RsaKey = RsaKey(material: Bytes)
  datatype EcKey = EcKey(material: Bytes)

  /** The DER encodings are stood in for by the bytes that open each structure (a
      SEQUENCE whose first member is the version: 0 for PKCS#1 RSAPrivateKey, RFC 8017
      appendix A.1.2; 1 for ECPrivateKey, RFC 5915 section 3) followed by the key
      material. Only the parse-after-marshal behaviour matters to the key file logic. */
  const RsaHeader: Bytes := [0x30, 0x02, 0x01, 0x00]
  const EcHeader: Bytes := [0x30, 0x02, 0x01, 0x01]

  function MarshalPKCS1PrivateKey(k: RsaKey): Bytes
  {
    RsaHeader + k.material
  }

  function MarshalECPrivateKey(k: EcKey): Bytes
  {
    EcHeader + k.material
  }

  /** `x509.ParsePKCS1PrivateKey`: accepts exactly the marshalled RSA keys, and gives back
      the key that was marshalled. */
  function ParsePKCS1PrivateKey(der: Bytes): (r: Result<RsaKey>)
    ensures r.Ok? <==> exists k :: MarshalPKCS1PrivateKey(k) == der
    ensures r.Ok? ==> MarshalPKCS1PrivateKey(r.value) == der
  {
    if |der| >= 4 && der[..4] == RsaHeader then
      var key := RsaKey(der[4..]);
      assert MarshalPKCS1PrivateKey(key) == der;
      Ok(key)
    else
      assert forall k :: MarshalPKCS1PrivateKey(k)[..4] == RsaHeader;
      Err("x509: failed to parse private key")
  }

  /** `x509.ParseECPrivateKey`, likewise for EC keys. */
  function ParseECPrivateKey(der: Bytes): (r: Result<EcKey>)
    ensures r.Ok? <==> exists k :: MarshalECPrivateKey(k) == der
    ensures r.Ok? ==> MarshalECPrivateKey(r.value) == der
  {
    if |der| >= 4 && der[..4] == EcHeader then
      var key := EcKey(der[4..]);
      assert MarshalECPrivateKey(key) == der;
      Ok(key)
    else
      assert forall k :: MarshalECPrivateKey(k)[..4] == EcHeader;
      Err("x509: failed to parse EC private key")
  }

  /** Parsing what was marshalled gives the key back; a key of the other kind is refused. */
  lemma MarshalParse(r: RsaKey, e: EcKey)
    ensures ParsePKCS1PrivateKey(MarshalPKCS1PrivateKey(r)) == Ok(r)
    ensures ParseECPrivateKey(MarshalECPrivateKey(e)) == Ok(e)
    ensures ParsePKCS1PrivateKey(MarshalECPrivateKey(e)).Err?
    ensures ParseECPrivateKey(MarshalPKCS1PrivateKey(r)).Err?
  {
    assert MarshalPKCS1PrivateKey(r)[..4] == RsaHeader && MarshalPKCS1PrivateKey(r)[4..] == r.material;
    assert MarshalECPrivateKey(e)[..4] == EcHeader && MarshalECPrivateKey(e)[4..] == e.material;
  }

  /** A `pem.Block` (headers are never used). */
  datatype PemBlock = PemBlock(blockType: string, bytes: Bytes)

  /** A key file as `pem.Decode` sees it: a run of blocks, possibly followed by data in
      which no further block can be found (`Trailing`). */
  datatype PemChunk = Block(block: PemBlock) | Trailing
  type KeyFile = seq<PemChunk>

  /** The two keys of a `hostKeys` value; `None` is a nil pointer. */
  datatype KeyPair = KeyPair(rsa: Option<RsaKey>, ec: Option<EcKey>)

  const NoKeys := KeyPair(None, None)

  predicate Complete(k: KeyPair)
  {
    k.rsa.Some? && k.ec.Some?
  }

  /** `pickHostKeyPath`'s two candidates. */
  function HiddenPath(home: string): Path
  {
    JoinPath([home, HostKeyFilename])
  }

  function LegacyPath(home: string): Path
  {
    JoinPath([home, OldHostKeyFilename])
  }

  /** `pickHostKeyPath`: the hidden file if it exists, else the legacy file if that
      exists, else the hidden file. */
  function PickHostKeyPath(existing: set<Path>, home: string): (p: Path)
    requires home != ""
    ensures p == HiddenPath(home) || p == LegacyPath(home)
    ensures p == LegacyPath(home) <==> HiddenPath(home) !in existing && LegacyPath(home) in existing
    ensures p in existing || (p == HiddenPath(home) && LegacyPath(home) !in existing)
  {
    JoinPathFile(home, HostKeyFilename, OldHostKeyFilename);
    if HiddenPath(home) in existing then HiddenPath(home)
    else if LegacyPath(home) in existing then LegacyPath(home)
    else HiddenPath(home)
  }

  /** What `populateKeys` leaves behind. */
  datatype Populated = Populated(keys: KeyPair, didAdd: bool, err: Outcome)

  /** `populateKeys` on the keys `k`, with the results key generation would give: a
      present key is never replaced; the EC key is generated first and its failure
      returns at once; on success both keys are present and `didAdd` says whether one was
      missing. */
  function Populate(k: KeyPair, genEc: Result<EcKey>, genRsa: Result<RsaKey>): (r: Populated)
    ensures k.ec.Some? ==> r.keys.ec == k.ec
    ensures k.rsa.Some? ==> r.keys.rsa == k.rsa
    ensures r.err == Pass <==> (k.ec.Some? || genEc.Ok?) && (k.rsa.Some? || genRsa.Ok?)
    ensures r.err == Pass ==> Complete(r.keys) && (r.didAdd <==> !Complete(k))
    ensures r.didAdd <==> r.keys != k
    ensures k.ec.None? && genEc.Err? ==> r.keys == k && r.err.Fail?
  {
    if k.ec.None? && genEc.Err? then Populated(k, false, Fail(genEc.msg))
    else
      var k1 := if k.ec.None? then k.(ec := Some(genEc.value)) else k;
      if k1.rsa.None? && genRsa.Err? then Populated(k1, k.ec.None?, Fail(genRsa.msg))
      else if k1.rsa.None? then Populated(k1.(rsa := Some(genRsa.value)), true, Pass)
      else Populated(k1, k.ec.None?, Pass)
  }

  /** `writeKeys`' file contents: the EC block, then the RSA block, each only if present. */
  function EncodeKeys(k: KeyPair): KeyFile
  {
    (if k.ec.Some? then [Block(PemBlock(ECKeyType, MarshalECPrivateKey(k.ec.value)))] else [])
    + (if k.rsa.Some? then [Block(PemBlock(RSAKeyType, MarshalPKCS1PrivateKey(k.rsa.value)))] else [])
  }

  /** What `readKeys` returns. */
  datatype Loaded = Loaded(keys: KeyPair, err: Outcome)

  /** `readKeys`' loop from the keys `acc` onwards: blocks in order, a later block of a
      kind replacing an earlier one, unknown labels skipped, a block that does not parse
      ending the read with an error, and the first non-PEM data ending it without one. */
  function ReadFrom(acc: KeyPair, chunks: KeyFile): Loaded
    decreases |chunks|
  {
    if |chunks| == 0 || chunks[0].Trailing? then Loaded(acc, Pass)
    else
      var b := chunks[0].block;
      if b.blockType == RSAKeyType then
        match ParsePKCS1PrivateKey(b.bytes)
        case Err(m) => Loaded(acc, Fail(m))
        case Ok(key) => ReadFrom(acc.(rsa := Some(key)), chunks[1..])
      else if b.blockType == ECKeyType then
        match ParseECPrivateKey(b.bytes)
        case Err(m) => Loaded(acc, Fail(m))
        case Ok(key) => ReadFrom(acc.(ec := Some(key)), chunks[1..])
      else ReadFrom(acc, chunks[1..])
  }

  /** The keys of `later` laid over those of `earlier`. */
  function Overlay(earlier: KeyPair, later: KeyPair): KeyPair
  {
    KeyPair(if later.rsa.Some? then later.rsa else earlier.rsa,
            if later.ec.Some? then later.ec else earlier.ec)
  }

  /** Reading a written key file yields what was written, laid over what was read before. */
  lemma ReadEncoded(acc: KeyPair, k: KeyPair, rest: KeyFile)
    ensures ReadFrom(acc, EncodeKeys(k) + rest) == ReadFrom(Overlay(acc, k), rest)
  {
    var rsa := if k.rsa.Some? then k.rsa.value else RsaKey([]);
    var ec := if k.ec.Some? then k.ec.value else EcKey([]);
    MarshalParse(rsa, ec);
    var rsaPart := if k.rsa.Some? then [Block(PemBlock(RSAKeyType, MarshalPKCS1PrivateKey(rsa)))] else [];
    var ecPart := if k.ec.Some? then [Block(PemBlock(ECKeyType, MarshalECPrivateKey(ec)))] else [];
    var afterEc := Overlay(acc, KeyPair(None, k.ec));
    assert EncodeKeys(k) + rest == ecPart + (rsaPart + rest);
    if k.rsa.Some? {
      assert (rsaPart + rest)[0].block.blockType == RSAKeyType;
      assert (rsaPart + rest)[1..] == rest;
      assert afterEc.(rsa := Some(rsa)) == Overlay(acc, k);
    } else {
      assert rsaPart + rest == rest;
      assert afterEc == Overlay(acc, k);
    }
    assert ReadFrom(afterEc, rsaPart + rest) == ReadFrom(Overlay(acc, k), rest);
    if k.ec.Some? {
      assert (ecPart + (rsaPart + rest))[1..] == rsaPart + rest;
    }
    assert ReadFrom(acc, ecPart + (rsaPart + rest)) == ReadFrom(afterEc, rsaPart + rest);
  }

  /** The round trip of `writeKeys` and `readKeys`. */
  lemma WriteReadRoundTrip(k: KeyPair)
    ensures ReadFrom(NoKeys, EncodeKeys(k)) == Loaded(k, Pass)
  {
    ReadEncoded(NoKeys, k, []);
    assert EncodeKeys(k) + [] == EncodeKeys(k);
  }

  /** Two files' worth of blocks read one after the other: the later file's keys win. */
  lemma LaterBlocksWin(k1: KeyPair, k2: KeyPair)
    ensures ReadFrom(NoKeys, EncodeKeys(k1) + EncodeKeys(k2)) == Loaded(Overlay(k1, k2), Pass)
  {
    ReadEncoded(NoKeys, k1, EncodeKeys(k2));
    WriteReadRoundTrip(k2);
    ReadEncoded(Overlay(NoKeys, k1), k2, []);
    assert EncodeKeys(k2) + [] == EncodeKeys(k2);
  }

  predicate Known(c: PemChunk)
  {
    c.Trailing? || c.block.blockType == RSAKeyType || c.block.blockType == ECKeyType
  }

  function KnownOnly(chunks: KeyFile): (r: KeyFile)
    ensures |r| <= |chunks|
  {
    if |chunks| == 0 then []
    else if Known(chunks[0]) then [chunks[0]] + KnownOnly(chunks[1..])
    else KnownOnly(chunks[1..])
  }

  /** Blocks with other labels make no difference to what is read. */
  lemma {:induction false} UnknownBlocksIgnored(acc: KeyPair, chunks: KeyFile)
    ensures ReadFrom(acc, chunks) == ReadFrom(acc, KnownOnly(chunks))
    decreases |chunks|
  {
    if |chunks| > 0 {
      if Known(chunks[0]) {
        var r := KnownOnly(chunks);
        assert r[0] == chunks[0] && r[1..] == KnownOnly(chunks[1..]);
        if chunks[0].Block? {
          var b := chunks[0].block;
          if b.blockType == RSAKeyType && ParsePKCS1PrivateKey(b.bytes).Ok? {
            UnknownBlocksIgnored(acc.(rsa := Some(ParsePKCS1PrivateKey(b.bytes).value)), chunks[1..]);
          } else if b.blockType == ECKeyType && ParseECPrivateKey(b.bytes).Ok? {
            UnknownBlocksIgnored(acc.(ec := Some(ParseECPrivateKey(b.bytes).value)), chunks[1..]);
          }
        }
      } else {
        UnknownBlocksIgnored(acc, chunks[1..]);
      }
    }
  }

  /** The `hostKeys` struct; its fields are filled in place by `populateKeys` and
      `readKeys`. */
  class HostKeys {
    var rsaKey: Option<RsaKey>
    var ecKey: Option<EcKey>

    constructor ()
      ensures rsaKey == None && ecKey == None
    {
      rsaKey := None;
      ecKey := None;
    }

    function Pair(): KeyPair
      reads this
    {
      KeyPair(rsaKey, ecKey)
    }
  }

  /** `populateKeys`, with the outcomes of EC and RSA key generation as inputs. */
  method PopulateKeys(keys: HostKeys, genEc: Result<EcKey>, genRsa: Result<RsaKey>)
    returns (didAdd: bool, err: Outcome)
    modifies keys
    ensures Populated(keys.Pair(), didAdd, err) == Populate(old(keys.Pair()), genEc, genRsa)
  {
    didAdd := false;
    if keys.ecKey == None {
      if genEc.Err? {
        return didAdd, Fail(genEc.msg);
      }
      keys.ecKey := Some(genEc.value);
      didAdd := true;
    }
    if keys.rsaKey == None {
      if genRsa.Err? {
        return didAdd, Fail(genRsa.msg);
      }
      keys.rsaKey := Some(genRsa.value);
      didAdd := true;
    }
    err := Pass;
  }

  /** `writeKeys`: truncate the file at `path` and write the EC block, then the RSA block. */
  method WriteKeys(fs: FileSystem<KeyFile>, path: Path, keys: HostKeys)
    modifies fs
    ensures fs.files == old(fs.files)[path := EncodeKeys(keys.Pair())]
  {
    var content: KeyFile := [];
    if keys.ecKey.Some? {
      var ecDER := MarshalECPrivateKey(keys.ecKey.value);
      content := content + [Block(PemBlock(ECKeyType, ecDER))];
    }
    if keys.rsaKey.Some? {
      var rsaDER := MarshalPKCS1PrivateKey(keys.rsaKey.value);
      content := content + [Block(PemBlock(RSAKeyType, rsaDER))];
    }
    assert content == EncodeKeys(keys.Pair());
    fs.Write(path, content);
  }

  /** `readKeys`: decode blocks until the data runs out or holds no further block. An
      unreadable file gives no keys; a block that fails to parse stops the read with an
      error, returning the keys read so far. */
  method ReadKeys(fs: FileSystem<KeyFile>, path: Path) returns (keys: HostKeys?, err: Outcome)
    ensures path !in fs.files ==> keys == null && err.Fail?
    ensures path in fs.files ==>
              keys != null && fresh(keys) && Loaded(keys.Pair(), err) == ReadFrom(NoKeys, fs.files[path])
  {
    var read := fs.Read(path);
    if read.Err? {
      return null, Fail(read.msg);
    }
    var chunks := read.value;
    keys := new HostKeys();
    var i := 0;
    while i < |chunks| && chunks[i].Block?
      invariant i <= |chunks|
      invariant ReadFrom(NoKeys, chunks) == ReadFrom(keys.Pair(), chunks[i..])
      modifies keys
    {
      assert chunks[i..][1..] == chunks[i + 1..];
      var block := chunks[i].block;
      if block.blockType == RSAKeyType {
        var parsed := ParsePKCS1PrivateKey(block.bytes);
        if parsed.Err? {
          return keys, Fail(parsed.msg);
        }
        keys.rsaKey := Some(parsed.value);
      } else if block.blockType == ECKeyType {
        var parsed := ParseECPrivateKey(block.bytes);
        if parsed.Err? {
          return keys, Fail(parsed.msg);
        }
        keys.ecKey := Some(parsed.value);
      }
      i := i + 1;
    }
    err := Pass;
  }

  /** What `ensureHostKeys` leaves behind: the key files, and the keys and error it
      returns (`None` for a nil pointer). */
  datatype Ensured = Ensured(files: map<Path, KeyFile>, keys: Option<KeyPair>, err: Outcome)

  /** `ensureHostKeys` in the home directory `home`: pick the key file; start from no keys
      if it does not exist, otherwise from the keys read from it (giving up if that read
      fails); fill in missing keys; and write the keys to the hidden file when the legacy
      file was the one picked or a key was added, and generation did not fail. */
  function EnsureSpec(files: map<Path, KeyFile>, home: string, genEc: Result<EcKey>, genRsa: Result<RsaKey>): Ensured
    requires home != ""
  {
    var chosen := PickHostKeyPath(files.Keys, home);
    var fileChanged := chosen != HiddenPath(home);
    var loaded := if chosen in files then ReadFrom(NoKeys, files[chosen]) else Loaded(NoKeys, Pass);
    if loaded.err.Fail? then Ensured(files, None, loaded.err)
    else
      var p := Populate(loaded.keys, genEc, genRsa);
      var files' := if (fileChanged || p.didAdd) && p.err == Pass
                    then files[HiddenPath(home) := EncodeKeys(p.keys)] else files;
      Ensured(files', Some(p.keys), p.err)
  }

  /** What `ensureHostKeys` guarantees: on success both keys are present and the hidden
      file holds exactly them; only the hidden file is ever written, and nothing is
      written on failure; keys found in the file are kept. */
  lemma EnsureSound(files: map<Path, KeyFile>, home: string, genEc: Result<EcKey>, genRsa: Result<RsaKey>)
    requires home != ""
    ensures var r := EnsureSpec(files, home, genEc, genRsa);
            && (r.err == Pass ==>
                  && r.keys.Some? && Complete(r.keys.value)
                  && HiddenPath(home) in r.files
                  && ReadFrom(NoKeys, r.files[HiddenPath(home)]) == Loaded(r.keys.value, Pass))
            && (r.err.Fail? ==> r.files == files)
            && r.files - {HiddenPath(home)} == files - {HiddenPath(home)}
            && (forall p :: p != HiddenPath(home) ==> (p in r.files <==> p in files))
  {
    var r := EnsureSpec(files, home, genEc, genRsa);
    var chosen := PickHostKeyPath(files.Keys, home);
    var loaded := if chosen in files then ReadFrom(NoKeys, files[chosen]) else Loaded(NoKeys, Pass);
    if r.err == Pass {
      var p := Populate(loaded.keys, genEc, genRsa);
      WriteReadRoundTrip(p.keys);
    }
  }

  /** The same rule from the point of view of the legacy file: when only the legacy file
      exists and reads cleanly, a successful run copies its keys (completed) to the
      hidden file. */
  lemma EnsureMigratesLegacy(files: map<Path, KeyFile>, home: string, genEc: Result<EcKey>, genRsa: Result<RsaKey>)
    requires home != ""
    requires HiddenPath(home) !in files && LegacyPath(home) in files
    requires ReadFrom(NoKeys, files[LegacyPath(home)]).err == Pass
    ensures var r := EnsureSpec(files, home, genEc, genRsa);
            var old_ := ReadFrom(NoKeys, files[LegacyPath(home)]).keys;
            r.err == Pass ==>
              && r.files == files[HiddenPath(home) := EncodeKeys(r.keys.value)]
              && (old_.rsa.Some? ==> r.keys.value.rsa == old_.rsa)
              && (old_.ec.Some? ==> r.keys.value.ec == old_.ec)
  {
    JoinPathFile(home, HostKeyFilename, OldHostKeyFilename);
  }

  /** `ensureHostKeys`, with the home directory lookup and key generation as inputs. */
  method EnsureHostKeys(fs: FileSystem<KeyFile>, home: Result<string>, genEc: Result<EcKey>, genRsa: Result<RsaKey>)
    returns (keys: HostKeys?, err: Outcome)
    requires home.Ok? ==> home.value != ""
    modifies fs
    ensures home.Err? ==> keys == null && err.Fail? && fs.files == old(fs.files)
    ensures home.Ok? ==>
              var r := EnsureSpec(old(fs.files), home.value, genEc, genRsa);
              && fs.files == r.files && err == r.err
              && (keys == null <==> r.keys.None?)
              && (keys != null ==> keys.Pair() == r.keys.value)
  {
    if home.Err? {
      return null, Fail(home.msg);
    }
    var homeDir := home.value;
    var keyfilePath := PickHostKeyPath(fs.files.Keys, homeDir);
    var defaultKeyfilePath := HiddenPath(homeDir);
    var fileChanged := keyfilePath != defaultKeyfilePath;
    if !fs.Exists(keyfilePath) {
      keys := new HostKeys();
      var addedKeys;
      addedKeys, err := PopulateKeys(keys, genEc, genRsa);
      if (fileChanged || addedKeys) && err == Pass {
        WriteKeys(fs, defaultKeyfilePath, keys);
      }
    } else {
      keys, err := ReadKeys(fs, keyfilePath);
      if err.Fail? {
        return null, err;
      }
      var addedKeys;
      addedKeys, err := PopulateKeys(keys, genEc, genRsa);
      if (fileChanged || addedKeys) && err == Pass {
        WriteKeys(fs, defaultKeyfilePath, keys);
      }
    }
  }

  /** `cleanupOldHostKey`: remove the legacy key file if it exists. */
  method CleanupOldHostKey(fs: FileSystem<KeyFile>, home: Result<string>) returns (err: Outcome)
    requires home.Ok? ==> home.value != ""
    modifies fs
    ensures home.Err? ==> err.Fail? && fs.files == old(fs.files)
    ensures home.Ok? ==> err == Pass && fs.files == old(fs.files) - {LegacyPath(home.value)}
  {
    if home.Err? {
      return Fail(home.msg);
    }
    var keyfilePath := LegacyPath(home.value);
    if !fs.Exists(keyfilePath) {
      return Pass;
    }
    err := fs.Remove(keyfilePath);
  }
}
