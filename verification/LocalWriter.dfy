/**
 The local writer as one caller sees it, the metadata written through it, and validation of a
 stored backup (internal/writer/local.go:55-125, 189-258; internal/writer/metadata.go:32-83;
 internal/writer/writer.go:115-144).
 */
module LocalWriter {
  import opened Common
  import opened Pipeline
  import Naming
  import LocalPaths
  import Containment

  /** How a reader ends after its last chunk. */
  datatype ReaderEnd = Eof | ReadError

  /** What the file system lets one Write do. */
  datatype Disk = Disk(opens: bool, room: nat, removes: bool)

  datatype Written = Written(ok: bool, bytesWritten: nat, checksum: string)

  /** encoding/json. */
  datatype Json = Json(encode: Metadata -> Bytes, decode: Bytes -> Option<Metadata>)

  /** What one backup needs of encoding/json, and of the disk: its own record round-trips and fits. */
  predicate Recordable(json: Json, m: Metadata, disk: Disk) {
    json.decode(json.encode(m)) == Some(m) && |json.encode(m)| <= disk.room
  }

  function Fitting(content: Bytes, room: nat): Bytes {
    if |content| <= room then content else content[..room]
  }

  type Files = map<string, Bytes>

  /** The files a Write leaves: unchanged, with the new file, without it, or with its torn beginning. */
  function FilesAfter(files: Files, key: Option<string>, content: Bytes, end: ReaderEnd, disk: Disk): Files {
    if key.None? || !disk.opens then files
    else if end.Eof? && |content| <= disk.room then files[key.value := content]
    else if disk.removes then files - {key.value}
    else files[key.value := Fitting(content, disk.room)]
  }

  predicate Succeeds(key: Option<string>, content: Bytes, end: ReaderEnd, disk: Disk) {
    key.Some? && disk.opens && end.Eof? && |content| <= disk.room
  }

  /**
   A Write touches its own file only. It leaves the whole stream exactly if it succeeds, nothing
   there if it fails and the removal works, a beginning of the stream if the removal fails too,
   and what there was if the file could not be opened or the name was refused.
   */
  lemma {:induction false} WriteLeaves(files: Files, key: Option<string>, content: Bytes, end: ReaderEnd, disk: Disk)
    ensures var after := FilesAfter(files, key, content, end, disk);
      if key.None? || !disk.opens then after == files && !Succeeds(key, content, end, disk)
      else
        && after - {key.value} == files - {key.value}
        && (end.Eof? && |content| <= disk.room ==>
              Succeeds(key, content, end, disk) && key.value in after && after[key.value] == content)
        && (end.ReadError? || |content| > disk.room ==>
              && !Succeeds(key, content, end, disk)
              && (disk.removes ==> key.value !in after)
              && (!disk.removes ==>
                    && key.value in after && after[key.value] <= content
                    && |after[key.value]| == if |content| > disk.room then disk.room else |content|))
  {
  }

  /** Files are known by their cleaned paths relative to `base`, the segments of the base directory. */
  class LocalWriter {
    const base: seq<string>
    const hash: Bytes -> string
    var files: Files

    constructor (base: seq<string>, hash: Bytes -> string)
      ensures this.base == base && this.hash == hash && files == map[]
    {
      this.base, this.hash := base, hash;
      files := map[];
    }

    method Write(objectName: string, chunks: seq<Bytes>, end: ReaderEnd, disk: Disk) returns (w: Written)
      modifies this
      ensures var key := LocalPaths.StoredKey(objectName);
        var content := Flatten(chunks);
        && files == FilesAfter(old(files), key, content, end, disk)
        && w.ok == Succeeds(key, content, end, disk)
        && w == if w.ok then Written(true, |content|, hash(content)) else Written(false, 0, "")
    {
      var key := LocalPaths.StoredKey(objectName);
      if key.None? || !disk.opens {
        return Written(false, 0, "");
      }
      var file, hashed, bytesWritten := [], [], 0;
      files := files[key.value := file];
      var i, copyFailed := 0, false;
      while i < |chunks| && !copyFailed
        invariant 0 <= i <= |chunks|
        invariant hashed == Flatten(chunks[..i])
        invariant files == old(files)[key.value := file] && bytesWritten == |file|
        invariant !copyFailed ==> file == hashed && |file| <= disk.room
        invariant copyFailed ==> |hashed| > disk.room && file == hashed[..disk.room]
      {
        // the tee hashes a chunk before the copy stores it
        var chunk := chunks[i];
        assert chunks[..i + 1][..i] == chunks[..i];
        hashed := hashed + chunk;
        i := i + 1;
        if |file| + |chunk| <= disk.room {
          file := file + chunk;
        } else {
          file := (file + chunk)[..disk.room];
          copyFailed := true;
        }
        bytesWritten := |file|;
        files := files[key.value := file];
      }
      ghost var content := Flatten(chunks);
      PrefixOfFlatten(chunks, i);
      assert !copyFailed ==> chunks[..i] == chunks;
      assert copyFailed ==> file == content[..disk.room];
      assert files - {key.value} == old(files) - {key.value};
      if copyFailed || end.ReadError? {
        if disk.removes {
          files := files - {key.value};
        }
        return Written(false, 0, "");
      }
      return Written(true, bytesWritten, hash(hashed));
    }

    /** The path is cleaned and checked, but unlike in Write its backslashes stay. */
    method ReadObject(objectName: string) returns (content: Option<Bytes>)
      ensures var key := LocalPaths.Clean(objectName);
        content == if Containment.PassesCheck(base, objectName) && key in files then Some(files[key]) else None
    {
      if !Containment.PassesCheck(base, objectName) {
        return None;
      }
      var key := LocalPaths.Clean(objectName);
      content := if key in files then Some(files[key]) else None;
    }

    /** A path that fails the check is refused; a file that does not exist counts as deleted. */
    method DeleteObject(objectName: string, removes: bool) returns (ok: bool)
      modifies this
      ensures var key, passes := LocalPaths.Clean(objectName), Containment.PassesCheck(base, objectName);
        && files == (if passes && removes then old(files) - {key} else old(files))
        && (ok <==> passes && (removes || key !in old(files)))
    {
      if !Containment.PassesCheck(base, objectName) {
        return false;
      }
      var key := LocalPaths.Clean(objectName);
      ok := removes || key !in files;
      if removes {
        files := files - {key};
      }
    }

    method WriteMetadata(json: Json, metadata: Metadata, objectName: string, disk: Disk) returns (ok: bool)
      modifies this
      ensures var name := objectName + Naming.METADATA_SUFFIX;
        var key, content := LocalPaths.StoredKey(name), json.encode(metadata);
        && ok == Succeeds(key, content, Eof, disk)
        && files == FilesAfter(old(files), key, content, Eof, disk)
    {
      var jsonData := json.encode(metadata);
      var w := Write(objectName + Naming.METADATA_SUFFIX, [jsonData], Eof, disk);
      OneRead(jsonData);
      ok := w.ok;
    }

    method ReadMetadata(json: Json, objectName: string) returns (metadata: Option<Metadata>)
      ensures var name := objectName + Naming.METADATA_SUFFIX;
        var key := LocalPaths.Clean(name);
        metadata == if Containment.PassesCheck(base, name) && key in files then json.decode(files[key]) else None
    {
      var content := ReadObject(objectName + Naming.METADATA_SUFFIX);
      metadata := if content.Some? then json.decode(content.value) else None;
    }

    /**
     `chunks` is what a reader would yield to reads of any size. The first Read asks for three
     bytes and is not repeated; io.Copy hashes the rest.
     */
    method ValidateBackup(chunks: seq<Bytes>, end: ReaderEnd) returns (checksum: Option<string>)
      ensures checksum.Some? <==> end.Eof? && FirstReadIsGzip(chunks)
      ensures checksum.Some? ==> checksum.value == hash(Flatten(chunks))
    {
      if chunks == [] {
        return None;
      }
      var header := Fitting(chunks[0], 3);
      if |header| < 2 || header[0] != 0x1f || header[1] != 0x8b {
        return None;
      }
      var hashed, i := header + chunks[0][|header|..], 1;
      assert chunks[..1] == [chunks[0]] && [chunks[0]][..0] == [];
      assert hashed == Flatten(chunks[..1]);
      while i < |chunks|
        invariant 1 <= i <= |chunks|
        invariant hashed == Flatten(chunks[..i])
      {
        assert chunks[..i + 1][..i] == chunks[..i];
        hashed := hashed + chunks[i];
        i := i + 1;
      }
      assert chunks[..|chunks|] == chunks;
      checksum := if end.Eof? then Some(hash(hashed)) else None;
    }

    /**
     A backup and its metadata under fresh names, written and read back. They are found again if
     and only if the name means the same file to Write, which replaces backslashes before it
     cleans, and to ReadObject, which does not. Then the metadata comes back as written and
     validation yields its checksum, whatever the chunking of the stream.
     */
    method BackUpAndReadBack(json: Json, spec: Spec, timestamp: string, chunks: seq<Bytes>, disk: Disk)
      returns (metadata: Option<Metadata>, content: Option<Bytes>, checksum: Option<string>)
      requires Naming.Stamped(spec, timestamp)
      requires Succeeds(LocalPaths.StoredKey(Naming.ObjectName(spec, timestamp)), Flatten(chunks), Eof, disk)
      requires var stream := Flatten(chunks);
        Recordable(json, Metadata(spec.containerID, |stream|, hash(stream), true), disk)
      requires var cleaned := LocalPaths.Clean(Naming.ObjectName(spec, timestamp));
        cleaned !in files && cleaned + Naming.METADATA_SUFFIX !in files
      modifies this
      ensures var stream := Flatten(chunks);
        if SameFile(Naming.ObjectName(spec, timestamp)) then
          && content == Some(stream)
          && metadata == Some(Metadata(spec.containerID, |stream|, hash(stream), true))
          && checksum == if IsGzip(stream) then Some(metadata.value.checksum) else None
        else
          content == None && metadata == None && checksum == None
    {
      var objectName := Naming.ObjectName(spec, timestamp);
      LocalPaths.MetadataStoredBeside(spec, timestamp);
      ghost var key := LocalPaths.StoredKey(objectName).value;
      BackupKeys(spec, timestamp);
      if SameFile(objectName) {
        ReadsPass(base, objectName);
        ReadsPass(base, objectName + Naming.METADATA_SUFFIX);
      } else {
        KeysApart(LocalPaths.Clean(objectName), key);
      }
      var written := Write(objectName, chunks, Eof, disk);
      var m := Metadata(spec.containerID, written.bytesWritten, written.checksum, true);
      var ok := WriteMetadata(json, m, objectName, disk);
      assert files.Keys == old(files).Keys + {key, key + Naming.METADATA_SUFFIX};
      metadata := ReadMetadata(json, objectName);
      content := ReadObject(objectName);
      checksum := None;
      if content.Some? {
        OneRead(content.value);
        checksum := ValidateBackup([content.value], Eof);
      }
    }

    /** The cleanup after a failed run, likewise: it undoes a Write exactly if both mean the same file. */
    method WriteAndCleanUp(spec: Spec, timestamp: string, chunks: seq<Bytes>, disk: Disk) returns (ok: bool)
      requires Naming.Stamped(spec, timestamp)
      requires Succeeds(LocalPaths.StoredKey(Naming.ObjectName(spec, timestamp)), Flatten(chunks), Eof, disk)
      requires LocalPaths.StoredKey(Naming.ObjectName(spec, timestamp)).value !in files
      modifies this
      ensures files == old(files) <==> SameFile(Naming.ObjectName(spec, timestamp))
      ensures SameFile(Naming.ObjectName(spec, timestamp)) ==> ok
    {
      var objectName := Naming.ObjectName(spec, timestamp);
      ghost var key := LocalPaths.StoredKey(objectName).value;
      if SameFile(objectName) {
        ReadsPass(base, objectName);
      }
      var written := Write(objectName, chunks, Eof, disk);
      ok := DeleteObject(objectName, true);
      assert SameFile(objectName) ==> files == old(files);
      assert !SameFile(objectName) ==> key in files && key !in old(files);
    }
  }

  // ---- what validation accepts ----

  predicate IsGzip(content: Bytes) {
    |content| >= 2 && content[0] == 0x1f && content[1] == 0x8b
  }

  /** The magic bytes of section 2.3.1 of RFC 1952. */
  lemma {:induction false} MagicIff(content: Bytes)
    ensures IsGzip(content) <==> [31, 139] <= content
  {
  }

  predicate FirstReadIsGzip(chunks: seq<Bytes>) {
    chunks != [] && IsGzip(chunks[0])
  }

  /** Valid content is refused exactly if the reader's first Read yields less than two bytes of it. */
  lemma {:induction false} ValidButRefusedIff(chunks: seq<Bytes>)
    requires IsGzip(Flatten(chunks))
    ensures chunks != []
    ensures !FirstReadIsGzip(chunks) <==> |chunks[0]| < 2
  {
    PrefixOfFlatten(chunks, 1);
    assert chunks[..1] == [chunks[0]] && [chunks[0]][..0] == [];
    assert Flatten(chunks[..1]) == [] + chunks[0] == chunks[0];
  }

  /** Every valid content can arrive in chunks that are refused. */
  lemma {:induction false} ValidCanBeRefused(content: Bytes)
    requires IsGzip(content)
    ensures var chunks := [content[..1], content[1..]];
      Flatten(chunks) == content && !FirstReadIsGzip(chunks)
  {
    var chunks := [content[..1], content[1..]];
    assert chunks[..1] == [content[..1]] && [content[..1]][..0] == [];
    assert Flatten([content[..1]]) == content[..1];
  }

  lemma {:induction false} OneRead(content: Bytes)
    ensures Flatten([content]) == content
  {
    assert [content][..0] == [];
  }

  // ---- names that mean the same file to every operation ----

  /** Write stores this name under the path where reads and deletes look for it. */
  predicate SameFile(objectName: string) {
    LocalPaths.StoredKey(objectName) == Some(LocalPaths.Clean(objectName))
  }

  lemma {:induction false} WithoutBackslashesSame(objectName: string)
    requires Naming.Without('\\', objectName) && LocalPaths.StoredKey(objectName).Some?
    ensures SameFile(objectName)
  {
    assert LocalPaths.ReplaceBackslashes(objectName) == objectName;
  }

  predicate Ordinary(segment: string) {
    segment !in {"", ".", ".."} && Naming.Without('/', segment) && Naming.Without('\\', segment)
  }

  /** A prefix of two segments joined by a backslash is stored as a directory path and looked up as one name. */
  lemma {:induction false} BackslashIsLost(spec: Spec, timestamp: string, x: string, y: string)
    requires Naming.Stamped(spec, timestamp) && Ordinary(x) && Ordinary(y)
    requires spec.prefix == x + "\\" + y
    ensures !SameFile(Naming.ObjectName(spec, timestamp))
  {
    var p, f := spec.prefix, Naming.FileName(spec, timestamp);
    Naming.FileNameIsOneSegment(spec, timestamp);
    NothingToTrim(p);
    CleanUnderBackslash(x, y, f);
  }

  lemma {:induction false} NothingToTrim(p: string)
    requires p != "" && p[0] != '/' && p[|p| - 1] != '/'
    ensures Naming.TrimSlashes(p) == p
  {
  }

  lemma {:induction false} CleanUnderBackslash(x: string, y: string, f: string)
    requires Ordinary(x) && Ordinary(y) && |f| > 2 && Naming.Without('/', f) && Naming.Without('\\', f)
    ensures !SameFile(x + "\\" + y + "/" + f)
  {
    var p, dir := x + "\\" + y, x + "/" + y;
    assert LocalPaths.ReplaceBackslashes(p) == dir;
    LocalPaths.ReplaceBeside(p, f);
    CleanOne(p);
    CleanTwo(x, y);
    LocalPaths.CleanAppend(p, f);
    LocalPaths.CleanAppend(dir, f);
    assert (p + "/" + f)[|x|] == '\\' && (dir + "/" + f)[|x|] == '/';
  }

  lemma {:induction false} CleanOne(segment: string)
    requires Naming.Without('/', segment) && segment !in {"", ".", ".."}
    ensures LocalPaths.Resolve(LocalPaths.Split(segment)) == [segment] && LocalPaths.Clean(segment) == segment
  {
    LocalPaths.SplitPlain(segment);
    assert [segment][..0] == [];
  }

  lemma {:induction false} CleanTwo(x: string, y: string)
    requires Ordinary(x) && Ordinary(y)
    ensures LocalPaths.Resolve(LocalPaths.Split(x + "/" + y)) == [x, y]
    ensures LocalPaths.Clean(x + "/" + y) == x + "/" + y
  {
    CleanOne(x);
    LocalPaths.SplitPlain(x);
    LocalPaths.SplitAppend(x, y);
    assert ([x] + [y])[..1] == [x];
  }

  lemma {:induction false} ReadsPass(base: seq<string>, objectName: string)
    requires SameFile(objectName)
    ensures Containment.PassesCheck(base, objectName)
  {
    Containment.CleanInside(base, objectName);
  }

  predicate EndsWith(s: string, c: char) {
    s != "" && s[|s| - 1] == c
  }

  /** Cleaned or stored, a backup's name ends in "z" and its metadata's is the same name with the suffix. */
  lemma {:induction false} BackupKeys(spec: Spec, timestamp: string)
    requires Naming.Stamped(spec, timestamp)
    ensures var name := Naming.ObjectName(spec, timestamp);
      && EndsWith(LocalPaths.Clean(name), 'z')
      && LocalPaths.Clean(name + Naming.METADATA_SUFFIX) == LocalPaths.Clean(name) + Naming.METADATA_SUFFIX
      && (LocalPaths.StoredKey(name).Some? ==> EndsWith(LocalPaths.StoredKey(name).value, 'z'))
  {
    var f := Naming.FileName(spec, timestamp);
    Naming.FileNameIsOneSegment(spec, timestamp);
    assert EndsWith(f, 'z');
    var trim := Naming.TrimSlashes(spec.prefix);
    LocalPaths.CleanBeside(trim, f, Naming.METADATA_SUFFIX);
    LocalPaths.ReplaceBeside(trim, f);
    CleanEnds(trim, f);
    CleanEnds(LocalPaths.ReplaceBackslashes(trim), f);
  }

  lemma {:induction false} KeysApart(a: string, key: string)
    requires a != key && EndsWith(a, 'z') && EndsWith(key, 'z')
    ensures var s := Naming.METADATA_SUFFIX;
      a != key + s && a + s != key && a + s != key + s
  {
    var s := Naming.METADATA_SUFFIX;
    assert (key + s)[|key + s| - 1] == 'n' && (a + s)[|a + s| - 1] == 'n';
    assert (a + s)[..|a|] == a && (key + s)[..|key|] == key;
  }

  lemma {:induction false} CleanEnds(dir: string, file: string)
    requires Naming.Without('/', file) && |file| > 2 && EndsWith(file, 'z')
    ensures EndsWith(LocalPaths.Clean(file), 'z') && EndsWith(LocalPaths.Clean(dir + "/" + file), 'z')
  {
    LocalPaths.CleanFile(file);
    LocalPaths.CleanAppend(dir, file);
  }

  lemma {:induction false} PrefixOfFlatten(chunks: seq<Bytes>, i: nat)
    requires i <= |chunks|
    ensures Flatten(chunks[..i]) <= Flatten(chunks)
    decreases |chunks|
  {
    if i == |chunks| {
      assert chunks[..i] == chunks;
    } else {
      var front := chunks[..|chunks| - 1];
      PrefixOfFlatten(front, i);
      assert front[..i] == chunks[..i];
    }
  }
}
