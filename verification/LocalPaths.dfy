/**
 Where LocalWriter.Write puts an object and whether a listing finds it there
 (internal/writer/local.go:60-68, 127-177). filepath.Clean for relative paths, on segments.
 */
module LocalPaths {
  import opened Common
  import opened Naming

  function ReplaceBackslashes(s: string): (t: string)
    ensures |t| == |s| && forall i :: 0 <= i < |s| ==> t[i] == if s[i] == '\\' then '/' else s[i]
  {
    seq(|s|, i requires 0 <= i < |s| => if s[i] == '\\' then '/' else s[i])
  }

  function Split(s: string): (segments: seq<string>)
    ensures segments != []
  {
    if s == "" then [""]
    else
      var front := Split(s[..|s| - 1]);
      var k := |front| - 1;
      if s[|s| - 1] == '/' then front + [""] else front[k := front[k] + [s[|s| - 1]]]
  }

  function Join(segments: seq<string>): string {
    if segments == [] then ""
    else
      var k := |segments| - 1;
      if k == 0 then segments[0] else Join(segments[..k]) + "/" + segments[k]
  }

  /** The segments filepath.Clean leaves of a relative path. */
  function Resolve(segments: seq<string>): seq<string> {
    if segments == [] then []
    else
      var k := |segments| - 1;
      var front := Resolve(segments[..k]);
      if segments[k] == "" || segments[k] == "." then front
      else if segments[k] == ".." && front != [] && front[|front| - 1] != ".." then front[..|front| - 1]
      else front + [segments[k]]
  }

  function Clean(path: string): string {
    Join(Resolve(Split(path)))
  }

  /** The laws that determine filepath.Clean: "" and "." go, and ".." takes the segment before it. */
  lemma {:induction false} ResolveDrops(a: seq<string>, x: string, b: seq<string>)
    requires x == "" || x == "."
    ensures Resolve(a + [x] + b) == Resolve(a + b)
    decreases |b|
  {
    if b == [] {
      assert (a + [x] + b)[..|a|] == a && a + b == a;
    } else {
      ResolveDrops(a, x, b[..|b| - 1]);
      FrontOf(a + [x], b);
      FrontOf(a, b);
    }
  }

  lemma {:induction false} FrontOf(a: seq<string>, b: seq<string>)
    requires b != []
    ensures (a + b)[..|a + b| - 1] == a + b[..|b| - 1] && (a + b)[|a + b| - 1] == b[|b| - 1]
  {
  }

  lemma {:induction false} ResolveGoesUp(a: seq<string>, x: string, b: seq<string>)
    requires x !in {"", ".", ".."}
    ensures Resolve(a + [x, ".."] + b) == Resolve(a + b)
    decreases |b|
  {
    if b == [] {
      var front := a + [x];
      assert front[..|a|] == a && (a + [x, ".."] + b)[..|a| + 1] == front && a + b == a;
      assert Resolve(front) == Resolve(a) + [x];
    } else {
      ResolveGoesUp(a, x, b[..|b| - 1]);
      FrontOf(a + [x, ".."], b);
      FrontOf(a, b);
    }
  }

  /** Ordinary segments stay, also after the leading ".." that have nothing to take. */
  lemma {:induction false} ResolveKeeps(ups: seq<string>, more: seq<string>)
    requires forall i :: 0 <= i < |ups| ==> ups[i] == ".."
    requires forall i :: 0 <= i < |more| ==> more[i] !in {"", ".", ".."}
    ensures Resolve(ups + more) == ups + more
    decreases |ups| + |more|
  {
    if more != [] {
      FrontOf(ups, more);
      ResolveKeeps(ups, more[..|more| - 1]);
      assert ups + more[..|more| - 1] + [more[|more| - 1]] == ups + more;
    } else if ups != [] {
      var k := |ups| - 1;
      ResolveKeeps(ups[..k], []);
      assert ups[..k] + [] == ups[..k] && ups + more == ups && ups[..k] + [ups[k]] == ups;
    }
  }

  /** The key under which Write stores an object, or None if it refuses the name. */
  function StoredKey(objectName: string): Option<string> {
    var path := ReplaceBackslashes(objectName);
    if "/" <= path || ".." <= Clean(path) then None else Some(Clean(path))
  }

  lemma {:induction false} SplitAppend(a: string, b: string)
    requires Without('/', b)
    ensures Split(a + "/" + b) == Split(a) + [b]
    decreases |b|
  {
    var s := a + "/" + b;
    if b == "" {
      assert s[..|s| - 1] == a && s[|s| - 1] == '/';
    } else {
      var c := b[..|b| - 1];
      SplitAppend(a, c);
      assert s[..|s| - 1] == a + "/" + c && s[|s| - 1] == b[|b| - 1];
      assert c + [b[|b| - 1]] == b;
    }
  }

  /** Characters and separators of a joined path. */
  function Weight(segments: seq<string>): nat {
    if segments == [] then 0 else Weight(segments[..|segments| - 1]) + |segments[|segments| - 1]| + 1
  }

  lemma {:induction false} JoinWeight(segments: seq<string>)
    requires segments != []
    ensures |Join(segments)| + 1 == Weight(segments)
    decreases |segments|
  {
    if |segments| > 1 {
      JoinWeight(segments[..|segments| - 1]);
    }
  }

  lemma {:induction false} SplitWeight(s: string)
    ensures Weight(Split(s)) == |s| + 1
  {
    if s != "" {
      var front := Split(s[..|s| - 1]);
      SplitWeight(s[..|s| - 1]);
      var k := |front| - 1;
      assert Split(s)[..|Split(s)| - 1] == if s[|s| - 1] == '/' then front else front[..k];
    }
  }

  lemma {:induction false} WeightSnoc(front: seq<string>, segment: string)
    ensures Weight(front + [segment]) == Weight(front) + |segment| + 1
  {
    assert (front + [segment])[..|front|] == front;
  }

  lemma {:induction false} ResolveShrinks(segments: seq<string>)
    ensures Weight(Resolve(segments)) <= Weight(segments)
    decreases |segments|
  {
    if segments != [] {
      var k := |segments| - 1;
      var front := Resolve(segments[..k]);
      ResolveShrinks(segments[..k]);
      WeightSnoc(front, segments[k]);
      assert Weight(segments) == Weight(segments[..k]) + |segments[k]| + 1;
      assert front != [] ==> Weight(front[..|front| - 1]) <= Weight(front);
    }
  }

  lemma {:induction false} CleanShrinks(s: string)
    ensures Resolve(Split(s)) != [] ==> |Clean(s)| <= |s|
  {
    SplitWeight(s);
    ResolveShrinks(Split(s));
    if Resolve(Split(s)) != [] {
      JoinWeight(Resolve(Split(s)));
    }
  }

  /** The file lands in the cleaned directory of its prefix. */
  lemma {:induction false} CleanAppend(dir: string, file: string)
    requires Without('/', file) && |file| > 2
    ensures Clean(dir + "/" + file) ==
      if Resolve(Split(dir)) == [] then file else Clean(dir) + "/" + file
  {
    SplitAppend(dir, file);
    var front := Resolve(Split(dir));
    assert (Split(dir) + [file])[..|Split(dir)|] == Split(dir);
    assert (front + [file])[..|front|] == front;
  }

  lemma {:induction false} NotInsideFile(x: string, file: string)
    requires Without('/', file)
    ensures !(x + "/" <= file)
  {
    assert (x + "/")[|x|] == '/';
  }

  /** Only a listing of the very directory finds a file in it. */
  lemma {:induction false} PrefixOfDirectory(trim: string, dir: string, file: string)
    requires Without('/', file) && |dir| <= |trim|
    ensures trim + "/" <= dir + "/" + file <==> dir == trim
  {
    var key := dir + "/" + file;
    LastIndexIs(dir, '/', file);
    if trim + "/" <= key {
      assert key[|trim|] == '/';
      assert key[..|trim|] == trim && key[..|dir|] == dir;
    }
  }

  /**
   A local backup that Write accepts is found again by a listing of its own prefix exactly if
   there is no prefix or the trimmed prefix is already in cleaned form: the object name is
   cleaned before it is stored, the prefix of a listing is not.
   */
  lemma {:induction false} LocalOwnListingIff(spec: Spec, timestamp: string)
    requires Stamped(spec, timestamp) && StoredKey(ObjectName(spec, timestamp)).Some?
    ensures var trim := TrimSlashes(spec.prefix);
      LocalLists(spec.prefix, StoredKey(ObjectName(spec, timestamp)).value) <==>
        spec.prefix == "" || Clean(ReplaceBackslashes(trim)) == trim
  {
    var f := FileName(spec, timestamp);
    FileNameIsOneSegment(spec, timestamp);
    assert ReplaceBackslashes(f) == f;
    if spec.prefix != "" {
      var trim := TrimSlashes(spec.prefix);
      var dir := ReplaceBackslashes(trim);
      assert ReplaceBackslashes(trim + "/" + f) == dir + "/" + f;
      assert trim != "" by {
        assert trim == "" ==> "/" <= dir + "/" + f;
      }
      CleanAppend(dir, f);
      CleanShrinks(dir);
      if Resolve(Split(dir)) == [] {
        NotInsideFile(trim, f);
      } else {
        PrefixOfDirectory(trim, Clean(dir), f);
      }
    }
  }

  lemma {:induction false} CleanFile(file: string)
    requires Without('/', file) && |file| > 2
    ensures Clean(file) == file
  {
    SplitPlain(file);
    assert [file][..0] == [];
    assert Resolve([file]) == [file];
  }

  lemma {:induction false} SplitPlain(file: string)
    requires Without('/', file)
    ensures Split(file) == [file]
    decreases |file|
  {
    if file != "" {
      var k := |file| - 1;
      SplitPlain(file[..k]);
      assert file[..k] + [file[k]] == file;
    }
  }

  lemma {:induction false} ReplaceConcat(a: string, b: string)
    requires Without('\\', b)
    ensures ReplaceBackslashes(a + b) == ReplaceBackslashes(a) + b
  {
  }

  lemma {:induction false} ReplaceBeside(dir: string, file: string)
    requires Without('\\', file)
    ensures ReplaceBackslashes(file) == file
    ensures ReplaceBackslashes(dir + "/" + file) == ReplaceBackslashes(dir) + "/" + file
  {
    ReplaceConcat(dir + "/", file);
    ReplaceConcat(dir, "/");
  }

  lemma {:induction false} CleanBeside(dir: string, file: string, suffix: string)
    requires Without('/', file) && |file| > 2 && Without('/', suffix)
    ensures Clean(file + suffix) == Clean(file) + suffix && |Clean(file)| > 2
    ensures Clean(dir + "/" + file + suffix) == Clean(dir + "/" + file) + suffix && |Clean(dir + "/" + file)| > 2
  {
    var g := file + suffix;
    WithoutConcat('/', file, suffix);
    CleanFile(file);
    CleanFile(g);
    CleanAppend(dir, file);
    CleanAppend(dir, g);
    Regroup(dir, file, suffix);
    Regroup(Clean(dir), file, suffix);
  }

  lemma {:induction false} Regroup(dir: string, file: string, suffix: string)
    ensures dir + "/" + file + suffix == dir + "/" + (file + suffix)
  {
  }

  lemma {:induction false} StartsAlike(start: string, a: string, b: string)
    requires |start| <= |a|
    ensures start <= a <==> start <= a + b
  {
    if start <= a + b {
      assert a == (a + b)[..|a|];
    }
  }

  /** A backup and its metadata: Write accepts both names or neither, and stores the metadata beside the backup. */
  lemma {:induction false} MetadataStoredBeside(spec: Spec, timestamp: string)
    requires Stamped(spec, timestamp)
    ensures var name := ObjectName(spec, timestamp);
      && (StoredKey(name).Some? <==> StoredKey(name + METADATA_SUFFIX).Some?)
      && (StoredKey(name).Some? ==> StoredKey(name + METADATA_SUFFIX) == Some(StoredKey(name).value + METADATA_SUFFIX))
  {
    var name, f := ObjectName(spec, timestamp), FileName(spec, timestamp);
    FileNameIsOneSegment(spec, timestamp);
    var trim := TrimSlashes(spec.prefix);
    var dir := ReplaceBackslashes(trim);
    ReplaceBeside(trim, f);
    var path := if spec.prefix == "" then f else dir + "/" + f;
    ReplaceConcat(name, METADATA_SUFFIX);
    CleanBeside(dir, f, METADATA_SUFFIX);
    StartsAlike("/", path, METADATA_SUFFIX);
    StartsAlike("..", Clean(path), METADATA_SUFFIX);
  }

  // ---- when two backups get the same file ----

  predicate Slashless(segments: seq<string>) {
    forall i :: 0 <= i < |segments| ==> Without('/', segments[i])
  }

  lemma {:induction false} SplitJoin(segments: seq<string>)
    requires segments != [] && Slashless(segments)
    ensures Split(Join(segments)) == segments
    decreases |segments|
  {
    var k := |segments| - 1;
    assert segments == segments[..k] + [segments[k]];
    if k == 0 {
      SplitPlain(segments[0]);
    } else {
      SplitJoin(segments[..k]);
      SplitAppend(Join(segments[..k]), segments[k]);
    }
  }

  lemma {:induction false} SplitSlashless(s: string)
    ensures Slashless(Split(s))
    decreases |s|
  {
    if s != "" {
      SplitSlashless(s[..|s| - 1]);
    }
  }

  lemma {:induction false} ResolveSlashless(segments: seq<string>)
    requires Slashless(segments)
    ensures Slashless(Resolve(segments))
    decreases |segments|
  {
    if segments != [] {
      ResolveSlashless(segments[..|segments| - 1]);
    }
  }

  /** The directory, below the base, that a prefix stands for. */
  function Directory(spec: Spec): seq<string> {
    Resolve(Split(ReplaceBackslashes(TrimSlashes(spec.prefix))))
  }

  lemma {:induction false} DirectorySlashless(spec: Spec)
    ensures Slashless(Directory(spec))
  {
    SplitSlashless(ReplaceBackslashes(TrimSlashes(spec.prefix)));
    ResolveSlashless(Split(ReplaceBackslashes(TrimSlashes(spec.prefix))));
  }

  function FileIn(directory: seq<string>, file: string): string {
    if directory == [] then file else Join(directory) + "/" + file
  }

  lemma {:induction false} StoredIn(spec: Spec, timestamp: string)
    requires Stamped(spec, timestamp) && StoredKey(ObjectName(spec, timestamp)).Some?
    ensures StoredKey(ObjectName(spec, timestamp)).value == FileIn(Directory(spec), FileName(spec, timestamp))
  {
    var f, trim := FileName(spec, timestamp), TrimSlashes(spec.prefix);
    FileNameIsOneSegment(spec, timestamp);
    ReplaceBeside(trim, f);
    CleanAppend(ReplaceBackslashes(trim), f);
    CleanFile(f);
    assert spec.prefix == "" ==> Split(ReplaceBackslashes(trim)) == [""] && [""][..0] == [];
  }

  lemma {:induction false} FileInDecodes(c: seq<string>, f: string, d: seq<string>, g: string)
    requires Slashless(c) && Slashless(d) && Without('/', f) && Without('/', g)
    requires FileIn(c, f) == FileIn(d, g)
    ensures c == d && f == g
  {
    PartsOf(Join(c), f);
    PartsOf(Join(d), g);
    if c != [] && d != [] {
      SplitJoin(c);
      SplitJoin(d);
    }
  }

  /**
   Two local runs write the same file exactly if their prefixes resolve to the same directory and
   they agree on the database type, the sanitised database name and the second they start in.
   Different object names can do so, as with the prefixes "a//b" and "a/b".
   */
  lemma {:induction false} FilesCollideIff(s1: Spec, t1: string, s2: Spec, t2: string)
    requires Stamped(s1, t1) && StoredKey(ObjectName(s1, t1)).Some?
    requires Stamped(s2, t2) && StoredKey(ObjectName(s2, t2)).Some?
    ensures StoredKey(ObjectName(s1, t1)) == StoredKey(ObjectName(s2, t2)) <==>
      && Directory(s1) == Directory(s2) && s1.dbType == s2.dbType
      && DatabasePart(s1) == DatabasePart(s2) && t1 == t2
  {
    StoredIn(s1, t1);
    StoredIn(s2, t2);
    if StoredKey(ObjectName(s1, t1)) == StoredKey(ObjectName(s2, t2)) {
      DirectorySlashless(s1);
      DirectorySlashless(s2);
      FileNameIsOneSegment(s1, t1);
      FileNameIsOneSegment(s2, t2);
      FileInDecodes(Directory(s1), FileName(s1, t1), Directory(s2), FileName(s2, t2));
      FileNameDecodes(s1, t1, s2, t2);
    }
  }
}
