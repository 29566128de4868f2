/**
 Object names and what a listing by prefix finds again
 (internal/writer/writer.go:81-113, internal/writer/local.go:55-187, internal/writer/s3.go:178-227).
 Keys of a local store are slash-separated paths below its base directory.
 */
module Naming {
  import opened Common

  const METADATA_SUFFIX := ".metadata.json"

  // ---- strings.Trim(s, "/"), strings.LastIndex, the sanitising map ----

  function TrimLeft(s: string): string {
    if s != "" && s[0] == '/' then TrimLeft(s[1..]) else s
  }

  function TrimRight(s: string): string {
    if s != "" && s[|s| - 1] == '/' then TrimRight(s[..|s| - 1]) else s
  }

  function TrimSlashes(s: string): string {
    TrimRight(TrimLeft(s))
  }

  function LastIndex(s: string, c: char): (i: int)
    ensures -1 <= i < |s|
    ensures i >= 0 ==> s[i] == c
    ensures forall j :: i < j < |s| ==> s[j] != c
  {
    if s == "" then -1
    else if s[|s| - 1] == c then |s| - 1
    else LastIndex(s[..|s| - 1], c)
  }

  function SafeChar(c: char): char {
    if 'a' <= c <= 'z' || 'A' <= c <= 'Z' || '0' <= c <= '9' || c == '-' || c == '.' then c else '_'
  }

  function Sanitize(s: string): (t: string)
    ensures |t| == |s| && forall i :: 0 <= i < |s| ==> t[i] == SafeChar(s[i])
  {
    if s == "" then "" else Sanitize(s[..|s| - 1]) + [SafeChar(s[|s| - 1])]
  }

  function DatabasePart(spec: Spec): string {
    var raw :=
      if spec.database != "" then spec.database
      else
        var slash := LastIndex(spec.conn, '/');
        var query := LastIndex(spec.conn, '?');
        if slash == -1 then "database"
        else if query > slash then spec.conn[slash + 1..query]
        else spec.conn[slash + 1..];
    Sanitize(raw)
  }

  function Tail(timestamp: string): string {
    "-" + timestamp + ".dump.gz"
  }

  function FileName(spec: Spec, timestamp: string): string {
    spec.dbType + "-" + (DatabasePart(spec) + Tail(timestamp))
  }

  function ObjectName(spec: Spec, timestamp: string): string {
    if spec.prefix != "" then TrimSlashes(spec.prefix) + "/" + FileName(spec, timestamp) else FileName(spec, timestamp)
  }

  /** What the label checks and time.Format("20060102150405") guarantee. */
  predicate Stamped(spec: Spec, timestamp: string) {
    spec.dbType in {"postgres", "mysql", "mongodb", "redis"} && |timestamp| == 14 && Digits(timestamp)
  }

  predicate Digits(s: string) {
    forall i :: 0 <= i < |s| ==> '0' <= s[i] <= '9'
  }

  predicate Without(c: char, s: string) {
    forall i :: 0 <= i < |s| ==> s[i] != c
  }

  lemma {:induction false} WithoutConcat(c: char, a: string, b: string)
    requires Without(c, a) && Without(c, b)
    ensures Without(c, a + b)
  {
  }

  lemma {:induction false} DatabasePartIsSafe(spec: Spec, c: char)
    requires c == '/' || c == '\\'
    ensures Without(c, DatabasePart(spec))
  {
  }

  lemma {:induction false} FileNameWithout(spec: Spec, timestamp: string, c: char)
    requires Stamped(spec, timestamp) && (c == '/' || c == '\\')
    ensures Without(c, FileName(spec, timestamp))
  {
    DatabasePartIsSafe(spec, c);
    WithoutConcat(c, "-", timestamp);
    WithoutConcat(c, "-" + timestamp, ".dump.gz");
    WithoutConcat(c, DatabasePart(spec), Tail(timestamp));
    WithoutConcat(c, spec.dbType, "-");
    WithoutConcat(c, spec.dbType + "-", DatabasePart(spec) + Tail(timestamp));
  }

  lemma {:induction false} FileNameIsOneSegment(spec: Spec, timestamp: string)
    requires Stamped(spec, timestamp)
    ensures var f := FileName(spec, timestamp);
      |f| > 2 && f[0] != '.' && f[0] != '/' && Without('/', f) && Without('\\', f)
  {
    FileNameWithout(spec, timestamp, '/');
    FileNameWithout(spec, timestamp, '\\');
    assert FileName(spec, timestamp)[0] == spec.dbType[0];
  }

  // ---- the parts of a name ----

  /** The database label goes first. */
  lemma {:induction false} LabelNamesDatabase(spec: Spec)
    requires spec.database != ""
    ensures DatabasePart(spec) == Sanitize(spec.database)
  {
  }

  /** Without it, what follows the last slash of the connection string... */
  lemma {:induction false} ConnNamesDatabase(spec: Spec, before: string, name: string)
    requires spec.database == "" && Without('/', name) && Without('?', name)
    requires spec.conn == before + "/" + name
    ensures DatabasePart(spec) == Sanitize(name)
  {
    LastIndexIs(before, '/', name);
    assert spec.conn[|before| + 1..] == name;
    NotAfter(spec.conn, '?', |before| + 1);
  }

  /** ...up to the last "?" after it. */
  lemma {:induction false} QueryIsDropped(spec: Spec, before: string, name: string, query: string)
    requires spec.database == "" && Without('/', name) && Without('/', query) && Without('?', query)
    requires spec.conn == before + "/" + name + "?" + query
    ensures DatabasePart(spec) == Sanitize(name)
  {
    var tail := name + "?" + query;
    assert spec.conn == before + "/" + tail;
    WithoutConcat('/', name, "?");
    WithoutConcat('/', name + "?", query);
    LastIndexIs(before, '/', tail);
    LastIndexIs(before + "/" + name, '?', query);
    assert spec.conn[|before| + 1..|before| + 1 + |name|] == name;
  }

  lemma {:induction false} NotAfter(s: string, c: char, k: nat)
    requires k <= |s| && Without(c, s[k..])
    ensures LastIndex(s, c) < k
  {
    assert forall j :: k <= j < |s| ==> s[k..][j - k] == s[j];
  }

  /** Without a slash either, the literal "database". */
  lemma {:induction false} NothingNamesDatabase(spec: Spec)
    requires spec.database == "" && Without('/', spec.conn)
    ensures DatabasePart(spec) == "database"
  {
    NotAfter(spec.conn, '/', 0);
    assert spec.conn[0..] == spec.conn;
    assert forall i :: 0 <= i < |"database"| ==> SafeChar("database"[i]) == "database"[i];
    assert Sanitize("database") == "database";
  }

  /** Letters, digits, "-" and "." stay; each other character becomes "_". */
  lemma {:induction false} SanitizesExactly(s: string, i: nat)
    requires i < |s|
    ensures var c := s[i] as int;
      Sanitize(s)[i] ==
        if 65 <= c <= 90 || 97 <= c <= 122 || 48 <= c <= 57 || c == 45 || c == 46 then s[i] else '_'
  {
  }

  /** prefix/type-database-timestamp.dump.gz, without the prefix if there is none. */
  lemma {:induction false} NameReads(spec: Spec, timestamp: string)
    ensures ObjectName(spec, timestamp) ==
      (if spec.prefix == "" then "" else TrimSlashes(spec.prefix) + "/")
      + spec.dbType + "-" + DatabasePart(spec) + "-" + timestamp + ".dump.gz"
  {
  }

  // ---- when two backups get the same name ----

  function FirstIndex(s: string, c: char): int {
    if s == "" then -1
    else if s[0] == c then 0
    else var i := FirstIndex(s[1..], c); if i == -1 then -1 else i + 1
  }

  lemma {:induction false} FirstIndexIs(x: string, c: char, a: string)
    requires Without(c, x)
    ensures FirstIndex(x + [c] + a, c) == |x|
    decreases |x|
  {
    if x != "" {
      assert (x + [c] + a)[1..] == x[1..] + [c] + a;
      FirstIndexIs(x[1..], c, a);
    }
  }

  lemma {:induction false} LastIndexIs(a: string, c: char, x: string)
    requires Without(c, x)
    ensures LastIndex(a + [c] + x, c) == |a| && LastIndex(x, c) == -1
    decreases |x|
  {
    if x != "" {
      assert (a + [c] + x)[..|a| + |x|] == a + [c] + x[..|x| - 1];
      LastIndexIs(a, c, x[..|x| - 1]);
    } else {
      assert (a + [c] + x)[|a|] == c;
    }
  }

  lemma {:induction false} SameTail(a: string, x: string, b: string, y: string)
    requires |x| == |y| && a + x == b + y
    ensures a == b && x == y
  {
    var s := a + x;
    assert |a| == |b| && s[..|a|] == a && s[|a|..] == x;
    assert (b + y)[..|b|] == b && (b + y)[|b|..] == y;
  }

  lemma {:induction false} SameHead(x: string, a: string, y: string, b: string)
    requires Without('-', x) && Without('-', y) && x + "-" + a == y + "-" + b
    ensures x == y && a == b
  {
    FirstIndexIs(x, '-', a);
    FirstIndexIs(y, '-', b);
    assert |x| == |y|;
    SameTail(x + "-", a, y + "-", b);
    SameTail(x, "-", y, "-");
  }

  lemma {:induction false} PartsDecode(x: string, d: string, t: string, y: string, e: string, u: string)
    requires Without('-', x) && Without('-', y) && |t| == |u| == 14
    requires x + "-" + (d + Tail(t)) == y + "-" + (e + Tail(u))
    ensures x == y && d == e && t == u
  {
    SameHead(x, d + Tail(t), y, e + Tail(u));
    SameTail(d, Tail(t), e, Tail(u));
    assert Tail(t)[1..15] == t && Tail(u)[1..15] == u;
  }

  lemma {:induction false} TypeHasNoDash(dbType: string)
    requires dbType in {"postgres", "mysql", "mongodb", "redis"}
    ensures Without('-', dbType)
  {
  }

  lemma {:induction false} FileNameDecodes(s1: Spec, t1: string, s2: Spec, t2: string)
    requires Stamped(s1, t1) && Stamped(s2, t2) && FileName(s1, t1) == FileName(s2, t2)
    ensures s1.dbType == s2.dbType && DatabasePart(s1) == DatabasePart(s2) && t1 == t2
  {
    TypeHasNoDash(s1.dbType);
    TypeHasNoDash(s2.dbType);
    PartsDecode(s1.dbType, DatabasePart(s1), t1, s2.dbType, DatabasePart(s2), t2);
  }

  /** A name's directory, if it has one, and its last segment. */
  function Parts(name: string): (Option<string>, string) {
    var i := LastIndex(name, '/');
    if i == -1 then (None, name) else (Some(name[..i]), name[i + 1..])
  }

  lemma {:induction false} PartsOf(dir: string, file: string)
    requires Without('/', file)
    ensures Parts(dir + "/" + file) == (Some(dir), file) && Parts(file) == (None, file)
  {
    LastIndexIs(dir, '/', file);
    var name := dir + "/" + file;
    assert name[..|dir|] == dir && name[|dir| + 1..] == file;
  }

  lemma {:induction false} ObjectNameParts(spec: Spec, timestamp: string)
    requires Stamped(spec, timestamp)
    ensures Parts(ObjectName(spec, timestamp)) ==
      (if spec.prefix == "" then None else Some(TrimSlashes(spec.prefix)), FileName(spec, timestamp))
  {
    FileNameIsOneSegment(spec, timestamp);
    PartsOf(TrimSlashes(spec.prefix), FileName(spec, timestamp));
  }

  predicate SameDestination(s1: Spec, s2: Spec) {
    (s1.prefix == "" <==> s2.prefix == "") && TrimSlashes(s1.prefix) == TrimSlashes(s2.prefix)
  }

  lemma {:induction false} SameNameSamePlace(s1: Spec, t1: string, s2: Spec, t2: string)
    requires Stamped(s1, t1) && Stamped(s2, t2) && ObjectName(s1, t1) == ObjectName(s2, t2)
    ensures SameDestination(s1, s2) && FileName(s1, t1) == FileName(s2, t2)
  {
    ObjectNameParts(s1, t1);
    ObjectNameParts(s2, t2);
    assert TrimSlashes("") == "";
  }

  /**
   Two runs write under the same name exactly if they agree on the trimmed prefix (or both have
   none), the database type, the sanitised database name and the second they start in.
   Neither the container nor the host is part of the name.
   */
  lemma {:induction false} NamesCollideIff(s1: Spec, t1: string, s2: Spec, t2: string)
    requires Stamped(s1, t1) && Stamped(s2, t2)
    ensures ObjectName(s1, t1) == ObjectName(s2, t2) <==>
      SameDestination(s1, s2) && s1.dbType == s2.dbType && DatabasePart(s1) == DatabasePart(s2) && t1 == t2
  {
    if ObjectName(s1, t1) == ObjectName(s2, t2) {
      SameNameSamePlace(s1, t1, s2, t2);
      FileNameDecodes(s1, t1, s2, t2);
    }
  }

  // ---- listing by prefix ----

  /** S3 lists the keys that start with the prefix as it was given. */
  predicate RemoteLists(prefix: string, key: string) {
    prefix <= key
  }

  /** The local walk keeps the files whose path starts with the trimmed prefix and a slash. */
  predicate LocalLists(prefix: string, key: string) {
    prefix == "" || TrimSlashes(prefix) + "/" <= key
  }

  /** Whoever lists a backup lists its metadata. */
  lemma {:induction false} MetadataIsListedToo(prefix: string, key: string)
    ensures RemoteLists(prefix, key) ==> RemoteLists(prefix, key + METADATA_SUFFIX)
    ensures LocalLists(prefix, key) ==> LocalLists(prefix, key + METADATA_SUFFIX)
  {
  }

  lemma {:induction false} TrimLeftKeeps(s: string)
    ensures s != "" && s[0] != '/' ==> TrimLeft(s) == s
    ensures s != "" && s[0] == '/' ==> TrimLeft(s) == "" || TrimLeft(s)[0] != '/'
    decreases |s|
  {
    if s != "" && s[0] == '/' {
      TrimLeftKeeps(s[1..]);
    }
  }

  lemma {:induction false} TrimRightKeeps(s: string)
    ensures TrimRight(s) <= s && (TrimRight(s) != "" ==> TrimRight(s)[|TrimRight(s)| - 1] != '/')
    ensures forall i :: |TrimRight(s)| <= i < |s| ==> s[i] == '/'
    decreases |s|
  {
    if s != "" && s[|s| - 1] == '/' {
      TrimRightKeeps(s[..|s| - 1]);
    }
  }

  lemma {:induction false} AllSlashesTrimmed(s: string)
    requires s != "" && s[0] == '/' && TrimLeft(s) == ""
    ensures forall i :: 0 <= i < |s| ==> s[i] == '/'
    decreases |s|
  {
    if |s| > 1 {
      AllSlashesTrimmed(s[1..]);
    }
  }

  /** The S3 prefixes whose own backups a listing by that prefix finds again. */
  predicate RemotePrefixFindsOwn(prefix: string) {
    || prefix == "" || prefix == "/"
    || (prefix[0] != '/' && !(|prefix| >= 2 && prefix[|prefix| - 2..] == "//"))
  }

  lemma {:induction false} CoreListing(p: string, core: string, f: string)
    requires p != "" && p[0] != '/' && core <= p && core != "" && core[|core| - 1] != '/'
    requires forall i :: |core| <= i < |p| ==> p[i] == '/'
    requires f != "" && f[0] != '/'
    ensures p <= core + "/" + f <==> |p| <= |core| + 1
    ensures |p| <= |core| + 1 <==> !(|p| >= 2 && p[|p| - 2..] == "//")
  {
    var name := core + "/" + f;
    assert name[|core| + 1] == f[0];
    if |p| >= 2 {
      assert p[|p| - 2..] == [p[|p| - 2], p[|p| - 1]];
    }
    if |p| <= |core| + 1 {
      assert name[..|p|] == p;
    }
  }

  /**
   In S3 a backup is listed under its own prefix exactly if the prefix has no leading slash and
   at most one trailing one (or is "" or "/"): names are built from the trimmed prefix, listings
   from the raw one. For any other prefix retention never deletes anything.
   */
  lemma {:induction false} RemoteOwnListingIff(spec: Spec, timestamp: string)
    requires Stamped(spec, timestamp)
    ensures RemoteLists(spec.prefix, ObjectName(spec, timestamp)) <==> RemotePrefixFindsOwn(spec.prefix)
  {
    var p, f := spec.prefix, FileName(spec, timestamp);
    FileNameIsOneSegment(spec, timestamp);
    if p != "" {
      var left := TrimLeft(p);
      var core := TrimSlashes(p);
      TrimLeftKeeps(p);
      TrimRightKeeps(left);
      var name := core + "/" + f;
      if p[0] != '/' {
        CoreListing(p, core, f);
      } else if left != "" {
        assert core != "" && name[0] == core[0] != '/';
      } else {
        AllSlashesTrimmed(p);
        assert name == "/" + f && name[1] == f[0];
      }
    }
  }
}
