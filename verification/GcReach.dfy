/**
 Which local files the garbage collection of one spec can reach: what ListObjects finds for the
 spec's prefix and DeleteObject then accepts (internal/gc/gc.go:79-139,
 internal/writer/local.go:127-176, 220-247). Files are known by the segments of their absolute path.
 */
module GcReach {
  import opened Common
  import opened Naming
  import opened LocalPaths
  import opened Containment

  predicate Normal(segments: seq<string>) {
    forall i :: 0 <= i < |segments| ==> segments[i] !in {"", ".", ".."} && Without('/', segments[i])
  }

  // ---- filepath.Rel ----

  function CommonLength(a: seq<string>, b: seq<string>): (c: nat)
    ensures c <= |a| && c <= |b| && a[..c] == b[..c]
  {
    if a == [] || b == [] || a[0] != b[0] then 0
    else
      var c := CommonLength(a[1..], b[1..]);
      assert a[..c + 1] == [a[0]] + a[1..][..c] && b[..c + 1] == [b[0]] + b[1..][..c];
      c + 1
  }

  function Ups(k: nat): (ups: seq<string>)
    ensures |ups| == k && forall i :: 0 <= i < k ==> ups[i] == ".."
  {
    if k == 0 then [] else Ups(k - 1) + [".."]
  }

  function RelSegments(base: seq<string>, p: seq<string>): seq<string> {
    var c := CommonLength(base, p);
    Ups(|base| - c) + p[c..]
  }

  /** The key under which a listing shows the file `p`. */
  function RelKey(base: seq<string>, p: seq<string>): string {
    Join(RelSegments(base, p))
  }

  lemma {:induction false} UnderUps(base: seq<string>, k: nat)
    requires k <= |base|
    ensures Under(base, Ups(k)) == base[..|base| - k]
    decreases k
  {
    if k == 0 {
      assert base[..|base|] == base;
    } else {
      UnderUps(base, k - 1);
      UnderSnoc(base, Ups(k - 1), "..");
    }
  }

  lemma {:induction false} Assoc(a: seq<string>, b: seq<string>, c: seq<string>)
    ensures a + (b + c) == a + b + c
  {
  }

  lemma {:induction false} UnderNormal(base: seq<string>, front: seq<string>, more: seq<string>)
    requires Normal(more)
    ensures Under(base, front + more) == Under(base, front) + more
    decreases |more|
  {
    if more == [] {
      assert front + more == front;
    } else {
      var k := |more| - 1;
      var init, last := more[..k], more[k];
      assert more == init + [last];
      UnderNormal(base, front, init);
      UnderSnoc(base, front + init, last);
      Assoc(front, init, [last]);
      Assoc(Under(base, front), init, [last]);
    }
  }

  lemma {:induction false} RelParts(base: seq<string>, p: seq<string>)
    requires Normal(p)
    ensures var c := CommonLength(base, p);
      Normal(p[c..]) && base[..c] + p[c..] == p
    ensures Slashless(RelSegments(base, p))
  {
    var c := CommonLength(base, p);
    assert base[..c] == p[..c];
    forall i | 0 <= i < |RelSegments(base, p)| ensures Without('/', RelSegments(base, p)[i]) {
      if i >= |base| - c {
        assert RelSegments(base, p)[i] == p[i - (|base| - c) + c];
      }
    }
  }

  /** DeleteObject, given the key of a listed file, means that file. */
  lemma {:induction false} KeyMeansFile(base: seq<string>, p: seq<string>)
    requires Normal(p) && RelSegments(base, p) != []
    ensures Split(RelKey(base, p)) == RelSegments(base, p)
    ensures Under(base, Split(RelKey(base, p))) == p
  {
    var c := CommonLength(base, p);
    RelParts(base, p);
    SplitJoin(RelSegments(base, p));
    UnderUps(base, |base| - c);
    UnderNormal(base, Ups(|base| - c), p[c..]);
  }

  // ---- what a listing finds ----

  /** filepath.Walk starts at the prefix below the base; then keys are compared with the trimmed prefix. */
  predicate Listed(base: seq<string>, prefix: string, p: seq<string>) {
    Under(base, Split(prefix)) <= p && LocalLists(prefix, RelKey(base, p))
  }

  /** A pass lists the file, its delete is not refused, and the file is not inside the base directory. */
  predicate ReachedOutside(base: seq<string>, prefix: string, p: seq<string>) {
    Listed(base, prefix, p) && PassesCheck(base, RelKey(base, p)) && !(base <= p)
  }

  predicate ExtendsName(name: string, longer: string) {
    name <= longer && name != longer
  }

  /** A file below a directory next to the base whose name is longer than the base's and begins with it. */
  predicate InSibling(base: seq<string>, p: seq<string>)
    requires base != []
  {
    var n := |base| - 1;
    |p| > n && p[..n] == base[..n] && ExtendsName(base[n], p[n])
  }

  lemma {:induction false} FirstSegmentAlike(base: seq<string>, p: seq<string>)
    requires |base| > 1 && p != []
    ensures InSibling(base, p) <==> p[0] == base[0] && InSibling(base[1..], p[1..])
    ensures base <= p <==> p[0] == base[0] && base[1..] <= p[1..]
  {
    var n := |base| - 1;
    assert base == [base[0]] + base[1..] && p == [p[0]] + p[1..];
    assert base[..n] == [base[0]] + base[1..][..n - 1];
    if |p| > n {
      assert p[..n] == [p[0]] + p[1..][..n - 1];
      assert p[..n][1..] == p[1..][..n - 1] && base[..n][1..] == base[1..][..n - 1];
    }
  }

  lemma {:induction false} SiblingIff(base: seq<string>, p: seq<string>)
    requires base != []
    ensures InSibling(base, p) <==> Beside(base, p) && !(base <= p)
    decreases |base|
  {
    if p != [] {
      if |base| == 1 {
        assert base == [base[0]] && p[..1] == [p[0]];
      } else {
        SiblingIff(base[1..], p[1..]);
        FirstSegmentAlike(base, p);
      }
    }
  }

  lemma {:induction false} SiblingCommon(base: seq<string>, p: seq<string>)
    requires base != [] && InSibling(base, p)
    ensures CommonLength(base, p) == |base| - 1
    decreases |base|
  {
    if |base| > 1 {
      FirstSegmentAlike(base, p);
      SiblingCommon(base[1..], p[1..]);
    }
  }

  // ---- prefixes of paths ----

  lemma {:induction false} PathSnoc(front: seq<string>, segment: string)
    ensures Path(front + [segment]) == Path(front) + "/" + segment
    decreases |front|
  {
    var all := front + [segment];
    if front == [] {
      assert all[1..] == [];
    } else {
      assert all[1..] == front[1..] + [segment];
      PathSnoc(front[1..], segment);
    }
  }

  lemma {:induction false} JoinIsPath(segments: seq<string>)
    requires segments != []
    ensures "/" + Join(segments) == Path(segments)
    decreases |segments|
  {
    var k := |segments| - 1;
    assert segments == segments[..k] + [segments[k]];
    PathSnoc(segments[..k], segments[k]);
    if k > 0 {
      JoinIsPath(segments[..k]);
    }
  }

  lemma {:induction false} PathAbove(t: seq<string>, p: seq<string>)
    requires t != [] && p != [] && Slashless(t) && Slashless(p)
    ensures Path(t) + "/" <= Path(p) <==> |t| < |p| && t == p[..|t|]
    decreases |t|
  {
    FirstSegment(t[0], Path(t[1..]) + "/", p[0], Path(p[1..]));
    assert Path(t) + "/" == "/" + t[0] + (Path(t[1..]) + "/");
    if |p| > 1 {
      if |t| > 1 {
        PathAbove(t[1..], p[1..]);
        assert t == [t[0]] + t[1..];
        assert |t| < |p| ==> p[..|t|] == [p[0]] + p[1..][..|t| - 1];
      } else {
        assert Path(t[1..]) + "/" == "/" && "/" <= Path(p[1..]);
        assert t == [t[0]] && p[..1] == [p[0]];
      }
    }
  }

  /** A key starts with a prefix and a slash exactly if its leading segments are the prefix's. */
  lemma {:induction false} KeyBelow(t: seq<string>, segments: seq<string>)
    requires t != [] && segments != [] && Slashless(t) && Slashless(segments)
    ensures Join(t) + "/" <= Join(segments) <==> |t| < |segments| && t == segments[..|t|]
  {
    PathAbove(t, segments);
    JoinIsPath(t);
    JoinIsPath(segments);
    AfterSlash(Join(t) + "/", Join(segments));
    assert "/" + (Join(t) + "/") == Path(t) + "/";
  }

  lemma {:induction false} JoinSplit(s: string)
    ensures Join(Split(s)) == s
    decreases |s|
  {
    if s != "" {
      var before := s[..|s| - 1];
      var front := Split(before);
      var k := |front| - 1;
      JoinSplit(before);
      assert s == before + [s[|s| - 1]];
      if s[|s| - 1] == '/' {
        assert (front + [""])[..k + 1] == front;
      } else {
        assert front[k := front[k] + [s[|s| - 1]]][..k] == front[..k];
      }
    }
  }

  // ---- the slashes around a prefix do not matter to the walk ----

  lemma {:induction false} SplitLeading(s: string)
    ensures Split("/" + s) == [""] + Split(s)
    decreases |s|
  {
    var all := "/" + s;
    if s == "" {
      assert all[..0] == "" && all[0] == '/';
    } else {
      SplitLeading(s[..|s| - 1]);
      assert all[..|all| - 1] == "/" + s[..|s| - 1];
    }
  }

  lemma {:induction false} UnderLeading(base: seq<string>, segments: seq<string>)
    ensures Under(base, [""] + segments) == Under(base, segments)
    decreases |segments|
  {
    var all := [""] + segments;
    if segments == [] {
      assert all[..0] == [];
    } else {
      UnderLeading(base, segments[..|segments| - 1]);
      assert all[..|all| - 1] == [""] + segments[..|segments| - 1];
    }
  }

  lemma {:induction false} UnderTrimLeft(base: seq<string>, s: string)
    ensures Under(base, Split(TrimLeft(s))) == Under(base, Split(s))
    decreases |s|
  {
    if s != "" && s[0] == '/' {
      UnderTrimLeft(base, s[1..]);
      SplitLeading(s[1..]);
      UnderLeading(base, Split(s[1..]));
      assert s == "/" + s[1..];
    }
  }

  lemma {:induction false} UnderTrimRight(base: seq<string>, s: string)
    ensures Under(base, Split(TrimRight(s))) == Under(base, Split(s))
    decreases |s|
  {
    if s != "" && s[|s| - 1] == '/' {
      UnderTrimRight(base, s[..|s| - 1]);
      UnderSnoc(base, Split(s[..|s| - 1]), "");
    }
  }

  lemma {:induction false} UnderTrimmed(base: seq<string>, prefix: string)
    ensures Under(base, Split(prefix)) == Under(base, Split(TrimSlashes(prefix)))
  {
    UnderTrimLeft(base, prefix);
    UnderTrimRight(base, TrimLeft(prefix));
  }

  // ---- what a pass can reach ----

  function PrefixSegments(prefix: string): (t: seq<string>)
    ensures t != []
  {
    Split(TrimSlashes(prefix))
  }

  /** The segments of the key of a file in a sibling. */
  function SiblingKey(base: seq<string>, p: seq<string>): (k: seq<string>)
    requires base != [] && |p| >= |base|
    ensures k != []
  {
    [".."] + p[|base| - 1..]
  }

  /** The segments of the trimmed prefix are leading segments of the file's key. */
  predicate LeadsTo(base: seq<string>, prefix: string, p: seq<string>)
    requires base != [] && |p| >= |base|
  {
    var t, k := PrefixSegments(prefix), SiblingKey(base, p);
    |t| < |k| && t == k[..|t|]
  }

  lemma {:induction false} SiblingSegments(base: seq<string>, p: seq<string>)
    requires base != [] && InSibling(base, p)
    ensures RelSegments(base, p) == SiblingKey(base, p)
  {
    SiblingCommon(base, p);
    assert Ups(1) == [".."];
  }

  /** The walk from the prefix meets the file if the prefix's segments are among its key's. */
  lemma {:induction false} SiblingWalked(base: seq<string>, prefix: string, p: seq<string>)
    requires base != [] && Normal(p) && InSibling(base, p)
    requires LeadsTo(base, prefix, p)
    ensures Under(base, Split(prefix)) <= p
  {
    var t, n := PrefixSegments(prefix), |base| - 1;
    var more := p[n..][..|t| - 1];
    UnderTrimmed(base, prefix);
    UnderUps(base, 1);
    UnderNormal(base, Ups(1), more);
    assert t == Ups(1) + more;
    assert base[..n] + more == p[..n + |more|];
  }

  lemma {:induction false} SiblingListedIff(base: seq<string>, prefix: string, p: seq<string>)
    requires base != [] && Normal(p) && InSibling(base, p) && prefix != ""
    ensures LocalLists(prefix, RelKey(base, p)) <==> LeadsTo(base, prefix, p)
  {
    SiblingSegments(base, p);
    JoinSplit(TrimSlashes(prefix));
    SplitSlashless(TrimSlashes(prefix));
    KeyBelow(PrefixSegments(prefix), SiblingKey(base, p));
  }

  lemma {:induction false} EmptyPrefixStaysInside(base: seq<string>, p: seq<string>)
    requires Listed(base, "", p)
    ensures base <= p
  {
    UnderSnoc(base, [], "");
    assert [] + [""] == [""] && Split("") == [""];
  }

  /**
   A pass reaches a file outside the base directory exactly if the file is in a sibling whose name
   begins with the base's, and the segments of the trimmed prefix are leading segments of its key.
   */
  lemma {:induction false} ReachedOutsideIff(base: seq<string>, prefix: string, p: seq<string>)
    requires base != [] && Normal(base) && Normal(p) && !(p <= base)
    ensures ReachedOutside(base, prefix, p) <==>
      InSibling(base, p) && prefix != "" && LeadsTo(base, prefix, p)
  {
    PassesExactlySiblings(base, p);
    if prefix == "" {
      if Listed(base, "", p) {
        EmptyPrefixStaysInside(base, p);
      }
    } else if InSibling(base, p) {
      SiblingListedIff(base, prefix, p);
      if LeadsTo(base, prefix, p) {
        SiblingWalked(base, prefix, p);
      }
    }
  }

  lemma {:induction false} PassesExactlySiblings(base: seq<string>, p: seq<string>)
    requires base != [] && Normal(base) && Normal(p) && !(p <= base)
    ensures PassesCheck(base, RelKey(base, p)) && !(base <= p) <==> InSibling(base, p)
  {
    NotAboveHasKey(base, p);
    KeyMeansFile(base, p);
    PassesCheckIff(base, RelKey(base, p));
    SiblingIff(base, p);
  }

  lemma {:induction false} NotAboveHasKey(base: seq<string>, p: seq<string>)
    requires !(p <= base)
    ensures RelSegments(base, p) != []
  {
    var c := CommonLength(base, p);
    assert p[..|p|] == p;
  }

  /** The prefixes for which there are such files. */
  predicate LooksOutside(base: seq<string>, prefix: string)
    requires base != []
  {
    var t := PrefixSegments(prefix);
    && t[0] == ".."
    && (|t| > 1 ==> ExtendsName(base[|base| - 1], t[1]) && Normal(t[1..]))
  }

  /** A pass can reach a file outside the base directory at all exactly for these prefixes. */
  lemma {:induction false} LooksOutsideIff(base: seq<string>, prefix: string)
    requires base != [] && Normal(base)
    ensures (exists p :: Normal(p) && !(p <= base) && ReachedOutside(base, prefix, p)) <==> LooksOutside(base, prefix)
  {
    forall p | Normal(p) && !(p <= base) && ReachedOutside(base, prefix, p)
      ensures LooksOutside(base, prefix)
    {
      ReachedOutsideIff(base, prefix, p);
      LeadsOutside(base, prefix, p);
    }
    if LooksOutside(base, prefix) {
      NotEmpty(prefix);
      var p := Witness(base, PrefixSegments(prefix));
      ReachedOutsideIff(base, prefix, p);
    }
  }

  lemma {:induction false} LeadsOutside(base: seq<string>, prefix: string, p: seq<string>)
    requires base != [] && Normal(p) && InSibling(base, p) && LeadsTo(base, prefix, p)
    ensures LooksOutside(base, prefix)
  {
    var t, n := PrefixSegments(prefix), |base| - 1;
    assert t == SiblingKey(base, p)[..|t|];
    assert forall i :: 1 <= i < |t| ==> t[i] == p[n + i - 1];
    assert t[0] == "..";
  }

  lemma {:induction false} NotEmpty(prefix: string)
    requires PrefixSegments(prefix)[0] == ".."
    ensures prefix != ""
  {
    assert TrimSlashes("") == "" && Split("") == [""];
  }

  lemma {:induction false} Witness(base: seq<string>, t: seq<string>) returns (p: seq<string>)
    requires base != [] && Normal(base) && t != [] && t[0] == ".."
    requires |t| > 1 ==> ExtendsName(base[|base| - 1], t[1]) && Normal(t[1..])
    ensures Normal(p) && !(p <= base) && InSibling(base, p)
    ensures var k := SiblingKey(base, p); |t| < |k| && t == k[..|t|]
  {
    var n := |base| - 1;
    var below := if |t| == 1 then [base[n] + "xx"] else t[1..];
    p := base[..n] + below + ["file"];
    assert p[..n] == base[..n] && p[n] == below[0] && p[n..] == below + ["file"];
    assert ExtendsName(base[n], p[n]);
    assert t == [".."] + t[1..];
    assert SiblingKey(base, p)[..|t|] == t;
    SiblingIff(base, p);
  }

  // ---- specs with such a prefix store nothing themselves ----

  lemma {:induction false} FirstSegmentIs(s: string, x: string)
    requires Without('/', x)
    ensures Split(s)[0] == x <==> s == x || x + "/" <= s
  {
    SplitSlashless(s);
    JoinSplit(s);
    SplitPlain(x);
    if |Split(s)| > 1 {
      KeyBelow([x], Split(s));
      assert [x][..0] == [] && Join([x]) == x;
      assert Split(s)[..1] == [Split(s)[0]];
    } else {
      assert Split(s) == [Split(s)[0]];
      assert Without('/', s);
      if |x| < |s| {
        assert s[|x|] != '/' && (x + "/")[|x|] == '/';
      }
    }
  }

  lemma {:induction false} DottedStays(segments: seq<string>)
    requires segments != [] && segments[0] == ".."
    ensures Dotted(Resolve(segments))
    decreases |segments|
  {
    if |segments| == 1 {
      assert segments[..0] == [];
    } else {
      DottedStays(segments[..|segments| - 1]);
      DotsStay(segments);
    }
  }

  lemma {:induction false} StillDotted(trim: string)
    requires Split(trim)[0] == ".."
    ensures Split(ReplaceBackslashes(trim))[0] == ".."
  {
    FirstSegmentIs(trim, "..");
    FirstSegmentIs(ReplaceBackslashes(trim), "..");
    if "../" <= trim {
      StartsReplaced("../", trim);
    }
    assert ".." + "/" == "../";
    assert trim == ".." ==> ReplaceBackslashes(trim) == "..";
  }

  lemma {:induction false} StartsReplaced(start: string, s: string)
    requires Without('\\', start) && start <= s
    ensures start <= ReplaceBackslashes(s)
  {
  }

  lemma {:induction false} CleanStartsDotted(dir: string, file: string)
    requires Split(dir)[0] == ".." && Without('/', file) && |file| > 2
    ensures ".." <= Clean(dir + "/" + file)
  {
    CleanAppend(dir, file);
    DottedStays(Split(dir));
    JoinStarts(Resolve(Split(dir)));
  }

  /** Write refuses every backup of a spec whose prefix starts with "..". */
  lemma {:induction false} OutsidePrefixStoresNothing(spec: Spec, timestamp: string)
    requires Stamped(spec, timestamp) && PrefixSegments(spec.prefix)[0] == ".."
    ensures StoredKey(ObjectName(spec, timestamp)) == None
  {
    var trim, f := TrimSlashes(spec.prefix), FileName(spec, timestamp);
    FileNameIsOneSegment(spec, timestamp);
    ReplaceBeside(trim, f);
    StillDotted(trim);
    CleanStartsDotted(ReplaceBackslashes(trim), f);
    NotEmpty(spec.prefix);
  }
}
