/**
 The check that a local path lies below the base directory (internal/writer/local.go:70-91,
 190-210, 221-245): strings.HasPrefix on absolute paths. Paths are lists of segments from the root.
 */
module Containment {
  import opened Naming
  import opened LocalPaths

  /** filepath.Join(basePath, key) for an absolute base: ".." stops at the root. */
  function Under(base: seq<string>, segments: seq<string>): seq<string> {
    if segments == [] then base
    else
      var k := |segments| - 1;
      var front := Under(base, segments[..k]);
      if segments[k] == "" || segments[k] == "." then front
      else if segments[k] == ".." then (if front == [] then [] else front[..|front| - 1])
      else front + [segments[k]]
  }

  function Path(segments: seq<string>): string {
    if segments == [] then "" else "/" + segments[0] + Path(segments[1..])
  }

  function AbsPath(segments: seq<string>): string {
    if segments == [] then "/" else Path(segments)
  }

  /** What the code checks. */
  predicate PassesCheck(base: seq<string>, key: string) {
    AbsPath(base) <= AbsPath(Under(base, Split(key)))
  }

  /** What the check is for. */
  predicate Inside(base: seq<string>, key: string) {
    base <= Under(base, Split(key))
  }

  predicate Plain(segments: seq<string>) {
    forall i :: 0 <= i < |segments| ==> segments[i] != "" && Without('/', segments[i])
  }

  // ---- names that never leave the base directory ----

  predicate NoDots(segments: seq<string>) {
    forall i :: 0 <= i < |segments| ==> segments[i] != ".."
  }

  predicate Dotted(segments: seq<string>) {
    segments != [] && segments[0] == ".."
  }

  lemma {:induction false} DotsStay(segments: seq<string>)
    requires segments != []
    ensures Dotted(Resolve(segments[..|segments| - 1])) ==> Dotted(Resolve(segments))
  {
  }

  /** Resolve keeps ".." only at the front; without one there, the path stays below the base. */
  lemma {:induction false} ResolveBelow(base: seq<string>, segments: seq<string>)
    requires !Dotted(Resolve(segments))
    ensures NoDots(Resolve(segments)) && Under(base, segments) == base + Resolve(segments)
    decreases |segments|
  {
    if segments == [] {
      assert base + [] == base;
    } else {
      var k := |segments| - 1;
      DotsStay(segments);
      ResolveBelow(base, segments[..k]);
      UnderStep(base, Resolve(segments[..k]), segments[k]);
    }
  }

  lemma {:induction false} UnderStep(base: seq<string>, front: seq<string>, segment: string)
    ensures base + front + [segment] == base + (front + [segment])
    ensures front != [] ==> (base + front)[..|base + front| - 1] == base + front[..|front| - 1]
  {
  }

  lemma {:induction false} JoinStarts(segments: seq<string>)
    requires segments != []
    ensures segments[0] <= Join(segments)
    decreases |segments|
  {
    if |segments| > 1 {
      JoinStarts(segments[..|segments| - 1]);
    }
  }

  lemma {:induction false} PathExtends(base: seq<string>, more: seq<string>)
    ensures Path(base) <= Path(base + more)
    decreases |base|
  {
    if base != [] {
      assert (base + more)[1..] == base[1..] + more;
      PathExtends(base[1..], more);
    }
  }

  lemma {:induction false} InsidePasses(base: seq<string>, key: string)
    requires Inside(base, key)
    ensures PassesCheck(base, key)
  {
    var p := Under(base, Split(key));
    assert p == base + p[|base|..];
    PathExtends(base, p[|base|..]);
  }

  lemma {:induction false} CleanInside(base: seq<string>, key: string)
    requires !(".." <= Clean(key))
    ensures Inside(base, key) && PassesCheck(base, key)
  {
    var r := Resolve(Split(key));
    if r != [] {
      JoinStarts(r);
    }
    ResolveBelow(base, Split(key));
    InsidePasses(base, key);
  }

  /**
   Write refuses exactly the names that, with slashes for backslashes, start with a slash or whose
   first resolved segment begins with two dots; the others it stores under their cleaned path.
   */
  lemma {:induction false} RefusedIff(objectName: string)
    ensures var path := ReplaceBackslashes(objectName);
      var r := Resolve(Split(path));
      && (StoredKey(objectName).None? <==> "/" <= path || (r != [] && ".." <= r[0]))
      && (StoredKey(objectName).Some? ==> StoredKey(objectName).value == Clean(path))
  {
    var r := Resolve(Split(ReplaceBackslashes(objectName)));
    SplitSlashless(ReplaceBackslashes(objectName));
    ResolveSlashless(Split(ReplaceBackslashes(objectName)));
    if r != [] {
      JoinFirst(r);
    }
  }

  lemma {:induction false} JoinFirst(segments: seq<string>)
    requires segments != [] && Slashless(segments)
    ensures ".." <= Join(segments) <==> ".." <= segments[0]
    decreases |segments|
  {
    var k := |segments| - 1;
    if k > 0 {
      JoinFirst(segments[..k]);
      var front := Join(segments[..k]);
      JoinStarts(segments[..k]);
      if |front| >= 2 {
        assert (front + "/" + segments[k])[..2] == front[..2];
      } else {
        assert (front + "/" + segments[k])[|front|] == '/';
      }
    }
  }

  /** Whatever name Write accepts lies inside the base directory, so its second check never refuses one. */
  lemma {:induction false} WriteStaysInside(base: seq<string>, objectName: string)
    requires StoredKey(objectName).Some?
    ensures Inside(base, ReplaceBackslashes(objectName)) && PassesCheck(base, ReplaceBackslashes(objectName))
  {
    CleanInside(base, ReplaceBackslashes(objectName));
  }

  // ---- what else passes the check of reads and deletes ----

  /** The segments of the base up to its last, then one that begins like the last. */
  predicate Beside(base: seq<string>, p: seq<string>)
    requires base != []
  {
    && p != []
    && if |base| == 1 then base[0] <= p[0] else p[0] == base[0] && Beside(base[1..], p[1..])
  }

  lemma {:induction false} PathPrefixIff(base: seq<string>, p: seq<string>)
    requires base != [] && p != [] && Plain(base) && Plain(p)
    ensures Path(base) <= Path(p) <==> Beside(base, p)
    decreases |base|
  {
    if |base| == 1 {
      assert Path(base) == "/" + base[0];
      LastSegment(base[0], p[0], Path(p[1..]));
    } else {
      FirstSegment(base[0], Path(base[1..]), p[0], Path(p[1..]));
      if |p| > 1 {
        PathPrefixIff(base[1..], p[1..]);
      }
    }
  }

  /** `rest` is "" or starts with a slash. */
  lemma {:induction false} NotPastSegment(b: string, s: string, rest: string)
    requires Without('/', b) && (rest != "" ==> rest[0] == '/')
    ensures b <= s + rest <==> b <= s
  {
    var whole := s + rest;
    if |b| <= |s| {
      assert whole[..|b|] == s[..|b|];
    } else if rest != "" {
      assert whole[|s|] == '/' && b[|s|] != '/';
    }
  }

  lemma {:induction false} LastSegment(b: string, s: string, rest: string)
    requires Without('/', b) && (rest != "" ==> rest[0] == '/')
    ensures "/" + b <= "/" + s + rest <==> b <= s
  {
    NotPastSegment(b, s, rest);
    AfterSlash(b, s + rest);
    assert "/" + s + rest == "/" + (s + rest);
  }

  lemma {:induction false} AfterSlash(a: string, b: string)
    ensures "/" + a <= "/" + b <==> a <= b
  {
    assert ("/" + a)[1..] == a && ("/" + b)[1..] == b;
  }

  lemma {:induction false} FirstSegment(b: string, tail: string, s: string, rest: string)
    requires Without('/', b) && Without('/', s)
    requires tail != "" && tail[0] == '/' && (rest != "" ==> rest[0] == '/')
    ensures "/" + b + tail <= "/" + s + rest <==> b == s && tail <= rest
  {
    var part, whole := b + tail, s + rest;
    AfterSlash(part, whole);
    assert "/" + b + tail == "/" + part && "/" + s + rest == "/" + whole;
    NotPastSegment(b, s, rest);
    assert part[..|b|] == b && part[|b|..] == tail && part[|b|] == '/';
    assert |b| < |s| ==> whole[|b|] == s[|b|] != '/';
    assert |b| <= |whole| && |b| == |s| ==> whole[|b|..] == rest && whole[..|b|] == s;
    assert part <= whole ==> b <= whole;
  }

  lemma {:induction false} InsideIff(base: seq<string>, p: seq<string>)
    requires base != []
    ensures base <= p <==> Beside(base, p) && |p| >= |base| && p[|base| - 1] == base[|base| - 1]
    decreases |base|
  {
    if p != [] {
      if |base| > 1 {
        InsideIff(base[1..], p[1..]);
        assert base == [base[0]] + base[1..] && p == [p[0]] + p[1..];
      } else {
        assert base == [base[0]] && p[..1] == [p[0]];
      }
    }
  }

  lemma {:induction false} UnderPlain(base: seq<string>, segments: seq<string>)
    requires Plain(base) && Slashless(segments)
    ensures Plain(Under(base, segments))
    decreases |segments|
  {
    if segments != [] {
      UnderPlain(base, segments[..|segments| - 1]);
    }
  }

  /**
   ReadObject and DeleteObject have no other check. It compares strings, so besides the paths
   inside the base directory it passes exactly those below a sibling whose name begins with the
   base's.
   */
  lemma {:induction false} PassesCheckIff(base: seq<string>, key: string)
    requires base != [] && Plain(base)
    ensures var p, n := Under(base, Split(key)), |base|;
      && (PassesCheck(base, key) <==> Beside(base, p))
      && (Inside(base, key) <==> PassesCheck(base, key) && |p| >= n && p[n - 1] == base[n - 1])
  {
    var p := Under(base, Split(key));
    SplitSlashless(key);
    UnderPlain(base, Split(key));
    InsideIff(base, p);
    if p == [] {
      assert |Path(base)| > 1;
    } else {
      PathPrefixIff(base, p);
    }
  }

  lemma {:induction false} UnderUp(d: string, dir: string, file: string)
    requires Without('/', dir) && Without('/', file) && |dir| > 2 && |file| > 2
    ensures Under([d], Split(".." + "/" + dir + "/" + file)) == [dir, file]
  {
    var base, up := [d], "..";
    SplitPlain(up);
    SplitAppend(up, dir);
    SplitAppend(up + "/" + dir, file);
    UnderSnoc(base, [], up);
    UnderSnoc(base, [up], dir);
    UnderSnoc(base, [up, dir], file);
    assert [] + [up] == [up] && [up] + [dir] == [up, dir];
  }

  /** There are such paths: next to a base directory "/d", the key "../dx/f". */
  lemma {:induction false} SiblingPasses(d: string, x: string, f: string)
    requires Without('/', d) && Without('/', x) && Without('/', f)
    requires d != "" && x != "" && |d + x| > 2 && |f| > 2
    ensures var key := ".." + "/" + (d + x) + "/" + f;
      PassesCheck([d], key) && !Inside([d], key)
  {
    WithoutConcat('/', d, x);
    UnderUp(d, d + x, f);
    PassesCheckIff([d], ".." + "/" + (d + x) + "/" + f);
  }

  lemma {:induction false} UnderSnoc(base: seq<string>, front: seq<string>, segment: string)
    ensures var r := Under(base, front);
      Under(base, front + [segment]) ==
        if segment == "" || segment == "." then r
        else if segment == ".." then (if r == [] then [] else r[..|r| - 1])
        else r + [segment]
  {
    assert (front + [segment])[..|front|] == front;
  }
}
