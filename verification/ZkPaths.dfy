/** Absolute node paths: the text the code cuts up, and the components it means. */
module ZkPaths {
  type Path = seq<string>

  /** Components as they come from a cleaned path. */
  predicate Plain(part: string) {
    part != "" && '/' !in part
  }

  predicate Normal(p: Path) {
    p != [] && forall part | part in p :: Plain(part)
  }

  function Render(p: Path): string {
    if p == [] then "" else Render(p[..|p| - 1]) + "/" + p[|p| - 1]
  }

  function TrimLeft(s: string): string {
    if s != "" && s[0] == '/' then TrimLeft(s[1..]) else s
  }

  function TrimRight(s: string): string {
    if s != "" && s[|s| - 1] == '/' then TrimRight(s[..|s| - 1]) else s
  }

  /** Splits at every slash; a text without one is a single part. */
  function Split(s: string): (r: seq<string>)
    ensures r != []
  {
    if s == "" then [""]
    else
      var front := Split(s[..|s| - 1]);
      var c := s[|s| - 1];
      if c == '/' then front + [""]
      else front[..|front| - 1] + [front[|front| - 1] + [c]]
  }

  /** What `ensurePath` works on. */
  function Components(zkPath: string): seq<string> {
    Split(TrimRight(TrimLeft(zkPath)))
  }

  /** The part of a cleaned path before its last slash, or the root. */
  function Dir(s: string): string {
    if s == "" then "."
    else if s[|s| - 1] == '/' then (if |s| == 1 then "/" else s[..|s| - 1])
    else Dir(s[..|s| - 1])
  }

  // ---------------------------------------------------------------- trimming and splitting any text

  function WithLast(parts: seq<string>, more: string): seq<string>
    requires parts != []
  {
    parts[..|parts| - 1] + [parts[|parts| - 1] + more]
  }

  function Join(parts: seq<string>): string
    requires parts != []
  {
    if |parts| == 1 then parts[0] else Join(parts[..|parts| - 1]) + "/" + parts[|parts| - 1]
  }

  /** No part has a slash, and put together with slashes the parts give the text back. */
  lemma {:induction false} SplitThenJoin(s: string)
    ensures Join(Split(s)) == s && forall part | part in Split(s) :: '/' !in part
  {
    if s != "" {
      var front, c := Split(s[..|s| - 1]), s[|s| - 1];
      SplitThenJoin(s[..|s| - 1]);
      assert s == s[..|s| - 1] + [c];
      if c == '/' {
        assert (front + [""])[..|front|] == front;
        assert forall part | part in front + [""] :: part in front || part == "";
      } else {
        JoinWithLast(front, [c]);
        LastPart(front, c);
      }
    }
  }

  lemma JoinWithLast(parts: seq<string>, more: string)
    requires parts != []
    ensures Join(WithLast(parts, more)) == Join(parts) + more
  {
    var n := |parts| - 1;
    assert WithLast(parts, more)[..n] == parts[..n];
    if n > 0 {
      assert Join(parts[..n]) + "/" + (parts[n] + more) == Join(parts[..n]) + "/" + parts[n] + more;
    }
  }

  lemma LastPart(parts: seq<string>, c: char)
    requires parts != [] && c != '/' && forall part | part in parts :: '/' !in part
    ensures forall part | part in WithLast(parts, [c]) :: '/' !in part
  {
    forall part | part in WithLast(parts, [c])
      ensures '/' !in part
    {
      if part != parts[|parts| - 1] + [c] {
        assert part in parts;
      }
    }
  }

  ghost predicate OnlySlashes(s: string) {
    forall c | c in s :: c == '/'
  }

  /** What is trimmed off at both ends is slashes, and all of them. */
  lemma TrimTakesTheSlashes(s: string) returns (left: string, right: string)
    ensures
      var t := TrimRight(TrimLeft(s));
      && s == left + t + right && OnlySlashes(left) && OnlySlashes(right)
      && (t != "" ==> t[0] != '/' && t[|t| - 1] != '/')
  {
    left := TrimsLeft(s);
    right := TrimsRight(TrimLeft(s));
  }

  lemma {:induction false} TrimsLeft(s: string) returns (left: string)
    ensures s == left + TrimLeft(s) && OnlySlashes(left) && (TrimLeft(s) != "" ==> TrimLeft(s)[0] != '/')
  {
    left := "";
    if s != "" && s[0] == '/' {
      left := TrimsLeft(s[1..]);
      left := ['/'] + left;
    }
  }

  lemma {:induction false} TrimsRight(s: string) returns (right: string)
    ensures s == TrimRight(s) + right && OnlySlashes(right)
    ensures TrimRight(s) != "" ==> TrimRight(s)[|TrimRight(s)| - 1] != '/' && TrimRight(s)[0] == s[0]
  {
    right := "";
    if s != "" && s[|s| - 1] == '/' {
      right := TrimsRight(s[..|s| - 1]);
      right := right + ['/'];
    }
  }

  // ---------------------------------------------------------------- splitting undoes rendering

  lemma SplitChar(s: string, c: char)
    requires c != '/'
    ensures Split(s + [c]) == WithLast(Split(s), [c])
  {
  }

  lemma WithLastTwice(parts: seq<string>, a: string, b: string)
    requires parts != []
    ensures WithLast(WithLast(parts, a), b) == WithLast(parts, a + b)
  {
    assert parts[|parts| - 1] + a + b == parts[|parts| - 1] + (a + b);
  }

  lemma SplitPartOneMore(s: string, init: string, c: char, parts: seq<string>)
    requires c != '/' && parts != [] && Split(s + init) == WithLast(parts, init)
    ensures Split(s + (init + [c])) == WithLast(parts, init + [c])
  {
    SplitChar(s + init, c);
    WithLastTwice(parts, init, [c]);
    assert s + (init + [c]) == s + init + [c];
  }

  lemma {:induction false} SplitPart(s: string, part: string)
    requires '/' !in part
    ensures Split(s + part) == WithLast(Split(s), part)
    decreases |part|
  {
    var parts := Split(s);
    if part == "" {
      assert s + part == s;
      assert parts[|parts| - 1] + part == parts[|parts| - 1];
    } else {
      var init, c := part[..|part| - 1], part[|part| - 1];
      assert part == init + [c] && c in part && forall x | x in init :: x in part;
      SplitPart(s, init);
      SplitPartOneMore(s, init, c, parts);
    }
  }

  lemma SplitNextPart(s: string, part: string)
    requires '/' !in part
    ensures Split(s + "/" + part) == Split(s) + [part]
  {
    assert (s + "/")[..|s + "/"| - 1] == s;
    assert Split(s + "/") == Split(s) + [""];
    SplitPart(s + "/", part);
    assert "" + part == part;
  }

  lemma SplitRenderedOne(part: string)
    requires Plain(part)
    ensures Render([part]) == "/" + part && Split(part) == [part]
  {
    assert [part][..0] == [];
    assert "" + part == part;
    SplitPart("", part);
    assert Split("")[..0] == [];
  }

  lemma SplitRenderedMore(front: Path, r: string, last: string)
    requires Plain(last) && r == Render(front) && r != "" && r[0] == '/' && Split(r[1..]) == front
    ensures Render(front + [last])[1..] == r[1..] + "/" + last
    ensures Split(r[1..] + "/" + last) == front + [last]
  {
    assert (front + [last])[..|front|] == front;
    SplitNextPart(r[1..], last);
  }

  /** Without its leading slash, a rendered path splits into its components. */
  lemma {:induction false} SplitRendered(p: Path)
    requires Normal(p)
    ensures Render(p) != "" && Render(p)[0] == '/' && Split(Render(p)[1..]) == p
  {
    var n := |p| - 1;
    var last := p[n];
    assert last in p;
    assert p == p[..n] + [last];
    if n == 0 {
      SplitRenderedOne(last);
      assert ("/" + last)[1..] == last;
    } else {
      assert forall part | part in p[..n] :: part in p;
      SplitRendered(p[..n]);
      SplitRenderedMore(p[..n], Render(p[..n]), last);
    }
  }

  lemma {:induction false} RenderedStartsPlain(p: Path)
    requires Normal(p)
    ensures p[0] != "" && |Render(p)| >= 2 && Render(p)[1] == p[0][0] && p[0][0] != '/'
  {
    assert p[0] in p;
    assert Plain(p[0]);
    assert p[0][0] in p[0];
    var n := |p| - 1;
    if n > 0 {
      assert forall part | part in p[..n] :: part in p;
      RenderedStartsPlain(p[..n]);
    } else {
      assert Render(p[..0]) == "";
    }
  }

  /** Cutting up a rendered path, as `ensurePath` does, gives back its components. */
  lemma ComponentsOfRendered(p: Path)
    requires Normal(p)
    ensures Components(Render(p)) == p
  {
    SplitRendered(p);
    RenderedStartsPlain(p);
    var s := Render(p);
    assert TrimLeft(s) == TrimLeft(s[1..]) == s[1..];
    var last := p[|p| - 1];
    assert last in p && last[|last| - 1] in last;
    assert s[|s| - 1] == last[|last| - 1];
    assert TrimRight(s[1..]) == s[1..];
  }

  lemma {:induction false} DirSkipsPart(s: string, part: string)
    requires '/' !in part && s != "" && s[|s| - 1] == '/'
    ensures Dir(s + part) == if |s| == 1 then "/" else s[..|s| - 1]
    decreases |part|
  {
    if part == "" {
      assert s + part == s;
    } else {
      var init := part[..|part| - 1];
      assert part[|part| - 1] in part && forall x | x in init :: x in part;
      assert (s + part)[..|s + part| - 1] == s + init;
      DirSkipsPart(s, init);
    }
  }

  /** The parent directory of a rendered path is the rendered parent, or the root. */
  lemma DirOfRendered(p: Path)
    requires Normal(p)
    ensures Dir(Render(p)) == if |p| == 1 then "/" else Render(p[..|p| - 1])
  {
    var n := |p| - 1;
    assert p[n] in p;
    var s := Render(p[..n]) + "/";
    assert s[..|s| - 1] == Render(p[..n]);
    DirSkipsPart(s, p[n]);
    if n > 0 {
      assert forall part | part in p[..n] :: part in p;
      RenderedStartsPlain(p[..n]);
    }
  }

  /** The lock of a key is a sibling of the key's node: both have the same proper ancestors. */
  lemma LockIsASibling(p: Path)
    requires Normal(p)
    ensures
      var n := |p| - 1;
      var lock := p[..n] + [p[n] + "_lock"];
      Render(p) + "_lock" == Render(lock) && Normal(lock) && lock[..n] == p[..n]
  {
    var n := |p| - 1;
    var lock := p[..n] + [p[n] + "_lock"];
    assert p[n] in p;
    assert lock[..n] == p[..n];
    forall part | part in lock
      ensures Plain(part)
    {
      if part == p[n] + "_lock" {
        assert '/' !in "_lock";
      } else {
        assert part in p;
      }
    }
  }
}
