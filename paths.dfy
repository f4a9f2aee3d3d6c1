/**
 * POSIX paths as `@std/path` treats them. An absolute path is the sequence of
 * its segments below the root; `Join` and `Resolve` normalise `.`, `..` and
 * empty segments the way `path.join` and `path.resolve` do.
 */
module Paths {

  /** An absolute path: the segments below "/" (the root itself is `[]`). */
  type Path = seq<string>

  /** A segment that names a child: non-empty, without '/', and neither "." nor "..". */
  predicate IsName(s: string) {
    s != "" && s != "." && s != ".." && '/' !in s
  }

  /** Splits a string at every '/', keeping empty pieces, like `s.split("/")`. */
  function Split(s: string): (r: seq<string>)
    ensures |r| >= 1
  {
    if s == [] then [""]
    else if s[0] == '/' then [""] + Split(s[1..])
    else
      var rest := Split(s[1..]);
      [[s[0]] + rest[0]] + rest[1..]
  }

  /** One normalisation step: "" and "." stay, ".." goes up (never above the root), a name goes down. */
  function Step(p: Path, segment: string): Path {
    if segment == "" || segment == "." then p
    else if segment == ".." then (if p == [] then [] else p[..|p| - 1])
    else p + [segment]
  }

  function Walk(p: Path, segments: seq<string>): Path
    decreases |segments|
  {
    if segments == [] then p else Walk(Step(p, segments[0]), segments[1..])
  }

  /**
   * `path.join(base, rel)` for an absolute `base`. Joining "" or "." stays at
   * `base`; joining a plain name adds exactly that one segment.
   */
  function Join(base: Path, rel: string): (p: Path)
    ensures rel == "" || rel == "." ==> p == base
    ensures IsName(rel) ==> p == base + [rel]
  {
    WalkSegment(base, rel);
    Walk(base, Split(rel))
  }

  /**
   * `path.resolve(base, rel)`: an absolute `rel` starts again from the root.
   * Resolving "." gives `base`; resolving a plain name adds that segment.
   */
  function Resolve(base: Path, rel: string): (p: Path)
    ensures rel == "." ==> p == base
    ensures IsName(rel) ==> p == base + [rel]
  {
    if |rel| > 0 && rel[0] == '/' then Walk([], Split(rel)) else Join(base, rel)
  }

  /** `path.join(a, b)` on two relative strings, before normalisation. */
  function JoinText(a: string, b: string): string {
    if a == "" then b else a + "/" + b
  }

  /** The text of an absolute path: "/" for the root, "/a/b" otherwise. */
  function ToString(p: Path): string {
    if p == [] then "/" else Segments(p)
  }

  function Segments(p: Path): string
    requires p != []
  {
    if |p| == 1 then "/" + p[0] else Segments(p[..|p| - 1]) + "/" + p[|p| - 1]
  }

  lemma {:induction false} SplitName(s: string)
    requires '/' !in s
    ensures Split(s) == [s]
  {
    if s != [] {
      assert s[0] in s;
      assert forall c :: c in s[1..] ==> c in s;
      SplitName(s[1..]);
      assert [s[0]] + s[1..] == s;
    }
  }

  lemma {:induction false} SplitConcat(a: string, b: string)
    ensures Split(a + "/" + b) == Split(a) + Split(b)
  {
    if a == [] {
      assert a + "/" + b == "/" + b;
      assert ("/" + b)[1..] == b;
    } else {
      assert (a + "/" + b)[0] == a[0];
      assert (a + "/" + b)[1..] == a[1..] + "/" + b;
      SplitConcat(a[1..], b);
    }
  }

  lemma {:induction false} WalkConcat(p: Path, xs: seq<string>, ys: seq<string>)
    ensures Walk(p, xs + ys) == Walk(Walk(p, xs), ys)
    decreases |xs|
  {
    if xs != [] {
      assert (xs + ys)[0] == xs[0];
      assert (xs + ys)[1..] == xs[1..] + ys;
      WalkConcat(Step(p, xs[0]), xs[1..], ys);
    } else {
      assert xs + ys == ys;
    }
  }

  lemma {:induction false} WalkNames(p: Path, names: seq<string>)
    requires forall i :: 0 <= i < |names| ==> IsName(names[i])
    ensures Walk(p, names) == p + names
    decreases |names|
  {
    if names != [] {
      WalkNames(p + [names[0]], names[1..]);
      assert p + [names[0]] + names[1..] == p + names;
    }
  }

  lemma WalkOne(p: Path, segment: string)
    ensures Walk(p, [segment]) == Step(p, segment)
  {
    assert [segment][1..] == [];
  }

  /** A segment without '/' splits into itself, so walking it is one step. */
  lemma WalkSegment(p: Path, segment: string)
    ensures '/' !in segment ==> Walk(p, Split(segment)) == Step(p, segment)
  {
    if '/' !in segment {
      SplitName(segment);
      WalkOne(p, segment);
    }
  }

  /**
   * Resolving `join(a, b)` against `cwd` is resolving `a` and then joining `b`,
   * whenever `b` holds no '/'.
   */
  lemma ResolveJoinText(cwd: Path, a: string, b: string)
    requires '/' !in b
    ensures Resolve(cwd, JoinText(a, b)) == Join(Resolve(cwd, a), b)
  {
    SplitName(b);
    if a == "" {
      SplitName(a);
      WalkOne(cwd, a);
    } else {
      SplitConcat(a, b);
      assert (a + "/" + b)[0] == a[0];
      var start: Path := if a[0] == '/' then [] else cwd;
      WalkConcat(start, Split(a), Split(b));
    }
  }

  lemma {:induction false} SplitSegments(p: Path)
    requires p != []
    requires forall i :: 0 <= i < |p| ==> IsName(p[i])
    ensures Split(Segments(p)) == [""] + p
  {
    if |p| == 1 {
      SplitConcat("", p[0]);
      assert "" + "/" + p[0] == "/" + p[0];
      SplitName(p[0]);
      SplitName("");
    } else {
      var init, last := p[..|p| - 1], p[|p| - 1];
      SplitSegments(init);
      SplitConcat(Segments(init), last);
      SplitName(last);
      assert init + [last] == p;
    }
  }

  /** The text of a path resolves back to the same path, from any base. */
  lemma ResolveToString(base: Path, p: Path)
    requires forall i :: 0 <= i < |p| ==> IsName(p[i])
    ensures Resolve(base, ToString(p)) == p
  {
    if p == [] {
      assert ToString(p) == "/";
      SplitConcat("", "");
      assert "" + "/" + "" == "/";
      SplitName("");
      assert Split("/") == ["", ""];
      WalkOne([], "");
      assert Walk([], ["", ""]) == Walk([], [""]);
    } else {
      SplitSegments(p);
      assert Segments(p)[0] == '/' by { SegmentsStartWithSlash(p); }
      WalkNames([], p);
    }
  }

  lemma {:induction false} SegmentsStartWithSlash(p: Path)
    requires p != []
    ensures |Segments(p)| > 0 && Segments(p)[0] == '/'
  {
    if |p| > 1 {
      SegmentsStartWithSlash(p[..|p| - 1]);
    }
  }
}
