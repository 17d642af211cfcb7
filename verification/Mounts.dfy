/** Which host directories a container task may mount. Paths are taken as `realpath` gives
    them: absolute and normalised, a list of components. */
module Mounts {

  type Path = seq<string>

  const STAGING_PREFIX := "hadcd-blobs-"

  predicate ProperPath(p: Path) {
    forall i :: 0 <= i < |p| ==> p[i] != "" && '/' !in p[i]
  }

  function Body(p: Path): string {
    if p == [] then "" else "/" + p[0] + Body(p[1..])
  }

  /** The path as text. */
  function Render(p: Path): string {
    if p == [] then "/" else Body(p)
  }

  /** A resolved path's text is absolute, and only the root's ends in a separator. */
  lemma RenderedAbsolute(p: Path)
    requires ProperPath(p)
    ensures "/" <= Render(p) && (Render(p)[|Render(p)| - 1] == '/' <==> p == []) && (p == [] ==> Render(p) == "/")
  {
    if p != [] {
      BodyEnds(p);
    }
  }

  function DropSeparators(s: string): string {
    if s != "" && s[|s| - 1] == '/' then DropSeparators(s[..|s| - 1]) else s
  }

  /** `_is_within` on resolved paths. */
  predicate IsWithin(path: string, parent: string) {
    path == parent || DropSeparators(parent) + "/" <= path
  }

  predicate UnderStaging(path: string, tmpRoot: string) {
    DropSeparators(tmpRoot) + "/" + STAGING_PREFIX <= path
  }

  // ---- text prefixes are component prefixes ---------------------------------------------

  lemma {:induction false} BodyEnds(p: Path)
    requires ProperPath(p) && p != []
    ensures Body(p) != "" && Body(p)[|Body(p)| - 1] != '/'
  {
    if |p| > 1 {
      BodyEnds(p[1..]);
    } else {
      assert Body(p[1..]) == "";
      assert Body(p) == "/" + p[0];
      assert Body(p)[|p[0]|] == p[0][|p[0]| - 1];
    }
  }

  lemma RenderDrops(p: Path)
    requires ProperPath(p)
    ensures DropSeparators(Render(p)) == Body(p)
  {
    if p != [] {
      BodyEnds(p);
    } else {
      assert "/"[..0] == "";
    }
  }

  /** Two texts that start with separator-free words and go on with a separator agree on
      those words. */
  lemma WordsAgree(a: string, x: string, b: string, y: string)
    requires '/' !in a && '/' !in b && x != "" && x[0] == '/' && y != "" && y[0] == '/'
    requires b + y <= a + x
    ensures a == b && y <= x
  {
    var s := a + x;
    assert s[|b|] == (b + y)[|b|] == '/' && s[|a|] == '/';
    assert forall i :: 0 <= i < |a| ==> s[i] == a[i];
    assert forall i :: 0 <= i < |b| ==> s[i] == (b + y)[i] == b[i];
    assert !(|a| < |b|) && !(|b| < |a|);
    assert forall i :: 0 <= i < |y| ==> y[i] == (b + y)[|b| + i] && (b + y)[|b| + i] == s[|a| + i];
  }

  /** `tail` follows the components of `q` in the text of `p`. */
  lemma {:induction false} BodyPrefix(p: Path, q: Path, tail: string)
    requires ProperPath(p) && ProperPath(q) && tail != "" && tail[0] == '/'
    ensures Body(q) + tail <= Body(p) + "/" <==> q <= p && tail <= Body(p[|q|..]) + "/"
  {
    if q == [] {
      assert Body(q) + tail == tail;
    } else if p == [] {
      ShortPath(q, tail);
    } else {
      var x, y := Body(p[1..]) + "/", Body(q[1..]) + tail;
      BodySplits(p, "/");
      BodySplits(q, tail);
      BodyPrefix(p[1..], q[1..], tail);
      StepPrefix(p[0], x, q[0], y);
      if q <= p {
        assert p[0] == q[0] && q[1..] <= p[1..] && p[1..][|q[1..]|..] == p[|q|..];
      }
      if p[0] == q[0] && q[1..] <= p[1..] {
        assert q == [q[0]] + q[1..] && p == [p[0]] + p[1..];
        assert p[1..][|q[1..]|..] == p[|q|..];
      }
    }
  }

  lemma ShortPath(q: Path, tail: string)
    requires q != [] && ProperPath(q) && tail != ""
    ensures !(Body(q) + tail <= "/")
  {}

  lemma BodySplits(p: Path, tail: string)
    requires p != []
    ensures Body(p) + tail == "/" + (p[0] + (Body(p[1..]) + tail))
  {}

  lemma BodyStarts(p: Path, tail: string)
    requires tail != "" && tail[0] == '/'
    ensures Body(p) + tail != "" && (Body(p) + tail)[0] == '/'
  {}

  lemma StepPrefix(a: string, x: string, b: string, y: string)
    requires '/' !in a && '/' !in b && x != "" && x[0] == '/' && y != "" && y[0] == '/'
    ensures "/" + (b + y) <= "/" + (a + x) <==> a == b && y <= x
  {
    if "/" + (b + y) <= "/" + (a + x) {
      assert ("/" + (b + y))[1..] == b + y && ("/" + (a + x))[1..] == a + x;
      WordsAgree(a, x, b, y);
    }
    if a == b && y <= x {
      assert x == y + x[|y|..];
      assert "/" + (a + x) == "/" + (b + y) + x[|y|..];
    }
  }

  lemma SameOrInside(a: string, b: string)
    ensures a == b || b + "/" <= a <==> b + "/" <= a + "/"
  {
    if b + "/" <= a + "/" {
      assert forall i :: 0 <= i < |b| ==> b[i] == (b + "/")[i] == (a + "/")[i] == a[i];
      assert |b| < |a| ==> a[|b|] == (a + "/")[|b|] == (b + "/")[|b|];
    }
    if b + "/" <= a {
      assert forall i :: 0 <= i < |b| + 1 ==> (b + "/")[i] == a[i] == (a + "/")[i];
    }
  }

  /** A resolved path is within another exactly if the other's components are a prefix of its
      own: "/data2" is not within "/data", and everything is within "/". */
  lemma WithinExactly(p: Path, parent: Path)
    requires ProperPath(p) && ProperPath(parent)
    ensures IsWithin(Render(p), Render(parent)) <==> parent <= p
  {
    RenderDrops(parent);
    BodyPrefix(p, parent, "/");
    BodyStarts(p[if parent <= p then |parent| else 0..], "/");
    hide DropSeparators;
    if parent != [] {
      BodyEnds(parent);
    }
    hide Body;
    if p == [] {
      ShortOrEmpty(parent);
    } else {
      BodyStarts(p, "/");
      BodyEnds(p);
      SameOrInside(Body(p), Body(parent));
      if parent == [] {
        NoBody();
      }
    }
  }

  lemma NoBody()
    ensures Body([]) == ""
  {}

  lemma ShortOrEmpty(q: Path)
    requires ProperPath(q)
    ensures Body(q) + "/" <= "/" <==> q == []
  {
    if q != [] {
      ShortPath(q, "/");
    }
  }

  /** A separator-free word that begins a path's text after the separator begins its first
      component. */
  lemma WordFits(p: Path, word: string)
    requires ProperPath(p) && word != "" && '/' !in word
    ensures "/" + word <= Body(p) + "/" <==> p != [] && word <= p[0]
    ensures "/" + word <= Body(p) <==> p != [] && word <= p[0]
  {
    if p == [] {
      assert |"/" + word| >= 2;
    } else {
      var rest := Body(p[1..]);
      BodySplits(p, "/");
      var text := "/" + (p[0] + (rest + "/"));
      assert Body(p) == text[..|text| - 1];
      assert text[1 + |p[0]|] == (p[0] + (rest + "/"))[|p[0]|] == (rest + "/")[0] == '/';
      assert forall i :: 0 <= i < |p[0]| ==> text[1 + i] == p[0][i];
      if "/" + word <= text {
        assert forall i :: 0 <= i < |word| ==> word[i] == ("/" + word)[1 + i] == text[1 + i];
        assert |word| <= |p[0]|;
      }
      if word <= p[0] {
        assert forall i :: 0 <= i < 1 + |word| ==> ("/" + word)[i] == text[i];
      }
    }
  }

  /** A path is staged exactly if it lies below the temporary directory and the component
      after that starts with the staging prefix. */
  lemma StagedExactly(p: Path, tmpRoot: Path)
    requires ProperPath(p) && ProperPath(tmpRoot)
    ensures UnderStaging(Render(p), Render(tmpRoot)) <==>
      |tmpRoot| < |p| && tmpRoot <= p && STAGING_PREFIX <= p[|tmpRoot|]
  {
    RenderDrops(tmpRoot);
    var tail := "/" + STAGING_PREFIX;
    assert Body(tmpRoot) + "/" + STAGING_PREFIX == Body(tmpRoot) + tail;
    BodyPrefix(p, tmpRoot, tail);
    if tmpRoot <= p {
      WordFits(p[|tmpRoot|..], STAGING_PREFIX);
    }
    hide Body, DropSeparators;
    NotLast(Body(p), Body(tmpRoot) + tail);
    if p == [] {
      NoBody();
    }
  }

  lemma NotLast(text: string, part: string)
    requires |part| >= 2 && part[|part| - 1] != '/'
    ensures part <= text + "/" <==> part <= text
    ensures !(part <= "/")
  {
    if part <= text + "/" {
      assert part[|part| - 1] == (text + "/")[|part| - 1];
      assert forall i :: 0 <= i < |part| ==> part[i] == (text + "/")[i] == text[i];
    }
  }
}
