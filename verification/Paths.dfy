/** The parts of Go's `path/filepath` package (with '/' as separator) that the lockfile pairing uses. */
module Paths {
  import opened Strings

  // Drops empty and "." components and resolves "..".
  function Normalise(comps: seq<string>, rooted: bool): seq<string> {
    if comps == [] then []
    else
      var init := Normalise(comps[..|comps| - 1], rooted);
      var last := comps[|comps| - 1];
      if last == "" || last == "." then init
      else if last != ".." then init + [last]
      else if init != [] && init[|init| - 1] != ".." then init[..|init| - 1]
      else if rooted then init
      else init + [".."]
  }

  function Clean(p: string): string {
    var rooted := p != "" && p[0] == '/';
    var body := Join(Normalise(Split(p, '/'), rooted), "/");
    if rooted then "/" + body else if body == "" then "." else body
  }

  function Base(p: string): string {
    if p == "" then "."
    else
      var q := TrimRight(p, c => c == '/');
      var last := q[LastIndexOf(q, '/') + 1..];
      if last == "" then "/" else last
  }

  function Dir(p: string): string { Clean(p[..LastIndexOf(p, '/') + 1]) }

  lemma DirNotEmpty(p: string)
    ensures Dir(p) != ""
  {
  }

  // The path of the file `name` in the directory of p, where the directory "." is left out.
  function Beside(p: string, name: string): string {
    if Dir(p) == "." then name else Clean(Dir(p) + "/" + name)
  }

  // ---- clean relative paths ------------------------------------------------------------------------------

  predicate Plain(comp: string) { comp != "" && comp != "." && comp != ".." && Free(comp, '/') }

  predicate CleanPath(p: string) {
    forall i | 0 <= i < |Split(p, '/')| :: Plain(Split(p, '/')[i])
  }

  lemma {:induction false} NormalisePlain(comps: seq<string>, rooted: bool)
    requires forall i | 0 <= i < |comps| :: Plain(comps[i])
    ensures Normalise(comps, rooted) == comps
    decreases |comps|
  {
    if comps != [] {
      var n := |comps| - 1;
      NormalisePlain(comps[..n], rooted);
      assert comps == comps[..n] + [comps[n]];
    }
  }

  lemma {:induction false} JoinSplit(s: string)
    ensures Join(Split(s, '/'), "/") == s
    decreases |s|
  {
    if s != [] {
      JoinSplit(s[1..]);
      var rest := Split(s[1..], '/');
      assert s == [s[0]] + s[1..];
      if s[0] == '/' {
        assert ([""] + rest)[1..] == rest;
        assert "" + "/" + Join(rest, "/") == "/" + Join(rest, "/");
      } else {
        var head := [[s[0]] + rest[0]];
        assert (head + rest[1..])[1..] == rest[1..];
        if |rest| > 1 {
          AppendAssoc([s[0]], rest[0], "/");
          AppendAssoc([s[0]], rest[0] + "/", Join(rest[1..], "/"));
        }
      }
    }
  }

  lemma NotRooted(p: string)
    requires CleanPath(p)
    ensures p != "" && p[0] != '/' && p != "."
  {
    if p == "." { SplitFree(p, '/'); }
    assert Plain(Split(p, '/')[0]);
  }

  lemma CleanIsFixed(p: string)
    requires CleanPath(p)
    ensures Clean(p) == p
  {
    NotRooted(p);
    NormalisePlain(Split(p, '/'), false);
    JoinSplit(p);
  }

  lemma CutAt(p: string, i: nat) returns (a: string, b: string)
    requires i < |p| && p[i] == '/' && forall j | i < j < |p| :: p[j] != '/'
    ensures p == a + "/" + b && Free(b, '/')
  {
    a, b := p[..i], p[i + 1..];
    forall j | 0 <= j < |b| ensures b[j] != '/' {
      assert b[j] == p[i + 1 + j];
    }
  }

  // Every path is a bare name or a directory path, a slash and a name.
  lemma Cases(p: string) returns (a: string, b: string)
    ensures Free(b, '/')
    ensures p == (if LastIndexOf(p, '/') < 0 then b else a + "/" + b)
  {
    hide LastIndexOf;
    var i := LastIndexOf(p, '/');
    LastIndexOfIs(p, '/');
    if i >= 0 {
      a, b := CutAt(p, i);
    } else {
      a, b := "", p;
    }
  }

  lemma LastSlash(a: string, b: string)
    requires Free(b, '/')
    ensures LastIndexOf(b, '/') == -1
    ensures LastIndexOf(a + "/" + b, '/') == |a|
  {
    hide LastIndexOf;
    LastIndexOfIs(b, '/');
    var p := a + "/" + b;
    LastIndexOfIs(p, '/');
    assert p[|a|] == '/';
    forall j | |a| < j < |p| ensures p[j] != '/' {
      assert p[j] == b[j - |a| - 1];
    }
  }

  lemma SplitSnoc(a: string, name: string)
    requires Free(name, '/')
    ensures Split(a + "/" + name, '/') == Split(a, '/') + [name]
  {
    SplitAppend(a, '/', name);
    SplitFree(name, '/');
  }

  /** For a clean path the directory test is by components: the base is the last one, and the file beside it
      has the same components but for the last. */
  lemma BesideIs(p: string, name: string)
    requires CleanPath(p) && Plain(name)
    ensures var comps := Split(p, '/');
      && Base(p) == comps[|comps| - 1]
      && Split(Beside(p, name), '/') == comps[..|comps| - 1] + [name]
  {
    hide Base, Beside, Split, LastIndexOf;
    var a, b := Cases(p);
    if LastIndexOf(p, '/') < 0 {
      BesideRoot(b, name);
      assert [b][..0] == [];
      AppendNil([name]);
    } else {
      BesideNested(a, b, name);
      assert (Split(a, '/') + [b])[..|Split(a, '/')|] == Split(a, '/');
    }
  }

  lemma BesideRoot(b: string, name: string)
    requires CleanPath(b) && Free(b, '/') && Plain(name)
    ensures Split(b, '/') == [b] && Base(b) == b && Split(Beside(b, name), '/') == [name]
  {
    SplitFree(b, '/');
    SplitFree(name, '/');
    BaseIs(b);
    LastSlash("", b);
    assert b[..0] == "" && b[0..] == b;
    assert Split("", '/') == [""];
    assert Normalise([""][..0], false) == [];
  }

  lemma BesideNested(a: string, b: string, name: string)
    requires CleanPath(a + "/" + b) && Free(b, '/') && Plain(name)
    ensures Split(a + "/" + b, '/') == Split(a, '/') + [b] && Base(a + "/" + b) == b
    ensures Split(Beside(a + "/" + b, name), '/') == Split(a, '/') + [name]
  {
    hide Base, Dir, Clean, Split, LastIndexOf;
    var p := a + "/" + b;
    var dir := Split(a, '/');
    SplitSnoc(a, b);
    LastSlash(a, b);
    BaseIs(p);
    assert p[|a| + 1..] == b;
    assert CleanPath(a) by {
      assert forall k | 0 <= k < |dir| :: (dir + [b])[k] == dir[k] && Plain((dir + [b])[k]);
    }
    DirIs(a, b);
    SplitSnoc(a, name);
    assert CleanPath(a + "/" + name);
    CleanIsFixed(a + "/" + name);
  }

  lemma BaseIs(p: string)
    requires CleanPath(p)
    ensures Base(p) == p[LastIndexOf(p, '/') + 1..]
  {
    hide LastIndexOf, Split;
    NotRooted(p);
    LastIndexOfIs(p, '/');
    var i := LastIndexOf(p, '/');
    if i == |p| - 1 {
      SplitSnoc(p[..i], "");
      assert p == p[..i] + "/" + "";
      assert Split(p, '/')[|Split(p, '/')| - 1] == "";
    } else {
      assert p[i + 1..] != "";
    }
  }

  lemma DirIs(a: string, b: string)
    requires CleanPath(a) && Free(b, '/')
    ensures Dir(a + "/" + b) == a && a != "."
  {
    LastSlash(a, b);
    NotRooted(a);
    assert (a + "/" + b)[..|a| + 1] == a + "/" + "";
    SplitSnoc(a, "");
    var comps := Split(a, '/');
    NormalisePlain(comps, false);
    assert (comps + [""])[..|comps|] == comps;
    JoinSplit(a);
  }

  // ---- a computed path is never blank ---------------------------------------------------------------------

  lemma {:induction false} JoinEndsWith(init: seq<string>, name: string)
    ensures HasSuffix(Join(init + [name], "/"), name)
    decreases |init|
  {
    if init == [] {
      AppendNil([name]);
    } else {
      JoinEndsWith(init[1..], name);
      assert (init + [name])[1..] == init[1..] + [name];
    }
  }

  lemma ConsSuffix(s: string, name: string)
    requires HasSuffix(s, name) && name != ""
    ensures s != "" && HasSuffix("/" + s, name)
  {
    assert ("/" + s)[|s| + 1 - |name|..] == s[|s| - |name|..];
  }

  // Appending a component and cleaning keeps that component at the end.
  lemma CleanEndsWith(d: string, name: string)
    requires Plain(name)
    ensures HasSuffix(Clean(d + "/" + name), name)
  {
    var q := d + "/" + name;
    var rooted := q[0] == '/';
    var init := Normalise(Split(d, '/'), rooted);
    assert Normalise(Split(q, '/'), rooted) == init + [name] by {
      hide Split;
      SplitSnoc(d, name);
      assert Split(q, '/')[..|Split(d, '/')|] == Split(d, '/');
    }
    hide Split, Join, Normalise, HasSuffix;
    JoinEndsWith(init, name);
    ConsSuffix(Join(init + [name], "/"), name);
  }

  lemma BesideEndsWith(p: string, name: string)
    requires Plain(name)
    ensures HasSuffix(Beside(p, name), name)
  {
    hide Clean, Dir;
    CleanEndsWith(Dir(p), name);
  }

  // ---- dots --------------------------------------------------------------------------------------------------------

  /** ".." takes back the component before it unless that is ".." too, stays where nothing can be taken back, is
      dropped at the root; empty and "." components count for nothing. */
  lemma DotsResolve(comps: seq<string>, name: string, rooted: bool)
    requires Plain(name)
    ensures Normalise(comps + [name] + [".."], rooted) == Normalise(comps, rooted)
    ensures Normalise(comps + [""], rooted) == Normalise(comps, rooted)
    ensures Normalise(comps + ["."], rooted) == Normalise(comps, rooted)
    ensures var r := Normalise(comps, rooted);
      r == [] || r[|r| - 1] == ".." ==>
        Normalise(comps + [".."], rooted) == if rooted then r else r + [".."]
  {
    hide Normalise, Plain;
    var one := comps + [name];
    NormaliseSnoc(comps, name, rooted);
    NormaliseSnoc(one, "..", rooted);
    NormaliseSnoc(comps, "..", rooted);
    NormaliseSnoc(comps, "", rooted);
    NormaliseSnoc(comps, ".", rooted);
    assert name != "" && name != "." && name != ".." by {
      PlainIsNoDot(name);
    }
    var r := Normalise(comps, rooted);
    assert (r + [name])[..|r|] == r;
  }

  lemma PlainIsNoDot(name: string)
    requires Plain(name)
    ensures name != "" && name != "." && name != ".."
  {
  }

  lemma NormaliseSnoc(init: seq<string>, last: string, rooted: bool)
    ensures var r := Normalise(init, rooted);
      Normalise(init + [last], rooted)
        == if last == "" || last == "." then r
           else if last != ".." then r + [last]
           else if r != [] && r[|r| - 1] != ".." then r[..|r| - 1]
           else if rooted then r
           else r + [".."]
  {
    var all := init + [last];
    assert all[|all| - 1] == last && all[..|all| - 1] == init;
  }

  // Plain components after leading ".." ones, of which a rooted path has none.
  predicate Normal(r: seq<string>, rooted: bool) {
    && (forall i | 0 <= i < |r| :: Plain(r[i]) || r[i] == "..")
    && (forall i, j | 0 <= i < j < |r| && r[j] == ".." :: r[i] == "..")
    && (rooted ==> forall i | 0 <= i < |r| :: r[i] != "..")
  }

  lemma NormalSnoc(r: seq<string>, comp: string, rooted: bool)
    requires Normal(r, rooted)
    requires Plain(comp) || (comp == ".." && !rooted && (r == [] || r[|r| - 1] == ".."))
    ensures Normal(r + [comp], rooted)
  {
    var all := r + [comp];
    assert forall i | 0 <= i < |r| :: all[i] == r[i];
    assert comp == ".." && r != [] ==> forall i | 0 <= i < |r| - 1 :: r[i] == "..";
  }

  lemma NormalInit(r: seq<string>, rooted: bool)
    requires r != [] && Normal(r, rooted)
    ensures Normal(r[..|r| - 1], rooted)
  {
  }

  /** Normalising leaves plain components after leading ".." ones, of which a rooted path keeps none. */
  lemma {:induction false} NormaliseIsNormal(comps: seq<string>, rooted: bool)
    requires forall i | 0 <= i < |comps| :: Free(comps[i], '/')
    ensures Normal(Normalise(comps, rooted), rooted)
    decreases |comps|
  {
    if comps != [] {
      NormaliseIsNormal(comps[..|comps| - 1], rooted);
      var init, last := Normalise(comps[..|comps| - 1], rooted), comps[|comps| - 1];
      hide Normal;
      if last != "" && last != "." {
        if last != ".." {
          NormalSnoc(init, last, rooted);
        } else if init != [] && init[|init| - 1] != ".." {
          NormalInit(init, rooted);
        } else if !rooted {
          NormalSnoc(init, last, rooted);
        }
      }
    }
  }

  // ---- base names ------------------------------------------------------------------------------------------------

  lemma AllSlashes(tail: string)
    requires forall c | c in tail :: c == '/'
    ensures All(tail, c => c == '/')
  {
    forall i | 0 <= i < |tail| ensures tail[i] == '/' {
      assert tail[i] in tail;
    }
  }

  /** The base is the last component that is not empty, whatever slashes follow it. */
  lemma BaseOf(front: string, name: string, tail: string)
    requires front == "" || front[|front| - 1] == '/'
    requires name != "" && Free(name, '/') && forall c | c in tail :: c == '/'
    ensures Base(front + name + tail) == name
  {
    var q := front + name;
    AllSlashes(tail);
    assert name[|name| - 1] in name && q[|q| - 1] == name[|name| - 1];
    TrimRightPad(q, tail, c => c == '/');
    TrimRightAll(tail, c => c == '/');
    AppendNil(q);
    hide TrimRight, LastIndexOf;
    LastIndexOfIs(q, '/');
    var i := LastIndexOf(q, '/');
    assert i == |front| - 1 by {
      forall j | |front| <= j < |q| ensures q[j] != '/' {
        assert q[j] == name[j - |front|] && name[j - |front|] in name;
      }
      assert front != "" ==> q[|front| - 1] == '/';
    }
    assert q[|front|..] == name;
  }

  /** The base of slashes alone is a slash, and of the empty path a dot. */
  lemma BaseOfNothing(tail: string)
    requires forall c | c in tail :: c == '/'
    ensures Base(tail) == if tail == "" then "." else "/"
  {
    AllSlashes(tail);
    TrimRightAll(tail, c => c == '/');
  }
}
