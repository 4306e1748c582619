/** Ignored directories (internal/parser/lockfileparser.go): a substring test on path text, and what it
    means for path components. */
module IgnoredPaths {
  import opened Strings
  import opened Ecosystems

  // ---- gathering the lists of a map -----------------------------------------------------------------------

  function Elems(s: seq<string>): set<string> { set x | x in s }

  // The members of the lists under the given keys.
  function Gather<K(!new)>(lists: map<K, seq<string>>, keys: set<K>): set<string> {
    set k, x | k in keys && k in lists && x in lists[k] :: x
  }

  lemma ElemsSnoc(s: seq<string>, i: nat)
    requires i < |s|
    ensures Elems(s[..i + 1]) == Elems(s[..i]) + {s[i]}
  {
    assert s[..i + 1] == s[..i] + [s[i]];
  }

  lemma GatherStep<K(!new)>(lists: map<K, seq<string>>, keys: set<K>, k: K)
    requires k in lists
    ensures Gather(lists, keys + {k}) == Gather(lists, keys) + Elems(lists[k])
  {
  }

  // The loop nest that fills a set from a map of lists, in any order of the keys.
  method GatherAll<K(==, !new)>(lists: map<K, seq<string>>) returns (all: set<string>)
    ensures all == Gather(lists, lists.Keys)
  {
    all := {};
    var todo := lists.Keys;
    ghost var done: set<K> := {};
    assert all == Gather(lists, done);
    while todo != {}
      invariant todo <= lists.Keys && done == lists.Keys - todo
      invariant all == Gather(lists, done)
      decreases |todo|
    {
      var k :| k in todo;
      var i := 0;
      assert all == Gather(lists, done) + Elems(lists[k][..0]);
      while i < |lists[k]|
        invariant i <= |lists[k]|
        invariant all == Gather(lists, done) + Elems(lists[k][..i])
      {
        ElemsSnoc(lists[k], i);
        all := all + {lists[k][i]};
        i := i + 1;
      }
      assert lists[k][..i] == lists[k];
      GatherStep(lists, done, k);
      todo, done := todo - {k}, done + {k};
    }
  }

  // ---- ignored directories -------------------------------------------------------------------------------

  predicate IsSlash(c: char) { c == '/' }

  function TrimSlashes(s: string): string { TrimRight(TrimLeft(s, IsSlash), IsSlash) }

  // The fast test: a substring for a directory path, a path part for a directory name.
  predicate InDirectory(path: string, ignored: string) {
    if '/' in ignored then Contains("/" + TrimSlashes(path) + "/", "/" + ignored + "/")
    else ignored in Split(path, '/')
  }

  predicate IsIgnored(path: string, dirs: set<string>) {
    exists d | d in dirs :: InDirectory(path, d)
  }

  // The directories that some ecosystem ignores.
  function IgnoredDirs(table: Table): set<string> {
    set k, d | k in table && d in table[k].ignoredDirs :: d
  }

  method GetAllIgnoredDirs(table: Table) returns (dirs: seq<string>)
    ensures Elems(dirs) == IgnoredDirs(table)
    ensures multiset(dirs) == multiset(IgnoredDirs(table))
  {
    var lists := map k | k in table :: table[k].ignoredDirs;
    var dirSet := GatherAll(lists);
    assert forall k | k in table :: lists[k] == table[k].ignoredDirs;
    assert dirSet == IgnoredDirs(table) by {
      forall d ensures d in Gather(lists, lists.Keys) <==> d in IgnoredDirs(table) {
        if k :| k in table && d in table[k].ignoredDirs { assert d in lists[k]; }
      }
    }
    dirs := SetToSeq(dirSet);
  }

  method SetToSeq(s: set<string>) returns (r: seq<string>)
    ensures multiset(r) == multiset(s)
    ensures forall x :: x in r <==> x in s
  {
    r := [];
    var todo := s;
    while todo != {}
      invariant todo <= s
      invariant multiset(r) == multiset(s - todo)
      decreases |todo|
    {
      var x :| x in todo;
      r := r + [x];
      todo := todo - {x};
      assert s - todo == (s - (todo + {x})) + {x};
    }
    assert s - todo == s;
    assert forall x :: x in r <==> x in multiset(r);
  }

  // dirs is the list that GetAllIgnoredDirs once put in the cache, in whatever order.
  method IsIgnoredPath(path: string, dirs: seq<string>) returns (yes: bool)
    ensures yes <==> IsIgnored(path, Elems(dirs))
  {
    var normalizedPath := "/" + TrimSlashes(path) + "/";
    var parts := Split(path, '/');
    var i := 0;
    while i < |dirs|
      invariant i <= |dirs| && forall k | 0 <= k < i :: !InDirectory(path, dirs[k])
    {
      var ignored := dirs[i];
      if '/' in ignored {
        if Contains(normalizedPath, "/" + ignored + "/") {
          assert InDirectory(path, ignored);
          return true;
        }
      } else {
        var j := 0;
        while j < |parts|
          invariant j <= |parts| && forall k | 0 <= k < j :: parts[k] != ignored
        {
          if parts[j] == ignored {
            assert InDirectory(path, ignored);
            return true;
          }
          j := j + 1;
        }
      }
      i := i + 1;
    }
    return false;
  }

  // ---- the structural meaning ---------------------------------------------------------------------------

  predicate SublistAt(needle: seq<string>, hay: seq<string>, k: nat) {
    k + |needle| <= |hay| && hay[k..k + |needle|] == needle
  }

  // needle is a contiguous sublist of hay.
  predicate Sublist(needle: seq<string>, hay: seq<string>) {
    exists k | 0 <= k <= |hay| :: SublistAt(needle, hay, k)
  }

  predicate SlashFree(comps: seq<string>) {
    forall i | 0 <= i < |comps| :: Free(comps[i], '/')
  }

  // Components with a slash before, between and after them.
  function Encode(comps: seq<string>): string {
    if comps == [] then "/" else "/" + (comps[0] + Encode(comps[1..]))
  }

  lemma {:induction false} SplitSlashFree(s: string)
    ensures SlashFree(Split(s, '/'))
  {
    if s != [] {
      SplitSlashFree(s[1..]);
    }
  }

  lemma {:induction false} EncodeSplit(s: string)
    ensures Encode(Split(s, '/')) == "/" + (s + "/")
  {
    if s == [] {
      assert Encode([""]) == "/" + ("" + Encode([]));
      AppendNil("/");
    } else {
      EncodeSplit(s[1..]);
      var rest := Split(s[1..], '/');
      assert s == [s[0]] + s[1..];
      AppendAssoc([s[0]], s[1..], "/");
      if s[0] == '/' {
        assert ([""] + rest)[1..] == rest;
        AppendNil(Encode(rest));
      } else {
        var tail := Encode(rest[1..]);
        assert Encode(rest) == "/" + (rest[0] + tail);
        assert rest[0] + tail == Encode(rest)[1..] == s[1..] + "/";
        assert ([[s[0]] + rest[0]] + rest[1..])[1..] == rest[1..];
        AppendAssoc([s[0]], rest[0], tail);
      }
    }
  }

  lemma {:induction false} HeadsMatch(a: string, b: string, u: string, v: string)
    requires Free(a, '/') && Free(b, '/') && u != [] && v != [] && u[0] == '/' && v[0] == '/'
    ensures b + u <= a + v <==> a == b && u <= v
    decreases |a|
  {
    if a == [] && b == [] {
      AppendNil(u);
      AppendNil(v);
    } else if a == [] {
      assert (b + u)[0] == b[0] && (a + v)[0] == '/';
      assert b[0] in b;
    } else if b == [] {
      assert (b + u)[0] == '/' && (a + v)[0] == a[0];
      assert a[0] in a;
    } else {
      assert b + u == [b[0]] + (b[1..] + u) && a + v == [a[0]] + (a[1..] + v);
      HeadsMatch(a[1..], b[1..], u, v);
      PrefixCons(b[0], b[1..] + u, a[0], a[1..] + v);
      assert a == [a[0]] + a[1..] && b == [b[0]] + b[1..];
    }
  }

  lemma PrefixCons(x: char, p: string, y: char, q: string)
    ensures [x] + p <= [y] + q <==> x == y && p <= q
  {
    var s, t := [x] + p, [y] + q;
    assert s[0] == x && t[0] == y && s[1..] == p && t[1..] == q;
    if s <= t {
      assert t[1..|s|] == s[1..];
      assert t[1..|s|] == t[1..][..|s| - 1];
    }
  }

  lemma {:induction false} EncodePrefix(hay: seq<string>, needle: seq<string>)
    requires SlashFree(hay) && SlashFree(needle)
    ensures Encode(needle) <= Encode(hay) <==> needle <= hay
    decreases |needle|
  {
    if needle == [] {
      assert Encode(hay)[0] == '/';
    } else if hay == [] {
      assert |Encode(needle[1..])| >= 1;
    } else {
      EncodePrefix(hay[1..], needle[1..]);
      var u, v := Encode(needle[1..]), Encode(hay[1..]);
      PrefixCons('/', needle[0] + u, '/', hay[0] + v);
      HeadsMatch(hay[0], needle[0], u, v);
      assert needle <= hay <==> needle[0] == hay[0] && needle[1..] <= hay[1..] by {
        assert needle == [needle[0]] + needle[1..] && hay == [hay[0]] + hay[1..];
        if needle <= hay {
          assert hay[1..|needle|] == needle[1..];
          assert hay[1..][..|needle| - 1] == needle[1..];
        }
      }
    }
  }

  lemma SublistUnfold(needle: seq<string>, hay: seq<string>)
    requires hay != []
    ensures Sublist(needle, hay) <==> needle <= hay || Sublist(needle, hay[1..])
  {
    if k :| 0 <= k <= |hay| && SublistAt(needle, hay, k) {
      if k > 0 {
        assert hay[1..][k - 1..k - 1 + |needle|] == hay[k..k + |needle|];
        assert SublistAt(needle, hay[1..], k - 1);
      } else {
        assert hay[..|needle|] == needle;
      }
    }
    if needle <= hay {
      assert SublistAt(needle, hay, 0);
    }
    if k :| 0 <= k <= |hay[1..]| && SublistAt(needle, hay[1..], k) {
      assert hay[1..][k..k + |needle|] == hay[k + 1..k + 1 + |needle|];
      assert SublistAt(needle, hay, k + 1);
    }
  }

  lemma FrontIsSlashFree(a: string, v: string, j: nat)
    requires Free(a, '/') && 0 < j < 1 + |a|
    ensures ("/" + (a + v))[j] != '/'
  {
    assert ("/" + (a + v))[j] == a[j - 1] && a[j - 1] in a;
  }

  // n occurs in "/" + (a + v), where a is free of slashes, only at the front or in v.
  lemma OccursThere(n: string, a: string, v: string, i: nat)
    requires |n| >= 1 && n[0] == '/' && Free(a, '/')
    requires OccursAt("/" + (a + v), n, i)
    ensures n <= "/" + (a + v) || Contains(v, n)
  {
    var s := "/" + (a + v);
    var d := 1 + |a|;
    assert s[i] == s[i..i + |n|][0];
    if 0 < i < d {
      FrontIsSlashFree(a, v, i);
    } else if i == 0 {
      assert s[..|n|] == n;
    } else {
      assert v[i - d..i - d + |n|] == s[i..i + |n|];
      assert OccursAt(v, n, i - d);
    }
  }

  lemma OccursHere(n: string, a: string, v: string, i: nat)
    requires OccursAt(v, n, i)
    ensures OccursAt("/" + (a + v), n, i + 1 + |a|)
  {
    var s, d := "/" + (a + v), 1 + |a|;
    assert s[i + d..i + d + |n|] == v[i..i + |n|];
  }

  lemma OccursUnfold(n: string, a: string, v: string)
    requires |n| >= 1 && n[0] == '/' && Free(a, '/')
    ensures Contains("/" + (a + v), n) <==> n <= "/" + (a + v) || Contains(v, n)
  {
    var s := "/" + (a + v);
    if i :| 0 <= i <= |s| - |n| && OccursAt(s, n, i) {
      OccursThere(n, a, v, i);
    }
    if n <= s {
      assert OccursAt(s, n, 0);
    }
    if i :| 0 <= i <= |v| - |n| && OccursAt(v, n, i) {
      OccursHere(n, a, v, i);
    }
  }

  lemma {:induction false} EncodeOccurs(hay: seq<string>, needle: seq<string>)
    requires SlashFree(hay) && SlashFree(needle) && needle != []
    ensures Contains(Encode(hay), Encode(needle)) <==> Sublist(needle, hay)
    decreases |hay|
  {
    if hay == [] {
      assert |Encode(needle)| >= 2;
    } else {
      EncodeOccurs(hay[1..], needle);
      EncodePrefix(hay, needle);
      OccursUnfold(Encode(needle), hay[0], Encode(hay[1..]));
      SublistUnfold(needle, hay);
      hide Sublist, Contains;
    }
  }

  // ---- trimming slashes drops empty components only ---------------------------------------------------------

  lemma {:induction false} SublistSnoc(needle: seq<string>, hay: seq<string>)
    requires needle != [] && needle[|needle| - 1] != ""
    ensures Sublist(needle, hay + [""]) <==> Sublist(needle, hay)
  {
    var h := hay + [""];
    if k :| 0 <= k <= |h| && SublistAt(needle, h, k) {
      assert h[k..k + |needle|][|needle| - 1] == h[k + |needle| - 1];
      assert hay[k..k + |needle|] == h[k..k + |needle|];
      assert SublistAt(needle, hay, k);
    }
    if k :| 0 <= k <= |hay| && SublistAt(needle, hay, k) {
      assert h[k..k + |needle|] == hay[k..k + |needle|];
      assert SublistAt(needle, h, k);
    }
  }

  lemma {:induction false} TrimLeftSublist(s: string, needle: seq<string>)
    requires needle != [] && needle[0] != ""
    ensures Sublist(needle, Split(TrimLeft(s, IsSlash), '/')) <==> Sublist(needle, Split(s, '/'))
    decreases |s|
  {
    if s != [] && s[0] == '/' {
      TrimLeftSublist(s[1..], needle);
      var hay := Split(s, '/');
      assert hay[1..] == Split(s[1..], '/');
      SublistUnfold(needle, hay);
    }
  }

  lemma {:induction false} TrimRightSublist(s: string, needle: seq<string>)
    requires needle != [] && needle[|needle| - 1] != ""
    ensures Sublist(needle, Split(TrimRight(s, IsSlash), '/')) <==> Sublist(needle, Split(s, '/'))
    decreases |s|
  {
    if s != [] && s[|s| - 1] == '/' {
      var t := s[..|s| - 1];
      TrimRightSublist(t, needle);
      SplitAppend(t, '/', "");
      assert s == t + ['/'] + "";
      SublistSnoc(needle, Split(t, '/'));
    }
  }

  // A directory: components separated by single slashes.
  predicate ProperDir(d: string) {
    forall i | 0 <= i < |Split(d, '/')| :: Split(d, '/')[i] != ""
  }

  lemma MemberIsSublist(x: string, hay: seq<string>)
    ensures x in hay <==> Sublist([x], hay)
  {
    if x in hay {
      var k :| 0 <= k < |hay| && hay[k] == x;
      assert SublistAt([x], hay, k);
    }
    if k :| 0 <= k <= |hay| && SublistAt([x], hay, k) {
      assert hay[k..k + 1][0] == hay[k];
    }
  }

  /** For every path the fast test of an ignored directory is structural: the directory's components form
      a contiguous sublist of the path's components. */
  lemma IgnoredIsSublist(path: string, d: string)
    requires ProperDir(d)
    ensures InDirectory(path, d) <==> Sublist(Split(d, '/'), Split(path, '/'))
  {
    var needle := Split(d, '/');
    if '/' in d {
      var left := TrimLeft(path, IsSlash);
      var t := TrimSlashes(path);
      SplitSlashFree(t);
      SplitSlashFree(d);
      EncodeSplit(t);
      EncodeSplit(d);
      AppendAssoc("/", t, "/");
      AppendAssoc("/", d, "/");
      EncodeOccurs(Split(t, '/'), needle);
      TrimRightSublist(left, needle);
      TrimLeftSublist(path, needle);
    } else {
      SplitFree(d, '/');
      MemberIsSublist(d, Split(path, '/'));
    }
  }

  // The same for a whole set of directories.
  lemma IgnoredExactly(path: string, dirs: set<string>)
    requires forall d | d in dirs :: ProperDir(d)
    ensures IsIgnored(path, dirs) <==> exists d | d in dirs :: Sublist(Split(d, '/'), Split(path, '/'))
  {
    hide InDirectory, Sublist, ProperDir, Split;
    forall d | d in dirs ensures InDirectory(path, d) <==> Sublist(Split(d, '/'), Split(path, '/')) {
      IgnoredIsSublist(path, d);
    }
  }
}
