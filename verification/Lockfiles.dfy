/** Pairing manifests with lockfiles (internal/parser/lockfileparser.go). A pairing method may visit
    the files and the ecosystems in any order; the result is described as a multiset. */
module Lockfiles {
  import opened Strings
  import opened Paths
  import opened Ecosystems
  import opened IgnoredPaths

  datatype Pairing = Pairing(manifest: string, lockfile: string)

  predicate IsManifest(e: Ecosystem, p: string, dirs: set<string>) {
    !IsIgnored(p, dirs) && Base(p) in e.manifests
  }

  // The first of the lockfiles that stands beside p, or "".
  function FirstLockfile(lockfiles: seq<string>, p: string, paths: set<string>): string {
    if lockfiles == [] then ""
    else if Beside(p, lockfiles[0]) in paths then Beside(p, lockfiles[0])
    else FirstLockfile(lockfiles[1..], p, paths)
  }

  predicate Pairs(e: Ecosystem, x: Pairing, paths: set<string>, dirs: set<string>) {
    x.manifest in paths && IsManifest(e, x.manifest, dirs)
    && x.lockfile == FirstLockfile(e.lockfiles, x.manifest, paths)
  }

  // The ecosystems among `keys` that have the pairing.
  function Sources(table: Table, keys: set<Language>, paths: set<string>, x: Pairing): set<Language> {
    set k | k in keys && k in table && Pairs(table[k], x, paths, IgnoredDirs(table))
  }

  // One copy of each pairing for each ecosystem that has it.
  ghost predicate Detected(table: Table, keys: set<Language>, paths: set<string>, pairings: seq<Pairing>) {
    forall x: Pairing :: multiset(pairings)[x] == |Sources(table, keys, paths, x)|
  }

  // ---- the methods ----------------------------------------------------------------------------------------

  function Matching(paths: set<string>, filenames: seq<string>, dirs: set<string>): set<string> {
    set p | p in paths && !IsIgnored(p, dirs) && Base(p) in filenames
  }

  lemma MatchingStep(paths: set<string>, filenames: seq<string>, dirs: set<string>, p: string)
    requires p !in paths
    ensures multiset(Matching(paths + {p}, filenames, dirs)) == multiset(Matching(paths, filenames, dirs))
      + if !IsIgnored(p, dirs) && Base(p) in filenames then multiset{p} else multiset{}
  {
    hide IsIgnored, Base;
    var a, b := Matching(paths, filenames, dirs), Matching(paths + {p}, filenames, dirs);
    if !IsIgnored(p, dirs) && Base(p) in filenames {
      assert b == a + {p};
    } else {
      assert b == a;
    }
  }

  method FindFiles(paths: set<string>, filenames: seq<string>, dirs: seq<string>) returns (matches: seq<string>)
    ensures multiset(matches) == multiset(Matching(paths, filenames, Elems(dirs)))
  {
    hide IsIgnored, Base, Matching, Elems;
    matches := [];
    var todo := paths;
    ghost var seen: set<string> := {};
    ghost var dirSet := Elems(dirs);
    NoMatches(filenames, dirSet);
    while todo != {}
      invariant todo <= paths && seen == paths - todo
      invariant multiset(matches) == multiset(Matching(seen, filenames, dirSet))
      decreases |todo|
    {
      var path :| path in todo;
      MatchingStep(seen, filenames, dirSet, path);
      todo, seen := todo - {path}, seen + {path};
      var ignored := IsIgnoredPath(path, dirs);
      if ignored {
        continue;
      }
      var basename := Base(path);
      var i := 0;
      while i < |filenames|
        invariant i <= |filenames| && forall j | 0 <= j < i :: filenames[j] != basename
      {
        if basename == filenames[i] {
          matches := matches + [path];
          break;
        }
        i := i + 1;
      }
    }
    assert seen == paths;
  }

  lemma NoMatches(filenames: seq<string>, dirs: set<string>)
    ensures Matching({}, filenames, dirs) == {}
  {
  }

  method LockfileFor(e: Ecosystem, paths: set<string>, manifestPath: string) returns (foundLockfile: string)
    ensures foundLockfile == FirstLockfile(e.lockfiles, manifestPath, paths)
  {
    hide Dir, Clean;
    DirNotEmpty(manifestPath);
    var manifestDir := Dir(manifestPath);
    if manifestDir == "." {
      manifestDir := "";
    }
    foundLockfile := "";
    var i := 0;
    assert e.lockfiles[0..] == e.lockfiles;
    while i < |e.lockfiles|
      invariant i <= |e.lockfiles|
      invariant FirstLockfile(e.lockfiles[i..], manifestPath, paths) == FirstLockfile(e.lockfiles, manifestPath, paths)
    {
      assert e.lockfiles[i..][1..] == e.lockfiles[i + 1..];
      var lockfilePath := e.lockfiles[i];
      if manifestDir != "" {
        lockfilePath := Clean(manifestDir + "/" + e.lockfiles[i]);
      }
      if lockfilePath in paths {
        return lockfilePath;
      }
      i := i + 1;
    }
  }

  method DetectForEcosystem(e: Ecosystem, paths: set<string>, dirs: seq<string>) returns (pairings: seq<Pairing>)
    ensures forall x: Pairing :: multiset(pairings)[x] == if Pairs(e, x, paths, Elems(dirs)) then 1 else 0
  {
    pairings := [];
    var manifests := FindFiles(paths, e.manifests, dirs);
    var m := 0;
    while m < |manifests|
      invariant m <= |manifests| && |pairings| == m
      invariant forall k | 0 <= k < m ::
        pairings[k] == Pairing(manifests[k], FirstLockfile(e.lockfiles, manifests[k], paths))
    {
      var foundLockfile := LockfileFor(e, paths, manifests[m]);
      pairings := pairings + [Pairing(manifests[m], foundLockfile)];
      m := m + 1;
    }
    forall x: Pairing ensures multiset(pairings)[x] == if Pairs(e, x, paths, Elems(dirs)) then 1 else 0 {
      CountPairings(e, paths, manifests, pairings, x);
    }
  }

  // Pairing is injective on manifest paths.
  lemma {:induction false} CountPairings(e: Ecosystem, paths: set<string>, manifests: seq<string>,
                                       pairings: seq<Pairing>, x: Pairing)
    requires |pairings| == |manifests|
    requires forall k | 0 <= k < |manifests| ::
      pairings[k] == Pairing(manifests[k], FirstLockfile(e.lockfiles, manifests[k], paths))
    ensures multiset(pairings)[x]
         == if x.lockfile == FirstLockfile(e.lockfiles, x.manifest, paths) then multiset(manifests)[x.manifest] else 0
    decreases |manifests|
  {
    hide FirstLockfile;
    if manifests != [] {
      var n := |manifests| - 1;
      CountPairings(e, paths, manifests[..n], pairings[..n], x);
      assert manifests == manifests[..n] + [manifests[n]];
      assert pairings == pairings[..n] + [pairings[n]];
    }
  }

  // files: the paths of the repository's files, by file type.
  method DetectLockfilePairings(table: Table, files: map<string, seq<string>>) returns (pairings: seq<Pairing>)
    ensures Detected(table, table.Keys, Gather(files, files.Keys), pairings)
  {
    hide Gather, Elems;
    pairings := [];
    var filePathSet := GatherAll(files);
    var dirs := GetAllIgnoredDirs(table);
    var todo := table.Keys;
    ghost var done: set<Language> := {};
    DetectedNone(table, filePathSet);
    while todo != {}
      invariant todo <= table.Keys && done == table.Keys - todo
      invariant Detected(table, done, filePathSet, pairings)
      decreases |todo|
    {
      var k :| k in todo;
      var more := DetectForEcosystem(table[k], filePathSet, dirs);
      DetectedStep(table, done, k, filePathSet, pairings, more);
      pairings := pairings + more;
      todo, done := todo - {k}, done + {k};
    }
    assert done == table.Keys;
  }

  lemma DetectedNone(table: Table, paths: set<string>)
    ensures Detected(table, {}, paths, [])
  {
    forall x: Pairing ensures multiset([])[x] == |Sources(table, {}, paths, x)| {
      assert Sources(table, {}, paths, x) == {};
    }
  }

  lemma SourcesStep(table: Table, done: set<Language>, k: Language, paths: set<string>, x: Pairing)
    requires k in table && k !in done
    ensures |Sources(table, done + {k}, paths, x)|
         == |Sources(table, done, paths, x)| + if Pairs(table[k], x, paths, IgnoredDirs(table)) then 1 else 0
  {
    hide Pairs, IgnoredDirs;
    assert Sources(table, done + {k}, paths, x)
        == Sources(table, done, paths, x) + if Pairs(table[k], x, paths, IgnoredDirs(table)) then {k} else {};
  }

  lemma DetectedStep(table: Table, done: set<Language>, k: Language, paths: set<string>,
                     pairings: seq<Pairing>, more: seq<Pairing>)
    requires k in table && k !in done && Detected(table, done, paths, pairings)
    requires forall x: Pairing :: multiset(more)[x] == if Pairs(table[k], x, paths, IgnoredDirs(table)) then 1 else 0
    ensures Detected(table, done + {k}, paths, pairings + more)
  {
    hide Pairs, Sources, IgnoredDirs;
    assert multiset(pairings + more) == multiset(pairings) + multiset(more);
    forall x: Pairing ensures multiset(pairings + more)[x] == |Sources(table, done + {k}, paths, x)| {
      SourcesStep(table, done, k, paths, x);
    }
  }

  method HasCompleteLockfiles(pairings: seq<Pairing>) returns (complete: bool)
    ensures complete <==> pairings != [] && forall x | x in pairings :: TrimSpace(x.lockfile) != ""
  {
    if |pairings| == 0 {
      return false;
    }
    var i := 0;
    while i < |pairings|
      invariant i <= |pairings| && forall k | 0 <= k < i :: TrimSpace(pairings[k].lockfile) != ""
    {
      if pairings[i].lockfile == "" || TrimSpace(pairings[i].lockfile) == "" {
        assert pairings[i] in pairings;
        return false;
      }
      i := i + 1;
    }
    return true;
  }

  // ---- what the pairings say ----------------------------------------------------------------------------

  // r is the path of the first lockfile in the list that stands beside p, or "" when none does.
  ghost predicate Preferred(lockfiles: seq<string>, p: string, paths: set<string>, r: string) {
    || (r == "" && forall i | 0 <= i < |lockfiles| :: Beside(p, lockfiles[i]) !in paths)
    || exists i | 0 <= i < |lockfiles| ::
         && r == Beside(p, lockfiles[i]) && r in paths
         && forall j | 0 <= j < i :: Beside(p, lockfiles[j]) !in paths
  }

  lemma {:induction false} FirstLockfileIsPreferred(lockfiles: seq<string>, p: string, paths: set<string>)
    ensures Preferred(lockfiles, p, paths, FirstLockfile(lockfiles, p, paths))
    decreases |lockfiles|
  {
    if lockfiles != [] && Beside(p, lockfiles[0]) !in paths {
      var rest := lockfiles[1..];
      FirstLockfileIsPreferred(rest, p, paths);
      var r := FirstLockfile(rest, p, paths);
      assert forall j | 1 <= j < |lockfiles| :: lockfiles[j] == rest[j - 1];
      if i :|
        0 <= i < |rest| && r == Beside(p, rest[i]) && r in paths
        && (forall j | 0 <= j < i :: Beside(p, rest[j]) !in paths)
      {
        assert lockfiles[i + 1] == rest[i];
      }
    }
  }

  // Manifest names tell the ecosystem, lockfile names are plain, ignored directories have no empty component.
  ghost predicate WellFormed(table: Table) {
    && (forall k, l | k in table && l in table && k != l ::
          forall m | m in table[k].manifests :: m !in table[l].manifests)
    && (forall k, f | k in table && f in table[k].lockfiles :: Plain(f) && !IsSpace(f[0]))
    && (forall d | d in IgnoredDirs(table) :: ProperDir(d))
  }

  lemma SourcesAtMostOne(table: Table, paths: set<string>, x: Pairing)
    requires WellFormed(table)
    ensures |Sources(table, table.Keys, paths, x)|
         == if exists k | k in table :: Pairs(table[k], x, paths, IgnoredDirs(table)) then 1 else 0
  {
    var sources := Sources(table, table.Keys, paths, x);
    if k :| k in table && Pairs(table[k], x, paths, IgnoredDirs(table)) {
      forall l | l in sources ensures l == k {
        assert Base(x.manifest) in table[k].manifests && Base(x.manifest) in table[l].manifests;
      }
      assert sources == {k};
    } else {
      assert sources == {};
    }
  }

  lemma TwoCopies<T>(s: seq<T>, i: nat, j: nat)
    requires i < j < |s| && s[i] == s[j]
    ensures multiset(s)[s[i]] >= 2
  {
    assert s == s[..j] + s[j..];
    assert s[..j][i] in multiset(s[..j]) && s[j..][0] in multiset(s[j..]);
  }

  // p has the name of a manifest of ecosystem k, and no ignored directory's components among its own.
  ghost predicate IsManifestOf(table: Table, k: Language, p: string)
    requires k in table
  {
    && (forall d | d in IgnoredDirs(table) :: !Sublist(Split(d, '/'), Split(p, '/')))
    && Base(p) in table[k].manifests
  }

  lemma ManifestExactly(table: Table, k: Language, p: string)
    requires WellFormed(table) && k in table
    ensures IsManifestOf(table, k, p) <==> IsManifest(table[k], p, IgnoredDirs(table))
  {
    IgnoredExactly(p, IgnoredDirs(table));
    hide Sublist, Split, Base, IgnoredDirs;
  }

  /** Every manifest path outside the ignored directories gets exactly one pairing, with the preferred lockfile
      of the only ecosystem that knows the manifest; nothing else gets one. */
  lemma ExactlyOnePairing(table: Table, paths: set<string>, pairings: seq<Pairing>)
    requires WellFormed(table) && Detected(table, table.Keys, paths, pairings)
    ensures forall p :: (exists i | 0 <= i < |pairings| :: pairings[i].manifest == p)
                   <==> p in paths && exists k | k in table :: IsManifestOf(table, k, p)
    ensures forall i, j | 0 <= i < j < |pairings| :: pairings[i].manifest != pairings[j].manifest
    ensures forall i, k |
      0 <= i < |pairings| && k in table && IsManifestOf(table, k, pairings[i].manifest) ::
      Preferred(table[k].lockfiles, pairings[i].manifest, paths, pairings[i].lockfile)
  {
    hide IsIgnored, FirstLockfile, Base, Preferred;
    var dirs := IgnoredDirs(table);
    forall k, p | k in table ensures IsManifestOf(table, k, p) <==> IsManifest(table[k], p, dirs) {
      ManifestExactly(table, k, p);
    }
    hide IsManifestOf;
    forall i | 0 <= i < |pairings|
      ensures exists k | k in table :: Pairs(table[k], pairings[i], paths, dirs)
    {
      assert pairings[i] in multiset(pairings);
      SourcesAtMostOne(table, paths, pairings[i]);
    }
    forall i, k | 0 <= i < |pairings| && k in table && IsManifest(table[k], pairings[i].manifest, dirs)
      ensures Pairs(table[k], pairings[i], paths, dirs)
      ensures Preferred(table[k].lockfiles, pairings[i].manifest, paths, pairings[i].lockfile)
    {
      FirstLockfileIsPreferred(table[k].lockfiles, pairings[i].manifest, paths);
    }
    forall i, j | 0 <= i < j < |pairings| ensures pairings[i].manifest != pairings[j].manifest {
      if pairings[i].manifest == pairings[j].manifest {
        var k :| k in table && Pairs(table[k], pairings[i], paths, dirs);
        assert Pairs(table[k], pairings[j], paths, dirs);
        TwoCopies(pairings, i, j);
        SourcesAtMostOne(table, paths, pairings[i]);
      }
    }
    forall p, k | p in paths && k in table && IsManifest(table[k], p, dirs)
      ensures exists i | 0 <= i < |pairings| :: pairings[i].manifest == p
    {
      var x := Pairing(p, FirstLockfile(table[k].lockfiles, p, paths));
      assert Pairs(table[k], x, paths, dirs);
      SourcesAtMostOne(table, paths, x);
      assert x in multiset(pairings);
    }
  }

  // The lockfile of a pairing is blank exactly when no lockfile stands beside the manifest.
  lemma BlankMeansUnmatched(lockfiles: seq<string>, p: string, paths: set<string>)
    requires forall f | f in lockfiles :: Plain(f) && !IsSpace(f[0])
    ensures TrimSpace(FirstLockfile(lockfiles, p, paths)) != ""
       <==> exists f | f in lockfiles :: Beside(p, f) in paths
  {
    hide Beside, TrimSpace;
    var r := FirstLockfile(lockfiles, p, paths);
    FirstLockfileIsPreferred(lockfiles, p, paths);
    if i :| 0 <= i < |lockfiles| && r == Beside(p, lockfiles[i]) && r in paths {
      var f := lockfiles[i];
      BesideEndsWith(p, f);
      assert r[|r| - |f|] == r[|r| - |f|..][0] == f[0];
      NotBlank(r, f[0]);
    } else {
      assert TrimSpace("") == "" by { BlankIsBlank(); }
    }
  }

  lemma BlankIsBlank()
    ensures TrimSpace("") == ""
  {
    assert TrimLeft("", IsSpace) == "";
  }

  // Some lockfile of the ecosystem stands beside p.
  ghost predicate Matched(e: Ecosystem, p: string, paths: set<string>) {
    exists f | f in e.lockfiles :: Beside(p, f) in paths
  }

  lemma PairingMatched(table: Table, paths: set<string>, pairings: seq<Pairing>, x: Pairing) returns (k: Language)
    requires WellFormed(table) && Detected(table, table.Keys, paths, pairings) && x in pairings
    ensures k in table && x.manifest in paths && IsManifest(table[k], x.manifest, IgnoredDirs(table))
    ensures TrimSpace(x.lockfile) != "" <==> Matched(table[k], x.manifest, paths)
  {
    hide IsManifest, FirstLockfile, TrimSpace, IgnoredDirs, Beside;
    assert x in multiset(pairings);
    SourcesAtMostOne(table, paths, x);
    k :| k in table && Pairs(table[k], x, paths, IgnoredDirs(table));
    BlankMeansUnmatched(table[k].lockfiles, x.manifest, paths);
  }

  lemma ManifestPaired(table: Table, paths: set<string>, pairings: seq<Pairing>, k: Language, p: string)
    returns (x: Pairing)
    requires WellFormed(table) && Detected(table, table.Keys, paths, pairings)
    requires k in table && p in paths && IsManifest(table[k], p, IgnoredDirs(table))
    ensures x in pairings && (TrimSpace(x.lockfile) != "" <==> Matched(table[k], p, paths))
  {
    hide IsManifest, FirstLockfile, TrimSpace, IgnoredDirs, Beside;
    x := Pairing(p, FirstLockfile(table[k].lockfiles, p, paths));
    assert Pairs(table[k], x, paths, IgnoredDirs(table));
    SourcesAtMostOne(table, paths, x);
    assert x in multiset(pairings);
    BlankMeansUnmatched(table[k].lockfiles, p, paths);
  }

  /** HasCompleteLockfiles of the detected pairings: there is a manifest, and beside every manifest stands
      a lockfile of its ecosystem. */
  lemma CompleteExactly(table: Table, paths: set<string>, pairings: seq<Pairing>)
    requires WellFormed(table) && Detected(table, table.Keys, paths, pairings)
    ensures
      (pairings != [] && forall x | x in pairings :: TrimSpace(x.lockfile) != "")
      <==>
      && (exists k, p :: k in table && p in paths && IsManifestOf(table, k, p))
      && (forall k, p | k in table && p in paths && IsManifestOf(table, k, p) :: Matched(table[k], p, paths))
  {
    hide IsManifest, TrimSpace, Matched, WellFormed, Detected, IgnoredDirs;
    var dirs := IgnoredDirs(table);
    forall k, p | k in table ensures IsManifestOf(table, k, p) <==> IsManifest(table[k], p, dirs) {
      ManifestExactly(table, k, p);
    }
    hide IsManifestOf;
    var complete := pairings != [] && forall x | x in pairings :: TrimSpace(x.lockfile) != "";
    if complete {
      var k := PairingMatched(table, paths, pairings, pairings[0]);
      forall k, p | k in table && p in paths && IsManifest(table[k], p, dirs) ensures Matched(table[k], p, paths) {
        var x := ManifestPaired(table, paths, pairings, k, p);
      }
    } else if k, p :| k in table && p in paths && IsManifest(table[k], p, dirs) {
      var x := ManifestPaired(table, paths, pairings, k, p);
      var y :| y in pairings && TrimSpace(y.lockfile) == "";
      var l := PairingMatched(table, paths, pairings, y);
    }
  }
}
