/** The program's ecosystem table meets what the pairing results ask of a table. */
module EcosystemTable {
  import opened Strings
  import opened Paths
  import opened Ecosystems
  import opened IgnoredPaths
  import opened Lockfiles

  // The ecosystem of a manifest name: its length and a few letters tell.
  ghost function Owner(m: string): Language {
    if |m| == 6 then Go
    else if |m| == 7 then
      (if m[0] == 'P' then Python else if m[0] == 'G' then Ruby else if m[0] == 'p' then Java else Elixir)
    else if |m| == 8 then (if m[0] == 's' then Python else if m[0] == 'd' then Clojure else Perl)
    else if |m| == 9 then (if m[0] == 'd' then Deno else if m[0] == 'b' then Scala else Crystal)
    else if |m| == 10 then (if m[0] == 'C' then Rust else if m[0] == 's' then Haskell else Cpp)
    else if |m| == 11 then (if m[0] == 'p' then Clojure else R)
    else if |m| == 12 then
      (if m[0] == 'b' then Java else if m[0] == 'c' then Cpp
       else if m[1] == 'u' then Dart else if m[11] == 'n' then JavaScript else Haskell)
    else if |m| == 13 then
      (if m[2] == 'm' then Php else if m[2] == 'c' then Swift else if m[2] == 'n' then Cpp else Haskell)
    else if |m| == 14 then Python
    else if |m| == 15 then (if m[0] == 's' then Java else DotNet)
    else if |m| == 16 then (if m[0] == 'r' then Python else Java)
    else Java
  }

  ghost predicate Owned(name: Language) {
    forall m | m in Manifests(name) :: Owner(m) == name
  }

  predicate Early(name: Language) {
    name.Deno? || name.Python? || name.Ruby? || name.Php? || name.Rust?
  }

  predicate Middle(name: Language) {
    name.Go? || name.Java? || name.DotNet? || name.Swift? || name.Dart? || name.Elixir? || name.Scala?
  }

  lemma EarlyOwned(name: Language)
    requires Early(name)
    ensures Owned(name)
  {
  }

  lemma MiddleOwned(name: Language)
    requires Middle(name)
    ensures Owned(name)
  {
  }

  lemma LateOwned(name: Language)
    requires !Early(name) && !Middle(name)
    ensures Owned(name)
  {
  }

  ghost predicate PlainLockfiles(name: Language) {
    forall f | f in LockfileNames(name) :: Plain(f) && !IsSpace(f[0])
  }

  lemma JavaScriptPlain()
    ensures PlainLockfiles(JavaScript)
  {
  }

  lemma EarlyPlain(name: Language)
    requires Early(name)
    ensures PlainLockfiles(name)
  {
  }

  lemma MiddlePlain(name: Language)
    requires Middle(name)
    ensures PlainLockfiles(name)
  {
  }

  lemma LatePlain(name: Language)
    requires name.Clojure? || name.R? || name.Perl? || name.Nim?
    ensures PlainLockfiles(name)
  {
  }

  lemma LastPlain(name: Language)
    requires name.Cpp? || name.Crystal?
    ensures PlainLockfiles(name)
  {
  }

  lemma HaskellPlain()
    ensures PlainLockfiles(Haskell)
  {
  }

  lemma OneComponent(d: string)
    requires d != "" && Free(d, '/')
    ensures ProperDir(d)
  {
    SplitFree(d, '/');
  }

  lemma IgnoredProper(name: Language)
    ensures forall d | d in IgnoredNames(name) :: ProperDir(d)
  {
    hide Split, ProperDir;
    OneComponent("node_modules");
    OneComponent("site-packages");
    OneComponent("vendor");
    OneComponent(".dart_tool");
    OneComponent("vcpkg_installed");
    TwoComponents("vendor", "bundle");
    assert "vendor" + "/" + "bundle" == "vendor/bundle";
  }

  lemma TwoComponents(a: string, b: string)
    requires a != "" && b != "" && Free(a, '/') && Free(b, '/')
    ensures ProperDir(a + "/" + b)
  {
    SplitFree(a, '/');
    SplitSnoc(a, b);
  }

  /** The table meets what the pairing results ask of it. */
  lemma TableIsWellFormed()
    ensures WellFormed(TABLE)
  {
    hide Manifests, LockfileNames, IgnoredNames, Owner, ProperDir;
    forall name: Language
      ensures Owned(name) && PlainLockfiles(name) && forall d | d in IgnoredNames(name) :: ProperDir(d)
    {
      if Early(name) { EarlyOwned(name); } else if Middle(name) { MiddleOwned(name); } else { LateOwned(name); }
      if name.JavaScript? {
        JavaScriptPlain();
      } else if Early(name) {
        EarlyPlain(name);
      } else if Middle(name) {
        MiddlePlain(name);
      } else if name.Haskell? {
        HaskellPlain();
      } else if name.Cpp? || name.Crystal? {
        LastPlain(name);
      } else {
        LatePlain(name);
      }
      IgnoredProper(name);
    }
  }
}
