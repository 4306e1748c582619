/** The package ecosystems (internal/parser/lockfileparser.go). */
module Ecosystems {
  datatype Ecosystem = Ecosystem(manifests: seq<string>, lockfiles: seq<string>, ignoredDirs: seq<string>)

  // The keys of the ecosystem table.
  datatype Language =
    | JavaScript | Deno | Python | Ruby | Php | Rust | Go | Java | DotNet | Swift
    | Dart | Elixir | Scala | Clojure | R | Perl | Haskell | Cpp | Nim | Crystal

  type Table = map<Language, Ecosystem>

  function Manifests(name: Language): seq<string> {
    match name
    case JavaScript => ["package.json"]
    case Deno => ["deno.json"]
    case Python => ["Pipfile", "pyproject.toml", "requirements.txt", "setup.py"]
    case Ruby => ["Gemfile"]
    case Php => ["composer.json"]
    case Rust => ["Cargo.toml"]
    case Go => ["go.mod"]
    case Java => ["pom.xml", "build.gradle", "build.gradle.kts", "settings.gradle", "settings.gradle.kts"]
    case DotNet => ["packages.config"]
    case Swift => ["Package.swift"]
    case Dart => ["pubspec.yaml"]
    case Elixir => ["mix.exs"]
    case Scala => ["build.sbt"]
    case Clojure => ["project.clj", "deps.edn"]
    case R => ["DESCRIPTION"]
    case Perl => ["cpanfile"]
    case Haskell => ["stack.yaml", "package.yaml", "cabal.project"]
    case Cpp => ["conanfile.txt", "conanfile.py", "vcpkg.json"]
    case Crystal => ["shard.yml"]
    case _ => []
  }

  function LockfileNames(name: Language): seq<string> {
    match name
    case JavaScript => [
      "package-lock.json", "npm-shrinkwrap.json", "yarn.lock", "pnpm-lock.yaml", "bun.lockb", "bun.lock", "deno.lock"
    ]
    case Deno => ["deno.lock"]
    case Python => ["Pipfile.lock", "poetry.lock", "pdm.lock", "uv.lock"]
    case Ruby => ["Gemfile.lock"]
    case Php => ["composer.lock"]
    case Rust => ["Cargo.lock"]
    case Go => ["go.sum"]
    case Java => ["gradle.lockfile"]
    case DotNet => ["packages.lock.json"]
    case Swift => ["Package.resolved"]
    case Dart => ["pubspec.lock"]
    case Elixir => ["mix.lock"]
    case Scala => ["coursier.lock"]
    case R => ["renv.lock"]
    case Perl => ["cpanfile.snapshot"]
    case Haskell => ["stack.yaml.lock", "cabal.project.freeze"]
    case Cpp => ["conan.lock", "vcpkg-lock.json"]
    case Nim => ["nimble.lock"]
    case Crystal => ["shard.lock"]
    case _ => []
  }

  function IgnoredNames(name: Language): seq<string> {
    match name
    case JavaScript => ["node_modules"]
    case Python => ["site-packages"]
    case Ruby => ["vendor/bundle"]
    case Php => ["vendor"]
    case Go => ["vendor"]
    case Dart => [".dart_tool"]
    case Cpp => ["vcpkg_installed"]
    case _ => []
  }

  function Config(name: Language): Ecosystem {
    Ecosystem(Manifests(name), LockfileNames(name), IgnoredNames(name))
  }

  const TABLE: Table := map name: Language | true :: Config(name)
}
