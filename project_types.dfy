/**
 * The values the dependency-list builder reads and produces: the parsed
 * package.json and yarn.lock, the npm configuration, the foreign libraries
 * it calls, and the records it emits.
 */
module ProjectTypes {
  import opened Wrappers

  /** One `[name, version]` pair of a dependency map of package.json, in the
      order `Object.entries` yields them: the package name and its declared spec. */
  datatype Entry = Entry(name: string, spec: string)

  /** A `volta` or `engines` object of package.json; only its `node` member is read. */
  datatype Toolchain = Toolchain(node: Option<string>)

  /** The members of a parsed package.json that the builder reads. A map or
      object that is absent (or falsy) is `None`. */
  datatype Manifest = Manifest(
    dependencies: Option<seq<Entry>>,
    devDependencies: Option<seq<Entry>>,
    volta: Option<Toolchain>,
    engines: Option<Toolchain>)

  /** An entry of the parsed yarn.lock; only its locked `version` is read. */
  datatype LockEntry = LockEntry(version: string)

  /** The parsed yarn.lock: keys of the form `name@spec`. */
  type Lockfile = map<string, LockEntry>

  /** The npm configuration: the default `registry`, which npm always
      supplies, and every other setting by key (such as `@scope:registry`). */
  datatype NpmConfig = NpmConfig(registry: string, settings: map<string, string>)

  /** What the package-spec parser (npm-package-arg) reports about a name:
      its scope, if any, and the package name. */
  datatype PackageSpec = PackageSpec(scope: Option<string>, name: string)

  /** The foreign libraries the builder calls, taken as given functions:
      whether semver coercion of a spec succeeds, the package-spec parser,
      and the pathname of a registry URL. */
  datatype Externals = Externals(
    coerce: string -> bool,
    parseName: string -> PackageSpec,
    pathnameOf: string -> string)

  /** The request URL of a package: the registry string it was built from
      and its pathname. */
  datatype Url = Url(registry: string, pathname: string)

  /** Which dependency map of package.json a package record came from. */
  datatype DepType = Dependency | DevDependency

  /** One record of the list of dependencies to check: a package from one of
      the dependency maps, or the synthesized runtime (`node`) record. */
  datatype Record =
    | Package(name: string, version: string, kind: DepType, resolvedVersion: string, url: Url)
    | Runtime(nodeVersion: Option<string>)
  {
    /** The record's `name` member. */
    function Name(): string {
      if Package? then name else "node"
    }

    /** The record's `type` member: `node` exactly for the runtime record,
        otherwise the name of the map the package came from. */
    function Type(): (t: string)
      ensures t in {"dependency", "devDependency", "node"}
      ensures t == "node" <==> Runtime?
      ensures Package? ==> (t == "dependency" <==> kind == Dependency)
    {
      match this
      case Package(_, _, Dependency, _, _) => "dependency"
      case Package(_, _, DevDependency, _, _) => "devDependency"
      case Runtime(_) => "node"
    }
  }

  /** The error thrown when a declared dependency has no lockfile entry. */
  datatype SetupError = MissingLockEntry(key: string, lockfilePath: string)
  {
    /** The text of the thrown error, which quotes the missing key and the
        lockfile's path. */
    function Message(): (msg: string)
      ensures |msg| == 24 + |key| + |lockfilePath|
      ensures msg[..17] == "could not find: '" && msg[17..17 + |key|] == key
      ensures msg[|msg| - 1 - |lockfilePath|..|msg| - 1] == lockfilePath
      ensures msg[17 + |key|..|msg| - 1 - |lockfilePath|] == "' in '" && msg[|msg| - 1] == '\''
    {
      "could not find: '" + key + "' in '" + lockfilePath + "'"
    }
  }

  /** What a successful setup returns: the records to check, with the
      configuration and the manifest it was computed from. */
  datatype Setup = Setup(dependenciesToCheck: seq<Record>, config: NpmConfig, pkg: Manifest)

  /** The lockfile key of a declared dependency: `name@spec`. */
  function LockKey(e: Entry): string
  {
    e.name + "@" + e.spec
  }

  /** The key is the name, an `@`, then the spec. */
  lemma LockKeyParts(e: Entry)
    ensures |LockKey(e)| == |e.name| + 1 + |e.spec|
    ensures LockKey(e)[..|e.name|] == e.name && LockKey(e)[|e.name|] == '@'
    ensures LockKey(e)[|e.name| + 1..] == e.spec
  {
  }
}
