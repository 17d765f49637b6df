# Dependency-list builder of `supported`, modelled in Dafny

`supported` checks a JavaScript project's dependencies against support
policies. Before any policy is applied, `setupProject`
(`lib/project/setup-project.js`) turns the project's parsed `package.json`
and `yarn.lock` into the ordered list of records to check. This project
models that builder and proves what it guarantees:

- Every declared `name@spec` key of `dependencies` and `devDependencies` must
  be in the lockfile. Otherwise the builder throws an error that names the
  first missing key. Dependencies are walked before devDependencies.
- The lockfile check comes before the coercion check. A spec that semver
  cannot coerce to a version (a local link, say) is skipped without a record.
  A missing key still raises the error, even for such a spec.
- Every other entry contributes exactly one record. Its type is taken from
  the map the entry came from, and its resolved version from the lockfile.
  It also carries a request URL (`getURL`).
- The record list is: the dependencies, then the devDependencies, each map in
  declaration order, then one `node` record as the last element
  (`getNodeInfo`). That record's version comes from `volta`, else from
  `engines`, else it is `0.0.0`.
- `getURL` uses a scoped package's own registry when one is configured. In
  every other case it uses the default registry. The selected registry
  string is used unchanged, because the trailing-slash trim's result is
  discarded. The request path is the registry's pathname followed by the
  package name.
- The builder does not deduplicate names. The same `name@spec` declared in
  both maps gives two records with the same name, one of each type. A
  dependency called `node` gives a package record with the same name as the
  runtime record. So names in the list are not unique in general.

Files:

- `wrappers.dfy`: `Option` and `Result`.
- `project_types.dfy`: module `ProjectTypes`. It holds the parsed manifest,
  the lockfile, the npm configuration, the foreign libraries (the `Externals`
  record), the output records and the error.
- `registry.dfy`: module `Registry`, the registry choice and URL of `getURL`.
- `node_info.dfy`: module `NodeInfo`, `getNodeInfo`.
- `project_setup.dfy`: module `ProjectSetup`. `SetupResult` is the
  declarative statement of the outcome. The method `SetupProject` has the
  source's two loops, and it is proved to compute `SetupResult`.
- `project_setup_properties.dfy`: module `ProjectSetupProperties`, the
  lemmas about `SetupResult`.

Collaborators the model takes as inputs:

- The parsed `package.json` is the `Manifest` value.
- The parsed `yarn.lock` is a `map` from `name@spec` keys to entries.
- The npm configuration is an `NpmConfig` value.
- The lockfile's path is a string, used only in the error message.
- `semverCoerce` is the predicate `Externals.coerce`.
- `npm-package-arg` is `Externals.parseName`, which gives a scope and a name.
- The pathname of `new URL(registry)` is `Externals.pathnameOf`.

## Model

| member | source | states |
|---|---|---|
| `ProjectSetup.SetupProject` | lib/project/setup-project.js:33-82 | The two loops and the final push compute exactly `SetupResult`. Loop by loop: the prefix walked so far has all keys locked, and the records built so far are those of its coercible entries. The loop returns the error at the first missing key. |
| `ProjectSetup.SetupResult` | lib/project/setup-project.js:33-82 | The outcome of the builder. A failure carries the lockfile path and a key that is missing from the lockfile and belongs to a declared entry. A success returns the config and the manifest unchanged, and its list ends with the `node` record. |
| `ProjectSetup.PackageRecord` | lib/project/setup-project.js:42-48 | The pushed record has the entry's name and declared spec, the map's type, and the version that the entry's key locks. Its URL is the one `getURL` builds for the name: the chosen registry, with the registry's pathname followed by the parsed name. The same record shape is pushed at lines 63-69. |
| `ProjectTypes.LockKeyParts` | lib/project/setup-project.js:36 | The lockfile key is the name, then `@`, then the spec. Line 56 builds the same key. |
| `ProjectTypes.SetupError.Message` | lib/project/setup-project.js:39 | The whole error text, character for character: `could not find: '`, the missing key, `' in '`, the lockfile path, and a closing `'`. Line 59 throws the same text. |
| `ProjectTypes.Record.Type` | lib/project/setup-project.js:42-72 | The `type` string is one of `dependency`, `devDependency` and `node` (lines 45 and 66, and line 120 for `node`). It is `node` exactly for the runtime record; otherwise it names the map the package came from. |
| `ProjectSetupProperties.SameNameInBothMaps` | lib/project/setup-project.js:35-69 | A concrete input: `a@^1` declared in both maps gives two records named `a`, one `dependency` and one `devDependency`. |
| `ProjectSetupProperties.DependencyNamedNode` | lib/project/setup-project.js:35-76 | A concrete input: a dependency called `node` gives a package record named `node` followed by the runtime record, also named `node`. |
| `ProjectSetup.FirstMissing` | lib/project/setup-project.js:35-40 | The position of the first entry whose key is not in the lockfile. That entry is missing, and every entry before it is locked. |
| `ProjectSetup.FirstMissingAt` | lib/project/setup-project.js:35-40 | A missing entry after an all-locked prefix is the one `FirstMissing` finds. |
| `ProjectSetup.Checked` | lib/project/setup-project.js:35-52 | The records of one map are at most as many as its entries. Each is a package record of that map's type. Its key `name@spec` is in the lockfile, and its resolved version is that entry's `version`. |
| `ProjectSetupProperties.CoerciblePositions` | lib/project/setup-project.js:41-51 | The increasing positions of exactly the entries whose spec coerces. |
| `ProjectSetupProperties.CheckedFollowsPositions` | lib/project/setup-project.js:41-51 | A map contributes one record per coercible entry, in declaration order: the k-th record is built from the k-th coercible entry. Uncoercible entries contribute nothing. |
| `ProjectSetupProperties.FailsIffSomeKeyMissing` | lib/project/setup-project.js:34-60 | Setup fails if and only if some `name@spec` key of either map is missing from the lockfile. |
| `ProjectSetupProperties.ErrorNamesFirstMissingKey` | lib/project/setup-project.js:33-60 | The error names the first missing key in the order dependencies then devDependencies, together with the lockfile path. |
| `ProjectSetupProperties.MissingKeyBeatsCoercion` | lib/project/setup-project.js:38-41 | A missing key makes setup fail even when its spec is not coercible. |
| `ProjectSetupProperties.ErrorIgnoresCoercion` | lib/project/setup-project.js:38-62 | Changing which specs coerce changes neither whether setup fails nor the error it fails with. |
| `ProjectSetupProperties.SuccessLayout` | lib/project/setup-project.js:33-82 | On success, the list consists of the coercible dependencies' records, then the coercible devDependencies' records (both in order), then the `node` record. The list length is their count plus one. The `node` record is the only runtime record and it is last. The config and the manifest are returned unchanged. |
| `ProjectSetupProperties.CheckedCount` | lib/project/setup-project.js:41-51 | A map whose keys are all locked contributes exactly as many records as it has entries whose spec coerces. |
| `ProjectSetupProperties.RecordsLayout` | lib/project/setup-project.js:35-76 | The dependency records, then the devDependency records, then one runtime record: the dependency records sit at positions 0 to their count, in coercible-entry order; the devDependency records follow, in the same order; the runtime record is the only one and is last. |
| `ProjectSetupProperties.DependencyRun` | lib/project/setup-project.js:34-53 | In that list, the k-th record is built from the k-th coercible dependency, and there are as many dependency records as coercible dependencies. |
| `ProjectSetupProperties.DevDependencyRun` | lib/project/setup-project.js:54-74 | In that list, the record at position (number of coercible dependencies) + k is built from the k-th coercible devDependency. |
| `ProjectSetupProperties.SuccessBoundsAndOrder` | lib/project/setup-project.js:33-76 | On success, the length is at least 1 and at most the number of dependencies plus the number of devDependencies plus 1. No dependency record follows a devDependency record. |
| `ProjectSetupProperties.NoDependenciesOnlyNode` | lib/project/setup-project.js:33-76 | With both maps absent or empty, setup succeeds with the `node` record alone. |
| `NodeInfo.GetNodeInfo` | lib/project/setup-project.js:110-122 | The record is named `node` and has type `node`. Its version is `volta.node` when `volta` is present, else `engines.node` when `engines` is present, else `0.0.0`. |
| `NodeInfo.VoltaOverridesEngines` | lib/project/setup-project.js:112-116 | When `volta` is present, `engines` has no effect on the record. |
| `NodeInfo.NodeInfoReadsOnlyToolchains` | lib/project/setup-project.js:110-121 | The record depends only on `volta` and `engines`. |
| `Registry.SelectRegistry` | lib/project/setup-project.js:86-93 | The chosen registry is the default one or a configured non-empty setting. A non-default one is chosen only for a scoped name. |
| `Registry.ScopedRegistryWins` | lib/project/setup-project.js:89-90 | A scoped name whose `<scope>:registry` is set to a non-empty value uses that value. |
| `Registry.DefaultRegistryOtherwise` | lib/project/setup-project.js:89-93 | In every other case it uses `config.registry`: no scope, or a scope with no registry configured, or an empty one. |
| `Registry.UnscopedIgnoresSettings` | lib/project/setup-project.js:91-93 | An unscoped name's registry does not depend on any other setting. |
| `Registry.GetUrl` | lib/project/setup-project.js:85-107 | The URL keeps the selected registry unchanged. Its pathname is the registry's pathname followed directly by the parsed package name. |
| `Registry.TrailingSlashIsKept` | lib/project/setup-project.js:95-97 | A registry ending in `/` is used untrimmed. The URL's registry differs from the trimmed copy, and its path is built from the untrimmed registry's pathname. |

## Left out

- Reading the files of `setupProject` is I/O and is not modelled: the existence and is-a-file checks, `readFileSync`, the `JSON.parse` error and `YarnLockfile.parse` (lines 16-31). The builder takes their parsed results as inputs.
- The npm configuration reader (`npmConfig`, line 13) is a foreign asynchronous call, so the configuration is an input. It is assumed to always supply a default `registry` string. The model therefore does not capture the `TypeError` the source would raise on an undefined registry.
- The semantics of `semverCoerce`, `npm-package-arg` and the `URL` class are not modelled. They are foreign libraries, taken as the given functions of `Externals`. The `TypeError` that `new URL` throws for an invalid registry string is not modelled. Neither is the percent-encoding done by the `pathname` setter.
- The dependency maps are taken in the order `Object.entries` yields them. For integer-like keys JavaScript's order differs from the text order of the file. That is part of the JSON parse, which the model does not cover.
- A lockfile entry without a `version` is not modelled. The source would then set `resolvedVersion` to `undefined` (lines 46 and 67). `LockEntry` always carries a version string.
- `package.json` values of unexpected JSON types are not modelled: a truthy non-object `dependencies`, `volta` or `engines`, or a non-string spec or `node` member. The model reads absent or falsy members as `None`, and a missing `node` member as no version.
- The `debug` logging calls have no behavioural effect and are not modelled.
- `lib/cli.js` is CLI plumbing and I/O: flag parsing, the spinner, the exit code, and console, JSON or CSV output.
- The support-policy engine (the semver policy, the node LTS policy, expiry dates and aggregation) is not modelled. lib/project/multiple-projects and the policy modules are not part of this model.
- `tests/cli-test.js` spawns the command against fixture projects and mock registries, and is not modelled.
