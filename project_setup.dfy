/**
 * The list-building body of `setupProject` (lib/project/setup-project.js),
 * once package.json and yarn.lock are parsed: every declared dependency must
 * have a lockfile entry, specs that do not coerce to a version are skipped,
 * and one runtime record is appended last.
 *
 * `SetupResult` states the outcome declaratively; the method `SetupProject`
 * computes it with the source's two loops.
 */
module ProjectSetup {
  import opened Wrappers
  import opened ProjectTypes
  import Registry
  import NodeInfo

  /** The entries of `dependencies`, none when the map is absent. */
  function DependencyEntries(pkg: Manifest): seq<Entry> {
    if pkg.dependencies.Some? then pkg.dependencies.value else []
  }

  /** The entries of `devDependencies`, none when the map is absent. */
  function DevDependencyEntries(pkg: Manifest): seq<Entry> {
    if pkg.devDependencies.Some? then pkg.devDependencies.value else []
  }

  /** Every entry's `name@spec` key is in the lockfile. */
  predicate AllLocked(entries: seq<Entry>, lockfile: Lockfile) {
    forall i :: 0 <= i < |entries| ==> LockKey(entries[i]) in lockfile
  }

  /** The position of the first entry whose key is missing from the lockfile. */
  function FirstMissing(entries: seq<Entry>, lockfile: Lockfile): (k: nat)
    requires !AllLocked(entries, lockfile)
    ensures k < |entries| && LockKey(entries[k]) !in lockfile
    ensures AllLocked(entries[..k], lockfile)
  {
    if LockKey(entries[0]) !in lockfile then 0
    else
      assert !AllLocked(entries[1..], lockfile) by {
        var i :| 0 <= i < |entries| && LockKey(entries[i]) !in lockfile;
        assert entries[1..][i - 1] == entries[i];
      }
      FirstMissing(entries[1..], lockfile) + 1
  }

  /** The record pushed for a locked entry whose spec coerces: the entry's
      name and declared spec, the map's type, the version the entry's key
      locks, and the URL `getURL` builds for the name. */
  function PackageRecord(e: Entry, kind: DepType, lockfile: Lockfile, config: NpmConfig, ext: Externals)
    : (r: Record)
    requires LockKey(e) in lockfile
    ensures r.Package? && r.Name() == e.name && r.version == e.spec && r.kind == kind
    ensures r.resolvedVersion == lockfile[LockKey(e)].version
    ensures r.url == Registry.GetUrl(e.name, config, ext)
  {
    Package(e.name, e.spec, kind, lockfile[LockKey(e)].version, Registry.GetUrl(e.name, config, ext))
  }

  /** The records one dependency map contributes when all its keys are
      locked: one per entry whose spec coerces, in declaration order. Each is
      a package of that map's kind, resolved to the version its key locks. */
  function Checked(entries: seq<Entry>, kind: DepType, lockfile: Lockfile, config: NpmConfig, ext: Externals)
    : (records: seq<Record>)
    requires AllLocked(entries, lockfile)
    ensures |records| <= |entries|
    ensures forall k :: 0 <= k < |records| ==>
              && records[k].Package?
              && records[k].kind == kind
              && LockKey(Entry(records[k].name, records[k].version)) in lockfile
              && records[k].resolvedVersion == lockfile[LockKey(Entry(records[k].name, records[k].version))].version
    decreases |entries|
  {
    if entries == [] then []
    else
      var n := |entries| - 1;
      assert AllLocked(entries[..n], lockfile) by {
        assert forall i :: 0 <= i < n ==> entries[..n][i] == entries[i];
      }
      var last := entries[n];
      Checked(entries[..n], kind, lockfile, config, ext)
        + (if ext.coerce(last.spec) then [PackageRecord(last, kind, lockfile, config, ext)] else [])
  }

  /** What `setupProject` yields for an already-parsed manifest and lockfile:
      the error for the first declared key missing from the lockfile
      (dependencies before devDependencies), or else the coercible
      dependencies, then the coercible devDependencies, then the runtime record. */
  function SetupResult(pkg: Manifest, lockfile: Lockfile, lockfilePath: string, config: NpmConfig, ext: Externals)
    : (r: Result<Setup, SetupError>)
    ensures r.Failure? ==>
              && r.error.lockfilePath == lockfilePath
              && r.error.key !in lockfile
              && exists e :: e in DependencyEntries(pkg) + DevDependencyEntries(pkg) && LockKey(e) == r.error.key
    ensures r.Success? ==>
              && r.value.config == config && r.value.pkg == pkg
              && |r.value.dependenciesToCheck| >= 1
              && r.value.dependenciesToCheck[|r.value.dependenciesToCheck| - 1] == NodeInfo.GetNodeInfo(pkg)
  {
    var deps := DependencyEntries(pkg);
    var devs := DevDependencyEntries(pkg);
    if !AllLocked(deps, lockfile) then
      Failure(MissingLockEntry(LockKey(deps[FirstMissing(deps, lockfile)]), lockfilePath))
    else if !AllLocked(devs, lockfile) then
      Failure(MissingLockEntry(LockKey(devs[FirstMissing(devs, lockfile)]), lockfilePath))
    else
      Success(Setup(
        Checked(deps, Dependency, lockfile, config, ext)
          + Checked(devs, DevDependency, lockfile, config, ext)
          + [NodeInfo.GetNodeInfo(pkg)],
        config, pkg))
  }

  /** An entry whose key is missing, after a prefix whose keys are all
      present, is the first missing one. */
  lemma FirstMissingAt(entries: seq<Entry>, i: nat, lockfile: Lockfile)
    requires i < |entries| && LockKey(entries[i]) !in lockfile
    requires AllLocked(entries[..i], lockfile)
    ensures !AllLocked(entries, lockfile) && FirstMissing(entries, lockfile) == i
  {
  }

  /** One loop step over a locked entry: the walked prefix stays locked, and
      its records grow by the entry's record exactly when its spec coerces. */
  lemma CheckedStep(entries: seq<Entry>, i: nat, kind: DepType, lockfile: Lockfile, config: NpmConfig, ext: Externals)
    requires i < |entries| && AllLocked(entries[..i], lockfile) && LockKey(entries[i]) in lockfile
    ensures AllLocked(entries[..i + 1], lockfile)
    ensures Checked(entries[..i + 1], kind, lockfile, config, ext)
            == Checked(entries[..i], kind, lockfile, config, ext)
               + (if ext.coerce(entries[i].spec) then [PackageRecord(entries[i], kind, lockfile, config, ext)] else [])
  {
    assert entries[..i + 1][..i] == entries[..i];
  }

  /** Builds the records to check as `setupProject` does: walk `dependencies`,
      then `devDependencies`, throwing on the first key missing from the
      lockfile and pushing a record for every spec that coerces; finally push
      the runtime record. */
  method SetupProject(pkg: Manifest, lockfile: Lockfile, lockfilePath: string, config: NpmConfig, ext: Externals)
    returns (r: Result<Setup, SetupError>)
    ensures r == SetupResult(pkg, lockfile, lockfilePath, config, ext)
  {
    var dependenciesToCheck: seq<Record> := [];
    if pkg.dependencies.Some? {
      var deps := pkg.dependencies.value;
      var i := 0;
      while i < |deps|
        invariant i <= |deps|
        invariant AllLocked(deps[..i], lockfile)
        invariant dependenciesToCheck == Checked(deps[..i], Dependency, lockfile, config, ext)
      {
        var key := LockKey(deps[i]);
        if key !in lockfile {
          FirstMissingAt(deps, i, lockfile);
          return Failure(MissingLockEntry(key, lockfilePath));
        }
        CheckedStep(deps, i, Dependency, lockfile, config, ext);
        if ext.coerce(deps[i].spec) {
          dependenciesToCheck := dependenciesToCheck + [PackageRecord(deps[i], Dependency, lockfile, config, ext)];
        }
        i := i + 1;
      }
      assert deps[..i] == deps;
    }
    ghost var fromDependencies := dependenciesToCheck;
    assert AllLocked(DependencyEntries(pkg), lockfile);
    assert fromDependencies == Checked(DependencyEntries(pkg), Dependency, lockfile, config, ext);
    if pkg.devDependencies.Some? {
      var devs := pkg.devDependencies.value;
      var i := 0;
      while i < |devs|
        invariant i <= |devs|
        invariant AllLocked(devs[..i], lockfile)
        invariant dependenciesToCheck
                  == fromDependencies + Checked(devs[..i], DevDependency, lockfile, config, ext)
      {
        var key := LockKey(devs[i]);
        if key !in lockfile {
          FirstMissingAt(devs, i, lockfile);
          return Failure(MissingLockEntry(key, lockfilePath));
        }
        CheckedStep(devs, i, DevDependency, lockfile, config, ext);
        if ext.coerce(devs[i].spec) {
          dependenciesToCheck := dependenciesToCheck + [PackageRecord(devs[i], DevDependency, lockfile, config, ext)];
        }
        i := i + 1;
      }
      assert devs[..i] == devs;
    }
    assert AllLocked(DevDependencyEntries(pkg), lockfile);
    assert dependenciesToCheck
           == fromDependencies + Checked(DevDependencyEntries(pkg), DevDependency, lockfile, config, ext);
    dependenciesToCheck := dependenciesToCheck + [NodeInfo.GetNodeInfo(pkg)];
    return Success(Setup(dependenciesToCheck, config, pkg));
  }
}
