/**
 * Properties of the dependency list that `setupProject` builds, stated
 * about `ProjectSetup.SetupResult` (which the method `SetupProject` is
 * proved to compute).
 */
module ProjectSetupProperties {
  import opened Wrappers
  import opened ProjectTypes
  import NodeInfo
  import opened ProjectSetup

  /** All declared entries in iteration order: dependencies, then devDependencies. */
  function AllEntries(pkg: Manifest): seq<Entry> {
    DependencyEntries(pkg) + DevDependencyEntries(pkg)
  }

  /** The positions, in increasing order, of the entries whose spec coerces
      to a version: exactly the entries that contribute a record. */
  function CoerciblePositions(entries: seq<Entry>, ext: Externals): (p: seq<nat>)
    ensures forall k :: 0 <= k < |p| ==> p[k] < |entries|
    ensures forall j, k :: 0 <= j < k < |p| ==> p[j] < p[k]
    ensures forall i :: 0 <= i < |entries| ==> (ext.coerce(entries[i].spec) <==> i in p)
    decreases |entries|
  {
    if entries == [] then []
    else
      var n := |entries| - 1;
      assert forall i :: 0 <= i < n ==> entries[..n][i] == entries[i];
      CoerciblePositions(entries[..n], ext) + (if ext.coerce(entries[n].spec) then [n] else [])
  }

  lemma AllLockedAppend(a: seq<Entry>, b: seq<Entry>, lockfile: Lockfile)
    ensures AllLocked(a + b, lockfile) <==> AllLocked(a, lockfile) && AllLocked(b, lockfile)
  {
    if AllLocked(a + b, lockfile) {
      forall i | 0 <= i < |a| ensures LockKey(a[i]) in lockfile {
        assert (a + b)[i] == a[i];
      }
      forall i | 0 <= i < |b| ensures LockKey(b[i]) in lockfile {
        assert (a + b)[|a| + i] == b[i];
      }
    }
  }

  /** Setup fails exactly when some declared `name@spec` key, of either map,
      is missing from the lockfile. */
  lemma FailsIffSomeKeyMissing(pkg: Manifest, lockfile: Lockfile, lockfilePath: string, config: NpmConfig, ext: Externals)
    ensures var all := AllEntries(pkg);
            SetupResult(pkg, lockfile, lockfilePath, config, ext).Failure?
            <==> exists i :: 0 <= i < |all| && LockKey(all[i]) !in lockfile
  {
    var all := AllEntries(pkg);
    AllLockedAppend(DependencyEntries(pkg), DevDependencyEntries(pkg), lockfile);
    assert SetupResult(pkg, lockfile, lockfilePath, config, ext).Failure? <==> !AllLocked(all, lockfile);
  }

  /** The error names the first missing key in iteration order,
      dependencies before devDependencies, and the lockfile's path. */
  lemma {:induction false} ErrorNamesFirstMissingKey(
    pkg: Manifest, lockfile: Lockfile, lockfilePath: string, config: NpmConfig, ext: Externals)
    requires !AllLocked(AllEntries(pkg), lockfile)
    ensures var all := AllEntries(pkg);
            SetupResult(pkg, lockfile, lockfilePath, config, ext)
            == Failure(MissingLockEntry(LockKey(all[FirstMissing(all, lockfile)]), lockfilePath))
  {
    var deps, devs := DependencyEntries(pkg), DevDependencyEntries(pkg);
    var all := deps + devs;
    if !AllLocked(deps, lockfile) {
      var k := FirstMissing(deps, lockfile);
      assert SetupResult(pkg, lockfile, lockfilePath, config, ext)
             == Failure(MissingLockEntry(LockKey(deps[k]), lockfilePath));
      assert all[..k] == deps[..k];
      assert all[k] == deps[k];
      FirstMissingAt(all, k, lockfile);
    } else {
      AllLockedAppend(deps, devs, lockfile);
      var k := FirstMissing(devs, lockfile);
      assert SetupResult(pkg, lockfile, lockfilePath, config, ext)
             == Failure(MissingLockEntry(LockKey(devs[k]), lockfilePath));
      assert all[..|deps| + k] == deps + devs[..k];
      AllLockedAppend(deps, devs[..k], lockfile);
      assert all[|deps| + k] == devs[k];
      FirstMissingAt(all, |deps| + k, lockfile);
    }
  }

  /** The lockfile check comes before the coercion check: a missing key is an
      error even when its spec would have been skipped as uncoercible. */
  lemma MissingKeyBeatsCoercion(
    pkg: Manifest, lockfile: Lockfile, lockfilePath: string, config: NpmConfig, ext: Externals, i: nat)
    requires i < |AllEntries(pkg)|
    requires LockKey(AllEntries(pkg)[i]) !in lockfile
    requires !ext.coerce(AllEntries(pkg)[i].spec)
    ensures SetupResult(pkg, lockfile, lockfilePath, config, ext).Failure?
  {
  }

  /** Whether setup fails, and with which error, does not depend on which
      specs coerce. */
  lemma ErrorIgnoresCoercion(
    pkg: Manifest, lockfile: Lockfile, lockfilePath: string, config: NpmConfig, ext: Externals,
    coerce: string -> bool)
    ensures var r := SetupResult(pkg, lockfile, lockfilePath, config, ext);
            var r' := SetupResult(pkg, lockfile, lockfilePath, config, ext.(coerce := coerce));
            r.Failure? == r'.Failure? && (r.Failure? ==> r == r')
  {
  }

  /** The records of one dependency map are, in order, one per entry whose
      spec coerces: the k-th record is built from the k-th coercible entry,
      with that map's kind and the version its key locks. */
  lemma {:induction false} CheckedFollowsPositions(
    entries: seq<Entry>, kind: DepType, lockfile: Lockfile, config: NpmConfig, ext: Externals)
    requires AllLocked(entries, lockfile)
    ensures var records, p := Checked(entries, kind, lockfile, config, ext), CoerciblePositions(entries, ext);
            && |records| == |p|
            && forall k :: 0 <= k < |p| ==> records[k] == PackageRecord(entries[p[k]], kind, lockfile, config, ext)
    decreases |entries|
  {
    if entries != [] {
      var n := |entries| - 1;
      var front := entries[..n];
      assert AllLocked(front, lockfile) by {
        assert forall i :: 0 <= i < n ==> front[i] == entries[i];
      }
      CheckedFollowsPositions(front, kind, lockfile, config, ext);
      var records', p' := Checked(front, kind, lockfile, config, ext), CoerciblePositions(front, ext);
      var records, p := Checked(entries, kind, lockfile, config, ext), CoerciblePositions(entries, ext);
      forall k | 0 <= k < |p| ensures records[k] == PackageRecord(entries[p[k]], kind, lockfile, config, ext) {
        if k < |p'| {
          assert records[k] == records'[k] && p[k] == p'[k];
          assert front[p'[k]] == entries[p'[k]];
        } else {
          assert p[k] == n;
        }
      }
    }
  }

  /** On success the list is: the records of the coercible dependencies in
      declaration order, then those of the coercible devDependencies, then
      the runtime record, which occurs exactly once, as the last element.
      The configuration and manifest are returned unchanged. */
  lemma SuccessLayout(pkg: Manifest, lockfile: Lockfile, lockfilePath: string, config: NpmConfig, ext: Externals)
    requires SetupResult(pkg, lockfile, lockfilePath, config, ext).Success?
    ensures var setup := SetupResult(pkg, lockfile, lockfilePath, config, ext).value;
            var list := setup.dependenciesToCheck;
            var deps, devs := DependencyEntries(pkg), DevDependencyEntries(pkg);
            var pd, pv := CoerciblePositions(deps, ext), CoerciblePositions(devs, ext);
            && setup.config == config && setup.pkg == pkg
            && AllLocked(deps, lockfile) && AllLocked(devs, lockfile)
            && |list| == |pd| + |pv| + 1
            && (forall k :: 0 <= k < |pd| ==> list[k] == PackageRecord(deps[pd[k]], Dependency, lockfile, config, ext))
            && (forall k :: 0 <= k < |pv| ==>
                  list[|pd| + k] == PackageRecord(devs[pv[k]], DevDependency, lockfile, config, ext))
            && list[|list| - 1] == NodeInfo.GetNodeInfo(pkg)
            && (forall k :: 0 <= k < |list| ==> (list[k].Runtime? <==> k == |list| - 1))
  {
    var deps, devs := DependencyEntries(pkg), DevDependencyEntries(pkg);
    var node := NodeInfo.GetNodeInfo(pkg);
    assert SetupResult(pkg, lockfile, lockfilePath, config, ext).value.dependenciesToCheck
           == Checked(deps, Dependency, lockfile, config, ext)
              + Checked(devs, DevDependency, lockfile, config, ext) + [node];
    RecordsLayout(deps, devs, lockfile, config, ext, node);
  }

  /** Both maps' records followed by a runtime record: the dependency records
      in coercible-position order, then the devDependency records likewise,
      then the runtime record, the only one, last. */
  lemma RecordsLayout(deps: seq<Entry>, devs: seq<Entry>, lockfile: Lockfile, config: NpmConfig, ext: Externals, node: Record)
    requires AllLocked(deps, lockfile) && AllLocked(devs, lockfile) && node.Runtime?
    ensures var list := Checked(deps, Dependency, lockfile, config, ext)
                        + Checked(devs, DevDependency, lockfile, config, ext) + [node];
            var pd, pv := CoerciblePositions(deps, ext), CoerciblePositions(devs, ext);
            && |list| == |pd| + |pv| + 1
            && (forall k :: 0 <= k < |pd| ==> list[k] == PackageRecord(deps[pd[k]], Dependency, lockfile, config, ext))
            && (forall k :: 0 <= k < |pv| ==>
                  list[|pd| + k] == PackageRecord(devs[pv[k]], DevDependency, lockfile, config, ext))
            && list[|list| - 1] == node
            && (forall k :: 0 <= k < |list| ==> (list[k].Runtime? <==> k == |list| - 1))
  {
    CheckedCount(deps, Dependency, lockfile, config, ext);
    CheckedCount(devs, DevDependency, lockfile, config, ext);
    ConcatLayout(Checked(deps, Dependency, lockfile, config, ext), Checked(devs, DevDependency, lockfile, config, ext), node);
    DependencyRun(deps, devs, lockfile, config, ext, node);
    DevDependencyRun(deps, devs, lockfile, config, ext, node);
  }

  /** A map contributes exactly as many records as it has coercible entries. */
  lemma {:induction false} CheckedCount(
    entries: seq<Entry>, kind: DepType, lockfile: Lockfile, config: NpmConfig, ext: Externals)
    requires AllLocked(entries, lockfile)
    ensures |Checked(entries, kind, lockfile, config, ext)| == |CoerciblePositions(entries, ext)|
    decreases |entries|
  {
    if entries != [] {
      var n := |entries| - 1;
      assert AllLocked(entries[..n], lockfile) by {
        assert forall i :: 0 <= i < n ==> entries[..n][i] == entries[i];
      }
      CheckedCount(entries[..n], kind, lockfile, config, ext);
    }
  }

  /** In the list of both maps' records and a runtime record, the dependency
      records come first, in coercible-position order. */
  lemma DependencyRun(deps: seq<Entry>, devs: seq<Entry>, lockfile: Lockfile, config: NpmConfig, ext: Externals, node: Record)
    requires AllLocked(deps, lockfile) && AllLocked(devs, lockfile)
    ensures var list := Checked(deps, Dependency, lockfile, config, ext)
                        + Checked(devs, DevDependency, lockfile, config, ext) + [node];
            var pd := CoerciblePositions(deps, ext);
            && |pd| == |Checked(deps, Dependency, lockfile, config, ext)|
            && forall k :: 0 <= k < |pd| ==> list[k] == PackageRecord(deps[pd[k]], Dependency, lockfile, config, ext)
  {
    var d := Checked(deps, Dependency, lockfile, config, ext);
    var list := d + Checked(devs, DevDependency, lockfile, config, ext) + [node];
    CheckedFollowsPositions(deps, Dependency, lockfile, config, ext);
    forall k | 0 <= k < |d| ensures list[k] == d[k] {
    }
  }

  /** In the same list, the devDependency records follow the dependency
      records, in coercible-position order. */
  lemma DevDependencyRun(deps: seq<Entry>, devs: seq<Entry>, lockfile: Lockfile, config: NpmConfig, ext: Externals, node: Record)
    requires AllLocked(deps, lockfile) && AllLocked(devs, lockfile)
    ensures var list := Checked(deps, Dependency, lockfile, config, ext)
                        + Checked(devs, DevDependency, lockfile, config, ext) + [node];
            var pd, pv := CoerciblePositions(deps, ext), CoerciblePositions(devs, ext);
            && |pd| == |Checked(deps, Dependency, lockfile, config, ext)|
            && |pv| == |Checked(devs, DevDependency, lockfile, config, ext)|
            && forall k :: 0 <= k < |pv| ==>
              list[|pd| + k] == PackageRecord(devs[pv[k]], DevDependency, lockfile, config, ext)
  {
    var d := Checked(deps, Dependency, lockfile, config, ext);
    var v := Checked(devs, DevDependency, lockfile, config, ext);
    var pd, pv := CoerciblePositions(deps, ext), CoerciblePositions(devs, ext);
    assert |pd| == |d| by {
      CheckedCount(deps, Dependency, lockfile, config, ext);
    }
    assert |v| == |pv| && forall k :: 0 <= k < |pv| ==> v[k] == PackageRecord(devs[pv[k]], DevDependency, lockfile, config, ext) by {
      CheckedFollowsPositions(devs, DevDependency, lockfile, config, ext);
    }
    ShiftedRun(d, v, node, |pd|, devs, pv, lockfile, config, ext);
  }

  /** A run of devDependency records placed after `d` keeps its order: its
      k-th record is at offset `|d| + k`. */
  lemma ShiftedRun(d: seq<Record>, v: seq<Record>, node: Record, off: nat,
                   devs: seq<Entry>, pv: seq<nat>, lockfile: Lockfile, config: NpmConfig, ext: Externals)
    requires off == |d| && |v| == |pv|
    requires forall k :: 0 <= k < |pv| ==> pv[k] < |devs| && LockKey(devs[pv[k]]) in lockfile
    requires forall k :: 0 <= k < |pv| ==> v[k] == PackageRecord(devs[pv[k]], DevDependency, lockfile, config, ext)
    ensures forall k :: 0 <= k < |pv| ==>
              (d + v + [node])[off + k] == PackageRecord(devs[pv[k]], DevDependency, lockfile, config, ext)
  {
    forall k | 0 <= k < |pv|
      ensures (d + v + [node])[off + k] == PackageRecord(devs[pv[k]], DevDependency, lockfile, config, ext)
    {
      assert (d + v + [node])[off + k] == v[k];
    }
  }

  /** Two runs of package records followed by one runtime record: each run
      keeps its positions, and the runtime record is the only one, last. */
  lemma ConcatLayout(d: seq<Record>, v: seq<Record>, last: Record)
    requires forall k :: 0 <= k < |d| ==> d[k].Package?
    requires forall k :: 0 <= k < |v| ==> v[k].Package?
    requires last.Runtime?
    ensures var list := d + v + [last];
            && |list| == |d| + |v| + 1
            && (forall k {:trigger d[k]} :: 0 <= k < |d| ==> list[k] == d[k])
            && (forall k :: 0 <= k < |v| ==> list[|d| + k] == v[k])
            && list[|list| - 1] == last
            && (forall k :: 0 <= k < |list| ==> (list[k].Runtime? <==> k == |list| - 1))
  {
    var list := d + v + [last];
    forall k | 0 <= k < |list| ensures list[k].Runtime? <==> k == |list| - 1 {
      if k < |d| {
        assert list[k] == d[k];
      } else if k < |d| + |v| {
        assert list[k] == v[k - |d|];
      }
    }
  }

  /** On success the list holds between one and |dependencies| + |devDependencies| + 1
      records, and every dependency record precedes every devDependency record. */
  lemma SuccessBoundsAndOrder(pkg: Manifest, lockfile: Lockfile, lockfilePath: string, config: NpmConfig, ext: Externals)
    requires SetupResult(pkg, lockfile, lockfilePath, config, ext).Success?
    ensures var list := SetupResult(pkg, lockfile, lockfilePath, config, ext).value.dependenciesToCheck;
            && 1 <= |list| <= |DependencyEntries(pkg)| + |DevDependencyEntries(pkg)| + 1
            && forall j, k :: 0 <= j < k < |list| - 1 && list[j].kind == DevDependency
                 ==> list[k].kind == DevDependency
  {
  }

  /** With no dependencies declared (maps absent or empty), setup succeeds
      with the runtime record alone. */
  lemma NoDependenciesOnlyNode(pkg: Manifest, lockfile: Lockfile, lockfilePath: string, config: NpmConfig, ext: Externals)
    requires DependencyEntries(pkg) == [] && DevDependencyEntries(pkg) == []
    ensures SetupResult(pkg, lockfile, lockfilePath, config, ext)
            == Success(Setup([NodeInfo.GetNodeInfo(pkg)], config, pkg))
  {
    var deps, devs := DependencyEntries(pkg), DevDependencyEntries(pkg);
    assert AllLocked(deps, lockfile) && AllLocked(devs, lockfile);
    assert Checked(deps, Dependency, lockfile, config, ext) == [];
    assert Checked(devs, DevDependency, lockfile, config, ext) == [];
    var r := SetupResult(pkg, lockfile, lockfilePath, config, ext);
    assert r.Success?;
    assert r.value.dependenciesToCheck == [NodeInfo.GetNodeInfo(pkg)];
    assert r.value == Setup([NodeInfo.GetNodeInfo(pkg)], config, pkg);
  }

  /** Names are not deduplicated: the same `name@spec` declared in both maps
      gives two records with the same name, one of each type. */
  lemma SameNameInBothMaps(config: NpmConfig, ext: Externals)
    requires ext.coerce("^1")
    ensures var e := Entry("a", "^1");
            var r := SetupResult(Manifest(Some([e]), Some([e]), None, None),
                                 map["a@^1" := LockEntry("1.0.0")], "yarn.lock", config, ext);
            && r.Success?
            && |r.value.dependenciesToCheck| == 3
            && r.value.dependenciesToCheck[0].Name() == r.value.dependenciesToCheck[1].Name() == "a"
            && r.value.dependenciesToCheck[0].Type() == "dependency"
            && r.value.dependenciesToCheck[1].Type() == "devDependency"
  {
    var e := Entry("a", "^1");
    var lockfile := map["a@^1" := LockEntry("1.0.0")];
    assert LockKey(e) == "a@^1";
    assert AllLocked([e], lockfile);
    assert [e][..0] == [];
    assert Checked([e], Dependency, lockfile, config, ext) == [PackageRecord(e, Dependency, lockfile, config, ext)];
    assert Checked([e], DevDependency, lockfile, config, ext) == [PackageRecord(e, DevDependency, lockfile, config, ext)];
  }

  /** A dependency called `node` gives a package record with the same name
      as the runtime record appended after it. */
  lemma DependencyNamedNode(config: NpmConfig, ext: Externals)
    requires ext.coerce("^1")
    ensures var e := Entry("node", "^1");
            var r := SetupResult(Manifest(Some([e]), None, None, None),
                                 map["node@^1" := LockEntry("1.0.0")], "yarn.lock", config, ext);
            && r.Success?
            && |r.value.dependenciesToCheck| == 2
            && r.value.dependenciesToCheck[0].Package? && r.value.dependenciesToCheck[1].Runtime?
            && r.value.dependenciesToCheck[0].Name() == r.value.dependenciesToCheck[1].Name() == "node"
  {
    var e := Entry("node", "^1");
    var lockfile := map["node@^1" := LockEntry("1.0.0")];
    assert LockKey(e) == "node@^1";
    assert AllLocked([e], lockfile);
    assert [e][..0] == [];
    assert Checked([e], Dependency, lockfile, config, ext) == [PackageRecord(e, Dependency, lockfile, config, ext)];
    assert Checked([], DevDependency, lockfile, config, ext) == [];
  }
}
