/**
 * `getNodeInfo` (lib/project/setup-project.js): the synthesized runtime
 * record, whose version comes from `volta`, else `engines`, else a default.
 */
module NodeInfo {
  import opened Wrappers
  import opened ProjectTypes

  /** The version used when package.json declares no toolchain at all. */
  const DefaultNodeVersion: string := "0.0.0"

  /** The runtime record of a project. `volta` takes precedence over
      `engines`; a declared toolchain without a `node` member gives no version. */
  function GetNodeInfo(pkg: Manifest): (r: Record)
    ensures r.Runtime? && r.Name() == "node" && r.Type() == "node"
    ensures pkg.volta.Some? ==> r.nodeVersion == pkg.volta.value.node
    ensures pkg.volta.None? && pkg.engines.Some? ==> r.nodeVersion == pkg.engines.value.node
    ensures pkg.volta.None? && pkg.engines.None? ==> r.nodeVersion == Some(DefaultNodeVersion)
  {
    var nodeVersion :=
      if pkg.volta.Some? then pkg.volta.value.node
      else if pkg.engines.Some? then pkg.engines.value.node
      else Some(DefaultNodeVersion);
    Runtime(nodeVersion)
  }

  /** When `volta` is present, `engines` has no effect on the runtime record. */
  lemma VoltaOverridesEngines(pkg: Manifest, engines: Option<Toolchain>)
    requires pkg.volta.Some?
    ensures GetNodeInfo(pkg.(engines := engines)) == GetNodeInfo(pkg)
  {
  }

  /** The runtime record depends on `volta` and `engines` only, never on the
      dependency maps. */
  lemma NodeInfoReadsOnlyToolchains(p: Manifest, q: Manifest)
    requires p.volta == q.volta && p.engines == q.engines
    ensures GetNodeInfo(p) == GetNodeInfo(q)
  {
  }
}
