/**
 * The registry choice of `getURL` (lib/project/setup-project.js): which
 * configured registry a package is fetched from, and the request path
 * built from it.
 */
module Registry {
  import opened Wrappers
  import opened ProjectTypes

  /** JavaScript truthiness of an optional string: present and not empty. */
  predicate Truthy(v: Option<string>) {
    v.Some? && v.value != ""
  }

  /** The npm setting stored under `key`, if any. */
  function Setting(config: NpmConfig, key: string): Option<string> {
    if key in config.settings then Some(config.settings[key]) else None
  }

  /** The configuration key of a scope's own registry, `<scope>:registry`. */
  function ScopedRegistryKey(scope: string): string {
    scope + ":registry"
  }

  /** True when `spec` has a scope and that scope has its own registry configured. */
  predicate HasScopedRegistry(spec: PackageSpec, config: NpmConfig) {
    Truthy(spec.scope) && Truthy(Setting(config, ScopedRegistryKey(spec.scope.value)))
  }

  /** The registry a package is fetched from: its scope's registry when one is
      configured, otherwise the default registry. The choice is always a
      configured value, and a non-default one only for a scoped name. */
  function SelectRegistry(spec: PackageSpec, config: NpmConfig): (registry: string)
    ensures registry == config.registry
            || (Truthy(spec.scope) && registry in config.settings.Values && registry != "")
  {
    if Truthy(spec.scope) then
      var scoped := Setting(config, ScopedRegistryKey(spec.scope.value));
      if Truthy(scoped) then scoped.value else config.registry
    else
      config.registry
  }

  /** The request URL of the package `name`. The trailing-slash check of the
      source discards its result, so the selected registry is used unchanged;
      the path is the registry's pathname followed directly by the parsed name. */
  function GetUrl(name: string, config: NpmConfig, ext: Externals): (url: Url)
    ensures url.registry == SelectRegistry(ext.parseName(name), config)
    ensures |url.pathname| == |ext.pathnameOf(url.registry)| + |ext.parseName(name).name|
    ensures url.pathname[..|ext.pathnameOf(url.registry)|] == ext.pathnameOf(url.registry)
    ensures url.pathname[|ext.pathnameOf(url.registry)|..] == ext.parseName(name).name
  {
    var spec := ext.parseName(name);
    var registry := SelectRegistry(spec, config);
    Url(registry, ext.pathnameOf(registry) + spec.name)
  }

  /** A scoped name whose scope has a registry configured uses that registry. */
  lemma ScopedRegistryWins(spec: PackageSpec, config: NpmConfig)
    requires HasScopedRegistry(spec, config)
    ensures SelectRegistry(spec, config) == config.settings[ScopedRegistryKey(spec.scope.value)]
  {
  }

  /** Without a scope, or without a registry configured for it (absent or
      empty), the default registry is used. */
  lemma DefaultRegistryOtherwise(spec: PackageSpec, config: NpmConfig)
    requires !HasScopedRegistry(spec, config)
    ensures SelectRegistry(spec, config) == config.registry
  {
  }

  /** An unscoped name never reads any scope setting: changing the settings
      does not change its registry. */
  lemma UnscopedIgnoresSettings(spec: PackageSpec, config: NpmConfig, settings: map<string, string>)
    requires !Truthy(spec.scope)
    ensures SelectRegistry(spec, config.(settings := settings)) == SelectRegistry(spec, config) == config.registry
  {
  }

  /** A registry ending in '/' is used untrimmed: the URL keeps the slash,
      differs from the trimmed copy, and its path is built from the untrimmed
      registry's pathname. */
  lemma TrailingSlashIsKept(name: string, config: NpmConfig, ext: Externals)
    requires var r := SelectRegistry(ext.parseName(name), config); |r| > 0 && r[|r| - 1] == '/'
    ensures var r := SelectRegistry(ext.parseName(name), config);
            var url := GetUrl(name, config, ext);
            && url.registry == r && url.registry != r[..|r| - 1]
            && url.pathname == ext.pathnameOf(r) + ext.parseName(name).name
  {
  }
}
