/** Which paths belong to a component, and which are never touched or entered. */
module Matching {
  import opened Basics
  import opened FileSystem
  import opened PathKeys
  import opened RunState
  import opened Text
  import opened Glob

  datatype Candidate = Candidate(path: Path, componentKey: string, isDirectory: bool)
  datatype Component = Component(key: string, exactLeafNames: seq<string>, leafGlobs: seq<string>)

  type Enabled = map<string, bool>

  const REPOSITORY: seq<string> := ["windows", "system32", "driverstore", "filerepository"]
  const NGX_IN_PROGRAM_DATA: seq<string> := ["programdata", "nvidia", "ngx"]
  const NGX_IN_CORPORATION: seq<string> := ["nvidia corporation", "ngx"]

  const FILE_REPOSITORY := "\\" + Join(REPOSITORY)
  const GPU_TOOLKIT_PART := "\\" + ("nvidia gpu computing toolkit" + "\\")
  const CUDA_PART := "\\" + ("cuda" + "\\")
  const NSIGHT_COMPUTE_PART := "\\" + "nsight compute"
  const NSIGHT_SYSTEMS_PART := "\\" + "nsight systems"
  const DEVELOPER_PARTS := [GPU_TOOLKIT_PART, CUDA_PART, NSIGHT_COMPUTE_PART, NSIGHT_SYSTEMS_PART]
  const NGX_FOLDERS := ["\\" + Join(NGX_IN_PROGRAM_DATA), "\\" + Join(NGX_IN_CORPORATION)]
  const CORE_DISPLAY_LEAVES := [
    "nvwgf2umx.dll", "nvwgf2um.dll", "nvd3dumx.dll", "nvd3dum.dll", "nvldumdx.dll",
    "nvapi.dll", "nvapi64.dll", "nvlddmkm.sys", "nvdispig.inf", "nv_dispi.inf"]

  predicate IsEnabled(enabled: Enabled, key: string) {
    key in enabled && enabled[key]
  }

  function LeafKey(p: Path): string {
    if p == [] then "" else Lower(Leaf(p))
  }

  function ParentKey(p: Path): string {
    if p == [] then "" else PathKey(Parent(p))
  }

  predicate LeafHasInfArchMarker(leafLower: string) {
    Contains(leafLower, ".inf_amd64") || Contains(leafLower, ".inf_arm64")
  }

  predicate IsDriverStoreSidecarIni(p: Path) {
    && Contains(PathKey(p), FILE_REPOSITORY + "\\") && LeafHasInfArchMarker(LeafKey(p))
    && |LeafKey(p)| >= 4 && EndsWith(LeafKey(p), ".ini")
  }

  predicate IsDriverStorePackageRoot(p: Path) {
    Contains(ParentKey(p), FILE_REPOSITORY) && LeafHasInfArchMarker(LeafKey(p))
  }

  predicate IsDeveloperTool(full: string) {
    exists part | part in DEVELOPER_PARTS :: Contains(full, part)
  }

  /** The NGX folders themselves and everything below them. */
  predicate UnderNgx(full: string) {
    exists folder | folder in NGX_FOLDERS :: Contains(full, folder + "\\") || EndsWith(full, folder)
  }

  predicate NgxNotSelected(full: string, enabled: Enabled) {
    UnderNgx(full) && !IsEnabled(enabled, "NGX")
  }

  predicate IsCoreDisplayLeaf(p: Path) {
    LeafKey(p) in CORE_DISPLAY_LEAVES
  }

  /** is_excluded_candidate_path */
  predicate Excluded(p: Path, enabled: Enabled) {
    || IsDeveloperTool(PathKey(p)) || IsDriverStorePackageRoot(p) || IsDriverStoreSidecarIni(p)
    || NgxNotSelected(PathKey(p), enabled) || IsCoreDisplayLeaf(p)
  }

  /** should_prune_traversal */
  predicate Pruned(p: Path, enabled: Enabled) {
    IsDeveloperTool(PathKey(p)) || NgxNotSelected(PathKey(p), enabled)
  }

  /** Installer2 counts only below an NVIDIA Corporation folder. */
  predicate InstallerGuard(key: string, full: string) {
    key != "Installer2Cache" || Contains(full, "nvidia corporation")
  }

  predicate GlobMatches(leaf: string, glob: string) {
    Greedy(Lower(leaf), Lower(glob), 0, 0, NoStar)
  }

  predicate Claims(c: Component, p: Path) {
    || (InstallerGuard(c.key, PathKey(p))
        && exists i | 0 <= i < |c.exactLeafNames| :: Lower(c.exactLeafNames[i]) == LeafKey(p))
    || exists i | 0 <= i < |c.leafGlobs| :: GlobMatches(if p == [] then "" else Leaf(p), c.leafGlobs[i])
  }

  /** The first enabled component of the catalog that claims the path. */
  function FirstClaim(catalog: seq<Component>, p: Path, enabled: Enabled): (r: Option<Component>)
    ensures r.Some? ==> r.value in catalog && IsEnabled(enabled, r.value.key) && Claims(r.value, p)
    ensures r.None? ==> forall c | c in catalog :: !(IsEnabled(enabled, c.key) && Claims(c, p))
  {
    if catalog == [] then None
    else if IsEnabled(enabled, catalog[0].key) && Claims(catalog[0], p) then Some(catalog[0])
    else FirstClaim(catalog[1..], p, enabled)
  }

  /** match_component_for_path */
  function Match(catalog: seq<Component>, p: Path, enabled: Enabled): Option<Component> {
    if Excluded(p, enabled) then None else FirstClaim(catalog, p, enabled)
  }

  method ClaimsPath(c: Component, p: Path) returns (r: bool)
    ensures r == Claims(c, p)
  {
    hide InstallerGuard, PathKey, Lower;
    var leaf := if p == [] then "" else Leaf(p);
    for i := 0 to |c.exactLeafNames|
      invariant forall j | 0 <= j < i ::
        !(Lower(c.exactLeafNames[j]) == LeafKey(p) && InstallerGuard(c.key, PathKey(p)))
    {
      if Lower(c.exactLeafNames[i]) == LeafKey(p) && InstallerGuard(c.key, PathKey(p)) {
        return true;
      }
    }
    for i := 0 to |c.leafGlobs|
      invariant forall j | 0 <= j < i :: !GlobMatches(leaf, c.leafGlobs[j])
    {
      var matches := WildcardMatchNoCase(leaf, c.leafGlobs[i]);
      if matches {
        return true;
      }
    }
    return false;
  }

  method MatchComponentForPath(catalog: seq<Component>, p: Path, enabled: Enabled) returns (r: Option<Component>)
    ensures r == Match(catalog, p, enabled)
  {
    if Excluded(p, enabled) {
      return None;
    }
    assert catalog[0..] == catalog;
    for i := 0 to |catalog|
      invariant FirstClaim(catalog, p, enabled) == FirstClaim(catalog[i..], p, enabled)
    {
      var c := catalog[i];
      assert catalog[i..][1..] == catalog[i + 1..];
      if !IsEnabled(enabled, c.key) {
        continue;
      }
      var claims := ClaimsPath(c, p);
      if claims {
        return Some(c);
      }
    }
    return None;
  }

  // ---- what pruning may skip ----

  /** What lies below a pruned folder is pruned too. */
  lemma PrunedBelow(p: Path, n: Name, enabled: Enabled)
    requires p != [] && Pruned(p, enabled)
    ensures Pruned(p + [n], enabled)
  {
    var full, rest := PathKey(p), "\\" + Lower(n);
    ChildKey(p, n);
    if IsDeveloperTool(full) {
      var part :| part in DEVELOPER_PARTS && Contains(full, part);
      ContainsPrefix(full, rest, part);
    } else {
      var folder :| folder in NGX_FOLDERS && (Contains(full, folder + "\\") || EndsWith(full, folder));
      if Contains(full, folder + "\\") {
        ContainsPrefix(full, rest, folder + "\\");
      } else {
        EndsThenBackslash(full, folder, Lower(n));
      }
    }
  }

  lemma EndsThenBackslash(full: string, folder: string, more: string)
    requires EndsWith(full, folder)
    ensures Contains(full + ("\\" + more), folder + "\\")
  {
    var s, i := full + ("\\" + more), |full| - |folder|;
    assert s[i..i + |folder| + 1] == full[i..] + "\\";
    assert ContainsAt(s, folder + "\\", i);
  }

  /** What passes from a folder to its entries passes to everything below it. */
  lemma {:induction false} Inherited(holds: Path -> bool, p: Path, more: Path)
    requires p != [] && holds(p) && forall q, n | q != [] && holds(q) :: holds(q + [n])
    ensures holds(p + more)
  {
    if more == [] {
      assert p + more == p;
    } else {
      Inherited(holds, p, Parent(more));
      assert p + more == (p + Parent(more)) + [Leaf(more)];
    }
  }

  lemma PrunedAllBelow(p: Path, more: Path, enabled: Enabled)
    requires p != [] && Pruned(p, enabled)
    ensures Pruned(p + more, enabled)
  {
    var holds := (q: Path) => Pruned(q, enabled);
    forall q, n | q != [] && holds(q)
      ensures holds(q + [n])
    {
      PrunedBelow(q, n, enabled);
    }
    Inherited(holds, p, more);
    assert holds(p + more);
  }

  /** Nothing at or below a pruned entry can ever be a candidate. */
  lemma PrunedIsUnmatched(catalog: seq<Component>, p: Path, more: Path, enabled: Enabled)
    requires p != [] && Pruned(p, enabled)
    ensures Match(catalog, p + more, enabled) == None
  {
    PrunedAllBelow(p, more, enabled);
  }

  /** Enabling more components never loses a match, and a match always names an
      enabled component that claims the path. */
  lemma MoreEnabledMoreMatched(catalog: seq<Component>, p: Path, enabled: Enabled, more: Enabled)
    requires forall key | IsEnabled(enabled, key) :: IsEnabled(more, key)
    requires Match(catalog, p, enabled).Some?
    ensures var c := Match(catalog, p, enabled).value;
      c in catalog && IsEnabled(enabled, c.key) && Claims(c, p) && !Excluded(p, enabled)
    ensures Match(catalog, p, more).Some?
  {
    var c := FirstClaim(catalog, p, enabled).value;
    assert IsEnabled(more, c.key);
  }
}
