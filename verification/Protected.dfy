/** Which folders and files no run may take, name by name: what the tests on
    lowercased path text amount to for paths as the file system gives them. */
module Protected {
  import opened Basics
  import opened FileSystem
  import opened PathKeys
  import opened RunState
  import opened Text
  import opened Glob
  import opened Matching

  const GPU_TOOLKIT: seq<string> := ["nvidia gpu computing toolkit"]
  const CUDA: seq<string> := ["cuda"]
  const NSIGHT_COMPUTE: seq<string> := ["nsight compute"]
  const NSIGHT_SYSTEMS: seq<string> := ["nsight systems"]

  /** The marker NVIDIA puts into the names of driver packages. */
  predicate HasMarker(leaf: string) {
    Contains(leaf, ".inf_amd64") || Contains(leaf, ".inf_arm64")
  }

  /** Below a driver repository, in any letter case. */
  predicate BelowRepository(p: Path) {
    Inside(Lowered(p), REPOSITORY)
  }

  /** A driver package: its folder is at or below the repository, or a folder whose name
      begins like it, and its own name carries the marker. */
  predicate IsPackage(p: Path) {
    p != [] && Begun(Lowered(Parent(p)), REPOSITORY) && HasMarker(Lower(Leaf(p)))
  }

  predicate IsSidecarIni(p: Path) {
    p != [] && BelowRepository(p) && HasMarker(Lower(Leaf(p))) && EndsWith(Lower(Leaf(p)), ".ini")
  }

  /** Inside the toolkit or a CUDA folder, or at or inside anything that begins like an
      Nsight folder. */
  predicate InDeveloperFolder(p: Path) {
    var names := Lowered(p);
    Inside(names, GPU_TOOLKIT) || Inside(names, CUDA) || Begun(names, NSIGHT_COMPUTE) || Begun(names, NSIGHT_SYSTEMS)
  }

  predicate AtOrInside(names: seq<string>, folder: seq<string>) {
    Inside(names, folder) || Ending(names, folder)
  }

  predicate InNgxFolder(p: Path) {
    AtOrInside(Lowered(p), NGX_IN_PROGRAM_DATA) || AtOrInside(Lowered(p), NGX_IN_CORPORATION)
  }

  /** What no run may take whatever is enabled, and the NGX folders unless they are. */
  predicate Guarded(p: Path, enabled: Enabled) {
    || InDeveloperFolder(p) || IsPackage(p) || IsSidecarIni(p)
    || (InNgxFolder(p) && !("NGX" in enabled && enabled["NGX"]))
    || (p != [] && Lower(Leaf(p)) in CORE_DISPLAY_LEAVES)
  }

  // ---- the texts that are searched for ----

  lemma KeyInside(p: Path, m: seq<string>)
    requires Named(p) && Plain(m) && m != []
    ensures Contains(PathKey(p), "\\" + (Join(m) + "\\")) <==> Inside(Lowered(p), m)
  {
    KeyIsJoin(p);
    NamedIsPlain(p);
    InsideText(Lowered(p), m);
  }

  lemma KeyBegun(p: Path, m: seq<string>)
    requires Named(p) && Plain(m) && m != []
    ensures Contains(PathKey(p), "\\" + Join(m)) <==> Begun(Lowered(p), m)
  {
    KeyIsJoin(p);
    NamedIsPlain(p);
    BegunText(Lowered(p), m);
  }

  lemma KeyEnding(p: Path, m: seq<string>)
    requires Named(p) && Plain(m) && m != []
    ensures EndsWith(PathKey(p), "\\" + Join(m)) <==> Ending(Lowered(p), m)
  {
    KeyIsJoin(p);
    NamedIsPlain(p);
    EndingText(Lowered(p), m);
  }

  lemma DeveloperText(p: Path)
    requires Named(p)
    ensures IsDeveloperTool(PathKey(p)) <==> InDeveloperFolder(p)
  {
    hide Inside, Begun, Contains, PathKey, Plain;
    PartText(p);
    OneOfFour(PathKey(p), GPU_TOOLKIT_PART, CUDA_PART, NSIGHT_COMPUTE_PART, NSIGHT_SYSTEMS_PART);
  }

  lemma PartText(p: Path)
    requires Named(p)
    ensures Contains(PathKey(p), GPU_TOOLKIT_PART) <==> Inside(Lowered(p), GPU_TOOLKIT)
    ensures Contains(PathKey(p), CUDA_PART) <==> Inside(Lowered(p), CUDA)
    ensures Contains(PathKey(p), NSIGHT_COMPUTE_PART) <==> Begun(Lowered(p), NSIGHT_COMPUTE)
    ensures Contains(PathKey(p), NSIGHT_SYSTEMS_PART) <==> Begun(Lowered(p), NSIGHT_SYSTEMS)
  {
    hide Inside, Begun, Contains, PathKey;
    KeyInside(p, GPU_TOOLKIT);
    KeyInside(p, CUDA);
    KeyBegun(p, NSIGHT_COMPUTE);
    KeyBegun(p, NSIGHT_SYSTEMS);
  }

  lemma OneOfFour(full: string, a: string, b: string, c: string, d: string)
    ensures (exists part | part in [a, b, c, d] :: Contains(full, part))
      <==> Contains(full, a) || Contains(full, b) || Contains(full, c) || Contains(full, d)
  {
    hide Contains;
    var parts := [a, b, c, d];
    assert parts[0] == a && parts[1] == b && parts[2] == c && parts[3] == d;
  }

  lemma NgxText(p: Path)
    requires Named(p)
    ensures UnderNgx(PathKey(p)) <==> InNgxFolder(p)
  {
    hide Inside, Ending, Contains, EndsWith, PathKey, Join;
    KeyInside(p, NGX_IN_PROGRAM_DATA);
    KeyInside(p, NGX_IN_CORPORATION);
    KeyEnding(p, NGX_IN_PROGRAM_DATA);
    KeyEnding(p, NGX_IN_CORPORATION);
    assert NGX_FOLDERS[0] + "\\" == "\\" + (Join(NGX_IN_PROGRAM_DATA) + "\\");
    assert NGX_FOLDERS[1] + "\\" == "\\" + (Join(NGX_IN_CORPORATION) + "\\");
  }

  lemma RepositoryText(p: Path)
    requires Named(p)
    ensures Contains(PathKey(p), FILE_REPOSITORY + "\\") <==> BelowRepository(p)
    ensures Contains(PathKey(p), FILE_REPOSITORY) <==> Begun(Lowered(p), REPOSITORY)
  {
    hide Inside, Begun, Contains, PathKey, Join;
    KeyInside(p, REPOSITORY);
    KeyBegun(p, REPOSITORY);
    assert FILE_REPOSITORY + "\\" == "\\" + (Join(REPOSITORY) + "\\");
  }

  lemma PackageText(p: Path)
    requires Named(p)
    ensures IsDriverStorePackageRoot(p) <==> IsPackage(p)
  {
    hide Begun, Contains, PathKey, Join;
    if |p| == 1 {
      NothingInEmpty();
    } else {
      assert forall n | n in Parent(p) :: n in p;
      RepositoryText(Parent(p));
    }
  }

  lemma NothingInEmpty()
    ensures PathKey([]) == "" && !Contains("", FILE_REPOSITORY) && !Begun(Lowered([]), REPOSITORY)
  {
    assert Lower("") == "";
  }

  lemma MarkerIsLong(leaf: string)
    requires LeafHasInfArchMarker(leaf)
    ensures |leaf| >= 4
  {
  }

  /** The tests before a path can be claimed say exactly that. */
  lemma GuardedIsExcluded(p: Path, enabled: Enabled)
    requires Named(p)
    ensures Excluded(p, enabled) <==> Guarded(p, enabled)
  {
    hide InDeveloperFolder, IsDeveloperTool, UnderNgx, InNgxFolder, IsPackage, IsDriverStorePackageRoot;
    hide PathKey, Contains;
    DeveloperText(p);
    NgxText(p);
    PackageText(p);
    RepositoryText(p);
    if LeafHasInfArchMarker(LeafKey(p)) {
      MarkerIsLong(LeafKey(p));
    }
  }

  /** So nothing claims a guarded path. */
  lemma GuardedIsUnmatched(catalog: seq<Component>, p: Path, enabled: Enabled)
    requires Named(p) && Guarded(p, enabled)
    ensures Match(catalog, p, enabled) == None
  {
    GuardedIsExcluded(p, enabled);
  }

  // ---- claims, name by name ----

  /** Text without a backslash stands in the joined names only within one of them. */
  lemma {:induction false} WithinOneName(b: seq<string>, v: string)
    requires '\\' !in v && v != ""
    ensures Contains(Join(b), v) <==> exists i | 0 <= i < |b| :: Contains(b[i], v)
  {
    if b == [] {
    } else if |b| == 1 {
      assert Join(b) == b[0];
    } else {
      WithinOneName(b[1..], v);
      OnOneSide(b[0], Join(b[1..]), v);
      assert forall i | 0 < i < |b| :: b[i] == b[1..][i - 1];
    }
  }

  lemma OnOneSide(x: string, t: string, v: string)
    requires '\\' !in v && v != ""
    ensures Contains(x + ("\\" + t), v) <==> Contains(x, v) || Contains(t, v)
  {
    var s := x + ("\\" + t);
    assert s[|x|] == '\\' && s[..|x|] == x && s[|x| + 1..] == t;
    forall k: nat | ContainsAt(s, v, k)
      ensures ContainsAt(x, v, k) || (k > |x| && ContainsAt(t, v, k - |x| - 1))
    {
      assert forall j | k <= j < k + |v| :: s[j] == s[k..k + |v|][j - k] && s[j] in v;
      if k > |x| {
        assert t[k - |x| - 1..k - |x| - 1 + |v|] == s[k..k + |v|];
      } else {
        assert x[k..k + |v|] == s[k..k + |v|];
      }
    }
    forall k: nat | ContainsAt(x, v, k)
      ensures ContainsAt(s, v, k)
    {
      assert x[k..k + |v|] == s[k..k + |v|];
    }
    forall k: nat | ContainsAt(t, v, k)
      ensures ContainsAt(s, v, k + |x| + 1)
    {
      assert t[k..k + |v|] == s[k + |x| + 1..k + |x| + 1 + |v|];
    }
  }

  /** Some name in the path contains the vendor's folder name. */
  predicate InCorporationFolder(p: Path) {
    exists i | 0 <= i < |p| :: Contains(Lower(p[i]), CORPORATION)
  }

  const CORPORATION := "nvidia corporation"

  /** Claimed by its own name: one of the component's names, the installer's cache only
      in a folder of the vendor, or a pattern in the plain meaning of `*` and `?`. */
  ghost predicate ClaimedByName(c: Component, p: Path)
    requires p != []
  {
    || ((c.key == "Installer2Cache" ==> InCorporationFolder(p))
        && exists i | 0 <= i < |c.exactLeafNames| :: Lower(c.exactLeafNames[i]) == Lower(Leaf(p)))
    || exists i | 0 <= i < |c.leafGlobs| :: Matches(Lower(Leaf(p)), Lower(c.leafGlobs[i]))
  }

  lemma GuardText(key: string, p: Path)
    ensures InstallerGuard(key, PathKey(p)) <==> (key == "Installer2Cache" ==> InCorporationFolder(p))
  {
    hide Contains, PathKey;
    assert '\\' !in CORPORATION;
    KeyIsJoin(p);
    WithinOneName(Lowered(p), CORPORATION);
    assert forall i | 0 <= i < |p| :: Lowered(p)[i] == Lower(p[i]);
  }

  /** No file name holds a star, so the matcher's answers are exact here. */
  lemma ClaimsByName(c: Component, p: Path)
    requires p != [] && '*' !in Leaf(p)
    ensures Claims(c, p) <==> ClaimedByName(c, p)
  {
    hide InstallerGuard, InCorporationFolder, Greedy, Matches, Lower;
    GuardText(c.key, p);
    NoStarLowered(Leaf(p));
    forall i | 0 <= i < |c.leafGlobs|
      ensures GlobMatches(Leaf(p), c.leafGlobs[i]) <==> Matches(Lower(Leaf(p)), Lower(c.leafGlobs[i]))
    {
      GreedyExact(Lower(Leaf(p)), Lower(c.leafGlobs[i]));
    }
  }

  ghost predicate ClaimedAsEnabled(catalog: seq<Component>, p: Path, enabled: Enabled)
    requires p != []
  {
    exists c :: c in catalog && c.key in enabled && enabled[c.key] && ClaimedByName(c, p)
  }

  ghost predicate ClaimsAt(catalog: seq<Component>, p: Path, enabled: Enabled, i: nat)
    requires p != [] && i < |catalog|
  {
    catalog[i].key in enabled && enabled[catalog[i].key] && ClaimedByName(catalog[i], p)
  }

  ghost predicate FirstAt(catalog: seq<Component>, p: Path, enabled: Enabled, i: nat)
    requires p != [] && i < |catalog|
  {
    && FirstClaim(catalog, p, enabled) == Some(catalog[i]) && ClaimsAt(catalog, p, enabled, i)
    && forall j: nat | j < i :: !ClaimsAt(catalog, p, enabled, j)
  }

  /** The first of the catalog that is enabled and claims the path is taken. */
  lemma {:induction false} FirstClaimant(catalog: seq<Component>, p: Path, enabled: Enabled)
    requires p != [] && '*' !in Leaf(p) && FirstClaim(catalog, p, enabled).Some?
    ensures exists i: nat | i < |catalog| :: FirstAt(catalog, p, enabled, i)
  {
    hide ClaimedByName, Claims;
    ClaimsByName(catalog[0], p);
    if !ClaimsAt(catalog, p, enabled, 0) {
      var rest := catalog[1..];
      FirstClaimant(rest, p, enabled);
      var i: nat :| i < |rest| && FirstAt(rest, p, enabled, i);
      forall j: nat | j < i + 1
        ensures !ClaimsAt(catalog, p, enabled, j)
      {
        assert j > 0 ==> catalog[j] == rest[j - 1] && !ClaimsAt(rest, p, enabled, j - 1);
      }
      assert FirstAt(catalog, p, enabled, i + 1);
    } else {
      assert FirstAt(catalog, p, enabled, 0);
    }
  }

  /** A path matches exactly when it is not guarded and an enabled component claims it. */
  lemma MatchedByName(catalog: seq<Component>, p: Path, enabled: Enabled)
    requires Named(p) && '*' !in Leaf(p)
    ensures Match(catalog, p, enabled).Some? <==> !Guarded(p, enabled) && ClaimedAsEnabled(catalog, p, enabled)
  {
    hide Guarded, Excluded, Claims, ClaimedByName;
    GuardedIsExcluded(p, enabled);
    forall c
      ensures Claims(c, p) <==> ClaimedByName(c, p)
    {
      ClaimsByName(c, p);
    }
  }

  /** What the search passes over with all it contains. */
  lemma PrunedFolders(p: Path, enabled: Enabled)
    requires Named(p)
    ensures Pruned(p, enabled) <==> InDeveloperFolder(p) || (InNgxFolder(p) && !("NGX" in enabled && enabled["NGX"]))
  {
    DeveloperText(p);
    NgxText(p);
  }
}
