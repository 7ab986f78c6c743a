/** The part of a Windows volume the deletion layer works on: entries named by
    paths, links that lead elsewhere, and the reasons for which a delete, an
    attribute change, a stat or an enumeration can fail. */
module FileSystem {
  import opened Basics

  type Name = string
  /** Path components from the drive down, e.g. ["C:", "ProgramData", "NVIDIA"]. */
  type Path = seq<Name>

  /** What an existing entry is. A link (symlink, junction, mount point) carries
      where it leads and whether it is a directory entry. */
  datatype Kind = File | Directory | Reparse(target: Path, directoryEntry: bool)

  /** `locked`: in use, no delete succeeds. `readOnly`: deletes fail until the
      attribute is cleared. `fixedAttributes`: clearing it fails. `denied`: a
      metadata probe of this entry fails. `unreadable`: it cannot be listed. */
  datatype Node = Node(kind: Kind, locked: bool, readOnly: bool, fixedAttributes: bool,
                       denied: bool, unreadable: bool)

  type Entries = map<Path, Node>

  /** The no-follow kind of a path. */
  datatype PathKind = Missing | AFile | ADirectory | AReparse
  datatype Probe = Found(kind: PathKind) | AccessError
  datatype IoResult = Done | NotFound | Failed

  function Parent(p: Path): Path
    requires p != []
  {
    p[..|p| - 1]
  }

  function Leaf(p: Path): Name
    requires p != []
  {
    p[|p| - 1]
  }

  /** `a` is `p` itself or one of the directories above it. */
  predicate AtOrAbove(a: Path, p: Path) {
    a <= p
  }

  predicate Above(a: Path, p: Path) {
    a < p
  }

  /** Every entry below a drive sits in a directory; links have no entries of
      their own below them. */
  ghost predicate WellFormed(e: Entries) {
    forall p | p in e ::
      p != [] && (|p| > 1 ==> Parent(p) in e && e[Parent(p)].kind.Directory?)
  }

  /** No link among the proper ancestors: the path means what it says. */
  ghost predicate Direct(e: Entries, p: Path) {
    p != [] && forall k | 0 < k < |p| :: p[..k] in e ==> !e[p[..k]].kind.Reparse?
  }

  /** Where the file system ends up for `p`: links above the last component are
      followed, the last component is not. */
  function Resolve(e: Entries, p: Path): Path {
    if |p| <= 1 then p
    else
      var d := Resolve(e, Parent(p));
      if d in e && e[d].kind.Reparse? then e[d].kind.target + [Leaf(p)] else d + [Leaf(p)]
  }

  lemma {:induction false} ResolveDirect(e: Entries, p: Path)
    requires Direct(e, p)
    ensures Resolve(e, p) == p
  {
    if |p| <= 1 {
    } else {
      forall k | 0 < k < |Parent(p)|
        ensures Parent(p)[..k] in e ==> !e[Parent(p)[..k]].kind.Reparse?
      {
        assert Parent(p)[..k] == p[..k];
      }
      ResolveDirect(e, Parent(p));
      assert p == Parent(p) + [Leaf(p)];
      assert p[..|p| - 1] == Parent(p);
    }
  }

  /** Above an entry there are only directories. */
  lemma {:induction false} AncestorsAreDirectories(e: Entries, a: Path, p: Path)
    requires WellFormed(e) && p in e && a != [] && Above(a, p)
    ensures a in e && e[a].kind.Directory?
    decreases |p|
  {
    if a == Parent(p) {
    } else {
      assert Above(a, Parent(p));
      AncestorsAreDirectories(e, a, Parent(p));
    }
  }

  lemma {:induction false} EntryIsDirect(e: Entries, p: Path)
    requires WellFormed(e)
    requires p in e || (|p| > 1 && Parent(p) in e && e[Parent(p)].kind.Directory?)
    ensures Direct(e, p)
  {
    forall k | 0 < k < |p|
      ensures p[..k] in e ==> !e[p[..k]].kind.Reparse?
    {
      if p in e {
        AncestorsAreDirectories(e, p[..k], p);
      } else if p[..k] != Parent(p) {
        AncestorsAreDirectories(e, p[..k], Parent(p));
      }
    }
  }

  function KindOf(n: Node): PathKind {
    match n.kind
    case File => AFile
    case Directory => ADirectory
    case Reparse(_, _) => AReparse
  }

  function ProbeAt(e: Entries, p: Path): Probe {
    var q := Resolve(e, p);
    if q !in e then Found(Missing)
    else if e[q].denied then AccessError
    else Found(KindOf(e[q]))
  }

  /** The names of `names` that are entries of `d`, in that order. */
  function Present(e: Entries, d: Path, names: seq<Name>): (r: seq<Name>)
    ensures forall n :: n in r <==> n in names && d + [n] in e
  {
    if names == [] then []
    else
      var rest := Present(e, d, names[..|names| - 1]);
      if d + [names[|names| - 1]] in e then rest + [names[|names| - 1]] else rest
  }

  lemma {:induction false} PresentDistinct(e: Entries, d: Path, names: seq<Name>)
    requires Distinct(names)
    ensures Distinct(Present(e, d, names))
  {
    if names == [] {
    } else {
      var front, n := names[..|names| - 1], names[|names| - 1];
      PresentDistinct(e, d, front);
      assert n !in front;
    }
  }

  /** Every entry is met, once, when its directory is listed. */
  ghost predicate Enumerates(order: Path -> seq<Name>, e: Entries) {
    && (forall d :: Distinct(order(d)))
    && (forall p | p in e && |p| > 1 :: Leaf(p) in order(Parent(p)))
  }

  /** Listing a link lists what it leads to. */
  function ListingAt(e: Entries, order: Path -> seq<Name>, p: Path): Option<seq<Name>> {
    var q := Resolve(e, p);
    if q !in e || e[q].unreadable then None
    else
      var d := if e[q].kind.Reparse? then e[q].kind.target else q;
      if d in e && e[d].kind.Directory? && !e[d].unreadable
      then Some(Present(e, d, order(d)))
      else None
  }

  predicate HasEntries(e: Entries, d: Path) {
    exists p | p in e :: Above(d, p)
  }

  /** DeleteFileW works on files and on links that are not directory entries. */
  predicate FileDeletable(n: Node) {
    !n.locked && !n.readOnly && (n.kind.File? || (n.kind.Reparse? && !n.kind.directoryEntry))
  }

  /** RemoveDirectoryW works on empty directories and on directory links. */
  predicate DirDeletable(e: Entries, q: Path)
    requires q in e
  {
    !e[q].locked && !e[q].readOnly
    && ((e[q].kind.Directory? && !HasEntries(e, q)) || (e[q].kind.Reparse? && e[q].kind.directoryEntry))
  }

  class Volume {
    var entries: Entries
    const order: Path -> seq<Name>

    ghost predicate Valid()
      reads this
    {
      WellFormed(entries) && Enumerates(order, entries)
    }

    constructor (entries: Entries, order: Path -> seq<Name>)
      requires WellFormed(entries) && Enumerates(order, entries)
      ensures Valid() && this.entries == entries && this.order == order
    {
      this.entries := entries;
      this.order := order;
    }

    method RemoveFile(p: Path) returns (r: IoResult)
      modifies this
      ensures var q := Resolve(old(entries), p);
        r == if q !in old(entries) then NotFound else if FileDeletable(old(entries)[q]) then Done else Failed
      ensures entries == if r == Done then old(entries) - {Resolve(old(entries), p)} else old(entries)
    {
      var q := Resolve(entries, p);
      if q !in entries {
        return NotFound;
      }
      if !FileDeletable(entries[q]) {
        return Failed;
      }
      entries := entries - {q};
      return Done;
    }

    method RemoveDir(p: Path) returns (r: IoResult)
      modifies this
      ensures var q := Resolve(old(entries), p);
        r == if q !in old(entries) then NotFound else if DirDeletable(old(entries), q) then Done else Failed
      ensures entries == if r == Done then old(entries) - {Resolve(old(entries), p)} else old(entries)
    {
      var q := Resolve(entries, p);
      if q !in entries {
        return NotFound;
      }
      if !DirDeletable(entries, q) {
        return Failed;
      }
      entries := entries - {q};
      return Done;
    }

    /** SetFileAttributesW(FILE_ATTRIBUTE_NORMAL) on the entry itself. */
    method SetAttributesNormal(p: Path)
      modifies this
      ensures var q := Resolve(old(entries), p);
        entries == if q in old(entries) then old(entries)[q := Writable(old(entries)[q])] else old(entries)
    {
      var q := Resolve(entries, p);
      if q in entries {
        entries := entries[q := Writable(entries[q])];
      }
    }
  }

  function Writable(n: Node): Node {
    n.(readOnly := n.readOnly && n.fixedAttributes)
  }
}
