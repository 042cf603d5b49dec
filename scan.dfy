/**
 * The directory scan as functions of the visitor's map: what one file, one
 * walk and the loop over all resource roots do to it. `null` is `None`.
 */
module Scan {
  import opened Wrappers
  import opened Types
  import opened Names
  import opened Registry

  /**
   * `classFromPath`: `Class.forName(packageName + '.' + classNameFromPath(file))`.
   * `None` when the file name has no '.' or the class cannot be found.
   */
  function ClassFromPath(packageName: string, classes: map<string, ClassInfo>, fileName: string): (r: Option<LoadedClass>)
    ensures r.Some? <==>
      ClassNameFromPath(fileName).Some? &&
      QualifiedName(packageName, ClassNameFromPath(fileName).value) in classes
    ensures r.Some? ==>
      r.value.name == QualifiedName(packageName, ClassNameFromPath(fileName).value) &&
      r.value.info == classes[r.value.name]
  {
    match ClassNameFromPath(fileName)
    case None => None
    case Some(className) =>
      var fqcn := QualifiedName(packageName, className);
      if fqcn in classes then Some(LoadedClass(fqcn, classes[fqcn])) else None
  }

  /**
   * `parseClassMethods` applied to the visitor's map. On a null map the
   * first mapping throws before anything is stored, so the map stays null.
   */
  function AfterParse(t: Option<Table>, c: LoadedClass, sanitize: string -> string): Option<Table>
  {
    match t
    case None => None
    case Some(u) => Some(Register(u, c.name, c.info.methods, sanitize).table)
  }

  /** `putIfHasValidMethodMappings`: a class whose instantiation fails contributes nothing. */
  function AfterClass(t: Option<Table>, c: LoadedClass, sanitize: string -> string): Option<Table>
  {
    if c.info.constructible then AfterParse(t, c, sanitize) else t
  }

  /** `visitFile`: a file whose class cannot be inferred contributes nothing. */
  function AfterFile(t: Option<Table>, packageName: string, rt: Runtime, fileName: string): (r: Option<Table>)
    ensures r.None? <==> t.None?
    ensures FileExtensionSeparator !in fileName ==> r == t
  {
    match ClassFromPath(packageName, rt.classes, fileName)
    case None => t
    case Some(c) => AfterClass(t, c, rt.sanitize)
  }

  /**
   * `Files.walkFileTree(root, visitor)`. A file root is visited directly; a
   * directory first gets `preVisitDirectory`, which creates the map and
   * continues only when the map is still null, and skips the subtree otherwise.
   */
  function AfterWalk(t: Option<Table>, n: Node, packageName: string, rt: Runtime): (r: Option<Table>)
    ensures r.Some? <==> t.Some? || n.Directory?
    decreases n
  {
    match n
    case File(name) => AfterFile(t, packageName, rt, name)
    case Directory(entries) =>
      if t.Some? then t else AfterEntries(Some(map[]), entries, packageName, rt)
  }

  /** The entries of a directory the walk continued into, in walk order. */
  function AfterEntries(t: Option<Table>, entries: seq<Node>, packageName: string, rt: Runtime): (r: Option<Table>)
    ensures t.Some? ==> r.Some?
    decreases entries
  {
    if entries == [] then t
    else AfterEntries(AfterWalk(t, entries[0], packageName, rt), entries[1..], packageName, rt)
  }

  /** The loop over the resource roots with one shared visitor; an unconvertible URL is passed over. */
  function AfterResources(t: Option<Table>, roots: seq<Resource>, packageName: string, rt: Runtime): (r: Option<Table>)
    ensures t.Some? ==> r.Some?
    decreases |roots|
  {
    if roots == [] then t
    else
      var t' := match roots[0]
        case Unconvertible => t
        case Located(root) => AfterWalk(t, root, packageName, rt);
      AfterResources(t', roots[1..], packageName, rt)
  }

  /** The names of the regular files directly in a directory, in walk order. */
  function TopLevelFiles(entries: seq<Node>): (names: seq<string>)
    ensures |names| <= |entries|
    ensures forall n :: n in names <==> File(n) in entries
  {
    if entries == [] then []
    else
      var rest := TopLevelFiles(entries[1..]);
      assert forall e :: e in entries <==> e == entries[0] || e in entries[1..];
      match entries[0]
      case File(name) => [name] + rest
      case Directory(_) => rest
  }

  /** The files named, visited one after the other. */
  function AfterFiles(t: Option<Table>, names: seq<string>, packageName: string, rt: Runtime): Option<Table>
    decreases |names|
  {
    if names == [] then t
    else AfterFiles(AfterFile(t, packageName, rt, names[0]), names[1..], packageName, rt)
  }

  /** Every root that is a regular file has a name without '.'. */
  predicate FileRootsWithoutExtension(roots: seq<Resource>)
  {
    forall i :: 0 <= i < |roots| && roots[i].Located? && roots[i].root.File? ==>
      FileExtensionSeparator !in roots[i].root.name
  }

  /**
   * What `getResources` is taken to give for `path`: a root that is a regular
   * file is named by a final part of the path it was found under. The model
   * takes this of `Runtime.resources`; nothing else constrains it.
   */
  predicate RootsNamedBy(roots: seq<Resource>, path: string)
  {
    forall i :: 0 <= i < |roots| && roots[i].Located? && roots[i].root.File? ==>
      exists k :: 0 <= k <= |path| && roots[i].root.name == path[k..]
  }

  /**
   * The roots of a package path have file names without '.': the package
   * path holds none once its '.' are replaced by a real file separator.
   */
  lemma PackageRootsWithoutExtension(packageName: string, separator: char, roots: seq<Resource>)
    requires separator != PackageSeparator
    requires RootsNamedBy(roots, PackagePath(packageName, separator))
    ensures FileRootsWithoutExtension(roots)
  {
    var path := PackagePath(packageName, separator);
    forall i | 0 <= i < |roots| && roots[i].Located? && roots[i].root.File?
      ensures FileExtensionSeparator !in roots[i].root.name
    {
      var k :| 0 <= k <= |path| && roots[i].root.name == path[k..];
      PathSegmentHasNoDot(packageName, separator, k, |packageName|);
    }
  }

  /** `roots[j]` is the first root that is walked as a directory. */
  predicate FirstDirectoryRoot(roots: seq<Resource>, j: int)
  {
    && 0 <= j < |roots| && IsDirectoryRoot(roots[j])
    && forall i :: 0 <= i < j ==> !IsDirectoryRoot(roots[i])
  }

  /** The root is walked: the URL converts and names a directory. */
  predicate IsDirectoryRoot(r: Resource)
  {
    r.Located? && r.root.Directory?
  }

  /**
   * The route `k -> target` is declared in the source: the target's owner is
   * a constructible class of the package, and one of its methods carries a
   * mapping whose key is `k`.
   */
  ghost predicate Declared(packageName: string, rt: Runtime, k: RouteKey, target: RouteTarget)
  {
    && target.owner in rt.classes
    && rt.classes[target.owner].constructible
    && (exists className :: target.owner == QualifiedName(packageName, className))
    && exists i :: Annotated(rt.classes[target.owner].methods, i) &&
         KeyAt(rt.classes[target.owner].methods, i, rt.sanitize) == k &&
         rt.classes[target.owner].methods[i].name == target.handler
  }

  /** `c` is what `Class.forName` gives for a class of the package. */
  ghost predicate InPackage(packageName: string, rt: Runtime, c: LoadedClass)
  {
    && c.name in rt.classes
    && rt.classes[c.name] == c.info
    && exists className :: c.name == QualifiedName(packageName, className)
  }

  /** Every entry of the table is declared in the source. */
  ghost predicate Provenance(t: Option<Table>, packageName: string, rt: Runtime)
  {
    t.Some? ==> forall k :: k in t.value ==> Declared(packageName, rt, k, t.value[k])
  }

  /** `t'` is null exactly when `t` is, and otherwise keeps every entry of `t`. */
  ghost predicate Grows(t': Option<Table>, t: Option<Table>)
  {
    (t'.None? <==> t.None?) && (t.Some? ==> Extends(t'.value, t.value))
  }

  /**
   * Visiting a file never loses or overwrites an entry, never turns a null
   * map into a map, and adds only declared routes.
   */
  lemma AfterFileGrows(t: Option<Table>, packageName: string, rt: Runtime, fileName: string)
    requires Provenance(t, packageName, rt)
    ensures Grows(AfterFile(t, packageName, rt, fileName), t)
    ensures Provenance(AfterFile(t, packageName, rt, fileName), packageName, rt)
  {
    match ClassFromPath(packageName, rt.classes, fileName)
    case None =>
    case Some(c) =>
      if c.info.constructible && t.Some? {
        var u := t.value;
        var v := Register(u, c.name, c.info.methods, rt.sanitize).table;
        RegisterExtends(u, c.name, c.info.methods, rt.sanitize);
        RegisterSound(u, c.name, c.info.methods, rt.sanitize);
        var className := ClassNameFromPath(fileName).value;
        assert c.name == QualifiedName(packageName, className);
        forall k | k in v ensures Declared(packageName, rt, k, v[k]) {
          if k !in u {
            var i :| Annotated(c.info.methods, i) && KeyAt(c.info.methods, i, rt.sanitize) == k &&
              v[k] == RouteTarget(c.name, c.info.methods[i].name);
            assert v[k].owner == c.name;
          }
        }
      }
  }

  /** The same for a whole walk, by induction over the tree. */
  lemma {:induction false} AfterWalkGrows(t: Option<Table>, n: Node, packageName: string, rt: Runtime)
    requires Provenance(t, packageName, rt)
    ensures var t' := AfterWalk(t, n, packageName, rt);
      Provenance(t', packageName, rt) &&
      (t.Some? ==> Grows(t', t)) &&
      (t'.Some? <==> t.Some? || n.Directory?)
    decreases n
  {
    match n
    case File(name) =>
      AfterFileGrows(t, packageName, rt, name);
    case Directory(entries) =>
      if t.None? {
        AfterEntriesGrows(Some(map[]), entries, packageName, rt);
      }
  }

  /** A map that exists keeps growing over the entries of a directory. */
  lemma {:induction false} AfterEntriesGrows(t: Option<Table>, entries: seq<Node>, packageName: string, rt: Runtime)
    requires t.Some? && Provenance(t, packageName, rt)
    ensures var t' := AfterEntries(t, entries, packageName, rt);
      Provenance(t', packageName, rt) && Grows(t', t)
    decreases entries
  {
    if entries != [] {
      var t1 := AfterWalk(t, entries[0], packageName, rt);
      AfterWalkGrows(t, entries[0], packageName, rt);
      AfterEntriesGrows(t1, entries[1..], packageName, rt);
    }
  }

  /**
   * Once the map exists, subdirectories are skipped: walking the entries of
   * a directory is visiting its top-level files and nothing else.
   */
  lemma {:induction false} SubdirectoriesSkipped(t: Option<Table>, entries: seq<Node>, packageName: string, rt: Runtime)
    requires t.Some?
    ensures AfterEntries(t, entries, packageName, rt) == AfterFiles(t, TopLevelFiles(entries), packageName, rt)
    decreases entries
  {
    if entries != [] {
      match entries[0]
      case File(name) =>
        var t1 := AfterFile(t, packageName, rt, name);
        assert TopLevelFiles(entries) == [name] + TopLevelFiles(entries[1..]);
        SubdirectoriesSkipped(t1, entries[1..], packageName, rt);
      case Directory(_) =>
        SubdirectoriesSkipped(t, entries[1..], packageName, rt);
    }
  }

  /**
   * First level only: walking a directory with a fresh visitor creates the
   * empty map and visits exactly the files directly inside it.
   */
  lemma FirstLevelOnly(entries: seq<Node>, packageName: string, rt: Runtime)
    ensures AfterWalk(None, Directory(entries), packageName, rt) ==
      AfterFiles(Some(map[]), TopLevelFiles(entries), packageName, rt)
  {
    SubdirectoriesSkipped(Some(map[]), entries, packageName, rt);
  }

  /**
   * Once the map exists, every later root is skipped: a directory gets
   * `SkipSubtree`, and a file root names no class.
   */
  lemma {:induction false} LaterRootsSkipped(u: Table, roots: seq<Resource>, packageName: string, rt: Runtime)
    requires FileRootsWithoutExtension(roots)
    ensures AfterResources(Some(u), roots, packageName, rt) == Some(u)
    decreases |roots|
  {
    if roots != [] {
      assert forall i :: 1 <= i < |roots| ==> roots[1..][i - 1] == roots[i];
      LaterRootsSkipped(u, roots[1..], packageName, rt);
    }
  }

  /** The table is null exactly when no resource root is a walkable directory (zero roots included). */
  lemma {:induction false} NullIffNoDirectoryRoot(roots: seq<Resource>, packageName: string, rt: Runtime)
    ensures AfterResources(None, roots, packageName, rt).None? <==>
      forall i :: 0 <= i < |roots| ==> !IsDirectoryRoot(roots[i])
    decreases |roots|
  {
    if roots != [] {
      match roots[0]
      case Unconvertible =>
        NullIffNoDirectoryRoot(roots[1..], packageName, rt);
        assert forall i :: 1 <= i < |roots| ==> roots[i] == roots[1..][i - 1];
      case Located(root) =>
        var t1 := AfterWalk(None, root, packageName, rt);
        AfterWalkGrows(None, root, packageName, rt);
        if !root.Directory? {
          NullIffNoDirectoryRoot(roots[1..], packageName, rt);
          assert forall i :: 1 <= i < |roots| ==> roots[i] == roots[1..][i - 1];
        }
    }
  }

  /**
   * Only the first walkable directory root contributes: the table is that of
   * walking the first directory root alone, which is its top-level files
   * visited in order, whatever roots come before or after it.
   */
  lemma {:induction false} OnlyFirstDirectoryRootContributes(roots: seq<Resource>, j: int, packageName: string, rt: Runtime)
    requires 0 <= j < |roots| && IsDirectoryRoot(roots[j])
    requires forall i :: 0 <= i < j ==> !IsDirectoryRoot(roots[i])
    requires FileRootsWithoutExtension(roots)
    ensures AfterResources(None, roots, packageName, rt) ==
      AfterFiles(Some(map[]), TopLevelFiles(roots[j].root.entries), packageName, rt)
    decreases |roots|
  {
    var t1 := match roots[0]
      case Unconvertible => None
      case Located(root) => AfterWalk(None, root, packageName, rt);
    if j == 0 {
      FirstLevelOnly(roots[0].root.entries, packageName, rt);
      AfterWalkGrows(None, roots[0].root, packageName, rt);
      assert forall i :: 1 <= i < |roots| ==> roots[1..][i - 1] == roots[i];
      LaterRootsSkipped(t1.value, roots[1..], packageName, rt);
    } else {
      if roots[0].Located? {
        AfterWalkGrows(None, roots[0].root, packageName, rt);
      }
      assert t1 == None;
      assert forall i :: 1 <= i < |roots| ==> roots[1..][i - 1] == roots[i];
      OnlyFirstDirectoryRootContributes(roots[1..], j - 1, packageName, rt);
    }
  }
}
