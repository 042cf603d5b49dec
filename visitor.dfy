/**
 * `ResourceMapPopulatingVisitor`: the file visitor that fills the route
 * table, and the walk `Files.walkFileTree` drives it through.
 */
module Visitor {
  import opened Wrappers
  import opened Types
  import opened Names
  import opened Registry
  import opened Scan

  class ResourceMapPopulatingVisitor {
    const packageName: string
    /** The class loader and the sanitizer the visitor consults. */
    const runtime: Runtime
    /** `null` until the first directory is entered. */
    var resourceHandler: Option<Table>

    /** Every route in the map is declared by a constructible class of the package. */
    ghost predicate Valid()
      reads this
    {
      Provenance(resourceHandler, packageName, runtime)
    }

    constructor (packageName: string, runtime: Runtime)
      ensures this.packageName == packageName && this.runtime == runtime
      ensures resourceHandler == None
      ensures Valid()
    {
      this.packageName := packageName;
      this.runtime := runtime;
      resourceHandler := None;
    }

    /** The map the walk built: every route in it is declared by a constructible class of the package. */
    function GetResourceHandler(): (r: Option<Table>)
      requires Valid()
      reads this
      ensures Provenance(r, packageName, runtime)
    {
      resourceHandler
    }

    /**
     * The first directory creates the empty map and is entered; every later
     * one, the subdirectories of the first included, is skipped.
     */
    method PreVisitDirectory() returns (r: FileVisitResult)
      requires Valid()
      modifies this
      ensures Valid()
      ensures old(resourceHandler).None? ==> r == Continue && resourceHandler == Some(map[])
      ensures old(resourceHandler).Some? ==> r == SkipSubtree && resourceHandler == old(resourceHandler)
    {
      var hasAlreadyVisitedBasePackage := resourceHandler.Some?;
      if !hasAlreadyVisitedBasePackage {
        resourceHandler := Some(map[]);
        return Continue;
      }
      return SkipSubtree;
    }

    /**
     * Loads the class the file names and registers its mappings; a file
     * whose class cannot be inferred is logged and passed over.
     */
    method VisitFile(fileName: string) returns (r: FileVisitResult)
      requires Valid()
      modifies this
      ensures Valid()
      ensures r == Continue
      ensures resourceHandler == AfterFile(old(resourceHandler), packageName, runtime, fileName)
    {
      match ClassFromPath(packageName, runtime.classes, fileName) {
        case None =>
        case Some(c) =>
          var className := ClassNameFromPath(fileName).value;
          assert c.name == QualifiedName(packageName, className);
          PutIfHasValidMethodMappings(c);
      }
      r := Continue;
    }

    /**
     * Instantiates the class and registers its methods. A failed
     * instantiation, and any exception registration raises, is caught and
     * logged here, at the class boundary.
     */
    method PutIfHasValidMethodMappings(c: LoadedClass)
      requires Valid() && InPackage(packageName, runtime, c)
      modifies this
      ensures Valid()
      ensures resourceHandler == AfterClass(old(resourceHandler), c, runtime.sanitize)
    {
      if c.info.constructible {
        var thrown := ParseClassMethods(c.name, c.info.methods);
      }
    }

    /**
     * Stores the mappings of the methods in order, and stops at the first
     * exception: a key already present, or a map that is still null.
     */
    method ParseClassMethods(owner: string, methods: seq<MethodInfo>) returns (thrown: Option<Failure>)
      requires Valid()
      requires InPackage(packageName, runtime, LoadedClass(owner, ClassInfo(true, methods)))
      modifies this
      ensures Valid()
      ensures old(resourceHandler).None? ==>
        && resourceHandler.None?
        && (thrown.Some? <==> exists i :: Annotated(methods, i))
        && (thrown.Some? ==> thrown.value == NullPointerException)
      ensures old(resourceHandler).Some? ==>
        var reg := Register(old(resourceHandler).value, owner, methods, runtime.sanitize);
        && resourceHandler == Some(reg.table)
        && (thrown.None? <==> reg.conflict.None?)
        && (thrown.Some? ==> thrown.value == ResourceMappingException(reg.conflict.value))
    {
      thrown := None;
      var i := 0;
      while i < |methods| && thrown.None?
        invariant 0 <= i <= |methods|
        invariant Valid()
        invariant old(resourceHandler).None? ==>
          && resourceHandler.None?
          && (thrown.None? ==> forall j :: 0 <= j < i ==> methods[j].mapping.None?)
          && (thrown.Some? ==> thrown.value == NullPointerException && exists j :: Annotated(methods, j))
        invariant old(resourceHandler).Some? ==>
          && resourceHandler.Some?
          && (thrown.None? ==>
                Register(old(resourceHandler).value, owner, methods, runtime.sanitize) ==
                Register(resourceHandler.value, owner, methods[i..], runtime.sanitize))
          && (thrown.Some? ==>
                thrown.value.ResourceMappingException? &&
                Register(old(resourceHandler).value, owner, methods, runtime.sanitize) ==
                Registration(resourceHandler.value, Some(thrown.value.mapping)))
      {
        var m := methods[i];
        assert methods[i..][0] == m && methods[i..][1..] == methods[i + 1..];
        match m.mapping {
          case None =>
          case Some(mapping) =>
            assert Annotated(methods, i) && KeyAt(methods, i, runtime.sanitize) == KeyOf(mapping, runtime.sanitize);
            thrown := StoreResourceMappingOrThrowIfAlreadyPresent(owner, m.name, mapping);
        }
        i := i + 1;
      }
    }

    /**
     * Stores `owner.methodName` under the sanitized key of `mapping` when
     * that key is free; otherwise the exception is raised before anything is
     * stored.
     */
    method StoreResourceMappingOrThrowIfAlreadyPresent(owner: string, methodName: string, mapping: Mapping)
      returns (thrown: Option<Failure>)
      requires Valid()
      requires Declared(packageName, runtime, KeyOf(mapping, runtime.sanitize), RouteTarget(owner, methodName))
      modifies this
      ensures Valid()
      ensures var key := KeyOf(mapping, runtime.sanitize);
        match old(resourceHandler)
        case None =>
          thrown == Some(NullPointerException) && resourceHandler == None
        case Some(t) =>
          if key in t then
            thrown == Some(ResourceMappingException(mapping)) && resourceHandler == old(resourceHandler)
          else
            thrown == None && resourceHandler == Some(t[key := RouteTarget(owner, methodName)])
    {
      var key := KeyOf(mapping, runtime.sanitize);
      thrown := RequireEmptyMappingForGivenResource(mapping, key);
      if thrown.None? {
        resourceHandler := Some(resourceHandler.value[key := RouteTarget(owner, methodName)]);
      }
    }

    /** The exception looking up `key` raises: none exactly when the map exists and lacks `key`. */
    function RequireEmptyMappingForGivenResource(mapping: Mapping, key: RouteKey): (r: Option<Failure>)
      reads this
      ensures r.None? <==> resourceHandler.Some? && key !in resourceHandler.value
      ensures r.Some? ==>
        r.value == if resourceHandler.None? then NullPointerException else ResourceMappingException(mapping)
    {
      match resourceHandler
      case None => Some(NullPointerException)
      case Some(t) => if key in t then Some(ResourceMappingException(mapping)) else None
    }
  }

  /**
   * `Files.walkFileTree(root, visitor)`: a file root is visited; a directory
   * is pre-visited, and entered, entry by entry, only if the visitor
   * answers `Continue`.
   */
  method WalkFileTree(root: Node, visitor: ResourceMapPopulatingVisitor)
    requires visitor.Valid()
    modifies visitor
    ensures visitor.Valid()
    ensures visitor.resourceHandler ==
      AfterWalk(old(visitor.resourceHandler), root, visitor.packageName, visitor.runtime)
    decreases root
  {
    match root
    case File(name) =>
      var _ := visitor.VisitFile(name);
    case Directory(entries) =>
      var r := visitor.PreVisitDirectory();
      if r == Continue {
        var i := 0;
        while i < |entries|
          invariant 0 <= i <= |entries|
          invariant visitor.Valid()
          invariant AfterWalk(old(visitor.resourceHandler), root, visitor.packageName, visitor.runtime) ==
            AfterEntries(visitor.resourceHandler, entries[i..], visitor.packageName, visitor.runtime)
        {
          assert entries[i..][0] == entries[i] && entries[i..][1..] == entries[i + 1..];
          WalkFileTree(entries[i], visitor);
          i := i + 1;
        }
      }
  }
}
