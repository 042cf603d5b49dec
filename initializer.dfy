/**
 * `ContextIntializer`: finds the package of the application's main class,
 * walks every resource root of that package with one shared visitor, and
 * keeps the visitor's map as the route table.
 */
module Initializer {
  import opened Wrappers
  import opened Types
  import opened Names
  import opened Scan
  import opened Visitor

  class ContextIntializer {
    /** The route table; `null` when no directory root was walked. */
    const resourceHandler: Option<Table>

    constructor (resourceHandler: Option<Table>)
      ensures this.resourceHandler == resourceHandler
    {
      this.resourceHandler := resourceHandler;
    }

    function GetResourceHandler(): Option<Table>
    {
      resourceHandler
    }
  }

  /**
   * Walks every root `getResources` gives for the package path, in order,
   * with a single visitor, and returns the visitor's map. A root whose URL
   * does not convert to a URI is passed over.
   */
  method SearchForClassesInPackage(packageName: string, separator: char, runtime: Runtime)
    returns (table: Option<Table>)
    ensures table == AfterResources(None, runtime.resources(PackagePath(packageName, separator)), packageName, runtime)
    ensures Provenance(table, packageName, runtime)
    ensures var roots := runtime.resources(PackagePath(packageName, separator));
      separator != PackageSeparator && RootsNamedBy(roots, PackagePath(packageName, separator)) ==>
        forall j :: FirstDirectoryRoot(roots, j) ==>
          table == AfterFiles(Some(map[]), TopLevelFiles(roots[j].root.entries), packageName, runtime)
  {
    var path := PackagePath(packageName, separator);
    var resources := runtime.resources(path);
    var visitor := new ResourceMapPopulatingVisitor(packageName, runtime);
    var i := 0;
    while i < |resources|
      invariant 0 <= i <= |resources|
      invariant visitor.Valid()
      invariant visitor.packageName == packageName && visitor.runtime == runtime
      invariant AfterResources(None, resources, packageName, runtime) ==
        AfterResources(visitor.resourceHandler, resources[i..], packageName, runtime)
    {
      assert resources[i..][0] == resources[i] && resources[i..][1..] == resources[i + 1..];
      match resources[i] {
        case Unconvertible =>
        case Located(root) =>
          WalkFileTree(root, visitor);
      }
      i := i + 1;
    }
    table := visitor.GetResourceHandler();
    if separator != PackageSeparator && RootsNamedBy(resources, path) {
      PackageRootsWithoutExtension(packageName, separator, resources);
      forall j | FirstDirectoryRoot(resources, j)
        ensures table == AfterFiles(Some(map[]), TopLevelFiles(resources[j].root.entries), packageName, runtime)
      {
        OnlyFirstDirectoryRootContributes(resources, j, packageName, runtime);
      }
    }
  }

  /**
   * `new ContextIntializer(applicationMainClass, logger)`: fails when the
   * main class's name has no '.', because the package cannot be extracted;
   * otherwise holds the table of its package.
   */
  method NewContextIntializer(applicationMainClass: string, separator: char, runtime: Runtime)
    returns (r: Result<ContextIntializer, StartupError>)
    ensures r.Failure? <==> PackageSeparator !in applicationMainClass
    ensures r.Success? ==>
      var packageName := ExtractPackageFromClassname(applicationMainClass).value;
      && r.value.GetResourceHandler() ==
           AfterResources(None, runtime.resources(PackagePath(packageName, separator)), packageName, runtime)
      && Provenance(r.value.GetResourceHandler(), packageName, runtime)
  {
    match ExtractPackageFromClassname(applicationMainClass) {
      case None =>
        return Failure(StringIndexOutOfBounds);
      case Some(packageName) =>
        var table := SearchForClassesInPackage(packageName, separator, runtime);
        var context := new ContextIntializer(table);
        return Success(context);
    }
  }
}
