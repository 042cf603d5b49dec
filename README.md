# Route-table builder of a minimal HTTP server, in Dafny

At startup the server builds its route table. The table maps a route key,
`(HTTP method, sanitized path)`, to a route target, `(handler instance, handler method)`.
`ContextIntializer` takes the package of the application's main class and turns it
into a resource path. It asks the class loader for every root of that path and walks
each root with one shared `ResourceMapPopulatingVisitor`.

For every file directly in the first directory it enters, the visitor does four things:

1. It derives a class name from the file name.
2. It loads the class and instantiates it.
3. It stores each method carrying a `ResourceMapping` annotation under its key.
4. It refuses a key that is already taken.

A taken key raises `ResourceMappingException`, which is caught at the class boundary.
The earlier entry stays, and so does everything that class stored before the conflict.
The rest of that class's methods are dropped.

The model has one module per concern:

- `Types` (types.dfy): the entities, and the abstract view of reflection and of the file system.
  - `Runtime` stands for the collaborators the builder cannot see into: the classes the loader can load, `getResources`, and the path sanitizer.
  - `Node` is a file tree in walk order.
  - `Resource` is a root URL that either converts to a URI or does not.
- `Names` (names.dfy): the string functions: `lastIndexOf`, `substring`, `replace`, the class name of a file, the package of a class, and the path of a package.
- `Registry` (registry.dfy): `Register`, which says what one class's methods do to a table value. It comes with its lemmas: entries are never lost or overwritten, every added entry comes from an annotated method of that class, registration succeeds exactly when the keys are fresh, and processing stops at the first conflict.
- `Scan` (scan.dfy): the visitor's map as a function of a file, a walk, and the loop over roots. `null` is `None`. Its lemmas cover first-level-only scanning, the rule that only the first directory root contributes, and when the result is `null`.
- `Visitor` (visitor.dfy): the class `ResourceMapPopulatingVisitor` with its `resourceHandler` field, and `WalkFileTree`.
  - `resourceHandler` is `Option<Table>`, and the class's methods update it in place.
  - Each method is proved against the `Registry` and `Scan` functions.
  - The class invariant says that every entry is declared by a constructible class of the package.
  - `WalkFileTree` models `Files.walkFileTree`. It pre-visits a directory and enters it only when the visitor answers `Continue`.
- `Initializer` (initializer.dfy): `SearchForClassesInPackage`, whose loop walks the roots with one visitor, and the `ContextIntializer` object (the source's spelling).

Three behaviours of the code are worth stating:

- With zero resource roots, the table is `null`, not an empty map. The same holds when no root is a walkable directory.
- When a package has several roots, each root is handed to the walk. Only the first directory root adds routes, because the shared visitor skips every directory once its map exists. A later root that is a file adds nothing either, since a root is named by a segment of the package path, which holds no '.', so no class name can be derived from it.
- A class name with no '.' (a class in the default package) makes the constructor throw. The result is `Failure(StringIndexOutOfBounds)`.

## Model

| member | source | states |
|---|---|---|
| `Names.LastIndexOf` | src/main/java/co/kukurin/server/context/ResourceMapPopulatingVisitor.java:114 | -1 exactly when the character is absent; otherwise a position holding it with no later occurrence |
| `Names.PrefixBeforeLast` | src/main/java/co/kukurin/server/context/ResourceMapPopulatingVisitor.java:114 | `substring(0, lastIndexOf(c))`: none (the exception) exactly when `c` is absent; otherwise the string is the result, then `c`, then a tail without `c` |
| `Names.ClassNameFromPath` | src/main/java/co/kukurin/server/context/ResourceMapPopulatingVisitor.java:110-115 | none exactly when the file name has no '.'; otherwise the name is the class name, a '.', and an extension without '.' |
| `Names.ClassNameOfBaseAndExtension` | src/main/java/co/kukurin/server/context/ResourceMapPopulatingVisitor.java:110-115 | a base name, '.', and an extension without '.' give back exactly the base name |
| `Names.ClassNameExamples` | src/main/java/co/kukurin/server/context/ResourceMapPopulatingVisitor.java:110-115 | `Foo.class` gives `Foo`, `A.b.class` gives `A.b`, `Makefile` gives none |
| `Names.QualifiedName` | src/main/java/co/kukurin/server/context/ResourceMapPopulatingVisitor.java:66-68 | the loaded name is the package, then '.', then the class name |
| `Scan.ClassFromPath` | src/main/java/co/kukurin/server/context/ResourceMapPopulatingVisitor.java:66-68 | a class is found exactly when the file has a class name and the loader knows the qualified name; it is then that name with the loader's class |
| `Names.ExtractPackageFromClassname` | src/main/java/co/kukurin/server/context/ContextIntializer.java:38-41 | none exactly when the class name has no '.'; otherwise the name is the package, a '.', and a simple name without '.' |
| `Names.PackageOfQualifiedName` | src/main/java/co/kukurin/server/context/ContextIntializer.java:38-41 | the package of `p.n` with no '.' in `n` is exactly `p` |
| `Names.PackageExamples` | src/main/java/co/kukurin/server/context/ContextIntializer.java:38-41 | `co.kukurin.App` gives `co.kukurin`; `App` gives none |
| `Names.Replace` | src/main/java/co/kukurin/server/context/ContextIntializer.java:46 | same length; each `from` becomes `to`, every other character is unchanged |
| `Names.PackagePath` | src/main/java/co/kukurin/server/context/ContextIntializer.java:46 | same length as the package; each '.' becomes the separator, all else unchanged |
| `Names.PathSegmentHasNoDot` | src/main/java/co/kukurin/server/context/ContextIntializer.java:46-47 | with a separator other than '.', no part of the package path, and so no root name `getResources` is asked for, holds a '.' |
| `Names.PackagePathInverse` | src/main/java/co/kukurin/server/context/ContextIntializer.java:46 | when the separator does not occur in the package, replacing it back by '.' recovers the package |
| `Registry.KeysCollide` | src/main/java/co/kukurin/server/context/ResourceMapPopulatingVisitor.java:94-98 | two mappings compete for one entry exactly when they have the same method and the same sanitized path |
| `Registry.Register` | src/main/java/co/kukurin/server/context/ResourceMapPopulatingVisitor.java:78-89 | a conflict names an annotated method's mapping whose key is already in the table |
| `Registry.RegisterAppend` | src/main/java/co/kukurin/server/context/ResourceMapPopulatingVisitor.java:78-89 | the methods are processed in order: a concatenation is the first part, then the second part only if the first raised no conflict |
| `Registry.RegisterExtends` | src/main/java/co/kukurin/server/context/ResourceMapPopulatingVisitor.java:98-102 | registering never loses a key and never overwrites an entry |
| `Registry.RegisterUnannotated` | src/main/java/co/kukurin/server/context/ResourceMapPopulatingVisitor.java:85-87 | methods without a mapping leave the table unchanged and raise nothing |
| `Registry.RegisterSound` | src/main/java/co/kukurin/server/context/ResourceMapPopulatingVisitor.java:91-103 | every added entry sits under the key of an annotated method of the class, and points to that method and the class's instance |
| `Registry.RegisterSucceedsIff` | src/main/java/co/kukurin/server/context/ResourceMapPopulatingVisitor.java:78-108 | no conflict is raised exactly when no annotated key is already in the table and no two annotated methods share a key |
| `Registry.RegisterComplete` | src/main/java/co/kukurin/server/context/ResourceMapPopulatingVisitor.java:91-103 | without a conflict, every annotated method is in the table under its own key, pointing to itself |
| `Registry.StopsAtConflict` | src/main/java/co/kukurin/server/context/ResourceMapPopulatingVisitor.java:70-89 | a conflict at method j after a conflict-free prefix gives the prefix's table, with that mapping as the conflict; later methods are dropped, earlier entries stay |
| `Registry.SameKeyTwice` | src/main/java/co/kukurin/server/context/ResourceMapPopulatingVisitor.java:91-108 | two methods with one free key: the first is stored, the second is the conflict, and the key has one entry |
| `Scan.AfterFile` | src/main/java/co/kukurin/server/context/ResourceMapPopulatingVisitor.java:56-64 | a file keeps a null map null and an existing map non-null; a file name without '.' changes nothing |
| `Scan.AfterWalk` | src/main/java/co/kukurin/server/context/ResourceMapPopulatingVisitor.java:45-64 | the map is non-null after a walk exactly when it was before or the root is a directory |
| `Scan.AfterFileGrows` | src/main/java/co/kukurin/server/context/ResourceMapPopulatingVisitor.java:56-76 | visiting a file keeps a null map null and never loses or overwrites an entry; every route it adds is declared by a constructible class of the package |
| `Scan.AfterWalkGrows` | src/main/java/co/kukurin/server/context/ResourceMapPopulatingVisitor.java:45-64 | the same over a whole walk; the map is non-null after a walk exactly when it was before or the root is a directory |
| `Scan.AfterEntriesGrows` | src/main/java/co/kukurin/server/context/ResourceMapPopulatingVisitor.java:45-64 | an existing map keeps its entries and provenance over a directory's entries |
| `Scan.SubdirectoriesSkipped` | src/main/java/co/kukurin/server/context/ResourceMapPopulatingVisitor.java:45-54 | once the map exists, walking a directory's entries is visiting its top-level files in order; subdirectories contribute nothing |
| `Scan.FirstLevelOnly` | src/main/java/co/kukurin/server/context/ResourceMapPopulatingVisitor.java:45-54 | a fresh visitor's walk of a directory starts from the empty map and visits exactly the files directly inside it |
| `Scan.LaterRootsSkipped` | src/main/java/co/kukurin/server/context/ContextIntializer.java:48-55 | once the map exists, later roots leave it unchanged: directories are skipped, and file roots, whose names hold no '.', name no class |
| `Scan.AfterResources` | src/main/java/co/kukurin/server/context/ContextIntializer.java:50-55 | an existing map stays non-null over any further roots |
| `Scan.NullIffNoDirectoryRoot` | src/main/java/co/kukurin/server/context/ContextIntializer.java:50-58 | the table is null exactly when no root is a walkable directory; zero roots and only unconvertible URLs included |
| `Scan.PackageRootsWithoutExtension` | src/main/java/co/kukurin/server/context/ContextIntializer.java:46-47 | when every file root returned for the package path is named by a final part of that path, and the separator is not '.', no file root's name holds a '.' |
| `Scan.OnlyFirstDirectoryRootContributes` | src/main/java/co/kukurin/server/context/ContextIntializer.java:48-55 | when no file root's name holds a '.', the table is the first directory root's top-level files visited from the empty map, whatever roots come before or after it |
| `Visitor.ResourceMapPopulatingVisitor.constructor` | src/main/java/co/kukurin/server/context/ResourceMapPopulatingVisitor.java:30-38 | the map starts null; package and runtime as given |
| `Visitor.ResourceMapPopulatingVisitor.GetResourceHandler` | src/main/java/co/kukurin/server/context/ResourceMapPopulatingVisitor.java:40-42 | the map handed out has every route declared by a constructible class of the package |
| `Visitor.ResourceMapPopulatingVisitor.PreVisitDirectory` | src/main/java/co/kukurin/server/context/ResourceMapPopulatingVisitor.java:45-54 | a null map becomes empty, with `Continue`; an existing map is unchanged, with `SkipSubtree` |
| `Visitor.ResourceMapPopulatingVisitor.VisitFile` | src/main/java/co/kukurin/server/context/ResourceMapPopulatingVisitor.java:56-64 | answers `Continue`; the new map is `AfterFile` of the old one; the invariant is kept |
| `Visitor.ResourceMapPopulatingVisitor.PutIfHasValidMethodMappings` | src/main/java/co/kukurin/server/context/ResourceMapPopulatingVisitor.java:70-76 | an unconstructible class leaves the map unchanged; otherwise the map is the class's registration, and any exception is absorbed |
| `Visitor.ResourceMapPopulatingVisitor.ParseClassMethods` | src/main/java/co/kukurin/server/context/ResourceMapPopulatingVisitor.java:78-89 | on a map the new map is `Register`'s table, and the exception is the conflict it names; on a null map the map stays null and a null-pointer exception is raised exactly when some method is annotated |
| `Visitor.ResourceMapPopulatingVisitor.StoreResourceMappingOrThrowIfAlreadyPresent` | src/main/java/co/kukurin/server/context/ResourceMapPopulatingVisitor.java:91-103 | a free key gets the target and no other key changes; a taken key raises the conflict and leaves the map unchanged; a null map raises a null-pointer exception |
| `Visitor.ResourceMapPopulatingVisitor.RequireEmptyMappingForGivenResource` | src/main/java/co/kukurin/server/context/ResourceMapPopulatingVisitor.java:105-108 | no exception exactly when the map exists and lacks the key; otherwise the conflict, or a null-pointer exception on a null map |
| `Visitor.WalkFileTree` | src/main/java/co/kukurin/server/context/ContextIntializer.java:53 | the visitor's new map is `AfterWalk` of the old one; the invariant is kept |
| `Initializer.SearchForClassesInPackage` | src/main/java/co/kukurin/server/context/ContextIntializer.java:43-59 | the result is the shared visitor's map after all roots of the package path, in order; every route in it is declared by a constructible class of the package; when the file roots are named by the path, the table is the first directory root's top-level files visited from the empty map |
| `Initializer.ContextIntializer.constructor` | src/main/java/co/kukurin/server/context/ContextIntializer.java:31-36 | the exposed table is exactly the table it was built with |
| `Initializer.NewContextIntializer` | src/main/java/co/kukurin/server/context/ContextIntializer.java:25-32 | fails exactly when the main class has no package; otherwise exposes the search result for its package |

## Left out

- Reflection is abstracted away. `Class.forName`, `newInstance`, `getDeclaredMethods`, `getDeclaredAnnotations` and `setAccessible` become the `Runtime.classes` map and `ClassInfo`.
  - The order of `getDeclaredMethods` is unspecified in Java. The lemmas hold for whatever order the map gives.
  - Any failure of `forName` counts as "not found", including linkage errors. Any failure of `newInstance` counts as "not constructible".
- The sanitizer in `ResourceSanitizer.sanitizeResourceName` is not part of this model. It is an arbitrary function `Runtime.sanitize`.
- `ErrorHandler` and `Optional` are not part of this model. Every exception they wrap is taken as caught.
- Logging is left out: the "couldn't infer class" and "could not instantiate class" messages.
- The handler instance is named by its class's qualified name. Object identity is not modelled, so two visits of the same class, from `Foo.class` and `Foo.java` say, give targets that compare equal.
- `IOException` is left out because it is file-system and class-loader I/O. `getResources` and `walkFileTree` can both raise it (through `visitFileFailed` or `postVisitDirectory`), and it escapes the constructor. `postVisitDirectory` is not modelled.
- A resource root inside a jar is left out. `Paths.get` on such a URI fails with an unchecked exception.
- The `classLoader` and `logger` fields of `ContextIntializer` are left out; the logger has no effect on the table. Two class loaders are involved, and `Runtime` keeps them apart: `Runtime.resources` is `getResources` on the main class's loader, while `Runtime.classes` is what `Class.forName` finds through the loader of the visitor's own class, which need not be the same loader.
- `File.separatorChar` is a parameter, because it depends on the platform.
- `ResourceRequest` is taken to compare by value, its method and its path. Its `equals` and `hashCode` are not part of this model, and the duplicate check rests on them.
- `setAccessible(true)` is taken to succeed.
- The order of a directory's entries and of the roots `getResources` gives is taken as given. Neither is specified by Java.
- `HttpMethod`'s constants beyond `GET` and `POST` are assumed. The `HttpMethod` enum is not part of this model.
- `Registry.KeyOf` is the key built at ResourceMapPopulatingVisitor.java:97, a plain record construction; what keys do is stated by `Registry.KeysCollide`, `Registry.RegisterSucceedsIff`, `Registry.RegisterComplete` and `StoreResourceMappingOrThrowIfAlreadyPresent`.
- `Scan.RootsNamedBy` is an assumption about `getResources`: a root that is a regular file is named by a final part of the path it was found under. `Runtime.resources` is otherwise unconstrained, so the corollary in `Initializer.SearchForClassesInPackage` is stated under it.
- `ContextIntializer.getResourceHandler` is the field read; its content is stated by `Initializer.NewContextIntializer`.
- `Server.java` is left out because it is socket I/O and concurrency: the bind, the endless accept loop, and the hand-off to the executor.
- The HTTP message decoder is not part of this model. Only a test of it is available, not its code.
