/** Option and Result, used where the source returns null or throws. */
module Wrappers {

  datatype Option<+T> = None | Some(value: T)

  datatype Result<+T, +E> = Success(value: T) | Failure(error: E)
}

/**
 * The entities of the route-table builder: route keys and targets, the
 * table itself, and the abstract view of what reflection and the file
 * system hand to the builder.
 */
module Types {
  import opened Wrappers

  /** The HTTP methods a `ResourceMapping` annotation may name. */
  datatype HttpMethod = GET | POST | PUT | DELETE | HEAD | OPTIONS

  /** A `ResourceMapping` annotation: the method and the declared resource path. */
  datatype Mapping = Mapping(httpMethod: HttpMethod, resourcePath: string)

  /** A declared method of a handler class, with its `ResourceMapping` if it carries one. */
  datatype MethodInfo = MethodInfo(name: string, mapping: Option<Mapping>)

  /**
   * What reflection reports of a loadable class: whether `newInstance`
   * succeeds, and its declared methods in the order `getDeclaredMethods`
   * returns them.
   */
  datatype ClassInfo = ClassInfo(constructible: bool, methods: seq<MethodInfo>)

  /** A class found by `Class.forName`, under its fully qualified name. */
  datatype LoadedClass = LoadedClass(name: string, info: ClassInfo)

  /** `ResourceRequest`: the key of the route table. */
  datatype RouteKey = RouteKey(httpMethod: HttpMethod, path: string)

  /**
   * `ResourceResponse`: the instance a handler method is invoked on and the
   * method. The instance is named by its class's fully qualified name.
   */
  datatype RouteTarget = RouteTarget(owner: string, handler: string)

  /** The route table: at most one target per key. */
  type Table = map<RouteKey, RouteTarget>

  /** The two results `preVisitDirectory` and `visitFile` give. */
  datatype FileVisitResult = Continue | SkipSubtree

  /** A file-system tree as `Files.walkFileTree` sees it, entries in walk order. */
  datatype Node = File(name: string) | Directory(entries: seq<Node>)

  /** A resource URL: either `toURI` fails, or it names a walkable root. */
  datatype Resource = Unconvertible | Located(root: Node)

  /**
   * The collaborators the builder cannot see into: the classes `Class.forName`
   * finds through the loader of the visitor's own class (a name that is absent
   * is a `ClassNotFoundException`), `getResources` on the main class's loader,
   * which need not be the same loader, and `ResourceSanitizer.sanitizeResourceName`.
   */
  datatype Runtime = Runtime(
    classes: map<string, ClassInfo>,
    resources: string -> seq<Resource>,
    sanitize: string -> string)

  /** The exceptions storing a mapping can raise. */
  datatype Failure =
    | ResourceMappingException(mapping: Mapping)
    | NullPointerException

  /** The exception that escapes `ContextIntializer`'s constructor. */
  datatype StartupError = StringIndexOutOfBounds
}
