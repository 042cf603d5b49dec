/**
 * The string work of the builder: the class name of a file, the package
 * of a class, and the directory path of a package.
 */
module Names {
  import opened Wrappers

  /** `ContextIntializer.PACKAGE_SEPARATOR`. */
  const PackageSeparator: char := '.'

  /** The local `fileExtensionSeparator` of `classNameFromPath`. */
  const FileExtensionSeparator: char := '.'

  /** `String.lastIndexOf(char)`: the last position of `c` in `s`, or -1. */
  function LastIndexOf(s: string, c: char): (r: int)
    ensures -1 <= r < |s|
    ensures r == -1 <==> c !in s
    ensures r >= 0 ==> s[r] == c
    ensures forall j :: r < j < |s| ==> s[j] != c
  {
    if |s| == 0 then -1
    else if s[|s| - 1] == c then |s| - 1
    else LastIndexOf(s[..|s| - 1], c)
  }

  /**
   * `s.substring(0, s.lastIndexOf(c))`. The substring call throws when `c`
   * does not occur (the end index is -1); that is `None`.
   */
  function PrefixBeforeLast(s: string, c: char): (r: Option<string>)
    ensures r.None? <==> c !in s
    ensures r.Some? ==> |r.value| < |s| && s == r.value + [c] + s[|r.value| + 1..]
    ensures r.Some? ==> c !in s[|r.value| + 1..]
  {
    var k := LastIndexOf(s, c);
    if k < 0 then None
    else
      assert s == s[..k] + [c] + s[k + 1..];
      Some(s[..k])
  }

  /** The class name of a file: its name up to, not including, its last '.'. */
  function ClassNameFromPath(fileName: string): (r: Option<string>)
    ensures r.None? <==> FileExtensionSeparator !in fileName
    ensures r.Some? ==> |r.value| < |fileName|
    ensures r.Some? ==>
      var extension := fileName[|r.value| + 1..];
      fileName == r.value + [FileExtensionSeparator] + extension &&
      FileExtensionSeparator !in extension
  {
    PrefixBeforeLast(fileName, FileExtensionSeparator)
  }

  /** The package of a fully qualified class name: the name up to its last '.'. */
  function ExtractPackageFromClassname(fqcn: string): (r: Option<string>)
    ensures r.None? <==> PackageSeparator !in fqcn
    ensures r.Some? ==> |r.value| < |fqcn|
    ensures r.Some? ==>
      var simpleName := fqcn[|r.value| + 1..];
      fqcn == r.value + [PackageSeparator] + simpleName &&
      PackageSeparator !in simpleName
  {
    PrefixBeforeLast(fqcn, PackageSeparator)
  }

  /** The name `Class.forName` is asked for: the package, a '.', and the class name. */
  function QualifiedName(packageName: string, className: string): (r: string)
    ensures |r| == |packageName| + 1 + |className|
    ensures r[..|packageName|] == packageName && r[|packageName|] == PackageSeparator
    ensures r[|packageName| + 1..] == className
  {
    packageName + [PackageSeparator] + className
  }

  /** `String.replace(char, char)`: every `from` becomes `to`, nothing else changes. */
  function Replace(s: string, from: char, to: char): (r: string)
    ensures |r| == |s|
    ensures forall i :: 0 <= i < |s| ==> r[i] == (if s[i] == from then to else s[i])
  {
    if s == [] then []
    else [if s[0] == from then to else s[0]] + Replace(s[1..], from, to)
  }

  /** The resource path of a package: each '.' replaced by the file separator. */
  function PackagePath(packageName: string, separator: char): (r: string)
    ensures |r| == |packageName|
    ensures forall i :: 0 <= i < |r| ==>
      if packageName[i] == PackageSeparator then r[i] == separator else r[i] == packageName[i]
  {
    Replace(packageName, PackageSeparator, separator)
  }

  /**
   * The decomposition of `PrefixBeforeLast` is unique: a string made of a
   * prefix, `c`, and a tail without `c` yields exactly that prefix.
   */
  lemma PrefixBeforeLastOf(prefix: string, c: char, tail: string)
    requires c !in tail
    ensures PrefixBeforeLast(prefix + [c] + tail, c) == Some(prefix)
  {
    var s := prefix + [c] + tail;
    var k := LastIndexOf(s, c);
    assert s[|prefix|] == c;
    assert k == |prefix|;
    assert s[..k] == prefix;
  }

  /** A base name and an extension without '.' give back the base name. */
  lemma ClassNameOfBaseAndExtension(baseName: string, extension: string)
    requires FileExtensionSeparator !in extension
    ensures ClassNameFromPath(baseName + [FileExtensionSeparator] + extension) == Some(baseName)
  {
    PrefixBeforeLastOf(baseName, FileExtensionSeparator, extension);
  }

  /** The package of `QualifiedName(p, n)` is `p` whenever `n` has no '.'. */
  lemma PackageOfQualifiedName(packageName: string, simpleName: string)
    requires PackageSeparator !in simpleName
    ensures ExtractPackageFromClassname(QualifiedName(packageName, simpleName)) == Some(packageName)
  {
  }

  /** Examples: `Foo.class` gives `Foo`, `A.b.class` gives `A.b`, a name without '.' gives none. */
  lemma ClassNameExamples()
    ensures ClassNameFromPath("Foo.class") == Some("Foo")
    ensures ClassNameFromPath("A.b.class") == Some("A.b")
    ensures ClassNameFromPath("Makefile") == None
  {
    assert "Foo.class" == "Foo" + ['.'] + "class";
    ClassNameOfBaseAndExtension("Foo", "class");
    assert "A.b.class" == "A.b" + ['.'] + "class";
    ClassNameOfBaseAndExtension("A.b", "class");
    assert "Makefile"[..] == "Makefile";
  }

  /** Example: `co.kukurin.App` is in package `co.kukurin`; `App` has no package. */
  lemma PackageExamples()
    ensures ExtractPackageFromClassname("co.kukurin.App") == Some("co.kukurin")
    ensures ExtractPackageFromClassname("App") == None
  {
    assert "co.kukurin.App" == QualifiedName("co.kukurin", "App");
    PackageOfQualifiedName("co.kukurin", "App");
  }

  /**
   * When the separator does not occur in the package name already, the
   * path conversion is undone by replacing the separator back with '.'.
   */
  lemma PackagePathInverse(packageName: string, separator: char)
    requires separator !in packageName
    ensures Replace(PackagePath(packageName, separator), separator, PackageSeparator) == packageName
  {
  }
  /**
   * With a real file separator, no part of a package path holds a '.': in
   * particular the last segment, which names a resource root that is a file.
   */
  lemma PathSegmentHasNoDot(packageName: string, separator: char, from: int, to: int)
    requires separator != PackageSeparator
    requires 0 <= from <= to <= |packageName|
    ensures PackageSeparator !in PackagePath(packageName, separator)[from..to]
  {
    var p := PackagePath(packageName, separator);
    forall i | from <= i < to ensures p[i] != PackageSeparator {
    }
  }
}
