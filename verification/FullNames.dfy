/** Full names of package objects: a walk up the outer chain. */
module FullNames {
  import opened Zen
  import opened Names
  import opened ImportTable
  import opened FinalizeImports
  import opened AssetBuild

  datatype ObjectTables = ObjectTables(
    names: seq<string>, imports: seq<ObjectImport>, exports: seq<NamedExport>, packageName: string) {

    predicate InRange(index: PackageIndex) {
      || (index.IsImport() && index.ToImportIndex() < |imports|)
      || (index.IsExport() && index.ToExportIndex() < |exports|)
    }

    function OuterOf(index: PackageIndex): PackageIndex
      requires InRange(index)
    {
      if index.IsImport() then imports[index.ToImportIndex()].outerIndex else exports[index.ToExportIndex()].outerIndex
    }

    function NameOf(index: PackageIndex): MinimalName
      requires InRange(index)
    {
      if index.IsImport() then imports[index.ToImportIndex()].objectName else exports[index.ToExportIndex()].objectName
    }
  }

  /** The first `n` names of `path` spell the object and its outers, outermost first;
      `inPackage` says whether the outermost is an export of this package. */
  ghost predicate HasPath(package: ObjectTables, index: PackageIndex, inPackage: bool, path: seq<string>, n: nat)
    requires n <= |path|
    decreases n
  {
    && n > 0 && package.InRange(index)
    && Spells(package.names, package.NameOf(index), path[n - 1])
    && if package.OuterOf(index).IsNull() then n == 1 && inPackage == index.IsExport()
       else HasPath(package, package.OuterOf(index), inPackage, path, n - 1)
  }

  function Reversed<T>(s: seq<T>): (r: seq<T>)
    ensures |r| == |s| && forall i :: 0 <= i < |s| ==> r[i] == s[|s| - 1 - i]
  {
    if s == [] then [] else Reversed(s[1..]) + [s[0]]
  }

  function LowerChar(c: char): char {
    if 'A' <= c <= 'Z' then (c as int + 32) as char else c
  }

  function AsciiLowercase(s: string): string {
    seq(|s|, i requires 0 <= i < |s| => LowerChar(s[i]))
  }

  /** The package name followed by the names from `start` up to `n`, each behind a
      separator. */
  function JoinPath(packageName: string, path: seq<string>, start: nat, n: nat, separator: char): string
    requires n <= |path|
  {
    if n <= start then packageName
    else JoinPath(packageName, path, start, n - 1, separator) + [separator] + path[n - 1]
  }

  ghost predicate SpelledBy(package: ObjectTables, index: PackageIndex, name: string) {
    package.InRange(index) && Spells(package.names, package.NameOf(index), name)
  }

  /** The chain holds the last objects of the path, innermost first. */
  ghost predicate ChainSpells(package: ObjectTables, chain: seq<PackageIndex>, path: seq<string>) {
    && |chain| <= |path|
    && forall k :: 0 <= k < |chain| ==> SpelledBy(package, chain[k], path[|path| - 1 - k])
  }

  ghost predicate Remaining(package: ObjectTables, chain: seq<PackageIndex>, current: PackageIndex, inPackage: bool,
                            path: seq<string>)
    requires |chain| <= |path|
  {
    if current.IsNull() then |chain| == |path| && chain != [] && chain[|chain| - 1].IsExport() == inPackage
    else HasPath(package, current, inPackage, path, |path| - |chain|)
  }

  lemma {:induction false} ChainStep(package: ObjectTables, chain: seq<PackageIndex>, current: PackageIndex,
                                     inPackage: bool, path: seq<string>)
    requires ChainSpells(package, chain, path) && !current.IsNull()
    requires Remaining(package, chain, current, inPackage, path)
    ensures package.InRange(current) && ChainSpells(package, chain + [current], path)
    ensures Remaining(package, chain + [current], package.OuterOf(current), inPackage, path)
  {
    assert SpelledBy(package, current, path[|path| - 1 - |chain|]);
  }

  /** Collects the outer chain, innermost first. The path bounds its length. */
  method OuterChain(package: ObjectTables, index: PackageIndex, ghost inPackage: bool, ghost path: seq<string>)
    returns (chain: seq<PackageIndex>)
    requires HasPath(package, index, inPackage, path, |path|)
    ensures |chain| == |path| && ChainSpells(package, chain, path)
    ensures chain[|chain| - 1].IsExport() == inPackage
  {
    var current := index;
    chain := [];
    while !current.IsNull()
      invariant ChainSpells(package, chain, path)
      invariant Remaining(package, chain, current, inPackage, path)
      decreases |path| - |chain|
    {
      ChainStep(package, chain, current, inPackage, path);
      chain := chain + [current];
      current := package.OuterOf(current);
    }
  }

  /** The package and full name of an object, from the outermost object inwards. An
      outermost import is the package itself; the outermost export lies in this
      package, whose name may be overridden. */
  method GetPackageObjectFullName(package: ObjectTables, index: PackageIndex, separator: char, lowercase: bool,
                                  packageNameOverride: Option<string>, ghost inPackage: bool, ghost path: seq<string>)
    returns (packageName: string, fullName: string)
    requires HasPath(package, index, inPackage, path, |path|)
    ensures inPackage ==>
              packageName == if packageNameOverride.Some? then packageNameOverride.value else package.packageName
    ensures !inPackage ==> packageName == path[0]
    ensures var full := JoinPath(packageName, path, if inPackage then 0 else 1, |path|, separator);
            fullName == if lowercase then AsciiLowercase(full) else full
  {
    var innermostFirst := OuterChain(package, index, inPackage, path);
    var chain := Reversed(innermostFirst);
    forall k | 0 <= k < |chain|
      ensures SpelledBy(package, chain[k], path[k])
    {
      assert SpelledBy(package, innermostFirst[|path| - 1 - k], path[k]);
    }
    assert SpelledBy(package, chain[0], path[0]);
    var start := 0;
    if chain[0].IsImport() {
      packageName := NameText(package.names, package.NameOf(chain[0]));
      start := 1;
    } else {
      packageName := if packageNameOverride.Some? then packageNameOverride.value else package.packageName;
    }
    fullName := AppendNames(package, packageName, chain, path, start, separator);
    if lowercase {
      fullName := AsciiLowercase(fullName);
    }
  }

  method AppendNames(package: ObjectTables, packageName: string, chain: seq<PackageIndex>, ghost path: seq<string>,
                     start: nat, separator: char) returns (fullName: string)
    requires start <= |chain| == |path|
    requires forall k :: 0 <= k < |chain| ==> SpelledBy(package, chain[k], path[k])
    ensures fullName == JoinPath(packageName, path, start, |path|, separator)
  {
    fullName := packageName;
    for k := start to |chain|
      invariant fullName == JoinPath(packageName, path, start, k, separator)
    {
      assert SpelledBy(package, chain[k], path[k]);
      fullName := fullName + [separator] + NameText(package.names, package.NameOf(chain[k]));
    }
  }

  // ------------------------------------------ names survive the whole pipeline

  function ImportPath(r: ResolvedImport): (path: seq<string>)
    ensures path != []
  {
    (if r.outer.Some? then ImportPath(r.outer.value) else []) + [r.objectName]
  }

  /** The path of an object as the zen package states it. */
  ghost predicate ZenPath(z: ZenPackage, resolution: Resolution, reference: Reference, inPackage: bool,
                          path: seq<string>, n: nat)
    requires n <= |path|
    decreases n
  {
    match reference
    case NoObject => false
    case Imported(r) => path[..n] == ImportPath(r) && !inPackage
    case LocalExport(e) =>
      && n > 0 && e < |z.exports| && z.exports[e].objectName == path[n - 1]
      && if z.exports[e].outerIndex.Null? then n == 1 && inPackage
         else ZenPath(z, resolution, Meaning(z.exports[e].outerIndex, resolution), inPackage, path, n - 1)
  }

  lemma {:induction false} DenotesHasPath(package: ObjectTables, i: nat, r: ResolvedImport, path: seq<string>, n: nat)
    requires Denotes(package.names, package.imports, i, r)
    requires n <= |path| && path[..n] == ImportPath(r)
    ensures HasPath(package, CreateImport(i), false, path, n)
    decreases r
  {
    assert path[..n][n - 1] == r.objectName;
    if r.outer.Some? {
      var outer := package.imports[i].outerIndex;
      assert path[..n - 1] == path[..n][..n - 1] == ImportPath(r.outer.value);
      assert outer == CreateImport(outer.ToImportIndex());
      DenotesHasPath(package, outer.ToImportIndex(), r.outer.value, path, n - 1);
    } else {
      assert n == 1;
    }
  }

  ghost predicate ExportsReferTo(package: ObjectTables, z: ZenPackage, resolution: Resolution) {
    && |package.exports| == |z.exports|
    && forall e :: 0 <= e < |z.exports| ==>
         ExportRefersTo(package.names, package.imports, package.exports[e], z.exports[e], resolution)
  }

  /** Every object of a rehydrated package has the path it had in the zen package, so
      the walk ends and yields the same full name. */
  lemma {:induction false} PathIsKept(package: ObjectTables, z: ZenPackage, resolution: Resolution,
                                      index: PackageIndex, reference: Reference, inPackage: bool, path: seq<string>,
                                      n: nat)
    requires ExportsReferTo(package, z, resolution)
    requires RefersTo(package.names, package.imports, index, reference)
    requires n <= |path| && ZenPath(z, resolution, reference, inPackage, path, n)
    ensures HasPath(package, index, inPackage, path, n)
    decreases n
  {
    if reference.Imported? {
      assert index == CreateImport(index.ToImportIndex());
      DenotesHasPath(package, index.ToImportIndex(), reference.target, path, n);
    } else {
      var e := reference.index;
      ExportAgrees(package, z, resolution, e);
      if !z.exports[e].outerIndex.Null? {
        PathIsKept(package, z, resolution, package.exports[e].outerIndex,
                   Meaning(z.exports[e].outerIndex, resolution), inPackage, path, n - 1);
      }
      assert CreateExport(e).ToExportIndex() == e;
    }
  }

  lemma {:induction false} ExportAgrees(package: ObjectTables, z: ZenPackage, resolution: Resolution, e: nat)
    requires ExportsReferTo(package, z, resolution) && e < |z.exports|
    ensures e < |package.exports| && Spells(package.names, package.exports[e].objectName, z.exports[e].objectName)
    ensures RefersTo(package.names, package.imports, package.exports[e].outerIndex,
                     Meaning(z.exports[e].outerIndex, resolution))
    ensures package.exports[e].outerIndex.IsNull() <==> z.exports[e].outerIndex.Null?
  {
    assert ExportRefersTo(package.names, package.imports, package.exports[e], z.exports[e], resolution);
  }
}
