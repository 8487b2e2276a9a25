/** Value types shared by the package converters: results, package indices and
    export commands. */
module Zen {

  datatype Option<+T> = None | Some(value: T)

  datatype Result<+T, +E> = Ok(value: T) | Err(error: E)

  /** Sign-encoded reference into a package: positive values are exports (shifted
      by one), negative values are imports (shifted by one), zero is null. */
  datatype PackageIndex = PackageIndex(index: int) {
    predicate IsImport() { index < 0 }

    predicate IsExport() { index > 0 }

    predicate IsNull() { index == 0 }

    function ToImportIndex(): nat
      requires IsImport()
    {
      -index - 1
    }

    function ToExportIndex(): nat
      requires IsExport()
    {
      index - 1
    }
  }

  const NULL_INDEX := PackageIndex(0)

  function CreateImport(i: nat): PackageIndex {
    PackageIndex(-1 - i)
  }

  function CreateExport(i: nat): PackageIndex {
    PackageIndex(i + 1)
  }

  /** The two steps the loader performs on an export. */
  datatype CommandType = Create | Serialize

  /** A package object together with the command it must have completed. */
  datatype DependencyNode = DependencyNode(packageIndex: PackageIndex, command: CommandType)

  function ExportNode(i: nat, command: CommandType): DependencyNode {
    DependencyNode(CreateExport(i), command)
  }

  datatype BundleEntry = BundleEntry(exportIndex: nat, command: CommandType)

  datatype BundleHeader = BundleHeader(serialOffset: nat, firstEntry: nat, entryCount: nat)
}
