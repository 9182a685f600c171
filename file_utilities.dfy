/**
 * FileUtilities: the folder-name helper and the destination paths that a
 * folder copy composes with it. The copying itself is filesystem I/O.
 */
module FileUtilities {
  import opened Strings

  /** The characters GetFolderName splits on. */
  const Separators: set<char> := {'/', '\\'}

  /**
   * GetFolderName: the last piece of the path split on '/' and '\', that is
   * the text after the last separator, or the whole path when there is none.
   */
  function GetFolderName(path: string): (name: string)
    ensures IsSuffix(name, path)
    ensures NoneOf(name, Separators)
    ensures name == path || path[|path| - |name| - 1] in Separators
  {
    var parts := Split(path, Separators);
    SplitLast(path, Separators);
    parts[|parts| - 1]
  }

  /** A path without separators is its own folder name. */
  lemma FolderNameWithoutSeparator(path: string)
    requires NoneOf(path, Separators)
    ensures GetFolderName(path) == path
  {
    SplitNoSeparator(path, Separators);
  }

  /** A path that ends in a separator has an empty folder name. */
  lemma FolderNameAfterTrailingSeparator(path: string)
    requires |path| > 0 && path[|path| - 1] in Separators
    ensures GetFolderName(path) == ""
  {
    LastPieceStep(path, Separators);
  }

  /**
   * The destination a folder copy targets: the destination folder, a '\' and
   * the source's folder name. Copy builds the top-level target this way and
   * CopyFolder builds every sub-folder's target the same way.
   */
  function CopyTarget(destination: string, source: string): (target: string)
    ensures IsSuffix(GetFolderName(source), target)
    ensures StartsWith(target, destination + "\\")
  {
    destination + "\\" + GetFolderName(source)
  }

  /** The copy keeps the folder's name: the target's folder name is the source's. */
  lemma CopyTargetKeepsName(destination: string, source: string)
    ensures GetFolderName(CopyTarget(destination, source)) == GetFolderName(source)
  {
    var name := GetFolderName(source);
    SplitAppend(destination, '\\', name, Separators);
    assert CopyTarget(destination, source) == destination + ['\\'] + name;
  }
}
