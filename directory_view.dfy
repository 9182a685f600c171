/**
 * DirectoryView: one browsing pane. It shows the entries of its current
 * directory and keeps a bounded back list and an unbounded forward list of
 * previously visited paths.
 *
 * The filesystem is an input: a map from every existing directory path to
 * its listing, folders and files each in the order the OS enumerates them.
 */
module Navigation {
  import opened Wrappers
  import opened Content

  /** What GetDirectories and GetFiles return for one directory. */
  datatype Listing = Listing(folders: seq<FolderInfo>, files: seq<FileInfo>)

  /** Directory.Exists(p) holds exactly for the keys; fs[p] is p's listing. */
  type FileSystem = map<string, Listing>

  /** The most entries the back list keeps. */
  const MaxSavedDirectories: nat := 10

  /** The back list after StorePreviousDirectory(path): when full, the oldest entry is dropped first. */
  function PushBack(back: seq<string>, path: string): (r: seq<string>)
    ensures |back| <= MaxSavedDirectories ==> |r| <= MaxSavedDirectories
    ensures |r| > 0 && r[|r| - 1] == path
    ensures |back| < MaxSavedDirectories ==> r == back + [path]
    ensures |back| >= MaxSavedDirectories ==> r[..|r| - 1] == back[1..]
  {
    (if |back| >= MaxSavedDirectories then back[1..] else back) + [path]
  }

  /** The text before the last '\' of a path, or None when it has no '\'. */
  function ParentPath(path: string): (r: Option<string>)
    ensures r.None? <==> '\\' !in path
    ensures r.Some? ==> exists rest :: path == r.value + "\\" + rest && '\\' !in rest
  {
    var index := LastIndexOf(path, '\\');
    if index < 0 then None
    else
      assert path == path[..index] + "\\" + path[index + 1..];
      Some(path[..index])
  }

  /** A displayed entry made from a folder: its path, its kind and its four info texts. */
  ghost predicate ShowsFolder(e: ContentDisplay, folder: FolderInfo)
    reads e, e.properties
  {
    e.Valid() && e.kind == Folder && e.contentPath == folder.fullName && e.Infos() == FolderInfos(folder)
  }

  /** A displayed entry made from a file: its path, its kind and its four info texts. */
  ghost predicate ShowsFile(e: ContentDisplay, file: FileInfo)
    reads e, e.properties
  {
    e.Valid() && e.kind == File && e.contentPath == file.fullName && e.Infos() == FileInfos(file)
  }

  /** The entries show the first files, entry k showing file k. */
  ghost predicate ShowsFiles(entries: seq<ContentDisplay>, files: seq<FileInfo>)
    reads entries, set e | e in entries :: e.properties
  {
    |entries| <= |files| && forall k :: 0 <= k < |entries| ==> ShowsFile(entries[k], files[k])
  }

  lemma ShowsFilesAppend(entries: seq<ContentDisplay>, files: seq<FileInfo>, e: ContentDisplay)
    requires ShowsFiles(entries, files) && |entries| < |files| && ShowsFile(e, files[|entries|])
    ensures ShowsFiles(entries + [e], files)
  {
  }

  class DirectoryView {
    var currentPath: string
    var back: seq<string>
    var forward: seq<string>
    /** LB_Content.Items: the displayed entries. */
    var items: seq<ContentDisplay>
    /** TB_DirectoryPath.Text: the path text box, which the user may edit. */
    var pathText: string

    ghost predicate Valid()
      reads this
    {
      |back| <= MaxSavedDirectories
    }

    /** The displayed entries show `listing`: its folders in order, then its files in order. */
    ghost predicate Shows(listing: Listing)
      reads this, items, set e | e in items :: e.properties
    {
      && |items| == |listing.folders| + |listing.files|
      && (forall k :: 0 <= k < |listing.folders| ==> ShowsFolder(items[k], listing.folders[k]))
      && (forall k :: 0 <= k < |listing.files| ==> ShowsFile(items[|listing.folders| + k], listing.files[k]))
    }

    /** A new view: no current directory, empty history and nothing displayed. */
    constructor ()
      ensures Valid()
      ensures currentPath == "" && back == [] && forward == [] && items == [] && pathText == ""
    {
      currentPath := "";
      back := [];
      forward := [];
      items := [];
      pathText := "";
    }

    /**
     * LoadDirectory: fails, changing nothing, when the path does not exist.
     * Otherwise records the old path in the back list (when asked to and when
     * there is one), makes the path current and displays its folders, then its files.
     * The forward list is never touched.
     */
    method LoadDirectory(path: string, storePrevious: bool, fs: FileSystem) returns (ok: bool)
      requires Valid()
      modifies this
      ensures Valid()
      ensures ok <==> path in fs
      ensures !ok ==> (currentPath == old(currentPath) && back == old(back) && items == old(items)
        && pathText == old(pathText))
      ensures ok ==> currentPath == path && pathText == path
      ensures ok ==> back == if storePrevious && old(currentPath) != "" then PushBack(old(back), old(currentPath)) else old(back)
      ensures forward == old(forward)
      ensures ok ==> Shows(fs[path]) && forall e :: e in items ==> fresh(e) && fresh(e.properties)
    {
      if path !in fs {
        return false;
      }
      if currentPath != "" && storePrevious {
        StorePreviousDirectory(currentPath);
      }
      currentPath := path;
      pathText := currentPath;
      items := [];
      DisplayFolders(fs[path].folders);
      DisplayFiles(fs[path].files);
      return true;
    }

    /** The loop that lists the folders: one new entry per folder, in order, after the cleared list. */
    method DisplayFolders(folders: seq<FolderInfo>)
      requires items == []
      modifies `items
      ensures |items| == |folders|
      ensures forall k :: 0 <= k < |folders| ==> ShowsFolder(items[k], folders[k])
      ensures forall e :: e in items ==> fresh(e) && fresh(e.properties)
    {
      for i := 0 to |folders|
        invariant |items| == i
        invariant forall e :: e in items ==> fresh(e) && fresh(e.properties)
        invariant forall k :: 0 <= k < i ==> ShowsFolder(items[k], folders[k])
      {
        var entry := new ContentDisplay.ForFolder(folders[i]);
        items := items + [entry];
      }
    }

    /** The loop that lists the files: one new entry per file, in order, after the folders. */
    method DisplayFiles(files: seq<FileInfo>)
      modifies `items
      ensures |items| == |old(items)| + |files| && items[..|old(items)|] == old(items)
      ensures forall k :: 0 <= k < |files| ==> ShowsFile(items[|old(items)| + k], files[k])
      ensures forall e :: e in items && e !in old(items) ==> fresh(e) && fresh(e.properties)
    {
      ghost var before := items;
      ghost var added: seq<ContentDisplay> := [];
      for i := 0 to |files|
        invariant items == before + added
        invariant forall e :: e in added ==> fresh(e) && fresh(e.properties)
        invariant |added| == i && ShowsFiles(added, files)
      {
        var entry := AddFileEntry(files[i]);
        ShowsFilesAppend(added, files, entry);
        added := added + [entry];
      }
      assert items[..|before|] == before;
    }

    /** One turn of the file loop: a new entry made from `file`, added at the end. */
    method AddFileEntry(file: FileInfo) returns (entry: ContentDisplay)
      modifies `items
      ensures items == old(items) + [entry]
      ensures fresh(entry) && fresh(entry.properties) && ShowsFile(entry, file)
    {
      entry := new ContentDisplay.ForFile(file);
      items := items + [entry];
    }

    /** StorePreviousDirectory: appends to the back list, dropping the oldest entry when it is full. */
    method StorePreviousDirectory(path: string)
      requires Valid()
      modifies `back
      ensures Valid()
      ensures back == PushBack(old(back), path)
    {
      if |back| >= MaxSavedDirectories {
        back := back[1..];
      }
      back := back + [path];
    }

    /** StoreForwardDirectory: appends to the forward list. */
    method StoreForwardDirectory(path: string)
      modifies `forward
      ensures forward == old(forward) + [path]
    {
      forward := forward + [path];
    }

    /**
     * The Back button: nothing when the back list is empty; otherwise the
     * current path goes onto the forward list (whether or not the load then
     * succeeds), the last back entry is removed and loaded without recording history.
     */
    method Back(fs: FileSystem)
      requires Valid()
      modifies this
      ensures Valid()
      ensures old(back) == [] ==> (currentPath == old(currentPath) && back == [] && forward == old(forward)
        && items == old(items) && pathText == old(pathText))
      ensures old(back) != [] ==>
        var target := old(back)[|old(back)| - 1];
        && forward == old(forward) + [old(currentPath)]
        && back == old(back)[..|old(back)| - 1]
        && (target in fs ==> currentPath == target && pathText == target && Shows(fs[target]))
        && (target !in fs ==> currentPath == old(currentPath) && items == old(items) && pathText == old(pathText))
    {
      if |back| == 0 {
        return;
      }
      StoreForwardDirectory(currentPath);
      var previous := back[|back| - 1];
      back := back[..|back| - 1];
      var _ := LoadDirectory(previous, false, fs);
    }

    /**
     * The Forward button: nothing when the forward list is empty; otherwise the
     * last forward entry is removed and loaded, recording history.
     */
    method Forward(fs: FileSystem)
      requires Valid()
      modifies this
      ensures Valid()
      ensures old(forward) == [] ==> (currentPath == old(currentPath) && back == old(back) && forward == []
        && items == old(items) && pathText == old(pathText))
      ensures old(forward) != [] ==>
        var target := old(forward)[|old(forward)| - 1];
        && forward == old(forward)[..|old(forward)| - 1]
        && (target in fs ==> (currentPath == target && pathText == target && Shows(fs[target])
              && back == if old(currentPath) != "" then PushBack(old(back), old(currentPath)) else old(back)))
        && (target !in fs ==> (currentPath == old(currentPath) && back == old(back) && items == old(items)
              && pathText == old(pathText)))
    {
      if |forward| == 0 {
        return;
      }
      var next := forward[|forward| - 1];
      forward := forward[..|forward| - 1];
      var _ := LoadDirectory(next, true, fs);
    }

    /** The Up button: loads the text before the last '\' of the current path; nothing when there is none. */
    method Up(fs: FileSystem)
      requires Valid()
      modifies this
      ensures Valid()
      ensures forward == old(forward)
      ensures ParentPath(old(currentPath)).None? ==> (currentPath == old(currentPath) && back == old(back)
        && items == old(items) && pathText == old(pathText))
      ensures ParentPath(old(currentPath)).Some? ==>
        var parent := ParentPath(old(currentPath)).value;
        && (parent in fs ==> (currentPath == parent && pathText == parent && Shows(fs[parent])
              && back == if old(currentPath) != "" then PushBack(old(back), old(currentPath)) else old(back)))
        && (parent !in fs ==> (currentPath == old(currentPath) && back == old(back) && items == old(items)
              && pathText == old(pathText)))
    {
      var index := LastIndexOf(currentPath, '\\');
      assert index >= 0 ==> ParentPath(currentPath) == Some(currentPath[..index]);
      if index >= 0 {
        var _ := LoadDirectory(currentPath[..index], true, fs);
      }
    }

    /**
     * Enter in the path text box: loads the typed path, recording history; when
     * that fails the text box is reset to the current path. Either way the box
     * then shows the current path.
     */
    method EnterPath(fs: FileSystem)
      requires Valid()
      modifies this
      ensures Valid()
      ensures pathText == currentPath
      ensures forward == old(forward)
      ensures old(pathText) in fs ==> (currentPath == old(pathText) && Shows(fs[old(pathText)])
        && back == if old(currentPath) != "" then PushBack(old(back), old(currentPath)) else old(back))
      ensures old(pathText) !in fs ==> currentPath == old(currentPath) && back == old(back) && items == old(items)
    {
      var ok := LoadDirectory(pathText, true, fs);
      if !ok {
        pathText := currentPath;
      }
    }

    /**
     * ContentDisplay.OpenContent with this view as the entry's owner: a folder
     * entry loads its path in this view, recording history; a file entry is
     * handed to the OS, and `launched` says whether starting it succeeded.
     */
    method OpenContent(entry: ContentDisplay, launched: bool, fs: FileSystem) returns (ok: bool)
      requires Valid()
      modifies this
      ensures Valid()
      ensures forward == old(forward)
      ensures old(entry.kind) == File ==> (ok == launched && currentPath == old(currentPath) && back == old(back)
        && items == old(items) && pathText == old(pathText))
      ensures old(entry.kind) == Folder ==> (ok <==> old(entry.contentPath) in fs)
      ensures old(entry.kind) == Folder && !ok ==> (currentPath == old(currentPath) && back == old(back)
        && items == old(items) && pathText == old(pathText))
      ensures old(entry.kind) == Folder && ok ==> (currentPath == old(entry.contentPath)
        && pathText == currentPath && Shows(fs[currentPath])
        && back == if old(currentPath) != "" then PushBack(old(back), old(currentPath)) else old(back))
    {
      match entry.kind
      case File =>
        ok := launched;
      case Folder =>
        ok := LoadDirectory(entry.contentPath, true, fs);
    }
  }

  /**
   * A session in a new view, every path existing: open A, then B, then C; go
   * Back twice, which returns to A with C and B on the forward list; then go
   * Forward, which returns to B with A on the back list and C still forward.
   */
  method BackForwardSession(a: string, b: string, c: string, fs: FileSystem)
    returns (afterBacks: string, forwardAfterBacks: seq<string>, view: DirectoryView)
    requires a in fs && b in fs && c in fs && a != "" && b != ""
    ensures afterBacks == a && forwardAfterBacks == [c, b]
    ensures view.currentPath == b && view.back == [a] && view.forward == [c]
    ensures view.Shows(fs[b])
  {
    view := new DirectoryView();
    var _ := view.LoadDirectory(a, true, fs);
    var _ := view.LoadDirectory(b, true, fs);
    var _ := view.LoadDirectory(c, true, fs);
    view.Back(fs);
    view.Back(fs);
    afterBacks, forwardAfterBacks := view.currentPath, view.forward;
    view.Forward(fs);
  }

  /** String.LastIndexOf(c): the index of the last `c`, or -1. */
  function LastIndexOf(s: string, c: char): (index: int)
    ensures -1 <= index < |s|
    ensures index == -1 <==> c !in s
    ensures index >= 0 ==> s[index] == c && c !in s[index + 1..]
  {
    if s == [] then -1
    else if s[|s| - 1] == c then |s| - 1
    else
      var i := LastIndexOf(s[..|s| - 1], c);
      assert s[..|s| - 1] + [s[|s| - 1]] == s;
      i
  }
}
