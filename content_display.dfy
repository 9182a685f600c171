/**
 * ContentDisplay: one listed entry (a file or a folder) of a directory view.
 * It keeps four property slots (name, date modified, type, size) with their
 * info text, and the widths of its four grid columns.
 */
module Content {
  import opened Wrappers
  import opened Numbers

  /** ContentProperties: the four displayed properties, then the Max_Count bound. */
  datatype ContentProperty = PropertyName | PropertyDateModified | PropertyType | PropertySize | MaxCount {
    /** The enum's integer value. */
    function Index(): (i: nat)
      ensures i <= PropertyCount
      ensures i == PropertyCount <==> this == MaxCount
    {
      match this
      case PropertyName => 0
      case PropertyDateModified => 1
      case PropertyType => 2
      case PropertySize => 3
      case MaxCount => 4
    }
  }

  /** Max_Count: the number of property slots and of columns. */
  const PropertyCount: nat := 4

  datatype ContentType = File | Folder

  /** One property slot: its info text, how many characters the display hides, and the width it was laid out for. */
  datatype Property = Property(info: string, hiddenCharacters: nat, owningControlWidth: real)

  const EmptyProperty: Property := Property("", 0, 0.0)

  /** What FileInfo supplies: the full path, the name, the formatted write time, the extension and the length in bytes. */
  datatype FileInfo = FileInfo(fullName: string, name: string, lastWriteTime: string, extension: string, length: int)

  /** What DirectoryInfo supplies: the full path, the name and the formatted write time. */
  datatype FolderInfo = FolderInfo(fullName: string, name: string, lastWriteTime: string)

  /** The thrown exception of SetColumnWidths. */
  datatype ContentError = ArgumentException

  /**
   * The name of a FileSizes level: bytes, KB, MB, GB, TB, PB. Enum.GetName
   * gives null for any other level, and appending null to a string appends nothing.
   */
  function UnitName(level: nat): (name: string)
    ensures level <= 5 <==> name != ""
  {
    if level == 0 then "bytes"
    else if level == 1 then "KB"
    else if level == 2 then "MB"
    else if level == 3 then "GB"
    else if level == 4 then "TB"
    else if level == 5 then "PB"
    else ""
  }

  function Pow1024(k: nat): (p: nat)
    ensures p >= 1
  {
    if k == 0 then 1 else 1024 * Pow1024(k - 1)
  }

  /**
   * The number ConvertFileSize prints and how many divisions by 1024 it took
   * (the unit level): the number is divided while it is at least 1024. For a
   * size of at least 1024 the level is the one with 1024^level <= size < 1024^(level + 1).
   */
  function Scale(size: int): (r: (int, nat))
    ensures r.0 < 1024
    ensures size >= 0 ==> r.0 >= 0
    ensures size < 1024 ==> r == (size, 0)
    ensures size >= 1024 ==> Pow1024(r.1) <= size < Pow1024(r.1 + 1)
  {
    if size >= 1024 then
      var inner := Scale(size / 1024);
      ScaleBounds(size, Pow1024(inner.1), Pow1024(inner.1 + 1));
      (inner.0, inner.1 + 1)
    else (size, 0)
  }

  /** Bounds on size / 1024 carry over to size, scaled by 1024. */
  lemma ScaleBounds(size: int, lo: int, hi: int)
    requires size >= 1024
    requires size / 1024 >= 1024 ==> lo <= size / 1024 < hi
    requires size / 1024 < 1024 ==> lo == 1 && hi == 1024
    ensures 1024 * lo <= size < 1024 * hi
  {
  }

  /** The text ConvertFileSize gives for a size: the scaled number, a space and the unit name. */
  function FileSizeText(size: int): string {
    IntToString(Scale(size).0) + " " + UnitName(Scale(size).1)
  }

  /** ConvertFileSize: divides by 1024 while the size is at least 1024, counting the divisions. */
  method ConvertFileSize(fileSize: int) returns (text: string)
    ensures text == FileSizeText(fileSize)
  {
    var level: nat := 0;
    var size := fileSize;
    while size >= 1024
      invariant Scale(size).0 == Scale(fileSize).0
      invariant level + Scale(size).1 == Scale(fileSize).1
      decreases size
    {
      level := level + 1;
      size := size / 1024;
    }
    text := IntToString(size) + " " + UnitName(level);
  }

  lemma DivUnique(a: int, d: int, x: int, y: int)
    requires d > 0 && 0 <= y < d && a == d * x + y
    ensures a / d == x
  {
    var k := x - a / d;
    assert d * k == a % d - y;
    MulSign(d, k);
  }

  lemma MulSign(d: int, k: int)
    requires d > 0
    ensures k >= 1 ==> d * k >= d
    ensures k <= -1 ==> d * k <= -d
  {
    assert d * k == d * (k - 1) + d;
    assert d * k == d * (k + 1) - d;
  }

  /** The printed number is the size divided by 1024 to the power of the level. */
  lemma {:induction false} ScaleIsDivision(size: int)
    requires size >= 0
    ensures Scale(size).0 == size / Pow1024(Scale(size).1)
  {
    if size >= 1024 {
      var inner := Scale(size / 1024);
      ScaleIsDivision(size / 1024);
      calc {
        Scale(size).0;
        inner.0;
        size / 1024 / Pow1024(inner.1);
        { DivComm(size, Pow1024(inner.1)); }
        size / Pow1024(inner.1 + 1);
      }
    }
  }

  /** Dividing by 1024 then by p is dividing by 1024 * p. */
  lemma DivComm(a: int, p: int)
    requires a >= 0 && p > 0
    ensures a / 1024 / p == a / (1024 * p)
  {
    var q, r := a / 1024, a % 1024;
    var q2, r2 := q / p, q % p;
    assert a == 1024 * q + r;
    assert q == p * q2 + r2;
    assert a == (1024 * p) * q2 + (1024 * r2 + r) by {
      assert 1024 * q == 1024 * (p * q2) + 1024 * r2;
    }
    assert 0 <= 1024 * r2 <= 1024 * (p - 1);
    DivUnique(a, 1024 * p, q2, 1024 * r2 + r);
  }

  /** A size below 1024 (negative ones included) prints in bytes. */
  lemma SmallSizeInBytes(size: int)
    requires size < 1024
    ensures FileSizeText(size) == IntToString(size) + " bytes"
  {
  }

  /** The largest Int64 value. */
  const MaxInt64: int := 0x7FFF_FFFF_FFFF_FFFF

  /**
   * A length that fits in an Int64 reaches at most level 6, and level 6, for
   * which FileSizes has no name, is reached exactly from 1024^6 bytes on.
   */
  lemma LevelOfInt64(size: int)
    requires 0 <= size <= MaxInt64
    ensures Scale(size).1 <= 6
    ensures Scale(size).1 == 6 <==> size >= Pow1024(6)
  {
    var level := Scale(size).1;
    assert Pow1024(7) > MaxInt64;
    if level >= 7 {
      PowMonotone(7, level);
    }
    if size >= Pow1024(6) && level < 6 {
      PowMonotone(level + 1, 6);
    }
    if level == 6 {
      assert size >= 1024;
    }
  }

  lemma {:induction false} PowMonotone(i: nat, j: nat)
    requires i <= j
    ensures Pow1024(i) <= Pow1024(j)
    decreases j
  {
    if i < j {
      PowMonotone(i, j - 1);
    }
  }

  /** The info texts of a file entry: name, write time, extension and the formatted length. */
  function FileInfos(file: FileInfo): seq<string> {
    [file.name, file.lastWriteTime, file.extension, FileSizeText(file.length)]
  }

  /** The info texts of a folder entry: name, write time, "File folder" and no size. */
  function FolderInfos(folder: FolderInfo): seq<string> {
    [folder.name, folder.lastWriteTime, "File folder", ""]
  }

  /**
   * The column widths after SetColumnWidths(properties, widths): each pair in
   * turn sets its property's column, and pairs naming Max_Count are skipped.
   */
  function AppliedWidths(columns: seq<real>, properties: seq<ContentProperty>, widths: seq<real>): (r: seq<real>)
    requires |properties| == |widths|
    ensures |r| == |columns|
  {
    if properties == [] then columns
    else
      var n := |properties| - 1;
      var before := AppliedWidths(columns, properties[..n], widths[..n]);
      var c := properties[n].Index();
      if c < PropertyCount && c < |before| then before[c := widths[n]] else before
  }

  /** A column that no pair names keeps its width. */
  lemma {:induction false} AppliedWidthsUntouched(columns: seq<real>, properties: seq<ContentProperty>, widths: seq<real>, c: nat)
    requires |properties| == |widths| && c < |columns|
    requires forall i :: 0 <= i < |properties| ==> properties[i].Index() != c
    ensures AppliedWidths(columns, properties, widths)[c] == columns[c]
  {
    if properties != [] {
      var n := |properties| - 1;
      AppliedWidthsUntouched(columns, properties[..n], widths[..n], c);
    }
  }

  /** A column named by some pair gets the width of the last pair that names it. */
  lemma {:induction false} AppliedWidthsLast(columns: seq<real>, properties: seq<ContentProperty>, widths: seq<real>, i: nat)
    requires |properties| == |widths| && |columns| == PropertyCount
    requires i < |properties| && properties[i] != MaxCount
    requires forall j :: i < j < |properties| ==> properties[j] != properties[i]
    ensures AppliedWidths(columns, properties, widths)[properties[i].Index()] == widths[i]
  {
    var n := |properties| - 1;
    if i < n {
      AppliedWidthsLast(columns, properties[..n], widths[..n], i);
      assert properties[n] != properties[i];
      IndexInjective(properties[n], properties[i]);
    }
  }

  lemma IndexInjective(a: ContentProperty, b: ContentProperty)
    requires a != b
    ensures a.Index() != b.Index()
  {
  }

  class ContentDisplay {
    var contentPath: string
    var kind: ContentType
    var properties: array<Property>
    var columnWidths: array<real>

    ghost predicate Valid()
      reads this
    {
      properties.Length == PropertyCount && columnWidths.Length == PropertyCount
    }

    /** The info texts of the four property slots, in column order. */
    ghost function Infos(): seq<string>
      reads this, properties
      requires Valid()
    {
      [properties[0].info, properties[1].info, properties[2].info, properties[3].info]
    }

    /** Every property slot holds empty info, no hidden characters and no width. */
    ghost predicate Cleared()
      reads this, properties
    {
      forall i :: 0 <= i < properties.Length ==> properties[i] == EmptyProperty
    }

    /**
     * ContentDisplay(owning_view): four empty property slots. The initial
     * column widths come from the control's markup and are left unspecified.
     */
    constructor ()
      ensures Valid() && fresh(properties) && fresh(columnWidths)
      ensures Cleared()
      ensures contentPath == "" && kind == File
    {
      contentPath := "";
      kind := File;
      properties := new Property[PropertyCount];
      columnWidths := new real[PropertyCount];
      new;
      ClearProperties();
    }

    /** ContentDisplay(owning_view, file_info): a fresh entry filled from a file. */
    constructor ForFile(file: FileInfo)
      ensures Valid() && fresh(properties) && fresh(columnWidths)
      ensures contentPath == file.fullName && kind == File
      ensures Infos() == FileInfos(file)
      ensures forall i :: 0 <= i < PropertyCount ==>
        properties[i].hiddenCharacters == 0 && properties[i].owningControlWidth == 0.0
    {
      contentPath := "";
      kind := File;
      properties := new Property[PropertyCount];
      columnWidths := new real[PropertyCount];
      new;
      ClearProperties();
      UpdateFilePropertyInfo(file);
    }

    /** ContentDisplay(owning_view, folder_info): a fresh entry filled from a folder. */
    constructor ForFolder(folder: FolderInfo)
      ensures Valid() && fresh(properties) && fresh(columnWidths)
      ensures contentPath == folder.fullName && kind == Folder
      ensures Infos() == FolderInfos(folder)
      ensures forall i :: 0 <= i < PropertyCount ==>
        properties[i].hiddenCharacters == 0 && properties[i].owningControlWidth == 0.0
    {
      contentPath := "";
      kind := File;
      properties := new Property[PropertyCount];
      columnWidths := new real[PropertyCount];
      new;
      ClearProperties();
      UpdateFolderPropertyInfo(folder);
    }

    /** The constructor's loop that empties every property slot. */
    method ClearProperties()
      modifies properties
      ensures Cleared()
    {
      for i := 0 to properties.Length
        invariant forall k :: 0 <= k < i ==> properties[k] == EmptyProperty
      {
        properties[i] := EmptyProperty;
      }
    }

    /**
     * UpdatePropertyInfo(FileInfo): sets the path, the kind and the four info texts.
     * The closing DisplayContentInfo call is not modelled, so the hidden counts
     * and widths are left as they were.
     */
    method UpdateFilePropertyInfo(file: FileInfo)
      requires Valid()
      modifies `contentPath, `kind, properties
      ensures Valid()
      ensures contentPath == file.fullName && kind == File
      ensures Infos() == FileInfos(file)
      ensures forall i :: 0 <= i < PropertyCount ==>
        properties[i].hiddenCharacters == old(properties[i].hiddenCharacters) &&
        properties[i].owningControlWidth == old(properties[i].owningControlWidth)
    {
      contentPath := file.fullName;
      kind := File;
      properties[PropertyName.Index()] := properties[PropertyName.Index()].(info := file.name);
      properties[PropertyDateModified.Index()] := properties[PropertyDateModified.Index()].(info := file.lastWriteTime);
      properties[PropertyType.Index()] := properties[PropertyType.Index()].(info := file.extension);
      var size := ConvertFileSize(file.length);
      properties[PropertySize.Index()] := properties[PropertySize.Index()].(info := size);
    }

    /**
     * UpdatePropertyInfo(DirectoryInfo): sets the path, the kind and the four info texts.
     * The closing DisplayContentInfo call is not modelled, so the hidden counts
     * and widths are left as they were.
     */
    method UpdateFolderPropertyInfo(folder: FolderInfo)
      requires Valid()
      modifies `contentPath, `kind, properties
      ensures Valid()
      ensures contentPath == folder.fullName && kind == Folder
      ensures Infos() == FolderInfos(folder)
      ensures forall i :: 0 <= i < PropertyCount ==>
        properties[i].hiddenCharacters == old(properties[i].hiddenCharacters) &&
        properties[i].owningControlWidth == old(properties[i].owningControlWidth)
    {
      contentPath := folder.fullName;
      kind := Folder;
      properties[PropertyName.Index()] := properties[PropertyName.Index()].(info := folder.name);
      properties[PropertyDateModified.Index()] := properties[PropertyDateModified.Index()].(info := folder.lastWriteTime);
      properties[PropertyType.Index()] := properties[PropertyType.Index()].(info := "File folder");
      properties[PropertySize.Index()] := properties[PropertySize.Index()].(info := "");
    }

    /** SetColumnWidth: sets one column's width, unless the property is Max_Count. */
    method SetColumnWidth(property: ContentProperty, width: real)
      requires Valid()
      modifies columnWidths
      ensures columnWidths[..] == if property != MaxCount
        then old(columnWidths[..])[property.Index() := width]
        else old(columnWidths[..])
    {
      if property.Index() < PropertyCount {
        columnWidths[property.Index()] := width;
      }
    }

    /**
     * SetColumnWidths: throws ArgumentException, changing nothing, when the
     * two sequences differ in length; otherwise applies each pair in turn.
     */
    method SetColumnWidths(props: seq<ContentProperty>, widths: seq<real>) returns (outcome: Outcome<ContentError>)
      requires Valid()
      modifies columnWidths
      ensures outcome == if |props| != |widths| then Fail(ArgumentException) else Pass
      ensures |props| != |widths| ==> columnWidths[..] == old(columnWidths[..])
      ensures |props| == |widths| ==>
        columnWidths[..] == AppliedWidths(old(columnWidths[..]), props, widths)
    {
      if |props| != |widths| {
        return Fail(ArgumentException);
      }
      for i := 0 to |props|
        invariant columnWidths[..] == AppliedWidths(old(columnWidths[..]), props[..i], widths[..i])
      {
        assert props[..i + 1][..i] == props[..i];
        assert widths[..i + 1][..i] == widths[..i];
        if props[i].Index() < PropertyCount {
          columnWidths[props[i].Index()] := widths[i];
        }
      }
      assert props[..|props|] == props;
      assert widths[..|widths|] == widths;
      outcome := Pass;
    }
  }
}
