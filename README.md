# Omni file browser — a verified model of its core

Omni is a multi-pane Windows file browser. This project models the parts of it that are plain
list, string and integer logic, and proves what they do. There are five parts:

- **Directory views** (`directory_view.dfy`, module `Navigation`). A view has a current path, a back
  list of at most 10 entries and an unbounded forward list. It supports `LoadDirectory`, the Back,
  Forward and Up buttons, Enter in the path box, and opening an entry.
  - The filesystem is an input: a map from each existing directory to its folders and files, in
    enumeration order.
  - A successful load displays fresh entries: the folders in order, then the files.
  - The code's quirks are kept. A load never clears the forward list. Back pushes the current path
    onto the forward list before it knows whether the load will succeed. Forward loads with history
    recording on, so it pushes onto the back list. After A→B→C, Back, Back, the forward list is
    `[C, B]`, with B at the end, the next one taken (`BackForwardSession`).
- **Entries** (`content_display.dfy`, module `Content`). One listed file or folder holds four property
  slots and four column widths.
  - The file-size text divides by 1024 until the number is below 1024 and names the unit. Level 6 has
    no name, and `Enum.GetName` returns null there, which prints as nothing.
  - A folder entry's type is "File folder" and its size is empty.
  - `SetColumnWidths` checks that its two arrays have the same length, then applies each pair in turn,
    skipping `Max_Count`.
- **Command-line parser** (`command_line_parser.dfy`, module `CommandLine`). It reads
  `-name=value` tokens into per-type value lists and a list of loose flags, for a table of defined
  arguments.
  - All leading dashes are trimmed. The name is the text before the first '='. The value is the text
    between the first and second '='.
  - A Single argument keeps the first value it is given. This matches the help text at
    `Utilities/CommandLineParser.cs:307`. The enum comment at line 27 says the last value is used; the
    code keeps the first.
  - The partner of the imperative parser is `Contributions`: the values each token offers an argument,
    in command-line order. `GetValueAfterParse` proves that lookups return the first of those values.
- **View grid** (`main_window.dfy`, module `ViewGrid`). `ConfigureViewGrid` checks its arguments,
  grows the view list, sets the grid's children and places view i in row `i / columns` and in the
  rotated column (`columns - 1` when `i % columns == 0`, else `i % columns - 1`).
  - Round-trip lemmas with the inverse `IndexOf` show that every cell gets exactly one view.
  - The loop bound `rows * columns` is C#'s 32-bit product. For very large grids it wraps; for
    example 65536 × 65536 gives 0 and no view is placed (`CellCountWraps`).
- **Folder names** (`file_utilities.dfy`, module `FileUtilities`). `GetFolderName` returns the last
  piece of the path split on '/' and '\'. A copy targets `destination + "\" + GetFolderName(source)`.

Shared helpers model the .NET behaviour the code relies on:

- `strings.dfy` covers `StartsWith`, `TrimStart(char)`, and `Split`, which returns k + 1 pieces for k
  separators.
- `numbers.dfy` covers `Int64.ToString()` and `Convert.ToInt32(string)`: white space around, an
  optional sign, decimal digits and the 32-bit range.
- `wrappers.dfy` covers `Option` and `Outcome`.

Exceptions the code throws for bad arguments (`ArgumentOutOfRangeException`, `ArgumentException`,
a duplicate key) become `Fail` outcomes, thrown before any state changes, so the state is left
unchanged. A missing directory is `LoadDirectory` returning false with nothing changed. Exceptions
thrown half-way through listing a directory are not modelled (see "Left out").

## Model

| member | source | states |
|---|---|---|
| Strings.TrimStart | Utilities/CommandLineParser.cs:168 | the result is a suffix of the input, everything removed is the trimmed character, and the result does not start with it |
| Strings.StartsWith | Utilities/CommandLineParser.cs:166 | definition of `StartsWith(prefix)`: the prefix is no longer than the string and equals its first characters; Decode's contract uses it |
| Strings.Split | Utilities/FileUtilities.cs:96-97 | at least one piece, and no piece contains a separator |
| Strings.JoinSplit | Utilities/CommandLineParser.cs:170 | splitting on one separator loses nothing: joining the pieces with it gives the input back |
| Strings.SplitLast | Utilities/FileUtilities.cs:97-98 | the last piece is a suffix of the input, and it is either the whole input or preceded by a separator |
| Strings.SplitNoSeparator | Utilities/FileUtilities.cs:97-98 | a string without separators splits into itself alone |
| Strings.SplitAppend | Utilities/FileUtilities.cs:18 | appending a separator and a separator-free piece adds exactly that piece as the last split piece |
| Numbers.NatToString | UserControls/ContentDisplay.xaml.cs:214 | the decimal text is non-empty digits without a leading zero whose value is the number |
| Numbers.IntToString | UserControls/ContentDisplay.xaml.cs:214 | the text starts with '-' exactly for negative numbers |
| Numbers.ToInt32 | Utilities/CommandLineParser.cs:229 | a successful conversion yields a value in the 32-bit range |
| Numbers.ToInt32RoundTrip | Utilities/CommandLineParser.cs:229 | printing any 32-bit integer and converting it back gives the integer |
| Numbers.ToInt32Digits | Utilities/CommandLineParser.cs:229 | a plain digit string converts to its value exactly when that value fits in 32 bits, and fails otherwise |
| FileUtilities.GetFolderName | Utilities/FileUtilities.cs:94-99 | the name is a suffix of the path, holds no '/' or '\', and is the whole path or follows a separator |
| FileUtilities.FolderNameWithoutSeparator | Utilities/FileUtilities.cs:96-98 | a path without separators is its own folder name |
| FileUtilities.FolderNameAfterTrailingSeparator | Utilities/FileUtilities.cs:96-98 | a path ending in '/' or '\' has an empty folder name |
| FileUtilities.CopyTarget | Utilities/FileUtilities.cs:18 | a folder copy's target starts with the destination and '\' and ends with the source's folder name (line 80 builds sub-folder targets the same way) |
| FileUtilities.CopyTargetKeepsName | Utilities/FileUtilities.cs:80 | the target's folder name is the source's folder name |
| Content.ContentProperty.Index | UserControls/ContentDisplay.xaml.cs:65-72 | the four properties are 0..3, and only Max_Count is 4 |
| Content.UnitName | UserControls/ContentDisplay.xaml.cs:54-62 | levels 0..5 have a unit name (bytes, KB, MB, GB, TB, PB), and no other level has one |
| Content.Scale | UserControls/ContentDisplay.xaml.cs:206-212 | the printed number is below 1024 and not negative for a non-negative size; a size below 1024 is printed as-is at level 0; otherwise 1024^level <= size < 1024^(level+1) |
| Content.ConvertFileSize | UserControls/ContentDisplay.xaml.cs:204-215 | the loop's text is the scaled number, a space and the unit name of the number of divisions |
| Content.FileSizeText | UserControls/ContentDisplay.xaml.cs:214 | definition of the returned text: the scaled number, a space and the unit name; its promises are proved by ConvertFileSize, ScaleIsDivision, SmallSizeInBytes and LevelOfInt64 |
| Content.ScaleIsDivision | UserControls/ContentDisplay.xaml.cs:206-212 | the printed number is the size divided by 1024^level |
| Content.SmallSizeInBytes | UserControls/ContentDisplay.xaml.cs:208-214 | a size below 1024 prints as "<size> bytes" |
| Content.LevelOfInt64 | UserControls/ContentDisplay.xaml.cs:204-214 | an Int64 length reaches at most level 6, and reaches the unnamed level 6 exactly from 1024^6 bytes on |
| Content.AppliedWidths | UserControls/ContentDisplay.xaml.cs:161-167 | applying the pairs keeps the number of columns |
| Content.FileInfos | UserControls/ContentDisplay.xaml.cs:115-118 | definition: the four info texts a file entry shows (name, write time, extension, formatted length); ForFile and UpdateFilePropertyInfo are proved to produce it |
| Content.FolderInfos | UserControls/ContentDisplay.xaml.cs:133-136 | definition: the four info texts a folder entry shows (name, write time, "File folder", empty); ForFolder and UpdateFolderPropertyInfo are proved to produce it |
| Content.AppliedWidthsUntouched | UserControls/ContentDisplay.xaml.cs:161-167 | a column that no pair names keeps its width |
| Content.AppliedWidthsLast | UserControls/ContentDisplay.xaml.cs:161-167 | a column named by a pair gets the width of the last pair naming it |
| Content.ContentDisplay.constructor | UserControls/ContentDisplay.xaml.cs:75-95 | a new entry has exactly four property slots, each with empty info, no hidden characters and no width |
| Content.ContentDisplay.ForFile | UserControls/ContentDisplay.xaml.cs:97-101 | an entry built from a file has the file's path, kind file, and the file's four info texts |
| Content.ContentDisplay.ForFolder | UserControls/ContentDisplay.xaml.cs:103-107 | an entry built from a folder has the folder's path, kind folder, and the folder's four info texts |
| Content.ContentDisplay.ClearProperties | UserControls/ContentDisplay.xaml.cs:82-87 | after the loop every slot is empty |
| Content.ContentDisplay.UpdateFilePropertyInfo | UserControls/ContentDisplay.xaml.cs:109-125 | the info texts become name, write time, extension and the formatted length; the DisplayContentInfo call is left out, so hidden counts and widths are not touched |
| Content.ContentDisplay.UpdateFolderPropertyInfo | UserControls/ContentDisplay.xaml.cs:127-142 | the info texts become name, write time, "File folder" and the empty size; the DisplayContentInfo call is left out, so hidden counts and widths are not touched |
| Content.ContentDisplay.SetColumnWidth | UserControls/ContentDisplay.xaml.cs:144-152 | only the named column changes, and nothing changes for Max_Count; the DisplayContentInfo call is left out, so the property slots are not touched |
| Content.ContentDisplay.SetColumnWidths | UserControls/ContentDisplay.xaml.cs:154-170 | fails with nothing changed on a length mismatch; otherwise the widths are the pairs applied in order; the DisplayContentInfo call is left out, so the property slots are not touched |
| Navigation.PushBack | UserControls/DirectoryView.xaml.cs:81-91 | the back list stays within 10 entries and ends with the new path; when it was full, the oldest entry is dropped |
| Navigation.ParentPath | UserControls/DirectoryView.xaml.cs:129-133 | no parent exactly when the path has no '\'; otherwise the path is the parent, '\' and a '\'-free rest |
| Navigation.LastIndexOf | UserControls/DirectoryView.xaml.cs:129 | -1 exactly when the character is absent; otherwise the index holds it and nothing after it does |
| Navigation.DirectoryView.constructor | UserControls/DirectoryView.xaml.cs:30-37 | a new view has no current path, empty back and forward lists and nothing displayed |
| Navigation.DirectoryView.LoadDirectory | UserControls/DirectoryView.xaml.cs:42-78 | fails with nothing changed for a missing path; otherwise pushes the old non-empty path when asked, becomes current, shows the folders then the files as fresh entries; never touches forward |
| Navigation.DirectoryView.DisplayFolders | UserControls/DirectoryView.xaml.cs:61-67 | one fresh entry per folder, in order |
| Navigation.DirectoryView.DisplayFiles | UserControls/DirectoryView.xaml.cs:69-75 | one fresh entry per file, in order, after the existing entries |
| Navigation.DirectoryView.AddFileEntry | UserControls/DirectoryView.xaml.cs:71-75 | one turn of the file loop: the item list grows by exactly one fresh entry that shows the file |
| Navigation.DirectoryView.StorePreviousDirectory | UserControls/DirectoryView.xaml.cs:81-91 | the back list becomes PushBack of the old one |
| Navigation.DirectoryView.StoreForwardDirectory | UserControls/DirectoryView.xaml.cs:93-96 | the path is appended to the forward list |
| Navigation.DirectoryView.Back | UserControls/DirectoryView.xaml.cs:99-112 | no-op on an empty back list (path, lists, entries and text box unchanged); otherwise the current path is pushed forward and the last back entry is removed and loaded without history: on success it is current, shown and in the text box, on failure path, entries and text box are unchanged |
| Navigation.DirectoryView.Forward | UserControls/DirectoryView.xaml.cs:114-125 | no-op on an empty forward list (path, lists, entries and text box unchanged); otherwise the last forward entry is removed and loaded with history: on success it is current, shown and in the text box and the old non-empty path is pushed back, on failure path, back list, entries and text box are unchanged |
| Navigation.DirectoryView.Up | UserControls/DirectoryView.xaml.cs:127-134 | loads the text before the last '\', with history: on success it is current, shown and in the text box and the old path is pushed back, on failure path, back list, entries and text box are unchanged; without a '\' likewise; the forward list never changes |
| Navigation.DirectoryView.EnterPath | UserControls/DirectoryView.xaml.cs:136-147 | loads the typed path with history: on success it is current and shown and the old non-empty path is pushed back; on failure path, back list and entries are unchanged; either way the box then shows the current path |
| Navigation.DirectoryView.OpenContent | UserControls/ContentDisplay.xaml.cs:172-194 | a file entry reports whether starting it succeeded and changes nothing; a folder entry loads its path in the owning view with history: success exactly when it exists, then it is current, shown and in the text box and the old non-empty path is pushed back; on failure nothing changes |
| Navigation.BackForwardSession | UserControls/DirectoryView.xaml.cs:99-125 | A→B→C, Back, Back is at A with forward [C, B]; Forward then is at B with back [A] and forward [C] |
| CommandLine.ArgumentTable | Utilities/CommandLineParser.cs:69-73 | the table defines help, config, rows and columns, each keyed by its own name and Single |
| CommandLine.Decode | Utilities/CommandLineParser.cs:166-174 | a token is read as a command exactly when it starts with '-' |
| CommandLine.DecodeShape | Utilities/CommandLineParser.cs:168-176 | the dash-trimmed token is the name alone, or the name, '=', the value and possibly '=' and more; neither holds '=' |
| CommandLine.AddLoose | Utilities/CommandLineParser.cs:180-186 | the name is listed afterwards and the value maps are untouched |
| CommandLine.Record | Utilities/CommandLineParser.cs:203-282 | recording never touches double values, and changes the loose list only for a loose argument |
| CommandLine.Step | Utilities/CommandLineParser.cs:166-192 | one iteration of the loop: no double value is recorded and the loose list only grows at its end; its full effect is proved by StepStored, StepLoose and StepConsistent |
| CommandLine.ParseTokens | Utilities/CommandLineParser.cs:164-194 | the loop over a run of tokens: no double value is recorded and the loose list only grows at its end (proved through the recursive calls); StoredAfterParse, LooseAfterParse and ParseConsistent give the rest |
| CommandLine.UserTokens | Utilities/CommandLineParser.cs:163-164 | the tokens the loop reads are exactly the command-line elements after the first, in order, and none for an empty command line |
| CommandLine.ParseArgs | Utilities/CommandLineParser.cs:159-195 | Parse's effect on the recorded values: no double value is recorded and the loose list only grows at its end; the parser's constructor is proved to produce it |
| CommandLine.IsMatchingType | Utilities/CommandLineParser.cs:284-297 | nothing matches a loose argument; a match means string for string values and int for integer values |
| CommandLine.StoredAfterParse | Utilities/CommandLineParser.cs:159-195 | after parsing, a value argument holds exactly the values the tokens offered it, in order, cut to the first for Single; it is present exactly when some token offered one |
| CommandLine.StepStored | Utilities/CommandLineParser.cs:164-192 | one token adds to an argument's values exactly what it offers, as the argument type keeps it |
| CommandLine.StepStoredOffered | Utilities/CommandLineParser.cs:174-176 | a token with a usable value for the argument appends it (ignored after the first for Single) |
| CommandLine.StepStoredUnchanged | Utilities/CommandLineParser.cs:164-192 | a token offering nothing (no dash, other name, no value, unconvertible integer) leaves the argument's values as they were |
| CommandLine.RecordOwnString | Utilities/CommandLineParser.cs:207-224 | a string value is appended, or kept only as the first for Single |
| CommandLine.RecordOwnInt | Utilities/CommandLineParser.cs:225-250 | an integer value is appended when it converts (first only for Single) and nothing is recorded when it does not |
| CommandLine.RecordElsewhere | Utilities/CommandLineParser.cs:203-282 | recording for one argument leaves every other argument's values alone |
| CommandLine.EmptyConsistent | Utilities/CommandLineParser.cs:63-67 | the empty maps and list satisfy the parser's invariant |
| CommandLine.RecordConsistent | Utilities/CommandLineParser.cs:203-282 | recording keeps every list non-empty, under its own value type, one value for Single, and the loose list duplicate-free |
| CommandLine.StepConsistent | Utilities/CommandLineParser.cs:166-192 | one token keeps the invariant |
| CommandLine.ParseConsistent | Utilities/CommandLineParser.cs:159-195 | parsing any tokens keeps the invariant |
| CommandLine.StepLoose | Utilities/CommandLineParser.cs:180-186 | a token lists a name as loose exactly when it names a defined loose argument, with or without a value |
| CommandLine.NamedInStep | Utilities/CommandLineParser.cs:164 | a run with one more token names an argument exactly when the shorter run or the new token does |
| CommandLine.LooseAfterParse | Utilities/CommandLineParser.cs:159-195 | after parsing, a name is loose exactly when it is a defined loose argument that some token names |
| CommandLine.CommandLineParser.constructor | Utilities/CommandLineParser.cs:61-81 | the parser defines the argument table and holds the values parsing the command line gives |
| CommandLine.CommandLineParser.DefineArguments | Utilities/CommandLineParser.cs:69-73 | the four AddArgument calls define exactly the argument table |
| CommandLine.CommandLineParser.AddArgument | Utilities/CommandLineParser.cs:197-201 | defines the argument under its name; fails with nothing changed for a name already defined |
| CommandLine.CommandLineParser.Parse | Utilities/CommandLineParser.cs:159-195 | the values become ParseArgs of the old ones: every element but the first, in order |
| CommandLine.CommandLineParser.ParseToken | Utilities/CommandLineParser.cs:166-193 | one loop iteration performs one Step |
| CommandLine.CommandLineParser.ParseArgument | Utilities/CommandLineParser.cs:203-282 | the values become Record of the old ones, and the invariant holds |
| CommandLine.CommandLineParser.GetValue | Utilities/CommandLineParser.cs:83-131 | NotFound for an undefined argument; TypeMismatch exactly on a type mismatch; Found exactly when the type matches and something is recorded, and then the first recorded value |
| CommandLine.CommandLineParser.HasArgument | Utilities/CommandLineParser.cs:133-156 | holds exactly when the argument is defined and something is recorded for it under its value type |
| CommandLine.HasArgumentAfterParse | Utilities/CommandLineParser.cs:133-156 | after parsing: a defined loose argument is present exactly when a token names it, any other exactly when a token offered it a value |
| CommandLine.GetValueAfterParse | Utilities/CommandLineParser.cs:83-131 | after parsing: NotFound if undefined, TypeMismatch on a mismatch (every loose argument), else the first value the tokens offered, or NotFound if none |
| ViewGrid.Wrap32 | MainWindow.xaml.cs:73 | the result is in the 32-bit range, congruent to the input modulo 2^32, and equal to it when it fits |
| ViewGrid.CellCount | MainWindow.xaml.cs:73 | the loop bound `rows * columns` is a 32-bit int, equal to the product whenever the product fits |
| ViewGrid.CellCountWraps | MainWindow.xaml.cs:73 | 65536 rows and 65536 columns give a cell-loop bound of 0 |
| ViewGrid.CellOf | MainWindow.xaml.cs:82-84 | view i goes to row i / columns and a column in [0, columns) one before i's place in the row, wrapping |
| ViewGrid.IndexOf | MainWindow.xaml.cs:82-84 | a cell's view index is not negative |
| ViewGrid.IndexInGrid | MainWindow.xaml.cs:82-84 | every cell of a rows by columns grid has an index below rows * columns |
| ViewGrid.CellInGrid | MainWindow.xaml.cs:82 | every index below rows * columns lies in a row below rows |
| ViewGrid.CellIndexRoundTrip | MainWindow.xaml.cs:82-84 | placing an index and reading its cell's index gives the index |
| ViewGrid.IndexCellRoundTrip | MainWindow.xaml.cs:82-84 | reading a cell's index and placing it gives the cell |
| ViewGrid.CellsDistinct | MainWindow.xaml.cs:82-84 | two different views never share a cell |
| ViewGrid.EveryCellFilled | MainWindow.xaml.cs:73-84 | every cell of the grid receives exactly one of the first rows * columns views |
| ViewGrid.GridPlacements | MainWindow.xaml.cs:73-88 | when view k is placed in CellOf(k) for every k below rows * columns, all those placements lie in the grid, no two coincide, and every cell of the grid holds one of them |
| ViewGrid.MainWindow.constructor | MainWindow.xaml.cs:29-39 | the window starts with one view in a one by one grid |
| ViewGrid.MainWindow.ConfigureViewGrid | MainWindow.xaml.cs:41-89 | rows <= 0, then columns <= 0, fail with nothing changed; otherwise the definitions are counted, the views grow to max(old, cells) keeping positions, the children are the first views in order, and view i is in CellOf(i); the row and column counts are untouched; when rows * columns fits in 32 bits, there are rows * columns children and each cell of the grid holds exactly one of them (GridPlacements) |
| ViewGrid.MainWindow.PlaceViews | MainWindow.xaml.cs:73-88 | the cell loop creates missing views, makes the first `count` views the children and places each |

## Left out

- Filesystem and OS calls become inputs:
  - `Directory.Exists`, `GetDirectories` and `GetFiles` become the `FileSystem` map;
  - `Process.Start` becomes the `launched` flag of `OpenContent`;
  - `Environment.GetCommandLineArgs` becomes the `args` sequence.
- Left out because they are I/O or WPF: `CopyContent` and the clipboard, icon extraction, `InitializeComponent`.
- `DisplayProperty` and `DisplayContentInfo` are left out. Their truncation depends on `TextRenderer.MeasureText`, fonts and `double` widths.
- Content.ContentDisplay.UpdateFilePropertyInfo, Content.ContentDisplay.UpdateFolderPropertyInfo, Content.ContentDisplay.SetColumnWidth and Content.ContentDisplay.SetColumnWidths: in the program each ends with `DisplayContentInfo()`, which on a laid-out entry (label width above 0) re-truncates the texts and rewrites every slot's hidden-character count and owning width; the model leaves that call out, so their contracts say these fields are untouched, which holds in the program only before layout, as in the constructors.
- Navigation.DirectoryView.LoadDirectory: a directory that exists but cannot be listed (access denied, or removed after `Directory.Exists`) makes `GetDirectories`/`GetFiles` throw after the old path is pushed, the path and text box are set and the entries are cleared, and icon extraction can throw in the middle of listing; the `FileSystem` map cannot express such a directory, so this half-updated state (and Back's already-pushed forward entry) is not modelled.
- `LastWriteTime.ToString(...)` date formatting is left out. The formatted date is taken as text.
- The hard-coded `LoadDirectory` call in the `DirectoryView` constructor (`UserControls/DirectoryView.xaml.cs:39`) is left out.
- The initial column widths come from the control's markup, which is not part of this model. They are left unspecified.
- Differences in how entry state is represented:
  - `ContentPath` starts as C#'s null, modelled as the empty string;
  - the byte `_hidden_characters` is a natural number;
  - enum values outside their declared members (possible in C# by casting) cannot be represented;
  - `OpenContent`'s default branch, which needs such a value, is not modelled.
- `ContentDisplay.OpenContent` is modelled as `DirectoryView.OpenContent(entry, …)`, since the entry's owning view is the view that loads the folder.
- `Copy`, `Delete`, `CopyFile`, `CopyFolder` and `DeleteFolder` do filesystem I/O. Only the target paths they compose are modelled.
- CommandLine.Record: the `DoubleValue` branch records nothing instead of converting with `Convert.ToDouble`, because floating-point parsing is not modelled; no defined argument has that value type.
- `DisplayHelp` and every `Logger` warning are left out, because they only build log text.
  - The argument descriptions feed only `DisplayHelp`, so `Argument` does not carry them.
  - A null `ignore_if_present` is the empty sequence.
- `GetValue`'s generic type parameter is the `RequestedType` enumeration. `Convert.ChangeType` on a matching type is the identity.
- Numbers.ToInt32: culture-specific sign symbols and the trailing NUL characters `Int32.Parse` also accepts are not modelled; only ASCII '+'/'-', white space U+0009–U+000D and U+0020, and decimal digits are.
- MainWindow leaves out the floating-point row heights and column widths, `ResizeViewGrid`, `Grid_Views_SizeChanged` and the WPF `Grid`/`GridLength` objects. Row and column definitions are kept as counts.
- `Utilities/Logger.cs`, `Utilities/ConfigUtilities.cs` and `Utilities/DrawingUtilities.cs` are not part of this model.
