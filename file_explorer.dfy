/**
 * The file tree of the explorer panel: the icon chosen for each file, the
 * indentation of its row, the label shown and whether the row is highlighted.
 * The panel renders one button per file, in the order it is given.
 */
module FileExplorer {
  import opened Wrappers
  import opened JsStrings
  import opened Types
  import opened Language
  import opened FileOrder

  /** The icon shapes the explorer draws. */
  datatype Glyph = FileCode | FileType | Database | FileJson | FileText

  /** The text colours the icons are drawn in. */
  datatype Colour = Purple | Yellow | Blue | Orange | Green | Gray | Slate

  datatype Icon = Icon(glyph: Glyph, colour: Colour)

  /** The `switch` of `getIconForFile` on the lower-cased extension. */
  function IconForExtension(ext: string): Icon
  {
    if ext == "php" then Icon(FileCode, Purple)
    else if ext == "js" then Icon(FileCode, Yellow)
    else if ext == "css" then Icon(FileType, Blue)
    else if ext == "html" then Icon(FileCode, Orange)
    else if ext == "sql" then Icon(Database, Green)
    else if ext == "json" then Icon(FileJson, Gray)
    else Icon(FileText, Slate)
  }

  /**
   * `getIconForFile`: the icon for a path. It is a code icon exactly for
   * PHP, JavaScript and HTML files, and the plain text icon exactly for
   * Markdown and unrecognised files.
   */
  function IconFor(path: string): (icon: Icon)
    ensures icon.glyph == FileCode <==> LanguageOf(path) in {"php", "javascript", "html"}
    ensures icon.glyph == FileText <==> LanguageOf(path) in {"markdown", "plaintext"}
    ensures icon.glyph == FileText <==> icon.colour == Slate
  {
    LanguageOfTags(path);
    IconForExtension(Extension(path))
  }

  /**
   * An icon chosen from the language tag alone: the icon follows the
   * language, one to one, except that Markdown and plain text share one.
   */
  function IconForLanguage(lang: string): Icon
  {
    if lang == "php" then Icon(FileCode, Purple)
    else if lang == "javascript" then Icon(FileCode, Yellow)
    else if lang == "css" then Icon(FileType, Blue)
    else if lang == "html" then Icon(FileCode, Orange)
    else if lang == "sql" then Icon(Database, Green)
    else if lang == "json" then Icon(FileJson, Gray)
    else Icon(FileText, Slate)
  }

  /** The icon and the language of a file are read from the same extension. */
  lemma IconFollowsLanguage(path: string)
    ensures IconFor(path) == IconForLanguage(LanguageOf(path))
  {
  }

  /** Two files whose languages differ get different icons, unless both are text. */
  lemma IconsSeparateLanguages(p: string, q: string)
    requires LanguageOf(p) != LanguageOf(q)
    requires !(LanguageOf(p) in {"markdown", "plaintext"} && LanguageOf(q) in {"markdown", "plaintext"})
    ensures IconFor(p) != IconFor(q)
  {
    IconFollowsLanguage(p);
    IconFollowsLanguage(q);
  }

  /** Icon choice ignores case, as the language does. */
  lemma IconCaseInsensitive(p: string, q: string)
    requires Lower(p) == Lower(q)
    ensures IconFor(p) == IconFor(q)
  {
    ExtensionCaseInsensitive(p, q);
  }

  /**
   * The indentation level of a row, `path.split('/').length - 1`: the number
   * of `/` in the path, one less than the depth the files are sorted by.
   */
  function IndentDepth(path: string): (d: nat)
    ensures d == Count(path, '/')
    ensures d + 1 == Depth(path)
  {
    SplitLength(path, '/');
    |Split(path, '/')| - 1
  }

  /** The left padding of a row in pixels, `depth * 12 + 8`. */
  function Padding(depth: nat): (px: nat)
    ensures px >= 8
    ensures (px - 8) % 12 == 0
  {
    depth * 12 + 8
  }

  /** Deeper rows are indented strictly further. */
  lemma PaddingIncreasing(d1: nat, d2: nat)
    requires d1 < d2
    ensures Padding(d1) + 12 <= Padding(d2)
  {
  }

  /** The text of a row, `path.split('/').pop()`: the file's own name. */
  function Label(path: string): (name: string)
    ensures TailAfterLast(path, '/', name)
    ensures '/' !in path ==> name == path
    ensures '/' !in name
  {
    LastSegment(path, '/')
  }

  /** `selectedFile?.path === file.path`: nothing is highlighted without a selection. */
  predicate IsSelected(selected: Option<ProjectFile>, file: ProjectFile)
  {
    selected.Some? && selected.value.path == file.path
  }

  /** What one button of the explorer shows. */
  datatype Row = Row(file: ProjectFile, padding: nat, icon: Icon, text: string, highlighted: bool)

  function RowFor(file: ProjectFile, selected: Option<ProjectFile>): Row
  {
    Row(file, Padding(IndentDepth(file.path)), IconFor(file.path), Label(file.path), IsSelected(selected, file))
  }

  /** `files.map(...)`: one row per file, in the given order. */
  function Rows(files: seq<ProjectFile>, selected: Option<ProjectFile>): (rows: seq<Row>)
    ensures |rows| == |files|
    ensures forall i :: 0 <= i < |files| ==> rows[i].file == files[i]
    ensures forall i :: 0 <= i < |files| ==>
      (rows[i].highlighted <==> selected.Some? && selected.value.path == files[i].path)
    ensures forall i :: 0 <= i < |files| ==>
      rows[i].padding == 12 * Count(files[i].path, '/') + 8
    ensures forall i :: 0 <= i < |files| ==>
      rows[i].icon == IconFor(files[i].path) && rows[i].text == Label(files[i].path)
  {
    seq(|files|, i requires 0 <= i < |files| => RowFor(files[i], selected))
  }

  /** Without a selection no row is highlighted. */
  lemma NoSelectionNoHighlight(files: seq<ProjectFile>)
    ensures forall r :: r in Rows(files, None) ==> !r.highlighted
  {
  }

  /** Rows of files with the same path are highlighted together. */
  lemma SamePathSameHighlight(files: seq<ProjectFile>, selected: Option<ProjectFile>, i: nat, j: nat)
    requires i < |files| && j < |files| && files[i].path == files[j].path
    ensures Rows(files, selected)[i].highlighted == Rows(files, selected)[j].highlighted
  {
  }

  /** Selecting a listed file highlights its row. */
  lemma SelectedFileHighlighted(files: seq<ProjectFile>, file: ProjectFile)
    requires file in files
    ensures exists r :: r in Rows(files, Some(file)) && r.highlighted && r.file == file
  {
    var i :| 0 <= i < |files| && files[i] == file;
    assert Rows(files, Some(file))[i].highlighted;
  }

  /** In the sorted list, indentation never increases down the panel. */
  lemma SortedRowsIndentNonIncreasing(files: seq<ProjectFile>, selected: Option<ProjectFile>, i: nat, j: nat)
    requires Sorted(files) && i < j < |files|
    ensures Rows(files, selected)[i].padding >= Rows(files, selected)[j].padding
  {
    SortedByDepthThenPath(files, i, j);
  }
}
