/**
 * `generateProject` of services/geminiService.ts after the network call:
 * the empty-reply check, the mapping of parsed file entries to project
 * files, the sort, the name and description defaults, and the single
 * error every failure turns into.
 */
module GeminiService {
  import opened Wrappers
  import opened Types
  import opened Language
  import opened FileOrder

  /** One element of the reply's `files` array; `path` is `None` when it is missing or not a string. */
  datatype FileEntry = FileEntry(path: Option<string>, content: string)

  /**
   * The reply after `JSON.parse`; a field is `None` when it is missing or
   * `null`, and `files` is also `None` when it is not an array.
   */
  datatype Payload = Payload(projectName: Option<string>, projectDescription: Option<string>, files: Option<seq<FileEntry>>)

  /** The message of the one error `generateProject` ever throws. */
  const GenerationFailed: string := "Failed to generate project. Please try again."

  /** The name used when the reply has none. */
  const DefaultName: string := "Untitled PHP Project"

  /** The project file built from one entry: type `file`, language from the path. */
  function ToProjectFile(path: string, content: string): ProjectFile
  {
    ProjectFile(path, content, File, LanguageOf(path))
  }

  /** Every entry has a string path. */
  predicate EntriesWellFormed(entries: seq<FileEntry>)
  {
    forall i :: 0 <= i < |entries| ==> entries[i].path.Some?
  }

  /**
   * `data.files.map(...)`: one project file per entry, in entry order,
   * with path and content copied. An entry without a string path makes
   * `split` throw, so the whole map fails.
   */
  function MapEntries(entries: seq<FileEntry>): (r: Option<seq<ProjectFile>>)
    ensures r.Some? <==> EntriesWellFormed(entries)
    ensures r.Some? ==> |r.value| == |entries|
    ensures r.Some? ==> forall i :: 0 <= i < |entries| ==>
      r.value[i] == ToProjectFile(entries[i].path.value, entries[i].content)
    decreases |entries|
  {
    if |entries| == 0 then Some([])
    else
      var rest := MapEntries(entries[1..]);
      if entries[0].path.None? || rest.None? then
        None
      else
        assert forall i :: 1 <= i < |entries| ==> entries[i] == entries[1..][i - 1];
        Some([ToProjectFile(entries[0].path.value, entries[0].content)] + rest.value)
  }

  /** `value || fallback` for an optional string: the empty string counts as missing. */
  function OrElse(value: Option<string>, fallback: string): (r: string)
    ensures r == fallback || (value == Some(r) && r != "")
    ensures fallback != "" ==> r != ""
    ensures value.Some? && value.value != "" ==> r == value.value
  {
    if value.Some? && value.value != "" then value.value else fallback
  }

  /**
   * The transform applied to a parsed reply. It fails exactly when `files`
   * is missing or some entry has no path, and then only with
   * `GenerationFailed`. On success the files are a sorted permutation of
   * the mapped entries, and name and description fall back to their defaults.
   */
  function NormalizePayload(p: Payload): (r: Result<ProjectStructure, string>)
    ensures r.Failure? ==> r.error == GenerationFailed
    ensures r.Success? <==> p.files.Some? && EntriesWellFormed(p.files.value)
    ensures r.Success? ==>
      && r.value.name == (if p.projectName.Some? && p.projectName.value != "" then p.projectName.value else DefaultName)
      && r.value.description == (if p.projectDescription.Some? then p.projectDescription.value else "")
    ensures r.Success? ==>
      && Sorted(r.value.files)
      && multiset(r.value.files) == multiset(MapEntries(p.files.value).value)
  {
    match p.files
    case None => Failure(GenerationFailed)
    case Some(entries) =>
      match MapEntries(entries)
      case None => Failure(GenerationFailed)
      case Some(files) =>
        SortFilesSorted(files);
        SortFilesPermutation(files);
        Success(ProjectStructure(OrElse(p.projectName, DefaultName), OrElse(p.projectDescription, ""), SortFiles(files)))
  }

  /**
   * `generateProject` from the reply text on; `None` is a call that was
   * rejected or a reply without text. A missing or empty text, a
   * text `parse` rejects, or a reply `NormalizePayload` rejects all end in
   * the same error; otherwise the result is the normalized reply.
   */
  function GenerateProject(text: Option<string>, parse: string -> Option<Payload>): (r: Result<ProjectStructure, string>)
    ensures r.Failure? ==> r.error == GenerationFailed
    ensures r.Success? <==>
      && text.Some? && text.value != ""
      && parse(text.value).Some?
      && NormalizePayload(parse(text.value).value).Success?
    ensures r.Success? ==> r == NormalizePayload(parse(text.value).value)
  {
    if text.None? || text.value == "" then Failure(GenerationFailed)
    else
      match parse(text.value)
      case None => Failure(GenerationFailed)
      case Some(data) => NormalizePayload(data)
  }

  /**
   * The transform as the source runs it: the mapped files go into an array
   * that is then sorted in place.
   */
  method Transform(p: Payload) returns (r: Result<ProjectStructure, string>)
    ensures r == NormalizePayload(p)
  {
    if p.files.None? {
      return Failure(GenerationFailed);
    }
    var mapped := MapEntries(p.files.value);
    if mapped.None? {
      return Failure(GenerationFailed);
    }
    var files := mapped.value;
    var a := new ProjectFile[|files|](i requires 0 <= i < |files| => files[i]);
    assert a[..] == files;
    SortInPlace(a);
    r := Success(ProjectStructure(OrElse(p.projectName, DefaultName), OrElse(p.projectDescription, ""), a[..]));
  }

  // ---------------------------------------------------------------- properties

  /** Every entry's file is in any rearrangement of the mapped list. */
  lemma EntriesInRearrangement(entries: seq<FileEntry>, files: seq<ProjectFile>)
    requires EntriesWellFormed(entries)
    requires multiset(files) == multiset(MapEntries(entries).value)
    ensures forall i :: 0 <= i < |entries| ==> ToProjectFile(entries[i].path.value, entries[i].content) in files
  {
    var mapped := MapEntries(entries).value;
    forall i | 0 <= i < |entries|
      ensures ToProjectFile(entries[i].path.value, entries[i].content) in files
    {
      assert mapped[i] in multiset(mapped);
    }
  }

  /** A file of any rearrangement of the mapped list is built from an entry. */
  lemma RearrangedFileFromEntry(entries: seq<FileEntry>, files: seq<ProjectFile>, f: ProjectFile)
    requires EntriesWellFormed(entries)
    requires multiset(files) == multiset(MapEntries(entries).value)
    requires f in files
    ensures f.kind == File && f.language == LanguageOf(f.path)
    ensures FileEntry(Some(f.path), f.content) in entries
  {
    assert f in multiset(files);
    MapEntriesCount(entries, f);
    assert SourceEntry(f) in multiset(entries);
  }

  /**
   * Nothing is dropped, merged or invented: the project has one file per
   * entry, each entry's path and content appear as a file, and each file
   * comes from an entry.
   */
  lemma NormalizeKeepsEveryEntry(p: Payload)
    requires NormalizePayload(p).Success?
    ensures |NormalizePayload(p).value.files| == |p.files.value|
    ensures forall i :: 0 <= i < |p.files.value| ==>
      ToProjectFile(p.files.value[i].path.value, p.files.value[i].content) in NormalizePayload(p).value.files
    ensures forall f :: f in NormalizePayload(p).value.files ==>
      && f.kind == File && f.language == LanguageOf(f.path)
      && FileEntry(Some(f.path), f.content) in p.files.value
  {
    var entries := p.files.value;
    var files := NormalizePayload(p).value.files;
    assert |files| == |multiset(files)| == |multiset(MapEntries(entries).value)|;
    EntriesInRearrangement(entries, files);
    forall f | f in files
      ensures f.kind == File && f.language == LanguageOf(f.path)
      ensures FileEntry(Some(f.path), f.content) in entries
    {
      RearrangedFileFromEntry(entries, files, f);
    }
  }

  /** The entry a well-formed project file is built from. */
  function SourceEntry(f: ProjectFile): FileEntry
  {
    FileEntry(Some(f.path), f.content)
  }

  /** `f` has the shape every mapped file has. */
  predicate IsMappedShape(f: ProjectFile)
  {
    f.kind == File && f.language == LanguageOf(f.path)
  }

  lemma MapEntriesUnfold(entries: seq<FileEntry>)
    requires |entries| > 0 && EntriesWellFormed(entries)
    ensures EntriesWellFormed(entries[1..])
    ensures MapEntries(entries)
      == Some([ToProjectFile(entries[0].path.value, entries[0].content)] + MapEntries(entries[1..]).value)
  {
    assert EntriesWellFormed(entries[1..]);
  }

  /** A file is built from an entry exactly when it has the mapped shape and that entry is its source. */
  lemma ToProjectFileIs(e: FileEntry, f: ProjectFile)
    requires e.path.Some?
    ensures (f == ToProjectFile(e.path.value, e.content)) <==> (IsMappedShape(f) && SourceEntry(f) == e)
  {
  }

  lemma {:induction false} MapEntriesCount(entries: seq<FileEntry>, f: ProjectFile)
    requires EntriesWellFormed(entries)
    ensures multiset(MapEntries(entries).value)[f] ==
      if IsMappedShape(f) then multiset(entries)[SourceEntry(f)] else 0
    decreases |entries|
  {
    if |entries| > 0 {
      var e, rest := entries[0], entries[1..];
      MapEntriesUnfold(entries);
      MapEntriesCount(rest, f);
      assert entries == [e] + rest;
      CountCons(e, rest, MapEntries(rest).value, f);
    }
  }

  /** The counting step of `MapEntriesCount`: one more entry, one more file. */
  lemma CountCons(e: FileEntry, rest: seq<FileEntry>, mapped: seq<ProjectFile>, f: ProjectFile)
    requires e.path.Some?
    requires multiset(mapped)[f] == if IsMappedShape(f) then multiset(rest)[SourceEntry(f)] else 0
    ensures multiset([ToProjectFile(e.path.value, e.content)] + mapped)[f]
      == if IsMappedShape(f) then multiset([e] + rest)[SourceEntry(f)] else 0
  {
    var head := ToProjectFile(e.path.value, e.content);
    assert multiset([head] + mapped) == multiset{head} + multiset(mapped);
    assert multiset([e] + rest) == multiset{e} + multiset(rest);
    ToProjectFileIs(e, f);
  }

  /** Mapping a rearrangement of the entries gives a rearrangement of the files. */
  lemma MapEntriesPermutation(e1: seq<FileEntry>, e2: seq<FileEntry>)
    requires multiset(e1) == multiset(e2) && EntriesWellFormed(e1)
    ensures EntriesWellFormed(e2)
    ensures multiset(MapEntries(e1).value) == multiset(MapEntries(e2).value)
  {
    forall i | 0 <= i < |e2|
      ensures e2[i].path.Some?
    {
      assert e2[i] in multiset(e1);
    }
    forall f
      ensures multiset(MapEntries(e1).value)[f] == multiset(MapEntries(e2).value)[f]
    {
      MapEntriesCount(e1, f);
      MapEntriesCount(e2, f);
    }
  }

  /** No two entries share a path. */
  predicate DistinctEntryPaths(entries: seq<FileEntry>)
  {
    forall i, j :: 0 <= i < j < |entries| ==> entries[i].path != entries[j].path
  }

  /**
   * When the reply's paths are distinct, the order in which it lists its
   * files does not matter: any rearrangement gives the same project.
   */
  lemma NormalizeOrderIndependent(p1: Payload, p2: Payload)
    requires p1.projectName == p2.projectName && p1.projectDescription == p2.projectDescription
    requires p1.files.Some? && p2.files.Some?
    requires multiset(p1.files.value) == multiset(p2.files.value)
    requires DistinctEntryPaths(p1.files.value)
    ensures NormalizePayload(p1) == NormalizePayload(p2)
  {
    var e1, e2 := p1.files.value, p2.files.value;
    if EntriesWellFormed(e1) {
      MapEntriesPermutation(e1, e2);
      var m1, m2 := MapEntries(e1).value, MapEntries(e2).value;
      assert DistinctPaths(m1);
      SortFilesOrderIndependent(m1, m2);
    } else {
      var i :| 0 <= i < |e1| && e1[i].path.None?;
      assert e1[i] in multiset(e2);
    }
  }

  // ---------------------------------------------------------------- examples

  // The depths of the three example paths, each proved apart from the sort:
  // asserted inside `DeeperFirstExample` they make its proof too costly.

  lemma ExampleDepthOne()
    ensures Depth("a.php") == 1
  {
  }

  lemma ExampleDepthTwo()
    ensures Depth("lib/b.php") == 2
  {
  }

  lemma ExampleDepthThree()
    ensures Depth("lib/sub/c.php") == 3
  {
  }

  /** Deeper paths come first: `a.php`, `lib/b.php`, `lib/sub/c.php` are listed deepest first. */
  lemma DeeperFirstExample()
    ensures SortFiles([ToProjectFile("a.php", "A"), ToProjectFile("lib/b.php", "B"), ToProjectFile("lib/sub/c.php", "C")])
      == [ToProjectFile("lib/sub/c.php", "C"), ToProjectFile("lib/b.php", "B"), ToProjectFile("a.php", "A")]
  {
    ExampleDepthOne();
    ExampleDepthTwo();
    ExampleDepthThree();
    SortByDecreasingDepth(ToProjectFile("a.php", "A"), ToProjectFile("lib/b.php", "B"), ToProjectFile("lib/sub/c.php", "C"));
  }
}
