/**
 * The application shell: the state of one generation session (the prompt,
 * the loading flag, the current project and selection, the terminal log and
 * the missing-key flag), the transitions `handleGenerate` and the mount
 * effect make, and the indicators the sidebar derives from the project.
 */
module App {
  import opened Wrappers
  import opened JsStrings
  import opened Types
  import opened Language
  import opened GeminiService

  /** The two lines the terminal shows before anything happens. */
  const InitialLogs: seq<string> := ["DhisePHP AI System Online.", "Waiting for project instructions..."]

  const MissingKeyLine := "CRITICAL ERROR: API_KEY is missing from environment variables."

  /** The two lines appended when a project has been generated. */
  const CompletionLines: seq<string> := ["> Project generation complete.", "> System ready."]

  /** The five progress lines appended when a request starts; the first quotes the prompt. */
  function StartLines(prompt: string): (lines: seq<string>)
    ensures |lines| == 5
    ensures lines[0] == "> Analysis started: \"" + prompt + "\""
  {
    ["> Analysis started: \"" + prompt + "\"",
     "> Designing architecture...",
     "> Generating PHP backend...",
     "> Crafting MySQL schema...",
     "> Building frontend assets..."]
  }

  function ErrorLine(message: string): string
  {
    "> Error: " + message
  }

  /**
   * The lines one accepted request adds to the log, by outcome: the five
   * progress lines, then either the two completion lines or one error line.
   */
  function RequestLines(prompt: string, outcome: Result<ProjectStructure, string>): (lines: seq<string>)
    ensures |lines| == (if outcome.Success? then 7 else 6)
    ensures lines[..5] == StartLines(prompt)
    ensures outcome.Failure? ==> lines[5] == ErrorLine(outcome.error)
    ensures outcome.Success? ==> lines[5..] == CompletionLines
  {
    StartLines(prompt) + (if outcome.Success? then CompletionLines else [ErrorLine(outcome.error)])
  }

  /** Logging the progress lines and then the outcome's lines logs the request's lines. */
  lemma RequestLinesAppend(log: seq<string>, prompt: string, outcome: Result<ProjectStructure, string>)
    ensures log + StartLines(prompt) + (if outcome.Success? then CompletionLines else [ErrorLine(outcome.error)])
      == log + RequestLines(prompt, outcome)
  {
  }

  /** A request that fails ends the log with the single uniform error message. */
  lemma FailedRequestLogsUniformError(prompt: string, reply: Option<string>, parse: string -> Option<Payload>)
    requires GenerateProject(reply, parse).Failure?
    ensures var lines := RequestLines(prompt, GenerateProject(reply, parse));
      lines[|lines| - 1] == ErrorLine(GenerationFailed)
  {
  }

  /**
   * `project.files.find(f => f.path.endsWith('.sql'))`: the first file whose
   * path ends with `.sql`, compared case-sensitively.
   */
  function FindSqlFile(files: seq<ProjectFile>): (r: Option<ProjectFile>)
    ensures r.None? <==> forall i :: 0 <= i < |files| ==> !EndsWith(files[i].path, ".sql")
    ensures r.Some? ==> exists i :: (
      && 0 <= i < |files| && files[i] == r.value
      && EndsWith(r.value.path, ".sql")
      && forall j :: 0 <= j < i ==> !EndsWith(files[j].path, ".sql"))
  {
    if |files| == 0 then None
    else if EndsWith(files[0].path, ".sql") then Some(files[0])
    else
      var r := FindSqlFile(files[1..]);
      assert forall i :: 1 <= i < |files| ==> files[i] == files[1..][i - 1];
      r
  }

  /** The "DB Tables" entry of the project summary. */
  function DbTablesLabel(files: seq<ProjectFile>): string
  {
    if FindSqlFile(files).Some? then "Included" else "None"
  }

  /** The summary says "Included" exactly when some path ends with `.sql`. */
  lemma DbTablesIncludedIff(files: seq<ProjectFile>)
    ensures DbTablesLabel(files) == "Included" <==> exists i :: 0 <= i < |files| && EndsWith(files[i].path, ".sql")
  {
  }

  /** A path ending with `.sql` has the SQL language. */
  lemma SqlSuffixIsSqlLanguage(path: string)
    requires EndsWith(path, ".sql")
    ensures LanguageOf(path) == "sql"
  {
    var tail := path[|path| - 3..];
    assert tail == "sql";
    assert path[|path| - 4] == '.';
    assert TailAfterLast(path, '.', tail);
    ExtensionIs(path, tail, "sql");
  }

  /** Whenever the summary says "Included", the project has a file of language `sql`. */
  lemma DbTablesImpliesSqlFile(files: seq<ProjectFile>)
    requires forall i :: 0 <= i < |files| ==> files[i].language == LanguageOf(files[i].path)
    requires DbTablesLabel(files) == "Included"
    ensures exists i :: 0 <= i < |files| && files[i].language == "sql"
  {
    var i :| 0 <= i < |files| && EndsWith(files[i].path, ".sql");
    SqlSuffixIsSqlLanguage(files[i].path);
  }

  // The two `X.SQL` lemmas take the path as a parameter fixed by `requires`
  // rather than as a literal, which keeps the solver from unfolding it.

  /** `X.SQL` is classified as SQL, the language check ignoring case... */
  lemma UpperCaseSqlLanguage(path: string)
    requires path == "X.SQL"
    ensures LanguageOf(path) == "sql"
  {
    assert Lower(path[2..]) == "sql";
    LanguageAfterDot(path, 1, "sql");
  }

  /** ...yet the summary, whose check is case-sensitive, says "None" for it. */
  lemma UpperCaseSqlNotIndicated(f: ProjectFile)
    requires f.path == "X.SQL"
    ensures DbTablesLabel([f]) == "None"
  {
    assert "X.SQL"[1..] != ".sql" by { assert "X.SQL"[1..][1] != 's'; }
    assert !EndsWith(f.path, ".sql");
  }

  /** The state of the application component. */
  class Session {
    var prompt: string
    var isLoading: bool
    var project: Option<ProjectStructure>
    var selectedFile: Option<ProjectFile>
    var logs: seq<string>
    var apiKeyMissing: bool

    /** The log always starts with the two initial lines; it is only ever appended to. */
    ghost predicate Valid()
      reads this
    {
      |logs| >= 2 && logs[..2] == InitialLogs
    }

    /** The initial state of every `useState`. */
    constructor()
      ensures Valid()
      ensures prompt == "" && !isLoading && project.None? && selectedFile.None?
      ensures logs == InitialLogs && !apiKeyMissing
    {
      prompt := "";
      isLoading := false;
      project := None;
      selectedFile := None;
      logs := InitialLogs;
      apiKeyMissing := false;
    }

    /**
     * The mount effect: a missing or empty key sets the flag and appends the
     * critical-error line; a present key changes nothing.
     */
    method Mount(apiKey: Option<string>)
      requires Valid()
      modifies this
      ensures Valid()
      ensures var missing := apiKey.None? || apiKey.value == "";
        && apiKeyMissing == (old(apiKeyMissing) || missing)
        && logs == old(logs) + (if missing then [MissingKeyLine] else [])
      ensures prompt == old(prompt) && isLoading == old(isLoading)
      ensures project == old(project) && selectedFile == old(selectedFile)
    {
      if apiKey.None? || apiKey.value == "" {
        apiKeyMissing := true;
        logs := logs + [MissingKeyLine];
      }
    }

    /** Typing in the prompt box. */
    method SetPrompt(text: string)
      modifies this
      ensures prompt == text
      ensures isLoading == old(isLoading) && project == old(project) && selectedFile == old(selectedFile)
      ensures logs == old(logs) && apiKeyMissing == old(apiKeyMissing)
    {
      prompt := text;
    }

    /** Clicking a row of the explorer. */
    method Select(file: ProjectFile)
      modifies this
      ensures selectedFile == Some(file)
      ensures prompt == old(prompt) && isLoading == old(isLoading) && project == old(project)
      ensures logs == old(logs) && apiKeyMissing == old(apiKeyMissing)
    {
      selectedFile := Some(file);
    }

    /** The guard of `handleGenerate`: a non-blank prompt and no request in flight. */
    predicate CanStart()
      reads this
    {
      Trim(prompt) != "" && !isLoading
    }

    /** The run button is enabled: not loading, a non-blank prompt and a key. */
    predicate RunEnabled()
      reads this
    {
      !(isLoading || Trim(prompt) == "" || apiKeyMissing)
    }

    /**
     * The first half of `handleGenerate`: when the guard fails nothing
     * changes; otherwise loading starts and the five progress lines are logged.
     */
    method Start() returns (started: bool)
      requires Valid()
      modifies this
      ensures Valid()
      ensures started == old(CanStart())
      ensures started ==> isLoading && logs == old(logs) + StartLines(prompt)
      ensures !started ==> isLoading == old(isLoading) && logs == old(logs)
      ensures prompt == old(prompt) && project == old(project) && selectedFile == old(selectedFile)
      ensures apiKeyMissing == old(apiKeyMissing)
    {
      if Trim(prompt) == "" || isLoading {
        return false;
      }
      isLoading := true;
      logs := logs + StartLines(prompt);
      return true;
    }

    /**
     * A generated project replaces the current one; its first file becomes
     * the selection, and without files the previous selection stays.
     */
    method Succeed(result: ProjectStructure)
      requires Valid()
      modifies this
      ensures Valid()
      ensures project == Some(result)
      ensures selectedFile == (if |result.files| > 0 then Some(result.files[0]) else old(selectedFile))
      ensures logs == old(logs) + CompletionLines
      ensures !isLoading
      ensures prompt == old(prompt) && apiKeyMissing == old(apiKeyMissing)
    {
      project := Some(result);
      if |result.files| > 0 {
        selectedFile := Some(result.files[0]);
      }
      logs := logs + CompletionLines;
      isLoading := false;
    }

    /** A failed request logs its error and leaves the project and the selection alone. */
    method Fail(message: string)
      requires Valid()
      modifies this
      ensures Valid()
      ensures logs == old(logs) + [ErrorLine(message)]
      ensures !isLoading
      ensures project == old(project) && selectedFile == old(selectedFile)
      ensures prompt == old(prompt) && apiKeyMissing == old(apiKeyMissing)
    {
      logs := logs + [ErrorLine(message)];
      isLoading := false;
    }

    /**
     * `handleGenerate` as a whole, with the service reply and the JSON parser
     * as parameters: a refused request changes nothing; an accepted one logs
     * its progress, applies the outcome and ends with loading off.
     */
    method Generate(reply: Option<string>, parse: string -> Option<Payload>)
      requires Valid()
      modifies this
      ensures Valid()
      ensures !old(CanStart()) ==>
        && logs == old(logs) && isLoading == old(isLoading)
        && project == old(project) && selectedFile == old(selectedFile)
      ensures old(CanStart()) ==>
        var outcome := GenerateProject(reply, parse);
        && !isLoading
        && logs == old(logs) + RequestLines(old(prompt), outcome)
        && project == (if outcome.Success? then Some(outcome.value) else old(project))
        && selectedFile == (if outcome.Success? && |outcome.value.files| > 0
                            then Some(outcome.value.files[0]) else old(selectedFile))
      ensures prompt == old(prompt) && apiKeyMissing == old(apiKeyMissing)
    {
      ghost var before := logs;
      var started := Start();
      if !started {
        return;
      }
      var outcome := GenerateProject(reply, parse);
      if outcome.Success? {
        Succeed(outcome.value);
      } else {
        Fail(outcome.error);
      }
      RequestLinesAppend(before, prompt, outcome);
    }
  }

  /** An enabled run button always passes the guard of `handleGenerate`. */
  lemma RunEnabledPassesGuard(s: Session)
    ensures s.RunEnabled() ==> s.CanStart()
  {
  }

  /** A blank prompt, such as one of spaces only, never starts a request. */
  lemma BlankPromptRefused(s: Session)
    requires IsBlank(s.prompt)
    ensures !s.CanStart() && !s.RunEnabled()
  {
    TrimEmptyIffBlank(s.prompt);
  }

  /** A prompt with some visible character starts a request when none is loading. */
  lemma VisiblePromptAccepted(s: Session)
    requires !IsBlank(s.prompt) && !s.isLoading
    ensures s.CanStart()
  {
    TrimEmptyIffBlank(s.prompt);
  }
}
