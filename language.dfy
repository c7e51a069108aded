/** `getLanguageFromExtension` of services/geminiService.ts. */
module Language {
  import opened JsStrings

  /**
   * `path.split('.').pop()?.toLowerCase()`: the lower-cased text after the
   * last `.`, or the whole lower-cased path when it has no `.`.
   */
  function Extension(path: string): (ext: string)
    ensures |ext| <= |path| && '.' !in ext
    ensures '.' !in path ==> ext == Lower(path)
  {
    Lower(LastSegment(path, '.'))
  }

  /** The seven extensions that have a language of their own. */
  predicate IsKnownExtension(ext: string)
  {
    ext in {"php", "html", "css", "js", "sql", "json", "md"}
  }

  /** The `switch (ext)` of `getLanguageFromExtension`. */
  function TagForExtension(ext: string): string
  {
    if ext == "php" then "php"
    else if ext == "html" then "html"
    else if ext == "css" then "css"
    else if ext == "js" then "javascript"
    else if ext == "sql" then "sql"
    else if ext == "json" then "json"
    else if ext == "md" then "markdown"
    else "plaintext"
  }

  /** The language tag of a path, decided by its extension alone. */
  function LanguageOf(path: string): string
  {
    TagForExtension(Extension(path))
  }

  /**
   * The lookup is total over eight tags, and a path is plain text exactly
   * when its extension is not one of the seven known ones.
   */
  lemma LanguageOfTags(path: string)
    ensures LanguageOf(path) in {"php", "html", "css", "javascript", "sql", "json", "markdown", "plaintext"}
    ensures LanguageOf(path) == "plaintext" <==> !IsKnownExtension(Extension(path))
  {
  }

  /** Two paths that differ only in letter case have the same extension. */
  lemma ExtensionCaseInsensitive(p: string, q: string)
    requires Lower(p) == Lower(q)
    ensures Extension(p) == Extension(q)
  {
    LowerLastSegment(p, '.');
    LowerLastSegment(q, '.');
  }

  /** Language derivation ignores letter case. */
  lemma LanguageCaseInsensitive(p: string, q: string)
    requires Lower(p) == Lower(q)
    ensures LanguageOf(p) == LanguageOf(q)
  {
    ExtensionCaseInsensitive(p, q);
  }

  /** Lower-casing a path first changes nothing: the derivation is idempotent in case. */
  lemma LanguageOfLowered(path: string)
    ensures Extension(Lower(path)) == Extension(path)
    ensures LanguageOf(Lower(path)) == LanguageOf(path)
  {
    assert Lower(Lower(path)) == Lower(path);
    ExtensionCaseInsensitive(Lower(path), path);
  }

  /** A path ending in `.` has the empty extension, hence plain text. */
  lemma TrailingDotIsPlaintext(path: string)
    requires |path| > 0 && path[|path| - 1] == '.'
    ensures Extension(path) == ""
    ensures LanguageOf(path) == "plaintext"
  {
    LastSegmentIs(path, '.', "");
  }

  /** A path without `.` is its own extension, lower-cased. */
  lemma LanguageWithoutDot(path: string, ext: string)
    requires '.' !in path && Lower(path) == ext
    ensures Extension(path) == ext
    ensures LanguageOf(path) == TagForExtension(ext)
  {
  }

  /** The whole path is the extension when it has no `.`: `md` is markdown. */
  lemma BareMdIsMarkdown(path: string)
    requires path == "md"
    ensures LanguageOf(path) == "markdown"
  {
    assert path[0] != '.' && path[1] != '.';
    assert Lower(path) == "md";
    LanguageWithoutDot(path, "md");
  }

  /** `readme` has no `.`, so it is its own extension and plain text. */
  lemma BareReadmeIsPlaintext(path: string)
    requires path == "readme"
    ensures LanguageOf(path) == "plaintext"
  {
    assert forall k :: 0 <= k < |path| ==> path[k] != '.';
    assert Lower(path) == "readme";
    LanguageWithoutDot(path, "readme");
  }

  /** The extension is the lower-cased text after the last `.`. */
  lemma ExtensionIs(path: string, tail: string, ext: string)
    requires TailAfterLast(path, '.', tail) && Lower(tail) == ext
    ensures Extension(path) == ext
  {
    LastSegmentIs(path, '.', tail);
  }

  /** The language of a path whose last `.` is at index `i`. */
  lemma LanguageAfterDot(path: string, i: nat, ext: string)
    requires i < |path| && path[i] == '.'
    requires forall k :: i < k < |path| ==> path[k] != '.'
    requires Lower(path[i + 1..]) == ext
    ensures Extension(path) == ext
    ensures LanguageOf(path) == TagForExtension(ext)
  {
    var tail := path[i + 1..];
    assert forall k :: 0 <= k < |tail| ==> tail[k] == path[i + 1 + k];
    assert TailAfterLast(path, '.', tail);
    ExtensionIs(path, tail, ext);
  }

  // The example lemmas below read as `LanguageOf("Config.PHP") == "php"`.
  // They take the path as a parameter fixed by `requires` instead of writing
  // the literal into the `ensures`, which keeps the solver from unfolding the
  // literal through every definition it reaches.

  /** Upper-case extensions are recognised: `Config.PHP` is PHP. */
  lemma UpperCasePhpExample(path: string)
    requires path == "Config.PHP"
    ensures LanguageOf(path) == "php"
  {
    assert Lower(path[7..]) == "php";
    LanguageAfterDot(path, 6, "php");
  }

  /** `styles.CSS` is CSS. */
  lemma UpperCaseCssExample(path: string)
    requires path == "styles.CSS"
    ensures LanguageOf(path) == "css"
  {
    assert Lower(path[7..]) == "css";
    LanguageAfterDot(path, 6, "css");
  }

  /** `schema.sql` is SQL. */
  lemma SqlExample(path: string)
    requires path == "schema.sql"
    ensures LanguageOf(path) == "sql"
  {
    assert Lower(path[7..]) == "sql";
    LanguageAfterDot(path, 6, "sql");
  }

  /** Only the text after the last `.` counts: `app.min.js` is JavaScript. */
  lemma LastDotExample(path: string)
    requires path == "app.min.js"
    ensures LanguageOf(path) == "javascript"
  {
    assert Lower(path[8..]) == "js";
    LanguageAfterDot(path, 7, "js");
  }
}
