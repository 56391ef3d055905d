/** The four kinds of change, what applying each does to the file tree, and
    the inverse action each hands back. */
module Changes {
  import opened Wrappers
  import opened Paths
  import opened FileSystem
  import Ini

  /** One intended mutation of the project tree. */
  datatype Change =
    | RenameFile(from: Path, to: Path)
    | ReplaceInFile(path: Path, pattern: string, replacement: string)
    | SetIniEntry(path: Path, section: string, key: string, value: string)
    | AppendIniEntry(path: Path, section: string, key: string, value: string)

  /** The inverse action a successful apply hands back: move `current` back to
      `original`, or copy the `backup` file over `target`. */
  datatype Revert =
    | RenameBack(current: Path, original: Path)
    | RestoreFrom(backup: Path, target: Path)

  /** The `ini` crate's parse options. */
  datatype ParseOption = ParseOption(enabledEscape: bool, enabledQuote: bool)

  /** Both INI handlers parse with escapes and quotes off, so values are taken literally. */
  const LiteralValues := ParseOption(false, false)

  /** The library code the handlers call, whose internals are not modelled:
      the lowercase hex SHA-256 of a text, `Regex::replace_all` as
      (pattern, replacement template, haystack) to result, and INI parsing
      (failing on malformed text) and rendering. */
  datatype Libs = Libs(
    digest: string -> string,
    replaceAll: (string, string, string) -> string,
    parseIni: (string, ParseOption) -> Option<Ini.Document>,
    renderIni: Ini.Document -> string)

  /** Where a backup of `content` goes: named by the digest of the content alone. */
  function BackupPath(libs: Libs, dir: Path, content: string): (p: Path)
    ensures |p| == |dir| + 1 && p[..|dir|] == dir
  {
    dir + [libs.digest(content)]
  }

  /** `backup_file`: copies the file's text to its content-addressed path in
      `dir`. On success the backup holds exactly the file's text and nothing
      else changes; on failure nothing changes at all. */
  function BackupEffect(libs: Libs, s: State, file: Path, dir: Path): (e: Effect<Path>)
    ensures e.result.Ok? ==>
      && file in s.files
      && e.result.value == BackupPath(libs, dir, s.files[file])
      && e.after == s.(files := s.files[e.result.value := s.files[file]])
    ensures e.result.Err? ==> e.after == s
  {
    match Reading(s, file)
    case Err(err) => Effect(Err(err), s)
    case Ok(content) =>
      var path := BackupPath(libs, dir, content);
      var written := Writing(s, path, content);
      Effect(if written.result.Ok? then Ok(path) else Err(written.result.error), written.after)
  }

  /** The common shape of the three content-changing handlers: back the file
      up, read it, compute its new text with `edit`, write it back, and hand
      back a restore from the backup. */
  function RewriteEffect(libs: Libs, s: State, path: Path, dir: Path,
                         edit: string -> Result<string, IoError>): (e: Effect<Revert>)
    ensures e.after.denied == s.denied
    ensures e.result.Ok? ==> path in s.files
    ensures e.result.Ok? ==> e.result.value == RestoreFrom(BackupPath(libs, dir, s.files[path]), path)
  {
    var backup := BackupEffect(libs, s, path, dir);
    if backup.result.Err? then Effect(Err(backup.result.error), backup.after)
    else match Reading(backup.after, path)
      case Err(err) => Effect(Err(err), backup.after)
      case Ok(content) =>
        match edit(content)
        case Err(err) => Effect(Err(err), backup.after)
        case Ok(updated) =>
          var written := Writing(backup.after, path, updated);
          Effect(if written.result.Ok? then Ok(RestoreFrom(backup.result.value, path))
                 else Err(written.result.error),
                 written.after)
  }

  /** `replace_in_file`'s edit: every match in the whole text is replaced. */
  function ReplaceEdit(libs: Libs, pattern: string, replacement: string): string -> Result<string, IoError> {
    content => Ok(libs.replaceAll(pattern, replacement, content))
  }

  /** An INI edit: parse literally (a parse error becomes an error about
      `path`), update the document, render it. */
  function IniEdit(libs: Libs, path: Path, update: Ini.Document -> Ini.Document): string -> Result<string, IoError> {
    content =>
      match libs.parseIni(content, LiteralValues)
      case None => Err(Malformed(path))
      case Some(doc) => Ok(libs.renderIni(update(doc)))
  }

  function SetIniEdit(libs: Libs, path: Path, section: string, key: string, value: string): string -> Result<string, IoError> {
    IniEdit(libs, path, doc => Ini.SetEntry(doc, section, key, value))
  }

  function AppendIniEdit(libs: Libs, path: Path, section: string, key: string, value: string): string -> Result<string, IoError> {
    IniEdit(libs, path, doc => Ini.AppendThroughPlaceholder(doc, section, key, value))
  }

  /** `rename_file`: no backup; the inverse renames `to` back to `from`. */
  function RenameEffect(s: State, from: Path, to: Path): (e: Effect<Revert>)
    ensures e.result.Ok? ==> e.result.value == RenameBack(to, from)
    ensures e.after.denied == s.denied
    ensures e.result.Err? ==> e.after == s
  {
    var renamed := Renaming(s, from, to);
    Effect(if renamed.result.Ok? then Ok(RenameBack(to, from)) else Err(renamed.result.error),
           renamed.after)
  }

  /** `Change::apply`: each variant goes to its own handler. A rename hands
      back a rename of `to` to `from`; the other variants hand back a restore
      of their own file from a backup. */
  function ApplyEffect(libs: Libs, s: State, c: Change, dir: Path): (e: Effect<Revert>)
    ensures e.result.Ok? && c.RenameFile? ==> e.result.value == RenameBack(c.to, c.from)
    ensures e.result.Ok? && !c.RenameFile? ==>
      e.result.value.RestoreFrom? && e.result.value.target == c.path
  {
    match c
    case RenameFile(from, to) => RenameEffect(s, from, to)
    case ReplaceInFile(path, pattern, replacement) =>
      RewriteEffect(libs, s, path, dir, ReplaceEdit(libs, pattern, replacement))
    case SetIniEntry(path, section, key, value) =>
      RewriteEffect(libs, s, path, dir, SetIniEdit(libs, path, section, key, value))
    case AppendIniEntry(path, section, key, value) =>
      RewriteEffect(libs, s, path, dir, AppendIniEdit(libs, path, section, key, value))
  }

  /** Invoking a revert action: one rename, or one copy from the backup. */
  function RevertEffect(s: State, r: Revert): (e: Effect<()>)
    ensures e.after.denied == s.denied
    ensures e.result.Err? ==> e.after == s
  {
    match r
    case RenameBack(current, original) => Renaming(s, current, original)
    case RestoreFrom(backup, target) => Copying(s, backup, target)
  }

  /** The file a change rewrites in place (the renames have none). */
  function Target(c: Change): Path
    requires !c.RenameFile?
  {
    c.path
  }

  // ---------------------------------------------------------------------
  // Properties of the handlers

  /** Backing up the same file again, before anything else changes, gives the
      same path, succeeds, and changes nothing. */
  lemma BackupIdempotent(libs: Libs, s: State, file: Path, dir: Path)
    requires BackupEffect(libs, s, file, dir).result.Ok?
    ensures var first := BackupEffect(libs, s, file, dir);
      BackupEffect(libs, first.after, file, dir) == Effect(first.result, first.after)
  {
    var first := BackupEffect(libs, s, file, dir);
    var b := first.result.value;
    var content := s.files[file];
    assert first.after.files[file] == content;
    assert first.after.files[b := content] == first.after.files;
  }

  /** Two files with the same text are backed up to the same path. */
  lemma BackupPathDependsOnlyOnContent(libs: Libs, s: State, t: State, f: Path, g: Path, dir: Path)
    requires BackupEffect(libs, s, f, dir).result.Ok? && BackupEffect(libs, t, g, dir).result.Ok?
    requires s.files[f] == t.files[g]
    ensures BackupEffect(libs, s, f, dir).result == BackupEffect(libs, t, g, dir).result
  {
  }

  /** A successful rewrite wrote the backup of the original text, then only
      the target; the target was writable; the revert restores from that backup. */
  lemma RewriteShape(libs: Libs, s: State, path: Path, dir: Path, edit: string -> Result<string, IoError>)
    requires RewriteEffect(libs, s, path, dir, edit).result.Ok?
    ensures path in s.files && path !in s.denied
    ensures var e := RewriteEffect(libs, s, path, dir, edit);
      var b := BackupPath(libs, dir, s.files[path]);
      && e.result.value == RestoreFrom(b, path)
      && path in e.after.files
      && e.after == s.(files := s.files[b := s.files[path]][path := e.after.files[path]])
  {
  }

  /** A successful content-changing apply wrote the backup of the original
      text and then only its own file, which was writable; the revert it
      hands back restores that file from the backup. */
  lemma ApplyRewriteShape(libs: Libs, s: State, c: Change, dir: Path)
    requires !c.RenameFile? && ApplyEffect(libs, s, c, dir).result.Ok?
    ensures c.path in s.files && c.path !in s.denied
    ensures var e := ApplyEffect(libs, s, c, dir);
      var b := BackupPath(libs, dir, s.files[c.path]);
      && e.result.value == RestoreFrom(b, c.path)
      && c.path in e.after.files
      && e.after == s.(files := s.files[b := s.files[c.path]][c.path := e.after.files[c.path]])
  {
    match c
    case ReplaceInFile(path, pattern, replacement) =>
      RewriteShape(libs, s, path, dir, ReplaceEdit(libs, pattern, replacement));
    case SetIniEntry(path, section, key, value) =>
      RewriteShape(libs, s, path, dir, SetIniEdit(libs, path, section, key, value));
    case AppendIniEntry(path, section, key, value) =>
      RewriteShape(libs, s, path, dir, AppendIniEdit(libs, path, section, key, value));
  }

  /** A failed rewrite leaves the target as it was; at most the backup was written. */
  lemma RewriteFailureKeepsTarget(libs: Libs, s: State, path: Path, dir: Path, edit: string -> Result<string, IoError>)
    requires RewriteEffect(libs, s, path, dir, edit).result.Err?
    ensures var e := RewriteEffect(libs, s, path, dir, edit);
      && Reading(e.after, path) == Reading(s, path)
      && (e.after == s || (path in s.files &&
            e.after == s.(files := s.files[BackupPath(libs, dir, s.files[path]) := s.files[path]])))
  {
  }

  /** A change whose own path is missing fails with `NotFound` on that path:
      a rename finds nothing at `from`, the others fail reading for the backup. */
  lemma MissingPathFails(libs: Libs, s: State, c: Change, dir: Path)
    requires c.RenameFile? ==> !Occupied(s.files, c.from)
    requires !c.RenameFile? ==> !Occupied(s.files, c.path)
    ensures ApplyEffect(libs, s, c, dir).result == Err(NotFound(if c.RenameFile? then c.from else c.path))
  {
    if !c.RenameFile? {
      assert c.path <= c.path;
    }
  }

  /** The file a content-changing change rewrites is untouched when its apply
      fails, and the backup is all that may have been written. */
  lemma ApplyFailureKeepsTarget(libs: Libs, s: State, c: Change, dir: Path)
    requires !c.RenameFile? && ApplyEffect(libs, s, c, dir).result.Err?
    ensures var e := ApplyEffect(libs, s, c, dir);
      && Reading(e.after, c.path) == Reading(s, c.path)
      && (e.after == s || (c.path in s.files &&
            e.after == s.(files := s.files[BackupPath(libs, dir, s.files[c.path]) := s.files[c.path]])))
  {
    match c
    case ReplaceInFile(path, pattern, replacement) =>
      RewriteFailureKeepsTarget(libs, s, path, dir, ReplaceEdit(libs, pattern, replacement));
    case SetIniEntry(path, section, key, value) =>
      RewriteFailureKeepsTarget(libs, s, path, dir, SetIniEdit(libs, path, section, key, value));
    case AppendIniEntry(path, section, key, value) =>
      RewriteFailureKeepsTarget(libs, s, path, dir, AppendIniEdit(libs, path, section, key, value));
  }

  /** The text `ReplaceInFile` writes is the replacement of every match in the
      whole original text. */
  lemma ReplaceWritesReplacedText(libs: Libs, s: State, path: Path, pattern: string, replacement: string, dir: Path)
    requires ApplyEffect(libs, s, ReplaceInFile(path, pattern, replacement), dir).result.Ok?
    ensures path in s.files
    ensures ApplyEffect(libs, s, ReplaceInFile(path, pattern, replacement), dir).after.files[path]
         == libs.replaceAll(pattern, replacement, s.files[path])
  {
    RewriteShape(libs, s, path, dir, ReplaceEdit(libs, pattern, replacement));
  }

  /** The document `SetIniEntry` writes is the parsed original with the entry
      set; `AppendIniEntry` writes it with the entry appended through the placeholder. */
  lemma IniWritesUpdatedDocument(libs: Libs, s: State, c: Change, dir: Path)
    requires (c.SetIniEntry? || c.AppendIniEntry?) && ApplyEffect(libs, s, c, dir).result.Ok?
    ensures c.path in s.files
    ensures libs.parseIni(s.files[c.path], LiteralValues).Some?
    ensures var doc := libs.parseIni(s.files[c.path], LiteralValues).value;
      ApplyEffect(libs, s, c, dir).after.files[c.path]
        == libs.renderIni(if c.SetIniEntry? then Ini.SetEntry(doc, c.section, c.key, c.value)
                          else Ini.AppendThroughPlaceholder(doc, c.section, c.key, c.value))
  {
    if c.SetIniEntry? {
      RewriteShape(libs, s, c.path, dir, SetIniEdit(libs, c.path, c.section, c.key, c.value));
    } else {
      RewriteShape(libs, s, c.path, dir, AppendIniEdit(libs, c.path, c.section, c.key, c.value));
    }
  }

  /** Applying a change and then invoking the revert it handed back restores
      the tree: exactly for a rename, and for the other changes up to the
      backup file, which stays behind. The rewritten file must not be the
      backup itself. */
  lemma ApplyThenRevert(libs: Libs, s: State, c: Change, dir: Path)
    requires ApplyEffect(libs, s, c, dir).result.Ok?
    requires !c.RenameFile? ==> !(dir <= c.path)
    ensures var e := ApplyEffect(libs, s, c, dir);
      var back := RevertEffect(e.after, e.result.value);
      && back.result.Ok?
      && (c.RenameFile? ==> back.after == s)
      && (!c.RenameFile? ==>
            (c.path in s.files &&
             back.after == s.(files := s.files[BackupPath(libs, dir, s.files[c.path]) := s.files[c.path]])))
  {
    match c
    case RenameFile(from, to) =>
      RenameRoundTrip(s, from, to);
    case ReplaceInFile(path, pattern, replacement) =>
      RewriteRestores(libs, s, path, dir, ReplaceEdit(libs, pattern, replacement));
    case SetIniEntry(path, section, key, value) =>
      RewriteRestores(libs, s, path, dir, SetIniEdit(libs, path, section, key, value));
    case AppendIniEntry(path, section, key, value) =>
      RewriteRestores(libs, s, path, dir, AppendIniEdit(libs, path, section, key, value));
  }

  lemma RewriteRestores(libs: Libs, s: State, path: Path, dir: Path, edit: string -> Result<string, IoError>)
    requires RewriteEffect(libs, s, path, dir, edit).result.Ok?
    requires !(dir <= path)
    ensures path in s.files
    ensures var e := RewriteEffect(libs, s, path, dir, edit);
      RevertEffect(e.after, e.result.value)
        == Effect(Ok(()), s.(files := s.files[BackupPath(libs, dir, s.files[path]) := s.files[path]]))
  {
    RewriteShape(libs, s, path, dir, edit);
    var e := RewriteEffect(libs, s, path, dir, edit);
    var content := s.files[path];
    var b := BackupPath(libs, dir, content);
    assert dir <= b;
    assert b != path;
    assert e.after.files[b] == content;
    assert e.after.files[path := content] == s.files[b := content];
  }

  // ---------------------------------------------------------------------
  // The handlers, step by step against the live disk

  /** `backup_file`. */
  method BackupFile(fs: Disk, libs: Libs, file: Path, dir: Path) returns (r: Result<Path, IoError>)
    modifies fs
    ensures Effect(r, fs.Snapshot()) == BackupEffect(libs, old(fs.Snapshot()), file, dir)
  {
    var content :- fs.ReadToString(file);
    var path := BackupPath(libs, dir, content);
    var written := fs.Write(path, content);
    if written.Err? {
      return Err(written.error);
    }
    return Ok(path);
  }

  /** `rename_file`. */
  method ApplyRename(fs: Disk, from: Path, to: Path) returns (r: Result<Revert, IoError>)
    modifies fs
    ensures Effect(r, fs.Snapshot()) == RenameEffect(old(fs.Snapshot()), from, to)
  {
    var renamed := fs.Rename(from, to);
    if renamed.Err? {
      return Err(renamed.error);
    }
    return Ok(RenameBack(to, from));
  }

  /** `replace_in_file`. */
  method ApplyReplace(fs: Disk, libs: Libs, path: Path, pattern: string, replacement: string, dir: Path)
    returns (r: Result<Revert, IoError>)
    modifies fs
    ensures Effect(r, fs.Snapshot())
         == RewriteEffect(libs, old(fs.Snapshot()), path, dir, ReplaceEdit(libs, pattern, replacement))
  {
    var backup :- BackupFile(fs, libs, path, dir);
    var content :- fs.ReadToString(path);
    var updated := libs.replaceAll(pattern, replacement, content);
    var written := fs.Write(path, updated);
    if written.Err? {
      return Err(written.error);
    }
    return Ok(RestoreFrom(backup, path));
  }

  /** `set_ini_entry`. */
  method ApplySetIni(fs: Disk, libs: Libs, path: Path, section: string, key: string, value: string, dir: Path)
    returns (r: Result<Revert, IoError>)
    modifies fs
    ensures Effect(r, fs.Snapshot())
         == RewriteEffect(libs, old(fs.Snapshot()), path, dir, SetIniEdit(libs, path, section, key, value))
  {
    var backup :- BackupFile(fs, libs, path, dir);
    var content :- fs.ReadToString(path);
    var parsed := libs.parseIni(content, LiteralValues);
    if parsed.None? {
      return Err(Malformed(path));
    }
    var doc := parsed.value;
    doc := Ini.SetEntry(doc, section, key, value);
    var written := fs.Write(path, libs.renderIni(doc));
    if written.Err? {
      return Err(written.error);
    }
    return Ok(RestoreFrom(backup, path));
  }

  /** `append_ini_entry`. */
  method ApplyAppendIni(fs: Disk, libs: Libs, path: Path, section: string, key: string, value: string, dir: Path)
    returns (r: Result<Revert, IoError>)
    modifies fs
    ensures Effect(r, fs.Snapshot())
         == RewriteEffect(libs, old(fs.Snapshot()), path, dir, AppendIniEdit(libs, path, section, key, value))
  {
    var backup :- BackupFile(fs, libs, path, dir);
    var content :- fs.ReadToString(path);
    var parsed := libs.parseIni(content, LiteralValues);
    if parsed.None? {
      return Err(Malformed(path));
    }
    var doc := parsed.value;
    doc := Ini.SetEntry(doc, section, Ini.Placeholder, Ini.Placeholder);
    doc := Ini.AppendEntry(doc, section, key, value);
    doc := Ini.DeleteEntry(doc, section, Ini.Placeholder);
    var written := fs.Write(path, libs.renderIni(doc));
    if written.Err? {
      return Err(written.error);
    }
    return Ok(RestoreFrom(backup, path));
  }

  /** `Change::apply`. */
  method Apply(fs: Disk, libs: Libs, c: Change, dir: Path) returns (r: Result<Revert, IoError>)
    modifies fs
    ensures Effect(r, fs.Snapshot()) == ApplyEffect(libs, old(fs.Snapshot()), c, dir)
  {
    match c
    case RenameFile(from, to) =>
      r := ApplyRename(fs, from, to);
    case ReplaceInFile(path, pattern, replacement) =>
      r := ApplyReplace(fs, libs, path, pattern, replacement, dir);
    case SetIniEntry(path, section, key, value) =>
      r := ApplySetIni(fs, libs, path, section, key, value, dir);
    case AppendIniEntry(path, section, key, value) =>
      r := ApplyAppendIni(fs, libs, path, section, key, value, dir);
  }

  /** Calling a revert action. */
  method Invoke(fs: Disk, r: Revert) returns (res: Result<(), IoError>)
    modifies fs
    ensures Effect(res, fs.Snapshot()) == RevertEffect(old(fs.Snapshot()), r)
  {
    match r
    case RenameBack(current, original) =>
      res := fs.Rename(current, original);
    case RestoreFrom(backup, target) =>
      res := fs.Copy(backup, target);
  }
}
