/** Renaming a build target: the checks on the parameters, in their fixed
    order; deriving target names from the `Source` directory listing; and the
    control flow that executes the changeset and rolls it back on failure. */
module RenameTarget {
  import opened Wrappers
  import opened Paths
  import opened FileSystem
  import opened Changes
  import opened Engine
  import Rollback

  /** A build target: its name and its `<Name>.Target.cs` file. */
  datatype Target = Target(name: string, path: Path)

  /** Why the workflow stopped: a rejected parameter, with its message, or an
      I/O error. */
  datatype Failure = Invalid(message: string) | Io(error: IoError)

  /** The workflow's parameters. */
  datatype Params = Params(projectRoot: Path, target: string, newName: string)

  /** What the workflow knows once the parameters are valid. */
  datatype Context = Context(projectRoot: Path, projectTargets: seq<Target>, target: Target, newName: string)

  /** One entry of a directory listing: unreadable, a file name that is not
      valid Unicode, or a file name. */
  datatype DirEntry = Unreadable | NonUnicode | Named(fileName: string)

  /** What the filesystem-dependent checks observe: whether the root is a
      directory, whether listing the root found a `.uproject` file, whether
      `Source` is a directory, and the listing of `Source`. */
  datatype Probe = Probe(rootIsDir: bool, rootHasDescriptor: Result<bool, IoError>,
                         sourceIsDir: bool, sourceListing: Result<seq<DirEntry>, IoError>)

  const TargetSuffix := ".Target.cs"
  const NewNameMaxLen := 30

  // ---------------------------------------------------------------------
  // Whitespace and trimming

  /** The Unicode `White_Space` property, which `str::trim` strips. */
  predicate IsWhiteSpace(c: char) {
    || ('\U{0009}' <= c <= '\U{000D}') || c == ' ' || c == '\U{0085}' || c == '\U{00A0}'
    || c == '\U{1680}' || ('\U{2000}' <= c <= '\U{200A}') || c == '\U{2028}' || c == '\U{2029}'
    || c == '\U{202F}' || c == '\U{205F}' || c == '\U{3000}'
  }

  /** `str::trim_start`: drops leading whitespace; what is left is empty or
      starts with a character that is not whitespace. */
  function TrimStart(s: string): (r: string)
    ensures |r| <= |s| && r == s[|s| - |r|..]
    ensures forall i :: 0 <= i < |s| - |r| ==> IsWhiteSpace(s[i])
    ensures r != [] ==> !IsWhiteSpace(r[0])
  {
    if s != [] && IsWhiteSpace(s[0]) then TrimStart(s[1..]) else s
  }

  /** `str::trim_end`: drops trailing whitespace; what is left is empty or
      ends with a character that is not whitespace. */
  function TrimEnd(s: string): (r: string)
    ensures |r| <= |s| && r == s[..|r|]
    ensures forall i :: |r| <= i < |s| ==> IsWhiteSpace(s[i])
    ensures r != [] ==> !IsWhiteSpace(r[|r| - 1])
  {
    if s != [] && IsWhiteSpace(s[|s| - 1]) then TrimEnd(s[..|s| - 1]) else s
  }

  /** `str::trim`. */
  function Trim(s: string): string {
    TrimEnd(TrimStart(s))
  }

  /** A name trims to nothing exactly when every character is whitespace. */
  lemma TrimBlank(s: string)
    ensures Trim(s) == "" <==> forall i :: 0 <= i < |s| ==> IsWhiteSpace(s[i])
  {
    var t := TrimStart(s);
    if t != [] {
      assert !IsWhiteSpace(t[0]);
      assert t[0] == s[|s| - |t|];
    }
  }

  // ---------------------------------------------------------------------
  // UTF-8 length

  /** Bytes UTF-8 needs for one character. */
  function Utf8Width(c: char): nat {
    if c as int < 0x80 then 1
    else if c as int < 0x800 then 2
    else if c as int < 0x10000 then 3
    else 4
  }

  /** `str::len`: the length in UTF-8 bytes. */
  function Utf8Length(s: string): (n: nat)
    ensures |s| <= n <= 4 * |s|
  {
    if s == [] then 0 else Utf8Width(s[0]) + Utf8Length(s[1..])
  }

  /** For ASCII text bytes and characters agree. */
  lemma {:induction false} Utf8LengthOfAscii(s: string)
    requires forall i :: 0 <= i < |s| ==> s[i] as int < 0x80
    ensures Utf8Length(s) == |s|
  {
    if s != [] {
      Utf8LengthOfAscii(s[1..]);
    }
  }

  /** Characters from U+0080 to U+07FF take two bytes each. */
  lemma {:induction false} Utf8LengthOfTwoByte(s: string)
    requires forall i :: 0 <= i < |s| ==> 0x80 <= s[i] as int < 0x800
    ensures Utf8Length(s) == 2 * |s|
  {
    if s != [] {
      Utf8LengthOfTwoByte(s[1..]);
    }
  }

  // ---------------------------------------------------------------------
  // The validators

  /** ASCII letters, ASCII digits and `_`: the class `[_[[:alnum:]]]`. */
  predicate IsIdentifierChar(c: char) {
    ('a' <= c <= 'z') || ('A' <= c <= 'Z') || ('0' <= c <= '9') || c == '_'
  }

  /** Whether `^[_[[:alnum:]]]*$` matches `s`, scanning from the left. */
  function MatchesIdentifier(s: string): (b: bool)
    ensures b <==> forall i :: 0 <= i < |s| ==> IsIdentifierChar(s[i])
  {
    s == [] || (IsIdentifierChar(s[0]) && MatchesIdentifier(s[1..]))
  }

  /** `targets.iter().any(|t| t.name == name)`. */
  function AnyNamed(targets: seq<Target>, name: string): (b: bool)
    ensures b <==> exists i :: 0 <= i < |targets| && targets[i].name == name
  {
    targets != [] && (targets[0].name == name || AnyNamed(targets[1..], name))
  }

  /** `targets.iter().all(|t| t.name != name)`. */
  function NoneNamed(targets: seq<Target>, name: string): (b: bool)
    ensures b <==> forall i :: 0 <= i < |targets| ==> targets[i].name != name
  {
    targets == [] || (targets[0].name != name && NoneNamed(targets[1..], name))
  }

  function ValidateProjectRootIsDir(probe: Probe): (r: Result<(), Failure>)
    ensures r.Ok? <==> probe.rootIsDir
  {
    if probe.rootIsDir then Ok(()) else Err(Invalid("project root must be a directory"))
  }

  function ValidateProjectRootContainsProjectDescriptor(probe: Probe): (r: Result<(), Failure>)
    ensures r.Ok? <==> probe.rootHasDescriptor == Ok(true)
  {
    match probe.rootHasDescriptor
    case Err(e) => Err(Io(e))
    case Ok(found) => if found then Ok(()) else Err(Invalid("project root must contain a project descriptor"))
  }

  function ValidateProjectRootContainsSourceDir(probe: Probe): (r: Result<(), Failure>)
    ensures r.Ok? <==> probe.sourceIsDir
  {
    if probe.sourceIsDir then Ok(()) else Err(Invalid("project root must contain a Source folder"))
  }

  /** `validate_target_exists`: passes exactly when some target has the name. */
  function ValidateTargetExists(target: string, targets: seq<Target>): (r: Result<(), Failure>)
    ensures r.Ok? <==> exists i :: 0 <= i < |targets| && targets[i].name == target
    ensures r.Err? ==> r.error == Invalid("target must be part of project")
  {
    if AnyNamed(targets, target) then Ok(()) else Err(Invalid("target must be part of project"))
  }

  /** `validate_new_name_is_not_empty`: passes exactly when some character is
      not whitespace. */
  function ValidateNewNameIsNotEmpty(newName: string): (r: Result<(), Failure>)
    ensures r.Ok? <==> exists i :: 0 <= i < |newName| && !IsWhiteSpace(newName[i])
    ensures r.Err? ==> r.error == Invalid("new name must not be empty")
  {
    TrimBlank(newName);
    if Trim(newName) != "" then Ok(()) else Err(Invalid("new name must not be empty"))
  }

  /** `validate_new_name_is_concise`: at most 30 bytes of UTF-8. Names of up
      to 7 characters always pass; names over 30 characters never do. */
  function ValidateNewNameIsConcise(newName: string): (r: Result<(), Failure>)
    ensures r.Ok? <==> Utf8Length(newName) <= NewNameMaxLen
    ensures |newName| <= 7 ==> r.Ok?
    ensures |newName| > NewNameMaxLen ==> r.Err?
    ensures r.Err? ==> r.error == Invalid("new name must not be longer than 30 characters")
  {
    if Utf8Length(newName) <= NewNameMaxLen then Ok(())
    else Err(Invalid("new name must not be longer than 30 characters"))
  }

  /** `validate_new_name_is_unique`: passes exactly when no target has the name. */
  function ValidateNewNameIsUnique(newName: string, targets: seq<Target>): (r: Result<(), Failure>)
    ensures r.Ok? <==> forall i :: 0 <= i < |targets| ==> targets[i].name != newName
    ensures r.Err? ==> r.error == Invalid("new name must not conflict with another target")
  {
    if NoneNamed(targets, newName) then Ok(())
    else Err(Invalid("new name must not conflict with another target"))
  }

  /** `validate_new_name_is_valid_identifier`: passes exactly when every
      character is an ASCII letter, an ASCII digit or `_`; the empty name passes. */
  function ValidateNewNameIsValidIdentifier(newName: string): (r: Result<(), Failure>)
    ensures r.Ok? <==> forall i :: 0 <= i < |newName| ==> IsIdentifierChar(newName[i])
    ensures r.Err? ==> r.error == Invalid("new name must be comprised of alphanumeric characters and underscores only")
  {
    if MatchesIdentifier(newName) then Ok(())
    else Err(Invalid("new name must be comprised of alphanumeric characters and underscores only"))
  }

  /** Uniqueness and existence are complementary: a name is unique among the
      targets exactly when it is not an existing target's name. */
  lemma UniqueIffNotExisting(name: string, targets: seq<Target>)
    ensures ValidateNewNameIsUnique(name, targets).Ok? <==> ValidateTargetExists(name, targets).Err?
  {
  }

  /** For a name made of identifier characters, the byte limit is a
      character limit. */
  lemma ConciseIdentifier(newName: string)
    requires ValidateNewNameIsValidIdentifier(newName).Ok?
    ensures ValidateNewNameIsConcise(newName).Ok? <==> |newName| <= NewNameMaxLen
  {
    Utf8LengthOfAscii(newName);
  }

  /** The limit counts bytes, not characters: sixteen `é` are 32 bytes and
      fail, although they are only sixteen characters. */
  lemma ConciseCountsBytes()
    ensures |seq(16, _ => 'é')| <= NewNameMaxLen
    ensures ValidateNewNameIsConcise(seq(16, _ => 'é')).Err?
  {
    Utf8LengthOfTwoByte(seq(16, _ => 'é'));
  }

  // ---------------------------------------------------------------------
  // Target detection

  /** `str::strip_suffix`. */
  function StripSuffix(s: string, suffix: string): (r: Option<string>)
    ensures r.Some? ==> s == r.value + suffix
  {
    if |suffix| <= |s| && s[|s| - |suffix|..] == suffix then Some(s[..|s| - |suffix|]) else None
  }

  /** Stripping a suffix from a text that ends with it gives back the rest. */
  lemma StripSuffixOfAppended(prefix: string, suffix: string)
    ensures StripSuffix(prefix + suffix, suffix) == Some(prefix)
  {
    var s := prefix + suffix;
    assert s[|s| - |suffix|..] == suffix;
    assert s[..|s| - |suffix|] == prefix;
  }

  /** The target a listing entry names, if it is a readable, Unicode file
      name ending in `.Target.cs`. */
  function TargetName(entry: DirEntry): Option<string> {
    match entry
    case Named(fileName) => StripSuffix(fileName, TargetSuffix)
    case _ => None
  }

  /** The name-derivation part of `detect_project_targets`: one target per
      entry named `<Name>.Target.cs`, in listing order, at
      `Source/<Name>` with extension `Target.cs`. */
  function DetectedTargets(sourceDir: Path, entries: seq<DirEntry>): (ts: seq<Target>)
    ensures |ts| <= |entries|
    ensures forall i :: 0 <= i < |ts| ==> ts[i].path == WithExtension(sourceDir + [ts[i].name], "Target.cs")
  {
    if entries == [] then []
    else
      var rest := DetectedTargets(sourceDir, entries[1..]);
      match TargetName(entries[0])
      case None => rest
      case Some(name) => [Target(name, WithExtension(sourceDir + [name], "Target.cs"))] + rest
  }

  /** A name is detected exactly when the listing holds `<name>.Target.cs`. */
  lemma {:induction false} DetectedNames(sourceDir: Path, entries: seq<DirEntry>, name: string)
    ensures AnyNamed(DetectedTargets(sourceDir, entries), name) <==> Named(name + TargetSuffix) in entries
  {
    if entries != [] {
      DetectedNames(sourceDir, entries[1..], name);
      assert entries == [entries[0]] + entries[1..];
      var ts := DetectedTargets(sourceDir, entries);
      var rest := DetectedTargets(sourceDir, entries[1..]);
      match TargetName(entries[0])
      case None =>
        assert ts == rest;
        StripSuffixOfAppended(name, TargetSuffix);
      case Some(n) =>
        assert ts[0].name == n && ts[1..] == rest;
        assert AnyNamed(ts, name) <==> n == name || AnyNamed(rest, name);
        assert entries[0] == Named(n + TargetSuffix);
        assert n + TargetSuffix == name + TargetSuffix <==> n == name by {
          if n + TargetSuffix == name + TargetSuffix {
            assert n == (n + TargetSuffix)[..|n|];
            assert name == (name + TargetSuffix)[..|name|];
          }
        }
    }
  }

  /** A target detected from a plain name sits at `Source/<name>.Target.cs`,
      the entry it was derived from. */
  lemma DetectedPathOfPlainName(sourceDir: Path, name: string)
    requires name != "" && forall j :: 0 <= j < |name| ==> name[j] != '.'
    ensures WithExtension(sourceDir + [name], "Target.cs") == sourceDir + [name + TargetSuffix]
  {
    WithExtensionOfPlainName(sourceDir, name, "Target.cs");
    assert name + "." + "Target.cs" == name + TargetSuffix;
  }

  // ---------------------------------------------------------------------
  // Validation order

  /** The targets detected in `Source`, or none when it could not be listed. */
  function ListedTargets(params: Params, probe: Probe): seq<Target> {
    if probe.sourceListing.Ok? then DetectedTargets(params.projectRoot + ["Source"], probe.sourceListing.value)
    else []
  }

  /** The targets detection step on its own. */
  function DetectProjectTargets(params: Params, probe: Probe): (r: Result<seq<Target>, Failure>)
    ensures r.Ok? <==> probe.sourceListing.Ok?
    ensures r.Ok? ==> r.value == ListedTargets(params, probe)
  {
    match probe.sourceListing
    case Err(e) => Err(Io(e))
    case Ok(entries) => Ok(DetectedTargets(params.projectRoot + ["Source"], entries))
  }

  /** The number of checks `validate_params` runs. */
  const CheckCount := 9

  /** The outcome of check `k` on its own, numbered in the order
      `validate_params` runs them; the checks on names use the detected
      targets. */
  function Check(k: nat, params: Params, probe: Probe): Result<(), Failure> {
    var targets := ListedTargets(params, probe);
    if k == 0 then ValidateProjectRootIsDir(probe)
    else if k == 1 then ValidateProjectRootContainsProjectDescriptor(probe)
    else if k == 2 then ValidateProjectRootContainsSourceDir(probe)
    else if k == 3 then (if probe.sourceListing.Ok? then Ok(()) else Err(Io(probe.sourceListing.error)))
    else if k == 4 then ValidateTargetExists(params.target, targets)
    else if k == 5 then ValidateNewNameIsNotEmpty(params.newName)
    else if k == 6 then ValidateNewNameIsConcise(params.newName)
    else if k == 7 then ValidateNewNameIsUnique(params.newName, targets)
    else ValidateNewNameIsValidIdentifier(params.newName)
  }

  /** The checks from `k` onwards, in order, stopping at the first failure. */
  function ChecksFrom(checks: nat -> Result<(), Failure>, k: nat): Result<(), Failure>
    requires k <= CheckCount
    decreases CheckCount - k
  {
    if k == CheckCount then Ok(())
    else match checks(k)
      case Err(e) => Err(e)
      case Ok(_) => ChecksFrom(checks, k + 1)
  }

  /** `validate_params`: every check in turn, stopping at the first failure. */
  function ValidateParams(params: Params, probe: Probe): (r: Result<(), Failure>)
    ensures r.Ok? ==> probe.rootIsDir
    ensures !probe.rootIsDir ==> r == Err(Invalid("project root must be a directory"))
  {
    ChecksFrom((k: nat) => Check(k, params, probe), 0)
  }

  /** The first check that fails decides the error. */
  lemma {:induction false} ChecksFromReportsFirstFailure(checks: nat -> Result<(), Failure>, i: nat, k: nat)
    requires i <= k < CheckCount && checks(k).Err?
    requires forall j :: i <= j < k ==> checks(j).Ok?
    ensures ChecksFrom(checks, i) == checks(k)
    decreases k - i
  {
    if i < k {
      ChecksFromReportsFirstFailure(checks, i + 1, k);
    }
  }

  /** The checks from `i` on pass exactly when each of them does. */
  lemma {:induction false} ChecksFromPasses(checks: nat -> Result<(), Failure>, i: nat)
    requires i <= CheckCount
    ensures ChecksFrom(checks, i).Ok? <==> forall j :: i <= j < CheckCount ==> checks(j).Ok?
    decreases CheckCount - i
  {
    if i < CheckCount {
      ChecksFromPasses(checks, i + 1);
    }
  }

  /** The checks run in their fixed order and the first one that fails
      decides the error; the parameters pass exactly when every check does. */
  lemma ValidateParamsInOrder(params: Params, probe: Probe)
    ensures ValidateParams(params, probe).Ok? <==> forall k :: 0 <= k < CheckCount ==> Check(k, params, probe).Ok?
    ensures forall k :: 0 <= k < CheckCount && Check(k, params, probe).Err?
                        && (forall j :: 0 <= j < k ==> Check(j, params, probe).Ok?)
                        ==> ValidateParams(params, probe) == Check(k, params, probe)
  {
    var checks := (k: nat) => Check(k, params, probe);
    ChecksFromPasses(checks, 0);
    forall k | 0 <= k < CheckCount && Check(k, params, probe).Err?
               && (forall j :: 0 <= j < k ==> Check(j, params, probe).Ok?)
      ensures ValidateParams(params, probe) == Check(k, params, probe)
    {
      ChecksFromReportsFirstFailure(checks, 0, k);
    }
  }

  /** Valid parameters passed the listing and every check on the names. */
  lemma ValidParamsPassNameChecks(params: Params, probe: Probe)
    requires ValidateParams(params, probe).Ok?
    ensures probe.sourceListing.Ok?
    ensures var targets := ListedTargets(params, probe);
      && ValidateTargetExists(params.target, targets).Ok?
      && ValidateNewNameIsNotEmpty(params.newName).Ok?
      && ValidateNewNameIsConcise(params.newName).Ok?
      && ValidateNewNameIsUnique(params.newName, targets).Ok?
      && ValidateNewNameIsValidIdentifier(params.newName).Ok?
  {
    ValidateParamsInOrder(params, probe);
    assert Check(3, params, probe).Ok? && Check(4, params, probe).Ok? && Check(5, params, probe).Ok?;
    assert Check(6, params, probe).Ok? && Check(7, params, probe).Ok? && Check(8, params, probe).Ok?;
  }

  /** Valid parameters name an existing target and a new, different,
      non-blank identifier of at most 30 characters. */
  lemma ValidParamsMeaning(params: Params, probe: Probe)
    requires ValidateParams(params, probe).Ok?
    ensures probe.sourceListing.Ok?
    ensures Named(params.target + TargetSuffix) in probe.sourceListing.value
    ensures !(Named(params.newName + TargetSuffix) in probe.sourceListing.value)
    ensures params.newName != params.target
    ensures 0 < |params.newName| <= NewNameMaxLen
    ensures forall i :: 0 <= i < |params.newName| ==> IsIdentifierChar(params.newName[i])
  {
    ValidParamsPassNameChecks(params, probe);
    var sourceDir := params.projectRoot + ["Source"];
    var entries := probe.sourceListing.value;
    DetectedNames(sourceDir, entries, params.target);
    DetectedNames(sourceDir, entries, params.newName);
    ConciseIdentifier(params.newName);
  }

  // ---------------------------------------------------------------------
  // The workflow

  /** The first target with the given name. */
  function FindTarget(targets: seq<Target>, name: string): (r: Option<Target>)
    ensures r.Some? <==> AnyNamed(targets, name)
    ensures r.Some? ==> r.value in targets && r.value.name == name
  {
    if targets == [] then None
    else if targets[0].name == name then Some(targets[0])
    else FindTarget(targets[1..], name)
  }

  /** `gather_context`: detects the targets again and picks the one to
      rename, which the caller has made sure exists. */
  function GatherContext(params: Params, probe: Probe): (r: Result<Context, Failure>)
    requires probe.sourceListing.Ok? ==> AnyNamed(ListedTargets(params, probe), params.target)
    ensures r.Ok? <==> probe.sourceListing.Ok?
    ensures r.Ok? ==> r.value.target in r.value.projectTargets && r.value.target.name == params.target
  {
    var targets :- DetectProjectTargets(params, probe);
    var target := FindTarget(targets, params.target);
    Ok(Context(params.projectRoot, targets, target.value, params.newName))
  }

  /** Where backups go: `.renom/backup` under the project root. */
  function BackupDir(root: Path): Path {
    root + [".renom", "backup"]
  }

  /** What the workflow reports, and the tree it leaves. */
  datatype Outcome = Outcome(result: Result<(), Failure>, after: State)

  /** The execute-then-maybe-revert step: success when the changeset applied;
      after a failure the history is unwound, and the workflow still reports
      success unless the unwinding itself failed. */
  function ExecuteOrRollBack(libs: Libs, s: State, changes: seq<Change>, dir: Path): (o: Outcome)
    ensures o.result.Err? ==> o.result.error.Io?
  {
    var run := Execution(Applying(libs, dir), s, changes);
    if run.result.Ok? then Outcome(Ok(()), run.after)
    else
      var u := Unwinding(run.after, run.added);
      Outcome(if u.result.Ok? then Ok(()) else Err(Io(u.result.error)), u.after)
  }

  /** `rename_target` from start to end, for a given changeset generator. */
  function RenamingTarget(libs: Libs, s: State, params: Params, probe: Probe,
                          generate: Context -> seq<Change>): (o: Outcome)
    ensures ValidateParams(params, probe).Err? ==> o == Outcome(ValidateParams(params, probe), s)
    ensures o.result.Ok? ==> ValidateParams(params, probe).Ok?
  {
    match ValidateParams(params, probe)
    case Err(e) => Outcome(Err(e), s)
    case Ok(_) =>
      ValidParamsMeaning(params, probe);
      DetectedNames(params.projectRoot + ["Source"], probe.sourceListing.value, params.target);
      var context := GatherContext(params, probe).value;
      var dir := BackupDir(context.projectRoot);
      match CreatingDirs(s, dir)
      case Err(e) => Outcome(Err(Io(e)), s)
      case Ok(_) => ExecuteOrRollBack(libs, s, generate(context), dir)
  }

  /** The workflow reports an error after executing exactly when the
      unwinding failed, and then it reports the unwinding's error. */
  lemma ReportsOnlyRevertErrors(libs: Libs, s: State, changes: seq<Change>, dir: Path)
    ensures var run := Execution(Applying(libs, dir), s, changes);
      var u := Unwinding(run.after, run.added);
      var o := ExecuteOrRollBack(libs, s, changes, dir);
      && (o.result.Err? <==> run.result.Err? && u.result.Err?)
      && (o.result.Err? ==> o.result.error == Io(u.result.error) && o.after == u.after)
      && (run.result.Ok? ==> o == Outcome(Ok(()), run.after))
  {
  }

  /** A failed execution is rolled back and reported as success: when the
      changes keep out of the backup directory, the digest is injective and
      the backup directory holds only backups, the unwinding succeeds and
      every file outside the backup directory is back as it was. */
  lemma FailedExecutionIsRolledBack(libs: Libs, s: State, changes: seq<Change>, dir: Path)
    requires Rollback.Injective(libs.digest) && Rollback.BackupsOnly(libs, s.files, dir)
    requires forall i :: 0 <= i < |changes| ==> Rollback.Separate(changes[i], dir)
    requires Execution(Applying(libs, dir), s, changes).result.Err?
    ensures var o := ExecuteOrRollBack(libs, s, changes, dir);
      && o.result == Ok(())
      && (forall p :: p in s.files ==> p in o.after.files && o.after.files[p] == s.files[p])
      && (forall p :: p in o.after.files && !(dir <= p) ==> p in s.files)
  {
    Rollback.ExecuteThenRevertRestores(libs, s, changes, dir);
  }

  /** Lines 53-62 of `rename_target`: a fresh engine executes the changeset
      and, when that fails, reverts. */
  method ExecuteOrRollBackOn(fs: Disk, libs: Libs, changeset: seq<Change>, dir: Path)
    returns (r: Result<(), Failure>)
    modifies fs
    ensures Outcome(r, fs.Snapshot()) == ExecuteOrRollBack(libs, old(fs.Snapshot()), changeset, dir)
  {
    ghost var start := fs.Snapshot();
    var engine := new Engine();
    var executed := engine.Execute(fs, libs, changeset, dir);
    assert engine.history == Execution(Applying(libs, dir), start, changeset).added;
    if executed.Err? {
      var reverted := engine.Revert(fs);
      if reverted.Err? {
        return Err(Io(reverted.error));
      }
      return Ok(());
    }
    return Ok(());
  }

  /** `rename_target`. */
  method Run(fs: Disk, libs: Libs, params: Params, probe: Probe, generate: Context -> seq<Change>)
    returns (r: Result<(), Failure>)
    modifies fs
    ensures Outcome(r, fs.Snapshot()) == RenamingTarget(libs, old(fs.Snapshot()), params, probe, generate)
  {
    var valid := ValidateParams(params, probe);
    if valid.Err? {
      return Err(valid.error);
    }
    ValidParamsMeaning(params, probe);
    DetectedNames(params.projectRoot + ["Source"], probe.sourceListing.value, params.target);
    var context := GatherContext(params, probe).value;
    var changeset := generate(context);
    var dir := BackupDir(context.projectRoot);
    var created := fs.CreateDirAll(dir);
    if created.Err? {
      return Err(Io(created.error));
    }
    r := ExecuteOrRollBackOn(fs, libs, changeset, dir);
  }
}
