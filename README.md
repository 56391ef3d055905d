# Renom core in Dafny

Renom renames Unreal Engine projects and their build targets. Each rename
is built as a changeset. A changeset is a list of file renames, regex
replacements and INI edits. An engine applies the changeset one change at a
time and records, for each change that succeeded, an action that undoes
it. When a change fails, the workflow can unwind that history, newest
first.

This project models that core:

- `wrappers.dfy`: `Option` and `Result`.
- `paths.dfy`: paths as lists of components, with Rust's `with_extension`
  and `with_file_name`.
- `filesystem.dfy`: the `std::fs` calls the core makes, over a map from path
  to text. There are specification functions (`Reading`, `Writing`,
  `Renaming`, `Copying`, `CreatingDirs`) and a mutable `Disk` class whose
  methods are proved equal to them. Directories are implicit, and renaming
  a directory moves every file below it.
- `ini.dfy`: the `ini` crate's document as ordered sections of ordered,
  repeatable entries. It has `set`, `append` and `delete`, and the
  three-step placeholder append of `append_ini_entry`.
- `changes.dfy`: the `Change` enum and its four handlers, plus
  `backup_file`. Each handler has a specification function (`ApplyEffect`,
  `BackupEffect`, `RevertEffect`) and an imperative method proved against
  it. The revert closures become the datatype
  `Revert = RenameBack(current, original) | RestoreFrom(backup, target)`.
- `engine.dfy`: `Execution` and `Unwinding` specify `execute` and `revert`.
  `Execution` takes the apply step as a function (`Applying(libs, dir)` is
  `Change::apply`), so its properties hold for any apply step.
  The class `Engine` keeps its `history` field as a sequence, and its
  `Execute` and `Revert` loops are proved against those two functions.
- `rollback.dfy`: the theorem that ties the rest together. Take any
  changeset that stays out of the backup directory and a digest with no
  collisions. Run `execute`, whether it finishes or stops at a failure.
  `revert` then succeeds and leaves every original file with its original
  text. What remains beyond that are backups.
- `rename_project.dfy`: `generate_changeset` of the project rename, and why
  the root rename has to come last.
- `rename_target.dfy`: the parameter checks and their order, target-name
  derivation, and the execute-then-roll-back control flow of
  `rename_target`.

SHA-256, regex replacement and INI text parsing and rendering are not
modelled. They are function-typed fields of `Changes.Libs`, so every
property holds for any implementation of them. Where a property needs the
digest to be free of collisions, it says so with `Rollback.Injective`.

Where the code and the design notes disagree, the model follows the code:

- The notes say that after a failed revert, the failing entry is still in
  the history. The code pops the entry before invoking it (`src/engine.rs:52`),
  so the failing entry is gone. `Engine.Unwinding` and
  `Engine.Engine.Revert` follow the code.
- The notes list "`to` already exists" as a rename failure. The code never
  checks this. The model treats a rename onto an occupied path as an
  `AlreadyExists` failure. That matches `std::fs::rename` only for a
  non-empty target directory; for files the real call replaces the target
  (see `FileSystem.Renaming` under "## Left out").

Two details come from `with_extension`. For a name containing a dot, it
replaces the text after the last dot rather than adding an extension.
`Paths.WithExtensionOfDottedName` shows `My.Game` becoming `My.uproject`.
The descriptor and target paths are therefore exactly `<name>.uproject` and
`<name>.Target.cs` only for names without a dot
(`RenameProject.DescriptorRenameOfPlainNames`,
`RenameTarget.DetectedPathOfPlainName`).

## Model

| member | source | states |
|---|---|---|
| Paths.WithExtensionOfPlainName | src/workflows/rename_project/changeset.rs:32-33 | for a non-empty name without '.', `join(name).with_extension(ext)` is the sibling `name.ext` |
| Paths.WithExtensionOfDottedName | src/workflows/rename_project/changeset.rs:32 | `with_extension` replaces the text after the last '.': `My.Game` becomes `My.uproject` |
| Paths.WithExtensionKeepsParent | src/workflows/rename_target/mod.rs:183 | `with_extension` changes only the last component |
| Paths.WithFileNameIsSibling | src/workflows/rename_project/changeset.rs:58 | `with_file_name` gives a path with the same parent and the new last component; the result lies below the original only when the name is unchanged |
| FileSystem.Writing | src/changes/change.rs:56 | a write succeeds exactly on a path that is not denied; it then sets that file's text and keeps every other file |
| FileSystem.Renaming | src/changes/change.rs:36 | a rename never changes which paths are denied, and a failed rename changes nothing |
| FileSystem.Copying | src/changes/change.rs:60 | a copy succeeds exactly when the source exists and the destination is not denied; it then gives the destination the source's text and changes nothing else |
| FileSystem.CreatingDirs | src/workflows/rename_target/mod.rs:216 | creating the backup directory succeeds exactly when its path is not denied |
| FileSystem.Reading | src/changes/change.rs:49 | `read_to_string` succeeds exactly on an existing file and returns its text |
| FileSystem.RenamingSucceeded | src/changes/change.rs:36 | a rename succeeds only when there is a tree at `from`, neither end is denied, and `to` is free and outside `from`; it then moves the tree |
| FileSystem.MovedVacates | src/changes/change.rs:36 | after a move, a file can remain at or below `from` only if `to` lay at or below `from` or was already occupied |
| FileSystem.MovedVacatesSource | src/changes/change.rs:36 | moving a tree to a free place outside it vacates the source and occupies the target |
| FileSystem.RenameVacatesSource | src/changes/change.rs:36 | after a successful rename nothing is left at or below `from`, something is at `to`, and `to` is not above `from` |
| FileSystem.MovedShifted | src/changes/change.rs:36 | a file below `from` reappears at the same place below `to`, with the same text |
| FileSystem.MovedKept | src/changes/change.rs:36 | a file outside `from` and `to` keeps its place and text |
| FileSystem.MovedOrigin | src/changes/change.rs:36 | every file after a rename came from the tree before it |
| FileSystem.MovedBack | src/changes/change.rs:36-39 | moving a subtree back to a free source restores the tree exactly |
| FileSystem.RenameRoundTrip | src/changes/change.rs:36-39 | a successful rename followed by the reverse rename succeeds and restores the exact state |
| FileSystem.Disk.ReadToString | src/changes/change.rs:49 | reading the live disk returns what `Reading` says |
| FileSystem.Disk.Write | src/changes/change.rs:56 | writing replaces or creates the file, or fails with nothing changed |
| FileSystem.Disk.Rename | src/changes/change.rs:36 | the live rename does what `Renaming` says |
| FileSystem.Disk.Copy | src/changes/change.rs:60 | copy reads the source, then writes its text to the destination |
| FileSystem.Disk.CreateDirAll | src/workflows/rename_target/mod.rs:216 | creating the backup directory fails only on a denied path |
| Ini.Find | src/changes/change.rs:90 | sections are found by name, and the first one with that name is the one acted on |
| Ini.SetEntry | src/changes/change.rs:90 | after `with_section(..).set(..)` a section with the name exists |
| Ini.AppendEntry | src/changes/change.rs:127 | `append` adds the entry at the end of the first section with the name and leaves every other section as it was |
| Ini.DeleteEntry | src/changes/change.rs:128 | `delete` keeps the sections and their names, leaves sections with other names alone, and in the named sections keeps exactly the entries with other keys |
| Ini.AppendThroughPlaceholder | src/changes/change.rs:126-128 | the set-placeholder, append, delete-placeholder sequence leaves a section with the name |
| Ini.Without | src/changes/change.rs:128 | deleting a key keeps exactly the entries with other keys |
| Ini.WithSection | src/changes/change.rs:90 | `with_section` makes sure a section with that name exists |
| Ini.SetEntryEntries | src/changes/change.rs:90 | after `set`, the section holds its other entries in order, then `key = value` |
| Ini.SetEntryMeaning | src/changes/change.rs:90 | after `set`, `key` has the single value `value`; every other key keeps its values; only a missing section is added |
| Ini.SetEntryShape | src/changes/change.rs:90 | `set` adds a section only when none had the name and changes no other section |
| Ini.ValuesWithout | src/changes/change.rs:128 | deleting a key removes all of its values and no other key's |
| Ini.WithoutTwice | src/changes/change.rs:128 | deleting a key twice is deleting it once |
| Ini.AppendThenDelete | src/changes/change.rs:127-128 | appending then deleting another key leaves that key's removal and the appended entry at the end |
| Ini.AppendMeaning | src/changes/change.rs:126-128 | after the three steps, the section holds its entries without `dummy`, then the new entry, unless the key itself is `dummy` |
| Ini.AppendShape | src/changes/change.rs:126-128 | the append adds a section only when none had the name |
| Ini.AppendLeavesNoPlaceholder | src/changes/change.rs:126-128 | afterwards no section with that name holds a `dummy` key, even one that was there before |
| Ini.ValuesAfterAppend | src/changes/change.rs:126-128 | removing `dummy` and adding the new entry keeps every earlier value of the key and adds the new one last |
| Ini.AppendKeepsEarlierValues | src/changes/change.rs:127 | the append keeps every earlier value of the key and adds the new one last; other keys keep their values |
| Ini.SetVersusAppend | src/changes/change.rs:90-127 | on `[A] x=1`, set `x=2` leaves only `x=2`, while append leaves `x=1` and `x=2` |
| Changes.BackupPath | src/changes/change.rs:141-143 | a backup path is one component below the backup directory |
| Changes.RewriteEffect | src/changes/change.rs:46-61 | a rewrite never changes the denied paths, succeeds only on an existing file, and then hands back a copy from the backup of that file's original text |
| Changes.RenameEffect | src/changes/change.rs:32-40 | a successful rename hands back the reverse rename; a failed one changes nothing |
| Changes.RevertEffect | src/changes/change.rs:39-134 | a revert action never changes the denied paths, and a failed one changes nothing |
| Changes.BackupEffect | src/changes/change.rs:138-148 | a backup goes to `dir/digest(content)` and holds exactly the file's text, with nothing else changed; a failed backup changes nothing |
| Changes.BackupIdempotent | src/changes/change.rs:138-148 | backing up the same file again gives the same path, succeeds, and changes nothing |
| Changes.BackupPathDependsOnlyOnContent | src/changes/change.rs:141-142 | files with the same text get the same backup path |
| Changes.ApplyEffect | src/changes/change.rs:23-30 | a rename hands back the reverse rename; the other variants hand back a restore of their own file |
| Changes.RewriteShape | src/changes/change.rs:46-61 | a successful rewrite wrote the backup of the original text, then only the target, and its revert restores from that backup |
| Changes.ApplyRewriteShape | src/changes/change.rs:46-135 | the same, for each of the three content-changing variants through `apply` |
| Changes.RewriteFailureKeepsTarget | src/changes/change.rs:46-56 | a failed rewrite leaves the target unchanged; at most the backup was written |
| Changes.ApplyFailureKeepsTarget | src/changes/change.rs:46-130 | a failed replace or INI change leaves its file unchanged, and nothing but the backup may have been written |
| Changes.ReplaceWritesReplacedText | src/changes/change.rs:49-56 | the replace writes the result of replacing across the whole original text |
| Changes.IniWritesUpdatedDocument | src/changes/change.rs:77-130 | the INI changes parse literally (escapes and quotes off) and write the document with the entry set, or appended through the placeholder |
| Changes.MissingPathFails | src/changes/change.rs:36-140 | a change whose own path is missing fails with `NotFound` on that path |
| Changes.ApplyThenRevert | src/changes/change.rs:32-135 | apply followed by its revert succeeds and restores the tree: exactly for a rename, and up to the retained backup for the others |
| Changes.RewriteRestores | src/changes/change.rs:59-61 | restoring from the backup after a rewrite gives back the original text |
| Changes.BackupFile | src/changes/change.rs:138-148 | the imperative backup does what `BackupEffect` says |
| Changes.ApplyRename | src/changes/change.rs:32-40 | the rename handler does what `RenameEffect` says |
| Changes.ApplyReplace | src/changes/change.rs:42-62 | the replace handler: backup, read, replace, write, hand back a restore |
| Changes.ApplySetIni | src/changes/change.rs:64-98 | the set handler: backup, parse literally, set, write, hand back a restore |
| Changes.ApplyAppendIni | src/changes/change.rs:100-136 | the append handler: backup, parse literally, set `dummy`, append, delete `dummy`, write, hand back a restore |
| Changes.Apply | src/changes/change.rs:23-30 | `apply` sends each variant to its own handler |
| Changes.Invoke | src/changes/change.rs:39 | invoking a revert is one rename or one copy from the backup |
| Engine.Execution | src/engine.rs:20-45 | changes are applied in order, and the first failure ends the run; it records at most one entry per change and succeeds exactly when every change has its entry |
| Engine.Step | src/engine.rs:27-45 | after a failure nothing more happens; otherwise the run either keeps its history and fails, or grows it by exactly one entry for this change and succeeds |
| Engine.ExecutionRecordsInOrder | src/engine.rs:27-45 | the history records the changes that succeeded, in the order given |
| Engine.ExecutionStep | src/engine.rs:27-32 | the run of the first `i + 1` changes is one step on the run of the first `i`, and a failed prefix is the whole run |
| Engine.ExecutionStopsAtFailure | src/engine.rs:30 | once a prefix fails, later changes are never applied |
| Engine.ExecutionExtends | src/engine.rs:27-32 | a successful prefix runs the same way inside a longer changeset; the next change is applied to the tree it left, and on success its entry is appended at the end |
| Engine.ExecutionFailsAtFirstUnrecorded | src/engine.rs:27-45 | a failed run recorded exactly the changes before the failing one, and that change's apply failed from the tree they left |
| Engine.Unwinding | src/engine.rs:49-61 | unwinding pops the newest entry before invoking it; on success the history is empty; on failure only a strict prefix of older entries remains |
| Engine.UnwindingPops | src/engine.rs:52-56 | one step of `revert` pops the newest entry, then invokes it; a failure ends the unwinding without that entry |
| Engine.UnwindingNewestFirst | src/engine.rs:52-56 | the newer part of the history is undone completely before anything older is touched |
| Engine.UnwindingOne | src/engine.rs:52-56 | unwinding one entry is invoking its revert action |
| Engine.Engine.constructor | src/engine.rs:13-15 | a new engine has an empty history |
| Engine.Engine.ExecuteSingle | src/engine.rs:37-45 | one apply; on success exactly one entry is pushed at the end, and on failure the history is unchanged |
| Engine.Engine.Execute | src/engine.rs:20-35 | the loop leaves the result, the tree and the history `Execution` describes; the history grows only at the end |
| Engine.Engine.Revert | src/engine.rs:49-61 | the loop leaves the result, the tree and the remaining history `Unwinding` describes |
| Rollback.MovedOfExtension | src/changes/change.rs:36 | a rename apart from the backup directory is not disturbed by extra backups |
| Rollback.RenameBackOnExtension | src/changes/change.rs:39 | the reverse rename still succeeds after later backups were added, and restores the tree before the rename |
| Rollback.RestoreOnExtension | src/changes/change.rs:59-61 | restoring from a content-addressed backup still succeeds after later backups, and restores the original text |
| Rollback.RevertOnExtension | src/changes/change.rs:39-135 | every revert action undoes its change on any tree that differs from the one the change left only by backups |
| Rollback.FailedApplyExtends | src/changes/change.rs:46-130 | a failed apply leaves at most a correct backup behind |
| Rollback.MovedKeepsBackupsOnly | src/changes/change.rs:36 | a rename apart from the backup directory leaves every backup in place |
| Rollback.ApplyKeepsBackupsOnly | src/changes/change.rs:138-148 | after each apply, every file in the backup directory is named by the digest of its text |
| Rollback.ExecutionKeepsBackupsOnly | src/engine.rs:27-32 | the same holds after a whole run |
| Rollback.UnwindingRestores | src/engine.rs:49-61 | unwinding a run's entries from any backup-only extension of its final tree succeeds and restores the starting tree up to backups |
| Rollback.ExecuteThenRevertRestores | src/engine.rs:20-61 | `execute`, finished or failed, followed by `revert` succeeds, empties the history, and restores every original file; anything new is a backup |
| RenameProject.GenerateChangeset | src/workflows/rename_project/changeset.rs:9-28 | exactly four changes, in order: `GameName` in section `URL` of `Config/DefaultEngine.ini`, `ProjectName` in section `/Script/EngineSettings.GeneralProjectSettings` of `Config/DefaultGame.ini`, both set to the new name, then the descriptor rename and the root rename |
| RenameProject.RenameProjectDescriptor | src/workflows/rename_project/changeset.rs:30-35 | the descriptor rename moves one entry directly inside the root to another entry directly inside it |
| RenameProject.AddGameNameToEngineConfig | src/workflows/rename_project/changeset.rs:37-44 | an INI set of the new name on a file two levels below the root |
| RenameProject.AddProjectNameToGameConfig | src/workflows/rename_project/changeset.rs:46-53 | an INI set of the new name on a file two levels below the root |
| RenameProject.RenameProjectRoot | src/workflows/rename_project/changeset.rs:55-60 | a rename of the root itself to a path whose last component is the new name |
| RenameProject.ChangesetStaysInsideRoot | src/workflows/rename_project/changeset.rs:30-60 | for names that are single ordinary path components, the first three changes work strictly inside the project root; the last moves the root to a sibling named after the new name |
| RenameProject.DescriptorRenameOfPlainNames | src/workflows/rename_project/changeset.rs:30-35 | with plain names the descriptor rename is `<root>/<old>.uproject` to `<root>/<new>.uproject` |
| RenameProject.RootRenameMustComeLast | src/workflows/rename_project/changeset.rs:27 | once the root has moved, each of the other three changes fails with `NotFound`, so the root rename must come last |
| RenameTarget.TrimStart | src/workflows/rename_target/mod.rs:124 | trimming drops exactly the leading whitespace |
| RenameTarget.TrimEnd | src/workflows/rename_target/mod.rs:124 | trimming drops exactly the trailing whitespace |
| RenameTarget.TrimBlank | src/workflows/rename_target/mod.rs:124 | a name trims to nothing exactly when it is all whitespace |
| RenameTarget.Utf8Length | src/workflows/rename_target/mod.rs:132 | a string's byte length is between one and four bytes per character |
| RenameTarget.Utf8LengthOfAscii | src/workflows/rename_target/mod.rs:132 | for ASCII text the byte length is the character count |
| RenameTarget.MatchesIdentifier | src/workflows/rename_target/mod.rs:155-156 | the identifier pattern matches exactly when every character is an ASCII letter, an ASCII digit or `_` |
| RenameTarget.AnyNamed | src/workflows/rename_target/mod.rs:117 | `any` holds exactly when some target has the name |
| RenameTarget.NoneNamed | src/workflows/rename_target/mod.rs:145 | `all` holds exactly when no target has the name |
| RenameTarget.ValidateProjectRootIsDir | src/workflows/rename_target/mod.rs:90-95 | the check passes exactly when the root is a directory |
| RenameTarget.ValidateProjectRootContainsProjectDescriptor | src/workflows/rename_target/mod.rs:97-107 | the check passes exactly when listing the root found a `.uproject` file |
| RenameTarget.ValidateProjectRootContainsSourceDir | src/workflows/rename_target/mod.rs:109-114 | the check passes exactly when `Source` is a directory |
| RenameTarget.ValidateTargetExists | src/workflows/rename_target/mod.rs:116-121 | the check passes exactly when some target has the given name |
| RenameTarget.ValidateNewNameIsNotEmpty | src/workflows/rename_target/mod.rs:123-128 | the check passes exactly when some character is not whitespace |
| RenameTarget.ValidateNewNameIsConcise | src/workflows/rename_target/mod.rs:130-142 | passes exactly when the name is at most 30 bytes of UTF-8; so names of up to 7 characters always pass, and names over 30 characters never do |
| RenameTarget.Utf8LengthOfTwoByte | src/workflows/rename_target/mod.rs:132 | characters from U+0080 to U+07FF count two bytes each |
| RenameTarget.ConciseCountsBytes | src/workflows/rename_target/mod.rs:130-142 | sixteen `é` are sixteen characters but 32 bytes, and fail the check |
| RenameTarget.ValidateNewNameIsUnique | src/workflows/rename_target/mod.rs:144-152 | the check passes exactly when no target has the new name |
| RenameTarget.ValidateNewNameIsValidIdentifier | src/workflows/rename_target/mod.rs:154-164 | the check passes exactly when every character is an ASCII letter, an ASCII digit or `_`; the empty name passes |
| RenameTarget.UniqueIffNotExisting | src/workflows/rename_target/mod.rs:116-152 | a name is unique exactly when it is not an existing target's name |
| RenameTarget.ConciseIdentifier | src/workflows/rename_target/mod.rs:130-164 | for identifier names, the byte limit is a limit of 30 characters |
| RenameTarget.StripSuffix | src/workflows/rename_target/mod.rs:178 | a stripped name followed by the suffix gives back the file name |
| RenameTarget.StripSuffixOfAppended | src/workflows/rename_target/mod.rs:178 | stripping the suffix from `name + suffix` gives back `name` |
| RenameTarget.DetectedTargets | src/workflows/rename_target/mod.rs:170-185 | at most one target per entry, each at `Source/<name>` with extension `Target.cs` |
| RenameTarget.DetectedNames | src/workflows/rename_target/mod.rs:173-180 | a name is detected exactly when the listing holds `<name>.Target.cs`; other entries are ignored |
| RenameTarget.DetectedPathOfPlainName | src/workflows/rename_target/mod.rs:183 | for a plain name, the target's path is the entry it came from |
| RenameTarget.DetectProjectTargets | src/workflows/rename_target/mod.rs:166-188 | detection fails exactly when `Source` cannot be listed |
| RenameTarget.ChecksFromReportsFirstFailure | src/workflows/rename_target/mod.rs:65-88 | a `?` chain returns the error of the first check that fails |
| RenameTarget.ChecksFromPasses | src/workflows/rename_target/mod.rs:65-88 | a `?` chain passes exactly when every check passes |
| RenameTarget.ValidateParamsInOrder | src/workflows/rename_target/mod.rs:65-88 | `validate_params` runs its nine checks in order, returns the first failure, and passes exactly when all do |
| RenameTarget.ValidateParams | src/workflows/rename_target/mod.rs:65-88 | valid parameters have a directory as root; otherwise the root check's error is the result |
| RenameTarget.ValidParamsPassNameChecks | src/workflows/rename_target/mod.rs:74-85 | valid parameters passed the listing and every check on the names |
| RenameTarget.ValidParamsMeaning | src/workflows/rename_target/mod.rs:65-88 | valid parameters name a listed target and a new, different, non-blank identifier of at most 30 characters that is not listed |
| RenameTarget.FindTarget | src/workflows/rename_target/mod.rs:197-201 | finds a target with the name exactly when one exists |
| RenameTarget.GatherContext | src/workflows/rename_target/mod.rs:190-211 | the context's target is one of its targets, with the requested name |
| RenameTarget.ExecuteOrRollBack | src/workflows/rename_target/mod.rs:53-62 | after executing, the workflow reports only I/O errors |
| RenameTarget.ReportsOnlyRevertErrors | src/workflows/rename_target/mod.rs:54-58 | the workflow reports an error exactly when execution failed and the revert failed too, and then it reports the revert's error |
| RenameTarget.FailedExecutionIsRolledBack | src/workflows/rename_target/mod.rs:54-58 | a failed execution is rolled back completely and reported as `Ok(())` |
| RenameTarget.ExecuteOrRollBackOn | src/workflows/rename_target/mod.rs:53-62 | a fresh engine executes and, on failure, reverts, as `ExecuteOrRollBack` says |
| RenameTarget.RenamingTarget | src/workflows/rename_target/mod.rs:48-63 | invalid parameters are reported with the validation error and change nothing; success implies the parameters were valid |
| RenameTarget.Run | src/workflows/rename_target/mod.rs:48-63 | `rename_target` validates, gathers the context, creates the backup directory, then executes or rolls back |

## Left out

- Logging (`log::*`, the success and failure messages) is not modelled. It
  has no effect on files or results.
- The `num_replacements` size figure of `replace_in_file` is not modelled,
  because it is only logged.
- SHA-256 and hex formatting, regex matching and replacement templates, and
  INI text parsing and rendering are not modelled. They are uninterpreted
  fields of `Changes.Libs`. The `expect` on an invalid regex is not modelled
  either.
- Real I/O is modelled only as the deterministic failures of `FileSystem`:
  missing paths, denied paths, and renames into the source's own subtree or
  onto an occupied path. Cross-device errors, partial writes and
  concurrency are not modelled. Directories are implicit, so an empty
  directory cannot be represented.
- Errors are kept as `IoError` values. Their conversion to `String` is not
  modelled.
- RenameTarget.ValidateProjectRootIsDir, ValidateProjectRootContainsProjectDescriptor and ValidateProjectRootContainsSourceDir: the directory tests and the root listing are not modelled. Their outcomes are inputs in `Probe`.
- RenameTarget.DetectProjectTargets: the listing of `Source` is an input in `Probe`. The `assert!` that `Source` is a directory is not modelled. `gather_context` reuses the same listing rather than reading the directory a second time.
- RenameTarget.GatherContext: the `unwrap` becomes a precondition that the target is listed, which validation guarantees.
- RenameTarget.Run: the target-rename changeset is a parameter, because the target-rename changeset generator is not part of this model.
- Rollback.ExecuteThenRevertRestores: it requires that the digest has no collisions (`Injective`), that every change's paths lie apart from the backup directory (`Separate`), and that the starting tree holds only correct backups inside it (`BackupsOnly`). The project-rename changeset breaks `Separate`, because its root rename moves the backup directory. There is no rollback theorem for that changeset; `RenameProject.RootRenameMustComeLast` only shows why its order matters, and says nothing about reverting it.
- FileSystem.Renaming: two differences from `std::fs::rename`. A rename onto an existing file fails with `AlreadyExists` in the model, while the real call replaces that file. And `rename(p, p)` fails with `InvalidRename`, because `p` lies at or below itself, while the real call does nothing and succeeds. The rollback theorem therefore does not cover a rename onto an existing file.
- Rollback.FailedApplyExtends: it assumes a failed write leaves its target unchanged. `std::fs::write` and `write_to_file` truncate the file first, so a write that fails part-way damages the target of the failing change. That change has no history entry and is never reverted.
- RenameTarget.FailedExecutionIsRolledBack: it inherits the assumption above. After a write that fails part-way, the rollback restores every earlier change but not the file the failing change was writing.
- Paths: every name is one whole component. An empty name, `.`, `..` or a name containing a separator behaves differently in Rust (`join("")` adds a trailing separator; `with_file_name("")` drops the last component; a separator adds further components). `RenameProject.ChangesetStaysInsideRoot` and `RenameProject.RootRenameMustComeLast` therefore require `Paths.IsComponent` of both names.
- The interactive flows, the command-line parsing and the program entry
  point are not modelled.
