/** The changeset that renames an Unreal Engine project: two INI settings that
    carry the new name, then the descriptor rename, then the root rename. */
module RenameProject {
  import opened Wrappers
  import opened Paths
  import opened FileSystem
  import opened Changes

  /** What the workflow knows when it builds the changeset. */
  datatype Context = Context(projectRoot: Path, projectName: string, newName: string)

  /** `<root>/<old>.uproject` becomes `<root>/<new>.uproject`. */
  function RenameProjectDescriptor(root: Path, oldName: string, newName: string): (c: Change)
    ensures c.RenameFile? && |c.from| == |c.to| == |root| + 1
    ensures c.from[..|root|] == root && c.to[..|root|] == root
  {
    RenameFile(WithExtension(root + [oldName], "uproject"), WithExtension(root + [newName], "uproject"))
  }

  /** `GameName` in section `URL` of `Config/DefaultEngine.ini`. */
  function AddGameNameToEngineConfig(root: Path, newName: string): (c: Change)
    ensures c.SetIniEntry? && c.value == newName
    ensures |c.path| == |root| + 2 && c.path[..|root|] == root
  {
    SetIniEntry(root + ["Config", "DefaultEngine.ini"], "URL", "GameName", newName)
  }

  /** `ProjectName` in the general project settings of `Config/DefaultGame.ini`. */
  function AddProjectNameToGameConfig(root: Path, newName: string): (c: Change)
    ensures c.SetIniEntry? && c.value == newName
    ensures |c.path| == |root| + 2 && c.path[..|root|] == root
  {
    SetIniEntry(root + ["Config", "DefaultGame.ini"],
                "/Script/EngineSettings.GeneralProjectSettings", "ProjectName", newName)
  }

  /** The root directory becomes its sibling named after the new name. */
  function RenameProjectRoot(root: Path, newName: string): (c: Change)
    ensures c.RenameFile? && c.from == root
    ensures c.to != [] && c.to[|c.to| - 1] == newName
  {
    RenameFile(root, WithFileName(root, newName))
  }

  /** `generate_changeset`: the two configuration changes, the descriptor
      rename, and last the root rename. */
  function GenerateChangeset(context: Context): (cs: seq<Change>)
    ensures |cs| == 4
    ensures cs[0].SetIniEntry? && cs[1].SetIniEntry? && cs[2].RenameFile? && cs[3].RenameFile?
    ensures cs[0].value == cs[1].value == context.newName
    ensures var root := context.projectRoot;
      && cs[0] == SetIniEntry(root + ["Config", "DefaultEngine.ini"], "URL", "GameName", context.newName)
      && cs[1] == SetIniEntry(root + ["Config", "DefaultGame.ini"],
                              "/Script/EngineSettings.GeneralProjectSettings", "ProjectName", context.newName)
      && cs[2] == RenameFile(WithExtension(root + [context.projectName], "uproject"),
                             WithExtension(root + [context.newName], "uproject"))
      && cs[3] == RenameFile(root, WithFileName(root, context.newName))
  {
    var root := context.projectRoot;
    [ AddGameNameToEngineConfig(root, context.newName),
      AddProjectNameToGameConfig(root, context.newName),
      RenameProjectDescriptor(root, context.projectName, context.newName),
      RenameProjectRoot(root, context.newName) ]
  }

  /** Every change but the last works on a path strictly inside the project
      root; the last moves the root itself to a sibling, which is apart from
      the root whenever the new name differs from the root's own name. */
  lemma ChangesetStaysInsideRoot(context: Context)
    requires FileName(context.projectRoot).Some?
    requires IsComponent(context.projectName) && IsComponent(context.newName)
    ensures var cs := GenerateChangeset(context);
      var root := context.projectRoot;
      && (forall i :: 0 <= i < 2 ==> root < cs[i].path)
      && root < cs[2].from && root < cs[2].to
      && cs[3].from == root
      && |cs[3].to| == |root| && cs[3].to[..|root| - 1] == root[..|root| - 1]
      && cs[3].to[|root| - 1] == context.newName
      && (context.newName != root[|root| - 1] ==> !(root <= cs[3].to) && !(cs[3].to <= root))
  {
    WithFileNameIsSibling(context.projectRoot, context.newName);
  }

  /** With plain names, the descriptor rename is exactly
      `<root>/<old>.uproject` to `<root>/<new>.uproject`. */
  lemma DescriptorRenameOfPlainNames(context: Context)
    requires context.projectName != "" && context.newName != ""
    requires forall j :: 0 <= j < |context.projectName| ==> context.projectName[j] != '.'
    requires forall j :: 0 <= j < |context.newName| ==> context.newName[j] != '.'
    ensures GenerateChangeset(context)[2]
         == RenameFile(context.projectRoot + [context.projectName + ".uproject"],
                       context.projectRoot + [context.newName + ".uproject"])
  {
    WithExtensionOfPlainName(context.projectRoot, context.projectName, "uproject");
    WithExtensionOfPlainName(context.projectRoot, context.newName, "uproject");
    assert context.projectName + "." + "uproject" == context.projectName + ".uproject";
    assert context.newName + "." + "uproject" == context.newName + ".uproject";
  }

  /** Why the root rename comes last: once the root has moved, each of the
      other three changes fails with `NotFound` on its own path. */
  lemma RootRenameMustComeLast(libs: Libs, s: State, context: Context, dir: Path, i: nat)
    requires FileName(context.projectRoot).Some? && i < 3
    requires IsComponent(context.projectName) && IsComponent(context.newName)
    requires Renaming(s, context.projectRoot, WithFileName(context.projectRoot, context.newName)).result.Ok?
    ensures var cs := GenerateChangeset(context);
      var moved := Renaming(s, context.projectRoot, WithFileName(context.projectRoot, context.newName)).after;
      ApplyEffect(libs, moved, cs[i], dir).result
        == Err(NotFound(if i < 2 then cs[i].path else cs[i].from))
  {
    var root := context.projectRoot;
    var cs := GenerateChangeset(context);
    var moved := Renaming(s, root, WithFileName(root, context.newName)).after;
    ChangesetStaysInsideRoot(context);
    RenameVacatesSource(s, root, WithFileName(root, context.newName));
    var p := if i < 2 then cs[i].path else cs[i].from;
    assert root <= p;
    assert !Occupied(moved.files, p) by {
      forall f | f in moved.files
        ensures !(p <= f)
      {
        assert p <= f ==> root <= f;
      }
    }
    MissingPathFails(libs, moved, cs[i], dir);
  }
}
