/** Paths as sequences of components, with the two `std::path` operations the
    changeset generators use: `with_extension` and `with_file_name`. */
module Paths {
  import opened Wrappers

  /** A path is the sequence of its components; `base + ["Config", "x.ini"]`
      is `base.join("Config/x.ini")`. A path lies below `dir` when `dir <= p`. */
  type Path = seq<string>

  /** A name that `Path::join` appends as exactly one ordinary component: not
      empty, not `.` or `..`, and without a separator. */
  predicate IsComponent(name: string) {
    && name != "" && name != "." && name != ".."
    && forall j :: 0 <= j < |name| ==> name[j] != '/' && name[j] != '\\'
  }

  /** Index of the last '.' in `s`, if any. */
  function LastDot(s: string): (r: Option<nat>)
    ensures r.Some? ==> r.value < |s| && s[r.value] == '.'
    ensures r.Some? ==> forall j :: r.value < j < |s| ==> s[j] != '.'
    ensures r.None? ==> forall j :: 0 <= j < |s| ==> s[j] != '.'
  {
    if s == [] then None
    else if s[|s| - 1] == '.' then Some(|s| - 1)
    else LastDot(s[..|s| - 1])
  }

  /** `Path::file_name`: the last component, absent for the empty path and for `..`. */
  function FileName(p: Path): Option<string> {
    if p == [] || p[|p| - 1] == ".." then None else Some(p[|p| - 1])
  }

  /** `Path::file_stem` of a file name: everything before the last '.', unless
      that dot is the first character (".bashrc" is its own stem). */
  function Stem(name: string): (r: string)
    ensures |r| <= |name| && r == name[..|r|]
  {
    if name == ".." then name
    else match LastDot(name)
      case None => name
      case Some(i) => if i == 0 then name else name[..i]
  }

  /** `Path::with_extension`: the file name's stem, then '.' and `ext` unless
      `ext` is empty; a path without a file name is returned unchanged. */
  function WithExtension(p: Path, ext: string): Path {
    match FileName(p)
    case None => p
    case Some(name) =>
      p[..|p| - 1] + [Stem(name) + (if ext == "" then "" else "." + ext)]
  }

  /** `Path::with_file_name`: replaces the file name, or appends `name` when
      there is none. */
  function WithFileName(p: Path, name: string): Path {
    match FileName(p)
    case None => p + [name]
    case Some(_) => p[..|p| - 1] + [name]
  }

  /** `with_extension` only rewrites the last component. */
  lemma WithExtensionKeepsParent(p: Path, ext: string)
    requires p != []
    ensures |WithExtension(p, ext)| == |p|
    ensures WithExtension(p, ext)[..|p| - 1] == p[..|p| - 1]
  {
  }

  /** A plain name (non-empty, no '.') gets `ext` appended as a new extension. */
  lemma WithExtensionOfPlainName(base: Path, name: string, ext: string)
    requires name != "" && ext != ""
    requires forall j :: 0 <= j < |name| ==> name[j] != '.'
    ensures WithExtension(base + [name], ext) == base + [name + "." + ext]
  {
    var p := base + [name];
    assert p[..|p| - 1] == base && p[|p| - 1] == name;
    assert name != ".." by { assert name[0] == '.' || name != ".."; }
    assert LastDot(name) == None;
    assert Stem(name) == name;
    assert FileName(p) == Some(name);
    assert name + "." + ext == name + ("." + ext);
  }

  /** A dotted name loses everything after its last '.': `with_extension`
      replaces an extension rather than adding one. */
  lemma WithExtensionOfDottedName(base: Path)
    ensures WithExtension(base + ["My.Game"], "uproject") == base + ["My.uproject"]
  {
    var p := base + ["My.Game"];
    assert p[..|p| - 1] == base && p[|p| - 1] == "My.Game";
    assert LastDot("My.Game") == Some(2) by {
      assert "My.Game"[..6] == "My.Gam";
      assert "My.Gam"[..5] == "My.Ga";
      assert "My.Ga"[..4] == "My.G";
      assert "My.G"[..3] == "My.";
      assert LastDot("My.") == Some(2);
      assert LastDot("My.G") == Some(2);
      assert LastDot("My.Ga") == Some(2);
      assert LastDot("My.Gam") == Some(2);
    }
    assert "My.Game" != ".." by { assert |"My.Game"| == 7; }
    assert "My.Game"[..2] == "My";
    assert Stem("My.Game") == "My";
    assert FileName(p) == Some("My.Game");
    assert "uproject" != "" && "." + "uproject" == ".uproject";
    assert WithExtension(p, "uproject") == base + [Stem("My.Game") + ".uproject"];
    assert "My" + ".uproject" == "My.uproject";
  }

  /** `with_file_name` on a path with a file name yields a sibling: same parent,
      new last component. It lies below `p` in no case but `name == p`'s own name. */
  lemma WithFileNameIsSibling(p: Path, name: string)
    requires FileName(p).Some?
    ensures var q := WithFileName(p, name);
      |q| == |p| && q[..|q| - 1] == p[..|p| - 1] && q[|q| - 1] == name
    ensures p <= WithFileName(p, name) <==> name == p[|p| - 1]
  {
    var q := WithFileName(p, name);
    if p <= q {
      assert q[|q| - 1] == p[|p| - 1];
    }
    if name == p[|p| - 1] {
      assert q == p;
    }
  }
}
