/** Why reverting after `execute` puts the project back: every revert action
    undoes its change on any tree that differs from the one the change left
    only by extra backups, so unwinding the whole history, newest first,
    restores every file outside the backup directory, whether the run
    finished or stopped at a failure. This rests on the file-system model,
    where a write that fails leaves its file untouched; a real write that
    truncates and then fails part-way would damage the failing change's own
    file, which has no history entry and is not restored. */
module Rollback {
  import opened Wrappers
  import opened Paths
  import opened FileSystem
  import opened Changes
  import opened Engine

  /** Neither path lies at or below the other. */
  predicate Apart(a: Path, b: Path) {
    !(a <= b) && !(b <= a)
  }

  /** `t` holds every file of `s` with the same text, and whatever else it
      holds lies below `dir`. */
  ghost predicate Grows(t: map<Path, string>, s: map<Path, string>, dir: Path) {
    && (forall p :: p in s ==> p in t && t[p] == s[p])
    && (forall p :: p in t && p !in s ==> dir <= p)
  }

  /** `t` is `s` plus files below the backup directory `dir`. */
  ghost predicate Extends(t: State, s: State, dir: Path) {
    t.denied == s.denied && Grows(t.files, s.files, dir)
  }

  /** Every file below `dir` sits directly in it, named by the digest of its text. */
  ghost predicate BackupsOnly(libs: Libs, files: map<Path, string>, dir: Path) {
    forall p :: p in files && dir <= p ==> p == BackupPath(libs, dir, files[p])
  }

  /** Distinct texts have distinct digests. */
  ghost predicate Injective(digest: string -> string) {
    forall x, y :: digest(x) == digest(y) ==> x == y
  }

  /** A change keeps out of the backup directory: a rewritten file lies
      outside it, and a rename neither touches it nor moves anything into or
      out of it. */
  predicate Separate(c: Change, dir: Path) {
    if c.RenameFile? then Apart(c.from, dir) && Apart(c.to, dir)
    else !(dir <= c.path)
  }

  lemma GrowsTransitive(a: map<Path, string>, b: map<Path, string>, c: map<Path, string>, dir: Path)
    requires Grows(a, b, dir) && Grows(b, c, dir)
    ensures Grows(a, c, dir)
  {
  }

  /** Moving a subtree that is apart from the backup directory commutes with
      adding backups. */
  lemma MovedOfExtension(t: map<Path, string>, s: map<Path, string>, from: Path, to: Path, dir: Path)
    requires Grows(t, s, dir) && Apart(from, dir) && Apart(to, dir)
    ensures Grows(Moved(t, from, to), Moved(s, from, to), dir)
  {
    var mt, ms := Moved(t, from, to), Moved(s, from, to);
    forall q | q in ms
      ensures q in mt && mt[q] == ms[q]
    {
      MovedOrigin(s, from, to, q);
      ShiftedOrigin(s, from, to, q);
      ShiftedOrigin(t, from, to, q);
      if !(to <= q && from + q[|to|..] in s) {
        if to <= q && from + q[|to|..] in t {
          PrefixesComparable(from, dir, from + q[|to|..]);
          assert false;
        }
      }
    }
    forall q | q in mt && q !in ms
      ensures dir <= q
    {
      MovedOrigin(t, from, to, q);
      ShiftedOrigin(s, from, to, q);
      if to <= q && from + q[|to|..] in t {
        PrefixesComparable(from, dir, from + q[|to|..]);
        assert false;
      }
    }
  }

  /** A rename's inverse succeeds on any extension of the tree the rename
      left, and gives back an extension of the tree before it. */
  lemma RenameBackOnExtension(s: State, t: State, from: Path, to: Path, dir: Path)
    requires Renaming(s, from, to).result.Ok?
    requires Apart(from, dir) && Apart(to, dir)
    requires Extends(t, Renaming(s, from, to).after, dir)
    ensures Renaming(t, to, from).result.Ok?
    ensures Extends(Renaming(t, to, from).after, s, dir)
  {
    var moved := Renaming(s, from, to).after;
    RenameVacatesSource(s, from, to);
    var f :| f in moved.files && to <= f;
    assert f in t.files;
    if Occupied(t.files, from) {
      var g :| g in t.files && from <= g;
      if g !in moved.files {
        PrefixesComparable(from, dir, g);
      }
      assert false;
    }
    MovedOfExtension(t.files, moved.files, to, from, dir);
    MovedBack(s.files, from, to);
  }

  /** A restore from a backup succeeds on any extension of the tree the
      rewrite left, and gives back an extension of the tree before it. */
  lemma RestoreOnExtension(libs: Libs, s: State, t: State, c: Change, dir: Path)
    requires Injective(libs.digest) && BackupsOnly(libs, s.files, dir)
    requires !c.RenameFile? && !(dir <= c.path)
    requires ApplyEffect(libs, s, c, dir).result.Ok?
    requires Extends(t, ApplyEffect(libs, s, c, dir).after, dir)
    ensures var back := RevertEffect(t, ApplyEffect(libs, s, c, dir).result.value);
      back.result.Ok? && Extends(back.after, s, dir)
  {
    ApplyRewriteShape(libs, s, c, dir);
    var e := ApplyEffect(libs, s, c, dir);
    var content := s.files[c.path];
    var b := BackupPath(libs, dir, content);
    assert dir <= b;
    assert b != c.path;
    assert e.after.files[b] == content;
    if b in s.files {
      assert b == BackupPath(libs, dir, s.files[b]);
      assert b[|dir|] == libs.digest(content) == libs.digest(s.files[b]);
      assert libs.digest(s.files[b]) == libs.digest(content);
    }
    var back := RevertEffect(t, e.result.value);
    assert back.after.files == t.files[c.path := content];
  }

  /** Every revert action undoes its change on an extension of the tree the
      change left. */
  lemma RevertOnExtension(libs: Libs, s: State, t: State, c: Change, dir: Path)
    requires Injective(libs.digest) && BackupsOnly(libs, s.files, dir) && Separate(c, dir)
    requires ApplyEffect(libs, s, c, dir).result.Ok?
    requires Extends(t, ApplyEffect(libs, s, c, dir).after, dir)
    ensures var back := RevertEffect(t, ApplyEffect(libs, s, c, dir).result.value);
      back.result.Ok? && Extends(back.after, s, dir)
  {
    if c.RenameFile? {
      RenameBackOnExtension(s, t, c.from, c.to, dir);
    } else {
      RestoreOnExtension(libs, s, t, c, dir);
    }
  }

  /** A failed apply leaves at most a backup behind. */
  lemma FailedApplyExtends(libs: Libs, s: State, c: Change, dir: Path)
    requires Injective(libs.digest) && BackupsOnly(libs, s.files, dir) && Separate(c, dir)
    requires ApplyEffect(libs, s, c, dir).result.Err?
    ensures Extends(ApplyEffect(libs, s, c, dir).after, s, dir)
  {
    if !c.RenameFile? {
      ApplyFailureKeepsTarget(libs, s, c, dir);
      if c.path in s.files {
        var content := s.files[c.path];
        var b := BackupPath(libs, dir, content);
        if b in s.files {
          assert b == BackupPath(libs, dir, s.files[b]);
          assert b[|dir|] == libs.digest(content) == libs.digest(s.files[b]);
          assert libs.digest(s.files[b]) == libs.digest(content);
        }
      }
    }
  }

  /** Moving a subtree apart from the backup directory leaves every file
      there where it was. */
  lemma MovedKeepsBackupsOnly(libs: Libs, files: map<Path, string>, from: Path, to: Path, dir: Path)
    requires BackupsOnly(libs, files, dir) && Apart(from, dir) && Apart(to, dir)
    ensures BackupsOnly(libs, Moved(files, from, to), dir)
  {
    forall p | p in Moved(files, from, to) && dir <= p
      ensures p == BackupPath(libs, dir, Moved(files, from, to)[p])
    {
      MovedOrigin(files, from, to, p);
      if to <= p {
        PrefixesComparable(to, dir, p);
      }
    }
  }

  /** Applying a change that keeps out of the backup directory, successfully
      or not, keeps every file there a content-addressed backup. */
  lemma ApplyKeepsBackupsOnly(libs: Libs, s: State, c: Change, dir: Path)
    requires BackupsOnly(libs, s.files, dir) && Separate(c, dir)
    ensures BackupsOnly(libs, ApplyEffect(libs, s, c, dir).after.files, dir)
  {
    var e := ApplyEffect(libs, s, c, dir);
    if c.RenameFile? {
      if e.result.Ok? {
        RenamingSucceeded(s, c.from, c.to);
        MovedKeepsBackupsOnly(libs, s.files, c.from, c.to, dir);
      }
    } else if e.result.Ok? {
      ApplyRewriteShape(libs, s, c, dir);
    }
  }

  /** Executing changes that keep out of the backup directory keeps every
      file there a content-addressed backup. */
  lemma {:induction false} ExecutionKeepsBackupsOnly(libs: Libs, s: State, changes: seq<Change>, dir: Path)
    requires BackupsOnly(libs, s.files, dir)
    requires forall i :: 0 <= i < |changes| ==> Separate(changes[i], dir)
    ensures BackupsOnly(libs, Execution(Applying(libs, dir), s, changes).after.files, dir)
    decreases |changes|
  {
    if changes != [] {
      var init := changes[..|changes| - 1];
      ExecutionKeepsBackupsOnly(libs, s, init, dir);
      var prior := Execution(Applying(libs, dir), s, init);
      if prior.result.Ok? {
        ApplyKeepsBackupsOnly(libs, prior.after, changes[|changes| - 1], dir);
      }
    }
  }

  /** Unwinding the entries a run added, from any extension of the tree the
      run left, succeeds and gives back an extension of the tree the run
      started from. */
  lemma {:induction false} UnwindingRestores(libs: Libs, s: State, changes: seq<Change>, dir: Path, t: State)
    requires Injective(libs.digest) && BackupsOnly(libs, s.files, dir)
    requires forall i :: 0 <= i < |changes| ==> Separate(changes[i], dir)
    requires Extends(t, Execution(Applying(libs, dir), s, changes).after, dir)
    ensures var u := Unwinding(t, Execution(Applying(libs, dir), s, changes).added);
      u.result.Ok? && Extends(u.after, s, dir)
    decreases |changes|
  {
    var run := Execution(Applying(libs, dir), s, changes);
    if changes == [] {
      assert Unwinding(t, []) == Rollback(Ok(()), t, []);
    } else {
      var init := changes[..|changes| - 1];
      var last := changes[|changes| - 1];
      var prior := Execution(Applying(libs, dir), s, init);
      if prior.result.Err? {
        UnwindingRestores(libs, s, init, dir, t);
      } else {
        ExecutionKeepsBackupsOnly(libs, s, init, dir);
        var e := ApplyEffect(libs, prior.after, last, dir);
        if e.result.Err? {
          FailedApplyExtends(libs, prior.after, last, dir);
          GrowsTransitive(t.files, e.after.files, prior.after.files, dir);
          UnwindingRestores(libs, s, init, dir, t);
        } else {
          var entry := Entry(last, e.result.value);
          assert run.added == prior.added + [entry];
          UnwindingNewestFirst(t, prior.added, [entry]);
          UnwindingOne(t, entry);
          RevertOnExtension(libs, prior.after, t, last, dir);
          var back := RevertEffect(t, entry.revert);
          UnwindingRestores(libs, s, init, dir, back.after);
        }
      }
    }
  }

  /** The rollback guarantee: whether `execute` finished or stopped at a
      failing change, `revert` then succeeds and leaves every file outside
      the backup directory exactly as it was before `execute`, with the same
      text; what remains beyond that are backups. */
  lemma ExecuteThenRevertRestores(libs: Libs, s: State, changes: seq<Change>, dir: Path)
    requires Injective(libs.digest) && BackupsOnly(libs, s.files, dir)
    requires forall i :: 0 <= i < |changes| ==> Separate(changes[i], dir)
    ensures var run := Execution(Applying(libs, dir), s, changes);
      var u := Unwinding(run.after, run.added);
      && u.result.Ok?
      && u.remaining == []
      && u.after.denied == s.denied
      && (forall p :: p in s.files ==> p in u.after.files && u.after.files[p] == s.files[p])
      && (forall p :: p in u.after.files && !(dir <= p) ==> p in s.files)
  {
    var run := Execution(Applying(libs, dir), s, changes);
    UnwindingRestores(libs, s, changes, dir, run.after);
  }
}
