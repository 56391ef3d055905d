/** The part of `std::fs` the core calls (`read_to_string`, `write`, `rename`,
    `copy`, `create_dir_all`), over an abstract tree of files.

    A state maps each file's path to its text. Directories are implicit: a
    path is occupied when some file lies at or below it, and renaming a
    directory moves every file below it. Writes to a path in `denied` fail
    with a permission error; that set never changes. */
module FileSystem {
  import opened Wrappers
  import opened Paths

  datatype IoError =
    | NotFound(path: Path)
    | PermissionDenied(path: Path)
    | AlreadyExists(path: Path)
    | InvalidRename(from: Path, to: Path)
    | Malformed(path: Path)

  datatype State = State(files: map<Path, string>, denied: set<Path>)

  /** What an operation returns together with the state it leaves behind. */
  datatype Effect<T> = Effect(result: Result<T, IoError>, after: State)

  /** Some file lies at or below `p`. */
  predicate Occupied(files: map<Path, string>, p: Path) {
    exists f :: f in files && p <= f
  }

  /** The file tree after moving everything at or below `from` to `to`. */
  function Moved(files: map<Path, string>, from: Path, to: Path): map<Path, string> {
    (map p | p in files && !(from <= p) :: files[p]) + Shifted(files, from, to)
  }

  /** The files at or below `from`, re-rooted at `to`. */
  function Shifted(files: map<Path, string>, from: Path, to: Path): map<Path, string> {
    SuffixDeterminesPath(from, to);
    map p | p in files && from <= p :: to + p[|from|..] := files[p]
  }

  /** Below `from`, a path is determined by what follows `from`. */
  lemma SuffixDeterminesPath(from: Path, to: Path)
    ensures forall p: Path, q: Path {:trigger to + p[|from|..], to + q[|from|..]} ::
      from <= p && from <= q && to + p[|from|..] == to + q[|from|..] ==> p == q
  {
    forall p: Path, q: Path | from <= p && from <= q && to + p[|from|..] == to + q[|from|..]
      ensures p == q
    {
      assert p[|from|..] == (to + p[|from|..])[|to|..];
      assert q[|from|..] == (to + q[|from|..])[|to|..];
      assert p == from + p[|from|..];
      assert q == from + q[|from|..];
    }
  }

  /** `std::fs::read_to_string`. */
  function Reading(s: State, p: Path): (r: Result<string, IoError>)
    ensures r.Ok? <==> p in s.files
    ensures r.Ok? ==> r.value == s.files[p]
  {
    if p in s.files then Ok(s.files[p]) else Err(NotFound(p))
  }

  /** `std::fs::write`: creates or truncates the file, unless `p` is denied. */
  function Writing(s: State, p: Path, content: string): (e: Effect<()>)
    ensures e.after.denied == s.denied
    ensures e.result.Ok? <==> p !in s.denied
    ensures e.result.Ok? ==> p in e.after.files && e.after.files[p] == content
    ensures e.result.Ok? ==> forall q :: q in s.files && q != p ==> q in e.after.files && e.after.files[q] == s.files[q]
    ensures e.result.Ok? ==> forall q :: q in e.after.files ==> q in s.files || q == p
    ensures e.result.Err? ==> e.after == s
  {
    if p in s.denied then Effect(Err(PermissionDenied(p)), s)
    else Effect(Ok(()), s.(files := s.files[p := content]))
  }

  /** `std::fs::rename` of a file or a directory. Fails when nothing is at
      `from`, either end is denied, `to` lies below `from`, or `to` is
      already occupied. */
  function Renaming(s: State, from: Path, to: Path): (e: Effect<()>)
    ensures e.after.denied == s.denied
    ensures e.result.Err? ==> e.after == s
  {
    if !Occupied(s.files, from) then Effect(Err(NotFound(from)), s)
    else if from in s.denied then Effect(Err(PermissionDenied(from)), s)
    else if to in s.denied then Effect(Err(PermissionDenied(to)), s)
    else if from <= to then Effect(Err(InvalidRename(from, to)), s)
    else if Occupied(s.files, to) then Effect(Err(AlreadyExists(to)), s)
    else Effect(Ok(()), s.(files := Moved(s.files, from, to)))
  }

  /** `std::fs::copy`: reads `src`, then writes its text to `dst`. */
  function Copying(s: State, src: Path, dst: Path): (e: Effect<()>)
    ensures e.result.Ok? <==> src in s.files && dst !in s.denied
    ensures e.result.Ok? ==> e.after == s.(files := s.files[dst := s.files[src]])
    ensures e.result.Err? ==> e.after == s
  {
    match Reading(s, src)
    case Err(e) => Effect(Err(e), s)
    case Ok(content) => Writing(s, dst, content)
  }

  /** `std::fs::create_dir_all`: directories are implicit, so only a denied
      path can make it fail. */
  function CreatingDirs(s: State, p: Path): (r: Result<(), IoError>)
    ensures r.Ok? <==> p !in s.denied
  {
    if p in s.denied then Err(PermissionDenied(p)) else Ok(())
  }

  /** Two prefixes of one path are comparable. */
  lemma PrefixesComparable(a: Path, b: Path, p: Path)
    requires a <= p && b <= p
    ensures a <= b || b <= a
  {
    if |a| <= |b| {
      assert a == p[..|a|] == b[..|a|];
    } else {
      assert b == p[..|b|] == a[..|b|];
    }
  }

  /** A file below `from` reappears below `to`, with its text. */
  lemma MovedShifted(files: map<Path, string>, from: Path, to: Path, p: Path)
    requires p in files && from <= p
    ensures to + p[|from|..] in Moved(files, from, to)
    ensures Moved(files, from, to)[to + p[|from|..]] == files[p]
  {
    var k := to + p[|from|..];
    var shifted := Shifted(files, from, to);
    assert k in shifted;
    var p' :| p' in files && from <= p' && k == to + p'[|from|..] && shifted[k] == files[p'];
    SuffixDeterminesPath(from, to);
  }

  /** A file outside both `from` and `to` stays where it is. */
  lemma MovedKept(files: map<Path, string>, from: Path, to: Path, p: Path)
    requires p in files && !(from <= p) && !(to <= p)
    ensures p in Moved(files, from, to) && Moved(files, from, to)[p] == files[p]
  {
    assert p !in Shifted(files, from, to);
  }

  /** The shifted tree holds exactly the paths below `to` whose counterpart
      below `from` is a file. */
  lemma ShiftedOrigin(files: map<Path, string>, from: Path, to: Path, q: Path)
    ensures q in Shifted(files, from, to) <==> to <= q && from + q[|to|..] in files
    ensures q in Shifted(files, from, to) ==> Shifted(files, from, to)[q] == files[from + q[|to|..]]
  {
    var shifted := Shifted(files, from, to);
    if q in shifted {
      var p :| p in files && from <= p && q == to + p[|from|..];
      assert q[|to|..] == p[|from|..];
      assert from + q[|to|..] == p;
      MovedShifted(files, from, to, p);
    }
    if to <= q && from + q[|to|..] in files {
      var p := from + q[|to|..];
      assert p[|from|..] == q[|to|..];
      assert to + p[|from|..] == q;
    }
  }

  /** Every path of the moved tree comes from a file of the original tree. */
  lemma MovedOrigin(files: map<Path, string>, from: Path, to: Path, q: Path)
    requires q in Moved(files, from, to)
    ensures if to <= q && from + q[|to|..] in files
            then Moved(files, from, to)[q] == files[from + q[|to|..]]
            else q in files && !(from <= q) && Moved(files, from, to)[q] == files[q]
  {
    ShiftedOrigin(files, from, to, q);
  }

  /** A file at or below `from` after the move can only be there when `to`
      lay at or below `from`, or was already occupied. */
  lemma MovedVacates(files: map<Path, string>, from: Path, to: Path, q: Path)
    requires q in Moved(files, from, to) && from <= q
    ensures from <= to || Occupied(files, to)
  {
    MovedOrigin(files, from, to, q);
    if to <= q && from + q[|to|..] in files {
      PrefixesComparable(from, to, q);
      if to <= from {
        assert to <= from + q[|to|..];
      }
    }
  }

  /** A file is back in place after moving its tree away and back. */
  lemma MovedBackKeeps(files: map<Path, string>, m: map<Path, string>, from: Path, to: Path, p: Path)
    requires !Occupied(files, to) && m == Moved(files, from, to) && p in files
    ensures p in Moved(m, to, from) && Moved(m, to, from)[p] == files[p]
  {
    if from <= p {
      var q := to + p[|from|..];
      MovedShifted(files, from, to, p);
      MovedShifted(m, to, from, q);
      assert q[|to|..] == p[|from|..];
      assert from + q[|to|..] == p;
    } else {
      assert !(to <= p);
      MovedKept(files, from, to, p);
      MovedKept(m, to, from, p);
    }
  }

  /** Moving a tree away and back adds no file. */
  lemma MovedBackAddsNothing(files: map<Path, string>, m: map<Path, string>, from: Path, to: Path, k: Path)
    requires !Occupied(files, to) && m == Moved(files, from, to) && k in Moved(m, to, from)
    ensures k in files
  {
    MovedOrigin(m, to, from, k);
    if from <= k && to + k[|from|..] in m {
      var q := to + k[|from|..];
      MovedOrigin(files, from, to, q);
      assert q[|to|..] == k[|from|..];
      assert from + q[|to|..] == k;
    } else {
      MovedOrigin(files, from, to, k);
    }
  }

  /** Moving a tree to an unoccupied place and back restores it. */
  lemma {:induction false} MovedBack(files: map<Path, string>, from: Path, to: Path)
    requires !Occupied(files, to)
    ensures Moved(Moved(files, from, to), to, from) == files
  {
    var m := Moved(files, from, to);
    var back := Moved(m, to, from);
    forall p | p in files
      ensures p in back && back[p] == files[p]
    {
      MovedBackKeeps(files, m, from, to, p);
    }
    forall k | k in back
      ensures k in files
    {
      MovedBackAddsNothing(files, m, from, to, k);
    }
  }

  /** A successful rename found a tree at `from`, no denied end, a target
      outside the source and free, and moved the tree. */
  lemma RenamingSucceeded(s: State, from: Path, to: Path)
    requires Renaming(s, from, to).result.Ok?
    ensures Occupied(s.files, from) && !Occupied(s.files, to) && !(from <= to)
    ensures from !in s.denied && to !in s.denied
    ensures Renaming(s, from, to).after == s.(files := Moved(s.files, from, to))
  {
  }

  /** Moving a tree to a free place outside it vacates the source and
      occupies the target. */
  lemma {:induction false} MovedVacatesSource(files: map<Path, string>, from: Path, to: Path)
    requires Occupied(files, from) && !Occupied(files, to) && !(from <= to)
    ensures !Occupied(Moved(files, from, to), from)
    ensures Occupied(Moved(files, from, to), to)
    ensures !(to <= from)
  {
    var f :| f in files && from <= f;
    MovedShifted(files, from, to, f);
    assert to <= to + f[|from|..];
    if q :| q in Moved(files, from, to) && from <= q {
      MovedVacates(files, from, to, q);
    }
  }

  /** After a successful rename nothing is left at or below `from`. */
  lemma RenameVacatesSource(s: State, from: Path, to: Path)
    requires Renaming(s, from, to).result.Ok?
    ensures !Occupied(Renaming(s, from, to).after.files, from)
    ensures Occupied(Renaming(s, from, to).after.files, to)
    ensures !(to <= from)
  {
    RenamingSucceeded(s, from, to);
    MovedVacatesSource(s.files, from, to);
  }

  /** Renaming back undoes a successful rename exactly. */
  lemma RenameRoundTrip(s: State, from: Path, to: Path)
    requires Renaming(s, from, to).result.Ok?
    ensures Renaming(Renaming(s, from, to).after, to, from) == Effect(Ok(()), s)
  {
    RenamingSucceeded(s, from, to);
    MovedVacatesSource(s.files, from, to);
    MovedBack(s.files, from, to);
    var after := s.(files := Moved(s.files, from, to));
    assert Renaming(after, to, from) == Effect(Ok(()), after.(files := Moved(after.files, to, from)));
  }

  /** The live file system the handlers read and write. */
  class Disk {
    var files: map<Path, string>
    const denied: set<Path>

    constructor (files: map<Path, string>, denied: set<Path>)
      ensures this.files == files && this.denied == denied
    {
      this.files := files;
      this.denied := denied;
    }

    function Snapshot(): State
      reads this
    {
      State(files, denied)
    }

    method ReadToString(p: Path) returns (r: Result<string, IoError>)
      ensures r == Reading(Snapshot(), p)
    {
      if p in files {
        r := Ok(files[p]);
      } else {
        r := Err(NotFound(p));
      }
    }

    method Write(p: Path, content: string) returns (r: Result<(), IoError>)
      modifies this
      ensures Effect(r, Snapshot()) == Writing(old(Snapshot()), p, content)
    {
      if p in denied {
        return Err(PermissionDenied(p));
      }
      files := files[p := content];
      return Ok(());
    }

    method Rename(from: Path, to: Path) returns (r: Result<(), IoError>)
      modifies this
      ensures Effect(r, Snapshot()) == Renaming(old(Snapshot()), from, to)
    {
      var fromExists := exists f :: f in files && from <= f;
      var toExists := exists f :: f in files && to <= f;
      if !fromExists {
        return Err(NotFound(from));
      } else if from in denied {
        return Err(PermissionDenied(from));
      } else if to in denied {
        return Err(PermissionDenied(to));
      } else if from <= to {
        return Err(InvalidRename(from, to));
      } else if toExists {
        return Err(AlreadyExists(to));
      }
      files := Moved(files, from, to);
      return Ok(());
    }

    method Copy(src: Path, dst: Path) returns (r: Result<(), IoError>)
      modifies this
      ensures Effect(r, Snapshot()) == Copying(old(Snapshot()), src, dst)
    {
      var content :- ReadToString(src);
      r := Write(dst, content);
    }

    method CreateDirAll(p: Path) returns (r: Result<(), IoError>)
      ensures r == CreatingDirs(Snapshot(), p)
    {
      if p in denied {
        return Err(PermissionDenied(p));
      }
      return Ok(());
    }
  }
}
