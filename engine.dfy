/** The engine: applies a changeset in order, keeping a history of applied
    changes with their revert actions, and unwinds that history newest first. */
module Engine {
  import opened Wrappers
  import opened Paths
  import opened FileSystem
  import opened Changes

  /** One applied change and the action that undoes it. */
  datatype Entry = Entry(change: Change, revert: Revert)

  /** What executing a changeset did: its result, the tree afterwards, and
      the entries it pushed onto the history. */
  datatype Run = Run(result: Result<(), IoError>, after: State, added: seq<Entry>)

  /** What unwinding a history did: its result, the tree afterwards, and the
      entries still on the history. */
  datatype Rollback = Rollback(result: Result<(), IoError>, after: State, remaining: seq<Entry>)

  /** How one change is applied to a tree: the result and the tree after. */
  type Applier = (State, Change) -> Effect<Revert>

  /** `Change::apply` with the given libraries and backup directory. */
  function Applying(libs: Libs, dir: Path): Applier {
    (t: State, c: Change) => ApplyEffect(libs, t, c, dir)
  }

  /** `Engine::execute`, as a function of the starting tree: changes are
      applied in order and the first failure ends the run. One entry is
      pushed per change that succeeded, in order; the run succeeds exactly
      when every change did. */
  function Execution(apply: Applier, s: State, changes: seq<Change>): (run: Run)
    ensures |run.added| <= |changes|
    ensures run.result.Ok? <==> |run.added| == |changes|
    decreases |changes|
  {
    if changes == [] then Run(Ok(()), s, [])
    else Step(apply, Execution(apply, s, changes[..|changes| - 1]), changes[|changes| - 1])
  }

  /** One iteration of `execute`'s loop on the run so far: nothing happens
      after a failure; otherwise `c` is applied and, when that succeeds, one
      entry for it is pushed. */
  function Step(apply: Applier, prior: Run, c: Change): (run: Run)
    ensures prior.result.Err? ==> run == prior
    ensures prior.result.Ok? ==> (run.added == prior.added
      || (|run.added| == |prior.added| + 1 && run.added[..|prior.added|] == prior.added && run.added[|prior.added|].change == c))
    ensures prior.result.Ok? ==> (run.result.Ok? <==> |run.added| == |prior.added| + 1)
  {
    if prior.result.Err? then prior
    else
      var e := apply(prior.after, c);
      if e.result.Err? then Run(Err(e.result.error), e.after, prior.added)
      else Run(Ok(()), e.after, prior.added + [Entry(c, e.result.value)])
  }

  /** `Engine::revert`, as a function of the tree and the history: the newest
      entry is popped and then invoked; the first failure ends the unwinding
      with that entry already gone and every older entry still there. */
  function Unwinding(s: State, history: seq<Entry>): (u: Rollback)
    ensures u.result.Ok? ==> u.remaining == []
    ensures u.result.Err? ==> |u.remaining| < |history| && u.remaining == history[..|u.remaining|]
    decreases |history|
  {
    if history == [] then Rollback(Ok(()), s, [])
    else
      var rest := history[..|history| - 1];
      var e := RevertEffect(s, history[|history| - 1].revert);
      if e.result.Err? then Rollback(Err(e.result.error), e.after, rest)
      else Unwinding(e.after, rest)
  }

  // ---------------------------------------------------------------------
  // Properties of execute and revert

  /** The history records the changes that succeeded, in the order given. */
  lemma {:induction false} ExecutionRecordsInOrder(apply: Applier, s: State, changes: seq<Change>)
    ensures var run := Execution(apply, s, changes);
      forall i :: 0 <= i < |run.added| ==> run.added[i].change == changes[i]
    decreases |changes|
  {
    if changes != [] {
      var init := changes[..|changes| - 1];
      var prior := Execution(apply, s, init);
      var run := Step(apply, prior, changes[|changes| - 1]);
      assert Execution(apply, s, changes) == run;
      ExecutionRecordsInOrder(apply, s, init);
      forall i | 0 <= i < |run.added|
        ensures run.added[i].change == changes[i]
      {
        if i < |prior.added| {
          assert run.added[i] == prior.added[i];
          assert init[i] == changes[i];
        }
      }
    }
  }

  /** Fail-fast: once a prefix of the changeset has failed, the changes after
      it are never applied. */
  lemma {:induction false} ExecutionStopsAtFailure(apply: Applier, s: State, changes: seq<Change>, more: seq<Change>)
    requires Execution(apply, s, changes).result.Err?
    ensures Execution(apply, s, changes + more) == Execution(apply, s, changes)
    decreases |more|
  {
    if more != [] {
      var init := more[..|more| - 1];
      assert (changes + more)[..|changes + more| - 1] == changes + init;
      ExecutionStopsAtFailure(apply, s, changes, init);
    } else {
      assert changes + more == changes;
    }
  }

  /** A successful prefix runs the same way inside a longer changeset. */
  lemma {:induction false} ExecutionExtends(apply: Applier, s: State, changes: seq<Change>, c: Change)
    requires Execution(apply, s, changes).result.Ok?
    ensures var prior := Execution(apply, s, changes);
      var e := apply(prior.after, c);
      Execution(apply, s, changes + [c])
        == if e.result.Err? then Run(Err(e.result.error), e.after, prior.added)
           else Run(Ok(()), e.after, prior.added + [Entry(c, e.result.value)])
  {
    assert (changes + [c])[..|changes + [c]| - 1] == changes;
  }

  /** One iteration of `execute`'s loop: the run of the first `i + 1`
      changes is one `Step` on the run of the first `i`, and once it has
      failed it is the run of the whole changeset. */
  lemma ExecutionStep(apply: Applier, s: State, changes: seq<Change>, i: nat)
    requires i < |changes|
    ensures Execution(apply, s, changes[..i + 1]) == Step(apply, Execution(apply, s, changes[..i]), changes[i])
    ensures Execution(apply, s, changes[..i + 1]).result.Err? ==> Execution(apply, s, changes) == Execution(apply, s, changes[..i + 1])
  {
    assert changes[..i + 1][..i] == changes[..i];
    if Execution(apply, s, changes[..i + 1]).result.Err? {
      ExecutionStopsAtFailure(apply, s, changes[..i + 1], changes[i + 1..]);
      assert changes[..i + 1] + changes[i + 1..] == changes;
    }
  }

  /** A failed run failed at the change right after the ones it recorded:
      every earlier change succeeded, in order, from the starting tree, and
      that change's apply failed from the tree they left. */
  lemma {:induction false} ExecutionFailsAtFirstUnrecorded(apply: Applier, s: State, changes: seq<Change>)
    requires Execution(apply, s, changes).result.Err?
    ensures var run := Execution(apply, s, changes);
      var k := |run.added|;
      var prior := Execution(apply, s, changes[..k]);
      && prior.result.Ok?
      && prior.added == run.added
      && var e := apply(prior.after, changes[k]);
         e.result.Err? && run.result == Err(e.result.error) && run.after == e.after
    decreases |changes|
  {
    var run := Execution(apply, s, changes);
    var init := changes[..|changes| - 1];
    var prior := Execution(apply, s, init);
    if prior.result.Err? {
      ExecutionFailsAtFirstUnrecorded(apply, s, init);
      var k := |run.added|;
      assert changes[..k] == init[..k];
      assert changes[k] == init[k];
    } else {
      assert init == changes[..|run.added|];
    }
  }

  /** One step of `revert`: the newest entry is popped, then invoked. */
  lemma UnwindingPops(s: State, h: seq<Entry>)
    requires h != []
    ensures var e := RevertEffect(s, h[|h| - 1].revert);
      Unwinding(s, h) == if e.result.Err? then Rollback(Err(e.result.error), e.after, h[..|h| - 1])
                         else Unwinding(e.after, h[..|h| - 1])
  {
  }

  /** LIFO: unwinding a history that ends with `newer` undoes all of `newer`
      before touching anything in `older`. */
  lemma {:induction false} UnwindingNewestFirst(s: State, older: seq<Entry>, newer: seq<Entry>)
    ensures var n := Unwinding(s, newer);
      Unwinding(s, older + newer)
        == if n.result.Err? then Rollback(n.result, n.after, older + n.remaining)
           else Unwinding(n.after, older)
    decreases |newer|
  {
    if newer == [] {
      assert older + newer == older;
    } else {
      var h := older + newer;
      var rest := newer[..|newer| - 1];
      assert h[..|h| - 1] == older + rest;
      assert h[|h| - 1] == newer[|newer| - 1];
      UnwindingPops(s, h);
      UnwindingPops(s, newer);
      var e := RevertEffect(s, newer[|newer| - 1].revert);
      if e.result.Ok? {
        UnwindingNewestFirst(e.after, older, rest);
      }
    }
  }

  /** Unwinding a single entry is invoking its revert action. */
  lemma UnwindingOne(s: State, entry: Entry)
    ensures var e := RevertEffect(s, entry.revert);
      Unwinding(s, [entry]) == Rollback(e.result, e.after, [])
  {
    var e := RevertEffect(s, entry.revert);
    assert [entry][..0] == [];
    if e.result.Ok? {
      assert Unwinding(e.after, []) == Rollback(Ok(()), e.after, []);
    }
  }

  // ---------------------------------------------------------------------
  // The engine object

  class Engine {
    /** Applied changes with their revert actions, oldest first. */
    var history: seq<Entry>

    /** `Engine::new`: an empty history. */
    constructor ()
      ensures history == []
    {
      history := [];
    }

    /** `Engine::execute_single`: applies one change and, when it succeeds,
        pushes it with its revert action. */
    method ExecuteSingle(fs: Disk, libs: Libs, c: Change, dir: Path) returns (r: Result<(), IoError>)
      modifies this, fs
      ensures var e := ApplyEffect(libs, old(fs.Snapshot()), c, dir);
        && fs.Snapshot() == e.after
        && (r.Ok? <==> e.result.Ok?)
        && (r.Err? ==> r.error == e.result.error)
        && history == old(history) + (if e.result.Ok? then [Entry(c, e.result.value)] else [])
    {
      var applied := Apply(fs, libs, c, dir);
      match applied
      case Ok(revert) =>
        history := history + [Entry(c, revert)];
        r := Ok(());
      case Err(err) =>
        r := Err(err);
    }

    /** `Engine::execute`: applies the changeset in order, stopping at the
        first failure; the history grows by the entries of the run. */
    method Execute(fs: Disk, libs: Libs, changes: seq<Change>, dir: Path) returns (r: Result<(), IoError>)
      modifies this, fs
      ensures var run := Execution(Applying(libs, dir), old(fs.Snapshot()), changes);
        && r == run.result
        && fs.Snapshot() == run.after
        && history == old(history) + run.added
    {
      ghost var start := fs.Snapshot();
      ghost var before := history;
      var i := 0;
      while i < |changes|
        invariant 0 <= i <= |changes|
        invariant Execution(Applying(libs, dir), start, changes[..i]).result.Ok?
        invariant fs.Snapshot() == Execution(Applying(libs, dir), start, changes[..i]).after
        invariant history == before + Execution(Applying(libs, dir), start, changes[..i]).added
      {
        var single := ExecuteSingle(fs, libs, changes[i], dir);
        ExecutionStep(Applying(libs, dir), start, changes, i);
        if single.Err? {
          return single;
        }
        i := i + 1;
      }
      assert changes[..i] == changes;
      r := Ok(());
    }

    /** `Engine::revert`: pops and invokes entries newest first, stopping at
        the first failure. */
    method Revert(fs: Disk) returns (r: Result<(), IoError>)
      modifies this, fs
      ensures var u := Unwinding(old(fs.Snapshot()), old(history));
        && r == u.result
        && fs.Snapshot() == u.after
        && history == u.remaining
    {
      ghost var start := fs.Snapshot();
      ghost var before := history;
      while |history| > 0
        invariant Unwinding(start, before) == Unwinding(fs.Snapshot(), history)
        decreases |history|
      {
        var entry := history[|history| - 1];
        history := history[..|history| - 1];
        var invoked := Invoke(fs, entry.revert);
        if invoked.Err? {
          return invoked;
        }
      }
      r := Ok(());
    }
  }
}
