/** The walk of the fill and split goals: each fragment the walk reaches is read,
    rewritten and written back in place, and the first failure ends the goal. */
module Rewrite {
  import opened Documents
  import opened Fragments

  /** The language a goal is written in; they differ in how they treat null listings
      and blocks of the wrong type. */
  datatype Dialect = Java | Kotlin

  /** The source files after a goal, and the failure that stopped it, if any. Files
      rewritten before a failure stay rewritten. */
  datatype Outcome = Outcome(disk: map<Path, Json>, failure: Option<Failure>)

  /** What a goal makes of one fragment file, given its path and what reading it yields. */
  type Rewriter = (Path, Option<Json>) -> Result<Json>

  /** The effect of one visit: a null listing is skipped in Kotlin and fails
      `requireNonNull` in Java; a fragment is rewritten. */
  function RewriteStep(d: Dialect, rewrite: Rewriter, disk: map<Path, Json>, x: Visit): (r: Result<map<Path, Json>>)
    ensures x.Unlisted? ==> (r.Ok? <==> d == Kotlin) && (r.Ok? ==> r.value == disk)
    ensures x.Fragment? ==> (r.Ok? <==> rewrite(x.file, ReadTree(disk, x.file, x.isFile)).Ok?)
    ensures x.Fragment? && r.Ok? ==>
      && r.value.Keys == disk.Keys + {x.file}
      && r.value[x.file] == rewrite(x.file, ReadTree(disk, x.file, x.isFile)).value
      && forall p :: p in disk && p != x.file ==> r.value[p] == disk[p]
  {
    match x
    case Unlisted(dir) =>
      if d == Kotlin then Ok(disk) else Err(ListingUnavailable(dir))
    case Fragment(file, name, isFile) =>
      match rewrite(file, ReadTree(disk, file, isFile))
      case Ok(doc) => Ok(disk[file := doc])
      case Err(e) => Err(e)
  }

  /** The source files after the visits `vs`; a failure stops the walk. */
  function RewriteFold(d: Dialect, rewrite: Rewriter, disk: map<Path, Json>, vs: seq<Visit>): Outcome
    decreases |vs|
  {
    if vs == [] then Outcome(disk, None)
    else
      var o := RewriteFold(d, rewrite, disk, vs[..|vs| - 1]);
      if o.failure.Some? then o
      else
        match RewriteStep(d, rewrite, o.disk, vs[|vs| - 1])
        case Ok(disk') => Outcome(disk', None)
        case Err(e) => Outcome(o.disk, Some(e))
  }

  lemma {:induction false} RewriteFoldAppend(d: Dialect, rewrite: Rewriter, disk: map<Path, Json>,
                                             a: seq<Visit>, b: seq<Visit>)
    ensures RewriteFold(d, rewrite, disk, a + b) ==
      var o := RewriteFold(d, rewrite, disk, a);
      if o.failure.Some? then o else RewriteFold(d, rewrite, o.disk, b)
    decreases |b|
  {
    if b == [] {
      assert a + b == a;
    } else {
      var b' := b[..|b| - 1];
      assert (a + b)[..|a + b| - 1] == a + b';
      assert (a + b)[|a + b| - 1] == b[|b| - 1];
      RewriteFoldAppend(d, rewrite, disk, a, b');
    }
  }

  /** Once a prefix of the visits fails, the whole goal ends there. */
  lemma RewriteFailureStops(d: Dialect, rewrite: Rewriter, disk: map<Path, Json>, a: seq<Visit>, b: seq<Visit>)
    requires a <= b && RewriteFold(d, rewrite, disk, a).failure.Some?
    ensures RewriteFold(d, rewrite, disk, b) == RewriteFold(d, rewrite, disk, a)
  {
    assert b == a + b[|a|..];
    RewriteFoldAppend(d, rewrite, disk, a, b[|a|..]);
  }

  /** One more entry of a listing: the walk of its first `i + 1` entries continues that of
      its first `i` with the entry's own visits, and a failure there ends the listing. */
  lemma RewriteWalkStep(d: Dialect, rewrite: Rewriter, disk: map<Path, Json>, files: seq<Node>, path: Path, i: nat)
    requires i < |files|
    ensures RewriteFold(d, rewrite, disk, Visits(files[..i + 1], path)) ==
      var o := RewriteFold(d, rewrite, disk, Visits(files[..i], path));
      if o.failure.Some? then o else RewriteFold(d, rewrite, o.disk, EntryVisits(files[i], path))
    ensures RewriteFold(d, rewrite, disk, Visits(files[..i + 1], path)).failure.Some? ==>
      RewriteFold(d, rewrite, disk, Visits(files, path)) == RewriteFold(d, rewrite, disk, Visits(files[..i + 1], path))
  {
    VisitsStep(files, path, i);
    RewriteFoldAppend(d, rewrite, disk, Visits(files[..i], path), EntryVisits(files[i], path));
    if RewriteFold(d, rewrite, disk, Visits(files[..i + 1], path)).failure.Some? {
      VisitsPrefix(files, path, i + 1);
      RewriteFailureStops(d, rewrite, disk, Visits(files[..i + 1], path), Visits(files, path));
    }
  }

  lemma RewriteFoldSingle(d: Dialect, rewrite: Rewriter, disk: map<Path, Json>, x: Visit)
    ensures RewriteFold(d, rewrite, disk, [x]) ==
      match RewriteStep(d, rewrite, disk, x)
      case Ok(disk') => Outcome(disk', None)
      case Err(e) => Outcome(disk, Some(e))
  {
    assert [x][..0] == [];
  }

  /** Files no fragment visit names are left alone. */
  lemma {:induction false} RewriteTouchesOnlyFragments(d: Dialect, rewrite: Rewriter, disk: map<Path, Json>, vs: seq<Visit>)
    ensures var disk' := RewriteFold(d, rewrite, disk, vs).disk;
      forall p :: p in disk && (forall i :: 0 <= i < |vs| && vs[i].Fragment? ==> vs[i].file != p) ==>
        p in disk' && disk'[p] == disk[p]
    decreases |vs|
  {
    if vs != [] {
      var prefix := vs[..|vs| - 1];
      RewriteTouchesOnlyFragments(d, rewrite, disk, prefix);
      assert forall i :: 0 <= i < |prefix| ==> prefix[i] == vs[i];
    }
  }

  /** A rewrite that fails on a file it cannot read and leaves its own result alone. */
  ghost predicate Idempotent(rewrite: Rewriter)
  {
    (forall file :: rewrite(file, None).Err?) &&
    forall file, doc :: rewrite(file, Some(doc)).Ok? ==>
      rewrite(file, Some(rewrite(file, Some(doc)).value)) == rewrite(file, Some(doc))
  }

  /** The file of visit `x` is left alone by a second rewrite. */
  predicate Settled(rewrite: Rewriter, disk: map<Path, Json>, x: Visit)
  {
    x.Fragment? ==> x.isFile && x.file in disk && rewrite(x.file, Some(disk[x.file])) == Ok(disk[x.file])
  }

  /** After a successful goal with an idempotent rewrite, every fragment it visited is
      settled, and a Java walk met no null listing. */
  lemma {:induction false} RewriteSettles(d: Dialect, rewrite: Rewriter, disk: map<Path, Json>, vs: seq<Visit>)
    requires Idempotent(rewrite)
    requires RewriteFold(d, rewrite, disk, vs).failure.None?
    ensures var disk' := RewriteFold(d, rewrite, disk, vs).disk;
      forall i :: 0 <= i < |vs| ==> Settled(rewrite, disk', vs[i]) && (vs[i].Unlisted? ==> d == Kotlin)
    decreases |vs|
  {
    if vs != [] {
      var prefix := vs[..|vs| - 1];
      var x := vs[|vs| - 1];
      var o := RewriteFold(d, rewrite, disk, prefix);
      RewriteSettles(d, rewrite, disk, prefix);
      var disk' := RewriteFold(d, rewrite, disk, vs).disk;
      if x.Fragment? {
        var doc := ReadTree(o.disk, x.file, x.isFile);
        assert doc.Some?;
        var written := rewrite(x.file, doc).value;
        assert disk' == o.disk[x.file := written];
        assert rewrite(x.file, Some(written)) == Ok(written);
      }
      forall i | 0 <= i < |vs|
        ensures Settled(rewrite, disk', vs[i]) && (vs[i].Unlisted? ==> d == Kotlin)
      {
        if i < |prefix| {
          assert vs[i] == prefix[i];
        }
      }
    }
  }

  /** A goal over settled fragments writes each back unchanged and succeeds. */
  lemma {:induction false} RewriteOverSettled(d: Dialect, rewrite: Rewriter, disk: map<Path, Json>, vs: seq<Visit>)
    requires forall i :: 0 <= i < |vs| ==> Settled(rewrite, disk, vs[i]) && (vs[i].Unlisted? ==> d == Kotlin)
    ensures RewriteFold(d, rewrite, disk, vs) == Outcome(disk, None)
    decreases |vs|
  {
    if vs != [] {
      var prefix := vs[..|vs| - 1];
      var x := vs[|vs| - 1];
      assert forall i :: 0 <= i < |prefix| ==> prefix[i] == vs[i];
      RewriteOverSettled(d, rewrite, disk, prefix);
      if x.Fragment? {
        assert disk[x.file := disk[x.file]] == disk;
      }
    }
  }

  /** A goal whose rewrite is idempotent is idempotent: run again on the files it wrote,
      it succeeds and changes nothing. */
  lemma RewriteIdempotent(d: Dialect, rewrite: Rewriter, disk: map<Path, Json>, vs: seq<Visit>)
    requires Idempotent(rewrite)
    requires RewriteFold(d, rewrite, disk, vs).failure.None?
    ensures var disk' := RewriteFold(d, rewrite, disk, vs).disk;
      RewriteFold(d, rewrite, disk', vs) == Outcome(disk', None)
  {
    RewriteSettles(d, rewrite, disk, vs);
    RewriteOverSettled(d, rewrite, RewriteFold(d, rewrite, disk, vs).disk, vs);
  }

  /** A successful goal rewrote every fragment it visited without failure. */
  lemma {:induction false} RewriteSucceeded(d: Dialect, rewrite: Rewriter, disk: map<Path, Json>, vs: seq<Visit>, i: nat)
    requires RewriteFold(d, rewrite, disk, vs).failure.None?
    requires i < |vs| && vs[i].Fragment?
    ensures var before := RewriteFold(d, rewrite, disk, vs[..i]);
      before.failure.None? && rewrite(vs[i].file, ReadTree(before.disk, vs[i].file, vs[i].isFile)).Ok?
  {
    var upto := vs[..i + 1];
    assert upto[..i] == vs[..i] && upto[i] == vs[i];
    assert upto + vs[i + 1..] == vs;
    RewriteFoldAppend(d, rewrite, disk, upto, vs[i + 1..]);
  }

}
