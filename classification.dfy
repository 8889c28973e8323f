/**
  The change-classification accumulator: one file-change record at a time is
  routed into the `created`, `updated` or `deleted` list according to its
  status and the path filter.  `Step` and `Fold` are the value-level
  specification; the class `ChangedFiles` is the object that the adapters
  mutate in place, and its methods are proved against `Step` and `Fold`.
*/
module Classification {
  import opened Wrappers

  /** One entry of an upstream diff listing; `previousFilename` is only sent for renames. */
  datatype FileChange = FileChange(status: string, filename: string, previousFilename: Option<string>)

  /** The three result lists, each in arrival order, duplicates allowed. */
  datatype Buckets = Buckets(created: seq<string>, updated: seq<string>, deleted: seq<string>)

  const Empty: Buckets := Buckets([], [], [])

  function Size(b: Buckets): nat
  {
    |b.created| + |b.updated| + |b.deleted|
  }

  /** Every list of `b` is a prefix of the same list of `b'`. */
  predicate Extends(b: Buckets, b': Buckets)
  {
    b.created <= b'.created && b.updated <= b'.updated && b.deleted <= b'.deleted
  }

  /** Every path recorded in `b` passes the filter. */
  predicate AllMatch(matches: string -> bool, b: Buckets)
  {
    && (forall x :: x in b.created ==> matches(x))
    && (forall x :: x in b.updated ==> matches(x))
    && (forall x :: x in b.deleted ==> matches(x))
  }

  /** The old name of a rename is recorded only when it is present, non-empty and in scope. */
  predicate OldNameCounts(matches: string -> bool, f: FileChange)
  {
    f.previousFilename.Some? && f.previousFilename.value != "" && matches(f.previousFilename.value)
  }

  predicate Recognised(status: string)
  {
    status == "added" || status == "removed" || status == "modified" || status == "renamed"
  }

  /** The effect of `apply` on the three lists, in the order of the status switch. */
  function Step(matches: string -> bool, b: Buckets, f: FileChange): Buckets
  {
    if !matches(f.filename) then b
    else if f.status == "added" then b.(created := b.created + [f.filename])
    else if f.status == "removed" then b.(deleted := b.deleted + [f.filename])
    else if f.status == "modified" then b.(updated := b.updated + [f.filename])
    else if f.status == "renamed" then
      b.(created := b.created + [f.filename],
         deleted := if OldNameCounts(matches, f) then b.deleted + [f.previousFilename.value] else b.deleted)
    else b
  }

  /** `apply` called on each record of `fs` in order, starting from `b`. */
  function Fold(matches: string -> bool, b: Buckets, fs: seq<FileChange>): Buckets
    decreases |fs|
  {
    if fs == [] then b
    else Step(matches, Fold(matches, b, fs[..|fs| - 1]), fs[|fs| - 1])
  }

  // ---- Per-record view: which record contributes which path to which list ----

  /** Record `f` puts path `x` into `created`. */
  predicate Creates(matches: string -> bool, f: FileChange, x: string)
  {
    matches(f.filename) && (f.status == "added" || f.status == "renamed") && x == f.filename
  }

  /** Record `f` puts path `x` into `updated`. */
  predicate Updates(matches: string -> bool, f: FileChange, x: string)
  {
    matches(f.filename) && f.status == "modified" && x == f.filename
  }

  /** Record `f` puts path `x` into `deleted`: a removal, or the old name of an in-scope rename. */
  predicate Deletes(matches: string -> bool, f: FileChange, x: string)
  {
    && matches(f.filename)
    && ((f.status == "removed" && x == f.filename)
        || (f.status == "renamed" && OldNameCounts(matches, f) && x == f.previousFilename.value))
  }

  /** The paths each record of `fs` adds to `created`, in record order. */
  function Created(matches: string -> bool, fs: seq<FileChange>): seq<string>
    decreases |fs|
  {
    if fs == [] then []
    else
      var f := fs[|fs| - 1];
      Created(matches, fs[..|fs| - 1]) + (if Creates(matches, f, f.filename) then [f.filename] else [])
  }

  /** The paths each record of `fs` adds to `updated`, in record order. */
  function Updated(matches: string -> bool, fs: seq<FileChange>): seq<string>
    decreases |fs|
  {
    if fs == [] then []
    else
      var f := fs[|fs| - 1];
      Updated(matches, fs[..|fs| - 1]) + (if Updates(matches, f, f.filename) then [f.filename] else [])
  }

  /** The one path record `f` could put into `deleted`: the old name of a rename, otherwise the filename. */
  function DeletedPath(f: FileChange): string
  {
    if f.status == "renamed" && f.previousFilename.Some? then f.previousFilename.value else f.filename
  }

  /** The paths each record of `fs` adds to `deleted`, in record order. */
  function Deleted(matches: string -> bool, fs: seq<FileChange>): seq<string>
    decreases |fs|
  {
    if fs == [] then []
    else
      var f := fs[|fs| - 1];
      Deleted(matches, fs[..|fs| - 1]) + (if Deletes(matches, f, DeletedPath(f)) then [DeletedPath(f)] else [])
  }

  // ---- Properties of one `apply` ----

  /** A record whose filename the filter rejects changes nothing, whatever its status. */
  lemma RejectedRecordIsIgnored(matches: string -> bool, b: Buckets, f: FileChange)
    requires !matches(f.filename)
    ensures Step(matches, b, f) == b
  {
  }

  /** added, removed and modified append the filename to exactly one list. */
  lemma SimpleStatuses(matches: string -> bool, b: Buckets, f: FileChange)
    requires matches(f.filename)
    ensures f.status == "added" ==> Step(matches, b, f) == Buckets(b.created + [f.filename], b.updated, b.deleted)
    ensures f.status == "removed" ==> Step(matches, b, f) == Buckets(b.created, b.updated, b.deleted + [f.filename])
    ensures f.status == "modified" ==> Step(matches, b, f) == Buckets(b.created, b.updated + [f.filename], b.deleted)
  {
  }

  /**
    An in-scope rename always appends the new name to `created`; it appends the
    old name to `deleted` exactly when that name is present, non-empty and in scope.
  */
  lemma RenamedRecord(matches: string -> bool, b: Buckets, f: FileChange)
    requires matches(f.filename) && f.status == "renamed"
    ensures Step(matches, b, f).created == b.created + [f.filename]
    ensures Step(matches, b, f).updated == b.updated
    ensures OldNameCounts(matches, f) ==> Step(matches, b, f).deleted == b.deleted + [f.previousFilename.value]
    ensures !OldNameCounts(matches, f) ==> Step(matches, b, f).deleted == b.deleted
  {
  }

  /** A status other than the four recognised ones is a no-op, not an error. */
  lemma UnknownStatusIsIgnored(matches: string -> bool, b: Buckets, f: FileChange)
    requires !Recognised(f.status)
    ensures Step(matches, b, f) == b
  {
  }

  /** One `apply` only appends, at most two paths, and only paths that pass the filter. */
  lemma StepAppendsMatching(matches: string -> bool, b: Buckets, f: FileChange)
    ensures Extends(b, Step(matches, b, f))
    ensures Size(Step(matches, b, f)) <= Size(b) + 2
    ensures AllMatch(matches, b) ==> AllMatch(matches, Step(matches, b, f))
  {
  }

  // ---- Properties of a sequence of `apply` calls ----

  /** Feeding `xs` then `ys` is feeding `xs + ys`: batches compose. */
  lemma {:induction false} FoldAppend(matches: string -> bool, b: Buckets, xs: seq<FileChange>, ys: seq<FileChange>)
    ensures Fold(matches, b, xs + ys) == Fold(matches, Fold(matches, b, xs), ys)
    decreases |ys|
  {
    if ys == [] {
      assert xs + ys == xs;
    } else {
      var n := |ys| - 1;
      assert (xs + ys)[..|xs + ys| - 1] == xs + ys[..n];
      assert (xs + ys)[|xs + ys| - 1] == ys[n];
      FoldAppend(matches, b, xs, ys[..n]);
    }
  }

  /** Each list after a run of `apply` calls is the old list followed by the per-record contributions, in record order. */
  lemma {:induction false} FoldByBucket(matches: string -> bool, b: Buckets, fs: seq<FileChange>)
    ensures Fold(matches, b, fs)
         == Buckets(b.created + Created(matches, fs), b.updated + Updated(matches, fs), b.deleted + Deleted(matches, fs))
    decreases |fs|
  {
    if fs == [] {
      assert b.created + [] == b.created;
      assert b.updated + [] == b.updated;
      assert b.deleted + [] == b.deleted;
    } else {
      var n := |fs| - 1;
      FoldByBucket(matches, b, fs[..n]);
      var c := Created(matches, fs[..n]);
      var u := Updated(matches, fs[..n]);
      var d := Deleted(matches, fs[..n]);
      var f := fs[n];
      var ec := if Creates(matches, f, f.filename) then [f.filename] else [];
      var eu := if Updates(matches, f, f.filename) then [f.filename] else [];
      var ed := if Deletes(matches, f, DeletedPath(f)) then [DeletedPath(f)] else [];
      assert b.created + c + ec == b.created + (c + ec);
      assert b.updated + u + eu == b.updated + (u + eu);
      assert b.deleted + d + ed == b.deleted + (d + ed);
      assert b.created + c + [] == b.created + c;
      assert b.updated + u + [] == b.updated + u;
      assert b.deleted + d + [] == b.deleted + d;
    }
  }

  /**
    A path is in `created` after the run exactly when it was there before or
    some in-scope record of the run is an addition or a rename with that name.
  */
  lemma {:induction false} FoldCreatedMembership(matches: string -> bool, b: Buckets, fs: seq<FileChange>, x: string)
    ensures x in Fold(matches, b, fs).created <==> x in b.created || exists i :: 0 <= i < |fs| && Creates(matches, fs[i], x)
    decreases |fs|
  {
    if fs != [] {
      var n := |fs| - 1;
      var p := fs[..n];
      FoldCreatedMembership(matches, b, p, x);
      if exists i :: 0 <= i < |fs| && Creates(matches, fs[i], x) {
        var i :| 0 <= i < |fs| && Creates(matches, fs[i], x);
        if i < n { assert Creates(matches, p[i], x); }
      }
      if exists i :: 0 <= i < n && Creates(matches, p[i], x) {
        var i :| 0 <= i < n && Creates(matches, p[i], x);
        assert Creates(matches, fs[i], x);
      }
    }
  }

  /**
    A path is in `updated` after the run exactly when it was there before or
    some in-scope record of the run is a modification of that path.
  */
  lemma {:induction false} FoldUpdatedMembership(matches: string -> bool, b: Buckets, fs: seq<FileChange>, x: string)
    ensures x in Fold(matches, b, fs).updated <==> x in b.updated || exists i :: 0 <= i < |fs| && Updates(matches, fs[i], x)
    decreases |fs|
  {
    if fs != [] {
      var n := |fs| - 1;
      var p := fs[..n];
      FoldUpdatedMembership(matches, b, p, x);
      if exists i :: 0 <= i < |fs| && Updates(matches, fs[i], x) {
        var i :| 0 <= i < |fs| && Updates(matches, fs[i], x);
        if i < n { assert Updates(matches, p[i], x); }
      }
      if exists i :: 0 <= i < n && Updates(matches, p[i], x) {
        var i :| 0 <= i < n && Updates(matches, p[i], x);
        assert Updates(matches, fs[i], x);
      }
    }
  }

  /**
    A path is in `deleted` after the run exactly when it was there before, or
    some in-scope record of the run removes it, or some in-scope rename has it
    as an old name that is non-empty and in scope.
  */
  lemma {:induction false} FoldDeletedMembership(matches: string -> bool, b: Buckets, fs: seq<FileChange>, x: string)
    ensures x in Fold(matches, b, fs).deleted <==> x in b.deleted || exists i :: 0 <= i < |fs| && Deletes(matches, fs[i], x)
    decreases |fs|
  {
    if fs != [] {
      var n := |fs| - 1;
      var p := fs[..n];
      FoldDeletedMembership(matches, b, p, x);
      if exists i :: 0 <= i < |fs| && Deletes(matches, fs[i], x) {
        var i :| 0 <= i < |fs| && Deletes(matches, fs[i], x);
        if i < n { assert Deletes(matches, p[i], x); }
      }
      if exists i :: 0 <= i < n && Deletes(matches, p[i], x) {
        var i :| 0 <= i < n && Deletes(matches, p[i], x);
        assert Deletes(matches, fs[i], x);
      }
    }
  }

  /** A run of `apply` calls only appends, at most two paths per record, and keeps every path in scope. */
  lemma {:induction false} FoldAppendsMatching(matches: string -> bool, b: Buckets, fs: seq<FileChange>)
    ensures Extends(b, Fold(matches, b, fs))
    ensures Size(Fold(matches, b, fs)) <= Size(b) + 2 * |fs|
    ensures AllMatch(matches, b) ==> AllMatch(matches, Fold(matches, b, fs))
    decreases |fs|
  {
    if fs != [] {
      var n := |fs| - 1;
      var mid := Fold(matches, b, fs[..n]);
      FoldAppendsMatching(matches, b, fs[..n]);
      StepAppendsMatching(matches, mid, fs[n]);
      var r := Step(matches, mid, fs[n]);
      assert b.created <= r.created by { assert r.created[..|mid.created|] == mid.created; }
      assert b.updated <= r.updated by { assert r.updated[..|mid.updated|] == mid.updated; }
      assert b.deleted <= r.deleted by { assert r.deleted[..|mid.deleted|] == mid.deleted; }
    }
  }

  // ---- Two concrete runs ----

  /** With a filter for paths ending in ".ts", one modified "a.ts" lands in `updated` only. */
  lemma ModifiedScenario()
    ensures var endsWithTs := (p: string) => |p| >= 3 && p[|p| - 3..] == ".ts";
            Fold(endsWithTs, Empty, [FileChange("modified", "a.ts", None)]) == Buckets([], ["a.ts"], [])
  {
    var fs := [FileChange("modified", "a.ts", None)];
    assert fs[..0] == [];
  }

  /** With the match-all filter, a rename of "old.txt" to "new.txt" creates the one and deletes the other. */
  lemma RenameScenario()
    ensures Fold((p: string) => true, Empty, [FileChange("renamed", "new.txt", Some("old.txt"))])
         == Buckets(["new.txt"], [], ["old.txt"])
  {
    var fs := [FileChange("renamed", "new.txt", Some("old.txt"))];
    assert fs[..0] == [];
  }

  /**
    The accumulator of the action: three append-only lists and the filter
    they were built with.  `Valid` is the invariant that every recorded path
    passes the filter.
  */
  class ChangedFiles {
    const matches: string -> bool
    var created: seq<string>
    var updated: seq<string>
    var deleted: seq<string>

    function Snapshot(): Buckets
      reads this
    {
      Buckets(created, updated, deleted)
    }

    ghost predicate Valid()
      reads this
    {
      AllMatch(matches, Snapshot())
    }

    constructor (matches: string -> bool)
      ensures this.matches == matches
      ensures Snapshot() == Empty && Valid()
    {
      this.matches := matches;
      created, updated, deleted := [], [], [];
    }

    /** Routes one record into the lists according to its status and the filter. */
    method Apply(f: FileChange)
      requires Valid()
      modifies this
      ensures Valid()
      ensures Snapshot() == Step(matches, old(Snapshot()), f)
    {
      if !matches(f.filename) {
        return;
      }
      if f.status == "added" {
        created := created + [f.filename];
      } else if f.status == "removed" {
        deleted := deleted + [f.filename];
      } else if f.status == "modified" {
        updated := updated + [f.filename];
      } else if f.status == "renamed" {
        created := created + [f.filename];
        if f.previousFilename.Some? && f.previousFilename.value != "" && matches(f.previousFilename.value) {
          deleted := deleted + [f.previousFilename.value];
        }
      }
    }

    /** Applies each record of `files` in order (the adapters' `forEach`). */
    method ApplyAll(files: seq<FileChange>)
      requires Valid()
      modifies this
      ensures Valid()
      ensures Snapshot() == Fold(matches, old(Snapshot()), files)
    {
      for i := 0 to |files|
        invariant Valid()
        invariant Snapshot() == Fold(matches, old(Snapshot()), files[..i])
      {
        assert files[..i + 1][..i] == files[..i];
        Apply(files[i]);
      }
      assert files[..|files|] == files;
    }
  }
}
