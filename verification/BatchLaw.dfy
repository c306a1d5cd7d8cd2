/** When a batch of changes starts, what it leaves behind, and what its receipt tells. */
module BatchLaw {
  import opened Wrappers
  import opened Sorting
  import opened MutationMutex
  import opened ChangeBatch

  // ---------- What keeps a batch from starting ----------

  /** The k-th change is the first that goes wrong: its path was named before, or its precondition fails. */
  ghost predicate FirstWrong(prepared: seq<Prepared>, p: Platform, k: nat, e: BatchError)
    requires k < |prepared|
  {
    var again := exists i :: 0 <= i < k && prepared[i].change.path == prepared[k].change.path;
    var stale := !Satisfied(prepared[k].change.precondition, prepared[k].current, p.digest);
    && DistinctPaths(prepared[..k])
    && (forall i :: 0 <= i < k ==> Satisfied(prepared[i].change.precondition, prepared[i].current, p.digest))
    && (if again then e == DuplicatePath else stale && e == StalePrecondition)
  }

  lemma ErrorHere(prepared: seq<Prepared>, p: Platform, k: nat)
    requires k < |prepared| && FirstError(prepared[..k], p).None?
    ensures forall e :: ErrorAfter(prepared[..k], prepared[k], p) == Some(e) <==> FirstWrong(prepared, p, k, e)
  {
    hide Satisfied, DistinctPaths;
    PreflightExactly(prepared[..k], p);
    assert forall i :: 0 <= i < k ==> prepared[..k][i] == prepared[i] && prepared[i] in prepared[..k];
  }

  /** Preflight reports the first change that goes wrong, and how. */
  lemma {:induction false} FirstErrorExactly(prepared: seq<Prepared>, p: Platform, e: BatchError)
    ensures FirstError(prepared, p) == Some(e) <==> exists k: nat :: k < |prepared| && FirstWrong(prepared, p, k, e)
  {
    hide ErrorAfter, FirstWrong;
    if prepared != [] {
      var n := |prepared| - 1;
      var init := prepared[..n];
      FirstErrorExactly(init, p, e);
      forall k: nat | k < n ensures FirstWrong(prepared, p, k, e) <==> FirstWrong(init, p, k, e) {
        WrongInPrefix(prepared, p, n, k, e);
      }
      if FirstError(init, p).None? {
        ErrorHere(prepared, p, n);
      } else if FirstWrong(prepared, p, n, e) {
        WrongMeansFine(prepared, p, n, e);
        PreflightExactly(init, p);
      }
    }
  }

  lemma WrongInPrefix(prepared: seq<Prepared>, p: Platform, n: nat, k: nat, e: BatchError)
    requires k < n <= |prepared|
    ensures FirstWrong(prepared, p, k, e) <==> FirstWrong(prepared[..n], p, k, e)
  {
    hide Satisfied, DistinctPaths;
    assert prepared[..n][..k] == prepared[..k];
  }

  lemma WrongMeansFine(prepared: seq<Prepared>, p: Platform, k: nat, e: BatchError)
    requires k < |prepared| && FirstWrong(prepared, p, k, e)
    ensures DistinctPaths(prepared[..k])
    ensures forall c :: c in prepared[..k] ==> Satisfied(c.change.precondition, c.current, p.digest)
  {
    hide Satisfied, DistinctPaths;
    forall c | c in prepared[..k] ensures Satisfied(c.change.precondition, c.current, p.digest) {
      var i :| 0 <= i < k && prepared[..k][i] == c;
    }
  }

  ghost predicate OneMetadata(prepared: seq<Prepared>) {
    forall c, d :: c in prepared && d in prepared ==> c.change.metadata == d.change.metadata
  }

  /** A batch starts exactly when it has 1 to 100 changes, of distinct paths, each with its precondition met and all
      with the same metadata; and which of these is missing is reported in this order. */
  lemma BatchStartsExactly(prepared: seq<Prepared>, p: Platform)
    ensures var e := PreflightError(prepared, p);
            var sized := 1 <= |prepared| <= 100;
            && (e == None <==> sized && FirstError(prepared, p).None? && OneMetadata(prepared))
            && (e == Some(BadSize) <==> !sized)
            && (e == Some(MixedMetadata) <==> sized && FirstError(prepared, p).None? && !OneMetadata(prepared))
            && (sized && FirstError(prepared, p).Some? ==> e == FirstError(prepared, p))
  {
    NeverOther(prepared, p);
    hide FirstError, SortBy, PathKey;
    if |prepared| > 0 {
      SortMembers(prepared, PathKey(p));
      var first := SortBy(prepared, PathKey(p))[0];
      assert first in prepared;
    }
  }

  /** What others publish before the batch starts: nothing of it is seen when the batch is of a wrong size; otherwise
      what comes before each read, up to that of the first change that goes wrong. */
  lemma SeenByPreflight(files: Files, between: seq<Files>, prepared: seq<Prepared>, p: Platform)
    requires |between| == |prepared|
    ensures var after := FilesPrepared(files, between, prepared, p);
            && (!(1 <= |prepared| <= 100) ==> after == files)
            && (|prepared| <= 100 && FirstError(prepared, p).None? ==> after == FilesRead(files, between, |prepared|))
            && (|prepared| <= 100 ==> forall k: nat, e ::
                  k < |prepared| && FirstWrong(prepared, p, k, e) ==> after == FilesRead(files, between, k + 1))
  {
    hide FirstWrong, ErrorAfter, FilesRead;
    if prepared == [] { NothingLooked(files, between, prepared, p); }
    if FirstError(prepared, p).None? { AllLooked(prepared, p); }
    forall k: nat, e | k < |prepared| && FirstWrong(prepared, p, k, e) ensures Looked(prepared, p) == k + 1 {
      WrongMeansFine(prepared, p, k, e);
      PreflightExactly(prepared[..k], p);
      ErrorHere(prepared, p, k);
      LookFurther(prepared, k, p);
    }
  }

  lemma {:induction false} NeverOther(prepared: seq<Prepared>, p: Platform)
    ensures var e := FirstError(prepared, p); e.Some? ==> e.value == DuplicatePath || e.value == StalePrecondition
  {
    hide Satisfied;
    if prepared != [] { NeverOther(prepared[..|prepared| - 1], p); }
  }

  // ---------- What a batch leaves ----------

  /** The change, if there is one among the first n, that names the path. */
  ghost predicate WrittenAt(sorted: seq<Change>, n: nat, q: Path, content: Content)
    requires n <= |sorted|
  {
    exists i :: 0 <= i < n && sorted[i].path == q && sorted[i].content == content
  }

  ghost predicate Unwritten(sorted: seq<Change>, n: nat, q: Path)
    requires n <= |sorted|
  {
    forall i :: 0 <= i < n ==> sorted[i].path != q
  }

  /** With no one else at work, each path of the first n changes holds its new content, and every other path what it
      held before. */
  lemma {:induction false} LeavesExactly(files: Files, sorted: seq<Change>, others: seq<Files>, n: nat, q: Path)
    requires n <= |sorted| == |others| && (forall o :: o in others ==> o == map[])
    requires forall i, j :: 0 <= i < j < |sorted| ==> sorted[i].path != sorted[j].path
    ensures Unwritten(sorted, n, q) ==> Held(FilesAfter(files, sorted, others, n), q) == Held(files, q)
    ensures forall content :: WrittenAt(sorted, n, q, content) ==>
              Held(FilesAfter(files, sorted, others, n), q) == Some(content)
  {
    if n < |sorted| {
      assert others[n] in others;
      BeforeIsReached(files, sorted, others, n);
    }
    ReachedExactly(files, sorted, others, n, q);
  }

  lemma {:induction false} ReachedExactly(files: Files, sorted: seq<Change>, others: seq<Files>, n: nat, q: Path)
    requires n <= |sorted| == |others| && (forall o :: o in others ==> o == map[])
    requires forall i, j :: 0 <= i < j < |sorted| ==> sorted[i].path != sorted[j].path
    ensures Unwritten(sorted, n, q) ==> Held(Reached(files, sorted, others, n), q) == Held(files, q)
    ensures forall content :: WrittenAt(sorted, n, q, content) ==>
              Held(Reached(files, sorted, others, n), q) == Some(content)
  {
    if n > 0 {
      assert others[n - 1] in others;
      BeforeIsReached(files, sorted, others, n - 1);
      ReachedExactly(files, sorted, others, n - 1, q);
      hide Reached, FilesBefore;
      var before := Reached(files, sorted, others, n - 1);
      assert before + others[n - 1] == before;
      ReachedStep(files, sorted, others, n);
    }
  }

  lemma ReachedStep(files: Files, sorted: seq<Change>, others: seq<Files>, n: nat)
    requires 0 < n <= |sorted| == |others|
    ensures Reached(files, sorted, others, n) ==
            FilesBefore(files, sorted, others, n - 1)[sorted[n - 1].path := sorted[n - 1].content]
  {
  }

  /** Which changes are written: of each of the first n the precondition held when its turn came and the write went
      through; of the next, one or the other did not. */
  lemma WrittenExactly(files: Files, sorted: seq<Change>, others: seq<Files>, io: seq<bool>, p: Platform, n: nat)
    requires n <= |sorted| == |others| == |io|
    ensures Written(files, sorted, others, io, p, n) <==>
              && (forall i: nat :: i < n ==> io[i] && Satisfied(sorted[i].precondition,
                   Held(Reached(files, sorted, others, i) + others[i], sorted[i].path), p.digest))
              && (n < |sorted| && io[n] ==> !Satisfied(sorted[n].precondition,
                   Held(Reached(files, sorted, others, n) + others[n], sorted[n].path), p.digest))
  {
    hide Satisfied, Reached, FilesBefore;
    forall i: nat | i < |sorted| ensures
      Accepts(files, sorted, others, io, p, i) <==>
        io[i] && Satisfied(sorted[i].precondition,
                           Held(Reached(files, sorted, others, i) + others[i], sorted[i].path), p.digest)
    {
      BeforeIsReached(files, sorted, others, i);
    }
  }

  // ---------- What the receipt tells ----------

  /** A version names the path and the digest of what it held, if it held anything. */
  predicate Names(v: Version, path: Path, content: Option<Content>, p: Platform) {
    && v.path == path && (v.fingerprint.Some? <==> content.Some?)
    && (content.Some? ==> v.fingerprint.value == p.digest(content.value))
  }

  /** The receipt of a batch of which the first n changes were written: what each path held, the new versions of those
      n, and of each what became of it, with the first refused at the end. */
  ghost predicate TellsBatch(r: BatchReceipt, prepared: seq<Prepared>, n: nat, p: Platform)
    requires n <= |prepared|
  {
    && (r.status == Applied <==> n == |prepared|)
    && |r.inputVersions| == |prepared| && |r.outputVersions| == n
    && |r.resourceResults| == (if n < |prepared| then n + 1 else n)
    && (forall i :: 0 <= i < |prepared| ==>
          Names(r.inputVersions[i], prepared[i].change.path, prepared[i].current, p))
    && (forall i :: 0 <= i < n ==>
          && Names(r.outputVersions[i], prepared[i].change.path, Some(prepared[i].change.content), p)
          && r.resourceResults[i] == AppliedAt(prepared[i].change.path))
    && (n < |prepared| ==> r.resourceResults[n] == RejectedAt(prepared[n].change.path))
  }

  lemma {:induction false} OutputsMean(sorted: seq<Change>, n: nat, p: Platform)
    requires n <= |sorted|
    ensures forall i :: 0 <= i < n ==>
            OutputsOf(sorted, n, p)[i] == Version(sorted[i].path, Some(p.digest(sorted[i].content)))
    ensures forall i :: 0 <= i < n ==> ResultsOf(sorted, n)[i] == AppliedAt(sorted[i].path)
  {
    if n > 0 { OutputsMean(sorted, n - 1, p); }
  }

  /** There is a receipt unless the very first change was refused. */
  lemma ReceiptTells(prepared: seq<Prepared>, n: nat, p: Platform)
    requires prepared != [] && n <= |prepared|
    ensures var r := ReceiptFor(prepared, n, p);
            && (r.Failure? <==> n == 0) && (r.Failure? ==> r.error == FirstRefused)
            && (r.Success? ==> TellsBatch(r.value, prepared, n, p))
  {
    OutputsMean(Mapped(prepared, ChangeOf), n, p);
    hide OutputsOf, ResultsOf;
  }

  /** The order in which changes are written and listed: that of their paths' collation. */
  lemma OrderTells(prepared: seq<Prepared>, p: Platform)
    ensures var s := SortBy(prepared, PathKey(p));
            && multiset(s) == multiset(prepared)
            && forall i, j :: 0 <= i < j < |s| ==> AtMost(p.collate(s[i].change.path), p.collate(s[j].change.path))
  {
    SortContents(prepared, PathKey(p));
    SortIsSorted(prepared, PathKey(p));
    hide SortBy, AtMost;
    var s := SortBy(prepared, PathKey(p));
    forall i, j | 0 <= i < j < |s| ensures AtMost(p.collate(s[i].change.path), p.collate(s[j].change.path)) {
      assert AtMost(PathKey(p)(s[i]), PathKey(p)(s[j]));
    }
  }
}
