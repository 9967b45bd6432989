/** The red-on-revert proof of a test: snapshot, run, revert the listed paths, run,
    restore, run, and classify the three runs.

    A tree is a map from paths to bytes and a deterministic test is a function of the
    tree.  The theorems say exactly when restoring undoes reverting, and what the
    verdict then means about the test. */
module DtProve {
  import opened Lists

  type Bytes = seq<bv8>

  type Tree = map<string, Bytes>

  /** What was saved of one path; no content when the file did not exist. */
  datatype Saved = Saved(rel: string, content: Option<Bytes>)

  // ---------- reverting and restoring, path by path ----------

  function RevertOne(files: Tree, base: Tree, rel: string): Tree {
    if rel in base then files[rel := base[rel]] else files - {rel}
  }

  function RestoreOne(files: Tree, entry: Saved): Tree {
    if entry.content.Some? then files[entry.rel := entry.content.value] else files
  }

  function Reverted(files: Tree, base: Tree, src: seq<string>): Tree {
    if src == [] then files else RevertOne(Reverted(files, base, src[..|src| - 1]), base, src[|src| - 1])
  }

  function SavedOf(files: Tree, base: Tree, src: seq<string>): seq<Saved> {
    if src == [] then []
    else
      var init, rel := src[..|src| - 1], src[|src| - 1];
      SavedOf(files, base, init) + [Saved(rel, Get(Reverted(files, base, init), rel))]
  }

  function Restored(files: Tree, saved: seq<Saved>): Tree {
    if saved == [] then files else RestoreOne(Restored(files, saved[..|saved| - 1]), saved[|saved| - 1])
  }

  predicate Changed(files: Tree, entry: Saved) { entry.content != Get(files, entry.rel) }

  /** The tree of the throwaway worktree. */
  class Worktree {
    var files: Tree

    constructor (snapshot: Tree)
      ensures files == snapshot
    {
      files := snapshot;
    }

    method Revert(base: Tree, src: seq<string>) returns (saved: seq<Saved>)
      modifies this
      ensures files == Reverted(old(files), base, src) && saved == SavedOf(old(files), base, src)
    {
      saved := [];
      for i := 0 to |src|
        invariant files == Reverted(old(files), base, src[..i]) && saved == SavedOf(old(files), base, src[..i])
      {
        var rel := src[i];
        assert src[..i + 1][..i] == src[..i];
        saved := saved + [Saved(rel, Get(files, rel))];
        if rel in base {
          files := files[rel := base[rel]];
        } else if rel in files {
          files := files - {rel};
        } else {
          assert files - {rel} == files;
        }
      }
      assert src[..|src|] == src;
    }

    method Restore(saved: seq<Saved>)
      modifies this
      ensures files == Restored(old(files), saved)
    {
      for i := 0 to |saved|
        invariant files == Restored(old(files), saved[..i])
      {
        assert saved[..i + 1][..i] == saved[..i];
        if saved[i].content.Some? {
          files := files[saved[i].rel := saved[i].content.value];
        }
      }
      assert saved[..|saved|] == saved;
    }

    predicate SrcBytesChanged(saved: seq<Saved>)
      reads this
    {
      exists i :: 0 <= i < |saved| && Changed(files, saved[i])
    }
  }

  // ---------- what reverting and restoring do to a path ----------

  /** Reverting takes the listed paths to their state at the base, and no other path. */
  lemma {:induction false} RevertedAt(files: Tree, base: Tree, src: seq<string>, p: string)
    ensures Get(Reverted(files, base, src), p) == if p in src then Get(base, p) else Get(files, p)
  {
    if src != [] {
      RevertedAt(files, base, src[..|src| - 1], p);
    }
  }

  /** The content that restoring writes last. */
  function LastContent(saved: seq<Saved>, p: string): Option<Bytes> {
    if saved == [] then None
    else if saved[|saved| - 1].rel == p && saved[|saved| - 1].content.Some? then saved[|saved| - 1].content
    else LastContent(saved[..|saved| - 1], p)
  }

  lemma {:induction false} RestoredAt(files: Tree, saved: seq<Saved>, p: string)
    ensures Get(Restored(files, saved), p)
         == if LastContent(saved, p).Some? then LastContent(saved, p) else Get(files, p)
  {
    if saved != [] {
      RestoredAt(files, saved[..|saved| - 1], p);
    }
  }

  function Times(src: seq<string>, p: string): nat {
    if src == [] then 0 else Times(src[..|src| - 1], p) + if src[|src| - 1] == p then 1 else 0
  }

  lemma {:induction false} TimesMember(src: seq<string>, p: string)
    ensures p in src <==> Times(src, p) > 0
  {
    if src != [] {
      TimesMember(src[..|src| - 1], p);
    }
  }

  /** A path that is listed again saves the reverted bytes. */
  lemma {:induction false} LastSaved(files: Tree, base: Tree, src: seq<string>, p: string)
    ensures LastContent(SavedOf(files, base, src), p)
         == if Times(src, p) == 0 then None
            else if Times(src, p) > 1 && p in base then Get(base, p)
            else Get(files, p)
  {
    if src != [] {
      var init, rel := src[..|src| - 1], src[|src| - 1];
      LastSaved(files, base, init, p);
      RevertedAt(files, base, init, p);
      TimesMember(init, p);
      var saved := SavedOf(files, base, src);
      assert saved[..|saved| - 1] == SavedOf(files, base, init);
    }
  }

  /** The tree after revert and restore. */
  ghost function RoundTrip(files: Tree, base: Tree, src: seq<string>): Tree {
    Restored(Reverted(files, base, src), SavedOf(files, base, src))
  }

  /** A path comes back as it was. */
  ghost predicate ComesBack(files: Tree, base: Tree, src: seq<string>, p: string) {
    p in base ==> p in files && (Times(src, p) == 1 || files[p] == base[p])
  }

  lemma {:induction false} RoundTripAt(files: Tree, base: Tree, src: seq<string>, p: string)
    ensures p !in src ==> Get(RoundTrip(files, base, src), p) == Get(files, p)
    ensures p in src ==> (Get(RoundTrip(files, base, src), p) == Get(files, p) <==> ComesBack(files, base, src, p))
  {
    TimesMember(src, p);
    LastSaved(files, base, src, p);
    RevertedAt(files, base, src, p);
    RestoredAt(Reverted(files, base, src), SavedOf(files, base, src), p);
  }

  lemma {:induction false} SameTree(a: Tree, b: Tree)
    requires forall p :: Get(a, p) == Get(b, p)
    ensures a == b
  {
    forall p ensures (p in a <==> p in b) && (p in a ==> a[p] == b[p]) {
      assert Get(a, p) == Get(b, p);
    }
  }

  /** Restoring undoes reverting exactly when every listed path that the base holds
      exists in the snapshot, and is listed once or unchanged since the base. */
  lemma {:induction false} RestoreUndoesRevert(files: Tree, base: Tree, src: seq<string>)
    ensures RoundTrip(files, base, src) == files <==> forall p :: p in src ==> ComesBack(files, base, src, p)
  {
    forall p
      ensures p !in src ==> Get(RoundTrip(files, base, src), p) == Get(files, p)
      ensures p in src ==> (Get(RoundTrip(files, base, src), p) == Get(files, p) <==> ComesBack(files, base, src, p))
    {
      RoundTripAt(files, base, src, p);
    }
    if forall p :: p in src ==> ComesBack(files, base, src, p) {
      SameTree(RoundTrip(files, base, src), files);
    }
  }

  /** In particular when the listed paths are distinct and all exist. */
  lemma {:induction false} DistinctExistingPaths(files: Tree, base: Tree, src: seq<string>)
    requires Distinct(src) && forall p :: p in src ==> p in files
    ensures RoundTrip(files, base, src) == files
  {
    forall p | p in src ensures ComesBack(files, base, src, p) {
      DistinctTimes(src, p);
    }
    RestoreUndoesRevert(files, base, src);
  }

  lemma {:induction false} DistinctTimes(src: seq<string>, p: string)
    requires Distinct(src)
    ensures Times(src, p) <= 1
    ensures p in src ==> Times(src, p) == 1
  {
    if src != [] {
      DistinctTimes(src[..|src| - 1], p);
      TimesMember(src[..|src| - 1], p);
    }
  }

  /** The two ways to lose a file: one that only the base has is created by the revert
      and stays, and one that is listed twice keeps the bytes of the base. */
  lemma {:induction false} LostFiles(files: Tree, base: Tree, src: seq<string>, p: string)
    requires p in src && p in base && (p !in files || Times(src, p) > 1)
    ensures Get(RoundTrip(files, base, src), p) == Some(base[p])
  {
    TimesMember(src, p);
    LastSaved(files, base, src, p);
    RevertedAt(files, base, src, p);
    RestoredAt(Reverted(files, base, src), SavedOf(files, base, src), p);
  }

  // ---------- did the revert change anything ----------

  lemma {:induction false} SavedLength(files: Tree, base: Tree, src: seq<string>)
    ensures |SavedOf(files, base, src)| == |src|
  {
    if src != [] {
      SavedLength(files, base, src[..|src| - 1]);
    }
  }

  lemma {:induction false} SavedStep(files: Tree, base: Tree, src: seq<string>, rel: string)
    ensures SavedOf(files, base, src + [rel])
         == SavedOf(files, base, src) + [Saved(rel, Get(if rel in src then base else files, rel))]
  {
    assert (src + [rel])[..|src|] == src;
    RevertedAt(files, base, src, rel);
  }

  lemma {:induction false} SavedAt(files: Tree, base: Tree, src: seq<string>, i: nat)
    requires i < |src|
    ensures |SavedOf(files, base, src)| == |src|
    ensures SavedOf(files, base, src)[i] == Saved(src[i], Get(if src[i] in src[..i] then base else files, src[i]))
  {
    hide SavedOf;
    var init, n := src[..|src| - 1], |src| - 1;
    assert src == init + [src[n]];
    SavedStep(files, base, init, src[n]);
    SavedLength(files, base, init);
    if i < n {
      SavedAt(files, base, init, i);
      assert init[..i] == src[..i];
    }
  }

  ghost predicate SomeDiffers(files: Tree, base: Tree, src: seq<string>) {
    exists i :: 0 <= i < |src| && Get(files, src[i]) != Get(base, src[i])
  }

  lemma {:induction false} FirstOccurrence(src: seq<string>, i: nat) returns (j: nat)
    requires i < |src|
    ensures j <= i && src[j] == src[i] && src[j] !in src[..j]
  {
    j := 0;
    while src[j] != src[i]
      invariant j <= i && src[i] !in src[..j]
      decreases i - j
    {
      j := j + 1;
    }
  }

  /** The byte comparison after the revert sees whether some listed path differs
      between the snapshot and the base. */
  lemma {:induction false} ChangedMeaning(files: Tree, base: Tree, src: seq<string>)
    ensures (exists i :: 0 <= i < |SavedOf(files, base, src)|
                         && Changed(Reverted(files, base, src), SavedOf(files, base, src)[i]))
       <==> SomeDiffers(files, base, src)
  {
    var saved := SavedOf(files, base, src);
    hide Reverted, SavedOf;
    SavedLength(files, base, src);
    forall i | 0 <= i < |src|
      ensures saved[i] == Saved(src[i], Get(if src[i] in src[..i] then base else files, src[i]))
      ensures Get(Reverted(files, base, src), src[i]) == Get(base, src[i])
    {
      SavedAt(files, base, src, i);
      RevertedAt(files, base, src, src[i]);
    }
    if i :| 0 <= i < |src| && Get(files, src[i]) != Get(base, src[i]) {
      var j := FirstOccurrence(src, i);
      assert Changed(Reverted(files, base, src), saved[j]);
    }
  }

  // ---------- the verdict ----------

  datatype Verdict = FixNotPassing | RevertNoop | NotBound | RestoreFailed | Proven

  function ClassifyProof(fixRunExit: int, srcChanged: bool, revertRunExit: int, restoreRunExit: int): Verdict {
    if fixRunExit != 0 then FixNotPassing
    else if !srcChanged then RevertNoop
    else if revertRunExit == 0 then NotBound
    else if restoreRunExit != 0 then RestoreFailed
    else Proven
  }

  /** The proof run on a snapshot, for a test that depends on the tree alone: where
      restoring undoes reverting, the verdict is Proven exactly when the test passes
      on the snapshot, some listed path differs from the base, and the test fails on
      the reverted tree. */
  method Prove(snapshot: Tree, base: Tree, src: seq<string>, test: Tree -> int) returns (verdict: Verdict)
    ensures verdict == FixNotPassing <==> test(snapshot) != 0
    ensures verdict == RevertNoop <==> test(snapshot) == 0 && !SomeDiffers(snapshot, base, src)
    ensures verdict == NotBound <==>
            test(snapshot) == 0 && SomeDiffers(snapshot, base, src) && test(Reverted(snapshot, base, src)) == 0
    ensures verdict == RestoreFailed <==>
            && test(snapshot) == 0 && SomeDiffers(snapshot, base, src)
            && test(Reverted(snapshot, base, src)) != 0 && test(RoundTrip(snapshot, base, src)) != 0
    ensures verdict == Proven <==>
            && test(snapshot) == 0 && SomeDiffers(snapshot, base, src)
            && test(Reverted(snapshot, base, src)) != 0 && test(RoundTrip(snapshot, base, src)) == 0
    ensures (forall p :: p in src ==> ComesBack(snapshot, base, src, p)) ==>
              && verdict != RestoreFailed
              && (verdict == Proven <==>
                  test(snapshot) == 0 && SomeDiffers(snapshot, base, src) && test(Reverted(snapshot, base, src)) != 0)
  {
    hide ComesBack, SomeDiffers;
    var worktree := new Worktree(snapshot);
    var fixRun := test(worktree.files);
    var saved := worktree.Revert(base, src);
    ChangedMeaning(snapshot, base, src);
    var srcChanged := worktree.SrcBytesChanged(saved);
    var revertRun := test(worktree.files);
    worktree.Restore(saved);
    var restoreRun := if srcChanged then test(worktree.files) else 1;
    RestoreUndoesRevert(snapshot, base, src);
    verdict := ClassifyProof(fixRun, srcChanged, revertRun, restoreRun);
  }
}
