/**
 * What retrieve_documents promises, stated against the disk before the call: which ordinals make it
 * raise, which are accepted, where their copies go, and what else on the disk is left alone.
 */
module RetrieverProperties {
  import opened Wrappers
  import opened Sequences
  import opened Text
  import opened FileSystem
  import opened Retriever

  /** The ordinal names an existing document: a mapped name whose source path is a file or a directory. */
  predicate Resolves(ctx: Context, files0: map<Path, seq<byte>>, idx: int) {
    Mapped(ctx.mapping, idx)
    && (SourcePath(ctx.mapping[idx]) in files0 || SourcePath(ctx.mapping[idx]) in ctx.dirs)
  }

  /**
   * Handling the ordinal raises: its destination is a directory (os.remove), its source is a
   * directory (open), or the judge raises.
   */
  predicate Fails(ctx: Context, files0: map<Path, seq<byte>>, idx: int) {
    Resolves(ctx, files0, idx)
    && var name := ctx.mapping[idx];
       var src := SourcePath(name);
       DestPath(idx, name) in ctx.dirs || src !in files0 || ctx.judge(files0[src], ctx.query).None?
  }

  /** The judge answers a padded "yes" for the ordinal's document. */
  ghost predicate Accepts(ctx: Context, files0: map<Path, seq<byte>>, idx: int) {
    Resolves(ctx, files0, idx) && !Fails(ctx, files0, idx)
    && PaddedYes(ctx.judge(files0[SourcePath(ctx.mapping[idx])], ctx.query).value)
  }

  /** The path an ordinal contributes to the result: its destination when accepted. */
  ghost function AcceptedPath(ctx: Context, files0: map<Path, seq<byte>>): int -> Option<Path> {
    idx => if Accepts(ctx, files0, idx) then Some(DestPath(idx, ctx.mapping[idx])) else None
  }

  /** The reference result: the destinations of the accepted ordinals, in search order. */
  ghost function AcceptedPaths(ctx: Context, files0: map<Path, seq<byte>>, ords: seq<int>): seq<Path> {
    FilterMap(ords, AcceptedPath(ctx, files0))
  }

  /** The ordinal's destination is the path `p`. */
  predicate Targets(mapping: map<int, string>, idx: int, p: Path) {
    Mapped(mapping, idx) && p == DestPath(idx, mapping[idx])
  }

  /** The uploaded documents in `f` are those of `files0`. */
  ghost predicate SameSources(f: map<Path, seq<byte>>, files0: map<Path, seq<byte>>) {
    forall name {:trigger SourcePath(name)} ::
      (SourcePath(name) in f <==> SourcePath(name) in files0)
      && (SourcePath(name) in f ==> f[SourcePath(name)] == files0[SourcePath(name)])
  }

  // ---------------------------------------------------------------- one ordinal

  /** No step changes an uploaded document. */
  lemma StepKeepsSources(ctx: Context, files0: map<Path, seq<byte>>, idx: int, st: Progress)
    requires SameSources(st.files, files0)
    ensures SameSources(Step(ctx, idx, st).files, files0)
  {
    if Mapped(ctx.mapping, idx) {
      var name := ctx.mapping[idx];
      var dest := DestPath(idx, name);
      forall n {:trigger SourcePath(n)} ensures SourcePath(n) != dest {
        SourceIsNeverInOutputFolder(n, DestName(idx, name));
      }
    }
  }

  /** A step raises exactly when its ordinal fails. */
  lemma StepRaises(ctx: Context, files0: map<Path, seq<byte>>, idx: int, st: Progress)
    requires !st.raised && SameSources(st.files, files0)
    ensures Step(ctx, idx, st).raised <==> Fails(ctx, files0, idx)
  {
    if Mapped(ctx.mapping, idx) {
      var name := ctx.mapping[idx];
      SourceIsNeverInOutputFolder(name, DestName(idx, name));
      assert SourcePath(name) in st.files <==> SourcePath(name) in files0;
    }
  }

  /** A step that does not raise appends its destination exactly when its ordinal is accepted. */
  lemma StepAppends(ctx: Context, files0: map<Path, seq<byte>>, idx: int, st: Progress)
    requires !st.raised && SameSources(st.files, files0)
    requires !Step(ctx, idx, st).raised
    ensures Step(ctx, idx, st).found == st.found + AsSeq(AcceptedPath(ctx, files0)(idx))
  {
    StepRaises(ctx, files0, idx, st);
    if Mapped(ctx.mapping, idx) {
      var name := ctx.mapping[idx];
      SourceIsNeverInOutputFolder(name, DestName(idx, name));
      assert SourcePath(name) in st.files <==> SourcePath(name) in files0;
    }
  }

  lemma StepFacts(ctx: Context, files0: map<Path, seq<byte>>, idx: int, st: Progress)
    requires !st.raised && SameSources(st.files, files0)
    ensures var st' := Step(ctx, idx, st);
      && SameSources(st'.files, files0)
      && (st'.raised <==> Fails(ctx, files0, idx))
      && (!st'.raised ==> st'.found == st.found + AsSeq(AcceptedPath(ctx, files0)(idx)))
  {
    StepKeepsSources(ctx, files0, idx, st);
    StepRaises(ctx, files0, idx, st);
    if !Step(ctx, idx, st).raised {
      StepAppends(ctx, files0, idx, st);
    }
  }

  lemma StepKeepsOtherPaths(ctx: Context, idx: int, st: Progress, p: Path)
    requires !Targets(ctx.mapping, idx, p)
    ensures var st' := Step(ctx, idx, st);
      (p in st'.files <==> p in st.files) && (p in st.files ==> st'.files[p] == st.files[p])
  {
  }

  lemma StepWritesDestination(ctx: Context, files0: map<Path, seq<byte>>, idx: int, st: Progress)
    requires !st.raised && SameSources(st.files, files0)
    requires Resolves(ctx, files0, idx) && !Fails(ctx, files0, idx)
    ensures var name := ctx.mapping[idx];
      var dest := DestPath(idx, name);
      var st' := Step(ctx, idx, st);
      if Accepts(ctx, files0, idx) then dest in st'.files && st'.files[dest] == files0[SourcePath(name)]
      else dest !in st'.files
  {
    var name := ctx.mapping[idx];
    SourceIsNeverInOutputFolder(name, DestName(idx, name));
    assert SourcePath(name) in st.files;
  }

  // ---------------------------------------------------------------- the loop

  /** The loop never changes an uploaded document. */
  lemma {:induction false} RunKeepsSources(ctx: Context, files0: map<Path, seq<byte>>, ords: seq<int>, st: Progress)
    requires SameSources(st.files, files0)
    ensures SameSources(Run(ctx, ords, st).files, files0)
    decreases |ords|
  {
    if ords != [] && !st.raised {
      StepKeepsSources(ctx, files0, ords[0], st);
      RunKeepsSources(ctx, files0, ords[1..], Step(ctx, ords[0], st));
    }
  }

  /** The loop raises exactly when some ordinal fails. */
  lemma {:induction false} RunRaises(ctx: Context, files0: map<Path, seq<byte>>, ords: seq<int>, st: Progress)
    requires !st.raised && SameSources(st.files, files0)
    ensures Run(ctx, ords, st).raised <==> exists k :: 0 <= k < |ords| && Fails(ctx, files0, ords[k])
    decreases |ords|
  {
    if ords != [] {
      var st1 := Step(ctx, ords[0], st);
      StepRaises(ctx, files0, ords[0], st);
      if st1.raised {
        assert Fails(ctx, files0, ords[0]);
      } else {
        StepKeepsSources(ctx, files0, ords[0], st);
        RunRaises(ctx, files0, ords[1..], st1);
        SomeFailureInTail(ctx, files0, ords);
      }
    }
  }

  /** In a loop that does not raise, the first step does not raise either. */
  lemma QuietRunFirstStep(ctx: Context, ords: seq<int>, st: Progress)
    requires ords != [] && !st.raised && !Run(ctx, ords, st).raised
    ensures !Step(ctx, ords[0], st).raised
    ensures Run(ctx, ords, st) == Run(ctx, ords[1..], Step(ctx, ords[0], st))
  {
  }

  /** A loop that does not raise appends exactly the accepted destinations, in order. */
  lemma {:induction false} RunAppends(ctx: Context, files0: map<Path, seq<byte>>, ords: seq<int>, st: Progress)
    requires !st.raised && SameSources(st.files, files0)
    requires !Run(ctx, ords, st).raised
    ensures Run(ctx, ords, st).found == st.found + AcceptedPaths(ctx, files0, ords)
    decreases |ords|
  {
    if ords != [] {
      var idx, tail := ords[0], ords[1..];
      var st1 := Step(ctx, idx, st);
      QuietRunFirstStep(ctx, ords, st);
      StepFacts(ctx, files0, idx, st);
      RunAppends(ctx, files0, tail, st1);
      AcceptedPathsCons(ctx, files0, ords);
      ConcatAssoc(st.found, AsSeq(AcceptedPath(ctx, files0)(idx)), AcceptedPaths(ctx, files0, tail));
    }
  }

  /** The accepted paths of a search, unfolded from its first ordinal. */
  lemma AcceptedPathsCons(ctx: Context, files0: map<Path, seq<byte>>, ords: seq<int>)
    requires ords != []
    ensures AcceptedPaths(ctx, files0, ords)
         == AsSeq(AcceptedPath(ctx, files0)(ords[0])) + AcceptedPaths(ctx, files0, ords[1..])
  {
    FilterMapCons(ords[0], ords[1..], AcceptedPath(ctx, files0));
    assert ords == [ords[0]] + ords[1..];
  }

  /**
   * The loop raises exactly when some ordinal fails; when it does not, it has appended exactly the
   * accepted destinations, in order. The uploaded documents are never changed.
   */
  lemma RunOutcome(ctx: Context, files0: map<Path, seq<byte>>, ords: seq<int>, st: Progress)
    requires !st.raised && SameSources(st.files, files0)
    ensures var fin := Run(ctx, ords, st);
      && SameSources(fin.files, files0)
      && (fin.raised <==> exists k :: 0 <= k < |ords| && Fails(ctx, files0, ords[k]))
      && (!fin.raised ==> fin.found == st.found + AcceptedPaths(ctx, files0, ords))
  {
    RunKeepsSources(ctx, files0, ords, st);
    RunRaises(ctx, files0, ords, st);
    if !Run(ctx, ords, st).raised {
      RunAppends(ctx, files0, ords, st);
    }
  }

  /** When the first ordinal does not fail, a failing ordinal is one of the rest. */
  lemma SomeFailureInTail(ctx: Context, files0: map<Path, seq<byte>>, ords: seq<int>)
    requires ords != [] && !Fails(ctx, files0, ords[0])
    ensures (exists k :: 0 <= k < |ords| && Fails(ctx, files0, ords[k]))
        <==> (exists k :: 0 <= k < |ords[1..]| && Fails(ctx, files0, ords[1..][k]))
  {
    if exists k :: 0 <= k < |ords| && Fails(ctx, files0, ords[k]) {
      var k :| 0 <= k < |ords| && Fails(ctx, files0, ords[k]);
      assert ords[1..][k - 1] == ords[k];
    }
    if exists k :: 0 <= k < |ords[1..]| && Fails(ctx, files0, ords[1..][k]) {
      var k :| 0 <= k < |ords[1..]| && Fails(ctx, files0, ords[1..][k]);
      assert ords[k + 1] == ords[1..][k];
    }
  }

  /** A path that no ordinal targets keeps its content, or its absence. */
  lemma {:induction false} RunKeepsOtherPaths(ctx: Context, ords: seq<int>, st: Progress, p: Path)
    requires forall k :: 0 <= k < |ords| ==> !Targets(ctx.mapping, ords[k], p)
    ensures var fin := Run(ctx, ords, st);
      (p in fin.files <==> p in st.files) && (p in st.files ==> fin.files[p] == st.files[p])
    decreases |ords|
  {
    if ords != [] && !st.raised {
      StepKeepsOtherPaths(ctx, ords[0], st, p);
      assert forall k :: 0 <= k < |ords[1..]| ==> ords[1..][k] == ords[k + 1];
      RunKeepsOtherPaths(ctx, ords[1..], Step(ctx, ords[0], st), p);
    }
  }

  /**
   * When the loop finishes without an exception, an accepted ordinal's destination holds a copy of
   * its document and a rejected one's destination does not exist.
   */
  lemma {:induction false} RunFinalDestination(ctx: Context, files0: map<Path, seq<byte>>, ords: seq<int>,
                                               st: Progress, idx: int)
    requires !st.raised && SameSources(st.files, files0)
    requires !Run(ctx, ords, st).raised
    requires idx in ords && Resolves(ctx, files0, idx)
    ensures var fin := Run(ctx, ords, st);
      var name := ctx.mapping[idx];
      var dest := DestPath(idx, name);
      if Accepts(ctx, files0, idx) then dest in fin.files && fin.files[dest] == files0[SourcePath(name)]
      else dest !in fin.files
    decreases |ords|
  {
    var st1 := Step(ctx, ords[0], st);
    StepFacts(ctx, files0, ords[0], st);
    if idx in ords[1..] {
      RunFinalDestination(ctx, files0, ords[1..], st1, idx);
    } else {
      assert idx == ords[0];
      var name := ctx.mapping[idx];
      var dest := DestPath(idx, name);
      StepWritesDestination(ctx, files0, idx, st);
      forall k | 0 <= k < |ords[1..]|
        ensures !Targets(ctx.mapping, ords[1..][k], dest)
      {
        var j := ords[1..][k];
        assert j in ords[1..];
        if Mapped(ctx.mapping, j) {
          DistinctOrdinalsHaveDistinctDestinations(j, ctx.mapping[j], idx, name);
        }
      }
      RunKeepsOtherPaths(ctx, ords[1..], st1, dest);
    }
  }

  /** An ordinal that names no existing document can be dropped from the search result. */
  lemma {:induction false} UnresolvedOrdinalIsSkipped(ctx: Context, files0: map<Path, seq<byte>>,
                                                      pre: seq<int>, idx: int, post: seq<int>, st: Progress)
    requires !st.raised ==> SameSources(st.files, files0)
    requires !Resolves(ctx, files0, idx)
    ensures Run(ctx, pre + [idx] + post, st) == Run(ctx, pre + post, st)
    decreases |pre|
  {
    if !st.raised {
      if pre == [] {
        assert pre + [idx] + post == [idx] + post;
        assert ([idx] + post)[1..] == post;
        if Mapped(ctx.mapping, idx) {
          assert SourcePath(ctx.mapping[idx]) !in st.files;
        }
        assert Step(ctx, idx, st) == st;
        assert pre + post == post;
      } else {
        assert (pre + [idx] + post)[0] == pre[0] && (pre + [idx] + post)[1..] == pre[1..] + [idx] + post;
        assert (pre + post)[0] == pre[0] && (pre + post)[1..] == pre[1..] + post;
        StepFacts(ctx, files0, pre[0], st);
        UnresolvedOrdinalIsSkipped(ctx, files0, pre[1..], idx, post, Step(ctx, pre[0], st));
      }
    }
  }

  /** When no ordinal names an existing document, the loop changes nothing. */
  lemma {:induction false} RunOverUnresolved(ctx: Context, files0: map<Path, seq<byte>>, ords: seq<int>, st: Progress)
    requires !st.raised && SameSources(st.files, files0)
    requires forall k :: 0 <= k < |ords| ==> !Resolves(ctx, files0, ords[k])
    ensures Run(ctx, ords, st) == st
    decreases |ords|
  {
    if ords != [] {
      assert !Resolves(ctx, files0, ords[0]);
      if Mapped(ctx.mapping, ords[0]) {
        assert SourcePath(ctx.mapping[ords[0]]) !in st.files;
      }
      assert Step(ctx, ords[0], st) == st;
      assert forall k :: 0 <= k < |ords[1..]| ==> ords[1..][k] == ords[k + 1];
      RunOverUnresolved(ctx, files0, ords[1..], st);
    }
  }

  // ---------------------------------------------------------------- the whole call

  /** No exception is raised before, during or after going through the ordinals. */
  ghost predicate Succeeds(files: map<Path, seq<byte>>, dirs: set<Path>, mapping: map<int, string>, query: string,
                           search: Option<seq<int>>, judge: Option<Judge>)
  {
    search.Some? && RetrievedFolder !in files && judge.Some?
    && forall k :: 0 <= k < |search.value| ==>
         !Fails(LoopContext(mapping, dirs, query, judge.value), files, search.value[k])
  }

  /** The result is the accepted destinations in search order when nothing raises, and empty otherwise. */
  lemma RetrieveReturnsAcceptedPaths(files: map<Path, seq<byte>>, dirs: set<Path>, mapping: map<int, string>,
                                     query: string, search: Option<seq<int>>, judge: Option<Judge>)
    ensures var r := Retrieve(files, dirs, mapping, query, search, judge);
      r.paths == (if Succeeds(files, dirs, mapping, query, search, judge)
                  then AcceptedPaths(LoopContext(mapping, dirs, query, judge.value), files, search.value)
                  else [])
  {
    if search.Some? && RetrievedFolder !in files && judge.Some? {
      RunOutcome(LoopContext(mapping, dirs, query, judge.value), files, search.value, Progress(files, [], false));
    }
  }

  /**
   * Every returned path is the destination of an accepted ordinal, the paths follow the search
   * order, and every accepted ordinal contributes its destination.
   */
  lemma RetrievedPathsFollowSearchOrder(files: map<Path, seq<byte>>, dirs: set<Path>, mapping: map<int, string>,
                                        query: string, search: Option<seq<int>>, judge: Option<Judge>)
    requires Succeeds(files, dirs, mapping, query, search, judge)
    ensures var r := Retrieve(files, dirs, mapping, query, search, judge);
      var ctx := LoopContext(mapping, dirs, query, judge.value);
      var ords := search.value;
      var pos := KeptPositions(ords, AcceptedPath(ctx, files));
      && |pos| == |r.paths| <= |ords|
      && (forall k :: 0 <= k < |pos| ==>
            0 <= pos[k] < |ords| && Accepts(ctx, files, ords[pos[k]])
            && r.paths[k] == DestPath(ords[pos[k]], mapping[ords[pos[k]]]))
      && (forall k, l :: 0 <= k < l < |pos| ==> pos[k] < pos[l])
      && (forall j :: 0 <= j < |ords| ==> (Accepts(ctx, files, ords[j]) <==> j in pos))
  {
    RetrieveReturnsAcceptedPaths(files, dirs, mapping, query, search, judge);
    FilterMapSelects(search.value, AcceptedPath(LoopContext(mapping, dirs, query, judge.value), files));
  }

  /** An accepted document is copied to its destination, and the destination is returned. */
  lemma AcceptedDocumentIsCopied(files: map<Path, seq<byte>>, dirs: set<Path>, mapping: map<int, string>,
                                 query: string, search: Option<seq<int>>, judge: Option<Judge>, idx: int)
    requires Succeeds(files, dirs, mapping, query, search, judge)
    requires idx in search.value && Accepts(LoopContext(mapping, dirs, query, judge.value), files, idx)
    ensures var r := Retrieve(files, dirs, mapping, query, search, judge);
      var dest := DestPath(idx, mapping[idx]);
      dest in r.paths && dest in r.files && r.files[dest] == files[SourcePath(mapping[idx])]
  {
    var ctx := LoopContext(mapping, dirs, query, judge.value);
    var ords := search.value;
    var start := Progress(files, [], false);
    RunOutcome(ctx, files, ords, start);
    RunFinalDestination(ctx, files, ords, start, idx);
    RetrievedPathsFollowSearchOrder(files, dirs, mapping, query, search, judge);
    var pos := KeptPositions(ords, AcceptedPath(ctx, files));
    var j :| 0 <= j < |ords| && ords[j] == idx;
    assert j in pos;
    var k :| 0 <= k < |pos| && pos[k] == j;
    assert Retrieve(files, dirs, mapping, query, search, judge).paths[k] == DestPath(idx, mapping[idx]);
  }

  /** A document the judge rejects leaves no file at its destination, and its destination is not returned. */
  lemma RejectedDocumentLeavesNoCopy(files: map<Path, seq<byte>>, dirs: set<Path>, mapping: map<int, string>,
                                     query: string, search: Option<seq<int>>, judge: Option<Judge>, idx: int)
    requires Succeeds(files, dirs, mapping, query, search, judge)
    requires idx in search.value
    requires var ctx := LoopContext(mapping, dirs, query, judge.value);
      Resolves(ctx, files, idx) && !Accepts(ctx, files, idx)
    ensures var r := Retrieve(files, dirs, mapping, query, search, judge);
      var dest := DestPath(idx, mapping[idx]);
      dest !in r.files && dest !in r.paths
  {
    var ctx := LoopContext(mapping, dirs, query, judge.value);
    var ords := search.value;
    var start := Progress(files, [], false);
    var r := Retrieve(files, dirs, mapping, query, search, judge);
    var dest := DestPath(idx, mapping[idx]);
    RunOutcome(ctx, files, ords, start);
    RunFinalDestination(ctx, files, ords, start, idx);
    RetrievedPathsFollowSearchOrder(files, dirs, mapping, query, search, judge);
    var pos := KeptPositions(ords, AcceptedPath(ctx, files));
    forall k | 0 <= k < |r.paths| ensures r.paths[k] != dest {
      var j := ords[pos[k]];
      if j != idx {
        DistinctOrdinalsHaveDistinctDestinations(j, mapping[j], idx, mapping[idx]);
      }
    }
  }

  /**
   * The call creates the output folder (unless a search, or the folder's creation, raised) and
   * changes no path that none of the ordinals targets; in particular no uploaded document changes.
   */
  lemma RetrieveTouchesOnlyDestinations(files: map<Path, seq<byte>>, dirs: set<Path>, mapping: map<int, string>,
                                        query: string, search: Option<seq<int>>, judge: Option<Judge>, p: Path)
    requires search.Some? ==> forall k :: 0 <= k < |search.value| ==> !Targets(mapping, search.value[k], p)
    ensures var r := Retrieve(files, dirs, mapping, query, search, judge);
      && r.dirs == (if search.Some? && RetrievedFolder !in files then dirs + {RetrievedFolder} else dirs)
      && (p in r.files <==> p in files) && (p in files ==> r.files[p] == files[p])
  {
    if search.Some? && RetrievedFolder !in files && judge.Some? {
      RunKeepsOtherPaths(LoopContext(mapping, dirs, query, judge.value), search.value, Progress(files, [], false), p);
    }
  }

  /** The uploaded documents are only read. */
  lemma UploadedDocumentsUnchanged(files: map<Path, seq<byte>>, dirs: set<Path>, mapping: map<int, string>,
                                   query: string, search: Option<seq<int>>, judge: Option<Judge>, name: string)
    ensures var r := Retrieve(files, dirs, mapping, query, search, judge);
      var src := SourcePath(name);
      (src in r.files <==> src in files) && (src in files ==> r.files[src] == files[src])
  {
    if search.Some? && RetrievedFolder !in files && judge.Some? {
      RunOutcome(LoopContext(mapping, dirs, query, judge.value), files, search.value, Progress(files, [], false));
    }
  }

  /** Search results that name no existing document give an empty list and change no file. */
  lemma UnresolvedSearchYieldsNothing(files: map<Path, seq<byte>>, dirs: set<Path>, mapping: map<int, string>,
                                      query: string, search: Option<seq<int>>, judge: Option<Judge>)
    requires search.Some? && judge.Some?
    requires forall k :: 0 <= k < |search.value| ==>
               !Resolves(LoopContext(mapping, dirs, query, judge.value), files, search.value[k])
    ensures var r := Retrieve(files, dirs, mapping, query, search, judge);
      r.paths == [] && r.files == files
  {
    if RetrievedFolder !in files {
      RunOverUnresolved(LoopContext(mapping, dirs, query, judge.value), files, search.value, Progress(files, [], false));
    }
  }

  /** Padding the search result with an ordinal that names no existing document changes nothing. */
  lemma UnresolvedOrdinalChangesNothing(files: map<Path, seq<byte>>, dirs: set<Path>, mapping: map<int, string>,
                                        query: string, pre: seq<int>, idx: int, post: seq<int>, judge: Option<Judge>)
    requires judge.Some? && !Resolves(LoopContext(mapping, dirs, query, judge.value), files, idx)
    ensures Retrieve(files, dirs, mapping, query, Some(pre + [idx] + post), judge)
         == Retrieve(files, dirs, mapping, query, Some(pre + post), judge)
  {
    UnresolvedOrdinalIsSkipped(LoopContext(mapping, dirs, query, judge.value), files, pre, idx, post, Progress(files, [], false));
  }
}
