/**
 * How the two halves meet: the ordinals the indexer assigns in its mapping are the ordinals the
 * retriever resolves, and a small scenario of both.
 */
module Pipeline {
  import opened Wrappers
  import opened Sequences
  import opened Text
  import opened FileSystem
  import opened Indexer
  import opened Retriever
  import opened RetrieverProperties

  /**
   * The ordinal of each indexed document with a non-empty name resolves to that name; the ordinal
   * -1, which a FAISS search reports for a missing neighbour, and every other ordinal outside the
   * index resolve to nothing.
   */
  lemma IndexedOrdinalsResolve(filenames: seq<string>, idx: int)
    ensures var mapping := FilenamesMapping(filenames);
      Mapped(mapping, idx) <==> 0 <= idx < |filenames| && filenames[idx] != ""
    ensures var mapping := FilenamesMapping(filenames);
      Mapped(mapping, idx) ==> mapping[idx] == filenames[idx]
  {
    FilenamesMappingShape(filenames);
  }

  /** The documents of the scenario below. */
  function ScenarioFiles(a: seq<byte>, b: seq<byte>): map<Path, seq<byte>> {
    map[SourcePath("a.txt") := a, SourcePath("b.txt") := b]
  }

  /** The judge of the scenario below: it accepts every document. */
  function ScenarioJudge(): Judge {
    (chunk, query) => Some("Yes")
  }

  /** b.txt at ordinal 1 is copied to retrieved_documents/1.txt. */
  lemma ScenarioDestination()
    ensures DestPath(1, "b.txt") == "retrieved_documents/1.txt"
  {
    ExtensionExamples();
    assert IntToString(1) == "1";
  }

  /** In the scenario, ordinal 1 is accepted and nothing raises. */
  lemma ScenarioAccepts(a: seq<byte>, b: seq<byte>)
    ensures var mapping := FilenamesMapping(["a.txt", "b.txt"]);
      && Accepts(LoopContext(mapping, {UploadedFolder}, "q", ScenarioJudge()), ScenarioFiles(a, b), 1)
      && Succeeds(ScenarioFiles(a, b), {UploadedFolder}, mapping, "q", Some([1]), Some(ScenarioJudge()))
  {
    IndexedOrdinalsResolve(["a.txt", "b.txt"], 1);
    ScenarioDestination();
    AcceptedAnswers();
    RelevantIffPaddedYes("Yes");
  }

  /** Codecs under which both scenario documents can be read: neither detected encoding is unknown. */
  predicate ScenarioDecodable(a: seq<byte>, b: seq<byte>, codecs: Codecs) {
    codecs.decode(codecs.detect(a), a) != UnknownEncoding && codecs.decode(codecs.detect(b), b) != UnknownEncoding
  }

  /**
   * Indexing uploaded_documents, listed as ["a.txt", "b.txt"], reads both documents, so the run's
   * `filenames` is that list, and with a working embedder it builds an index of two vectors.
   */
  lemma ScenarioIndexing(a: seq<byte>, b: seq<byte>, codecs: Codecs, embedder: Embedder, ser: Serializers)
    requires ScenarioDecodable(a, b, codecs) && embedder.available
    ensures ReadableEntries(DocFolder(ScenarioFiles(a, b), UploadedFolder, codecs), ["a.txt", "b.txt"])
         == ["a.txt", "b.txt"]
    ensures var run := IndexRun(ScenarioFiles(a, b), {UploadedFolder}, UploadedFolder, Some(["a.txt", "b.txt"]),
                                None, codecs, embedder, ser);
      run.result.Built? && |run.result.index.vectors| == 2
  {
    var files := ScenarioFiles(a, b);
    var src := DocFolder(files, UploadedFolder, codecs);
    var names := ["a.txt", "b.txt"];
    FallbackAlwaysDecodes(files, SourcePath("a.txt"), codecs);
    FallbackAlwaysDecodes(files, SourcePath("b.txt"), codecs);
    assert src.ReadEntry("a.txt").Read? && src.ReadEntry("b.txt").Read?;
    ScenarioEntriesKept(src, names);
    LoadedDocsParallel(src, names);
  }

  /** A listing of two readable entries is kept whole. */
  lemma ScenarioEntriesKept(src: DocFolder, names: seq<string>)
    requires |names| == 2 && src.ReadEntry(names[0]).Read? && src.ReadEntry(names[1]).Read?
    ensures ReadableEntries(src, names) == names
  {
    var f := NameIfReadable(src);
    assert names[..1][..0] == [];
    assert FilterMap(names[..1], f) == [names[0]];
    assert names[..2 - 1] == names[..1];
  }

  /**
   * Two uploaded documents indexed as ["a.txt", "b.txt"]: the indexer builds its mapping from the
   * `filenames` it read; the search returns [1, -1] and the judge answers "Yes", so only b.txt is
   * copied, to retrieved_documents/1.txt, and that is the whole result.
   */
  lemma RetrievalScenario(a: seq<byte>, b: seq<byte>, codecs: Codecs, embedder: Embedder, ser: Serializers,
                          hits: seq<int>)
    requires hits == [1, -1] && ScenarioDecodable(a, b, codecs) && embedder.available
    ensures var files := ScenarioFiles(a, b);
      var run := IndexRun(files, {UploadedFolder}, UploadedFolder, Some(["a.txt", "b.txt"]), None, codecs, embedder, ser);
      var mapping := FilenamesMapping(ReadableEntries(DocFolder(files, UploadedFolder, codecs), ["a.txt", "b.txt"]));
      var r := Retrieve(files, {UploadedFolder}, mapping, "q", Some(hits), Some(ScenarioJudge()));
      && run.result.Built? && |run.result.index.vectors| == 2
      && r.paths == ["retrieved_documents/1.txt"]
      && r.files == files["retrieved_documents/1.txt" := b]
  {
    ScenarioIndexing(a, b, codecs, embedder, ser);
    ScenarioRetrieval(a, b, hits);
  }

  /**
   * The retrieval half of the scenario, over the mapping of ["a.txt", "b.txt"]: the search returns
   * [1, -1] and the judge answers "Yes": only b.txt is copied, to retrieved_documents/1.txt, and that
   * is the whole result.
   */
  lemma ScenarioRetrieval(a: seq<byte>, b: seq<byte>, hits: seq<int>)
    requires hits == [1, -1]
    ensures var files := ScenarioFiles(a, b);
      var r := Retrieve(files, {UploadedFolder}, FilenamesMapping(["a.txt", "b.txt"]), "q", Some(hits),
                        Some(ScenarioJudge()));
      && r.paths == ["retrieved_documents/1.txt"]
      && r.files == files["retrieved_documents/1.txt" := b]
  {
    var files := ScenarioFiles(a, b);
    var dirs := {UploadedFolder};
    var mapping := FilenamesMapping(["a.txt", "b.txt"]);
    var judge := ScenarioJudge();
    var dest := DestPath(1, "b.txt");
    IndexedOrdinalsResolve(["a.txt", "b.txt"], -1);
    assert hits == [1] + [-1] + [];
    UnresolvedOrdinalChangesNothing(files, dirs, mapping, "q", [1], -1, [], Some(judge));
    assert [1] + [] == [1];
    ScenarioPaths(a, b);
    ScenarioCopies(a, b);
  }

  /** With the unresolved ordinal dropped, the scenario returns the one destination. */
  lemma ScenarioPaths(a: seq<byte>, b: seq<byte>)
    ensures Retrieve(ScenarioFiles(a, b), {UploadedFolder}, FilenamesMapping(["a.txt", "b.txt"]), "q", Some([1]),
                     Some(ScenarioJudge())).paths
         == ["retrieved_documents/1.txt"]
  {
    var files := ScenarioFiles(a, b);
    var mapping := FilenamesMapping(["a.txt", "b.txt"]);
    var ctx := LoopContext(mapping, {UploadedFolder}, "q", ScenarioJudge());
    ScenarioDestination();
    ScenarioAccepts(a, b);
    RetrieveReturnsAcceptedPaths(files, {UploadedFolder}, mapping, "q", Some([1]), Some(ScenarioJudge()));
    assert AcceptedPaths(ctx, files, [1]) == [DestPath(1, "b.txt")];
  }

  /** With the unresolved ordinal dropped, the scenario adds the copy of b.txt and changes nothing else. */
  lemma ScenarioCopies(a: seq<byte>, b: seq<byte>)
    ensures var files := ScenarioFiles(a, b);
      Retrieve(files, {UploadedFolder}, FilenamesMapping(["a.txt", "b.txt"]), "q", Some([1]),
               Some(ScenarioJudge())).files
      == files["retrieved_documents/1.txt" := b]
  {
    var files := ScenarioFiles(a, b);
    var dirs := {UploadedFolder};
    var mapping := FilenamesMapping(["a.txt", "b.txt"]);
    var judge := ScenarioJudge();
    var dest := DestPath(1, "b.txt");
    var r := Retrieve(files, dirs, mapping, "q", Some([1]), Some(judge));
    ScenarioDestination();
    ScenarioAccepts(a, b);
    AcceptedDocumentIsCopied(files, dirs, mapping, "q", Some([1]), Some(judge), 1);
    forall p | p != dest
      ensures (p in r.files <==> p in files) && (p in files ==> r.files[p] == files[p])
    {
      RetrieveTouchesOnlyDestinations(files, dirs, mapping, "q", Some([1]), Some(judge), p);
    }
    FilesDifferOnlyAt(r.files, files, dest, b);
  }
}
