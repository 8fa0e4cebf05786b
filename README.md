# Document indexer and retrieval filter, modelled in Dafny

The repository indexes the documents of a folder with sentence embeddings in a FAISS flat index,
and answers a query by searching that index and letting a generative model judge which of the hits is
relevant. The judged-relevant documents are copied into an output folder. Under the glue are two
bookkeeping components, and this project models them with every external collaborator as an oracle:

- **Indexer** (`indexer.dfy`, source `utils/indexer.py`):
  - `create_filenames_mapping` is a loop that fills the ordinal-to-filename map;
  - `read_file_with_fallback` takes the detected encoding and a decoder as an abstract partial function
    (`Codecs`), with latin1 as the total fallback;
  - the loading loop of `index_documents` keeps `docs` and `filenames` parallel and skips unreadable
    entries;
  - building the index uses an `Embedder` oracle;
  - the persistence branches depend on `index_path`. The whole call is the method
    `Indexer.IndexDocuments` on a `Disk`, proved against the function `Indexer.IndexRun`.
- **Retrieval filter** (`retriever.dfy` and `retriever_properties.dfy`, source `utils/retriever.py`):
  - the acceptance rule of `analyze_chunk_with_llm`;
  - the per-ordinal loop of `retrieve_documents`, with its exception-to-empty-list behaviour. The search
    result is a sequence of ordinals, the judging model is a function from a document's bytes and the
    query to the response text (`None` where the call raises), and the output folder is part of a
    `Disk`. The method `Retriever.RetrieveDocuments` is proved against the function `Retriever.Retrieve`,
    which is built from one step per ordinal (`Retriever.Step`, `Retriever.Run`). The lemmas in
    `RetrieverProperties` then relate that function to an independent per-ordinal description of which
    ordinals raise, which are accepted, and where their copies go.
- Supporting modules:
  - `filesystem.dfy` models the file system: a `Disk` class holding files as a map from path to bytes
    and directories as a set, `os.path.join`, and `os.path.splitext`.
  - `text.dfy` models `str.strip`, `str.lower` and `str(int)`.
  - `sequences.dfy` holds the order-preserving filter used by both loops.
  - `pipeline.dfy` connects the indexer's mapping to the retriever's lookups. It works one scenario:
    an indexer run over a folder of two documents yields the `filenames` list, and a retrieval runs over
    the mapping built from that list.

Where the code and its documented intent differ, the model follows the code:

- `index_documents` is documented as saving the index and its mapping under `index_path`. When
  `index_path` is set but is not an existing directory, the code writes no index file. It then opens
  `index_path/faiss_index_file_mapping.json`, which fails because the parent is not a directory. The
  error is re-raised, so nothing is persisted (`Indexer.NonDirectoryIndexPathWritesNothing`).
- When no document could be read, the embedding batch is empty and `embeddings.shape[1]` raises.
  The model treats this as an error (`EmptyBatch`), which index_documents re-raises. The exact exception
  comes from numpy's handling of an empty batch, which is not part of this model.
- In `retrieve_documents`, the path appended to the result is built a second time, as
  `abspath(join('retrieved_documents', name))`. It is the same path as the destination the copy was
  written to, so the model uses one `DestPath` for both.

## Model

| member | source | states |
|---|---|---|
| Indexer.FilenamesMapping | utils/indexer.py:28-44 | reference definition of the mapping create_filenames_mapping builds; its shape is stated by FilenamesMappingShape and the loop is proved equal to it by CreateFilenamesMapping |
| Indexer.Ordinals | utils/indexer.py:40 | the ordinals of a list of n entries are exactly the integers 0 ≤ i < n, n of them |
| Indexer.CreateFilenamesMapping | utils/indexer.py:28-44 | the loop's map has key set {0, …, n−1}, exactly n entries, and maps i to filenames[i] |
| Indexer.FilenamesMappingShape | utils/indexer.py:38-44 | the reference mapping has the same key set, size and values |
| Indexer.Latin1RoundTrip | utils/indexer.py:68-71 | latin1 decodes every byte sequence, keeping its length, and encoding the text gives back the bytes |
| Indexer.Latin1EncodeRoundTrip | utils/indexer.py:68-71 | text that latin1 can encode is the latin1 decoding of its encoding |
| Indexer.ReadFileWithFallback | utils/indexer.py:47-71 | reference definition of read_file_with_fallback; its behaviour is stated by FallbackAlwaysDecodes |
| Indexer.FallbackAlwaysDecodes | utils/indexer.py:47-71 | a missing or non-regular path fails with an OS error; a readable file fails only when the detected encoding is no codec; a successful first decoding is returned as is; after a decode error, the latin1 text holds exactly the file's bytes |
| Indexer.ReadableEntries | utils/indexer.py:94-105 | reference definition of the `filenames` list the loading loop builds; stated by ReadableEntriesSelection and LoadedDocsParallel, and reached by LoadDocuments |
| Indexer.LoadedDocs | utils/indexer.py:94-105 | reference definition of the `docs` list the loading loop builds; stated by LoadedDocsParallel, and reached by LoadDocuments |
| Indexer.ReadableEntriesSelection | utils/indexer.py:96-105 | `filenames` is the sublist of the listing made of exactly the entries whose read succeeds, in listing order |
| Indexer.LoadedDocsParallel | utils/indexer.py:94-103 | `docs` and `filenames` have equal length, and docs[i] is the text read from filenames[i] |
| Indexer.LoadDocuments | utils/indexer.py:94-105 | the loop returns the reference `docs` and `filenames`, of equal length, with docs[i] read from filenames[i] |
| Indexer.BuildIndex | utils/indexer.py:111-119 | an index is built iff the embedder works and some document was read; its i-th vector embeds docs[i]; otherwise the error says which step raised |
| Indexer.Persist | utils/indexer.py:124-136 | reference definition of the persistence branches; stated by NonDirectoryIndexPathWritesNothing, DirectoryIndexPathPersistsBoth and OnlyIndexPathFilesChange |
| Indexer.IndexRun | utils/indexer.py:74-142 | reference definition of a whole index_documents call; the method IndexDocuments is proved equal to it, and the whole-run lemmas below state its properties |
| Indexer.IndexDocuments | utils/indexer.py:74-142 | the method returns the result of the reference run and leaves the disk as the reference run does |
| Indexer.NothingPersistedWithoutIndexPath | utils/indexer.py:124 | with no `index_path`, or an empty one, no file changes, and the call succeeds iff listing, embedding and reading succeed |
| Indexer.BuildErrorsPropagate | utils/indexer.py:139-142 | a failing listing, a failing embedder or an empty batch is re-raised, and nothing is written |
| Indexer.NonDirectoryIndexPathWritesNothing | utils/indexer.py:124-136 | an `index_path` that is not a directory gets no index file; the mapping write then raises and nothing is written |
| Indexer.DirectoryIndexPathPersistsBoth | utils/indexer.py:124-136 | an `index_path` that is a directory receives index.faiss and faiss_index_file_mapping.json; the latter holds the mapping of the same `filenames` whose documents were embedded |
| Indexer.OnlyIndexPathFilesChange | utils/indexer.py:124-136 | every path other than the two files inside the `index_path` directory keeps its content, or its absence |
| Indexer.SuccessfulRunReturnsBuiltIndex | utils/indexer.py:111-142 | a run that returns an index returns the one built from the loaded documents, whatever the persistence step did |
| Indexer.BuiltIndexMatchesEntries | utils/indexer.py:94-119 | a built index has one vector per readable entry, and vector i embeds the text read from the i-th one |
| Indexer.BuiltIndexMatchesMapping | utils/indexer.py:94-119 | the mapping of the readable entries has exactly the built index's ordinals as keys, and vector i embeds the text read from the file it names for i |
| Indexer.OrdinalsNameTheirDocuments | utils/indexer.py:94-136 | after a successful run the mapping's keys are exactly the index's ordinals, and vector i embeds the text read from the file the mapping names for i |
| Text.Strip | utils/retriever.py:41 | reference definition of str.strip over ASCII whitespace; stated by StripRemovesPadding and StripIsPaddedSlice |
| Text.Lower | utils/retriever.py:41 | reference definition of str.lower over ASCII letters; used by RelevantIffPaddedYes and the answer examples |
| Text.TrimStartDropsLeadingSpace | utils/retriever.py:41 | the result is a suffix of the input, the part removed is whitespace, and the result does not start with whitespace |
| Text.TrimEndDropsTrailingSpace | utils/retriever.py:41 | the result is a prefix of the input, the part removed is whitespace, and the result does not end with whitespace |
| Text.StripRemovesPadding | utils/retriever.py:41 | stripping a string made of whitespace, a core that starts and ends with non-whitespace, and whitespace gives that core |
| Text.StripIsPaddedSlice | utils/retriever.py:41 | the stripped string is a slice of the input with only whitespace on either side |
| Text.IntToString | utils/retriever.py:96 | str(idx) is non-empty, starts with '-' iff idx is negative, and holds no '.' |
| Text.ParseIntInvertsIntToString | utils/retriever.py:96 | the decimal str(idx) parses back to idx |
| Text.IntToStringInjective | utils/retriever.py:96 | distinct ordinals have distinct decimal names |
| FileSystem.Join | utils/retriever.py:90-97 | reference definition of os.path.join for a relative name; stated by JoinInjective and SourceIsNeverInOutputFolder |
| FileSystem.JoinInjective | utils/retriever.py:90-97 | joining one folder with two names gives the same path only for the same name |
| FileSystem.LastIndexOf | utils/retriever.py:96 | the result is −1 or an index of the character c, and c does not occur after it |
| FileSystem.Extension | utils/retriever.py:96 | splitext(name)[-1] is a suffix of the name that is empty or starts with '.', and has no further '.' or '/' |
| FileSystem.ExtensionExamples | utils/retriever.py:96 | "b.txt" has extension ".txt" and "a.tar.gz" has ".gz" |
| FileSystem.NoExtensionExamples | utils/retriever.py:96 | "notes" and the hidden file ".bashrc" have no extension |
| FileSystem.Disk.MakeDirs | utils/retriever.py:77-78 | os.makedirs(exist_ok=True) fails only when a file has the folder's name, and otherwise leaves the folder existing |
| FileSystem.Disk.Remove | utils/retriever.py:100-101 | os.remove deletes a file and fails on a directory |
| FileSystem.Disk.WriteFile | utils/retriever.py:119-120 | open(path, 'wb').write stores the bytes at the path, and fails when the parent is not a directory or the path is a directory |
| Retriever.Relevant | utils/retriever.py:41 | reference definition of the acceptance test strip().lower() == 'yes'; stated by RelevantIffPaddedYes and the answer examples |
| Retriever.RelevantIffPaddedYes | utils/retriever.py:41 | an answer is accepted iff it is "yes" in some letter case with only whitespace around it |
| Retriever.AcceptedAnswers | utils/retriever.py:41 | "Yes" and "YES" are accepted |
| Retriever.PaddedAnswerAccepted | utils/retriever.py:41 | " yes " and "yes" followed by a newline are accepted |
| Retriever.RejectedAnswers | utils/retriever.py:41 | "no", "" and "yes please" are rejected |
| Retriever.ShortAnswerRejected | utils/retriever.py:41 | an answer shorter than three characters is never accepted |
| Retriever.UnpaddedAnswerRejected | utils/retriever.py:41 | an answer with no whitespace at either end is accepted only if it has three characters |
| Retriever.AnalyzeChunkWithLlm | utils/retriever.py:19-41 | the call raises iff the judge does; otherwise it returns the chunk unchanged, with verdict true iff the answer is a padded "yes" |
| Retriever.SourcePath | utils/retriever.py:90 | reference definition of a document's path under uploaded_documents; stated by SourceIsNeverInOutputFolder |
| Retriever.DestPath | utils/retriever.py:94-97 | reference definition of the copy's path under retrieved_documents; stated by SourceIsNeverInOutputFolder and DistinctOrdinalsHaveDistinctDestinations |
| Retriever.SourceIsNeverInOutputFolder | utils/retriever.py:90-97 | no path under uploaded_documents is a path under retrieved_documents |
| Retriever.DistinctOrdinalsHaveDistinctDestinations | utils/retriever.py:94-97 | distinct ordinals never share a destination path, whatever their filenames |
| Retriever.Mapped | utils/retriever.py:86-88 | reference definition of the lookup and the truthiness test of the filename; stated by IndexedOrdinalsResolve |
| Retriever.Step | utils/retriever.py:85-132 | reference definition of one pass of the loop body; HandleOrdinal is proved equal to it, and StepKeepsSources, StepRaises, StepAppends and StepWritesDestination state its properties |
| Retriever.Run | utils/retriever.py:84-132 | reference definition of the loop, ended by the first exception; stated by RunKeepsSources, RunRaises, RunAppends, RunOutcome and RunKeepsOtherPaths |
| Retriever.Retrieve | utils/retriever.py:44-138 | reference definition of a whole retrieve_documents call; RetrieveDocuments is proved equal to it, and RetrieveReturnsAcceptedPaths and the lemmas after it state its properties |
| Retriever.HandleOrdinal | utils/retriever.py:85-132 | one pass of the loop body leaves the disk, the list and the raised flag as the reference step does |
| Retriever.RetrieveDocuments | utils/retriever.py:44-138 | the method returns the list of the reference function and leaves the disk as that function does |
| RetrieverProperties.StepKeepsSources | utils/retriever.py:94-120 | one ordinal never changes an uploaded document |
| RetrieverProperties.StepRaises | utils/retriever.py:86-112 | one ordinal raises iff its destination is a directory, its source is a directory, or the judge raises |
| RetrieverProperties.StepAppends | utils/retriever.py:108-127 | one ordinal that does not raise appends its destination iff the judge accepts its document |
| RetrieverProperties.StepFacts | utils/retriever.py:85-132 | one ordinal raises iff it fails; otherwise it appends its destination iff it is accepted; it never changes an uploaded document |
| RetrieverProperties.StepWritesDestination | utils/retriever.py:100-120 | after an ordinal that does not fail, its destination holds the source's bytes if it was accepted, and does not exist if it was rejected |
| RetrieverProperties.RunKeepsSources | utils/retriever.py:84-132 | the loop never changes an uploaded document |
| RetrieverProperties.RunRaises | utils/retriever.py:84-132 | the loop raises iff some ordinal of the search fails |
| RetrieverProperties.RunAppends | utils/retriever.py:84-132 | a loop that does not raise appends exactly the accepted destinations, in search order |
| RetrieverProperties.RunOutcome | utils/retriever.py:84-132 | the loop raises iff some ordinal fails; otherwise it appends exactly the accepted destinations, in search order |
| RetrieverProperties.RunKeepsOtherPaths | utils/retriever.py:94-120 | a path that is no ordinal's destination keeps its content, or its absence |
| RetrieverProperties.RunFinalDestination | utils/retriever.py:100-127 | when nothing raises, an accepted ordinal's destination ends up holding its source's bytes, and a rejected one's ends up absent, even if the ordinal recurs |
| RetrieverProperties.UnresolvedOrdinalIsSkipped | utils/retriever.py:86-132 | removing an ordinal that names no existing document from anywhere in the search result leaves the loop's outcome unchanged |
| RetrieverProperties.RunOverUnresolved | utils/retriever.py:86-132 | when no ordinal names an existing document, the loop changes nothing |
| RetrieverProperties.RetrieveReturnsAcceptedPaths | utils/retriever.py:66-138 | the result is the accepted destinations in search order when nothing raises, and the empty list when the search, the folder creation, the model loading or any ordinal raises |
| RetrieverProperties.RetrievedPathsFollowSearchOrder | utils/retriever.py:84-127 | there are at most as many paths as ordinals; the k-th path is the destination of the k-th accepted ordinal, at increasing positions; every accepted ordinal is among them |
| RetrieverProperties.AcceptedDocumentIsCopied | utils/retriever.py:94-127 | an accepted document's destination is returned and holds exactly the source's bytes |
| RetrieverProperties.RejectedDocumentLeavesNoCopy | utils/retriever.py:100-117 | a rejected document's destination, even one that existed before, is absent afterwards and is not returned |
| RetrieverProperties.RetrieveTouchesOnlyDestinations | utils/retriever.py:76-120 | the output folder exists afterwards unless the search or its creation failed; a path that is the destination of none of the ordinals keeps its content, or its absence |
| RetrieverProperties.UploadedDocumentsUnchanged | utils/retriever.py:104-105 | the uploaded documents are only read |
| RetrieverProperties.UnresolvedSearchYieldsNothing | utils/retriever.py:86-132 | a search none of whose ordinals names an existing document returns the empty list and changes no file |
| RetrieverProperties.UnresolvedOrdinalChangesNothing | utils/retriever.py:86-132 | an ordinal without a mapping entry, with an empty name or with a missing source adds no path and changes no file |
| Pipeline.IndexedOrdinalsResolve | utils/retriever.py:86-88 | over the indexer's mapping, an ordinal resolves iff it is below the number of indexed documents, is not negative (so the search's −1 does not resolve), and names a non-empty filename |
| Pipeline.ScenarioDestination | utils/retriever.py:94-97 | b.txt at ordinal 1 is copied to retrieved_documents/1.txt |
| Pipeline.ScenarioAccepts | utils/retriever.py:84-132 | in the scenario, ordinal 1 is accepted and the call does not raise |
| Pipeline.ScenarioPaths | utils/retriever.py:84-135 | with the unresolved ordinal dropped, the scenario returns just retrieved_documents/1.txt |
| Pipeline.ScenarioCopies | utils/retriever.py:94-127 | with the unresolved ordinal dropped, the scenario adds the copy of b.txt and changes no other file |
| Pipeline.ScenarioEntriesKept | utils/indexer.py:96-105 | a listing of two readable entries is kept whole as `filenames` |
| Pipeline.ScenarioIndexing | utils/indexer.py:94-119 | indexing uploaded_documents listed as ["a.txt", "b.txt"], with codecs that know both files' encodings and a working embedder, keeps both names as `filenames` and builds an index of two vectors |
| Pipeline.ScenarioRetrieval | utils/retriever.py:84-135 | over the mapping of ["a.txt", "b.txt"], a search returning [1, −1] and a judge saying "Yes", only retrieved_documents/1.txt is returned, and it holds b.txt's bytes |
| Pipeline.RetrievalScenario | utils/indexer.py:28-142 | the indexer run over a.txt and b.txt builds an index of two vectors, and over the mapping of the `filenames` it read, a search returning [1, −1] with a judge saying "Yes" returns only retrieved_documents/1.txt, which holds b.txt's bytes |

## Left out

- Embedding and search numerics are left out: float arithmetic, SentenceTransformer, numpy's float32
  conversion, and the FAISS index and its L2 search. The embedder is an oracle from text to a vector.
  The search is an oracle returning the ordinals of `indices[0]`, or nothing when encoding or searching
  raises. The number k of results is implicit in that sequence.
- Embedding dimensions are not modelled: the model does not check that all vectors have the same
  dimension.
- Encoding detection and the codec tables are left out. chardet's detection (including a `None`
  result) and text-mode decoding are the oracle `Codecs`; only latin1 is defined.
- Universal-newline translation in text mode is left out: decoded text is exactly what the decoder
  returns.
- Unicode whitespace and case are left out: `str.strip` and `str.lower` are modelled over ASCII, so
  U+00A0 and non-ASCII case mappings are not covered.
- `os.path.abspath` and path normalisation are left out. Paths are folder names joined with "/"; a
  filename holding "/" or ".." is joined as it is, not resolved.
- The `os.path.exists` checks test whether the path is a file or a directory of the `Disk`. Symbolic
  links and permissions are not modelled.
- Serialisation formats are not modelled: faiss.write_index and json.dump are oracles giving the bytes
  written. How a caller reloads the mapping, where JSON turns integer keys into strings, is outside this
  model; the retriever receives the mapping as a map from integers.
- The acceptance test of `analyze_chunk_with_llm` is modelled, but not its prompt text. Loading the
  generative model (load_model, whose source is not part of this model) and `generate_content` are
  oracles that may raise.
- Logging, `print` and the traceback formatting are left out, since they do not affect the results.
- Indexer.IndexDocuments: the folder listing is an oracle (`os.listdir`, `None` when it raises).
  Whether an exception comes from loading the model or from encoding is merged into one error.
