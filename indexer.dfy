/**
 * The bookkeeping of utils/indexer.py: reading each listed document with an encoding fallback,
 * keeping the read documents and their names in two parallel lists, building the index over the
 * documents in that order, and persisting the index and the ordinal-to-filename mapping.
 *
 * The collaborators are oracles: the directory listing is given as a sequence of names (or None
 * when listing raised), encoding detection and decoding are the functions of a `Codecs` value, the
 * embedding model is an `Embedder`, and the on-disk encodings of the index and of the mapping are
 * the functions of a `Serializers` value.
 */
module Indexer {
  import opened Wrappers
  import opened Sequences
  import opened FileSystem

  /** The file written inside `index_path` when it is a directory. */
  const IndexFileName: string := "index.faiss"

  /** The sidecar file holding the ordinal-to-filename mapping. */
  const MappingFileName: string := "faiss_index_file_mapping.json"

  // ---------------------------------------------------------------- create_filenames_mapping

  /** The ordinals of an index holding `n` vectors. */
  function Ordinals(n: nat): (r: set<int>)
    ensures forall i :: i in r <==> 0 <= i < n
    ensures |r| == n
    decreases n
  {
    if n == 0 then {} else Ordinals(n - 1) + {n - 1}
  }

  /** The mapping create_filenames_mapping builds: position in the list to filename. */
  function FilenamesMapping(filenames: seq<string>): map<int, string> {
    map i | 0 <= i < |filenames| :: filenames[i]
  }

  /** The mapping's keys are exactly the ordinals 0 .. |filenames|-1, each naming its file. */
  lemma FilenamesMappingShape(filenames: seq<string>)
    ensures var m := FilenamesMapping(filenames);
      && m.Keys == Ordinals(|filenames|)
      && |m| == |filenames|
      && forall i :: 0 <= i < |filenames| ==> m[i] == filenames[i]
  {
    assert FilenamesMapping(filenames).Keys == Ordinals(|filenames|);
  }

  /** create_filenames_mapping: fills the mapping in one pass over the enumerated list. */
  method CreateFilenamesMapping(filenames: seq<string>) returns (m: map<int, string>)
    ensures m.Keys == Ordinals(|filenames|)
    ensures |m| == |filenames|
    ensures forall i :: 0 <= i < |filenames| ==> m[i] == filenames[i]
    ensures m == FilenamesMapping(filenames)
  {
    m := map[];
    for i := 0 to |filenames|
      invariant forall j :: j in m <==> 0 <= j < i
      invariant forall j :: 0 <= j < i ==> m[j] == filenames[j]
    {
      m := m[i := filenames[i]];
    }
    assert m == FilenamesMapping(filenames);
    FilenamesMappingShape(filenames);
  }

  // ---------------------------------------------------------------- read_file_with_fallback

  /** What decoding with the detected encoding does. */
  datatype DecodeOutcome =
    | Decoded(text: string)
    | DecodeFailed       // UnicodeDecodeError: the bytes are not valid in that encoding
    | UnknownEncoding    // the detected name is no codec (LookupError), which the fallback does not catch

  /**
   * Encoding detection (chardet.detect(raw)['encoding'], possibly None) and text-mode decoding with
   * a given encoding.
   */
  datatype Codecs = Codecs(detect: seq<byte> -> Option<string>, decode: (Option<string>, seq<byte>) -> DecodeOutcome)

  /** Decoding with latin1 (ISO/IEC 8859-1): every byte becomes the code point of the same value. */
  function Latin1Decode(raw: seq<byte>): string {
    seq(|raw|, k requires 0 <= k < |raw| => raw[k] as int as char)
  }

  /** Encoding with latin1: defined exactly for text whose code points are all below 256. */
  function Latin1Encode(text: string): Option<seq<byte>> {
    if forall k :: 0 <= k < |text| ==> text[k] as int < 256 then
      Some(seq(|text|, k requires 0 <= k < |text| && text[k] as int < 256 => text[k] as int as byte))
    else
      None
  }

  /** latin1 decodes every byte sequence, and the text it yields encodes back to the same bytes. */
  lemma Latin1RoundTrip(raw: seq<byte>)
    ensures |Latin1Decode(raw)| == |raw|
    ensures Latin1Encode(Latin1Decode(raw)) == Some(raw)
  {
    var text := Latin1Decode(raw);
    assert forall k :: 0 <= k < |text| ==> text[k] as int == raw[k] as int;
    var bytes := seq(|text|, k requires 0 <= k < |text| && text[k] as int < 256 => text[k] as int as byte);
    assert bytes == raw;
  }

  /** Conversely, text that latin1 can encode is the decoding of its encoding. */
  lemma Latin1EncodeRoundTrip(text: string)
    requires Latin1Encode(text).Some?
    ensures Latin1Decode(Latin1Encode(text).value) == text
  {
  }

  datatype ReadFailure = OsError | LookupError

  datatype ReadResult = Read(text: string) | Failed(reason: ReadFailure)

  /**
   * read_file_with_fallback: reads the raw bytes (an OS error when the path is no regular file),
   * decodes them with the detected encoding and, only on a decode error, with latin1 instead.
   */
  function ReadFileWithFallback(files: map<Path, seq<byte>>, path: Path, codecs: Codecs): ReadResult {
    if path !in files then Failed(OsError)
    else
      var raw := files[path];
      match codecs.decode(codecs.detect(raw), raw)
      case Decoded(text) => Read(text)
      case DecodeFailed => Read(Latin1Decode(raw))
      case UnknownEncoding => Failed(LookupError)
  }

  /**
   * A decode error never makes the read fail: a path that is no regular file fails with an OS error,
   * a readable file fails only when its detected encoding is no codec, a successful first decoding
   * is returned as is, and text obtained through the fallback holds exactly the file's bytes.
   */
  lemma FallbackAlwaysDecodes(files: map<Path, seq<byte>>, path: Path, codecs: Codecs)
    ensures path !in files ==> ReadFileWithFallback(files, path, codecs) == Failed(OsError)
    ensures path in files ==>
      var raw := files[path];
      var outcome := codecs.decode(codecs.detect(raw), raw);
      var r := ReadFileWithFallback(files, path, codecs);
      && (r.Failed? <==> outcome == UnknownEncoding)
      && (r.Failed? ==> r.reason == LookupError)
      && (outcome.Decoded? ==> r == Read(outcome.text))
      && (outcome == DecodeFailed ==> r.Read? && |r.text| == |raw| && Latin1Encode(r.text) == Some(raw))
  {
    if path in files {
      Latin1RoundTrip(files[path]);
    }
  }

  // ---------------------------------------------------------------- the loading loop of index_documents

  /** The folder being indexed: the files on disk, the folder's path and the codecs used to read it. */
  datatype DocFolder = DocFolder(files: map<Path, seq<byte>>, path: Path, codecs: Codecs) {
    /** read_file_with_fallback(os.path.join(folder_path, name)). */
    function ReadEntry(name: string): ReadResult {
      ReadFileWithFallback(files, Join(path, name), codecs)
    }
  }

  function NameIfReadable(src: DocFolder): string -> Option<string> {
    name => if src.ReadEntry(name).Read? then Some(name) else None
  }

  function TextIfReadable(src: DocFolder): string -> Option<string> {
    name => match src.ReadEntry(name)
            case Read(text) => Some(text)
            case Failed(_) => None
  }

  /** The `filenames` list after the loop: the listed names whose read did not raise. */
  function ReadableEntries(src: DocFolder, listing: seq<string>): seq<string> {
    FilterMap(listing, NameIfReadable(src))
  }

  /** The `docs` list after the loop: the contents of those files. */
  function LoadedDocs(src: DocFolder, listing: seq<string>): seq<string> {
    FilterMap(listing, TextIfReadable(src))
  }

  /**
   * `filenames` is the subsequence of the listing made of exactly the entries whose read did not
   * raise: its k-th name is the listing entry at the k-th kept position, the kept positions keep the
   * listing order, and a position is kept exactly when its entry can be read.
   */
  lemma ReadableEntriesSelection(src: DocFolder, listing: seq<string>)
    ensures var names, pos := ReadableEntries(src, listing), KeptPositions(listing, NameIfReadable(src));
      && |pos| == |names|
      && (forall k :: 0 <= k < |pos| ==> 0 <= pos[k] < |listing| && names[k] == listing[pos[k]])
      && (forall k, l :: 0 <= k < l < |pos| ==> pos[k] < pos[l])
      && (forall j :: 0 <= j < |listing| ==> (src.ReadEntry(listing[j]).Read? <==> j in pos))
  {
    FilterMapSelects(listing, NameIfReadable(src));
  }

  /** `docs` and `filenames` are parallel: the k-th document is what reading the k-th name gave. */
  lemma LoadedDocsParallel(src: DocFolder, listing: seq<string>)
    ensures |LoadedDocs(src, listing)| == |ReadableEntries(src, listing)|
    ensures forall k :: 0 <= k < |ReadableEntries(src, listing)| ==>
      src.ReadEntry(ReadableEntries(src, listing)[k]) == Read(LoadedDocs(src, listing)[k])
  {
    var f, g := NameIfReadable(src), TextIfReadable(src);
    FilterMapSelects(listing, f);
    FilterMapSelects(listing, g);
    FilterMapAligned(listing, f, g);
    var names, docs, pos := FilterMap(listing, f), FilterMap(listing, g), KeptPositions(listing, f);
    forall k | 0 <= k < |names|
      ensures src.ReadEntry(names[k]) == Read(docs[k])
    {
      assert f(listing[pos[k]]) == Some(names[k]);
      assert g(listing[pos[k]]) == Some(docs[k]);
    }
  }

  /**
   * The loop of index_documents over os.listdir(folder_path): each entry is read with the fallback;
   * on success its content and its name are appended together, on failure it is skipped.
   */
  method LoadDocuments(src: DocFolder, listing: seq<string>) returns (docs: seq<string>, filenames: seq<string>)
    ensures docs == LoadedDocs(src, listing)
    ensures filenames == ReadableEntries(src, listing)
    ensures |docs| == |filenames|
    ensures forall k :: 0 <= k < |filenames| ==> src.ReadEntry(filenames[k]) == Read(docs[k])
  {
    docs, filenames := [], [];
    for i := 0 to |listing|
      invariant docs == LoadedDocs(src, listing[..i])
      invariant filenames == ReadableEntries(src, listing[..i])
    {
      assert listing[..i + 1][..i] == listing[..i];
      var content := ReadFileWithFallback(src.files, Join(src.path, listing[i]), src.codecs);
      if content.Read? {
        docs := docs + [content.text];
        filenames := filenames + [listing[i]];
      }
    }
    assert listing[..|listing|] == listing;
    LoadedDocsParallel(src, listing);
  }

  // ---------------------------------------------------------------- embedding and index construction

  /** A float32 embedding vector; the arithmetic on it is not modelled. */
  type Embedding = seq<real>

  /**
   * The sentence-transformer model: `available` is false when loading it or encoding with it
   * raises; otherwise it encodes each document on its own.
   */
  datatype Embedder = Embedder(available: bool, encode: string -> Embedding)

  /** A flat index: the vector added at position i answers searches with ordinal i. */
  datatype FlatIndex = FlatIndex(vectors: seq<Embedding>)

  datatype IndexError =
    | ListingFailed     // os.listdir raised
    | EmbeddingFailed   // loading the model or encoding raised
    | EmptyBatch        // no document was read: the batch has no second dimension for IndexFlatL2
    | WriteFailed       // writing the index or the mapping file raised

  /** The outcome the caller sees: the index, or the error that index_documents re-raises. */
  datatype IndexResult = Built(index: FlatIndex) | Raised(error: IndexError)

  /** Encoding the documents as one batch and adding the batch to a new flat index. */
  function BuildIndex(docs: seq<string>, embedder: Embedder): (r: IndexResult)
    ensures r.Built? <==> embedder.available && docs != []
    ensures r.Raised? ==> r.error == (if embedder.available then EmptyBatch else EmbeddingFailed)
    ensures r.Built? ==> |r.index.vectors| == |docs|
    ensures r.Built? ==> forall i :: 0 <= i < |docs| ==> r.index.vectors[i] == embedder.encode(docs[i])
  {
    if !embedder.available then Raised(EmbeddingFailed)
    else if docs == [] then Raised(EmptyBatch)
    else Built(FlatIndex(seq(|docs|, i requires 0 <= i < |docs| => embedder.encode(docs[i]))))
  }

  // ---------------------------------------------------------------- persistence and the whole run

  /** The bytes faiss.write_index writes for an index and json.dump writes for a mapping. */
  datatype Serializers = Serializers(index: FlatIndex -> seq<byte>, mapping: map<int, string> -> seq<byte>)

  datatype IndexOutcome = IndexOutcome(result: IndexResult, files: map<Path, seq<byte>>)

  /**
   * The persistence step for a non-empty `index_path` `p`: the index goes to p/index.faiss only when
   * p is a directory; the mapping is then written to p/faiss_index_file_mapping.json in any case,
   * which raises when p is not a directory. A raise after the index was written leaves that file.
   */
  function Persist(files: map<Path, seq<byte>>, dirs: set<Path>, p: Path, index: FlatIndex,
                   filenames: seq<string>, ser: Serializers): IndexOutcome
  {
    var indexTarget := Join(p, IndexFileName);
    var mappingTarget := Join(p, MappingFileName);
    if p in dirs && indexTarget in dirs then IndexOutcome(Raised(WriteFailed), files)
    else
      var files1 := if p in dirs then files[indexTarget := ser.index(index)] else files;
      if p !in dirs || mappingTarget in dirs then IndexOutcome(Raised(WriteFailed), files1)
      else IndexOutcome(Built(index), files1[mappingTarget := ser.mapping(FilenamesMapping(filenames))])
  }

  /** index_documents as a function of the disk before the call and of the oracles. */
  function IndexRun(files: map<Path, seq<byte>>, dirs: set<Path>, folder: Path, listing: Option<seq<string>>,
                    indexPath: Option<Path>, codecs: Codecs, embedder: Embedder, ser: Serializers): IndexOutcome
  {
    match listing
    case None => IndexOutcome(Raised(ListingFailed), files)
    case Some(names) =>
      var src := DocFolder(files, folder, codecs);
      var built := BuildIndex(LoadedDocs(src, names), embedder);
      if built.Raised? || indexPath.None? || indexPath.value == "" then IndexOutcome(built, files)
      else Persist(files, dirs, indexPath.value, built.index, ReadableEntries(src, names), ser)
  }

  /**
   * index_documents: loads the documents, builds the index and persists it. Every error after the
   * listing is re-raised, here returned as Raised.
   */
  method IndexDocuments(disk: Disk, folder: Path, listing: Option<seq<string>>, indexPath: Option<Path>,
                        codecs: Codecs, embedder: Embedder, ser: Serializers) returns (r: IndexResult)
    requires disk.Valid()
    modifies disk
    ensures disk.Valid()
    ensures var out := IndexRun(old(disk.files), old(disk.dirs), folder, listing, indexPath, codecs, embedder, ser);
      r == out.result && disk.files == out.files && disk.dirs == old(disk.dirs)
  {
    if listing.None? {
      return Raised(ListingFailed);
    }
    var docs, filenames := LoadDocuments(DocFolder(disk.files, folder, codecs), listing.value);
    r := BuildIndex(docs, embedder);
    if r.Raised? {
      return;
    }
    if indexPath.Some? && indexPath.value != "" {
      var p := indexPath.value;
      if p in disk.dirs {
        var written := disk.WriteFile(p, IndexFileName, ser.index(r.index));
        if !written {
          return Raised(WriteFailed);
        }
      }
      var mapping := CreateFilenamesMapping(filenames);
      var saved := disk.WriteFile(p, MappingFileName, ser.mapping(mapping));
      if !saved {
        return Raised(WriteFailed);
      }
    }
  }

  // ---------------------------------------------------------------- properties of a whole run

  /** Without an `index_path` (None or empty) nothing is persisted, whatever else happens. */
  lemma NothingPersistedWithoutIndexPath(files: map<Path, seq<byte>>, dirs: set<Path>, folder: Path,
                                         listing: Option<seq<string>>, indexPath: Option<Path>,
                                         codecs: Codecs, embedder: Embedder, ser: Serializers)
    requires indexPath.None? || indexPath.value == ""
    ensures var out := IndexRun(files, dirs, folder, listing, indexPath, codecs, embedder, ser);
      && out.files == files
      && (out.result.Built? <==> listing.Some? && embedder.available
                                 && LoadedDocs(DocFolder(files, folder, codecs), listing.value) != [])
  {
  }

  /**
   * A failing listing, a failing embedder or an empty batch is re-raised before anything is
   * written.
   */
  lemma BuildErrorsPropagate(files: map<Path, seq<byte>>, dirs: set<Path>, folder: Path,
                             listing: Option<seq<string>>, indexPath: Option<Path>,
                             codecs: Codecs, embedder: Embedder, ser: Serializers)
    requires listing.None? || !embedder.available || LoadedDocs(DocFolder(files, folder, codecs), listing.value) == []
    ensures var out := IndexRun(files, dirs, folder, listing, indexPath, codecs, embedder, ser);
      out.result.Raised? && out.files == files
  {
  }

  /**
   * An `index_path` that is set but is no directory gets no index file, and the mapping write
   * under it raises: the run fails with nothing written.
   */
  lemma NonDirectoryIndexPathWritesNothing(files: map<Path, seq<byte>>, dirs: set<Path>, folder: Path,
                                           listing: Option<seq<string>>, p: Path,
                                           codecs: Codecs, embedder: Embedder, ser: Serializers)
    requires p != "" && p !in dirs
    ensures var out := IndexRun(files, dirs, folder, listing, Some(p), codecs, embedder, ser);
      out.result.Raised? && out.files == files
  {
  }

  /**
   * An `index_path` that is a directory receives the index file and the mapping file, and the
   * mapping is the one built from the same `filenames` list whose documents were embedded.
   */
  lemma DirectoryIndexPathPersistsBoth(files: map<Path, seq<byte>>, dirs: set<Path>, folder: Path,
                                       names: seq<string>, p: Path,
                                       codecs: Codecs, embedder: Embedder, ser: Serializers)
    requires p != "" && p in dirs
    requires Join(p, IndexFileName) !in dirs && Join(p, MappingFileName) !in dirs
    requires BuildIndex(LoadedDocs(DocFolder(files, folder, codecs), names), embedder).Built?
    ensures var src := DocFolder(files, folder, codecs);
      var built := BuildIndex(LoadedDocs(src, names), embedder);
      var out := IndexRun(files, dirs, folder, Some(names), Some(p), codecs, embedder, ser);
      && out.result == built
      && out.files == files[Join(p, IndexFileName) := ser.index(built.index)]
                           [Join(p, MappingFileName) := ser.mapping(FilenamesMapping(ReadableEntries(src, names)))]
  {
  }

  /**
   * Nothing else changes: a path other than the index file and the mapping file inside an
   * existing `index_path` directory keeps its content, or its absence.
   */
  lemma OnlyIndexPathFilesChange(files: map<Path, seq<byte>>, dirs: set<Path>, folder: Path,
                                 listing: Option<seq<string>>, indexPath: Option<Path>,
                                 codecs: Codecs, embedder: Embedder, ser: Serializers, q: Path)
    requires indexPath.Some? && indexPath.value in dirs ==>
      q != Join(indexPath.value, IndexFileName) && q != Join(indexPath.value, MappingFileName)
    ensures var out := IndexRun(files, dirs, folder, listing, indexPath, codecs, embedder, ser);
      && (q in out.files <==> q in files)
      && (q in files ==> out.files[q] == files[q])
  {
  }

  /** A run that returns an index returns the one built from the loaded documents. */
  lemma SuccessfulRunReturnsBuiltIndex(files: map<Path, seq<byte>>, dirs: set<Path>, folder: Path,
                                       names: seq<string>, indexPath: Option<Path>,
                                       codecs: Codecs, embedder: Embedder, ser: Serializers)
    requires IndexRun(files, dirs, folder, Some(names), indexPath, codecs, embedder, ser).result.Built?
    ensures IndexRun(files, dirs, folder, Some(names), indexPath, codecs, embedder, ser).result
         == BuildIndex(LoadedDocs(DocFolder(files, folder, codecs), names), embedder)
  {
    var src := DocFolder(files, folder, codecs);
    var built := BuildIndex(LoadedDocs(src, names), embedder);
    if !(built.Raised? || indexPath.None? || indexPath.value == "") {
      assert IndexRun(files, dirs, folder, Some(names), indexPath, codecs, embedder, ser)
          == Persist(files, dirs, indexPath.value, built.index, ReadableEntries(src, names), ser);
    }
  }

  /** The vector at position i of a built index is the embedding of the i-th readable entry's content. */
  lemma BuiltIndexMatchesEntries(src: DocFolder, names: seq<string>, embedder: Embedder)
    requires BuildIndex(LoadedDocs(src, names), embedder).Built?
    ensures var index, filenames := BuildIndex(LoadedDocs(src, names), embedder).index, ReadableEntries(src, names);
      && |index.vectors| == |filenames|
      && forall i :: 0 <= i < |index.vectors| ==>
           src.ReadEntry(filenames[i]).Read? && index.vectors[i] == embedder.encode(src.ReadEntry(filenames[i]).text)
  {
    var docs, filenames := LoadedDocs(src, names), ReadableEntries(src, names);
    LoadedDocsParallel(src, names);
    forall i | 0 <= i < |docs|
      ensures src.ReadEntry(filenames[i]).Read? && src.ReadEntry(filenames[i]).text == docs[i]
    {
      assert src.ReadEntry(filenames[i]) == Read(docs[i]);
    }
  }

  /**
   * The mapping's keys are exactly the ordinals of a built index, and the vector at ordinal i is the
   * embedding of the content read from the file the mapping names for i.
   */
  lemma BuiltIndexMatchesMapping(src: DocFolder, names: seq<string>, embedder: Embedder)
    requires BuildIndex(LoadedDocs(src, names), embedder).Built?
    ensures var index := BuildIndex(LoadedDocs(src, names), embedder).index;
      var m := FilenamesMapping(ReadableEntries(src, names));
      && m.Keys == Ordinals(|index.vectors|)
      && forall i :: 0 <= i < |index.vectors| ==>
           src.ReadEntry(m[i]).Read? && index.vectors[i] == embedder.encode(src.ReadEntry(m[i]).text)
  {
    BuiltIndexMatchesEntries(src, names, embedder);
    FilenamesMappingShape(ReadableEntries(src, names));
  }

  /**
   * Ordinal consistency: after a successful run the mapping's keys are exactly the ordinals of the
   * index, and the vector at ordinal i is the embedding of the content read from the file the
   * mapping names for i.
   */
  lemma OrdinalsNameTheirDocuments(files: map<Path, seq<byte>>, dirs: set<Path>, folder: Path,
                                   names: seq<string>, indexPath: Option<Path>,
                                   codecs: Codecs, embedder: Embedder, ser: Serializers)
    requires IndexRun(files, dirs, folder, Some(names), indexPath, codecs, embedder, ser).result.Built?
    ensures var src := DocFolder(files, folder, codecs);
      var index := IndexRun(files, dirs, folder, Some(names), indexPath, codecs, embedder, ser).result.index;
      var m := FilenamesMapping(ReadableEntries(src, names));
      && m.Keys == Ordinals(|index.vectors|)
      && forall i :: 0 <= i < |index.vectors| ==>
           src.ReadEntry(m[i]).Read? && index.vectors[i] == embedder.encode(src.ReadEntry(m[i]).text)
  {
    SuccessfulRunReturnsBuiltIndex(files, dirs, folder, names, indexPath, codecs, embedder, ser);
    BuiltIndexMatchesMapping(DocFolder(files, folder, codecs), names, embedder);
  }

}
