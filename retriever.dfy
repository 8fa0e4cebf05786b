/**
 * The retrieval filter of utils/retriever.py: the ordinals returned by the index search are
 * resolved to filenames through the mapping, each existing document is shown to a judging model,
 * and the accepted ones are copied into the output folder under the name `{ordinal}{extension}`.
 * Any exception makes the call return the empty list, while whatever it already did to the output
 * folder stays done.
 *
 * The collaborators are oracles: the search result is a sequence of ordinals (None when encoding the
 * query or searching raised), the judging model is a `Judge` (None when loading it raised), and the
 * file system is a `Disk`.
 */
module Retriever {
  import opened Wrappers
  import opened Sequences
  import opened Text
  import opened FileSystem

  /** The folder holding the source documents. */
  const UploadedFolder: Path := "uploaded_documents"

  /** The output folder, created on demand. */
  const RetrievedFolder: Path := "retrieved_documents"

  /**
   * The judging model's response.text to the relevance prompt built from a document's bytes and the
   * query; None when generate_content or reading the response text raises.
   */
  type Judge = (seq<byte>, string) -> Option<string>

  // ---------------------------------------------------------------- analyze_chunk_with_llm

  /** The acceptance rule as the code writes it: response.text.strip().lower() == 'yes'. */
  predicate Relevant(response: string) {
    Lower(Strip(response)) == "yes"
  }

  /** An independent reading of the rule: "yes" in any letter case, padded only by whitespace. */
  ghost predicate PaddedYes(s: string) {
    exists i, j :: 0 <= i <= j <= |s| && AllSpace(s[..i]) && AllSpace(s[j..]) && Lower(s[i..j]) == "yes"
  }

  /** A stripped "yes" is a padded "yes": the witness is the stripped slice. */
  lemma RelevantIsPaddedYes(response: string)
    requires Relevant(response)
    ensures PaddedYes(response)
  {
    StripIsPaddedSlice(response);
    var t := Strip(response);
    var i := |response| - |TrimStart(response)|;
    assert response[i..i + |t|] == t;
    assert AllSpace(response[..i]) && AllSpace(response[i + |t|..]) && Lower(response[i..i + |t|]) == "yes";
  }

  /** A padded "yes" strips to a "yes": its first and last letters are not whitespace. */
  lemma PaddedYesIsRelevant(response: string, i: int, j: int)
    requires 0 <= i <= j <= |response| && AllSpace(response[..i]) && AllSpace(response[j..])
    requires Lower(response[i..j]) == "yes"
    ensures Relevant(response)
  {
    var w := response[i..j];
    assert |w| == 3;
    assert Lower(w)[0] == LowerChar(w[0]) == 'y';
    assert Lower(w)[2] == LowerChar(w[2]) == 's';
    assert w[0] == response[i] && w[2] == response[j - 1];
    StripRemovesPadding(response, i, j);
  }

  lemma RelevantIffPaddedYes(response: string)
    ensures Relevant(response) <==> PaddedYes(response)
  {
    if Relevant(response) {
      RelevantIsPaddedYes(response);
    }
    if PaddedYes(response) {
      var i, j :| 0 <= i <= j <= |response| && AllSpace(response[..i]) && AllSpace(response[j..])
                  && Lower(response[i..j]) == "yes";
      PaddedYesIsRelevant(response, i, j);
    }
  }

  /** Answers the rule accepts: "yes" in any letter case. */
  lemma AcceptedAnswers()
    ensures Relevant("Yes") && Relevant("YES")
  {
    assert Lower("Yes") == "yes";
    PaddedYesIsRelevant("Yes", 0, 3);
    assert Lower("YES") == "yes";
    PaddedYesIsRelevant("YES", 0, 3);
  }

  /** The rule accepts a "yes" padded with whitespace. */
  lemma PaddedAnswerAccepted()
    ensures Relevant(" yes ") && Relevant("yes\n")
  {
    assert " yes "[1..4] == "yes";
    PaddedYesIsRelevant(" yes ", 1, 4);
    assert "yes\n"[0..3] == "yes";
    PaddedYesIsRelevant("yes\n", 0, 3);
  }

  /** An answer shorter than "yes" is never accepted, whatever its letters. */
  lemma ShortAnswerRejected(response: string)
    requires |response| < 3
    ensures !Relevant(response)
  {
    StripIsPaddedSlice(response);
  }

  /** An answer with no padding to strip is accepted only if it has exactly three letters. */
  lemma UnpaddedAnswerRejected(response: string)
    requires response != [] && !IsSpace(response[0]) && !IsSpace(response[|response| - 1])
    requires |response| != 3
    ensures !Relevant(response)
  {
    StripRemovesPadding(response, 0, |response|);
    assert response[0..|response|] == response;
  }

  /** Answers the rule rejects: a different word, an empty answer, and "yes" with more text after it. */
  lemma RejectedAnswers()
    ensures !Relevant("no") && !Relevant("") && !Relevant("yes please")
  {
    ShortAnswerRejected("no");
    ShortAnswerRejected("");
    UnpaddedAnswerRejected("yes please");
  }

  /**
   * analyze_chunk_with_llm: asks the judge about a chunk and the query. It raises when the judge
   * does; otherwise it returns whether the answer is a padded "yes", and the chunk unchanged.
   */
  function AnalyzeChunkWithLlm(judge: Judge, chunk: seq<byte>, query: string): (r: Option<(bool, seq<byte>)>)
    ensures r.None? <==> judge(chunk, query).None?
    ensures r.Some? ==> r.value.1 == chunk && (r.value.0 <==> PaddedYes(judge(chunk, query).value))
  {
    match judge(chunk, query)
    case None => None
    case Some(text) =>
      RelevantIffPaddedYes(text);
      Some((Relevant(text), chunk))
  }

  // ---------------------------------------------------------------- names and paths

  /** os.path.join('uploaded_documents', name). */
  function SourcePath(name: string): Path {
    Join(UploadedFolder, name)
  }

  /** f"{idx}{os.path.splitext(name)[-1]}". */
  function DestName(idx: int, name: string): string {
    IntToString(idx) + Extension(name)
  }

  /** The copy's path inside the output folder; also the path appended to the result. */
  function DestPath(idx: int, name: string): Path {
    Join(RetrievedFolder, DestName(idx, name))
  }

  /** No source document lives in the output folder. */
  lemma SourceIsNeverInOutputFolder(name: string, dest: string)
    ensures SourcePath(name) != Join(RetrievedFolder, dest)
  {
    assert SourcePath(name)[0] == 'u';
    assert Join(RetrievedFolder, dest)[0] == 'r';
  }

  /** The index of the first '.' in `s`, or |s| when there is none. */
  function FirstDot(s: string): (n: nat)
    ensures n <= |s|
  {
    if s == [] || s[0] == '.' then 0 else 1 + FirstDot(s[1..])
  }

  /** In a dot-free prefix followed by an extension, the first dot is where the extension starts. */
  lemma {:induction false} FirstDotEndsPrefix(x: string, e: string)
    requires forall k :: 0 <= k < |x| ==> x[k] != '.'
    requires e == [] || e[0] == '.'
    ensures FirstDot(x + e) == |x|
    decreases |x|
  {
    if x != [] {
      assert (x + e)[0] == x[0];
      assert (x + e)[1..] == x[1..] + e;
      FirstDotEndsPrefix(x[1..], e);
    }
  }

  /** A decimal numeral followed by an extension determines the numeral. */
  lemma NumeralBeforeExtension(x: string, e: string, y: string, f: string)
    requires forall k :: 0 <= k < |x| ==> x[k] != '.'
    requires forall k :: 0 <= k < |y| ==> y[k] != '.'
    requires e == [] || e[0] == '.'
    requires f == [] || f[0] == '.'
    requires x + e == y + f
    ensures x == y
  {
    FirstDotEndsPrefix(x, e);
    FirstDotEndsPrefix(y, f);
    assert x == (x + e)[..|x|];
    assert y == (y + f)[..|y|];
  }

  /** Distinct ordinals never share a destination, so their copies cannot collide. */
  lemma DistinctOrdinalsHaveDistinctDestinations(a: int, na: string, b: int, nb: string)
    requires a != b
    ensures DestPath(a, na) != DestPath(b, nb)
  {
    if DestPath(a, na) == DestPath(b, nb) {
      JoinInjective(RetrievedFolder, DestName(a, na), DestName(b, nb));
      NumeralBeforeExtension(IntToString(a), Extension(na), IntToString(b), Extension(nb));
      IntToStringInjective(a, b);
      assert false;
    }
  }

  // ---------------------------------------------------------------- the loop of retrieve_documents

  /** `doc_filename = filenames_mapping.get(idx, None)` followed by `if doc_filename:`. */
  predicate Mapped(mapping: map<int, string>, idx: int) {
    idx in mapping && mapping[idx] != ""
  }

  /** What the loop sees: the mapping, the directories (fixed during the loop), the query and the judge. */
  datatype Context = Context(mapping: map<int, string>, dirs: set<Path>, query: string, judge: Judge)

  /** The loop's state: the files on disk, the paths appended so far, and whether an exception was raised. */
  datatype Progress = Progress(files: map<Path, seq<byte>>, found: seq<Path>, raised: bool)

  /** One iteration of the loop, for the ordinal `idx`. */
  function Step(ctx: Context, idx: int, st: Progress): Progress {
    if !Mapped(ctx.mapping, idx) then st
    else
      var name := ctx.mapping[idx];
      var src := SourcePath(name);
      if src !in st.files && src !in ctx.dirs then st
      else
        var dest := DestPath(idx, name);
        // os.remove raises on a directory
        if dest in ctx.dirs then st.(raised := true)
        else
          var files := st.files - {dest};
          // open(doc_path, 'rb') raises on a directory
          if src !in files then Progress(files, st.found, true)
          else
            match AnalyzeChunkWithLlm(ctx.judge, files[src], ctx.query)
            case None => Progress(files, st.found, true)
            case Some(verdict) =>
              if verdict.0 then Progress(files[dest := verdict.1], st.found + [dest], false)
              else Progress(files, st.found, false)
  }

  /** The loop over the ordinals; the first exception ends it. */
  function Run(ctx: Context, ords: seq<int>, st: Progress): Progress
    decreases |ords|
  {
    if ords == [] || st.raised then st else Run(ctx, ords[1..], Step(ctx, ords[0], st))
  }

  /** The disk after the call and the list the call returns. */
  datatype Retrieval = Retrieval(files: map<Path, seq<byte>>, dirs: set<Path>, paths: seq<Path>)

  /** The context of the loop once the output folder exists. */
  function LoopContext(mapping: map<int, string>, dirs: set<Path>, query: string, judge: Judge): Context {
    Context(mapping, dirs + {RetrievedFolder}, query, judge)
  }

  /**
   * retrieve_documents as a function of the disk before the call and of the oracles: search, create
   * the output folder (raises when a file has its name), load the judge, run the loop; an
   * exception anywhere gives the empty list.
   */
  function Retrieve(files: map<Path, seq<byte>>, dirs: set<Path>, mapping: map<int, string>, query: string,
                    search: Option<seq<int>>, judge: Option<Judge>): Retrieval
  {
    if search.None? || RetrievedFolder in files then Retrieval(files, dirs, [])
    else if judge.None? then Retrieval(files, dirs + {RetrievedFolder}, [])
    else
      var fin := Run(LoopContext(mapping, dirs, query, judge.value), search.value, Progress(files, [], false));
      Retrieval(fin.files, dirs + {RetrievedFolder}, if fin.raised then [] else fin.found)
  }

  /**
   * One pass of the loop body of retrieve_documents for the ordinal `idx`: look the name up, skip a
   * missing document, remove a stale copy, read and judge the document, and copy it when accepted.
   */
  method HandleOrdinal(disk: Disk, mapping: map<int, string>, query: string, ask: Judge,
                       idx: int, found: seq<Path>) returns (found': seq<Path>, raised: bool)
    requires disk.Valid() && RetrievedFolder in disk.dirs
    modifies disk
    ensures disk.Valid() && disk.dirs == old(disk.dirs)
    ensures Progress(disk.files, found', raised)
         == Step(Context(mapping, old(disk.dirs), query, ask), idx, Progress(old(disk.files), found, false))
  {
    found', raised := found, false;
    if idx in mapping && mapping[idx] != "" {
      var name := mapping[idx];
      var src := SourcePath(name);
      if disk.Exists(src) {
        var destName := DestName(idx, name);
        var dest := Join(RetrievedFolder, destName);
        SourceIsNeverInOutputFolder(name, destName);
        if disk.Exists(dest) {
          var removed := disk.Remove(dest);
          if !removed {
            return found, true;
          }
        }
        if src !in disk.files {
          return found, true;
        }
        var verdict := AnalyzeChunkWithLlm(ask, disk.files[src], query);
        if verdict.None? {
          return found, true;
        }
        if verdict.value.0 {
          var written := disk.WriteFile(RetrievedFolder, destName, verdict.value.1);
          assert written;
          found' := found + [dest];
        }
      }
    }
  }

  /**
   * retrieve_documents: search, create the output folder, load the judge, then handle the ordinals
   * in order; an exception makes the result empty but keeps the changes already made to the disk.
   */
  method RetrieveDocuments(disk: Disk, mapping: map<int, string>, query: string,
                           search: Option<seq<int>>, judge: Option<Judge>) returns (paths: seq<Path>)
    requires disk.Valid()
    modifies disk
    ensures disk.Valid()
    ensures Retrieval(disk.files, disk.dirs, paths) == Retrieve(old(disk.files), old(disk.dirs), mapping, query, search, judge)
  {
    if search.None? {
      return [];
    }
    var ords := search.value;
    var made := disk.MakeDirs(RetrievedFolder);
    if !made {
      return [];
    }
    if judge.None? {
      return [];
    }
    var ask := judge.value;
    ghost var ctx := LoopContext(mapping, old(disk.dirs), query, ask);
    ghost var start := Progress(disk.files, [], false);
    var found: seq<Path> := [];
    for i := 0 to |ords|
      invariant disk.Valid() && disk.dirs == ctx.dirs
      invariant Run(ctx, ords[i..], Progress(disk.files, found, false)) == Run(ctx, ords, start)
    {
      assert ords[i..][1..] == ords[i + 1..];
      var raised;
      found, raised := HandleOrdinal(disk, mapping, query, ask, ords[i], found);
      if raised {
        return [];
      }
    }
    assert ords[|ords|..] == [];
    return found;
  }
}
