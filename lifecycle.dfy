/**
 * What the two stateful operations of the core do, as functions of the
 * state before the call and the answers of the collaborators:
 * `VectorDatabase.create_vector_db` and `get_relevant_docs`
 * (rag_retriever.py) and `DataIngestion.load_and_vectorize`
 * (data_ingestion.py). The classes in vector_database.dfy and
 * data_ingestion.dfy are proved to behave as these functions say; the lemmas
 * here state what the source promises about them.
 */
module Lifecycle {
  import opened Wrappers
  import opened Seqs
  import opened Backend
  import opened CitationNormalizer
  import opened KeywordNormalizer

  /** `get_relevant_docs` always searches with `k=2`. */
  const SearchK: int := 2

  /** The directory `DataIngestion` writes under, and the index name inside it. */
  const IndexDirName: string := "Faiss_indexes"
  const IndexName: string := "faiss_Pdf_Index"

  /**
   * `os.path.join(dir, name)` on POSIX: an absolute `name` replaces `dir`,
   * and a separator is inserted only when `dir` is non-empty and does not
   * already end with one.
   */
  function JoinPath(dir: string, name: string): (r: string)
    ensures |name| <= |r| && r[|r| - |name|..] == name
  {
    if |name| > 0 && name[0] == '/' then name
    else if dir == [] || dir[|dir| - 1] == '/' then dir + name
    else dir + "/" + name
  }

  /** Under the root directory no second separator is inserted. */
  lemma JoinPathAtRoot()
    ensures JoinPath("/", IndexDirName) == "/Faiss_indexes"
  {
    assert IndexDirName[0] == 'F';
  }

  /** Under any non-empty directory not ending in `/`, one separator is inserted. */
  lemma JoinPathUnderDir(dir: string)
    requires dir != [] && dir[|dir| - 1] != '/'
    ensures JoinPath(dir, IndexDirName) == dir + "/" + IndexDirName
  {
    assert IndexDirName[0] == 'F';
  }

  /**
   * The effect of `create_vector_db`: the store it assigns to `vector_store`
   * (`None` when it assigns nothing), the value it returns, the calls it
   * makes and the paths that exist afterwards.
   */
  datatype CreateOutcome = CreateOutcome(stored: Option<Store>, returned: Option<Store>, calls: seq<Call>, existing: set<string>)

  /** The effect of `get_relevant_docs`: the new `vector_store`, the result, the calls, the paths. */
  datatype QueryOutcome = QueryOutcome(store: Option<Store>, result: Option<seq<string>>, calls: seq<Call>, existing: set<string>)

  /** The effect of `load_and_vectorize`: its result, the calls, the paths. */
  datatype IngestOutcome = IngestOutcome(result: Option<Store>, calls: seq<Call>, existing: set<string>)

  function CreateVectorDb(env: Env, pdfPath: string, indexPath: string): CreateOutcome {
    var load := [LoadDocuments(pdfPath, true)];
    match env.loader(pdfPath, true)
    case None => CreateOutcome(None, None, load, env.existing)
    case Some(docs) =>
      if docs == [] then CreateOutcome(None, None, load, env.existing)  // "No documents loaded"
      else
        var contents := Map(Normalize, docs);
        var built := env.buildIndex(contents);
        var calls := load + [BuildIndex(contents)];
        if built.None? then CreateOutcome(None, None, calls, env.existing)
        else if env.saveSucceeds(built.value, indexPath) then
          CreateOutcome(built, built, calls + [SaveLocal(indexPath)], PathsAfterSave(env, built.value, indexPath))
        else
          // vector_store is stored before save_local raises
          CreateOutcome(built, None, calls + [SaveLocal(indexPath)], PathsAfterSave(env, built.value, indexPath))
  }

  /** Line 74 of rag_retriever.py: search a held store, or raise (and return `None`) on an unset one. */
  function SearchHeld(store: Option<Store>, env: Env, query: string, before: seq<Call>, existing: set<string>): QueryOutcome {
    match store
    case None => QueryOutcome(None, None, before, existing)
    case Some(st) =>
      QueryOutcome(store, env.search(st, query, SearchK), before + [SimilaritySearch(query, SearchK)], existing)
  }

  function GetRelevantDocs(store: Option<Store>, env: Env, pdfPath: string, indexPath: string, query: string): QueryOutcome {
    if store.Some? then SearchHeld(store, env, query, [], env.existing)
    else if indexPath !in env.existing then
      var c := CreateVectorDb(env, pdfPath, indexPath);
      SearchHeld(c.stored, env, query, [PathExists(indexPath)] + c.calls, c.existing)
    else
      SearchHeld(env.loadLocal(indexPath), env, query, [PathExists(indexPath), LoadLocal(indexPath)], env.existing)
  }

  /** `DataIngestion.preprocess_text` with its stop words and lemmatiser fixed. */
  function KeywordDocument(stop: set<string>, lemmatize: string -> string): string -> string {
    text => KeywordText(text, stop, lemmatize)
  }

  function LoadAndVectorize(env: Env, pdfPath: string, outputDir: string, stop: set<string>, lemmatize: string -> string): IngestOutcome {
    var load := [LoadDocuments(pdfPath, false)];
    match env.loader(pdfPath, false)
    case None => IngestOutcome(None, load, env.existing)
    case Some(docs) =>
      var contents := Map(KeywordDocument(stop, lemmatize), docs);
      var built := env.buildIndex(contents);
      var calls := load + [BuildIndex(contents)];
      var path := JoinPath(outputDir, IndexName);
      if built.None? then IngestOutcome(None, calls, env.existing)
      else if env.saveSucceeds(built.value, path) then
        IngestOutcome(built, calls + [SaveLocal(path)], PathsAfterSave(env, built.value, path))
      else
        IngestOutcome(None, calls + [SaveLocal(path)], PathsAfterSave(env, built.value, path))
  }

  /** The call log holds a document load, i.e. `create_vector_db` ran. */
  predicate Builds(calls: seq<Call>) {
    exists i :: 0 <= i < |calls| && calls[i].LoadDocuments?
  }

  /** The call log holds an index load, i.e. `load_vector_db` ran. */
  predicate Loads(calls: seq<Call>) {
    exists i :: 0 <= i < |calls| && calls[i].LoadLocal?
  }

  predicate Searches(calls: seq<Call>) {
    exists i :: 0 <= i < |calls| && calls[i].SimilaritySearch?
  }

  /** What the build path leaves in `vector_store`: the built store, whether or not saving it succeeds. */
  function BuiltStore(env: Env, pdfPath: string): Option<Store> {
    match env.loader(pdfPath, true)
    case None => None
    case Some(docs) => if docs == [] then None else env.buildIndex(Map(Normalize, docs))
  }

  /** With a store held, only the search runs, on that store, and nothing else changes. */
  lemma HeldStoreIsSearched(st: Store, env: Env, pdfPath: string, indexPath: string, query: string)
    ensures GetRelevantDocs(Some(st), env, pdfPath, indexPath, query) ==
      QueryOutcome(Some(st), env.search(st, query, SearchK), [SimilaritySearch(query, SearchK)], env.existing)
  {
  }

  /**
   * With no store held, the index path is checked first; build runs exactly
   * when the path does not exist, load exactly when it does, never both.
   */
  lemma UnsetStoreBuildsOrLoads(env: Env, pdfPath: string, indexPath: string, query: string)
    ensures var o := GetRelevantDocs(None, env, pdfPath, indexPath, query);
      |o.calls| > 0 && o.calls[0] == PathExists(indexPath) &&
      (Builds(o.calls) <==> indexPath !in env.existing) &&
      (Loads(o.calls) <==> indexPath in env.existing)
  {
    var o := GetRelevantDocs(None, env, pdfPath, indexPath, query);
    if indexPath !in env.existing {
      assert o.calls[1].LoadDocuments?;
      var c := CreateVectorDb(env, pdfPath, indexPath);
      assert forall i :: 0 <= i < |c.calls| ==> !c.calls[i].LoadLocal?;
      assert forall i :: 1 <= i < |o.calls| ==> (i - 1 < |c.calls| && o.calls[i] == c.calls[i - 1]) || o.calls[i].SimilaritySearch?;
    } else {
      assert o.calls[1].LoadLocal?;
    }
  }

  /**
   * With no store held, `vector_store` is set exactly by a successful load,
   * or by a successful build of a non-empty document list, to that store.
   */
  lemma StoreSetOnlyOnSuccess(env: Env, pdfPath: string, indexPath: string, query: string)
    ensures GetRelevantDocs(None, env, pdfPath, indexPath, query).store ==
      if indexPath in env.existing then env.loadLocal(indexPath) else BuiltStore(env, pdfPath)
  {
  }

  /**
   * A call that leaves the store unset returns `None` without searching, and
   * the next call, whatever the collaborators then answer, starts over with the
   * path check.
   */
  lemma FailureReturnsNoneAndRetries(env: Env, env': Env, pdfPath: string, indexPath: string, query: string, query': string)
    ensures var o := GetRelevantDocs(None, env, pdfPath, indexPath, query);
      o.store.None? ==>
        o.result.None? && !Searches(o.calls) &&
        GetRelevantDocs(o.store, env', pdfPath, indexPath, query').calls[0] == PathExists(indexPath)
  {
    var o := GetRelevantDocs(None, env, pdfPath, indexPath, query);
    if o.store.None? && indexPath !in env.existing {
      var c := CreateVectorDb(env, pdfPath, indexPath);
      assert forall i :: 0 <= i < |c.calls| ==> !c.calls[i].SimilaritySearch?;
    }
  }

  /**
   * A search is issued exactly when a store is held after the lifecycle
   * step, only once, always with the caller's query and `k = 2`, as the
   * last call; its answer is the result.
   */
  lemma SearchIsTopTwo(store: Option<Store>, env: Env, pdfPath: string, indexPath: string, query: string)
    ensures var o := GetRelevantDocs(store, env, pdfPath, indexPath, query);
      (Searches(o.calls) <==> o.store.Some?) &&
      (forall i :: 0 <= i < |o.calls| && o.calls[i].SimilaritySearch? ==>
         i == |o.calls| - 1 && o.calls[i] == SimilaritySearch(query, SearchK)) &&
      (o.store.Some? ==> o.result == env.search(o.store.value, query, SearchK))
  {
    var o := GetRelevantDocs(store, env, pdfPath, indexPath, query);
    if store.None? && indexPath !in env.existing {
      var c := CreateVectorDb(env, pdfPath, indexPath);
      assert forall i :: 0 <= i < |c.calls| ==> !c.calls[i].SimilaritySearch?;
    }
    if o.store.Some? {
      assert o.calls[|o.calls| - 1].SimilaritySearch?;
    }
  }

  /** The index is only ever built from the normalised contents of a non-empty list of loaded documents. */
  lemma BuildSeesNormalizedDocuments(store: Option<Store>, env: Env, pdfPath: string, indexPath: string, query: string)
    ensures var o := GetRelevantDocs(store, env, pdfPath, indexPath, query);
      forall i :: 0 <= i < |o.calls| && o.calls[i].BuildIndex? ==>
        env.loader(pdfPath, true).Some? && env.loader(pdfPath, true).value != [] &&
        o.calls[i].contents == Map(Normalize, env.loader(pdfPath, true).value)
  {
  }

  /**
   * An existing index path whose load fails leaves the store unset, returns
   * `None` and never falls back to a build: every later call repeats it.
   */
  lemma FailedLoadNeverRebuilds(env: Env, pdfPath: string, indexPath: string, query: string)
    requires indexPath in env.existing && env.loadLocal(indexPath).None?
    ensures GetRelevantDocs(None, env, pdfPath, indexPath, query) ==
      QueryOutcome(None, None, [PathExists(indexPath), LoadLocal(indexPath)], env.existing)
  {
  }

  /** An empty document list is refused before anything is built. */
  lemma EmptyDocumentsLeaveStoreUnset(env: Env, pdfPath: string, indexPath: string, query: string)
    requires indexPath !in env.existing && env.loader(pdfPath, true) == Some([])
    ensures GetRelevantDocs(None, env, pdfPath, indexPath, query) ==
      QueryOutcome(None, None, [PathExists(indexPath), LoadDocuments(pdfPath, true)], env.existing)
  {
  }

  /**
   * A store that is built but not saved is still held and queried. The index
   * path exists afterwards exactly when the save succeeds or raises after
   * creating the folder.
   */
  lemma BuiltStoreIsHeldWhetherOrNotSaved(env: Env, pdfPath: string, indexPath: string, query: string, st: Store)
    requires indexPath !in env.existing && BuiltStore(env, pdfPath) == Some(st)
    ensures var o := GetRelevantDocs(None, env, pdfPath, indexPath, query);
      o.store == Some(st) && o.result == env.search(st, query, SearchK) &&
      o.existing == (if env.saveSucceeds(st, indexPath) || env.saveLeavesPath(st, indexPath)
                     then env.existing + {indexPath} else env.existing) &&
      (indexPath in o.existing <==> env.saveSucceeds(st, indexPath) || env.saveLeavesPath(st, indexPath))
  {
  }

  /**
   * A save that raises after creating the index folder strands every later
   * retriever: the first one holds the built store, but a new one finds the
   * path, and when that partial index cannot be loaded it returns `None`
   * without ever building.
   */
  lemma PartialSaveStrandsNewRetrievers(env: Env, pdfPath: string, indexPath: string, query: string, query': string, st: Store)
    requires indexPath !in env.existing && BuiltStore(env, pdfPath) == Some(st)
    requires !env.saveSucceeds(st, indexPath) && env.saveLeavesPath(st, indexPath)
    requires env.loadLocal(indexPath).None?
    ensures var o := GetRelevantDocs(None, env, pdfPath, indexPath, query);
      o.store == Some(st) && indexPath in o.existing &&
      GetRelevantDocs(None, env.(existing := o.existing), pdfPath, indexPath, query') ==
        QueryOutcome(None, None, [PathExists(indexPath), LoadLocal(indexPath)], o.existing)
  {
    var o := GetRelevantDocs(None, env, pdfPath, indexPath, query);
    BuiltStoreIsHeldWhetherOrNotSaved(env, pdfPath, indexPath, query, st);
    FailedLoadNeverRebuilds(env.(existing := o.existing), pdfPath, indexPath, query');
  }

  /** `create_vector_db` returns the store only when it was also saved. */
  lemma CreateReturnsOnlySavedStore(env: Env, pdfPath: string, indexPath: string)
    ensures var c := CreateVectorDb(env, pdfPath, indexPath);
      c.stored == BuiltStore(env, pdfPath) &&
      (c.returned.Some? <==> c.stored.Some? && env.saveSucceeds(c.stored.value, indexPath)) &&
      (c.returned.Some? ==> c.returned == c.stored && indexPath in c.existing)
  {
  }

  /**
   * `load_and_vectorize` builds from the keyword-normalised contents, one per
   * loaded document, and builds at most once.
   */
  lemma IngestPreprocessesEveryDocument(env: Env, pdfPath: string, outputDir: string, stop: set<string>, lemmatize: string -> string)
    ensures var o := LoadAndVectorize(env, pdfPath, outputDir, stop, lemmatize);
      forall i :: 0 <= i < |o.calls| && o.calls[i].BuildIndex? ==>
        i == 1 && env.loader(pdfPath, false).Some? &&
        |o.calls[i].contents| == |env.loader(pdfPath, false).value| &&
        forall j :: 0 <= j < |o.calls[i].contents| ==>
          o.calls[i].contents[j] == KeywordText(env.loader(pdfPath, false).value[j], stop, lemmatize)
  {
  }

  /**
   * `load_and_vectorize` returns a store exactly when loading, building and
   * saving all succeed; then the index exists on disk. Any failure gives
   * `None`; only a save that raises after creating the folder leaves a path
   * behind.
   */
  lemma IngestNoneOnAnyFailure(env: Env, pdfPath: string, outputDir: string, stop: set<string>, lemmatize: string -> string)
    ensures var o := LoadAndVectorize(env, pdfPath, outputDir, stop, lemmatize);
      var path := JoinPath(outputDir, IndexName);
      var built := if env.loader(pdfPath, false).Some?
        then env.buildIndex(Map(KeywordDocument(stop, lemmatize), env.loader(pdfPath, false).value)) else None;
      (o.result.Some? <==> built.Some? && env.saveSucceeds(built.value, path)) &&
      (o.result.Some? ==> o.result == built && o.existing == env.existing + {path}) &&
      (o.result.None? ==>
        o.existing == if built.Some? && env.saveLeavesPath(built.value, path) then env.existing + {path} else env.existing)
  {
  }
}
