/**
 * The collaborators the core calls but does not implement: the document
 * loader, the text splitter and embedding model with the FAISS index build,
 * index persistence and similarity search, and `os.path.exists`. Each is an
 * oracle that may succeed or fail; a failure stands for a raised exception.
 */
module Backend {
  import opened Wrappers
  import opened Seqs

  /** A handle to an in-memory FAISS vector store. */
  datatype Store = Store(handle: nat)

  /** One call into a collaborator, in the order it is made. */
  datatype Call =
    | PathExists(path: string)
    | LoadDocuments(path: string, autodetectEncoding: bool)
    | BuildIndex(contents: seq<string>)
    | SaveLocal(path: string)
    | LoadLocal(path: string)
    | SimilaritySearch(query: string, k: int)
    | MakeDirs(path: string)

  /**
   * A snapshot of the collaborators: the paths that exist on disk and, for
   * each oracle, what it answers (`None`/`false` where it raises).
   *  - loader: `UnstructuredLoader(path, ...).load()`, the contents of the
   *    documents it yields (one per partitioned element);
   *  - buildIndex: splitting into chunks, `filter_complex_metadata`,
   *    embedding and `FAISS.from_documents` on the given document contents;
   *  - saveSucceeds: whether `save_local` to the path completes;
   *  - saveLeavesPath: whether a `save_local` that raises has already
   *    created the folder at the path (it creates the folder before it
   *    writes the index files);
   *  - loadLocal: `FAISS.load_local(path, embeddings)`;
   *  - search: `similarity_search(query, k)` on a store.
   */
  datatype Env = Env(
    existing: set<string>,
    loader: (string, bool) -> Option<seq<string>>,
    buildIndex: seq<string> -> Option<Store>,
    saveSucceeds: (Store, string) -> bool,
    saveLeavesPath: (Store, string) -> bool,
    loadLocal: string -> Option<Store>,
    search: (Store, string, int) -> Option<seq<string>>)

  /** The paths that exist after saving `st` to `path`: the path is added by a save that succeeds or that raises after creating it. */
  function PathsAfterSave(env: Env, st: Store, path: string): set<string> {
    if env.saveSucceeds(st, path) || env.saveLeavesPath(st, path) then env.existing + {path} else env.existing
  }

  /** A loaded document; the core rewrites `page_content` in place. */
  class Document {
    var pageContent: string

    constructor (content: string)
      ensures pageContent == content
    {
      pageContent := content;
    }
  }

  function Contents(docs: seq<Document>): (r: seq<string>)
    reads docs
    ensures |r| == |docs| && forall i :: 0 <= i < |docs| ==> r[i] == docs[i].pageContent
  {
    if docs == [] then [] else [docs[0].pageContent] + Contents(docs[1..])
  }

  predicate Distinct(docs: seq<Document>) {
    forall i, j :: 0 <= i < j < |docs| ==> docs[i] != docs[j]
  }

  /** `for doc in docs: doc.page_content = f(doc.page_content)`. */
  method RewriteContents(docs: seq<Document>, f: string -> string)
    requires Distinct(docs)
    modifies docs
    ensures Contents(docs) == Map(f, old(Contents(docs)))
  {
    for i := 0 to |docs|
      invariant forall j :: 0 <= j < i ==> docs[j].pageContent == f(old(docs[j].pageContent))
      invariant forall j :: i <= j < |docs| ==> docs[j].pageContent == old(docs[j].pageContent)
    {
      docs[i].pageContent := f(docs[i].pageContent);
    }
  }

  /**
   * Load the documents and rewrite every document in place with `f`, giving the
   * rewritten contents; `None` when the loader raises.
   */
  method LoadRewritten(host: Host, path: string, autodetectEncoding: bool, f: string -> string)
    returns (contents: Option<seq<string>>)
    modifies host`log
    ensures host.log == old(host.log) + [LoadDocuments(path, autodetectEncoding)]
    ensures contents.None? <==> host.loader(path, autodetectEncoding).None?
    ensures contents.Some? ==> contents.value == Map(f, host.loader(path, autodetectEncoding).value)
  {
    var docs := host.LoadDocuments(path, autodetectEncoding);
    if docs.None? {
      return None;
    }
    RewriteContents(docs.value, f);
    return Some(Contents(docs.value));
  }

  /** The live collaborators: the oracles, the file system and a log of every call made. */
  class Host {
    var existing: set<string>
    const loader: (string, bool) -> Option<seq<string>>
    const buildIndex: seq<string> -> Option<Store>
    const saveSucceeds: (Store, string) -> bool
    const saveLeavesPath: (Store, string) -> bool
    const loadLocal: string -> Option<Store>
    const search: (Store, string, int) -> Option<seq<string>>
    var log: seq<Call>

    /** The collaborators as they stand when the file system holds `existing`. */
    function With(existing: set<string>): Env {
      Env(existing, loader, buildIndex, saveSucceeds, saveLeavesPath, loadLocal, search)
    }

    constructor (env: Env)
      ensures With(existing) == env && log == []
    {
      existing, loader, buildIndex := env.existing, env.loader, env.buildIndex;
      saveSucceeds, saveLeavesPath := env.saveSucceeds, env.saveLeavesPath;
      loadLocal, search := env.loadLocal, env.search;
      log := [];
    }

    /** `os.path.exists(path)`. */
    method PathExists(path: string) returns (b: bool)
      modifies this`log
      ensures b == (path in existing)
      ensures log == old(log) + [Call.PathExists(path)]
    {
      b := path in existing;
      log := log + [Call.PathExists(path)];
    }

    /** `os.makedirs(path, exist_ok=True)`. */
    method MakeDirs(path: string)
      modifies this`existing, this`log
      ensures existing == old(existing) + {path}
      ensures log == old(log) + [Call.MakeDirs(path)]
    {
      existing := existing + {path};
      log := log + [Call.MakeDirs(path)];
    }

    /** The loader: one fresh `Document` per loaded element, or `None` when it raises. */
    method LoadDocuments(path: string, autodetectEncoding: bool) returns (docs: Option<seq<Document>>)
      modifies this`log
      ensures log == old(log) + [Call.LoadDocuments(path, autodetectEncoding)]
      ensures docs.None? <==> loader(path, autodetectEncoding).None?
      ensures docs.Some? ==>
        Contents(docs.value) == loader(path, autodetectEncoding).value &&
        Distinct(docs.value) && forall i :: 0 <= i < |docs.value| ==> fresh(docs.value[i])
    {
      var elements := loader(path, autodetectEncoding);
      if elements.None? {
        docs := None;
      } else {
        var ds: seq<Document> := [];
        for i := 0 to |elements.value|
          invariant |ds| == i && Distinct(ds) && log == old(log)
          invariant forall j :: 0 <= j < i ==> fresh(ds[j]) && ds[j].pageContent == elements.value[j]
        {
          var d := new Document(elements.value[i]);
          ds := ds + [d];
        }
        docs := Some(ds);
      }
      log := log + [Call.LoadDocuments(path, autodetectEncoding)];
    }

    /** Split, filter metadata, embed and build a store from the document contents. */
    method BuildIndex(contents: seq<string>) returns (st: Option<Store>)
      modifies this`log
      ensures st == buildIndex(contents)
      ensures log == old(log) + [Call.BuildIndex(contents)]
    {
      st := buildIndex(contents);
      log := log + [Call.BuildIndex(contents)];
    }

    /**
     * `store.save_local(path)`: on success the path exists afterwards; a
     * save that raises may or may not have created it.
     */
    method SaveLocal(st: Store, path: string) returns (ok: bool)
      modifies this`existing, this`log
      ensures ok == saveSucceeds(st, path)
      ensures existing == PathsAfterSave(With(old(existing)), st, path)
      ensures ok ==> path in existing
      ensures log == old(log) + [Call.SaveLocal(path)]
    {
      ok := saveSucceeds(st, path);
      if ok || saveLeavesPath(st, path) {
        existing := existing + {path};
      }
      log := log + [Call.SaveLocal(path)];
    }

    /** `FAISS.load_local(path, embeddings)`. */
    method LoadLocal(path: string) returns (st: Option<Store>)
      modifies this`log
      ensures st == loadLocal(path)
      ensures log == old(log) + [Call.LoadLocal(path)]
    {
      st := loadLocal(path);
      log := log + [Call.LoadLocal(path)];
    }

    /** `store.similarity_search(query, k)`. */
    method SimilaritySearch(st: Store, query: string, k: int) returns (r: Option<seq<string>>)
      modifies this`log
      ensures r == search(st, query, k)
      ensures log == old(log) + [Call.SimilaritySearch(query, k)]
    {
      r := search(st, query, k);
      log := log + [Call.SimilaritySearch(query, k)];
    }
  }
}
