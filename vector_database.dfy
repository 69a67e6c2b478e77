/**
 * `VectorDatabase` (rag_retriever.py): a lazily built or loaded FAISS store
 * held in the field `vector_store`, queried through `get_relevant_docs`.
 * Every exception is caught and logged; a failed call leaves the field as it
 * was and yields `None`.
 */
module Retriever {
  import opened Wrappers
  import opened Backend
  import opened CitationNormalizer
  import Lifecycle

  /** The constructor's default arguments. */
  const DefaultPdfPath: string := "data/Transformer.pdf"
  const DefaultIndexPath: string := "Faiss_indexes"

  class VectorDatabase {
    const pdfPath: string
    const indexPath: string
    var vectorStore: Option<Store>

    constructor (pdfPath: string, indexPath: string)
      ensures this.pdfPath == pdfPath && this.indexPath == indexPath
      ensures vectorStore == None
    {
      this.pdfPath := pdfPath;
      this.indexPath := indexPath;
      vectorStore := None;
    }

    /** `VectorDatabase()` with its default arguments. */
    constructor Default()
      ensures pdfPath == DefaultPdfPath && indexPath == DefaultIndexPath
      ensures vectorStore == None
    {
      pdfPath := DefaultPdfPath;
      indexPath := DefaultIndexPath;
      vectorStore := None;
    }

    /**
     * Load the documents, refuse an empty list, normalise every document in
     * place, build the store, assign it, save it and return it.
     */
    method CreateVectorDb(host: Host) returns (r: Option<Store>)
      modifies this`vectorStore, host`log, host`existing
      ensures var o := Lifecycle.CreateVectorDb(host.With(old(host.existing)), pdfPath, indexPath);
        vectorStore == (if o.stored.Some? then o.stored else old(vectorStore)) &&
        r == o.returned && host.log == old(host.log) + o.calls && host.existing == o.existing
    {
      // The documents are normalised before the emptiness test; rewriting no
      // documents changes nothing, so the outcome is the same.
      ghost var env := host.With(host.existing);
      var contents := LoadRewritten(host, pdfPath, true, Normalize);
      if contents.None? {
        return None;
      }
      if contents.value == [] {
        return None;  // ValueError("No documents loaded")
      }
      var built := host.BuildIndex(contents.value);
      if built.None? {
        return None;
      }
      vectorStore := built;
      var saved := host.SaveLocal(built.value, indexPath);
      assert host.existing == PathsAfterSave(env, built.value, indexPath);
      if !saved {
        return None;
      }
      return built;
    }

    /** Assign `vector_store` from the saved index, or leave it when loading fails. */
    method LoadVectorDb(host: Host)
      modifies this`vectorStore, host`log
      ensures var loaded := host.loadLocal(indexPath);
        vectorStore == (if loaded.Some? then loaded else old(vectorStore)) &&
        host.log == old(host.log) + [LoadLocal(indexPath)]
    {
      var loaded := host.LoadLocal(indexPath);
      if loaded.Some? {
        vectorStore := loaded;
      }
    }

    /**
     * Build or load the store if none is held, then search it for the two
     * passages most similar to the query.
     */
    method GetRelevantDocs(host: Host, query: string) returns (r: Option<seq<string>>)
      modifies this`vectorStore, host`log, host`existing
      ensures var o := Lifecycle.GetRelevantDocs(old(vectorStore), host.With(old(host.existing)), pdfPath, indexPath, query);
        vectorStore == o.store && r == o.result &&
        host.log == old(host.log) + o.calls && host.existing == o.existing
    {
      if vectorStore.None? {
        var present := host.PathExists(indexPath);
        if !present {
          var _ := CreateVectorDb(host);
        } else {
          LoadVectorDb(host);
        }
      }
      if vectorStore.None? {
        return None;  // AttributeError on None.similarity_search
      }
      r := host.SimilaritySearch(vectorStore.value, query, Lifecycle.SearchK);
    }
  }
}
