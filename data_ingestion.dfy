/**
 * `DataIngestion` (data_ingestion.py): load the document, keyword-normalise
 * every document in place, build a FAISS store and save it under the output
 * directory. Any exception makes `load_and_vectorize` return `None`.
 */
module Ingestion {
  import opened Wrappers
  import opened Backend
  import Lifecycle

  class DataIngestion {
    const pdfPath: string
    const outputDir: string
    /** `set(stopwords.words('english'))`. */
    const stopWords: set<string>
    /** `WordNetLemmatizer().lemmatize`. */
    const lemmatize: string -> string

    /** Fix the paths and the NLTK tools, and create the output directory. */
    constructor (pdfPath: string, cwd: string, stopWords: set<string>, lemmatize: string -> string, host: Host)
      modifies host`existing, host`log
      ensures this.pdfPath == pdfPath && this.stopWords == stopWords && this.lemmatize == lemmatize
      ensures outputDir == Lifecycle.JoinPath(cwd, Lifecycle.IndexDirName)
      ensures host.existing == old(host.existing) + {outputDir}
      ensures host.log == old(host.log) + [MakeDirs(outputDir)]
    {
      this.pdfPath := pdfPath;
      this.outputDir := Lifecycle.JoinPath(cwd, Lifecycle.IndexDirName);
      this.stopWords := stopWords;
      this.lemmatize := lemmatize;
      new;
      host.MakeDirs(outputDir);
    }

    method LoadAndVectorize(host: Host) returns (r: Option<Store>)
      modifies host`log, host`existing
      ensures r == Lifecycle.LoadAndVectorize(host.With(old(host.existing)), pdfPath, outputDir, stopWords, lemmatize).result
      ensures host.log == old(host.log) + Lifecycle.LoadAndVectorize(host.With(old(host.existing)), pdfPath, outputDir, stopWords, lemmatize).calls
      ensures host.existing == Lifecycle.LoadAndVectorize(host.With(old(host.existing)), pdfPath, outputDir, stopWords, lemmatize).existing
    {
      ghost var env := host.With(host.existing);
      var contents := LoadRewritten(host, pdfPath, false, Lifecycle.KeywordDocument(stopWords, lemmatize));
      if contents.None? {
        return None;
      }
      var path := Lifecycle.JoinPath(outputDir, Lifecycle.IndexName);
      var built := host.BuildIndex(contents.value);
      if built.None? {
        return None;
      }
      var saved := host.SaveLocal(built.value, path);
      assert host.existing == PathsAfterSave(env, built.value, path);
      if !saved {
        return None;
      }
      return built;
    }
  }
}
