# Chat-with-your-Document: text normalisers and the lazy vector-store lifecycle

This project is a Dafny model of the code that the retrieval side of
Chat-with-your-Document adds to its libraries (LangChain, FAISS,
HuggingFace, NLTK). It has three parts.

- **The citation-stripping normaliser** `VectorDatabase.preprocess_text`.
  Pass 1 deletes numeric citation markers `[12]`, scanning left to right
  without overlap. Pass 2 deletes every character outside an allow-list:
  ASCII letters, digits, whitespace and `.,!?;:()[]{}'"`. Each pass is a
  recursive function over `seq<char>` (module `CitationNormalizer`).
- **The keyword normaliser** `DataIngestion.preprocess_text`. It
  lower-cases the text and keeps only letters and whitespace. Then it
  splits on whitespace, drops the stop words, lemmatises the remaining
  tokens and joins them with single spaces (module `KeywordNormalizer`).
  The NLTK stop-word list is a `set<string>` parameter. The WordNet
  lemmatiser is an uninterpreted `string -> string`.
- **The stateful operations.**
  - `VectorDatabase` (module `Retriever`) is a class. Its field
    `vectorStore: Option<Store>` is set by `CreateVectorDb` and
    `LoadVectorDb` and read by `GetRelevantDocs`.
  - `DataIngestion.load_and_vectorize` is a method of the class
    `Ingestion.DataIngestion`.
  - Both rewrite each loaded `Document` in place
    (`Backend.RewriteContents`).
  - The libraries and the file system are a `Backend.Host` object. Its
    oracles are fixed functions (loader, index builder, save, load,
    search) plus the set of existing paths. Every call it serves is
    appended to a call log.
  - The `ensures` of `CreateVectorDb`, `GetRelevantDocs` and
    `LoadAndVectorize` equate the new field, the result, the log and the
    file system with a pure function of the same name in module
    `Lifecycle`. The lemmas in `Lifecycle` then state the lifecycle's
    properties about those functions. `LoadVectorDb` and the
    constructors state their new state directly.

An exception raised by the loader, the index build, the save, the load
or the search is modelled as that oracle answering `None` (or `false` for
a save). The Python method then returns `None`. The lemmatiser and
`print` are assumed never to raise (see "## Left out").

## Behaviour of the code worth knowing

- **The citation normaliser is not idempotent.** Pass 2 can close up a new
  marker: `"[1€]"` becomes `"[1]"`, and a second application deletes it
  (`CitationNormalizer.NormalizeNotIdempotent`).
- **The normaliser can empty text.** Text made only of allowed characters
  can still become empty: `"[7]"` becomes `""`
  (`CitationNormalizer.NormalizeCanEmptyAllowedText`).
- **A failed load never recovers.** When the index path exists but loading
  it fails, the store stays unset and the call returns `None`. Every later
  call does the same; it never falls back to a build
  (`Lifecycle.FailedLoadNeverRebuilds`).
- **An unsaved store is still held.** `create_vector_db` assigns
  `vector_store` before `save_local`. A failed save therefore leaves the
  store held and queried, while `create_vector_db` itself returns `None`
  (`Lifecycle.BuiltStoreIsHeldWhetherOrNotSaved`,
  `Lifecycle.CreateReturnsOnlySavedStore`).
- **A partial save strands new retrievers.** `save_local` creates the
  index folder before writing into it. A save that raises after that point
  leaves the path behind. A new `VectorDatabase` then finds the path, fails
  to load it and never builds (`Lifecycle.PartialSaveStrandsNewRetrievers`).
- **Ingestion can strand the default retriever.** The default
  `VectorDatabase` uses the relative path `Faiss_indexes`.
  `DataIngestion` creates `<cwd>/Faiss_indexes`, which is the same
  directory, and saves its index one level below it, in
  `faiss_Pdf_Index`. After an ingestion in that working directory, the
  default retriever finds the path and takes the load branch. Loading the
  folder fails, because it holds no index of its own, and the retriever
  never builds (`Lifecycle.FailedLoadNeverRebuilds`, once the path is
  among the existing ones). The model does not resolve relative paths, so
  it does not derive this link by itself.
- **The two loaders are configured differently.** `create_vector_db`
  passes `autodetect_encoding=True`. `load_and_vectorize` uses the
  loader's defaults, which are recorded as `false`.

## Model

| member | source | states |
|---|---|---|
| CitationNormalizer.MarkerLength | rag_retriever.py:22 | the length of the match of `\[[0-9]+\]` at the start of the text, 0 when there is none; never more than the text's length |
| CitationNormalizer.StripCitations | rag_retriever.py:22 | pass 1: the left-to-right scan that deletes each match it meets and keeps every other character |
| CitationNormalizer.KeepAllowed | rag_retriever.py:23 | pass 2: the allowed characters of the text, in order |
| CitationNormalizer.Normalize | rag_retriever.py:21-24 | `preprocess_text`: pass 2 applied to the result of pass 1 |
| CitationNormalizer.MarkerLengthIsMatch | rag_retriever.py:22 | a prefix of the text is a match of `\[[0-9]+\]` exactly when it has the length the scan computes at that position |
| CitationNormalizer.StripSubsequence | rag_retriever.py:22 | pass 1 only deletes: its result is a subsequence of its input |
| CitationNormalizer.StripKeepsPlain | rag_retriever.py:22 | pass 1 deletes only brackets and digits; every other character survives, in order |
| CitationNormalizer.StripAroundMarker | rag_retriever.py:22 | a marker anywhere in the text is deleted whole, and the text on each side of it is scanned as if it stood alone |
| CitationNormalizer.MatchEndsBeforeMarker | rag_retriever.py:22 | a match at the start of the text ends before any later marker begins, so matches never overlap |
| CitationNormalizer.MarkerShrinks | rag_retriever.py:22 | a marker anywhere in the text makes pass 1 delete at least that marker's length |
| CitationNormalizer.NoMarkerIsKept | rag_retriever.py:22 | text with no marker passes pass 1 unchanged |
| CitationNormalizer.StripFixpoint | rag_retriever.py:22 | pass 1 leaves the text unchanged if and only if it holds no marker |
| CitationNormalizer.StripExample1 | rag_retriever.py:22 | `a[12]b` becomes `ab` |
| CitationNormalizer.StripExample2 | rag_retriever.py:22 | adjacent markers `[1][2]` are both deleted |
| CitationNormalizer.StripExample3 | rag_retriever.py:22 | in `[[12]]` only the inner marker is deleted, leaving `[]` |
| CitationNormalizer.StripExample4 | rag_retriever.py:22 | `[1[2]]` becomes `[1]`: one scan does not rescan the text it leaves |
| CitationNormalizer.StripExample5 | rag_retriever.py:22 | `[]` and `[a]` are not markers and are kept |
| CitationNormalizer.StripExample6 | rag_retriever.py:22 | a digit outside any marker survives: `5[1]` becomes `5` |
| CitationNormalizer.StripEuroExample | rag_retriever.py:22 | `[1€]` holds no marker and passes pass 1 unchanged |
| CitationNormalizer.KeepAllowedEuroExample | rag_retriever.py:23 | pass 2 turns `[1€]` into `[1]` |
| CitationNormalizer.NormalizeDeletesOnly | rag_retriever.py:21-24 | the result is a subsequence of the input, never longer, and holds only allowed characters |
| CitationNormalizer.NormalizeFixpoint | rag_retriever.py:21-24 | the input is returned unchanged if and only if it holds only allowed characters and no marker |
| CitationNormalizer.NormalizeKeepsPlainAllowed | rag_retriever.py:21-24 | every allowed character other than brackets and digits survives, in order |
| CitationNormalizer.NormalizeNotIdempotent | rag_retriever.py:21-24 | normalising `[1€]` gives `[1]`, and normalising that gives the empty string |
| CitationNormalizer.NormalizeCanEmptyAllowedText | rag_retriever.py:21-24 | `[7]` is made only of allowed characters yet normalises to the empty string |
| Chars.ToLower | data_ingestion.py:52 | lower-casing leaves no upper-case letter and keeps letters letters and whitespace whitespace |
| KeywordNormalizer.Clean | data_ingestion.py:52 | after the substitution every character is a lower-case ASCII letter or whitespace |
| KeywordNormalizer.CleanKeepsLettersAndSpaces | data_ingestion.py:52 | cleaning keeps exactly the letters and whitespace of the input, in order, lower-cased |
| KeywordNormalizer.KeywordText | data_ingestion.py:48-58 | the cleaned text is split, its stop words dropped, the rest lemmatised and joined with single spaces |
| KeywordNormalizer.Join | data_ingestion.py:58 | `' '.join`: the tokens with one space between neighbours |
| KeywordNormalizer.Tokens | data_ingestion.py:55 | every token of `split()` is non-empty and free of whitespace |
| KeywordNormalizer.TokensCoverNonSpace | data_ingestion.py:55 | the tokens concatenate to the input's non-whitespace characters, so splitting loses only whitespace |
| KeywordNormalizer.TokensEmpty | data_ingestion.py:55 | text splits into no tokens if and only if it is all whitespace |
| KeywordNormalizer.TokensOfJoin | data_ingestion.py:55-58 | splitting a space-joined list of words gives back the list |
| KeywordNormalizer.JoinWellSpaced | data_ingestion.py:58 | words joined by `' '.join` have no leading, trailing or doubled whitespace |
| KeywordNormalizer.DropStopWords | data_ingestion.py:56 | every kept token is an input token and not a stop word |
| KeywordNormalizer.DropStopWordsKeepsOthers | data_ingestion.py:53-57 | the kept tokens are a subsequence of the tokens; each non-stop word keeps its number of occurrences and each stop word has none |
| KeywordNormalizer.DropStopWordsInOrder | data_ingestion.py:53-57 | the kept tokens keep their order |
| KeywordNormalizer.DropStopWordsCounts | data_ingestion.py:53-57 | a non-stop word occurs as often as in the input; a stop word does not occur |
| KeywordNormalizer.DropOnlyStopWords | data_ingestion.py:56 | a token list made only of stop words keeps nothing |
| KeywordNormalizer.KeywordTokens | data_ingestion.py:48-58 | when lemmas are words, the output splits into exactly one lemma per non-stop token, in token order |
| KeywordNormalizer.KeywordWellSpaced | data_ingestion.py:48-58 | when lemmas are words, the output has no leading, trailing or doubled whitespace |
| KeywordNormalizer.WithoutLettersIsEmpty | data_ingestion.py:48-58 | text with no ASCII letter gives the empty string |
| KeywordNormalizer.AllStopWordsIsEmpty | data_ingestion.py:48-58 | text whose every token is a stop word gives the empty string |
| KeywordNormalizer.StopWordIsDropped | data_ingestion.py:48-58 | a word is tested against the stop words after lower-casing: `The` is dropped by `the` |
| KeywordNormalizer.NonStopWordIsLemmatized | data_ingestion.py:48-58 | a word that is not a stop word yields its lemma, even when the lemma is a stop word |
| KeywordNormalizer.LettersClean | data_ingestion.py:52-55 | a word of letters cleans and splits into the single lower-cased word |
| KeywordNormalizer.SingleWordTokens | data_ingestion.py:55 | a word splits into itself alone |
| KeywordNormalizer.TokensAtSpace | data_ingestion.py:55 | any whitespace character (tab, line feed and the rest, not only `' '`) separates the tokens on its two sides: the split of `a + c + b` is the split of `a` followed by the split of `b` |
| KeywordNormalizer.NewlineSplits | data_ingestion.py:55 | `"a\nb".split()` is `["a", "b"]` |
| Backend.Contents | rag_retriever.py:38-39 | the `page_content` of each document, in order |
| Backend.PathsAfterSave | rag_retriever.py:47 | a save adds the index path when it succeeds or raises after creating the folder, and otherwise adds nothing |
| Backend.RewriteContents | rag_retriever.py:38-39 | each document's content is replaced by the function applied to its old content, one document at a time |
| Backend.LoadRewritten | rag_retriever.py:34-39 | the documents are loaded (one log entry) and the rewritten contents are the function mapped over the loaded documents' contents; `None` exactly when the loader raises |
| Backend.Host.LoadDocuments | rag_retriever.py:34-35 | the loader yields one fresh, distinct document per element it yields, with that element's content, or `None` when it raises |
| Backend.Host.PathExists | rag_retriever.py:70 | `os.path.exists` answers from the set of existing paths |
| Backend.Host.MakeDirs | data_ingestion.py:39 | `os.makedirs` makes the directory exist |
| Backend.Host.BuildIndex | rag_retriever.py:40-46 | the split, filter, embed and index build answers the builder oracle on the document contents |
| Backend.Host.SaveLocal | rag_retriever.py:47 | a successful save makes the index path exist; a failed one leaves it only if it had already created the folder |
| Backend.Host.LoadLocal | rag_retriever.py:54 | the load answers the load oracle on the path |
| Backend.Host.SimilaritySearch | rag_retriever.py:74 | the search answers the search oracle for the store, query and `k` |
| Retriever.VectorDatabase.constructor | rag_retriever.py:15-18 | the paths are stored and no store is held |
| Retriever.VectorDatabase.Default | rag_retriever.py:15 | the default arguments are `data/Transformer.pdf` and `Faiss_indexes`, and no store is held |
| Retriever.VectorDatabase.CreateVectorDb | rag_retriever.py:26-50 | the field, result, call log and file system are those of `Lifecycle.CreateVectorDb`; the field changes only when a store is built |
| Retriever.VectorDatabase.LoadVectorDb | rag_retriever.py:52-56 | the field takes the loaded store, or keeps its value when loading fails |
| Retriever.VectorDatabase.GetRelevantDocs | rag_retriever.py:58-77 | the new field, result, call log and file system are those of `Lifecycle.GetRelevantDocs` on the old field |
| Ingestion.DataIngestion.constructor | data_ingestion.py:36-46 | the output directory is `Faiss_indexes` under the working directory, and it exists afterwards |
| Ingestion.DataIngestion.LoadAndVectorize | data_ingestion.py:60-91 | the result, call log and file system are those of `Lifecycle.LoadAndVectorize` |
| Lifecycle.JoinPath | data_ingestion.py:38 | `os.path.join` on POSIX; the result ends with the name |
| Lifecycle.JoinPathAtRoot | data_ingestion.py:38 | under the root directory the output directory is `/Faiss_indexes`, with no doubled separator |
| Lifecycle.JoinPathUnderDir | data_ingestion.py:38 | under any non-empty directory that does not end in `/`, exactly one separator is inserted before `Faiss_indexes` |
| Lifecycle.CreateVectorDb | rag_retriever.py:26-50 | `create_vector_db`: load, refuse an empty list, normalise, build, assign, save, return; any raise ends it with `None` |
| Lifecycle.SearchHeld | rag_retriever.py:74-77 | line 74: search a held store with `k = 2`, or raise on `None` and return `None` |
| Lifecycle.GetRelevantDocs | rag_retriever.py:58-77 | `get_relevant_docs`: build or load when no store is held, then search |
| Lifecycle.LoadAndVectorize | data_ingestion.py:60-91 | `load_and_vectorize`: load, keyword-normalise, build, save under the output directory, return; any raise ends it with `None` |
| Lifecycle.HeldStoreIsSearched | rag_retriever.py:69-75 | with a store held, only the search runs, on that store, with `k = 2`, and nothing else changes |
| Lifecycle.UnsetStoreBuildsOrLoads | rag_retriever.py:69-73 | with no store held, the path check comes first; a build runs if and only if the path is absent, a load if and only if it exists |
| Lifecycle.StoreSetOnlyOnSuccess | rag_retriever.py:36-56 | with no store held, the field becomes the loaded store when the path exists, and otherwise the store built from a non-empty document list |
| Lifecycle.FailureReturnsNoneAndRetries | rag_retriever.py:69-77 | a call that leaves the store unset returns `None` without searching, and the next call starts again with the path check |
| Lifecycle.SearchIsTopTwo | rag_retriever.py:74-75 | a search runs exactly when a store is held; it runs once, last, with the caller's query and `k = 2`, and its answer is the result |
| Lifecycle.BuildSeesNormalizedDocuments | rag_retriever.py:34-46 | the index is built only from the normalised contents of a non-empty list of loaded documents |
| Lifecycle.FailedLoadNeverRebuilds | rag_retriever.py:52-56 | a failed load of an existing index leaves the store unset, returns `None` and does not build |
| Lifecycle.EmptyDocumentsLeaveStoreUnset | rag_retriever.py:36-37 | an empty document list is refused before anything is built, and the store stays unset |
| Lifecycle.BuiltStoreIsHeldWhetherOrNotSaved | rag_retriever.py:46-47 | a built store is held and queried even when saving it fails; the index path exists afterwards exactly when the save succeeds or raises after creating the folder |
| Lifecycle.PartialSaveStrandsNewRetrievers | rag_retriever.py:46-56 | after a save that raises once the folder exists, a new retriever finds the path, fails to load it, returns `None` and does not build |
| Lifecycle.CreateReturnsOnlySavedStore | rag_retriever.py:46-50 | `create_vector_db` holds the built store, and returns it only when saving succeeds, after which the index path exists |
| Lifecycle.IngestPreprocessesEveryDocument | data_ingestion.py:67-83 | `load_and_vectorize` builds at most once, as its second call, from the keyword-normalised content of each loaded document |
| Lifecycle.IngestNoneOnAnyFailure | data_ingestion.py:65-91 | a store is returned if and only if loading, building and saving all succeed; then the index exists under the output directory; any failure gives `None`, and only a save that raises after creating the folder leaves a path |

## Left out

- Library internals are not modelled; each is one oracle:
  - `RecursiveCharacterTextSplitter` (chunk size 1000, overlap 200), `filter_complex_metadata`, the HuggingFace embeddings and `FAISS.from_documents` together form `buildIndex`, a function of the document contents;
  - the chunking, the embedding vectors and the similarity ranking are not modelled;
  - the search result is a sequence of strings, not of `Document` objects.
- Persistence is not modelled: no relation between a saved and a loaded index.
- Source metadata of the documents is not modelled.
- `UnstructuredLoader` is an oracle from path and encoding flag to the contents of the documents it yields (one per partitioned element, not per page).
- The HuggingFace embedding object created by both constructors is not modelled.
- Unicode is not modelled, only ASCII:
  - `str.lower()`, `\s` and `str.split()` are modelled on ASCII only;
  - non-ASCII whitespace (for example U+00A0) and non-ASCII lower-casing (for example U+212A KELVIN SIGN becoming `k`) are not captured.
- `os.path.join` is modelled by its POSIX rules; Windows paths are not modelled.
- Backend.Host.existing: paths are compared as plain strings. A relative path is not resolved against the working directory, so `Faiss_indexes` and `<cwd>/Faiss_indexes` count as two different paths even though they name the same directory.
- `os.getcwd()` is a constructor parameter of `DataIngestion`.
- Logging and `print`, `load_dotenv` and `nltk.download` are left out, and are assumed never to raise.
- Lifecycle.IngestNoneOnAnyFailure: assumes the lemmatiser and `print` never raise. Two ways `load_and_vectorize` can fail are not modelled:
  - `lemmatize` raises `LookupError` when the WordNet data is missing (data_ingestion.py:54, reached from :72), because `nltk.download(..., quiet=True)` at :24 does not raise when the download fails. The source then returns `None` before any build, while the model's total lemmatiser goes on to `buildIndex`.
  - The `print` of a non-ASCII mark at data_ingestion.py:86, after a successful save, raises `UnicodeEncodeError` on a stdout that cannot encode it. The handler's own `print` at :90 then raises again, so the exception escapes the method instead of giving `None`.
- main.py, streamlit_app.py, rag_chain.py and response_generator.py are not part of this model. They are web, UI and language-model plumbing.
- Concurrency is not modelled; the source runs single-threaded calls.
- Document aliasing is not modelled. `Backend.RewriteContents` requires distinct documents, which the loader guarantees by creating fresh ones. A list holding the same object twice would be rewritten twice by the source.
- `Retriever.VectorDatabase.CreateVectorDb` tests for an empty list after the in-place rewrite rather than before it. A rewrite of no documents changes nothing, so the outcome and the call log are the same.
