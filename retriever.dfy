/**
 * `Retriever` (rag/retriever.py): the index of chunks built from a list of PDF
 * paths, with a per-file cache keyed by the file's stem, and `retrieve`, which
 * ranks the chunks by a given score.
 *
 * The PDF reader, the embedder and the `storage/` directory are given to the
 * model: the reader as a function from a path to its page texts, the embedder
 * as an optional function from a chunk to its vector, and the directory as a
 * map from a stem to the chunk list saved under `storage/<stem>.pkl`.
 */
module Retriever {
  import opened Wrappers
  import opened Text
  import opened Chunker
  import opened Ranking

  type Embedding = seq<real>

  datatype Metadata = Metadata(file: string, page: nat, chunkId: nat)

  /** One entry of `documents`: the chunk dict built in `_load_and_embed_docs`. */
  datatype Chunk = Chunk(text: string, embedding: Option<Embedding>, metadata: Metadata)

  /** The part of a `Retriever` that loading depends on. */
  datatype Settings = Settings(
    chunkSize: nat,
    step: nat,
    semantic: bool,  // `chunking_strategy == "semantic"`
    save: bool,
    embedder: Option<string -> Embedding>,
    pdfPages: string -> seq<string>)

  // ---------------------------------------------------------------------------
  // Path.stem

  /** The path without its trailing slashes. */
  function DropTrailingSlashes(path: string): (r: string)
    ensures r <= path
    ensures r == [] || r[|r| - 1] != '/'
  {
    if path != [] && path[|path| - 1] == '/' then DropTrailingSlashes(path[..|path| - 1]) else path
  }

  /** Everything after the last `/`. */
  function AfterLastSlash(path: string): (r: string)
    ensures '/' !in r
    ensures |r| <= |path| && r == path[|path| - |r|..]
  {
    if path == [] || path[|path| - 1] == '/' then []
    else AfterLastSlash(path[..|path| - 1]) + [path[|path| - 1]]
  }

  /** The position of the last `.` in `name`, or -1: `str.rfind('.')`. */
  function LastDot(name: string): (i: int)
    ensures -1 <= i < |name|
    ensures i >= 0 ==> name[i] == '.'
    ensures forall j | i < j < |name| :: name[j] != '.'
  {
    if name == [] then -1
    else if name[|name| - 1] == '.' then |name| - 1
    else LastDot(name[..|name| - 1])
  }

  /** `PurePosixPath(path).name`: the last component. */
  function Name(path: string): (name: string)
    ensures '/' !in name
  {
    AfterLastSlash(DropTrailingSlashes(path))
  }

  /** `Path(path).stem`: the name without its final suffix `.xyz`; a leading dot
      (`.bashrc`) or a trailing one (`notes.`) is not a suffix. */
  function Stem(path: string): (stem: string)
    ensures '/' !in stem
    ensures stem <= Name(path)
  {
    var name := Name(path);
    var i := LastDot(name);
    if 0 < i < |name| - 1 then name[..i] else name
  }

  /** The last component of `dir/name` is `name`. */
  lemma {:induction false} AfterLastSlashOfJoin(dir: string, name: string)
    requires '/' !in name
    ensures AfterLastSlash(dir + "/" + name) == name
    decreases |name|
  {
    var p := dir + "/" + name;
    if name == [] {
      assert p[|p| - 1] == '/';
    } else {
      var n := |name| - 1;
      var q := dir + "/" + name[..n];
      assert p == q + [name[n]];
      assert p[..|p| - 1] == q && p[|p| - 1] == name[n] != '/';
      AfterLastSlashOfJoin(dir, name[..n]);
      assert AfterLastSlash(p) == name[..n] + [name[n]];
      assert name == name[..n] + [name[n]];
    }
  }

  /** The name of `dir/name` is `name`. */
  lemma NameOfJoin(dir: string, name: string)
    requires '/' !in name && name != []
    ensures Name(dir + "/" + name) == name
  {
    var p := dir + "/" + name;
    assert p[|p| - 1] == name[|name| - 1];
    assert DropTrailingSlashes(p) == p;
    AfterLastSlashOfJoin(dir, name);
  }

  /** Files of the same name in different directories have the same stem, and so
      share one cache entry. */
  lemma StemIgnoresDirectory(dir1: string, dir2: string, name: string)
    requires '/' !in name && name != []
    ensures Stem(dir1 + "/" + name) == Stem(dir2 + "/" + name)
  {
    NameOfJoin(dir1, name);
    NameOfJoin(dir2, name);
  }

  /** The last `.` of `base.ext` is the one before `ext` when `ext` holds none. */
  lemma LastDotOfSuffixed(base: string, ext: string)
    requires '.' !in ext
    ensures LastDot(base + "." + ext) == |base|
  {
    var pre := base + ".";
    var name := pre + ext;
    assert |pre| == |base| + 1 && pre[|base|] == '.';
    assert name[|base|] == '.';
    forall j | |pre| <= j < |name|
      ensures name[j] != '.'
    {
      var c := ext[j - |pre|];
      assert name[j] == c;
      assert c in ext;
    }
    LastDotAt(name, |base|);
  }

  /** A `.` with none after it is the last one. */
  lemma LastDotAt(name: string, k: nat)
    requires k < |name| && name[k] == '.'
    requires forall j | k < j < |name| :: name[j] != '.'
    ensures LastDot(name) == k
  {
    var i := LastDot(name);
    assert i >= k;
  }

  /** A path with no `/` is its own last component. */
  lemma {:induction false} AfterLastSlashOfName(name: string)
    requires '/' !in name
    ensures AfterLastSlash(name) == name
    decreases |name|
  {
    if name != [] {
      var n := |name| - 1;
      assert name[n] in name;
      assert name[..n] + [name[n]] == name;
      assert forall c | c in name[..n] :: c in name;
      AfterLastSlashOfName(name[..n]);
    }
  }

  /** The stem of a bare file name `base.ext` is `base` when `base` is non-empty
      and `ext` is a non-empty suffix with no dot. */
  lemma StemOfSuffixed(base: string, ext: string)
    requires base != [] && ext != []
    requires '/' !in base + "." + ext && '.' !in ext
    ensures Stem(base + "." + ext) == base
  {
    var name := base + "." + ext;
    assert name[|name| - 1] == ext[|ext| - 1] != '/' by {
      assert ext[|ext| - 1] in ext;
      assert ext[|ext| - 1] in name;
    }
    assert DropTrailingSlashes(name) == name;
    AfterLastSlashOfName(name);
    LastDotOfSuffixed(base, ext);
    StemAtDot(name, |base|);
    assert name[..|base|] == base;
  }

  /** With its last dot strictly inside the name, the stem is the name up to it. */
  lemma StemAtDot(path: string, k: nat)
    requires 0 < k < |Name(path)| - 1 && LastDot(Name(path)) == k
    ensures Stem(path) == Name(path)[..k]
  {
  }

  /** The stem of `dir/base.ext` is `base`: the cache file of `docs/report.pdf`
      is `report`. */
  lemma StemOfJoin(dir: string, base: string, ext: string)
    requires base != [] && ext != []
    requires '/' !in base + "." + ext && '.' !in ext
    ensures Stem(dir + "/" + base + "." + ext) == base
  {
    var name := base + "." + ext;
    JoinSuffixed(dir, base, ext);
    LastDotOfSuffixed(base, ext);
    StemOfJoinedName(dir, name, |base|);
    assert name[..|base|] == base;
  }

  /** `dir/base.ext` is `dir` joined to the name `base.ext`. */
  lemma JoinSuffixed(dir: string, base: string, ext: string)
    ensures dir + "/" + base + "." + ext == dir + "/" + (base + "." + ext)
  {
  }

  /** The stem of `dir/name` is the name up to its last dot, when that dot lies
      strictly inside the name. */
  lemma StemOfJoinedName(dir: string, name: string, k: nat)
    requires '/' !in name && 0 < k < |name| - 1
    requires LastDot(name) == k
    ensures Stem(dir + "/" + name) == name[..k]
  {
    NameOfJoin(dir, name);
    StemAtDot(dir + "/" + name, k);
  }

  /** A name with no `.` except as its first or last character (`README`,
      `.bashrc`, `notes.`) has no suffix: its stem is the whole name. */
  lemma StemWithoutSuffix(path: string)
    requires forall i | 0 < i < |Name(path)| - 1 :: Name(path)[i] != '.'
    ensures Stem(path) == Name(path)
  {
  }

  // ---------------------------------------------------------------------------
  // What loading one file builds

  /** `embedder.embed(chunk)` when there is an embedder, `None` otherwise. */
  function Embed(embedder: Option<string -> Embedding>, text: string): Option<Embedding> {
    if embedder.Some? then Some(embedder.value(text)) else None
  }

  /** The chunk dict for `text` on page `page` of `file`, numbered `id`. */
  function NewChunk(embedder: Option<string -> Embedding>, text: string, file: string, page: nat, id: nat): Chunk {
    Chunk(text, Embed(embedder, text), Metadata(file, page, id))
  }

  /** The chunk dicts for the chunks `texts` of one page, numbered from `firstId`. */
  function PageChunks(embedder: Option<string -> Embedding>, texts: seq<string>, file: string, page: nat, firstId: nat)
    : (cs: seq<Chunk>)
    ensures |cs| == |texts|
    decreases |texts|
  {
    if texts == [] then []
    else
      var n := |texts| - 1;
      PageChunks(embedder, texts[..n], file, page, firstId) + [NewChunk(embedder, texts[n], file, page, firstId + n)]
  }

  /** One iteration of the page loop: page `pageNum`, with text `text`, after the
      chunk dicts `acc` of the earlier pages (`None` once the file has failed). A
      page with no text adds nothing; with the `"semantic"` strategy a page with
      text fails the file, because `_semantic_chunk_text` returns `None` and
      iterating it raises. */
  function AddPage(s: Settings, file: string, acc: Option<seq<Chunk>>, pageNum: nat, text: string, firstId: nat)
    : Option<seq<Chunk>>
    requires s.step > 0
  {
    match acc
    case None => None
    case Some(pre) =>
      if text == "" then acc
      else if s.semantic then None
      else Some(pre + PageChunks(s.embedder, Chunks(text, s.chunkSize, s.step), file, pageNum, firstId + |pre|))
  }

  /** A page with text, with a strategy other than `"semantic"`, adds its chunk
      dicts after those of the earlier pages. */
  lemma AddPageChunked(s: Settings, file: string, pre: seq<Chunk>, pageNum: nat, text: string, firstId: nat)
    requires s.step > 0 && text != "" && !s.semantic
    ensures AddPage(s, file, Some(pre), pageNum, text, firstId)
         == Some(pre + PageChunks(s.embedder, Chunks(text, s.chunkSize, s.step), file, pageNum, firstId + |pre|))
  {
  }

  /** The chunks one file gives on a cache miss, numbered from `firstId`, pages
      numbered from 1. */
  function BuildPages(s: Settings, file: string, pages: seq<string>, firstId: nat): Option<seq<Chunk>>
    requires s.step > 0
    decreases |pages|
  {
    if pages == [] then Some([])
    else AddPage(s, file, BuildPages(s, file, pages[..|pages| - 1], firstId), |pages|, pages[|pages| - 1], firstId)
  }

  /** A cached chunk list with `chunk_id` set to `firstId`, `firstId + 1`, ... and
      everything else kept. */
  function Renumbered(saved: seq<Chunk>, firstId: nat): (r: seq<Chunk>)
    ensures |r| == |saved|
    decreases |saved|
  {
    if saved == [] then []
    else
      var n := |saved| - 1;
      Renumbered(saved[..n], firstId) + [saved[n].(metadata := saved[n].metadata.(chunkId := firstId + n))]
  }

  /** The state loading works on: `documents`, the cache, and whether loading
      has raised. */
  datatype Loaded = Loaded(documents: seq<Chunk>, cache: map<string, seq<Chunk>>, failed: bool)

  /** One iteration of the loop over `docs_paths`. */
  function LoadFile(s: Settings, st: Loaded, path: string): Loaded
    requires s.step > 0
  {
    var stem := Stem(path);
    if stem in st.cache then
      st.(documents := st.documents + Renumbered(st.cache[stem], |st.documents|))
    else
      match BuildPages(s, path, s.pdfPages(path), |st.documents|)
      case None => st.(failed := true)
      case Some(built) =>
        st.(documents := st.documents + built, cache := if s.save then st.cache[stem := built] else st.cache)
  }

  /** Loading one more path, unless loading has already raised. */
  function LoadNext(s: Settings, st: Loaded, path: string): Loaded
    requires s.step > 0
  {
    if st.failed then st else LoadFile(s, st, path)
  }

  /** `_load_and_embed_docs(paths)` from the state `st`; once loading has raised,
      nothing further happens. */
  function LoadPaths(s: Settings, st: Loaded, paths: seq<string>): Loaded
    requires s.step > 0
    decreases |paths|
  {
    if paths == [] then st
    else LoadNext(s, LoadPaths(s, st, paths[..|paths| - 1]), paths[|paths| - 1])
  }

  /** The chunk dicts of a page hold the page's chunks in order, all from `file`
      and `page`, numbered from `firstId`, with an embedding exactly when there is
      an embedder. */
  lemma {:induction false} PageChunksSpec(embedder: Option<string -> Embedding>, texts: seq<string>, file: string, page: nat, firstId: nat)
    ensures var cs := PageChunks(embedder, texts, file, page, firstId);
      forall k | 0 <= k < |cs| ::
        && cs[k].text == texts[k] && cs[k].metadata == Metadata(file, page, firstId + k)
        && (cs[k].embedding.Some? <==> embedder.Some?)
    decreases |texts|
  {
    if texts != [] {
      var n := |texts| - 1;
      PageChunksSpec(embedder, texts[..n], file, page, firstId);
    }
  }

  /** Renumbering keeps text, embedding, file and page, and numbers the chunks
      from `firstId`. */
  lemma {:induction false} RenumberedSpec(saved: seq<Chunk>, firstId: nat)
    ensures var r := Renumbered(saved, firstId);
      forall k | 0 <= k < |r| ::
        && r[k].text == saved[k].text && r[k].embedding == saved[k].embedding
        && r[k].metadata == saved[k].metadata.(chunkId := firstId + k)
    decreases |saved|
  {
    if saved != [] {
      var n := |saved| - 1;
      RenumberedSpec(saved[..n], firstId);
    }
  }

  /** With the `"semantic"` strategy, a file either fails or gives no chunks. */
  lemma {:induction false} BuildPagesSemantic(s: Settings, file: string, pages: seq<string>, firstId: nat)
    requires s.step > 0 && s.semantic
    ensures BuildPages(s, file, pages, firstId) in {None, Some([])}
    decreases |pages|
  {
    if pages != [] {
      BuildPagesSemantic(s, file, pages[..|pages| - 1], firstId);
    }
  }

  // ---------------------------------------------------------------------------
  // One step of each loop

  lemma PageChunksStep(embedder: Option<string -> Embedding>, texts: seq<string>, file: string, page: nat, firstId: nat, j: nat)
    requires j < |texts|
    ensures PageChunks(embedder, texts[..j + 1], file, page, firstId)
         == PageChunks(embedder, texts[..j], file, page, firstId) + [NewChunk(embedder, texts[j], file, page, firstId + j)]
  {
    assert texts[..j + 1][..j] == texts[..j];
  }

  lemma RenumberedStep(saved: seq<Chunk>, firstId: nat, i: nat)
    requires i < |saved|
    ensures Renumbered(saved[..i + 1], firstId)
         == Renumbered(saved[..i], firstId) + [saved[i].(metadata := saved[i].metadata.(chunkId := firstId + i))]
  {
    assert saved[..i + 1][..i] == saved[..i];
  }

  lemma BuildPagesStep(s: Settings, file: string, pages: seq<string>, firstId: nat, k: nat)
    requires s.step > 0 && k < |pages|
    ensures BuildPages(s, file, pages[..k + 1], firstId)
         == AddPage(s, file, BuildPages(s, file, pages[..k], firstId), k + 1, pages[k], firstId)
  {
    assert pages[..k + 1][..k] == pages[..k];
  }

  /** Once a page has failed the file, later pages change nothing. */
  lemma {:induction false} BuildPagesAfterFailure(s: Settings, file: string, pages: seq<string>, firstId: nat, m: nat)
    requires s.step > 0 && m <= |pages| && BuildPages(s, file, pages[..m], firstId) == None
    ensures BuildPages(s, file, pages, firstId) == None
    decreases |pages| - m
  {
    if m < |pages| {
      BuildPagesStep(s, file, pages, firstId, m);
      BuildPagesAfterFailure(s, file, pages, firstId, m + 1);
    } else {
      assert pages[..m] == pages;
    }
  }

  lemma LoadPathsStep(s: Settings, st: Loaded, paths: seq<string>, p: nat)
    requires s.step > 0 && p < |paths|
    ensures LoadPaths(s, st, paths[..p + 1]) == LoadNext(s, LoadPaths(s, st, paths[..p]), paths[p])
  {
    assert paths[..p + 1][..p] == paths[..p];
  }

  /** Loading a path whose stem is cached appends the cached chunks, renumbered. */
  lemma LoadNextHit(s: Settings, st: Loaded, path: string)
    requires s.step > 0 && !st.failed && Stem(path) in st.cache
    ensures LoadNext(s, st, path) == Loaded(st.documents + Renumbered(st.cache[Stem(path)], |st.documents|), st.cache, false)
  {
  }

  /** Loading a path whose stem is not cached appends what its pages build, and
      stores that under the stem when saving; loading raises if building fails. */
  lemma LoadNextMiss(s: Settings, st: Loaded, path: string, built: Option<seq<Chunk>>)
    requires s.step > 0 && !st.failed && Stem(path) !in st.cache
    requires built == BuildPages(s, path, s.pdfPages(path), |st.documents|)
    ensures built.None? ==> LoadNext(s, st, path).failed
    ensures built.Some? ==>
      LoadNext(s, st, path) ==
      Loaded(st.documents + built.value, if s.save then st.cache[Stem(path) := built.value] else st.cache, false)
  {
  }

  /** Once a file has made loading raise, the remaining paths change nothing. */
  lemma {:induction false} LoadPathsAfterFailure(s: Settings, st: Loaded, paths: seq<string>, m: nat)
    requires s.step > 0 && m <= |paths| && LoadPaths(s, st, paths[..m]).failed
    ensures LoadPaths(s, st, paths) == LoadPaths(s, st, paths[..m])
    decreases |paths| - m
  {
    if m < |paths| {
      LoadPathsStep(s, st, paths, m);
      LoadPathsAfterFailure(s, st, paths, m + 1);
    } else {
      assert paths[..m] == paths;
    }
  }

  // ---------------------------------------------------------------------------
  // What loading guarantees

  /** The chunk ids count up from `firstId`. */
  predicate NumberedFrom(cs: seq<Chunk>, firstId: nat) {
    forall k | 0 <= k < |cs| :: cs[k].metadata.chunkId == firstId + k
  }

  /** Every chunk has an embedding exactly when there is an embedder. */
  predicate EmbeddedIff(cs: seq<Chunk>, embedder: Option<string -> Embedding>) {
    forall k | 0 <= k < |cs| :: cs[k].embedding.Some? <==> embedder.Some?
  }

  /** `c` was built from `file`: it is one of the chunks of one of the pages, and
      records that page (numbered from 1) and the file. */
  predicate BuiltFrom(s: Settings, file: string, pages: seq<string>, c: Chunk)
    requires s.step > 0
  {
    && c.metadata.file == file
    && 1 <= c.metadata.page <= |pages|
    && c.text in Chunks(pages[c.metadata.page - 1], s.chunkSize, s.step)
    && (c.embedding.Some? <==> s.embedder.Some?)
  }

  lemma NumberedAppend(a: seq<Chunk>, b: seq<Chunk>, firstId: nat)
    requires NumberedFrom(a, firstId) && NumberedFrom(b, firstId + |a|)
    ensures NumberedFrom(a + b, firstId)
  {
    forall k | 0 <= k < |a + b|
      ensures (a + b)[k].metadata.chunkId == firstId + k
    {
      if k >= |a| {
        assert (a + b)[k] == b[k - |a|];
      }
    }
  }

  /** The chunk dicts of page `k + 1` are built from that page. */
  lemma PageChunksBuiltFrom(s: Settings, file: string, pages: seq<string>, k: nat, firstId: nat)
    requires s.step > 0 && k < |pages|
    ensures NumberedFrom(PageChunks(s.embedder, Chunks(pages[k], s.chunkSize, s.step), file, k + 1, firstId), firstId)
    ensures forall c | c in PageChunks(s.embedder, Chunks(pages[k], s.chunkSize, s.step), file, k + 1, firstId) ::
      BuiltFrom(s, file, pages, c) && c.metadata.page == k + 1
  {
    var texts := Chunks(pages[k], s.chunkSize, s.step);
    var added := PageChunks(s.embedder, texts, file, k + 1, firstId);
    PageChunksSpec(s.embedder, texts, file, k + 1, firstId);
    forall c | c in added
      ensures BuiltFrom(s, file, pages, c) && c.metadata.page == k + 1
    {
      var j :| 0 <= j < |added| && added[j] == c;
      assert c.text == texts[j];
    }
  }

  lemma {:induction false} BuildPagesPrefix(s: Settings, file: string, pages: seq<string>, firstId: nat, m: nat)
    requires s.step > 0 && m <= |pages|
    ensures BuildPages(s, file, pages[..m], firstId).Some? ==>
      NumberedFrom(BuildPages(s, file, pages[..m], firstId).value, firstId)
    ensures BuildPages(s, file, pages[..m], firstId).Some? ==>
      forall c | c in BuildPages(s, file, pages[..m], firstId).value ::
        BuiltFrom(s, file, pages, c) && c.metadata.page <= m
    decreases m
  {
    if m == 0 {
      assert pages[..0] == [];
    } else {
      var k := m - 1;
      BuildPagesStep(s, file, pages, firstId, k);
      BuildPagesPrefix(s, file, pages, firstId, k);
      var acc := BuildPages(s, file, pages[..k], firstId);
      if acc.Some? && pages[k] != "" && !s.semantic {
        var pre := acc.value;
        var added := PageChunks(s.embedder, Chunks(pages[k], s.chunkSize, s.step), file, m, firstId + |pre|);
        assert BuildPages(s, file, pages[..m], firstId) == Some(pre + added);
        PageChunksBuiltFrom(s, file, pages, k, firstId + |pre|);
        NumberedAppend(pre, added, firstId);
        BuiltFromAppend(s, file, pages, pre, added, m);
      } else if acc.Some? && pages[k] == "" {
        assert BuildPages(s, file, pages[..m], firstId) == acc;
      }
    }
  }

  /** The chunks of the pages before page `m`, then those of page `m`, all come
      from pages up to `m`. */
  lemma BuiltFromAppend(s: Settings, file: string, pages: seq<string>, pre: seq<Chunk>, added: seq<Chunk>, m: nat)
    requires s.step > 0
    requires forall c | c in pre :: BuiltFrom(s, file, pages, c) && c.metadata.page < m
    requires forall c | c in added :: BuiltFrom(s, file, pages, c) && c.metadata.page == m
    ensures forall c | c in pre + added :: BuiltFrom(s, file, pages, c) && c.metadata.page <= m
  {
    forall c | c in pre + added
      ensures BuiltFrom(s, file, pages, c) && c.metadata.page <= m
    {
      assert c in pre || c in added;
    }
  }

  /** The chunks a file builds are numbered from `firstId` in order, and each is
      one of the chunks of a page of that file that has text, at most `chunk_size`
      long and not blank, tagged with that file and page. */
  lemma BuildPagesChunks(s: Settings, file: string, pages: seq<string>, firstId: nat)
    requires s.step > 0 && BuildPages(s, file, pages, firstId).Some?
    ensures NumberedFrom(BuildPages(s, file, pages, firstId).value, firstId)
    ensures forall c | c in BuildPages(s, file, pages, firstId).value ::
      && BuiltFrom(s, file, pages, c)
      && pages[c.metadata.page - 1] != ""
      && |c.text| <= s.chunkSize && Strip(c.text) != []
  {
    assert pages[..|pages|] == pages;
    BuildPagesPrefix(s, file, pages, firstId, |pages|);
    forall c | c in BuildPages(s, file, pages, firstId).value
      ensures pages[c.metadata.page - 1] != "" && |c.text| <= s.chunkSize && Strip(c.text) != []
    {
      var text := pages[c.metadata.page - 1];
      ChunksShortAndNonBlank(text, s.chunkSize, s.step);
    }
  }

  lemma {:induction false} BuildPagesFailsPrefix(s: Settings, file: string, pages: seq<string>, firstId: nat, m: nat)
    requires s.step > 0 && m <= |pages|
    ensures BuildPages(s, file, pages[..m], firstId) == None <==>
      s.semantic && exists i | 0 <= i < m :: pages[i] != ""
    decreases m
  {
    if m == 0 {
      assert pages[..0] == [];
    } else {
      BuildPagesStep(s, file, pages, firstId, m - 1);
      BuildPagesFailsPrefix(s, file, pages, firstId, m - 1);
    }
  }

  /** Building a file fails exactly when the strategy is `"semantic"` and some
      page has text. */
  lemma BuildPagesFails(s: Settings, file: string, pages: seq<string>, firstId: nat)
    requires s.step > 0
    ensures BuildPages(s, file, pages, firstId) == None <==>
      s.semantic && exists i | 0 <= i < |pages| :: pages[i] != ""
  {
    assert pages[..|pages|] == pages;
    BuildPagesFailsPrefix(s, file, pages, firstId, |pages|);
  }

  lemma LoadNextKeeps(s: Settings, st: Loaded, path: string)
    requires s.step > 0
    ensures st.documents <= LoadNext(s, st, path).documents
    ensures forall stem | stem in st.cache ::
      stem in LoadNext(s, st, path).cache && LoadNext(s, st, path).cache[stem] == st.cache[stem]
    ensures !s.save ==> LoadNext(s, st, path).cache == st.cache
  {
    if !st.failed {
      if Stem(path) in st.cache {
        LoadNextHit(s, st, path);
      } else {
        LoadNextMiss(s, st, path, BuildPages(s, path, s.pdfPages(path), |st.documents|));
      }
    }
  }

  /** Loading keeps the documents already there as a prefix and every cache entry
      already there; without `save` it does not touch the cache. */
  lemma {:induction false} LoadPathsKeeps(s: Settings, st: Loaded, paths: seq<string>)
    requires s.step > 0
    ensures st.documents <= LoadPaths(s, st, paths).documents
    ensures forall stem | stem in st.cache ::
      stem in LoadPaths(s, st, paths).cache && LoadPaths(s, st, paths).cache[stem] == st.cache[stem]
    ensures !s.save ==> LoadPaths(s, st, paths).cache == st.cache
    decreases |paths|
  {
    if paths != [] {
      var mid := LoadPaths(s, st, paths[..|paths| - 1]);
      LoadPathsKeeps(s, st, paths[..|paths| - 1]);
      LoadNextKeeps(s, mid, paths[|paths| - 1]);
      assert LoadPaths(s, st, paths) == LoadNext(s, mid, paths[|paths| - 1]);
    }
  }

  lemma LoadNextNumbered(s: Settings, st: Loaded, path: string)
    requires s.step > 0 && NumberedFrom(st.documents, 0)
    ensures NumberedFrom(LoadNext(s, st, path).documents, 0)
  {
    var stem := Stem(path);
    if !st.failed {
      if stem in st.cache {
        RenumberedSpec(st.cache[stem], |st.documents|);
        NumberedAppend(st.documents, Renumbered(st.cache[stem], |st.documents|), 0);
      } else {
        var built := BuildPages(s, path, s.pdfPages(path), |st.documents|);
        if built.Some? {
          BuildPagesChunks(s, path, s.pdfPages(path), |st.documents|);
          NumberedAppend(st.documents, built.value, 0);
        }
      }
    }
  }

  /** Loaded into an empty (or correctly numbered) list, every chunk's
      `chunk_id` is its index in `documents`, whatever ids the cached copies
      carried. */
  lemma {:induction false} LoadPathsNumbered(s: Settings, st: Loaded, paths: seq<string>)
    requires s.step > 0 && NumberedFrom(st.documents, 0)
    ensures NumberedFrom(LoadPaths(s, st, paths).documents, 0)
    decreases |paths|
  {
    if paths != [] {
      LoadPathsNumbered(s, st, paths[..|paths| - 1]);
      LoadNextNumbered(s, LoadPaths(s, st, paths[..|paths| - 1]), paths[|paths| - 1]);
    }
  }

  /** The state in which every document and every cached chunk has an embedding
      exactly when there is an embedder. */
  predicate EmbeddedState(st: Loaded, embedder: Option<string -> Embedding>) {
    && EmbeddedIff(st.documents, embedder)
    && forall stem | stem in st.cache :: EmbeddedIff(st.cache[stem], embedder)
  }

  lemma EmbeddedAppend(a: seq<Chunk>, b: seq<Chunk>, embedder: Option<string -> Embedding>)
    requires EmbeddedIff(a, embedder) && EmbeddedIff(b, embedder)
    ensures EmbeddedIff(a + b, embedder)
  {
    forall k | 0 <= k < |a + b|
      ensures (a + b)[k].embedding.Some? <==> embedder.Some?
    {
      if k >= |a| {
        assert (a + b)[k] == b[k - |a|];
      }
    }
  }

  lemma LoadNextEmbedded(s: Settings, st: Loaded, path: string)
    requires s.step > 0 && EmbeddedState(st, s.embedder)
    ensures EmbeddedState(LoadNext(s, st, path), s.embedder)
  {
    var stem := Stem(path);
    if !st.failed {
      if stem in st.cache {
        RenumberedSpec(st.cache[stem], |st.documents|);
        EmbeddedAppend(st.documents, Renumbered(st.cache[stem], |st.documents|), s.embedder);
      } else {
        var built := BuildPages(s, path, s.pdfPages(path), |st.documents|);
        if built.Some? {
          BuildPagesChunks(s, path, s.pdfPages(path), |st.documents|);
          forall k | 0 <= k < |built.value|
            ensures built.value[k].embedding.Some? <==> s.embedder.Some?
          {
            assert built.value[k] in built.value;
          }
          EmbeddedAppend(st.documents, built.value, s.embedder);
        }
      }
    }
  }

  /** If the stored chunks agree with the embedder about having embeddings, so do
      all documents and cache entries after loading. */
  lemma {:induction false} LoadPathsEmbedded(s: Settings, st: Loaded, paths: seq<string>)
    requires s.step > 0 && EmbeddedState(st, s.embedder)
    ensures EmbeddedState(LoadPaths(s, st, paths), s.embedder)
    decreases |paths|
  {
    if paths != [] {
      LoadPathsEmbedded(s, st, paths[..|paths| - 1]);
      LoadNextEmbedded(s, LoadPaths(s, st, paths[..|paths| - 1]), paths[|paths| - 1]);
    }
  }

  /** Loading the first path into an empty state, when its pages build. */
  lemma LoadFirst(s: Settings, path: string, built: seq<Chunk>)
    requires s.step > 0 && s.save
    requires BuildPages(s, path, s.pdfPages(path), 0) == Some(built)
    ensures LoadPaths(s, Loaded([], map[], false), [path]) == Loaded(built, map[Stem(path) := built], false)
  {
    var init := Loaded([], map[], false);
    assert [path][..0] == [];
    LoadNextMiss(s, init, path, Some(built));
  }

  /** Two files of the same name in different directories share one cache entry:
      with `save`, the second is never read, and its chunks are copies of the
      first file's, renumbered. */
  lemma SameNameReusesChunks(s: Settings, dir1: string, dir2: string, name: string, built: seq<Chunk>)
    requires s.step > 0 && s.save && '/' !in name && name != []
    requires BuildPages(s, dir1 + "/" + name, s.pdfPages(dir1 + "/" + name), 0) == Some(built)
    ensures LoadPaths(s, Loaded([], map[], false), [dir1 + "/" + name, dir2 + "/" + name]).documents
         == built + Renumbered(built, |built|)
  {
    var p1, p2 := dir1 + "/" + name, dir2 + "/" + name;
    var init := Loaded([], map[], false);
    StemIgnoresDirectory(dir1, dir2, name);
    LoadFirst(s, p1, built);
    var after1 := Loaded(built, map[Stem(p1) := built], false);
    assert [p1, p2][..1] == [p1];
    LoadPathsStep(s, init, [p1, p2], 1);
    LoadNextHit(s, after1, p2);
  }

  /** The chunks loaded for the second of two same-named files carry the path of
      the first. */
  lemma SameNameKeepsFirstPath(s: Settings, dir1: string, dir2: string, name: string, built: seq<Chunk>)
    requires s.step > 0 && s.save && '/' !in name && name != []
    requires BuildPages(s, dir1 + "/" + name, s.pdfPages(dir1 + "/" + name), 0) == Some(built)
    ensures var docs := LoadPaths(s, Loaded([], map[], false), [dir1 + "/" + name, dir2 + "/" + name]).documents;
      |docs| == 2 * |built| && forall k | |built| <= k < |docs| :: docs[k].metadata.file == dir1 + "/" + name
  {
    var p1 := dir1 + "/" + name;
    SameNameReusesChunks(s, dir1, dir2, name, built);
    BuildPagesChunks(s, p1, s.pdfPages(p1), 0);
    RenumberedSpec(built, |built|);
    var docs := built + Renumbered(built, |built|);
    forall k | |built| <= k < 2 * |built|
      ensures docs[k].metadata.file == p1
    {
      assert docs[k] == Renumbered(built, |built|)[k - |built|];
      assert built[k - |built|] in built;
    }
  }

  // ---------------------------------------------------------------------------
  // The retriever

  class Retriever {
    var documents: seq<Chunk>
    /** The `storage/` directory: the chunk list pickled as `<stem>.pkl`, by stem. */
    var cache: map<string, seq<Chunk>>
    /** Whether loading the documents in `__init__` raised. */
    var loadError: bool
    const chunkSize: nat
    const overlap: int
    const step: int
    const chunkingStrategy: string
    const pdfReader: string -> seq<string>
    const save: bool
    const embedder: Option<string -> Embedding>

    function Config(): Settings
      requires step > 0
    {
      Settings(chunkSize, step, chunkingStrategy == "semantic", save, embedder, pdfReader)
    }

    /** `Retriever(...)`: derives the overlap and step from the chunk size and the
        overlap ratio `ratioNum / ratioDen`, then loads `docsPaths` against the
        files already in `storage`. */
    constructor(embedder: Option<string -> Embedding>, pdfReader: string -> seq<string>, docsPaths: seq<string>,
                chunkSize: nat, ratioNum: int, ratioDen: int, chunkingStrategy: string, save: bool,
                storage: map<string, seq<Chunk>>)
      requires ratioDen > 0 && Step(chunkSize, ratioNum, ratioDen) > 0
      ensures this.chunkSize == chunkSize && this.chunkingStrategy == chunkingStrategy
      ensures this.overlap == Overlap(chunkSize, ratioNum, ratioDen)
      ensures this.step == Step(chunkSize, ratioNum, ratioDen)
      ensures this.embedder == embedder && this.pdfReader == pdfReader && this.save == save
      ensures var r := LoadPaths(Config(), Loaded([], storage, false), docsPaths);
        documents == r.documents && cache == r.cache && loadError == r.failed
    {
      this.chunkSize := chunkSize;
      this.overlap := Overlap(chunkSize, ratioNum, ratioDen);
      this.step := chunkSize - Overlap(chunkSize, ratioNum, ratioDen);
      this.chunkingStrategy := chunkingStrategy;
      this.pdfReader := pdfReader;
      this.save := save;
      this.embedder := embedder;
      documents := [];
      cache := storage;
      loadError := false;
      new;
      var ok := LoadAndEmbedDocs(docsPaths);
      loadError := !ok;
    }

    /** The loop at the top of a cache hit: gives the saved chunks the ids
        `firstId`, `firstId + 1`, ... in place. */
    static method RenumberSaved(savedDocs: seq<Chunk>, firstId: nat) returns (docs: seq<Chunk>)
      ensures docs == Renumbered(savedDocs, firstId)
    {
      docs := savedDocs;
      var chunkId := firstId;
      for i := 0 to |docs|
        invariant docs == Renumbered(savedDocs[..i], firstId) + savedDocs[i..]
        invariant chunkId == firstId + i
      {
        RenumberedStep(savedDocs, firstId, i);
        ghost var done := Renumbered(savedDocs[..i], firstId);
        assert docs[i] == savedDocs[i];
        docs := docs[i := docs[i].(metadata := docs[i].metadata.(chunkId := chunkId))];
        assert docs == done + [docs[i]] + savedDocs[i + 1..];
        chunkId := chunkId + 1;
      }
      assert savedDocs[..|savedDocs|] == savedDocs;
    }

    /** The loop over one page's chunks: a chunk dict per chunk, with the chunk's
        embedding when there is an embedder, numbered from `firstId`. */
    method EmbedChunks(chunks: seq<string>, path: string, pageNum: nat, firstId: nat) returns (data: seq<Chunk>)
      ensures data == PageChunks(embedder, chunks, path, pageNum, firstId)
    {
      data := [];
      for j := 0 to |chunks|
        invariant data == PageChunks(embedder, chunks[..j], path, pageNum, firstId)
      {
        PageChunksStep(embedder, chunks, path, pageNum, firstId, j);
        var embedding := None;
        if embedder.Some? {
          embedding := Some(embedder.value(chunks[j]));
        }
        var chunkData := Chunk(chunks[j], embedding, Metadata(path, pageNum, firstId + |data|));
        data := data + [chunkData];
      }
      assert chunks[..|chunks|] == chunks;
    }

    /** The page loop of a cache miss: the chunk dicts of `path`, numbered from
        `firstId`, or `None` when the `"semantic"` strategy meets a page with text
        (`_semantic_chunk_text` returns `None`, and iterating it raises). */
    method ProcessPdf(path: string, firstId: nat) returns (dataToStore: Option<seq<Chunk>>)
      requires step > 0
      ensures dataToStore == BuildPages(Config(), path, pdfReader(path), firstId)
    {
      ghost var s := Config();
      assert s.embedder == embedder && s.chunkSize == chunkSize && s.step == step;
      var data: seq<Chunk> := [];
      var pages := pdfReader(path);
      for pageNum := 1 to |pages| + 1
        invariant BuildPages(s, path, pages[..pageNum - 1], firstId) == Some(data)
      {
        BuildPagesStep(s, path, pages, firstId, pageNum - 1);
        var next := ProcessPage(path, pageNum, pages[pageNum - 1], data, firstId);
        if next.None? {
          BuildPagesAfterFailure(s, path, pages, firstId, pageNum);
          return None;
        }
        data := next.value;
      }
      assert pages[..|pages|] == pages;
      return Some(data);
    }

    /** One iteration of the page loop: `data`, the chunk dicts of the earlier
        pages, is returned unchanged for a page without text, `None` with the
        `"semantic"` strategy, and otherwise extended by the page's chunk dicts. */
    method ProcessPage(path: string, pageNum: nat, text: string, data: seq<Chunk>, firstId: nat)
      returns (next: Option<seq<Chunk>>)
      requires step > 0
      ensures next == AddPage(Config(), path, Some(data), pageNum, text, firstId)
    {
      if text == "" {
        return Some(data);
      }
      if chunkingStrategy == "semantic" {
        return None;
      }
      var chunks := ChunkText(text, chunkSize, step);
      var pageData := EmbedChunks(chunks, path, pageNum, firstId + |data|);
      AddPageChunked(Config(), path, data, pageNum, text, firstId);
      return Some(data + pageData);
    }

    /** The body of the loop over `docs_paths` for one path, with the running
        `chunk_id` equal to the number of documents so far: appends the path's
        chunks, taken from the cache when its stem is there and built (and, with
        `save`, stored) otherwise. Returns false, changing nothing, when building
        raises. */
    method LoadDoc(path: string) returns (ok: bool)
      requires step > 0
      modifies this
      ensures LoadFile(Config(), Loaded(old(documents), old(cache), false), path) == Loaded(documents, cache, !ok)
      ensures loadError == old(loadError)
    {
      ghost var s := Config();
      ghost var st := Loaded(documents, cache, false);
      var chunkId := |documents|;
      var pdfName := Stem(path);
      if pdfName in cache {
        LoadNextHit(s, st, path);
        var savedDocs := RenumberSaved(cache[pdfName], chunkId);
        documents := documents + savedDocs;
        ok := true;
      } else {
        var dataToStore := ProcessPdf(path, chunkId);
        LoadNextMiss(s, st, path, dataToStore);
        if dataToStore.None? {
          return false;
        }
        documents := documents + dataToStore.value;
        if save {
          cache := cache[pdfName := dataToStore.value];
        }
        ok := true;
      }
    }

    /** `_load_and_embed_docs(paths)`: loads every path in turn into
        `documents`, numbering the chunks with one running counter. Returns false
        when loading raised; the paths after the failing one are not loaded. */
    method LoadAndEmbedDocs(paths: seq<string>) returns (ok: bool)
      requires step > 0 && documents == []
      modifies this
      ensures var r := LoadPaths(Config(), Loaded([], old(cache), false), paths);
        documents == r.documents && cache == r.cache && ok == !r.failed
      ensures loadError == old(loadError)
    {
      ghost var s := Config();
      ghost var init := Loaded([], cache, false);
      for p := 0 to |paths|
        invariant LoadPaths(s, init, paths[..p]) == Loaded(documents, cache, false)
        invariant loadError == old(loadError)
      {
        LoadPathsStep(s, init, paths, p);
        ok := LoadDoc(paths[p]);
        if !ok {
          LoadPathsAfterFailure(s, init, paths, p + 1);
          return;
        }
      }
      assert paths[..|paths|] == paths;
      ok := true;
    }

    /** `retrieve(query, top_k)` for the given scores of the documents against the
        query: for `top_k >= 0`, the `min(top_k, n)` best documents with their
        scores, `n` the number of scored documents, best first. */
    function Retrieve(scores: seq<real>, topK: int): (r: seq<(Chunk, real)>)
      reads this
      ensures topK >= 0 ==> |r| == if topK <= Paired(documents, scores) then topK else Paired(documents, scores)
    {
      TopKLength(documents, scores, if topK >= 0 then topK else 0);
      TopK(documents, scores, topK)
    }

    /** What `retrieve` returns are documents, best score first. */
    lemma RetrieveRanked(scores: seq<real>, topK: int)
      ensures forall k | 0 <= k < |Retrieve(scores, topK)| :: Retrieve(scores, topK)[k].0 in documents
      ensures forall a, b | 0 <= a < b < |Retrieve(scores, topK)| :: Retrieve(scores, topK)[a].1 >= Retrieve(scores, topK)[b].1
    {
      TopKPairs(documents, scores, topK);
      TopKDescending(documents, scores, topK);
    }
  }
}
