/**
 * `Agent` (rag/agent.py): builds the prompt from the retrieved chunks, numbering
 * them as sources `[1]`, `[2]`, ..., appends the citation list to the model's
 * answer, and records a log of the run.
 *
 * The agent uses its retriever only through `retrieve(question, top_k)`, and the
 * language model only as a call from prompt to answer; both are functions here.
 */
module Agent {
  import opened Text
  import opened Retriever

  /** One entry of `sources`: `{"id", "file", "page"}`. */
  datatype Source = Source(id: string, file: string, page: nat)

  /** `f"[{i + 1}]"`, the id of the `i`-th retrieved chunk (from 0). */
  function SourceId(i: nat): (id: string)
    ensures |id| >= 3 && id[0] == '[' && id[|id| - 1] == ']'
    ensures id[1..|id| - 1] == NatToString(i + 1)
  {
    "[" + NatToString(i + 1) + "]"
  }

  /** Different chunks get different ids. */
  lemma SourceIdsDistinct(i: nat, j: nat)
    requires SourceId(i) == SourceId(j)
    ensures i == j
  {
    NatToStringInjective(i + 1, j + 1);
  }

  /** The first source is `[1]`. */
  lemma FirstSourceId()
    ensures SourceId(0) == "[1]"
  {
    assert NatToString(1) == [Digit(1)] == "1";
  }

  /** The context block of the `i`-th retrieved chunk `c`. */
  function Block(i: nat, c: Chunk): string {
    SourceId(i) + " File: " + c.metadata.file + ", Page: " + NatToString(c.metadata.page) + "\n" + c.text
  }

  /** `context_blocks` once the loop is done. */
  function Blocks(retrieved: seq<(Chunk, real)>): seq<string> {
    seq(|retrieved|, i requires 0 <= i < |retrieved| => Block(i, retrieved[i].0))
  }

  /** `sources` once the loop is done. */
  function Sources(retrieved: seq<(Chunk, real)>): seq<Source> {
    seq(|retrieved|, i requires 0 <= i < |retrieved| =>
      Source(SourceId(i), retrieved[i].0.metadata.file, retrieved[i].0.metadata.page))
  }

  /** One source per retrieved pair, in order: the `i`-th has the id `[i+1]` and
      the file and page of the `i`-th chunk, and no two sources share an id. */
  lemma SourcesMatchRetrieved(retrieved: seq<(Chunk, real)>)
    ensures |Sources(retrieved)| == |retrieved|
    ensures forall i | 0 <= i < |retrieved| ::
      && Sources(retrieved)[i].id == "[" + NatToString(i + 1) + "]"
      && Sources(retrieved)[i].file == retrieved[i].0.metadata.file
      && Sources(retrieved)[i].page == retrieved[i].0.metadata.page
    ensures forall i, j | 0 <= i < j < |retrieved| :: Sources(retrieved)[i].id != Sources(retrieved)[j].id
  {
    var sources := Sources(retrieved);
    forall i, j | 0 <= i < j < |retrieved|
      ensures sources[i].id != sources[j].id
    {
      if sources[i].id == sources[j].id {
        SourceIdsDistinct(i, j);
      }
    }
  }

  /** `"\n\n".join(context_blocks)`. */
  function Context(retrieved: seq<(Chunk, real)>): string {
    Join(Blocks(retrieved), "\n\n")
  }

  // ---------------------------------------------------------------------------
  // The prompt template

  /** The instructions that open the prompt template, up to the context. */
  const Header: string :=
    "\nYou are a QA assistant."
    + "\nAnswer the question **only** using the provided context."
    + "\nIf the answer is not contained, say \"I don't know\"."
    + "\n\nContext:\n"

  /** The template with header `header`, filled in, before `strip()`. */
  function Fill(header: string, context: string, question: string): string {
    header + context + "\n\nQuestion:\n" + question + "\n"
  }

  /** The prompt `_create_prompt` returns. */
  function Prompt(question: string, retrieved: seq<(Chunk, real)>): string {
    Strip(Fill(Header, Context(retrieved), question))
  }

  /** A header that opens with one whitespace character and then text, as
      `Header` does. */
  predicate OpensWithOneSpace(header: string) {
    |header| >= 2 && IsSpace(header[0]) && !IsSpace(header[1])
  }

  lemma HeaderOpensWithOneSpace()
    ensures OpensWithOneSpace(Header)
  {
    assert Header[0] == '\n' && Header[1] == 'Y';
  }

  /** A slice of `a + b` that starts in `a` and ends in `b`. */
  lemma SliceAcross(a: string, b: string, lo: nat, hi: nat)
    requires lo <= |a| <= hi <= |a| + |b|
    ensures (a + b)[lo..hi] == a[lo..] + b[..hi - |a|]
  {
  }

  /** Stripping the filled template removes the header's first character and
      only whitespace after `Question:`. */
  lemma StripFill(header: string, context: string, question: string) returns (hi: nat)
    requires OpensWithOneSpace(header)
    ensures |header| + |context| + 11 <= hi < |Fill(header, context, question)|
    ensures Strip(Fill(header, context, question)) == Fill(header, context, question)[1..hi]
    ensures IsBlank(Fill(header, context, question)[hi..])
  {
    var a := header + context + "\n\nQuestion:";
    var b := "\n" + question + "\n";
    var t := a + b;
    assert t == Fill(header, context, question);
    assert t[0] == header[0] && t[1] == header[1];
    assert t[|a| - 1] == ':';
    assert t[|t| - 1] == '\n';
    var lo, h := StripBounds(t);
    hi := h;
  }

  /** The stripped template is the header less its first character, the
      context, `Question:`, and then the question after a newline, less any
      trailing whitespace. */
  lemma FillLayout(header: string, context: string, question: string) returns (rest: string)
    requires OpensWithOneSpace(header)
    ensures Strip(Fill(header, context, question)) == header[1..] + context + ("\n\nQuestion:" + rest)
    ensures rest <= "\n" + question
    ensures IsBlank(("\n" + question)[|rest|..])
    ensures rest == [] || !IsSpace(rest[|rest| - 1])
  {
    var a := header + context + "\n\nQuestion:";
    var q := "\n" + question;
    var b := q + "\n";
    var t := a + b;
    var hi := StripFill(header, context, question);
    assert t == Fill(header, context, question);
    SliceAcross(a, b, 1, hi);
    rest := b[..hi - |a|];
    assert a[1..] == header[1..] + context + "\n\nQuestion:";
    BlankTailInside(a, q, "\n", hi);
    assert rest == q[..hi - |a|];
  }

  /** Where a blank tail of `a + (q + z)` starts inside `q`, it leaves a blank
      tail of `q`. */
  lemma BlankTailInside(a: string, q: string, z: string, hi: nat)
    requires |a| <= hi <= |a| + |q|
    requires IsBlank((a + (q + z))[hi..])
    ensures IsBlank(q[hi - |a|..])
  {
    var t := a + (q + z);
    forall k | hi - |a| <= k < |q|
      ensures IsSpace(q[k])
    {
      assert q[k] == t[|a| + k] == t[hi..][|a| + k - hi];
    }
  }

  /** The prompt is the instructions (without the template's first newline),
      the context, `Question:`, and then the question after a newline, less any
      trailing whitespace. It has no whitespace at either end. */
  lemma PromptLayout(question: string, retrieved: seq<(Chunk, real)>) returns (rest: string)
    ensures Prompt(question, retrieved) == Header[1..] + Context(retrieved) + ("\n\nQuestion:" + rest)
    ensures rest <= "\n" + question
    ensures IsBlank(("\n" + question)[|rest|..])
    ensures rest == [] || !IsSpace(rest[|rest| - 1])
    ensures !IsSpace(Prompt(question, retrieved)[0])
    ensures !IsSpace(Prompt(question, retrieved)[|Prompt(question, retrieved)| - 1])
  {
    HeaderOpensWithOneSpace();
    rest := FillLayout(Header, Context(retrieved), question);
  }

  /** Where block `i` starts in the context. */
  function BlockOffset(retrieved: seq<(Chunk, real)>, i: nat): nat
    requires i < |retrieved|
  {
    JoinOffset(Blocks(retrieved), "\n\n", i)
  }

  /** Every retrieved chunk's block, with its source id, file, page and text,
      appears in the context at its offset; the context follows the
      instructions in the prompt (`PromptLayout`). */
  lemma ContextHoldsBlock(retrieved: seq<(Chunk, real)>, i: nat)
    requires i < |retrieved|
    ensures BlockOffset(retrieved, i) + |Block(i, retrieved[i].0)| <= |Context(retrieved)|
    ensures Context(retrieved)[BlockOffset(retrieved, i)..BlockOffset(retrieved, i) + |Block(i, retrieved[i].0)|]
         == Block(i, retrieved[i].0)
  {
    JoinPlacesPart(Blocks(retrieved), "\n\n", i);
  }

  /** A chunk's text ends its block. */
  lemma BlockEndsWithText(i: nat, c: Chunk)
    ensures |c.text| <= |Block(i, c)|
    ensures Block(i, c)[|Block(i, c)| - |c.text|..] == c.text
  {
  }

  lemma {:induction false} JoinOffsetIncreasing(parts: seq<string>, sep: string, i: nat, j: nat)
    requires i < j <= |parts|
    ensures JoinOffset(parts, sep, i) + |parts[i]| + |sep| <= JoinOffset(parts, sep, j)
    decreases j - i
  {
    if i + 1 < j {
      JoinOffsetIncreasing(parts, sep, i, j - 1);
    }
  }

  /** The blocks appear in retrieval order, each ending before the next starts. */
  lemma BlocksInOrder(retrieved: seq<(Chunk, real)>, i: nat, j: nat)
    requires i < j < |retrieved|
    ensures BlockOffset(retrieved, i) + |Block(i, retrieved[i].0)| < BlockOffset(retrieved, j)
  {
    JoinOffsetIncreasing(Blocks(retrieved), "\n\n", i, j);
  }

  /** The prompt always has a word: it starts with the instructions. */
  lemma PromptHasWords(question: string, retrieved: seq<(Chunk, real)>)
    ensures |Split(Prompt(question, retrieved))| >= 1
  {
    var _ := PromptLayout(question, retrieved);
    SplitNonBlank(Prompt(question, retrieved));
  }

  // ---------------------------------------------------------------------------
  // Citations

  /** `f"{s['id']} {s['file']} (page {s['page']})\n"`. */
  function CitationLine(s: Source): string {
    s.id + " " + s.file + " (page " + NatToString(s.page) + ")\n"
  }

  /** The citation lines of `sources`, in order. */
  function CitationLines(sources: seq<Source>): string
    decreases |sources|
  {
    if sources == [] then "" else CitationLines(sources[..|sources| - 1]) + CitationLine(sources[|sources| - 1])
  }

  /** What `_add_citations` returns. */
  function Cited(answer: string, sources: seq<Source>): string {
    Strip(answer) + "\n\nSources:\n" + CitationLines(sources)
  }

  /** The lines of the first sources start the lines of all of them. */
  lemma {:induction false} CitationLinesPrefix(sources: seq<Source>, m: nat)
    requires m <= |sources|
    ensures CitationLines(sources[..m]) <= CitationLines(sources)
    decreases |sources| - m
  {
    if m < |sources| {
      CitationLinesPrefix(sources, m + 1);
      assert sources[..m + 1][..m] == sources[..m];
    } else {
      assert sources[..m] == sources;
    }
  }

  /** A common start keeps a prefix a prefix. */
  lemma PrefixAfter(h: string, a: string, b: string)
    requires a <= b
    ensures h + a <= h + b
  {
  }

  /** The line of source `i` follows the lines of the sources before it. */
  lemma CitationLinePlaced(answer: string, sources: seq<Source>, i: nat)
    requires i < |sources|
    ensures Strip(answer) + "\n\nSources:\n" + CitationLines(sources[..i]) + CitationLine(sources[i]) <= Cited(answer, sources)
  {
    var heading := Strip(answer) + "\n\nSources:\n";
    var lines := CitationLines(sources[..i]) + CitationLine(sources[i]);
    CitationLinesPrefix(sources, i + 1);
    assert sources[..i + 1][..i] == sources[..i];
    PrefixAfter(heading, lines, CitationLines(sources));
    assert heading + CitationLines(sources[..i]) + CitationLine(sources[i]) == heading + lines;
  }

  /** After the stripped answer and the `Sources:` heading, the first line cites
      `[1]` and the first chunk's file. */
  lemma FirstCitation(answer: string, retrieved: seq<(Chunk, real)>)
    requires |retrieved| > 0
    ensures Strip(answer) + "\n\nSources:\n" + "[1] " + retrieved[0].0.metadata.file <= Cited(answer, Sources(retrieved))
  {
    var sources := Sources(retrieved);
    FirstSourceId();
    assert sources[0].id == "[1]" && sources[0].file == retrieved[0].0.metadata.file;
    FirstCitationLine(answer, sources);
  }

  /** The citation list opens with the line of its first source. */
  lemma FirstCitationLine(answer: string, sources: seq<Source>)
    requires |sources| > 0
    ensures Strip(answer) + "\n\nSources:\n" + sources[0].id + " " + sources[0].file <= Cited(answer, sources)
  {
    var heading := Strip(answer) + "\n\nSources:\n";
    var first := heading + sources[0].id + " " + sources[0].file;
    var rest := " (page " + NatToString(sources[0].page) + ")\n";
    CitationLinePlaced(answer, sources, 0);
    assert sources[..0] == [];
    assert heading + CitationLines(sources[..0]) + CitationLine(sources[0]) == first + rest;
    PrefixOfPrefix(first, rest, Cited(answer, sources));
  }

  /** A prefix of a prefix is a prefix. */
  lemma PrefixOfPrefix(x: string, y: string, z: string)
    requires x + y <= z
    ensures x <= z
  {
    assert x <= x + y;
  }

  // ---------------------------------------------------------------------------
  // The log of a run

  /** One entry of `log["retrieval"]`. */
  datatype RetrievalEntry = RetrievalEntry(file: string, chunkId: nat, text: string, score: real)

  /** The log entry of one retrieved pair: file, chunk id and text of the chunk,
      and its score. */
  function LogEntry(r: (Chunk, real)): RetrievalEntry {
    RetrievalEntry(r.0.metadata.file, r.0.metadata.chunkId, r.0.text, r.1)
  }

  /** The log of `run`, without the trace id and the latencies. */
  datatype Log = Log(question: string, plan: seq<string>, retrieval: seq<RetrievalEntry>, draftTokens: nat, errors: seq<string>)

  const Plan: seq<string> := ["retrieve", "draft", "cite"]

  /** `log["retrieval"]`: per retrieved pair, in order, its chunk's file, chunk
      id and text, and its score. */
  function Entries(retrieved: seq<(Chunk, real)>): (es: seq<RetrievalEntry>)
    ensures |es| == |retrieved|
    ensures forall k | 0 <= k < |retrieved| ::
      && es[k].file == retrieved[k].0.metadata.file
      && es[k].chunkId == retrieved[k].0.metadata.chunkId
      && es[k].text == retrieved[k].0.text
      && es[k].score == retrieved[k].1
  {
    seq(|retrieved|, k requires 0 <= k < |retrieved| => LogEntry(retrieved[k]))
  }

  /** The log dict `run` builds for `question` and what was retrieved for it: the
      fixed plan, the retrieval entries, the word count of the prompt, which is
      never zero, and no errors. */
  function RunLog(question: string, retrieved: seq<(Chunk, real)>): (log: Log)
    ensures log.question == question && log.plan == ["retrieve", "draft", "cite"] && log.errors == []
    ensures log.retrieval == Entries(retrieved)
    ensures log.draftTokens == |Split(Prompt(question, retrieved))| >= 1
  {
    PromptHasWords(question, retrieved);
    Log(question, Plan, Entries(retrieved), |Split(Prompt(question, retrieved))|, [])
  }

  // ---------------------------------------------------------------------------
  // The agent

  class Agent {
    /** `self.retriever.retrieve`. */
    const retrieve: (string, int) -> seq<(Chunk, real)>
    /** `self.llm`. */
    const llm: string -> string

    constructor(retrieve: (string, int) -> seq<(Chunk, real)>, llm: string -> string)
      ensures this.retrieve == retrieve && this.llm == llm
    {
      this.retrieve := retrieve;
      this.llm := llm;
    }

    /** `_create_prompt(question, retrieved)`: one context block and one source
        per retrieved pair, in order, then the stripped template. */
    method CreatePrompt(question: string, retrieved: seq<(Chunk, real)>) returns (prompt: string, sources: seq<Source>)
      ensures prompt == Prompt(question, retrieved)
      ensures sources == Sources(retrieved)
    {
      var contextBlocks: seq<string> := [];
      sources := [];
      for i := 0 to |retrieved|
        invariant contextBlocks == Blocks(retrieved)[..i]
        invariant sources == Sources(retrieved)[..i]
      {
        var (document, score) := retrieved[i];
        var metadata := document.metadata;
        var sourceId := "[" + NatToString(i + 1) + "]";
        contextBlocks := contextBlocks + [sourceId + " File: " + metadata.file + ", Page: " + NatToString(metadata.page) + "\n" + document.text];
        sources := sources + [Source(sourceId, metadata.file, metadata.page)];
      }
      var context := Join(contextBlocks, "\n\n");
      assert contextBlocks == Blocks(retrieved);
      assert sources == Sources(retrieved);
      prompt := Strip(Fill(Header, context, question));
    }

    /** `_add_citations(answer, sources)`. */
    method AddCitations(answer: string, sources: seq<Source>) returns (response: string)
      ensures response == Cited(answer, sources)
    {
      var citationLines := "\n\nSources:\n";
      for i := 0 to |sources|
        invariant citationLines == "\n\nSources:\n" + CitationLines(sources[..i])
      {
        assert sources[..i + 1][..i] == sources[..i];
        citationLines := citationLines + CitationLine(sources[i]);
      }
      assert sources[..|sources|] == sources;
      response := Strip(answer) + citationLines;
    }

    /** `run(question, top_k)`: retrieve, draft with the language model, cite,
        and log. */
    method Run(question: string, topK: int) returns (response: string, log: Log)
      ensures response == Cited(llm(Prompt(question, retrieve(question, topK))), Sources(retrieve(question, topK)))
      ensures log == RunLog(question, retrieve(question, topK))
    {
      var retrieved := retrieve(question, topK);
      var prompt, sources := CreatePrompt(question, retrieved);
      var answer := llm(prompt);
      response := AddCitations(answer, sources);
      log := Log(
        question,
        ["retrieve", "draft", "cite"],
        seq(|retrieved|, k requires 0 <= k < |retrieved| => LogEntry(retrieved[k])),
        |Split(prompt)|,
        []);
    }
  }
}
