/** Server-sent events as the providers emit and read them (src/providers.rs:82-110, 169-217): one
    `data:` line for each JSON chunk, by section 9.2 of the WHATWG HTML standard.

    The JSON reader is a parameter: reading is proved about any, and the round trip about any that
    recovers the value of the chunks emitted, in whatever order it puts their keys. */
module Sse {
  import opened Common
  import opened Sorting
  import opened CanonicalJson
  import opened Attestation
  import Utf8

  // ---- Reading -------------------------------------------------------------------------

  /** The end of the first line: the index of its newline, or the length of the text. */
  function LineEnd(text: string): (k: nat)
    ensures k <= |text| && (k < |text| ==> text[k] == '\n')
  {
    if text == "" || text[0] == '\n' then 0 else 1 + LineEnd(text[1..])
  }

  /** A carriage return right before the newline belongs to the line ending. */
  function Chomp(line: string): string {
    if line != "" && line[|line| - 1] == '\r' then line[..|line| - 1] else line
  }

  function FirstLine(text: string): string {
    var k := LineEnd(text);
    if k == |text| then text else Chomp(text[..k])
  }

  function AfterLine(text: string): (rest: string)
    ensures text != "" ==> |rest| < |text|
  {
    var k := LineEnd(text);
    if k == |text| then "" else text[k + 1..]
  }

  function Lines(text: string): seq<string>
    decreases |text|
  {
    if text == "" then [] else [FirstLine(text)] + Lines(AfterLine(text))
  }

  const PREFIX := "data: "

  /** What a line adds to the content; `extract` reads a payload. */
  function LineContent(extract: string -> string, line: string): string {
    if PREFIX <= line then extract(line[|PREFIX|..]) else ""
  }

  function LinesContent(extract: string -> string, lines: seq<string>): string {
    if lines == [] then "" else LineContent(extract, lines[0]) + LinesContent(extract, lines[1..])
  }

  function Parsed(extract: string -> string, text: string): string {
    LinesContent(extract, Lines(text))
  }

  /** What is read from the bytes of a stream. */
  function Read(extract: string -> string, data: Utf8.Bytes): string {
    Parsed(extract, Utf8.Lossy(data))
  }

  type Decoder = string -> Option<Json>

  /** Indexing a JSON value: null where there is nothing. */
  function Field(j: Json, key: string): Json {
    if j.Object? then FieldOf(j.entries, key) else Null
  }

  function FieldOf(entries: seq<Entry>, key: string): Json {
    if entries == [] then Null
    else if entries[0].key == key then entries[0].value
    else FieldOf(entries[1..], key)
  }

  function First(j: Json): Json {
    if j.Array? && j.items != [] then j.items[0] else Null
  }

  function Text(j: Json): string {
    if j.String? then j.chars else ""
  }

  /** choices[0].delta.content */
  function Delta(chunk: Json): string {
    Text(Field(Field(First(Field(chunk, "choices")), "delta"), "content"))
  }

  function OpenAiPayload(decode: Decoder): string -> string {
    payload =>
      if payload == "[DONE]" then ""
      else match decode(payload)
        case Some(chunk) => Delta(chunk)
        case None => ""
  }

  function TextDelta(event: Json): string {
    if Text(Field(event, "type")) == "content_block_delta" && Text(Field(Field(event, "delta"), "type")) == "text_delta"
    then Text(Field(Field(event, "delta"), "text"))
    else ""
  }

  function AnthropicPayload(decode: Decoder): string -> string {
    payload =>
      match decode(payload)
        case Some(event) => TextDelta(event)
        case None => ""
  }

  lemma {:induction false} LinesContentOneMore(extract: string -> string, lines: seq<string>, i: nat)
    requires i < |lines|
    ensures LinesContent(extract, lines[..i + 1]) == LinesContent(extract, lines[..i]) + LineContent(extract, lines[i])
  {
    LinesContentJoin(extract, lines[..i], [lines[i]]);
    assert lines[..i + 1] == lines[..i] + [lines[i]];
  }

  lemma {:induction false} LinesContentJoin(extract: string -> string, a: seq<string>, b: seq<string>)
    ensures LinesContent(extract, a + b) == LinesContent(extract, a) + LinesContent(extract, b)
  {
    if a == [] {
      assert a + b == b;
    } else {
      assert (a + b)[1..] == a[1..] + b;
      LinesContentJoin(extract, a[1..], b);
    }
  }

  method ParseOpenAi(decode: Decoder, data: Utf8.Bytes) returns (content: string)
    ensures content == Read(OpenAiPayload(decode), data)
  {
    content := "";
    var lines := Lines(Utf8.Lossy(data));
    for i := 0 to |lines|
      invariant content == LinesContent(OpenAiPayload(decode), lines[..i])
    {
      LinesContentOneMore(OpenAiPayload(decode), lines, i);
      if PREFIX <= lines[i] {
        var payload := lines[i][|PREFIX|..];
        if payload == "[DONE]" {
          continue;
        }
        match decode(payload)
        case Some(chunk) => content := content + Delta(chunk);
        case None =>
      }
    }
    assert lines[..|lines|] == lines;
  }

  method ParseAnthropic(decode: Decoder, data: Utf8.Bytes) returns (content: string)
    ensures content == Read(AnthropicPayload(decode), data)
  {
    content := "";
    var lines := Lines(Utf8.Lossy(data));
    for i := 0 to |lines|
      invariant content == LinesContent(AnthropicPayload(decode), lines[..i])
    {
      LinesContentOneMore(AnthropicPayload(decode), lines, i);
      if PREFIX <= lines[i] {
        match decode(lines[i][|PREFIX|..])
        case Some(event) =>
          if Text(Field(event, "type")) == "content_block_delta"
             && Text(Field(Field(event, "delta"), "type")) == "text_delta"
          {
            content := content + Text(Field(Field(event, "delta"), "text"));
          }
        case None =>
      }
    }
    assert lines[..|lines|] == lines;
  }

  // ---- Streams put together ------------------------------------------------------------

  lemma {:induction false} LineEndJoin(a: string, b: string)
    requires LineEnd(a) < |a|
    ensures LineEnd(a + b) == LineEnd(a)
  {
    if a[0] != '\n' {
      assert (a + b)[1..] == a[1..] + b;
      LineEndJoin(a[1..], b);
    }
  }

  lemma {:induction false} LineEndFound(a: string)
    requires a != "" && a[|a| - 1] == '\n'
    ensures LineEnd(a) < |a|
  {
    if a[0] != '\n' { LineEndFound(a[1..]); }
  }

  lemma FirstLineJoin(a: string, b: string)
    requires a != "" && a[|a| - 1] == '\n'
    ensures FirstLine(a + b) == FirstLine(a) && AfterLine(a + b) == AfterLine(a) + b
    ensures AfterLine(a) == "" || AfterLine(a)[|AfterLine(a)| - 1] == '\n'
  {
    var k := LineEnd(a);
    LineEndFound(a);
    LineEndJoin(a, b);
    assert (a + b)[..k] == a[..k] && (a + b)[k + 1..] == a[k + 1..] + b;
  }

  lemma LinesStep(a: string, b: string)
    requires a != "" && a[|a| - 1] == '\n'
    ensures Lines(a) == [FirstLine(a)] + Lines(AfterLine(a))
    ensures Lines(a + b) == [FirstLine(a)] + Lines(AfterLine(a) + b)
    ensures AfterLine(a) == "" || AfterLine(a)[|AfterLine(a)| - 1] == '\n'
  {
    FirstLineJoin(a, b);
    hide FirstLine, AfterLine;
  }

  lemma {:induction false} LinesJoin(a: string, b: string)
    requires a == "" || a[|a| - 1] == '\n'
    ensures Lines(a + b) == Lines(a) + Lines(b)
    decreases |a|
  {
    if a == "" {
      assert a + b == b && [] + Lines(b) == Lines(b);
    } else {
      hide Lines, FirstLine, AfterLine;
      LinesStep(a, b);
      LinesJoin(AfterLine(a), b);
      Regrouped([FirstLine(a)], Lines(AfterLine(a)), Lines(b));
    }
  }

  /** Reading is piecewise, wherever a stream is cut after a newline. */
  lemma ParseJoin(extract: string -> string, a: string, b: string)
    requires a == "" || a[|a| - 1] == '\n'
    ensures Parsed(extract, a + b) == Parsed(extract, a) + Parsed(extract, b)
  {
    LinesJoin(a, b);
    LinesContentJoin(extract, Lines(a), Lines(b));
  }

  /** Likewise for its bytes, whether or not they are well-formed UTF-8. */
  lemma ReadJoin(extract: string -> string, a: Utf8.Bytes, b: Utf8.Bytes)
    requires Utf8.EndsLine(a)
    ensures Read(extract, a + b) == Read(extract, a) + Read(extract, b)
  {
    Utf8.LossyJoin(a, b);
    if a != [] { Utf8.LossyEndsLine(a); }
    ParseJoin(extract, Utf8.Lossy(a), Utf8.Lossy(b));
  }

  // ---- Writing -------------------------------------------------------------------------

  function Event(payload: string): string {
    PREFIX + payload + "\n\n"
  }

  function Events(chunks: seq<Json>): string {
    if chunks == [] then "" else Event(Encode(chunks[0])) + Events(chunks[1..])
  }

  function Contents(chunks: seq<Json>): string {
    if chunks == [] then "" else Delta(chunks[0]) + Contents(chunks[1..])
  }

  function Choice(delta: seq<Entry>, finishReason: Json): Json {
    Object([Entry("index", Number("0")), Entry("delta", Object(delta)), Entry("finish_reason", finishReason)])
  }

  function Chunk(id: string, created: string, model: string, delta: seq<Entry>, finishReason: Json): Json {
    Object([Entry("id", String(id)), Entry("object", String("chat.completion.chunk")),
            Entry("created", Number(created)), Entry("model", String(model)),
            Entry("choices", Array([Choice(delta, finishReason)]))])
  }

  function RoleChunk(id: string, created: string, model: string): Json {
    Chunk(id, created, model, [Entry("role", String("assistant"))], Null)
  }

  function ContentChunk(id: string, created: string, model: string, content: string): Json {
    Chunk(id, created, model, [Entry("content", String(content))], Null)
  }

  function StopChunk(id: string, created: string, model: string): Json {
    Chunk(id, created, model, [], String("stop"))
  }

  /** A chunk as it is written: the map type keeps keys in order. */
  function Wire(chunk: Json): string {
    Event(CanonicalText(chunk))
  }

  function SseText(id: string, created: string, model: string, content: string): string {
    Wire(RoleChunk(id, created, model)) + Wire(ContentChunk(id, created, model, content))
    + Wire(StopChunk(id, created, model)) + Event("[DONE]")
  }

  function SynthesizeSse(id: string, created: string, model: string, content: string): Utf8.Bytes {
    Utf8.Encode(SseText(id, created, model, content))
  }

  // ---- Compact JSON is one line --------------------------------------------------------

  predicate OneLine(text: string) {
    '\n' !in text
  }

  lemma {:induction false} EscapedIsOneLine(s: string)
    ensures OneLine(Escape(s))
  {
    if s != "" {
      EscapedIsOneLine(s[1..]);
    }
  }

  lemma {:induction false} EncodedIsOneLine(j: Json)
    requires WellFormed(j)
    ensures OneLine(Encode(j))
    decreases j
  {
    match j {
      case String(chars) => EscapedIsOneLine(chars);
      case Number(text) => NumberChars(text);
      case Array(items) => ItemsAreOneLine(items, true);
      case Object(entries) => EntriesAreOneLine(entries, true);
      case _ =>
    }
  }

  lemma {:induction false} ItemsAreOneLine(items: seq<Json>, first: bool)
    requires forall i :: 0 <= i < |items| ==> WellFormed(items[i])
    ensures OneLine(EncodeItems(items, first))
    decreases items
  {
    if items != [] {
      EncodedIsOneLine(items[0]);
      ItemsAreOneLine(items[1..], false);
    }
  }

  lemma {:induction false} EntriesAreOneLine(entries: seq<Entry>, first: bool)
    requires forall i :: 0 <= i < |entries| ==> WellFormed(entries[i].value)
    ensures OneLine(EncodeEntries(entries, first))
    decreases entries
  {
    if entries != [] {
      EscapedIsOneLine(entries[0].key);
      EncodedIsOneLine(entries[0].value);
      EntriesAreOneLine(entries[1..], false);
    }
  }

  // ---- What a chunk says depends on its value only -------------------------------------

  lemma {:induction false} FieldOfIs(entries: seq<Entry>, key: string)
    ensures key !in Keys(entries) ==> FieldOf(entries, key) == Null
    ensures key in Keys(entries) ==> Entry(key, FieldOf(entries, key)) in entries
  {
    if entries != [] {
      FieldOfIs(entries[1..], key);
      assert Keys(entries) == [entries[0].key] + Keys(entries[1..]);
    }
  }

  lemma FieldDenotes(a: Json, b: Json, key: string)
    requires WellFormed(a) && WellFormed(b) && Denote(a) == Denote(b)
    ensures WellFormed(Field(a, key)) && WellFormed(Field(b, key)) && Denote(Field(a, key)) == Denote(Field(b, key))
  {
    assert a.Object? <==> b.Object?;
    if a.Object? {
      FieldsOf(a.entries);
      FieldsOf(b.entries);
      FieldOfIs(a.entries, key);
      FieldOfIs(b.entries, key);
      assert Fields(a.entries) == Fields(b.entries);
    }
  }

  lemma FirstDenotes(a: Json, b: Json)
    requires WellFormed(a) && WellFormed(b) && Denote(a) == Denote(b)
    ensures WellFormed(First(a)) && WellFormed(First(b)) && Denote(First(a)) == Denote(First(b))
  {
    assert a.Array? <==> b.Array?;
    if a.Array? {
      assert |Denote(a).items| == |a.items| && |Denote(b).items| == |b.items|;
      if a.items != [] {
        assert Denote(a).items[0] == Denote(a.items[0]) && Denote(b).items[0] == Denote(b.items[0]);
      }
    }
  }

  lemma DeltaDependsOnValue(a: Json, b: Json)
    requires WellFormed(a) && WellFormed(b) && Denote(a) == Denote(b)
    ensures Delta(a) == Delta(b)
  {
    hide Field, First;
    FieldDenotes(a, b, "choices");
    var a1, b1 := Field(a, "choices"), Field(b, "choices");
    FirstDenotes(a1, b1);
    FieldDenotes(First(a1), First(b1), "delta");
    var a2, b2 := Field(First(a1), "delta"), Field(First(b1), "delta");
    FieldDenotes(a2, b2, "content");
    TextDenotes(Field(a2, "content"), Field(b2, "content"));
  }

  lemma TextDenotes(a: Json, b: Json)
    requires WellFormed(a) && WellFormed(b) && Denote(a) == Denote(b)
    ensures Text(a) == Text(b)
  {
    assert a.String? <==> b.String?;
  }

  // ---- Round trip ----------------------------------------------------------------------

  /** Given the text of the document, the reader returns one of the same value. */
  ghost predicate Recovers(decode: Decoder, j: Json)
    requires WellFormed(j)
  {
    var r := decode(Encode(j));
    r.Some? && WellFormed(r.value) && Denote(r.value) == Denote(j)
  }

  /** An event whose payload is one line is read as that payload. */
  lemma EventIsRead(extract: string -> string, payload: string)
    requires OneLine(payload) && (payload == "" || payload[|payload| - 1] != '\r')
    ensures Parsed(extract, Event(payload)) == extract(payload)
  {
    var line := PREFIX + payload;
    var text := Event(payload);
    assert text == line + "\n\n" && OneLine(line);
    LineEndIs(line, "\n\n");
    assert text[..|line|] == line && text[|line| + 1..] == "\n";
    assert FirstLine(text) == line && AfterLine(text) == "\n";
    assert FirstLine("\n") == "" && AfterLine("\n") == "";
    assert Lines(text) == [line] + ([""] + Lines(""));
    assert Lines(text) == [line, ""];
    assert line[|PREFIX|..] == payload;
    assert [line, ""][1..] == [""] && [""][1..] == [];
    assert LinesContent(extract, [""]) == "";
  }

  lemma {:induction false} LineEndIs(line: string, rest: string)
    requires OneLine(line) && rest != "" && rest[0] == '\n'
    ensures LineEnd(line + rest) == |line|
  {
    if line == "" {
      assert line + rest == rest;
    } else {
      assert (line + rest)[1..] == line[1..] + rest;
      LineEndIs(line[1..], rest);
    }
  }

  lemma ChunkIsRead(decode: Decoder, chunk: Json)
    requires WellFormed(chunk) && chunk.Object? && Recovers(decode, chunk)
    ensures Parsed(OpenAiPayload(decode), Event(Encode(chunk))) == Delta(chunk)
  {
    EncodedIsOneLine(chunk);
    var payload := Encode(chunk);
    assert payload[0] == '{' && payload[|payload| - 1] == '}';
    EventIsRead(OpenAiPayload(decode), payload);
    DeltaDependsOnValue(decode(payload).value, chunk);
  }

  /** Any list of chunks, whatever the order of their keys, is read back as its contents. */
  lemma {:induction false} ChunksAreRead(decode: Decoder, chunks: seq<Json>)
    requires forall i :: 0 <= i < |chunks| ==> WellFormed(chunks[i]) && chunks[i].Object? && Recovers(decode, chunks[i])
    ensures Parsed(OpenAiPayload(decode), Events(chunks)) == Contents(chunks)
  {
    if chunks != [] {
      ChunkIsRead(decode, chunks[0]);
      ChunksAreRead(decode, chunks[1..]);
      ParseJoin(OpenAiPayload(decode), Event(Encode(chunks[0])), Events(chunks[1..]));
    }
  }

  lemma ZeroIsNumber()
    ensures WellFormed(Number("0"))
  {
    assert "0"[..1] == "0" && IsInteger("0"[..1]) && "0"[1..1] == "" && "0"[1..] == "";
    assert IsFraction("0"[1..1]) && IsExponent("0"[1..]);
  }

  lemma ChunkIsWellFormed(id: string, created: string, model: string, delta: seq<Entry>, finishReason: Json)
    requires WellFormed(Number(created)) && WellFormed(Object(delta)) && WellFormed(finishReason)
    ensures WellFormed(Chunk(id, created, model, delta, finishReason))
  {
    ChoiceIsWellFormed(delta, finishReason);
    hide IsNumber;
    assert |"id"| == 2 && |"object"| == 6 && |"created"| == 7 && |"model"| == 5 && |"choices"| == 7;
    assert "created"[1] == 'r' && "choices"[1] == 'h';
    assert WellFormed(Array([Choice(delta, finishReason)]));
  }

  lemma ChoiceIsWellFormed(delta: seq<Entry>, finishReason: Json)
    requires WellFormed(Object(delta)) && WellFormed(finishReason)
    ensures WellFormed(Choice(delta, finishReason))
  {
    ZeroIsNumber();
    hide IsNumber;
    assert |"index"| == 5 && |"delta"| == 5 && |"finish_reason"| == 13 && "index"[0] == 'i' && "delta"[0] == 'd';
  }

  lemma ChunkDelta(id: string, created: string, model: string, delta: seq<Entry>, finishReason: Json)
    ensures Delta(Chunk(id, created, model, delta, finishReason)) == Text(FieldOf(delta, "content"))
  {
    var chunk := Chunk(id, created, model, delta, finishReason);
    assert |"id"| == 2 && |"object"| == 6 && |"created"| == 7 && |"model"| == 5 && |"choices"| == 7;
    assert "created"[1] == 'r' && "choices"[1] == 'h';
    var es := chunk.entries;
    assert FieldOf(es, "choices") == FieldOf(es[1..], "choices") == FieldOf(es[1..][1..], "choices")
        == FieldOf(es[1..][1..][1..], "choices") == FieldOf(es[1..][1..][1..][1..], "choices");
    assert es[1..][1..][1..][1..] == [es[4]];
    assert |"index"| == 5 && |"delta"| == 5 && "index"[0] == 'i' && "delta"[0] == 'd';
    var choice := es[4].value.items[0].entries;
    assert FieldOf(choice, "delta") == FieldOf(choice[1..], "delta");
  }

  /** A chunk on the wire is read as what it says, if the reader recovers its value. */
  lemma WireIsRead(decode: Decoder, chunk: Json)
    requires WellFormed(chunk) && chunk.Object? && WellFormed(Canon(chunk)) && Recovers(decode, Canon(chunk))
    ensures Parsed(OpenAiPayload(decode), Wire(chunk)) == Delta(chunk)
  {
    CanonDenotes(chunk);
    ChunkIsRead(decode, Canon(chunk));
    DeltaDependsOnValue(Canon(chunk), chunk);
  }

  lemma SynthesizedChunk(id: string, created: string, model: string, delta: seq<Entry>, finishReason: Json)
    requires WellFormed(Number(created)) && WellFormed(Object(delta)) && WellFormed(finishReason)
    ensures var chunk := Chunk(id, created, model, delta, finishReason);
      WellFormed(chunk) && WellFormed(Canon(chunk)) && Delta(chunk) == Text(FieldOf(delta, "content"))
  {
    ChunkIsWellFormed(id, created, model, delta, finishReason);
    ChunkDelta(id, created, model, delta, finishReason);
    CanonIsSorted(Chunk(id, created, model, delta, finishReason));
  }

  /** The three chunks are documents; only the second has content. */
  lemma SynthesizedChunks(id: string, created: string, model: string, content: string)
    requires WellFormed(Number(created))
    ensures WellFormed(RoleChunk(id, created, model)) && WellFormed(Canon(RoleChunk(id, created, model)))
    ensures WellFormed(ContentChunk(id, created, model, content)) &&
        WellFormed(Canon(ContentChunk(id, created, model, content)))
    ensures WellFormed(StopChunk(id, created, model)) && WellFormed(Canon(StopChunk(id, created, model)))
    ensures Delta(RoleChunk(id, created, model)) == Delta(StopChunk(id, created, model)) == ""
    ensures Delta(ContentChunk(id, created, model, content)) == content
  {
    var role, text := [Entry("role", String("assistant"))], [Entry("content", String(content))];
    assert |"role"| == 4 && |"content"| == 7 && role[1..] == [] && FieldOf(role, "content") == Null;
    SynthesizedChunk(id, created, model, role, Null);
    SynthesizedChunk(id, created, model, text, Null);
    SynthesizedChunk(id, created, model, [], String("stop"));
  }

  lemma FourEvents(extract: string -> string, a: string, b: string, c: string, d: string)
    ensures Parsed(extract, Event(a) + Event(b) + Event(c) + Event(d))
         == Parsed(extract, Event(a)) + Parsed(extract, Event(b)) + Parsed(extract, Event(c))
           + Parsed(extract, Event(d))
  {
    ParseJoin(extract, Event(a), Event(b));
    ParseJoin(extract, Event(a) + Event(b), Event(c));
    ParseJoin(extract, Event(a) + Event(b) + Event(c), Event(d));
  }

  lemma DoneIsRead(decode: Decoder)
    ensures Parsed(OpenAiPayload(decode), Event("[DONE]")) == ""
  {
    EventIsRead(OpenAiPayload(decode), "[DONE]");
  }

  lemma SseTextIsRead(decode: Decoder, id: string, created: string, model: string, content: string)
    requires WellFormed(Number(created))
    requires forall c :: c in SynthesizedDocuments(id, created, model, content) ==> WellFormed(c) && Recovers(decode, c)
    ensures Parsed(OpenAiPayload(decode), SseText(id, created, model, content)) == content
  {
    SynthesizedChunks(id, created, model, content);
    WireIsRead(decode, RoleChunk(id, created, model));
    WireIsRead(decode, ContentChunk(id, created, model, content));
    WireIsRead(decode, StopChunk(id, created, model));
    DoneIsRead(decode);
    hide CanonicalText, RoleChunk, ContentChunk, StopChunk, Parsed, Event, WellFormed, Recovers, OpenAiPayload, Delta;
    FourEvents(OpenAiPayload(decode), CanonicalText(RoleChunk(id, created, model)),
               CanonicalText(ContentChunk(id, created, model, content)), CanonicalText(StopChunk(id, created, model)),
               "[DONE]");
    assert "" + content + "" + "" == content;
  }

  /** The documents whose text is emitted. */
  function SynthesizedDocuments(id: string, created: string, model: string, content: string): set<Json> {
    {Canon(RoleChunk(id, created, model)), Canon(ContentChunk(id, created, model, content)),
      Canon(StopChunk(id, created, model))}
  }

  /** Whatever the content, the bytes synthesized are read back as it, by every reader that recovers
      the values of the three documents in them. */
  lemma SynthesizedIsRead(decode: Decoder, id: string, created: string, model: string, content: string)
    requires WellFormed(Number(created))
    requires forall c :: c in SynthesizedDocuments(id, created, model, content) ==> WellFormed(c) && Recovers(decode, c)
    ensures Read(OpenAiPayload(decode), SynthesizeSse(id, created, model, content)) == content
  {
    SseTextIsRead(decode, id, created, model, content);
    Utf8.ReadsBack(SseText(id, created, model, content));
  }

  // ---- Such a reader -------------------------------------------------------------------

  /** A strict reader with sorted maps: the document of the text, its keys put in order, and nothing
      for any other text. */
  ghost function ReadSorted(text: string): Option<Json> {
    if exists j :: WellFormed(j) && Encode(j) == text then
      var j :| WellFormed(j) && Encode(j) == text; Some(Canon(j))
    else None
  }

  /** It recovers every document from its text, because compact text can be read in one way only,
      and always with sorted keys. */
  lemma SortingReaderRecovers(j: Json)
    requires WellFormed(j)
    ensures Recovers(text => ReadSorted(text), j) && ReadSorted(Encode(j)) == Some(Canon(j))
  {
    var text := Encode(j);
    var k :| WellFormed(k) && Encode(k) == text && ReadSorted(text) == Some(Canon(k));
    assert Encode(k) + "" == Encode(j) + "";
    IsReadable(k, "", j, "");
    CanonDenotes(j);
  }

  lemma SortingReaderSorts(text: string)
    requires ReadSorted(text).Some?
    ensures WellFormed(ReadSorted(text).value) && DeepSorted(ReadSorted(text).value)
  {
    var k :| WellFormed(k) && Encode(k) == text && ReadSorted(text) == Some(Canon(k));
    CanonIsSorted(k);
  }

  /** Of the texts made of the characters of numbers it takes those that RFC 8259 takes, and reads them
      as themselves. */
  lemma SortingReaderIsStrict(text: string)
    requires forall c :: c in text ==> NumberChar(c)
    ensures ReadSorted(text) == if IsNumber(text) then Some(Number(text)) else None
  {
    forall j | WellFormed(j) && Encode(j) == text ensures j == Number(text) && IsNumber(text) {
      TextStarts(j, "");
      assert Encode(j) + "" == text;
      assert text[0] in text;
      assert j.Number?;
    }
    if IsNumber(text) {
      assert WellFormed(Number(text)) && Encode(Number(text)) == text;
    }
  }

  /** So with that reader the round trip holds without condition. */
  lemma SortingReaderReadsBack(id: string, created: string, model: string, content: string)
    requires WellFormed(Number(created))
    ensures Read(OpenAiPayload(text => ReadSorted(text)), SynthesizeSse(id, created, model, content)) == content
  {
    var decode: Decoder := text => ReadSorted(text);
    SynthesizedChunks(id, created, model, content);
    forall c | c in SynthesizedDocuments(id, created, model, content) ensures WellFormed(c) && Recovers(decode, c) {
      SortingReaderRecovers(c);
    }
    SynthesizedIsRead(decode, id, created, model, content);
  }

  // ---- The very text -------------------------------------------------------------------

  const CHOICE_KEYS: seq<string> := ["delta", "finish_reason", "index"]
  const CHUNK_KEYS: seq<string> := ["choices", "created", "id", "model", "object"]

  lemma ChunkKeysInOrder()
    ensures Sorted(AtMost, CHOICE_KEYS) && Sorted(AtMost, CHUNK_KEYS)
  {
    hide AtMost, Sorted;
    Precedes("delta", "finish_reason", 0);
    Precedes("finish_reason", "index", 0);
    assert "choices"[..1] == "c" == "created"[..1];
    Precedes("choices", "created", 1);
    Precedes("created", "id", 0);
    Precedes("id", "model", 0);
    Precedes("model", "object", 0);
    StringsAreOrdered();
    SortedByNeighbours(AtMost, CHOICE_KEYS);
    SortedByNeighbours(AtMost, CHUNK_KEYS);
  }

  function SortedChoice(delta: seq<Entry>, finishReason: Json): seq<Entry> {
    [Entry("delta", Object(delta)), Entry("finish_reason", finishReason), Entry("index", Number("0"))]
  }

  function SortedChunk(id: string, created: string, model: string, delta: seq<Entry>, finishReason: Json): seq<Entry> {
    [Entry("choices", Array([Object(SortedChoice(delta, finishReason))])), Entry("created", Number(created)),
     Entry("id", String(id)), Entry("model", String(model)), Entry("object", String("chat.completion.chunk"))]
  }

  /** At most one entry, its value and the finish reason being strings or null. */
  predicate IsSimple(delta: seq<Entry>, finishReason: Json) {
    |delta| <= 1 && (forall e :: e in delta ==> e.value.String?) && (finishReason.String? || finishReason.Null?)
  }

  lemma SimpleIsCanonical(delta: seq<Entry>, finishReason: Json)
    requires IsSimple(delta, finishReason)
    ensures Canon(Object(delta)) == Object(delta) && Canon(finishReason) == finishReason
  {
    assert CanonValues(delta) == delta;
    CanonObjectIs(delta, delta);
  }

  lemma ChoiceIsSorted(delta: seq<Entry>, finishReason: Json)
    requires IsSimple(delta, finishReason)
    ensures Canon(Choice(delta, finishReason)) == Object(SortedChoice(delta, finishReason))
  {
    var entries, sorted := Choice(delta, finishReason).entries, SortedChoice(delta, finishReason);
    ChunkKeysInOrder();
    SimpleIsCanonical(delta, finishReason);
    ChoiceKeysDiffer(delta, finishReason);
    assert Keys(sorted) == CHOICE_KEYS;
    assert CanonValues(entries) == [sorted[2], sorted[0], sorted[1]];
    hide *;
    CanonObjectIs(entries, sorted);
  }

  lemma ChoiceKeysDiffer(delta: seq<Entry>, finishReason: Json)
    ensures DistinctKeys(Choice(delta, finishReason).entries) && DistinctKeys(SortedChoice(delta, finishReason))
  {
    assert |"index"| == 5 && |"delta"| == 5 && |"finish_reason"| == 13 && "index"[0] == 'i' && "delta"[0] == 'd';
  }

  lemma ChunkKeysDiffer(id: string, created: string, model: string, delta: seq<Entry>, finishReason: Json)
    ensures DistinctKeys(Chunk(id, created, model, delta, finishReason).entries)
    ensures DistinctKeys(SortedChunk(id, created, model, delta, finishReason))
  {
    assert |"id"| == 2 && |"object"| == 6 && |"created"| == 7 && |"model"| == 5 && |"choices"| == 7;
    assert "created"[1] == 'r' && "choices"[1] == 'h';
  }

  lemma ChunkIsSorted(id: string, created: string, model: string, delta: seq<Entry>, finishReason: Json)
    requires IsSimple(delta, finishReason)
    ensures Canon(Chunk(id, created, model, delta, finishReason))
         == Object(SortedChunk(id, created, model, delta, finishReason))
  {
    var entries := Chunk(id, created, model, delta, finishReason).entries;
    var sorted := SortedChunk(id, created, model, delta, finishReason);
    ChunkKeysInOrder();
    ChoiceIsSorted(delta, finishReason);
    ChunkKeysDiffer(id, created, model, delta, finishReason);
    assert Keys(sorted) == CHUNK_KEYS;
    assert Canon(Array([Choice(delta, finishReason)])).items == [Canon(Choice(delta, finishReason))];
    assert CanonValues(entries) == [sorted[2], sorted[4], sorted[1], sorted[3], sorted[0]];
    hide *;
    CanonObjectIs(entries, sorted);
  }

  function ChoiceText(delta: string, finish: string): string {
    "{" + Join(",", [
      Quote("delta") + ":" + delta, Quote("finish_reason") + ":" + finish, Quote("index") + ":" + "0"]) + "}"
  }

  /** The text of a chunk that says `delta` and ends for `finish`, both texts themselves. */
  function ChunkText(id: string, created: string, model: string, delta: string, finish: string): string {
    "{" + Join(",", [
      Quote("choices") + ":" + ("[" + ChoiceText(delta, finish) + "]"),
      Quote("created") + ":" + created,
      Quote("id") + ":" + Quote(id),
      Quote("model") + ":" + Quote(model),
      Quote("object") + ":" + Quote("chat.completion.chunk")]) + "}"
  }

  lemma ChoiceIsText(delta: seq<Entry>, finishReason: Json)
    ensures Encode(Object(SortedChoice(delta, finishReason)))
         == ChoiceText(Encode(Object(delta)), Encode(finishReason))
  {
    var choice := SortedChoice(delta, finishReason);
    TextIs(Object(choice));
    TextIs(Number("0"));
    hide Encode, Quote, Join;
    assert MemberTexts(choice) == [
      Quote("delta") + ":" + Encode(Object(delta)), Quote("finish_reason") + ":" + Encode(finishReason),
      Quote("index") + ":" + "0"];
  }

  lemma OneItemText(j: Json)
    ensures Encode(Array([j])) == "[" + Encode(j) + "]"
  {
    TextIs(Array([j]));
    hide Encode;
    assert ItemTexts([j]) == [Encode(j)];
    assert Join(",", [Encode(j)]) == Encode(j);
  }

  function EventText(payload: string): string {
    "data: " + payload + "\n\n"
  }

  lemma SortedChunkText(id: string, created: string, model: string, delta: seq<Entry>, finishReason: Json)
    ensures Encode(Object(SortedChunk(id, created, model, delta, finishReason)))
         == ChunkText(id, created, model, Encode(Object(delta)), Encode(finishReason))
  {
    var chunk := SortedChunk(id, created, model, delta, finishReason);
    var choice, kind := Object(SortedChoice(delta, finishReason)), "chat.completion.chunk";
    ChoiceIsText(delta, finishReason);
    OneItemText(choice);
    TextIs(Object(chunk));
    TextIs(Number(created));
    TextIs(String(id));
    TextIs(String(model));
    TextIs(String(kind));
    hide Encode, Quote, Join, ChoiceText, SortedChoice;
    var texts := MemberTexts(chunk);
    assert texts[0] == Quote("choices") + ":" + ("[" + Encode(choice) + "]");
    assert texts[1] == Quote("created") + ":" + created;
    assert texts[2] == Quote("id") + ":" + Quote(id);
    assert texts[3] == Quote("model") + ":" + Quote(model);
    assert texts[4] == Quote("object") + ":" + Quote(kind);
    hide MemberTexts;
    assert texts == [texts[0], texts[1], texts[2], texts[3], texts[4]];
  }

  lemma ChunkIsText(id: string, created: string, model: string, delta: seq<Entry>, finishReason: Json)
    requires IsSimple(delta, finishReason)
    ensures Wire(Chunk(id, created, model, delta, finishReason))
         == EventText(ChunkText(id, created, model, Encode(Object(delta)), Encode(finishReason)))
  {
    ChunkIsSorted(id, created, model, delta, finishReason);
    SortedChunkText(id, created, model, delta, finishReason);
    hide Encode, Canon, ChunkText, Chunk, SortedChunk;
  }

  lemma MemberIsText(key: string, value: string)
    ensures Encode(Object([Entry(key, String(value))])) == "{" + (Quote(key) + ":" + Quote(value)) + "}"
  {
    TextIs(Object([Entry(key, String(value))]));
    TextIs(String(value));
    hide Encode, Quote;
    assert MemberTexts([Entry(key, String(value))]) == [Quote(key) + ":" + Quote(value)];
  }

  lemma NoMemberText()
    ensures Encode(Object([])) == "{}"
  {
  }

  lemma RoleText(id: string, created: string, model: string)
    ensures Wire(RoleChunk(id, created, model))
         == EventText(ChunkText(id, created, model, "{" + (Quote("role") + ":" + Quote("assistant")) + "}", "null"))
  {
    ChunkIsText(id, created, model, [Entry("role", String("assistant"))], Null);
    MemberIsText("role", "assistant");
    TextIs(Null);
    hide Encode, Quote, ChunkText, Chunk, Wire, EventText;
  }

  lemma ContentText(id: string, created: string, model: string, content: string)
    ensures Wire(ContentChunk(id, created, model, content))
         == EventText(ChunkText(id, created, model, "{" + (Quote("content") + ":" + Quote(content)) + "}", "null"))
  {
    ChunkIsText(id, created, model, [Entry("content", String(content))], Null);
    MemberIsText("content", content);
    TextIs(Null);
    hide Encode, Quote, ChunkText, Chunk, Wire, EventText;
  }

  lemma StopText(id: string, created: string, model: string)
    ensures Wire(StopChunk(id, created, model)) == EventText(ChunkText(id, created, model, "{}", Quote("stop")))
  {
    ChunkIsText(id, created, model, [], String("stop"));
    NoMemberText();
    TextIs(String("stop"));
    hide Encode, Quote, ChunkText, Chunk, Wire, EventText;
  }

  /** What is sent, character by character: a chunk that opens the assistant's turn, one with the whole
      content, one that stops, and the end mark. */
  lemma SynthesizedText(id: string, created: string, model: string, content: string)
    ensures SynthesizeSse(id, created, model, content) == Utf8.Encode(
      EventText(ChunkText(id, created, model, "{" + (Quote("role") + ":" + Quote("assistant")) + "}", "null"))
      + EventText(ChunkText(id, created, model, "{" + (Quote("content") + ":" + Quote(content)) + "}", "null"))
      + EventText(ChunkText(id, created, model, "{}", Quote("stop")))
      + EventText("[DONE]"))
  {
    assert Event("[DONE]") == EventText("[DONE]");
    assert SynthesizeSse(id, created, model, content) == Utf8.Encode(
      Wire(RoleChunk(id, created, model)) + Wire(ContentChunk(id, created, model, content))
      + Wire(StopChunk(id, created, model)) + Event("[DONE]"));
    hide *;
    RoleText(id, created, model);
    ContentText(id, created, model, content);
    StopText(id, created, model);
  }

  // ---- What readers look for -----------------------------------------------------------

  lemma {:induction false} FieldFound(entries: seq<Entry>, key: string, value: Json)
    requires DistinctKeys(entries) && Entry(key, value) in entries
    ensures FieldOf(entries, key) == value
  {
    var i :| 0 <= i < |entries| && entries[i] == Entry(key, value);
    if i > 0 {
      assert entries[0].key != entries[i].key && entries[1..][i - 1] == entries[i];
      FieldFound(entries[1..], key, value);
    }
  }

  lemma {:induction false} FieldIsEntry(entries: seq<Entry>, key: string)
    ensures FieldOf(entries, key) == Null || Entry(key, FieldOf(entries, key)) in entries
  {
    if entries != [] && entries[0].key != key { FieldIsEntry(entries[1..], key); }
  }

  /** The value under a key, if there is an entry for it; in a well-formed object there is at most one. */
  ghost predicate Has(j: Json, key: string, value: Json) {
    j.Object? && Entry(key, value) in j.entries
  }

  lemma FieldIff(j: Json, key: string, value: Json)
    requires WellFormed(j) && value != Null
    ensures Field(j, key) == value <==> Has(j, key, value)
    ensures Has(j, key, value) ==> WellFormed(value)
  {
    if j.Object? {
      FieldIsEntry(j.entries, key);
      if Has(j, key, value) { FieldFound(j.entries, key, value); }
    }
  }

  /** The content of a chunk is the string under `content` in the object under `delta` in the first of
      the array under `choices`, and nothing else. */
  lemma DeltaIff(chunk: Json, s: string)
    requires WellFormed(chunk) && s != ""
    ensures Delta(chunk) == s <==>
      exists choices, delta :: Has(chunk, "choices", Array(choices)) && choices != []
        && Has(choices[0], "delta", delta) && Has(delta, "content", String(s))
  {
    var found := Field(chunk, "choices");
    if Delta(chunk) == s {
      FieldIff(chunk, "choices", found);
      var delta := Field(First(found), "delta");
      FieldIff(First(found), "delta", delta);
      FieldIff(delta, "content", String(s));
      assert Has(chunk, "choices", Array(found.items)) && Has(found.items[0], "delta", delta);
    }
    forall choices, delta | Has(chunk, "choices", Array(choices)) && choices != []
        && Has(choices[0], "delta", delta) && Has(delta, "content", String(s))
      ensures Delta(chunk) == s
    {
      FieldIff(chunk, "choices", Array(choices));
      FieldIff(choices[0], "delta", delta);
      FieldIff(delta, "content", String(s));
    }
  }

  /** An event of Anthropic's adds the text of a text delta in a content block delta, and no other. */
  lemma TextDeltaIff(event: Json, s: string)
    requires WellFormed(event) && s != ""
    ensures TextDelta(event) == s <==>
      && Has(event, "type", String("content_block_delta"))
      && exists delta :: Has(event, "delta", delta)
           && Has(delta, "type", String("text_delta")) && Has(delta, "text", String(s))
  {
    FieldIff(event, "type", String("content_block_delta"));
    var found := Field(event, "delta");
    assert "text_delta" != "" && "content_block_delta" != "";
    if found.Object? {
      FieldIff(event, "delta", found);
      FieldIff(found, "type", String("text_delta"));
      FieldIff(found, "text", String(s));
    }
    forall delta | Has(event, "delta", delta) ensures delta.Object? ==> delta == found {
      if delta.Object? { FieldIff(event, "delta", delta); }
    }
  }

  /** What a line is read as, its own ending taken off: nothing unless it is a `data: ` line. */
  function LineReads(extract: string -> string, line: string): string {
    if |line| >= 6 && line[..6] == "data: " then extract(line[6..]) else ""
  }

  /** The last line may lack its ending. */
  lemma LastLineIsRead(extract: string -> string, line: string)
    requires OneLine(line)
    ensures Parsed(extract, line) == LineReads(extract, line)
  {
    if line != "" {
      NoLineEnd(line);
      assert FirstLine(line) == line && AfterLine(line) == "";
      assert Lines("") == [] && Lines(line) == [line];
      hide FirstLine, AfterLine, Lines;
      assert [line][1..] == [] && LinesContent(extract, []) == "";
      assert LinesContent(extract, [line]) == LineContent(extract, line) + "";
    }
  }

  lemma {:induction false} NoLineEnd(line: string)
    requires OneLine(line)
    ensures LineEnd(line) == |line|
  {
    if line != "" { NoLineEnd(line[1..]); }
  }

  /** A stream is read line by line; lines end with a newline or a carriage return and a newline. */
  lemma LineIsRead(extract: string -> string, line: string, ending: string, rest: string)
    requires OneLine(line) && (line == "" || line[|line| - 1] != '\r') && ending in {"", "\r"}
    ensures Parsed(extract, line + ending + ("\n" + rest)) == LineReads(extract, line) + Parsed(extract, rest)
  {
    var text := line + ending + ("\n" + rest);
    LineEndIs(line + ending, "\n" + rest);
    assert text[..|line + ending|] == line + ending && text[|line + ending| + 1..] == rest;
    assert Chomp(line + ending) == line;
    assert Lines(text) == [line] + Lines(rest);
    assert ([line] + Lines(rest))[1..] == Lines(rest);
  }

  /** The end mark and what the reader cannot read add nothing. */
  lemma PayloadsAreRead(decode: Decoder, payload: string)
    ensures OpenAiPayload(decode)("[DONE]") == ""
    ensures decode(payload).None? ==> OpenAiPayload(decode)(payload) == AnthropicPayload(decode)(payload) == ""
    ensures decode(payload).Some? ==> AnthropicPayload(decode)(payload) == TextDelta(decode(payload).value)
    ensures decode(payload).Some? && payload != "[DONE]" ==>
      OpenAiPayload(decode)(payload) == Delta(decode(payload).value)
  {
  }
}
