/** The chat stream: records cut at blank lines, whatever the chunks (a subset of section 9.2 of the HTML Standard). */
module EventStream {
  import opened Text
  import opened Evaluation

  // ---------------------------------------------------------------- Records

  /** split("\\n\\n"): leftmost separators, not overlapping. */
  function Records(text: string): (records: seq<string>)
    ensures |records| >= 1
  {
    if |text| < 2 then [text]
    else if text[0] == '\n' && text[1] == '\n' then [""] + Records(text[2..])
    else
      var rest := Records(text[1..]);
      [[text[0]] + rest[0]] + rest[1..]
  }

  function Last(records: seq<string>): string
    requires records != []
  {
    records[|records| - 1]
  }

  /** Prefixing a character to the first of several records touches neither the others nor what grows behind them. */
  lemma HeadGrows(c: char, rest: seq<string>, tail: seq<string>)
    requires |rest| > 1
    ensures var grown := rest[..|rest| - 1] + tail;
            var records := [[c] + rest[0]] + rest[1..];
            && [[c] + grown[0]] + grown[1..] == records[..|records| - 1] + tail
            && Last(records) == Last(rest)
  {
    var grown := rest[..|rest| - 1] + tail;
    assert grown[0] == rest[0] && grown[1..] == rest[1..|rest| - 1] + tail;
    var records := [[c] + rest[0]] + rest[1..];
    assert records[..|records| - 1] == [[c] + rest[0]] + rest[1..|rest| - 1];
  }

  lemma EmptyHeadGrows(rest: seq<string>, tail: seq<string>)
    requires rest != []
    ensures var records := [""] + rest;
            [""] + (rest[..|rest| - 1] + tail) == records[..|records| - 1] + tail && Last(records) == Last(rest)
  {
  }

  /** Cutting a longer text leaves the closed records alone and cuts on from the open one. */
  lemma {:induction false} RecordsGrow(text: string, chunk: string)
    ensures var records := Records(text);
            Records(text + chunk) == records[..|records| - 1] + Records(Last(records) + chunk)
  {
    if |text| >= 2 && text[0] == '\n' && text[1] == '\n' {
      RecordsGrow(text[2..], chunk);
      assert (text + chunk)[2..] == text[2..] + chunk;
      EmptyHeadGrows(Records(text[2..]), Records(Last(Records(text[2..])) + chunk));
    } else if |text| >= 2 && |Records(text[1..])| > 1 {
      RecordsGrow(text[1..], chunk);
      assert (text + chunk)[1..] == text[1..] + chunk && (text + chunk)[0] == text[0] && (text + chunk)[1] == text[1];
      var rest := Records(text[1..]);
      HeadGrows(text[0], rest, Records(Last(rest) + chunk));
    } else {
      WholeRecord(text);
    }
  }

  /** A text that is a single record is that record. */
  lemma {:induction false} WholeRecord(text: string)
    requires |Records(text)| == 1
    ensures Records(text) == [text]
  {
    if |text| >= 2 {
      WholeRecord(text[1..]);
      assert text == [text[0]] + text[1..];
    }
  }

  // ---------------------------------------------------------------- One record

  /** White space as String.prototype.trim removes it. */
  predicate JsSpace(c: char) {
    var n := c as int;
    || 9 <= n <= 13 || n == 0x20 || n == 0xA0 || n == 0x1680 || 0x2000 <= n <= 0x200A
    || n == 0x2028 || n == 0x2029 || n == 0x202F || n == 0x205F || n == 0x3000 || n == 0xFEFF
  }

  function JsTrimStart(s: string): string {
    if s != "" && JsSpace(s[0]) then JsTrimStart(s[1..]) else s
  }

  function JsTrimEnd(s: string): string {
    if s != "" && JsSpace(s[|s| - 1]) then JsTrimEnd(s[..|s| - 1]) else s
  }

  function JsTrim(s: string): string {
    JsTrimEnd(JsTrimStart(s))
  }

  predicate IsDataLine(line: string) {
    |line| >= 5 && line[..5] == "data:"
  }

  /** The first data line. */
  function FirstDataLine(lines: seq<string>): (line: Option<string>)
    ensures line.Some? ==> IsDataLine(line.value)
  {
    if lines == [] then None else if IsDataLine(lines[0]) then Some(lines[0]) else FirstDataLine(lines[1..])
  }

  /** parseSseRecord up to JSON parsing: the trimmed text of the first data line, if there is any. */
  function Payload(record: string): Option<string> {
    match FirstDataLine(Split(record, '\n'))
    case None => None
    case Some(line) => if JsTrim(line[5..]) == "" then None else Some(JsTrim(line[5..]))
  }

  predicate AllSpace(s: string) {
    forall i | 0 <= i < |s| :: JsSpace(s[i])
  }

  /** The text without the white space around it. */
  ghost predicate Trims(s: string, trimmed: string) {
    && (trimmed != "" ==> !JsSpace(trimmed[0]) && !JsSpace(trimmed[|trimmed| - 1]))
    && exists before, after :: s == before + trimmed + after && AllSpace(before) && AllSpace(after)
  }

  lemma {:induction false} TrimStartDrops(s: string)
    ensures |JsTrimStart(s)| <= |s| && s[|s| - |JsTrimStart(s)|..] == JsTrimStart(s) && AllSpace(s[..|s| - |JsTrimStart(s)|])
    ensures JsTrimStart(s) != "" ==> !JsSpace(JsTrimStart(s)[0])
  {
    if s != "" && JsSpace(s[0]) {
      TrimStartDrops(s[1..]);
      var dropped := |s| - |JsTrimStart(s)|;
      assert s[..dropped] == [s[0]] + s[1..][..dropped - 1];
    }
  }

  lemma {:induction false} TrimEndDrops(s: string)
    ensures |JsTrimEnd(s)| <= |s| && s[..|JsTrimEnd(s)|] == JsTrimEnd(s) && AllSpace(s[|JsTrimEnd(s)|..])
    ensures JsTrimEnd(s) != "" ==> !JsSpace(JsTrimEnd(s)[|JsTrimEnd(s)| - 1])
  {
    if s != "" && JsSpace(s[|s| - 1]) {
      var earlier := s[..|s| - 1];
      TrimEndDrops(earlier);
      assert s[|JsTrimEnd(s)|..] == earlier[|JsTrimEnd(s)|..] + [s[|s| - 1]];
    }
  }

  lemma TrimDropsSpace(s: string)
    ensures Trims(s, JsTrim(s))
  {
    TrimStartDrops(s);
    TrimEndDrops(JsTrimStart(s));
    TrimmedParts(s, JsTrimStart(s), JsTrim(s));
  }

  lemma TrimmedParts(s: string, middle: string, trimmed: string)
    requires |middle| <= |s| && s[|s| - |middle|..] == middle && AllSpace(s[..|s| - |middle|])
    requires |trimmed| <= |middle| && middle[..|trimmed|] == trimmed && AllSpace(middle[|trimmed|..])
    requires middle != "" ==> !JsSpace(middle[0])
    requires trimmed != "" ==> !JsSpace(trimmed[|trimmed| - 1])
    ensures Trims(s, trimmed)
  {
    var before, after := s[..|s| - |middle|], middle[|trimmed|..];
    assert s == before + trimmed + after;
    if trimmed != "" {
      assert trimmed[0] == middle[0];
    }
  }

  /** Line i is the first data line. */
  predicate FirstData(lines: seq<string>, i: int) {
    0 <= i < |lines| && IsDataLine(lines[i]) && forall j | 0 <= j < i :: !IsDataLine(lines[j])
  }

  lemma {:induction false} FirstDataLineIsFirst(lines: seq<string>)
    ensures FirstDataLine(lines).None? <==> forall i :: !FirstData(lines, i)
    ensures forall i | FirstData(lines, i) :: FirstDataLine(lines) == Some(lines[i])
  {
    if lines != [] && !IsDataLine(lines[0]) {
      FirstDataLineIsFirst(lines[1..]);
      forall i ensures FirstData(lines, i) <==> FirstData(lines[1..], i - 1) {
        if FirstData(lines[1..], i - 1) {
          forall j | 0 <= j < i ensures !IsDataLine(lines[j]) {
            if j > 0 {
              assert lines[j] == lines[1..][j - 1];
            }
          }
        }
        if FirstData(lines, i) {
          assert i > 0;
          forall j | 0 <= j < i - 1 ensures !IsDataLine(lines[1..][j]) { assert lines[1..][j] == lines[j + 1]; }
        }
      }
      if i :| FirstData(lines, i) {
        assert FirstData(lines[1..], i - 1);
      }
      if i :| FirstData(lines[1..], i) {
        assert FirstData(lines, i + 1);
      }
    } else if lines != [] {
      assert FirstData(lines, 0);
    }
  }

  /** The payload of a record is the text after the mark of its first data line, trimmed, if anything is left of it. */
  lemma PayloadIsTrimmedDataLine(record: string)
    ensures var lines := Split(record, '\n');
            && (Payload(record).Some? ==>
                  Payload(record).value != "" && exists i :: FirstData(lines, i) && Trims(lines[i][5..], Payload(record).value))
            && (Payload(record).None? ==> forall i | FirstData(lines, i) :: AllSpace(lines[i][5..]))
  {
    var lines := Split(record, '\n');
    FirstDataLineIsFirst(lines);
    if i :| FirstData(lines, i) {
      var text := lines[i][5..];
      TrimDropsSpace(text);
      var before, after :| text == before + JsTrim(text) + after && AllSpace(before) && AllSpace(after);
      if JsTrim(text) == "" {
        assert text == before + after;
      }
    }
  }

  // ---------------------------------------------------------------- Delivery

  /** Events of the records in order; parsing None stands for a thrown error, which ends the stream. */
  function Deliver<E>(records: seq<string>, parse: string -> Option<E>): (seq<E>, bool) {
    if records == [] then ([], false)
    else
      var (events, failed) := Deliver(records[..|records| - 1], parse);
      if failed then (events, true)
      else
        match Payload(Last(records))
        case None => (events, false)
        case Some(data) =>
          match parse(data)
          case None => (events, true)
          case Some(event) => (events + [event], false)
  }

  /** The payloads of the records that have one. */
  function Payloads(records: seq<string>): seq<string> {
    if records == [] then []
    else
      var earlier, last := Payloads(records[..|records| - 1]), Payload(Last(records));
      if last.Some? then earlier + [last.value] else earlier
  }

  /** The events delivered are the parsed payloads up to the first one refused, and the delivery fails exactly at a refusal. */
  lemma {:induction false} DeliveryStopsAtRefusal<E>(records: seq<string>, parse: string -> Option<E>)
    ensures var (events, failed) := Deliver(records, parse);
            && |events| <= |Payloads(records)| && (failed <==> |events| < |Payloads(records)|)
            && (forall i | 0 <= i < |events| :: parse(Payloads(records)[i]) == Some(events[i]))
            && (failed ==> parse(Payloads(records)[|events|]).None?)
  {
    if records != [] {
      DeliveryStopsAtRefusal(records[..|records| - 1], parse);
    }
  }

  lemma {:induction false} FailureStays<E>(records: seq<string>, n: nat, parse: string -> Option<E>)
    requires n <= |records| && Deliver(records[..n], parse).1
    ensures Deliver(records, parse) == Deliver(records[..n], parse)
    decreases |records|
  {
    if n < |records| {
      assert records[..|records| - 1][..n] == records[..n];
      FailureStays(records[..|records| - 1], n, parse);
    } else {
      assert records[..n] == records;
    }
  }

  function Concat(chunks: seq<string>): string {
    if chunks == [] then "" else Concat(chunks[..|chunks| - 1]) + chunks[|chunks| - 1]
  }

  /** Delivers one batch of closed records after those already delivered. */
  method DeliverBatch<E>(ghost closed: seq<string>, events: seq<E>, batch: seq<string>, parse: string -> Option<E>)
    returns (delivered: seq<E>, failed: bool)
    requires Deliver(closed, parse) == (events, false)
    ensures !failed ==> Deliver(closed + batch, parse) == (delivered, false)
    ensures failed ==> exists n :: 0 <= n <= |batch| && Deliver(closed + batch[..n], parse) == (delivered, true)
  {
    delivered := events;
    assert closed + batch[..0] == closed;
    for index := 0 to |batch|
      invariant Deliver(closed + batch[..index], parse) == (delivered, false)
    {
      ghost var longer := closed + batch[..index + 1];
      assert longer[..|longer| - 1] == closed + batch[..index] && Last(longer) == batch[index];
      var payload := Payload(batch[index]);
      if payload.Some? {
        var event := parse(payload.value);
        if event.None? {
          assert Deliver(closed + batch[..index + 1], parse) == (delivered, true);
          return delivered, true;
        }
        delivered := delivered + [event.value];
      }
    }
    assert batch[..|batch|] == batch;
    failed := false;
  }

  /**
   The read loop: the last chunk is what the text decoder flushes at the end. However the text is
   cut, the events are those of the records of the whole text.
   */
  method StreamQuestion<E>(chunks: seq<string>, parse: string -> Option<E>) returns (events: seq<E>, failed: bool)
    ensures (events, failed) == Deliver(Records(Concat(chunks)), parse)
  {
    var buffer := "";
    events := [];
    ghost var closed: seq<string> := [];
    for index := 0 to |chunks|
      invariant Records(Concat(chunks[..index])) == closed + [buffer]
      invariant Deliver(closed, parse) == (events, false)
    {
      var records := Records(buffer + chunks[index]);
      var batch := records[..|records| - 1];
      ChunkCut(chunks, index, closed, buffer);
      var delivered, broken := DeliverBatch(closed, events, batch, parse);
      if broken {
        ghost var n :| 0 <= n <= |batch| && Deliver(closed + batch[..n], parse) == (delivered, true);
        BrokenPrefix(chunks, index + 1, closed + batch, Last(records), closed + batch[..n], parse);
        return delivered, true;
      }
      events := delivered;
      closed := closed + batch;
      buffer := Last(records);
    }
    assert chunks[..|chunks|] == chunks;
    ghost var all := closed + [buffer];
    assert all[..|all| - 1] == closed && Last(all) == buffer;
    var payload := Payload(buffer);
    if payload.Some? {
      var event := parse(payload.value);
      if event.None? {
        return events, true;
      }
      events := events + [event.value];
    }
    failed := false;
  }

  lemma LastApart(closed: seq<string>, records: seq<string>)
    requires records != []
    ensures closed + records == (closed + records[..|records| - 1]) + [Last(records)]
  {
  }

  /** More text closes some records after those already closed and leaves the last one open. */
  lemma TextCut(text: string, chunk: string, closed: seq<string>, buffer: string)
    requires Records(text) == closed + [buffer]
    ensures var records := Records(buffer + chunk);
            Records(text + chunk) == (closed + records[..|records| - 1]) + [Last(records)]
  {
    RecordsGrow(text, chunk);
    assert Records(text)[..|Records(text)| - 1] == closed && Last(Records(text)) == buffer;
    LastApart(closed, Records(buffer + chunk));
  }

  /** What one more chunk closes, and what it leaves open. */
  lemma ChunkCut(chunks: seq<string>, n: nat, closed: seq<string>, buffer: string)
    requires n < |chunks| && Records(Concat(chunks[..n])) == closed + [buffer]
    ensures var records := Records(buffer + chunks[n]);
            Records(Concat(chunks[..n + 1])) == (closed + records[..|records| - 1]) + [Last(records)]
  {
    TextCut(Concat(chunks[..n]), chunks[n], closed, buffer);
    assert chunks[..n + 1][..n] == chunks[..n];
  }

  lemma {:induction false} ConcatSplit(chunks: seq<string>, n: nat)
    requires n <= |chunks|
    ensures exists rest :: Concat(chunks) == Concat(chunks[..n]) + rest
    decreases |chunks|
  {
    if n == |chunks| {
      assert chunks[..n] == chunks && Concat(chunks) == Concat(chunks[..n]) + "";
    } else {
      var earlier := chunks[..|chunks| - 1];
      assert earlier[..n] == chunks[..n];
      ConcatSplit(earlier, n);
      var rest :| Concat(earlier) == Concat(chunks[..n]) + rest;
      assert Concat(chunks) == Concat(chunks[..n]) + (rest + chunks[|chunks| - 1]);
    }
  }

  /** A failure among the closed records of a prefix is the failure of the whole text. */
  lemma BrokenPrefix<E>(chunks: seq<string>, n: nat, closed: seq<string>, open: string, broken: seq<string>, parse: string -> Option<E>)
    requires n <= |chunks| && Records(Concat(chunks[..n])) == closed + [open]
    requires broken <= closed && Deliver(broken, parse).1
    ensures Deliver(Records(Concat(chunks)), parse) == Deliver(broken, parse)
  {
    ConcatSplit(chunks, n);
    var rest :| Concat(chunks) == Concat(chunks[..n]) + rest;
    RecordsGrow(Concat(chunks[..n]), rest);
    assert (closed + [open])[..|closed|] == closed;
    var records := Records(Concat(chunks));
    assert records[..|broken|] == broken;
    FailureStays(records, |broken|, parse);
  }

  // ---------------------------------------------------------------- Written events come back

  /** One event as the server writes it. */
  datatype Written = Written(name: string, payload: string)

  /** Event names and payloads hold no line break; a payload neither starts nor ends with white space. */
  predicate WellWritten(e: Written) {
    && '\n' !in e.name && '\n' !in e.payload && e.payload != ""
    && !JsSpace(e.payload[0]) && !JsSpace(e.payload[|e.payload| - 1])
  }

  function Body(e: Written): string {
    Join(["event: " + e.name, "data: " + e.payload], '\n')
  }

  function WriteAll(events: seq<Written>): string {
    if events == [] then "" else Body(events[0]) + ("\n\n" + WriteAll(events[1..]))
  }

  /** No blank line inside, no line break at the end. */
  predicate OneRecord(s: string) {
    s != "" && s[|s| - 1] != '\n' && forall i | 0 <= i < |s| - 1 :: s[i] != '\n' || s[i + 1] != '\n'
  }

  lemma {:induction false} RecordsCut(body: string, rest: string)
    requires body == "" || OneRecord(body)
    ensures Records(body + ("\n\n" + rest)) == [body] + Records(rest)
  {
    var text := body + ("\n\n" + rest);
    if body == "" {
      assert text == "\n\n" + rest && text[2..] == rest;
    } else {
      assert text[0] == body[0] && (|body| > 1 ==> text[1] == body[1]);
      assert text[1..] == body[1..] + ("\n\n" + rest);
      RecordsCut(body[1..], rest);
      assert [body[0]] + body[1..] == body;
    }
  }

  lemma BodyIsOneRecord(e: Written)
    requires WellWritten(e)
    ensures Body(e) == ("event: " + e.name) + ['\n'] + ("data: " + e.payload)
    ensures OneRecord(Body(e))
  {
    var first, second := "event: " + e.name, "data: " + e.payload;
    assert [first, second][1..] == [second] && Join([second], '\n') == second;
    assert '\n' !in first && '\n' !in second;
    var body := first + ['\n'] + second;
    assert body[|body| - 1] == second[|second| - 1];
    forall i | 0 <= i < |body| - 1 ensures body[i] != '\n' || body[i + 1] != '\n' {
      if i < |first| {
        assert body[i] == first[i];
      } else {
        assert body[i + 1] == second[i - |first|];
      }
    }
  }

  lemma PayloadComesBack(e: Written)
    requires WellWritten(e)
    ensures Payload(Body(e)) == Some(e.payload)
  {
    var first, second := "event: " + e.name, "data: " + e.payload;
    SplitJoin([first, second], '\n');
    assert first[..5][0] == 'e' && "data:"[0] == 'd';
    assert second[..5] == "data:" && second[5..] == " " + e.payload;
    assert [first, second][1..] == [second];
    assert FirstDataLine([first, second]) == Some(second);
    assert (" " + e.payload)[1..] == e.payload;
    assert JsTrimStart(" " + e.payload) == e.payload;
    assert JsTrimEnd(e.payload) == e.payload;
  }

  function Bodies(events: seq<Written>): seq<string> {
    seq(|events|, i requires 0 <= i < |events| => Body(events[i]))
  }

  lemma {:induction false} WrittenRecords(events: seq<Written>)
    requires forall i | 0 <= i < |events| :: WellWritten(events[i])
    ensures Records(WriteAll(events)) == Bodies(events) + [""]
  {
    if events != [] {
      BodyIsOneRecord(events[0]);
      RecordsCut(Body(events[0]), WriteAll(events[1..]));
      WrittenRecords(events[1..]);
      assert Bodies(events) == [Body(events[0])] + Bodies(events[1..]);
    }
  }

  /** Whatever the chunks, the payloads the server wrote reach the parser one by one, in order. */
  lemma {:induction false} WrittenEventsAreDelivered<E>(events: seq<Written>, parse: string -> Option<E>, parsed: seq<E>)
    requires forall i | 0 <= i < |events| :: WellWritten(events[i])
    requires |parsed| == |events| && forall i | 0 <= i < |events| :: parse(events[i].payload) == Some(parsed[i])
    ensures Deliver(Records(WriteAll(events)), parse) == (parsed, false)
  {
    WrittenRecords(events);
    BodiesDeliver(events, parse, parsed);
    var records := Bodies(events) + [""];
    assert records[..|records| - 1] == Bodies(events) && Last(records) == "";
    assert Split("", '\n') == [""] && FirstDataLine([""]) == FirstDataLine([""][1..]);
  }

  lemma DeliverOneMore<E>(records: seq<string>, record: string, events: seq<E>, event: E, parse: string -> Option<E>)
    requires Deliver(records, parse) == (events, false)
    requires Payload(record).Some? && parse(Payload(record).value) == Some(event)
    ensures Deliver(records + [record], parse) == (events + [event], false)
  {
    assert (records + [record])[..|records|] == records;
  }

  lemma {:induction false} BodiesDeliver<E>(events: seq<Written>, parse: string -> Option<E>, parsed: seq<E>)
    requires forall i | 0 <= i < |events| :: WellWritten(events[i])
    requires |parsed| == |events| && forall i | 0 <= i < |events| :: parse(events[i].payload) == Some(parsed[i])
    ensures Deliver(Bodies(events), parse) == (parsed, false)
  {
    if events != [] {
      var n := |events| - 1;
      BodiesDeliver(events[..n], parse, parsed[..n]);
      PayloadComesBack(events[n]);
      DeliverOneMore(Bodies(events[..n]), Body(events[n]), parsed[..n], parsed[n], parse);
      LastBody(events);
      assert parsed == parsed[..n] + [parsed[n]];
    }
  }

  lemma LastBody(events: seq<Written>)
    requires events != []
    ensures Bodies(events) == Bodies(events[..|events| - 1]) + [Body(events[|events| - 1])]
  {
  }
}
