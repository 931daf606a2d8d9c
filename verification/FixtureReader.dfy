// The fixture reader of the native runtime: open, next until the end, finish.
//
// A digest is the text fed to it. What the environment decides (whether a file
// opens, whether a read or a digest call fails) comes with each operation.
module FixtureReader {
  import opened Wrappers

  const MAXIMUM_RECORD_BYTES := 8192
  const MAXIMUM_FIXTURE_RECORDS := 48693
  const MAXIMUM_SEMANTIC_BYTES := 6753401

  // ---------- Lines of a stream ----------

  // What is left of the stream, and its end and error flags.
  datatype Stream = Stream(rest: string, eof: bool, bad: bool)

  datatype Line = LineValue(text: string) | LineEnd | LineInvalid

  // The length of the text before the first newline, or of the whole text.
  function LineLength(s: string): (n: nat)
    ensures n <= |s| && '\n' !in s[..n] && (n < |s| ==> s[n] == '\n')
  {
    if s == "" || s[0] == '\n' then 0 else 1 + LineLength(s[1..])
  }

  function ReadLine(stream: Stream, readError: bool): (Line, Stream) {
    if stream.eof then (LineEnd, stream)
    else if stream.bad || readError then (LineInvalid, stream.(bad := true))
    else
      var n := LineLength(stream.rest);
      if n == |stream.rest| then
        // No newline: the stream is exhausted, and a last partial line is rejected.
        (if n == 0 then LineEnd else LineInvalid, Stream("", true, false))
      else
        var line, after := stream.rest[..n], Stream(stream.rest[n + 1..], false, false);
        if line == "" || line[n - 1] == '\r' || n > MAXIMUM_RECORD_BYTES then (LineInvalid, after)
        else (LineValue(line + ['\n']), after)
  }

  // ---------- The reader as a state machine ----------

  datatype Digests = Digests(fixture: string, records: string)

  datatype State = State(
    stream: Stream,
    digests: Option<Digests>,
    isOpen: bool,
    complete: bool,
    finalized: bool,
    recordCount: nat,
    semanticBytes: nat)

  datatype Operation =
    | Open(path: string, file: Option<string>, digestsReady: bool, readError: bool, updated: bool)
    | Next(readError: bool, fixtureUpdated: bool, recordsUpdated: bool)
    | Finish(digestsFinal: bool)
    | Close

  datatype Reply =
    | Failed
    | Closed
    | Record(edn: string)
    | End
    | Evidence(fixture: string, records: string, recordCount: nat, canonicalBytes: nat)

  // The JSON parser and EDN printer, which this reader calls on each line.
  type Parser = string -> Option<string>

  const CLOSED_STREAM := Stream("", true, false)
  const CLOSED := State(CLOSED_STREAM, None, false, false, false, 0, 0)

  predicate ValidPath(path: string) { 1 <= |path| <= 4096 && path[0] == '/' }

  function OpenStep(parse: Parser, op: Operation): (State, Reply)
    requires op.Open?
  {
    if !ValidPath(op.path) || op.file.None? || !op.digestsReady then (CLOSED, Failed)
    else
      var (line, stream) := ReadLine(Stream(op.file.value, false, false), op.readError);
      if !line.LineValue? || !op.updated then (CLOSED, Failed)
      else
        match parse(line.text[..|line.text| - 1])
        case None => (CLOSED, Failed)
        case Some(edn) =>
          (State(stream, Some(Digests(line.text, "")), true, false, false, 0, 0), Record(edn))
  }

  predicate OverBounds(s: State, text: string) {
    s.recordCount >= MAXIMUM_FIXTURE_RECORDS || |text| > MAXIMUM_SEMANTIC_BYTES - s.semanticBytes
  }

  function NextStep(parse: Parser, s: State, op: Operation): (State, Reply)
    requires op.Next?
  {
    if !s.isOpen || s.complete || s.digests.None? then (s, Failed)
    else
      var (line, stream) := ReadLine(s.stream, op.readError);
      var t := s.(stream := stream);
      var d := s.digests.value;
      match line
      case LineEnd => (t.(complete := true), End)
      case LineInvalid => (t, Failed)
      case LineValue(text) =>
        if OverBounds(s, text) then (t, Failed)
        else if !op.fixtureUpdated then (t, Failed)
        else if !op.recordsUpdated then (t.(digests := Some(Digests(d.fixture + text, d.records))), Failed)
        else
          var u := t.(digests := Some(Digests(d.fixture + text, d.records + text)),
                      semanticBytes := s.semanticBytes + |text|, recordCount := s.recordCount + 1);
          match parse(text[..|text| - 1])
          case None => (u, Failed)
          case Some(edn) => (u, Record(edn))
  }

  function FinishStep(s: State, op: Operation): (State, Reply)
    requires op.Finish?
  {
    if !s.isOpen || !s.complete || s.finalized || s.digests.None? || !op.digestsFinal then (s, Failed)
    else
      (s.(finalized := true),
       Evidence(s.digests.value.fixture, s.digests.value.records, s.recordCount, s.semanticBytes))
  }

  function Step(parse: Parser, s: State, op: Operation): (State, Reply) {
    match op
    case Open(_, _, _, _, _) => OpenStep(parse, op)
    case Next(_, _, _) => NextStep(parse, s, op)
    case Finish(_) => FinishStep(s, op)
    case Close => (CLOSED, Closed)
  }

  // ---------- The reader as its class ----------

  class Reader {
    const parse: Parser
    var stream: Stream
    var digests: Option<Digests>
    var isOpen: bool
    var complete: bool
    var finalized: bool
    var recordCount: nat
    var semanticBytes: nat

    constructor (parse: Parser)
      ensures View() == CLOSED && this.parse == parse
    {
      this.parse := parse;
      stream, digests := CLOSED_STREAM, None;
      isOpen, complete, finalized := false, false, false;
      recordCount, semanticBytes := 0, 0;
    }

    function View(): State
      reads this
    {
      State(stream, digests, isOpen, complete, finalized, recordCount, semanticBytes)
    }

    method CloseFile()
      modifies this
      ensures View() == CLOSED
    {
      stream, digests := CLOSED_STREAM, None;
      isOpen, complete, finalized := false, false, false;
      recordCount, semanticBytes := 0, 0;
    }

    method OpenFile(op: Operation) returns (reply: Reply)
      requires op.Open?
      modifies this
      ensures (View(), reply) == Step(parse, old(View()), op)
    {
      hide ReadLine, NextStep, FinishStep, Header, Lines;
      CloseFile();
      if |op.path| == 0 || |op.path| > 4096 || op.path[0] != '/' {
        return Failed;
      }
      if op.file.None? {
        return Failed;
      }
      stream := Stream(op.file.value, false, false);
      if !op.digestsReady {
        CloseFile();
        return Failed;
      }
      digests := Some(Digests("", ""));
      isOpen := true;
      var header := TakeLine(op.readError);
      ReadLineTakes(Stream(op.file.value, false, false), op.readError);
      if !header.LineValue? || !op.updated {
        CloseFile();
        return Failed;
      }
      digests := Some(Digests(digests.value.fixture + header.text, digests.value.records));
      assert "" + header.text == header.text;
      var parsed := parse(header.text[..|header.text| - 1]);
      if parsed.None? {
        CloseFile();
        return Failed;
      }
      return Record(parsed.value);
    }

    method TakeLine(readError: bool) returns (line: Line)
      modifies this`stream
      ensures (line, stream) == ReadLine(old(stream), readError)
    {
      var read := ReadLine(stream, readError);
      line, stream := read.0, read.1;
    }

    method NextRecord(op: Operation) returns (reply: Reply)
      requires op.Next? && (isOpen ==> digests.Some?)
      modifies this
      ensures (View(), reply) == Step(parse, old(View()), op)
    {
      if !isOpen || complete {
        return Failed;
      }
      var line := TakeLine(op.readError);
      if line.LineEnd? {
        complete := true;
        return End;
      }
      if line.LineInvalid? {
        return Failed;
      }
      if recordCount >= MAXIMUM_FIXTURE_RECORDS || |line.text| > MAXIMUM_SEMANTIC_BYTES - semanticBytes {
        return Failed;
      }
      if !op.fixtureUpdated {
        return Failed;
      }
      digests := Some(digests.value.(fixture := digests.value.fixture + line.text));
      if !op.recordsUpdated {
        return Failed;
      }
      digests := Some(digests.value.(records := digests.value.records + line.text));
      semanticBytes := semanticBytes + |line.text|;
      recordCount := recordCount + 1;
      var parsed := parse(line.text[..|line.text| - 1]);
      return if parsed.None? then Failed else Record(parsed.value);
    }

    method FinishFile(op: Operation) returns (reply: Reply)
      requires op.Finish? && (isOpen ==> digests.Some?)
      modifies this`finalized
      ensures (View(), reply) == Step(parse, old(View()), op)
    {
      if !isOpen || !complete || finalized {
        return Failed;
      }
      if !op.digestsFinal {
        return Failed;
      }
      finalized := true;
      return Evidence(digests.value.fixture, digests.value.records, recordCount, semanticBytes);
    }
  }

  // ---------- Every run ----------

  // A call of next that turns a line away before the fixture digest has seen it: the line
  // is not valid, or over the bounds, or the digest refuses it. A failed read takes no
  // line.
  predicate DropsLine(s: State, op: Operation) {
    && op.Next? && s.isOpen && !s.complete
    && var (line, after) := ReadLine(s.stream, op.readError);
       || (line.LineInvalid? && !after.bad)
       || (line.LineValue? && (OverBounds(s, line.text) || !op.fixtureUpdated))
  }

  // A call of next whose line only the fixture digest has seen.
  predicate SkipsRecord(s: State, op: Operation) {
    && op.Next? && s.isOpen && !s.complete
    && var line := ReadLine(s.stream, op.readError).0;
       line.LineValue? && !OverBounds(s, line.text) && op.fixtureUpdated && !op.recordsUpdated
  }

  // A run with what an observer remembers since the last open: the file, whether any call
  // has failed, whether one has dropped a line or skipped a record, and how often finish
  // has succeeded.
  datatype Session = Session(state: State, file: string, clean: bool, dropped: bool, skipped: bool, finishes: nat)

  const FRESH := Session(CLOSED, "", true, false, false, 0)

  function Observe(parse: Parser, session: Session, op: Operation): Session {
    var (state, reply) := Step(parse, session.state, op);
    match op
    case Open(_, file, _, _, _) =>
      Session(state, if reply.Record? then file.value else "", reply != Failed, false, false, 0)
    case Close => Session(state, "", true, false, false, 0)
    case _ =>
      Session(state, session.file, session.clean && reply != Failed,
              session.dropped || DropsLine(session.state, op), session.skipped || SkipsRecord(session.state, op),
              session.finishes + if reply.Evidence? then 1 else 0)
  }

  function Run(parse: Parser, ops: seq<Operation>): Session {
    if ops == [] then FRESH else Observe(parse, Run(parse, ops[..|ops| - 1]), ops[|ops| - 1])
  }

  function Lines(s: string): nat {
    if s == "" then 0 else Lines(s[..|s| - 1]) + if s[|s| - 1] == '\n' then 1 else 0
  }

  // The first line of a file, with its newline.
  function Header(file: string): string {
    var n := LineLength(file);
    if n < |file| then file[..n + 1] else file
  }

  // Holds in every run, whatever failed in it: the flags are ordered and the
  // counters stay within their bounds, so the subtraction from the byte limit
  // never wraps round.
  predicate Bounded(s: State) {
    && (s.finalized ==> s.complete)
    && (s.complete ==> s.isOpen)
    && (s.isOpen <==> s.digests.Some?)
    && (!s.isOpen ==> s == CLOSED)
    && s.recordCount <= MAXIMUM_FIXTURE_RECORDS
    && s.semanticBytes <= MAXIMUM_SEMANTIC_BYTES
  }

  // What is unread is the end of the file. The fixture digest has been fed the rest of it
  // but for the lines that were dropped, and the records digest what the fixture digest
  // has been fed past the header but for the records that were skipped.
  predicate Accounted(session: Session) {
    var s := session.state;
    s.digests.Some? ==>
      var d := s.digests.value;
      && |d.fixture| + |s.stream.rest| <= |session.file|
      && (session.dropped <==> |d.fixture| + |s.stream.rest| < |session.file|)
      && (!session.dropped ==> session.file == d.fixture + s.stream.rest)
      && |Header(session.file)| + |d.records| <= |d.fixture|
      && (session.skipped <==> |Header(session.file)| + |d.records| < |d.fixture|)
      && (!session.skipped ==> d.fixture == Header(session.file) + d.records)
      && s.semanticBytes == |d.records|
      && s.recordCount == Lines(d.records)
      && (s.stream.eof || s.complete ==> s.stream.rest == "")
      && (s.complete ==> s.stream.eof)
      && (session.clean ==> !session.dropped && !session.skipped && !s.stream.bad)
  }

  predicate Consistent(session: Session) {
    && Bounded(session.state)
    && (session.state.isOpen ==> Accounted(session))
    && session.finishes == (if session.state.finalized then 1 else 0)
  }

  lemma {:induction false} LinesAppend(a: string, b: string)
    ensures Lines(a + b) == Lines(a) + Lines(b)
  {
    if b == "" {
      assert a + b == a;
    } else {
      LinesAppend(a, b[..|b| - 1]);
      assert (a + b)[..|a + b| - 1] == a + b[..|b| - 1];
    }
  }

  lemma {:induction false} NoNewline(s: string)
    requires '\n' !in s
    ensures Lines(s) == 0
  {
    if s != "" {
      NoNewline(s[..|s| - 1]);
    }
  }

  // A line that is read is exactly the next text of the stream.
  lemma {:induction false} ReadLineTakes(stream: Stream, readError: bool)
    ensures var (line, after) := ReadLine(stream, readError);
            && (line.LineValue? ==>
                  && stream.rest == line.text + after.rest
                  && line.text == Header(stream.rest)
                  && line.text != "" && Lines(line.text) == 1
                  && !after.eof && !after.bad)
            && (stream.eof ==> line.LineEnd? && after == stream)
            && (line.LineEnd? && !stream.eof ==> stream.rest == "" && after.rest == "" && after.eof && !after.bad)
  {
    var (line, after) := ReadLine(stream, readError);
    if line.LineValue? {
      var n := LineLength(stream.rest);
      NoNewline(stream.rest[..n]);
      LinesAppend(stream.rest[..n], ['\n']);
      assert stream.rest == stream.rest[..n] + ['\n'] + stream.rest[n + 1..];
      assert ['\n'][..0] == "" && Lines(['\n']) == 1;
      assert stream.rest[..n + 1] == stream.rest[..n] + ['\n'];
    }
  }

  // A line that is turned away without a failed read has been taken from the stream.
  lemma {:induction false} ReadLineDrops(stream: Stream, readError: bool)
    ensures var (line, after) := ReadLine(stream, readError);
            && (line.LineInvalid? && !after.bad ==> |after.rest| < |stream.rest|)
            && (line.LineInvalid? && after.bad ==> after.rest == stream.rest && after.eof == stream.eof)
            && (line.LineInvalid? && after.eof ==> after.rest == "")
  {
  }

  lemma {:induction false} NextKeeps(parse: Parser, session: Session, op: Operation)
    requires Consistent(session) && op.Next?
    ensures Consistent(Observe(parse, session, op))
  {
    hide ReadLine, Header, Lines;
    var s := session.state;
    if s.isOpen && !s.complete {
      ReadLineTakes(s.stream, op.readError);
      ReadLineDrops(s.stream, op.readError);
      var (line, after) := ReadLine(s.stream, op.readError);
      if line.LineValue? {
        var d := s.digests.value;
        LinesAppend(d.records, line.text);
        assert d.fixture + (line.text + after.rest) == d.fixture + line.text + after.rest;
        assert Header(session.file) + d.records + line.text == Header(session.file) + (d.records + line.text);
      }
    }
  }

  lemma {:induction false} OpenKeeps(parse: Parser, session: Session, op: Operation)
    requires Consistent(session) && op.Open?
    ensures Consistent(Observe(parse, session, op))
  {
    hide ReadLine, Header;
    if ValidPath(op.path) && op.file.Some? && op.digestsReady {
      ReadLineTakes(Stream(op.file.value, false, false), op.readError);
    }
  }

  lemma {:induction false} ObserveKeeps(parse: Parser, session: Session, op: Operation)
    requires Consistent(session)
    ensures Consistent(Observe(parse, session, op))
  {
    hide OpenStep, NextStep;
    match op
    case Open(_, _, _, _, _) => OpenKeeps(parse, session, op);
    case Next(_, _, _) => NextKeeps(parse, session, op);
    case Finish(_) =>
    case Close =>
  }

  lemma {:induction false} RunsAreConsistent(parse: Parser, ops: seq<Operation>)
    ensures Consistent(Run(parse, ops))
  {
    hide Consistent, Observe;
    if ops == [] {
      FreshIsConsistent();
    } else {
      RunsAreConsistent(parse, ops[..|ops| - 1]);
      ObserveKeeps(parse, Run(parse, ops[..|ops| - 1]), ops[|ops| - 1]);
    }
  }

  lemma {:induction false} FreshIsConsistent()
    ensures Consistent(FRESH)
  {
  }

  // The counters never leave their bounds in any run, so neither does the
  // subtraction from the byte limit.
  lemma {:induction false} CountersStayBounded(parse: Parser, ops: seq<Operation>)
    ensures var s := Run(parse, ops).state;
            s.recordCount <= MAXIMUM_FIXTURE_RECORDS && 0 <= MAXIMUM_SEMANTIC_BYTES - s.semanticBytes
  {
    RunsAreConsistent(parse, ops);
  }

  // In every run, failures included, the fixture digest has been fed the file up to what
  // is unread exactly when no line was dropped, and the header and then what the records
  // digest has been fed exactly when no record was skipped. The counters always count
  // what the records digest has been fed.
  lemma {:induction false} DigestsFollowFile(parse: Parser, ops: seq<Operation>)
    requires Run(parse, ops).state.isOpen
    ensures var session := Run(parse, ops);
            session.state.digests.Some? &&
            var d := session.state.digests.value;
            && (session.file == d.fixture + session.state.stream.rest <==> !session.dropped)
            && (d.fixture == Header(session.file) + d.records <==> !session.skipped)
            && session.state.semanticBytes == |d.records|
            && session.state.recordCount == Lines(d.records)
  {
    RunsAreConsistent(parse, ops);
  }

  // A run without failures drops no line and skips no record.
  lemma {:induction false} CleanRunsDropNothing(parse: Parser, ops: seq<Operation>)
    requires Run(parse, ops).clean && Run(parse, ops).state.isOpen
    ensures !Run(parse, ops).dropped && !Run(parse, ops).skipped
  {
    RunsAreConsistent(parse, ops);
  }

  // In every run that ends in evidence, the fixture digest is of the whole file exactly
  // when no line was dropped, and the records digest is of all bytes past the header
  // exactly when besides no record was skipped. The counts are those of the records that
  // were fed to the records digest.
  lemma {:induction false} EvidenceCoversFile(parse: Parser, ops: seq<Operation>, op: Operation)
    requires op.Finish?
    requires Step(parse, Run(parse, ops).state, op).1.Evidence?
    ensures var session, evidence := Run(parse, ops), Step(parse, Run(parse, ops).state, op).1;
            var file := session.file;
            && (evidence.fixture == file <==> !session.dropped)
            && (Header(file) + evidence.records == file <==> !session.dropped && !session.skipped)
            && (evidence.fixture == Header(file) + evidence.records <==> !session.skipped)
            && evidence.recordCount == Lines(evidence.records)
            && evidence.canonicalBytes == |evidence.records|
  {
    RunsAreConsistent(parse, ops);
    var d := Run(parse, ops).state.digests.value;
    assert d.fixture + "" == d.fixture;
  }

  // finish succeeds at most once for each open.
  lemma {:induction false} FinishSucceedsOnce(parse: Parser, ops: seq<Operation>)
    ensures Run(parse, ops).finishes <= 1
    ensures forall op: Operation :: op.Finish? && Step(parse, Run(parse, ops).state, op).1.Evidence?
              ==> Run(parse, ops).finishes == 0
  {
    RunsAreConsistent(parse, ops);
  }

  // Lines are dropped: a caller that goes on after the rejection of an unterminated last
  // line is told the file has ended, and the evidence it then gets leaves that line out.
  lemma {:induction false} RejectedLineIsNotCovered(parse: Parser)
    requires parse("h").Some?
    ensures var next, finish := Next(false, true, true), Finish(true);
            var s0 := Step(parse, CLOSED, Open("/f", Some("h\nx"), true, false, true)).0;
            var (s1, r1) := Step(parse, s0, next);
            var (s2, r2) := Step(parse, s1, next);
            var (s3, r3) := Step(parse, s2, finish);
            r1 == Failed && r2 == End && r3 == Evidence("h\n", "", 0, 0)
  {
    hide LineLength;
    ExampleLines();
    var file := "h\nx";
    assert file[..1] == "h" && file[2..] == "x" && "h" + ['\n'] == "h\n" && "h\n"[..1] == "h";
  }

  lemma {:induction false} ExampleLines()
    ensures LineLength("h\nx") == 1 && LineLength("x") == 1 && LineLength("") == 0
  {
    assert "h\nx"[1..][0] == '\n';
    assert "x"[1..] == "";
  }
}
