// Reading a whole fixture: which files can be read without an error, and what the calls
// then reply.
module FixtureReading {
  import opened Wrappers
  import opened FixtureReader

  // The lines of a file, each with its newline.
  function TextOf(lines: seq<string>): string {
    if lines == [] then "" else lines[0] + "\n" + TextOf(lines[1..])
  }

  // A line that is read: not empty, no newline in it and no carriage return at its end, at
  // most 8,192 bytes, and JSON.
  predicate GoodLine(parse: Parser, line: string) {
    1 <= |line| <= 8192 && '\n' !in line && line[|line| - 1] != '\r' && parse(line).Some?
  }

  predicate GoodLines(parse: Parser, lines: seq<string>) { forall i :: 0 <= i < |lines| ==> GoodLine(parse, lines[i]) }

  // What the calls reply to good lines: each record as EDN, and then the end.
  function Records(parse: Parser, lines: seq<string>): seq<Reply>
    requires GoodLines(parse, lines)
  {
    seq(|lines|, i requires 0 <= i < |lines| && GoodLines(parse, lines) => Record(parse(lines[i]).value)) + [End]
  }

  // The replies of calls in which the environment fails nothing.
  const NEXT := Next(false, true, true)

  function NextReplies(parse: Parser, s: State, n: nat): seq<Reply>
    decreases n
  {
    if n == 0 then [] else [Step(parse, s, NEXT).1] + NextReplies(parse, Step(parse, s, NEXT).0, n - 1)
  }

  // What is left to read, and room for it.
  predicate AtLines(s: State, lines: seq<string>) {
    && s.isOpen && !s.complete && s.digests.Some? && !s.stream.eof && !s.stream.bad
    && s.stream.rest == TextOf(lines)
    && s.recordCount + |lines| <= 48693
    && s.semanticBytes + |TextOf(lines)| <= 6753401
  }

  lemma {:induction false} LengthOfLine(line: string, rest: string)
    requires '\n' !in line
    ensures LineLength(line + "\n" + rest) == |line|
    ensures (line + "\n" + rest)[..|line|] == line && (line + "\n" + rest)[|line| + 1..] == rest
  {
    var s := line + "\n" + rest;
    if line != "" {
      LengthOfLine(line[1..], rest);
      assert line[0] in line;
      assert s[1..] == line[1..] + "\n" + rest;
    }
  }

  // One good line is read as its record.
  lemma {:induction false} NextReads(parse: Parser, s: State, lines: seq<string>)
    requires lines != [] && AtLines(s, lines) && GoodLine(parse, lines[0])
    ensures Step(parse, s, NEXT).1 == Record(parse(lines[0]).value)
    ensures AtLines(Step(parse, s, NEXT).0, lines[1..])
    ensures var t := Step(parse, s, NEXT).0;
            t.digests.Some? && t.digests.value.records == s.digests.value.records + lines[0] + "\n"
  {
    hide LineLength;
    var line, rest := lines[0], TextOf(lines[1..]);
    LengthOfLine(line, rest);
    assert (line + ['\n'])[..|line|] == line && line + ['\n'] == line + "\n";
    assert |TextOf(lines)| == |line| + 1 + |rest|;
    assert s.digests.value.records + (line + "\n") == s.digests.value.records + line + "\n";
  }

  lemma {:induction false} NextEnds(parse: Parser, s: State)
    requires AtLines(s, [])
    ensures Step(parse, s, NEXT).1 == End && Step(parse, s, NEXT).0.complete
  {
  }

  // Good lines are read one by one, and then the end.
  lemma {:induction false} ReadsLines(parse: Parser, s: State, lines: seq<string>)
    requires AtLines(s, lines) && GoodLines(parse, lines)
    ensures NextReplies(parse, s, |lines| + 1) == Records(parse, lines)
    decreases |lines|
  {
    hide Step, AtLines;
    var t := Step(parse, s, NEXT).0;
    if lines == [] {
      NextEnds(parse, s);
      RepliesStep(parse, s, 0);
      assert NextReplies(parse, t, 0) == [];
    } else {
      NextReads(parse, s, lines);
      RepliesStep(parse, s, |lines|);
      RestIsGood(parse, lines);
      ReadsLines(parse, t, lines[1..]);
      assert Records(parse, lines) == [Record(parse(lines[0]).value)] + Records(parse, lines[1..]);
    }
  }

  lemma {:induction false} RestIsGood(parse: Parser, lines: seq<string>)
    requires GoodLines(parse, lines) && lines != []
    ensures GoodLines(parse, lines[1..]) && GoodLine(parse, lines[0])
  {
  }

  lemma {:induction false} RepliesStep(parse: Parser, s: State, n: nat)
    ensures NextReplies(parse, s, n + 1) == [Step(parse, s, NEXT).1] + NextReplies(parse, Step(parse, s, NEXT).0, n)
  {
  }

  // ---------- Nothing else can be read ----------

  // The state between calls, whatever is left to read.
  predicate Reading(s: State) {
    && s.isOpen && !s.complete && s.digests.Some? && !s.stream.eof && !s.stream.bad
    && s.recordCount <= 48693 && s.semanticBytes <= 6753401
  }

  predicate AllWell(replies: seq<Reply>) {
    && replies != [] && replies[|replies| - 1] == End
    && forall i :: 0 <= i < |replies| ==> replies[i] != Failed
  }

  // A record comes from a good line.
  lemma {:induction false} RecordIsGoodLine(parse: Parser, s: State) returns (line: string)
    requires Reading(s) && Step(parse, s, NEXT).1.Record?
    ensures GoodLine(parse, line) && s.stream.rest == line + "\n" + Step(parse, s, NEXT).0.stream.rest
    ensures Reading(Step(parse, s, NEXT).0)
    ensures var t := Step(parse, s, NEXT).0;
            t.recordCount == s.recordCount + 1 && t.semanticBytes == s.semanticBytes + |line| + 1
  {
    var n := LineLength(s.stream.rest);
    line := s.stream.rest[..n];
    hide LineLength;
    assert (line + ['\n'])[..|line|] == line;
    assert s.stream.rest == line + "\n" + s.stream.rest[n + 1..];
  }

  lemma {:induction false} EndIsEmpty(parse: Parser, s: State)
    requires Reading(s) && Step(parse, s, NEXT).1 == End
    ensures s.stream.rest == "" && Step(parse, s, NEXT).0.complete && Step(parse, s, NEXT).0.isOpen
  {
  }

  lemma {:induction false} OnlyThese(parse: Parser, s: State)
    requires Reading(s)
    ensures var reply := Step(parse, s, NEXT).1; reply == Failed || reply == End || reply.Record?
  {
  }

  lemma {:induction false} NothingAfterEnd(parse: Parser, s: State, n: nat)
    requires s.isOpen && s.complete && n > 0
    ensures NextReplies(parse, s, n)[0] == Failed
  {
    RepliesStep(parse, s, n - 1);
  }

  // Calls without an error, up to the end, have read good lines.
  lemma {:induction false} OnlyGoodLinesAreRead(parse: Parser, s: State, n: nat) returns (lines: seq<string>)
    requires Reading(s) && AllWell(NextReplies(parse, s, n))
    ensures |lines| + 1 == n && GoodLines(parse, lines) && AtLines(s, lines)
    decreases n
  {
    hide Step, Reading, GoodLine;
    var t, replies := Step(parse, s, NEXT).0, NextReplies(parse, s, n);
    RepliesStep(parse, s, n - 1);
    var rest := NextReplies(parse, t, n - 1);
    OnlyThese(parse, s);
    assert replies[0] != Failed;
    if replies[0] == End {
      EndIsEmpty(parse, s);
      if n > 1 {
        NothingAfterEnd(parse, t, n - 1);
        assert replies[1] == rest[0];
      }
      lines := [];
      AtNoLines(s);
    } else {
      var line := RecordIsGoodLine(parse, s);
      WellAfter(replies, rest);
      var more := OnlyGoodLinesAreRead(parse, t, n - 1);
      lines := [line] + more;
      assert lines[1..] == more;
      AtOneMore(s, t, line, more);
    }
  }

  lemma {:induction false} WellAfter(replies: seq<Reply>, rest: seq<Reply>)
    requires AllWell(replies) && replies[0] != End && rest == replies[1..]
    ensures AllWell(rest)
  {
  }

  lemma {:induction false} AtNoLines(s: State)
    requires Reading(s) && s.stream.rest == ""
    ensures AtLines(s, [])
  {
  }

  lemma {:induction false} AtOneMore(s: State, t: State, line: string, more: seq<string>)
    requires Reading(s) && AtLines(t, more) && s.stream.rest == line + "\n" + t.stream.rest
    requires t.recordCount == s.recordCount + 1 && t.semanticBytes == s.semanticBytes + |line| + 1
    ensures AtLines(s, [line] + more)
  {
    assert ([line] + more)[1..] == more;
  }

  // ---------- Whole files ----------

  function OpenOf(path: string, file: string): Operation { Open(path, Some(file), true, false, true) }

  // A fixture: a header and records that are good lines, within the bounds.
  predicate IsFixture(parse: Parser, file: string, header: string, lines: seq<string>) {
    && file == header + "\n" + TextOf(lines)
    && GoodLine(parse, header) && GoodLines(parse, lines)
    && |lines| <= 48693 && |TextOf(lines)| <= 6753401
  }

  // Opening a fixture replies its header, and the calls of next reply its records, one
  // after the other, and then the end.
  lemma {:induction false} FixtureIsRead(parse: Parser, path: string, file: string, header: string, lines: seq<string>)
    requires ValidPath(path) && IsFixture(parse, file, header, lines)
    ensures var (s, reply) := Step(parse, CLOSED, OpenOf(path, file));
            reply == Record(parse(header).value) && NextReplies(parse, s, |lines| + 1) == Records(parse, lines)
  {
    var (s, reply) := Step(parse, CLOSED, OpenOf(path, file));
    OpenReads(parse, path, header, TextOf(lines));
    hide Step, GoodLine;
    ReadsLines(parse, s, lines);
  }

  lemma {:induction false} OpenReads(parse: Parser, path: string, header: string, rest: string)
    requires ValidPath(path) && GoodLine(parse, header)
    ensures Step(parse, CLOSED, OpenOf(path, header + "\n" + rest))
         == (State(Stream(rest, false, false), Some(Digests(header + "\n", "")), true, false, false, 0, 0),
             Record(parse(header).value))
  {
    hide LineLength;
    LengthOfLine(header, rest);
    assert (header + ['\n'])[..|header|] == header && header + ['\n'] == header + "\n";
  }

  lemma {:induction false} OpenedIsGoodLine(parse: Parser, path: string, file: string) returns (header: string)
    requires Step(parse, CLOSED, OpenOf(path, file)).1.Record?
    ensures GoodLine(parse, header) && ValidPath(path)
    ensures file == header + "\n" + Step(parse, CLOSED, OpenOf(path, file)).0.stream.rest
    ensures var s := Step(parse, CLOSED, OpenOf(path, file)).0;
            Reading(s) && s.recordCount == 0 && s.semanticBytes == 0
  {
    var n := LineLength(file);
    header := file[..n];
    hide LineLength;
    assert (header + ['\n'])[..|header|] == header;
    assert file == header + "\n" + file[n + 1..];
  }

  // Open and n calls of next go through without an error and reach the end exactly when
  // the file is a fixture with n - 1 records.
  lemma {:induction false} CleanReadingIffFixture(parse: Parser, path: string, file: string, n: nat)
    requires ValidPath(path)
    ensures Step(parse, CLOSED, OpenOf(path, file)).1.Record?
            && AllWell(NextReplies(parse, Step(parse, CLOSED, OpenOf(path, file)).0, n))
       <==> exists header, lines :: |lines| + 1 == n && IsFixture(parse, file, header, lines)
  {
    var (s, reply) := Step(parse, CLOSED, OpenOf(path, file));
    hide Step, GoodLine;
    if reply.Record? && AllWell(NextReplies(parse, s, n)) {
      var header := OpenedIsGoodLine(parse, path, file);
      var lines := OnlyGoodLinesAreRead(parse, s, n);
      assert IsFixture(parse, file, header, lines);
    }
    if header, lines :| |lines| + 1 == n && IsFixture(parse, file, header, lines) {
      FixtureIsRead(parse, path, file, header, lines);
      RecordsAreWell(parse, lines);
    }
  }

  lemma {:induction false} RecordsAreWell(parse: Parser, lines: seq<string>)
    requires GoodLines(parse, lines)
    ensures AllWell(Records(parse, lines))
  {
  }

  // ---------- When each call fails ----------

  // Opening succeeds exactly when the path is absolute and of 1 to 4,096 bytes, the
  // environment fails nothing, and the file begins with a good line; otherwise the reader
  // is closed.
  lemma {:induction false} OpenSucceedsIff(parse: Parser, s: State, op: Operation)
    requires op.Open?
    ensures var reply := Step(parse, s, op).1;
            && (reply.Record? <==>
                  && 1 <= |op.path| <= 4096 && op.path[0] == '/'
                  && op.file.Some? && op.digestsReady && !op.readError && op.updated
                  && exists header, rest :: GoodLine(parse, header) && op.file.value == header + "\n" + rest)
            && (reply.Record? || (reply == Failed && Step(parse, s, op).0 == CLOSED))
  {
    if Step(parse, s, op).1.Record? {
      assert op == OpenOf(op.path, op.file.value);
      var header := OpenedIsGoodLine(parse, op.path, op.file.value);
    } else if ValidPath(op.path) && op.file.Some? && op.digestsReady && !op.readError && op.updated {
      if header, rest :| GoodLine(parse, header) && op.file.value == header + "\n" + rest {
        assert op == OpenOf(op.path, header + "\n" + rest);
        OpenReads(parse, op.path, header, rest);
      }
    }
  }

  // A call of next on an open reader that is not at its end gives a record exactly when the
  // environment fails nothing and the stream goes on with a good line that is within the
  // bounds, and the end exactly when the read succeeds and nothing is left.
  lemma {:induction false} NextSucceedsIff(parse: Parser, s: State, op: Operation)
    requires op.Next? && Reading(s)
    ensures var reply := Step(parse, s, op).1;
            && (reply.Record? <==>
                  && !op.readError && op.fixtureUpdated && op.recordsUpdated
                  && exists line, rest ::
                       GoodLine(parse, line) && s.stream.rest == line + "\n" + rest
                       && s.recordCount < 48693 && s.semanticBytes + |line| + 1 <= 6753401)
            && (reply == End <==> !op.readError && s.stream.rest == "")
            && (reply.Record? || reply == End || reply == Failed)
  {
    if Step(parse, s, op).1.Record? {
      assert op == NEXT;
      var line := RecordIsGoodLine(parse, s);
    } else if !op.readError && op.fixtureUpdated && op.recordsUpdated {
      if line, rest :| GoodLine(parse, line) && s.stream.rest == line + "\n" + rest
                       && s.recordCount < 48693 && s.semanticBytes + |line| + 1 <= 6753401 {
        assert op == NEXT;
        GoodLineIsRecord(parse, s, line, rest);
      }
    }
  }

  lemma {:induction false} GoodLineIsRecord(parse: Parser, s: State, line: string, rest: string)
    requires Reading(s) && GoodLine(parse, line) && s.stream.rest == line + "\n" + rest
    requires s.recordCount < 48693 && s.semanticBytes + |line| + 1 <= 6753401
    ensures Step(parse, s, NEXT).1.Record?
  {
    hide LineLength;
    LengthOfLine(line, rest);
    assert (line + ['\n'])[..|line|] == line;
  }

  // Outside that next fails, and so does a second finish.
  lemma {:induction false} OtherCallsFail(parse: Parser, s: State, op: Operation)
    requires Bounded(s)
    ensures op.Next? && (!s.isOpen || s.complete) ==> Step(parse, s, op) == (s, Failed)
    ensures op.Finish? ==>
              (Step(parse, s, op).1.Evidence? <==> s.isOpen && s.complete && !s.finalized && op.digestsFinal)
    ensures op.Finish? && !Step(parse, s, op).1.Evidence? ==> Step(parse, s, op) == (s, Failed)
    ensures op.Finish? && Step(parse, s, op).1.Evidence? ==> Step(parse, s, op).0 == s.(finalized := true)
    ensures op == Close ==> Step(parse, s, op) == (CLOSED, Closed)
  {
    hide OpenStep;
  }

  // ---------- Any run ----------

  // Whatever has failed before, a record that next replies is the next line of the stream,
  // as EDN, and that line is what the digests have been fed.
  lemma {:induction false} RecordIsNextLine(parse: Parser, ops: seq<Operation>, op: Operation) returns (line: string)
    requires op.Next?
    ensures var s, (t, reply) := Run(parse, ops).state, Step(parse, Run(parse, ops).state, op);
            reply.Record? ==>
            && s.isOpen && s.digests.Some? && t.digests.Some?
            && s.stream.rest == line + "\n" + t.stream.rest && '\n' !in line
            && parse(line) == Some(reply.edn)
            && t.digests.value.fixture == s.digests.value.fixture + line + "\n"
            && t.digests.value.records == s.digests.value.records + line + "\n"
  {
    RunsAreConsistent(parse, ops);
    var s := Run(parse, ops).state;
    hide Run, Step, Consistent;
    line := "";
    if Step(parse, s, op).1.Record? {
      line := RecordOfStep(parse, s, op);
    }
  }

  lemma {:induction false} RecordOfStep(parse: Parser, s: State, op: Operation) returns (line: string)
    requires op.Next? && Step(parse, s, op).1.Record?
    ensures var (t, reply) := Step(parse, s, op);
            && s.isOpen && s.digests.Some? && t.digests.Some?
            && s.stream.rest == line + "\n" + t.stream.rest && '\n' !in line
            && parse(line) == Some(reply.edn)
            && t.digests.value.fixture == s.digests.value.fixture + line + "\n"
            && t.digests.value.records == s.digests.value.records + line + "\n"
  {
    var n := LineLength(s.stream.rest);
    line := s.stream.rest[..n];
    hide LineLength;
    var read := line + ['\n'];
    assert read[..|line|] == line && read == line + "\n";
    assert s.stream.rest == line + "\n" + s.stream.rest[n + 1..];
    var d := s.digests.value;
    assert d.fixture + read == d.fixture + line + "\n" && d.records + read == d.records + line + "\n";
  }
}
