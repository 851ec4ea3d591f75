/** The session segmenter (PretrainingTextHandler.handle): turns per-message rows of
    customer/agent transcripts into tagged lines, with a standalone "<eod>" line between
    two conversations and an "<eop>" suffix on a line followed by a pause or burst. */
module Segmenter {

  datatype Option<T> = None | Some(value: T)

  /** One transcript row; `text` is already coerced to a string. */
  datatype Row = Row(customerId: int, timestamp: int, speaker: int, text: string,
                     messCount: int, voiceCount: int)

  const CustomerPrefix: string := "客户："
  const AgentPrefix: string := "销售："
  const EndOfDocument: string := "<eod>"
  const EndOfParagraph: string := "<eop>"
  /** The value `last_timestamp` starts from before the first row. */
  const InitialTimestamp: int := 1700000000
  const PauseSeconds: int := 3600
  const BurstMessages: int := 5

  function Prefix(speaker: int): (prefix: string) {
    if speaker == 0 then CustomerPrefix else AgentPrefix
  }

  function Tagged(row: Row): (line: string) {
    Prefix(row.speaker) + row.text
  }

  predicate StartsWithPrefix(line: string) {
    CustomerPrefix <= line || AgentPrefix <= line
  }

  /** The pause-or-burst condition, measured from the previous row's timestamp. */
  predicate IsPause(row: Row, lastTimestamp: int) {
    row.timestamp - lastTimestamp > PauseSeconds || row.messCount + row.voiceCount > BurstMessages
  }

  lemma TaggedLineIsNotMarker(line: string)
    requires StartsWithPrefix(line)
    ensures line != EndOfDocument && line + EndOfParagraph != EndOfDocument
    ensures StartsWithPrefix(line + EndOfParagraph)
  {
    assert line[0] == '客' || line[0] == '销';
    assert EndOfDocument[0] == '<';
    assert (line + EndOfParagraph)[..3] == line[..3];
  }

  // ---------------------------------------------------------------------------
  // The loop, as a fold over the rows

  /** The loop's variables: the output list `data`, `cur_customer`, `last_timestamp`. */
  datatype SegState = SegState(data: seq<string>, current: Option<int>, lastTimestamp: int)

  const Start: SegState := SegState([], None, InitialTimestamp)

  /** Once a customer has been seen, there is a previous line to append "<eop>" to. */
  predicate HasLastLine(st: SegState) {
    st.current.Some? ==> st.data != []
  }

  /** One iteration of the loop: pause check first, then boundary check, then the line. */
  function Step(st: SegState, row: Row): (r: SegState)
    requires HasLastLine(st)
    ensures HasLastLine(r) && |r.data| > 0
  {
    var paused :=
      if IsPause(row, st.lastTimestamp) && Some(row.customerId) == st.current
      then st.data[|st.data| - 1 := st.data[|st.data| - 1] + EndOfParagraph]
      else st.data;
    var bounded :=
      if Some(row.customerId) != st.current && st.current != None
      then paused + [EndOfDocument]
      else paused;
    SegState(bounded + [Tagged(row)], Some(row.customerId), row.timestamp)
  }

  function Run(rows: seq<Row>): (st: SegState)
    ensures HasLastLine(st)
    decreases |rows|
  {
    if rows == [] then Start else Step(Run(rows[..|rows| - 1]), rows[|rows| - 1])
  }

  /** The lines the handler returns for `rows`. */
  function Segmented(rows: seq<Row>): (data: seq<string>) {
    Run(rows).data
  }

  // ---------------------------------------------------------------------------
  // A reference description, row by row from the front

  /** An output line: a session boundary, or a row's tagged text, perhaps carrying "<eop>". */
  datatype Line = Boundary | Utterance(tagged: string, paused: bool)

  function Render(line: Line): (text: string) {
    match line
    case Boundary => EndOfDocument
    case Utterance(t, p) => if p then t + EndOfParagraph else t
  }

  function RenderAll(lines: seq<Line>): (texts: seq<string>) {
    seq(|lines|, i requires 0 <= i < |lines| => Render(lines[i]))
  }

  /** Row `i` is followed by a row of the same conversation after a pause or burst. */
  predicate PausedAfter(rows: seq<Row>, i: int)
    requires 0 <= i < |rows|
  {
    i + 1 < |rows| && rows[i + 1].customerId == rows[i].customerId
    && IsPause(rows[i + 1], rows[i].timestamp)
  }

  /** Each row gives its tagged line, marked paused when the next row of the same
      conversation comes after a pause; a boundary follows a row whose successor
      belongs to another conversation. */
  function Annotated(rows: seq<Row>): (lines: seq<Line>)
    decreases |rows|
  {
    if |rows| == 0 then []
    else if |rows| == 1 then [Utterance(Tagged(rows[0]), false)]
    else Lead(rows) + Annotated(rows[1..])
  }

  /** The lines contributed by the first of at least two rows. */
  function Lead(rows: seq<Row>): (lines: seq<Line>)
    requires |rows| >= 2
  {
    [Utterance(Tagged(rows[0]), PausedAfter(rows, 0))]
    + (if rows[1].customerId == rows[0].customerId then [] else [Boundary])
  }

  /** The number of adjacent row pairs whose conversations differ. */
  function Changes(rows: seq<Row>): (n: nat)
    decreases |rows|
  {
    if |rows| < 2 then 0
    else (if rows[1].customerId != rows[0].customerId then 1 else 0) + Changes(rows[1..])
  }

  function Boundaries(lines: seq<Line>): (n: nat)
    decreases |lines|
  {
    if lines == [] then 0 else (if lines[0].Boundary? then 1 else 0) + Boundaries(lines[1..])
  }

  /** The utterance lines, boundaries dropped. */
  function Utterances(lines: seq<Line>): (kept: seq<Line>)
    decreases |lines|
  {
    if lines == [] then []
    else (if lines[0].Boundary? then [] else [lines[0]]) + Utterances(lines[1..])
  }

  function EodCount(lines: seq<string>): (n: nat)
    decreases |lines|
  {
    if lines == [] then 0 else (if lines[0] == EndOfDocument then 1 else 0) + EodCount(lines[1..])
  }

  /** Marks the last line paused (when it is an utterance). */
  function PauseLast(lines: seq<Line>): (marked: seq<Line>) {
    if |lines| > 0 && lines[|lines| - 1].Utterance?
    then lines[..|lines| - 1] + [Utterance(lines[|lines| - 1].tagged, true)]
    else lines
  }

  lemma {:induction false} AnnotatedLast(rows: seq<Row>)
    requires rows != []
    ensures |Annotated(rows)| > 0
    ensures Annotated(rows)[|Annotated(rows)| - 1] == Utterance(Tagged(rows[|rows| - 1]), false)
    decreases |rows|
  {
    if |rows| > 1 {
      AnnotatedLast(rows[1..]);
    }
  }

  lemma AnnotatedFirst(rows: seq<Row>)
    requires rows != []
    ensures |Annotated(rows)| > 0
    ensures Annotated(rows)[0] == Utterance(Tagged(rows[0]), PausedAfter(rows, 0))
  {
    if |rows| > 1 {
      assert Annotated(rows) == Lead(rows) + Annotated(rows[1..]);
    }
  }

  /** The reference lines after appending row `r` to rows whose reference lines are
      `lines` and whose last row is `p`. */
  function Extended(lines: seq<Line>, p: Row, r: Row): (next: seq<Line>) {
    var same := r.customerId == p.customerId;
    (if same && IsPause(r, p.timestamp) then PauseLast(lines) else lines)
    + (if same then [] else [Boundary])
    + [Utterance(Tagged(r), false)]
  }

  lemma ExtendedAfter(h: seq<Line>, lines: seq<Line>, p: Row, r: Row)
    requires lines != []
    ensures Extended(h + lines, p, r) == h + Extended(lines, p, r)
  {
    assert PauseLast(h + lines) == h + PauseLast(lines);
  }

  /** Appending a row to the input changes only the end of the reference output. */
  lemma {:induction false} AnnotatedSnoc(s: seq<Row>, r: Row)
    requires s != []
    ensures Annotated(s + [r]) == Extended(Annotated(s), s[|s| - 1], r)
    decreases |s|
  {
    var sr := s + [r];
    if |s| == 1 {
      assert sr[1..] == [r];
      assert sr == [s[0], r];
    } else {
      var t := s[1..];
      assert sr[1..] == t + [r];
      assert t[|t| - 1] == s[|s| - 1];
      AnnotatedSnoc(t, r);
      AnnotatedLast(t);
      assert Lead(sr) == Lead(s);
      ExtendedAfter(Lead(s), Annotated(t), s[|s| - 1], r);
    }
  }

  lemma RenderAllAppend(a: seq<Line>, b: seq<Line>)
    ensures RenderAll(a + b) == RenderAll(a) + RenderAll(b)
  {
  }

  /** One step of the loop after at least one row extends the reference description. */
  lemma StepMatchesExtended(st: SegState, a: seq<Line>, p: Row, r: Row)
    requires a != [] && a[|a| - 1] == Utterance(Tagged(p), false)
    requires st.data == RenderAll(a) && st.current == Some(p.customerId)
    requires st.lastTimestamp == p.timestamp
    ensures Step(st, r).data == RenderAll(Extended(a, p, r))
  {
    var same := r.customerId == p.customerId;
    var x := if same && IsPause(r, p.timestamp) then PauseLast(a) else a;
    var b: seq<Line> := if same then [] else [Boundary];
    RenderAllAppend(x + b, [Utterance(Tagged(r), false)]);
    RenderAllAppend(x, b);
    if same && IsPause(r, p.timestamp) {
      var d := st.data;
      assert RenderAll(PauseLast(a)) == d[|d| - 1 := d[|d| - 1] + EndOfParagraph];
    }
  }

  /** The loop computes the reference description. */
  lemma {:induction false} RunMatchesAnnotated(rows: seq<Row>)
    ensures Run(rows).data == RenderAll(Annotated(rows))
    ensures rows != [] ==> (Run(rows).current == Some(rows[|rows| - 1].customerId)
                         && Run(rows).lastTimestamp == rows[|rows| - 1].timestamp)
    decreases |rows|
  {
    if rows != [] {
      var s := rows[..|rows| - 1];
      var r := rows[|rows| - 1];
      assert rows == s + [r];
      RunMatchesAnnotated(s);
      if s == [] {
        assert rows == [r];
      } else {
        AnnotatedSnoc(s, r);
        AnnotatedLast(s);
        StepMatchesExtended(Run(s), Annotated(s), s[|s| - 1], r);
      }
    }
  }

  lemma {:induction false} UtterancesAppend(a: seq<Line>, b: seq<Line>)
    ensures Utterances(a + b) == Utterances(a) + Utterances(b)
    ensures Boundaries(a + b) == Boundaries(a) + Boundaries(b)
    decreases |a|
  {
    if a == [] {
      assert a + b == b;
    } else {
      assert (a + b)[0] == a[0];
      assert (a + b)[1..] == a[1..] + b;
      UtterancesAppend(a[1..], b);
    }
  }

  /** Dropping the boundaries leaves exactly one line per row, in input order: the row's
      prefixed text, marked paused just when its successor continues the conversation
      after a pause or burst. The boundaries are exactly the conversation changes. */
  lemma {:induction false} AnnotatedRows(rows: seq<Row>)
    ensures |Utterances(Annotated(rows))| == |rows|
    ensures forall i :: 0 <= i < |rows| ==>
              Utterances(Annotated(rows))[i] == Utterance(Tagged(rows[i]), PausedAfter(rows, i))
    ensures Boundaries(Annotated(rows)) == Changes(rows)
    ensures |Annotated(rows)| == |rows| + Changes(rows)
    decreases |rows|
  {
    if |rows| == 1 {
      assert Utterances(Annotated(rows)) == [Utterance(Tagged(rows[0]), false)] by {
        assert Annotated(rows)[1..] == [];
      }
    } else if |rows| > 1 {
      var t := rows[1..];
      AnnotatedRows(t);
      AnnotatedSplit(rows);
      var us := Utterances(Annotated(rows));
      forall i | 0 <= i < |rows|
        ensures us[i] == Utterance(Tagged(rows[i]), PausedAfter(rows, i))
      {
        if i > 0 {
          assert rows[i] == t[i - 1];
          assert PausedAfter(rows, i) == PausedAfter(t, i - 1);
        }
      }
    }
  }

  /** The first row contributes one utterance, and a boundary exactly when the second row
      belongs to another conversation. */
  lemma AnnotatedSplit(rows: seq<Row>)
    requires |rows| > 1
    ensures Utterances(Annotated(rows))
            == [Utterance(Tagged(rows[0]), PausedAfter(rows, 0))] + Utterances(Annotated(rows[1..]))
    ensures Boundaries(Annotated(rows))
            == (if rows[1].customerId == rows[0].customerId then 0 else 1)
               + Boundaries(Annotated(rows[1..]))
  {
    var u := [Utterance(Tagged(rows[0]), PausedAfter(rows, 0))];
    var b: seq<Line> := if rows[1].customerId == rows[0].customerId then [] else [Boundary];
    assert Lead(rows) == u + b;
    assert Annotated(rows) == u + b + Annotated(rows[1..]);
    UtterancesAppend(u + b, Annotated(rows[1..]));
    UtterancesAppend(u, b);
    assert Utterances(u) == u && Boundaries(u) == 0 by { assert u[1..] == []; }
    if b != [] {
      assert Utterances(b) == [] && Boundaries(b) == 1 by { assert b[1..] == []; }
    }
  }

  lemma {:induction false} AnnotatedLinesAreTagged(rows: seq<Row>)
    ensures forall k :: 0 <= k < |Annotated(rows)| && Annotated(rows)[k].Utterance? ==>
              StartsWithPrefix(Annotated(rows)[k].tagged)
    decreases |rows|
  {
    if |rows| > 1 {
      AnnotatedLinesAreTagged(rows[1..]);
    }
  }

  lemma {:induction false} EodCountRendered(lines: seq<Line>)
    requires forall k :: 0 <= k < |lines| && lines[k].Utterance? ==> StartsWithPrefix(lines[k].tagged)
    ensures EodCount(RenderAll(lines)) == Boundaries(lines)
    decreases |lines|
  {
    if lines != [] {
      assert RenderAll(lines)[1..] == RenderAll(lines[1..]);
      EodCountRendered(lines[1..]);
      if lines[0].Utterance? {
        TaggedLineIsNotMarker(lines[0].tagged);
      }
    }
  }

  /** Output length and "<eod>" count: one line per row plus one "<eod>" per change of
      conversation; "<eop>" never adds a line. */
  lemma SegmentedCounts(rows: seq<Row>)
    ensures |Segmented(rows)| == |rows| + Changes(rows)
    ensures EodCount(Segmented(rows)) == Changes(rows)
  {
    RunMatchesAnnotated(rows);
    AnnotatedRows(rows);
    AnnotatedLinesAreTagged(rows);
    EodCountRendered(Annotated(rows));
  }

  /** "<eod>" is never the first line; the last line is the last row's tagged text, so no
      "<eod>" (and no "<eop>") follows the last row. Every line is non-empty. */
  lemma SegmentedEnds(rows: seq<Row>)
    ensures rows == [] <==> Segmented(rows) == []
    ensures rows != [] ==> (Tagged(rows[0]) <= Segmented(rows)[0]
                         && Segmented(rows)[0] != EndOfDocument
                         && Segmented(rows)[|Segmented(rows)| - 1] == Tagged(rows[|rows| - 1]))
    ensures forall k :: 0 <= k < |Segmented(rows)| ==> |Segmented(rows)[k]| > 0
  {
    RunMatchesAnnotated(rows);
    AnnotatedLinesAreTagged(rows);
    var a := Annotated(rows);
    forall k | 0 <= k < |a|
      ensures |Render(a[k])| > 0
    {
      if a[k].Utterance? { TaggedLineIsNotMarker(a[k].tagged); }
    }
    if rows != [] {
      AnnotatedLast(rows);
      AnnotatedFirst(rows);
      TaggedLineIsNotMarker(Tagged(rows[0]));
    }
  }

  /** The two guards of the loop exclude each other: a line marked with "<eop>" is never
      followed by "<eod>", and two "<eod>" lines are never adjacent. */
  lemma {:induction false} PauseAndBoundaryExclusive(rows: seq<Row>)
    ensures forall k :: 0 <= k < |Annotated(rows)| - 1 ==>
              (Annotated(rows)[k] == Boundary || Annotated(rows)[k].paused) ==>
                Annotated(rows)[k + 1].Utterance?
    decreases |rows|
  {
    if |rows| > 1 {
      var t := rows[1..];
      PauseAndBoundaryExclusive(t);
      var a := Annotated(rows);
      var h := Lead(rows);
      assert a == h + Annotated(t);
      AnnotatedFirst(t);
      forall k | 0 <= k < |a| - 1 && (a[k] == Boundary || a[k].paused)
        ensures a[k + 1].Utterance?
      {
        if k >= |h| {
          assert a[k] == Annotated(t)[k - |h|];
          assert a[k + 1] == Annotated(t)[k + 1 - |h|];
        } else if k + 1 == |h| {
          assert a[k + 1] == Annotated(t)[0];
        }
      }
    }
  }

  // ---------------------------------------------------------------------------
  // The handler

  /** PretrainingTextHandler.handle: one pass over the rows. */
  method Segment(rows: seq<Row>) returns (data: seq<string>)
    ensures data == Segmented(rows)
    ensures |data| == |rows| + Changes(rows)
    ensures EodCount(data) == Changes(rows)
  {
    data := [];
    var current: Option<int> := None;
    var lastTimestamp := InitialTimestamp;
    for i := 0 to |rows|
      invariant SegState(data, current, lastTimestamp) == Run(rows[..i])
    {
      var row := rows[i];
      if IsPause(row, lastTimestamp) {
        if Some(row.customerId) == current {
          data := data[|data| - 1 := data[|data| - 1] + EndOfParagraph];
        }
      }
      if Some(row.customerId) != current {
        if current != None {
          data := data + [EndOfDocument];
        }
        current := Some(row.customerId);
      }
      data := data + [Tagged(row)];
      lastTimestamp := row.timestamp;
      assert rows[..i + 1][..i] == rows[..i];
    }
    assert rows[..|rows|] == rows;
    SegmentedCounts(rows);
  }

  /** Two rows of one conversation: no boundary. */
  lemma ScenarioOneConversation()
    ensures Segmented([Row(1, 0, 0, "hi", 1, 0), Row(1, 10, 1, "hello", 1, 0)])
            == ["客户：hi", "销售：hello"]
  {
    var rows := [Row(1, 0, 0, "hi", 1, 0), Row(1, 10, 1, "hello", 1, 0)];
    assert Tagged(rows[0]) == "客户：hi";
    assert Tagged(rows[1]) == "销售：hello";
    assert rows[..1] == [rows[0]];
    assert [rows[0]][..0] == [];
    assert Run([rows[0]]) == Step(Start, rows[0]);
    assert Run(rows) == Step(Run([rows[0]]), rows[1]);
  }

  /** Two conversations: a boundary between them. */
  lemma ScenarioTwoConversations()
    ensures Segmented([Row(1, 0, 0, "a", 1, 0), Row(2, 5, 1, "b", 1, 0)])
            == ["客户：a", "<eod>", "销售：b"]
  {
    var rows := [Row(1, 0, 0, "a", 1, 0), Row(2, 5, 1, "b", 1, 0)];
    assert Tagged(rows[0]) == "客户：a";
    assert Tagged(rows[1]) == "销售：b";
    assert rows[..1] == [rows[0]];
    assert [rows[0]][..0] == [];
    assert Run([rows[0]]) == Step(Start, rows[0]);
    assert Run(rows) == Step(Run([rows[0]]), rows[1]);
  }

  /** A gap of more than an hour inside one conversation marks the earlier line. */
  lemma ScenarioPause()
    ensures Segmented([Row(1, 0, 0, "a", 1, 0), Row(1, 4000, 1, "b", 1, 0)])
            == ["客户：a<eop>", "销售：b"]
  {
    var rows := [Row(1, 0, 0, "a", 1, 0), Row(1, 4000, 1, "b", 1, 0)];
    assert Tagged(rows[0]) + EndOfParagraph == "客户：a<eop>";
    assert Tagged(rows[1]) == "销售：b";
    assert rows[..1] == [rows[0]];
    assert [rows[0]][..0] == [];
    assert Run([rows[0]]) == Step(Start, rows[0]);
    assert Run(rows) == Step(Run([rows[0]]), rows[1]);
  }
}
