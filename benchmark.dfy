/** The benchmark handler (BenchmarkHandler): segments the rows, then keeps a rolling
    context of the current session in a deque and, at every customer line, trims it to at
    most 200 characters and builds a prompt for the generation model. */
module Benchmark {
  import Segmenter
  import opened LineSequences

  const ContextBudget: nat := 200

  /** A `collections.deque` of lines, owned by the caller and updated in place. */
  class Deque {
    var items: seq<string>

    constructor ()
      ensures items == []
    {
      items := [];
    }

    method Append(x: string)
      modifies this
      ensures items == old(items) + [x]
    {
      items := items + [x];
    }

    method Clear()
      modifies this
      ensures items == []
    {
      items := [];
    }

    /** `popleft()`; the deque raises on an empty deque, which its callers here never reach. */
    method PopLeft() returns (x: string)
      requires items != []
      modifies this
      ensures x == old(items)[0] && items == old(items)[1..]
    {
      x := items[0];
      items := items[1..];
    }
  }

  /** Total number of characters; no line is longer than the total. */
  function TotalLength(s: seq<string>): (n: nat)
    ensures forall k :: 0 <= k < |s| ==> |s[k]| <= n
    decreases |s|
  {
    if s == [] then 0 else |s[0]| + TotalLength(s[1..])
  }

  lemma {:induction false} TotalLengthAppend(a: seq<string>, b: seq<string>)
    ensures TotalLength(a + b) == TotalLength(a) + TotalLength(b)
    decreases |a|
  {
    if a == [] {
      assert a + b == b;
    } else {
      assert (a + b)[1..] == a[1..] + b;
      TotalLengthAppend(a[1..], b);
    }
  }

  /** Drop lines from the front while the total length exceeds `budget`. */
  function Trimmed(s: seq<string>, budget: nat): (r: seq<string>)
    ensures |r| <= |s| && TotalLength(r) <= budget
    decreases |s|
  {
    if TotalLength(s) <= budget then s else Trimmed(s[1..], budget)
  }

  /** Trimming keeps a suffix of its input that fits in the budget, and keeps an input that
      already fits whole. */
  lemma {:induction false} TrimmedIsFittingSuffix(s: seq<string>, budget: nat)
    ensures IsSuffix(Trimmed(s, budget), s)
    ensures TotalLength(Trimmed(s, budget)) <= budget
    ensures TotalLength(s) <= budget ==> Trimmed(s, budget) == s
    decreases |s|
  {
    if TotalLength(s) > budget {
      var t := s[1..];
      TrimmedIsFittingSuffix(t, budget);
      var r := Trimmed(t, budget);
      assert s[|s| - |r|..] == t[|t| - |r|..];
    }
  }

  /** Every suffix longer than the trimmed result exceeds the budget. */
  lemma {:induction false} TrimmedTailExceeds(s: seq<string>, budget: nat, j: nat)
    requires j < |s| - |Trimmed(s, budget)|
    ensures TotalLength(s[j..]) > budget
    decreases |s|
  {
    if j == 0 {
      assert s[0..] == s;
    } else {
      assert s[j..] == s[1..][j - 1..];
      TrimmedTailExceeds(s[1..], budget, j - 1);
    }
  }

  /** Trimming keeps the longest suffix whose total length is within the budget: the
      result is a suffix, it fits, every longer suffix does not, and an input that already
      fits is kept whole. */
  lemma TrimmedIsLongestFittingSuffix(s: seq<string>, budget: nat)
    ensures IsSuffix(Trimmed(s, budget), s)
    ensures TotalLength(Trimmed(s, budget)) <= budget
    ensures forall j :: 0 <= j < |s| - |Trimmed(s, budget)| ==> TotalLength(s[j..]) > budget
    ensures TotalLength(s) <= budget ==> Trimmed(s, budget) == s
  {
    TrimmedIsFittingSuffix(s, budget);
    forall j | 0 <= j < |s| - |Trimmed(s, budget)|
      ensures TotalLength(s[j..]) > budget
    {
      TrimmedTailExceeds(s, budget, j);
    }
  }

  /** Dropping a front part each of whose tails makes the whole exceed the budget does
      not change the result of trimming. */
  lemma {:induction false} TrimmedDropsFront(p: seq<string>, y: seq<string>, budget: nat)
    requires forall j :: 0 <= j < |p| ==> TotalLength(p[j..] + y) > budget
    ensures Trimmed(p + y, budget) == Trimmed(y, budget)
    decreases |p|
  {
    if p == [] {
      assert p + y == y;
    } else {
      assert p[0..] == p;
      assert (p + y)[1..] == p[1..] + y;
      forall j | 0 <= j < |p[1..]|
        ensures TotalLength(p[1..][j..] + y) > budget
      {
        assert p[1..][j..] == p[j + 1..];
      }
      TrimmedDropsFront(p[1..], y, budget);
    }
  }

  /** A context that is a tail of the session and still holds its trimmed form trims, after
      more lines arrive, exactly as the whole session would. */
  lemma TrimmedOfTail(s: seq<string>, x: seq<string>, c: seq<string>, budget: nat)
    requires IsSuffix(x, s) && IsSuffix(Trimmed(s, budget), x)
    ensures Trimmed(x + c, budget) == Trimmed(s + c, budget)
  {
    var p := s[..|s| - |x|];
    SplitSuffix(s, x, c);
    forall j | 0 <= j < |p|
      ensures TotalLength(p[j..] + (x + c)) > budget
    {
      TrimmedTailExceeds(s, budget, j);
      LongerTailExceeds(s, p, x, c, j, budget);
    }
    TrimmedDropsFront(p, x + c, budget);
  }

  lemma SplitSuffix(s: seq<string>, x: seq<string>, c: seq<string>)
    requires IsSuffix(x, s)
    ensures s + c == s[..|s| - |x|] + (x + c)
  {
    assert s == s[..|s| - |x|] + x;
  }

  lemma LongerTailExceeds(s: seq<string>, p: seq<string>, x: seq<string>, c: seq<string>,
                          j: nat, budget: nat)
    requires IsSuffix(x, s) && p == s[..|s| - |x|] && j < |p| && TotalLength(s[j..]) > budget
    ensures TotalLength(p[j..] + (x + c)) > budget
  {
    assert s[j..] == p[j..] + x;
    assert p[j..] + (x + c) == s[j..] + c;
    TotalLengthAppend(s[j..], c);
  }

  /** One non-"<eod>" line arrives: the context with the line appended still lies between
      the session's trimmed form and the session, and trimming it gives the session's
      trimmed form. */
  lemma ContextStep(session: seq<string>, ctx: seq<string>, line: string)
    requires IsSuffix(ctx, session) && IsSuffix(Trimmed(session, ContextBudget), ctx)
    ensures IsSuffix(ctx + [line], session + [line])
    ensures IsSuffix(Trimmed(session + [line], ContextBudget), ctx + [line])
    ensures Trimmed(ctx + [line], ContextBudget) == Trimmed(session + [line], ContextBudget)
    ensures IsSuffix(Trimmed(session + [line], ContextBudget), session + [line])
  {
    SuffixSnoc(ctx, session, line);
    TrimmedOfTail(session, ctx, [line], ContextBudget);
    TrimmedIsFittingSuffix(session + [line], ContextBudget);
    TrimmedIsFittingSuffix(ctx + [line], ContextBudget);
  }


  /** The encodings of the lines, concatenated (`tf.concat(inputs, 1)`). */
  function Encoded(s: seq<string>, encode: string -> seq<int>): (r: seq<int>)
    ensures |s| == 1 ==> r == encode(s[0])
    decreases |s|
  {
    if s == [] then [] else Encoded(s[..|s| - 1], encode) + encode(s[|s| - 1])
  }

  /** Encoding works line by line: the encodings of a concatenation are the encodings of
      its parts, concatenated. */
  lemma {:induction false} EncodedAppend(a: seq<string>, b: seq<string>, encode: string -> seq<int>)
    ensures Encoded(a + b, encode) == Encoded(a, encode) + Encoded(b, encode)
    decreases |b|
  {
    if b == [] {
      assert a + b == a;
    } else {
      var b' := b[..|b| - 1];
      assert (a + b)[..|a + b| - 1] == a + b';
      EncodedAppend(a, b', encode);
    }
  }

  /** The prompt: the encodings of the context lines, then that of the agent prefix. */
  function Prompt(context: seq<string>, encode: string -> seq<int>): (r: seq<int>)
    ensures Encoded(context, encode) <= r
    ensures r[|Encoded(context, encode)|..] == encode(Segmenter.AgentPrefix)
  {
    Encoded(context, encode) + encode(Segmenter.AgentPrefix)
  }

  /** BenchmarkHandler.get_input: trims the caller's deque in place, then builds the prompt. */
  method GetInput(contexts: Deque, encode: string -> seq<int>) returns (inputs: seq<int>)
    modifies contexts
    ensures contexts.items == Trimmed(old(contexts.items), ContextBudget)
    ensures inputs == Prompt(contexts.items, encode)
  {
    var length := 0;
    var all := contexts.items;
    for k := 0 to |all|
      invariant contexts.items == all
      invariant length == TotalLength(all[..k])
    {
      length := length + |all[k]|;
      TotalLengthAppend(all[..k], [all[k]]);
      assert all[..k + 1] == all[..k] + [all[k]];
      assert TotalLength([all[k]]) == |all[k]|;
    }
    assert all[..|all|] == all;
    while length > ContextBudget
      invariant length == TotalLength(contexts.items)
      invariant Trimmed(contexts.items, ContextBudget) == Trimmed(old(contexts.items), ContextBudget)
      decreases |contexts.items|
    {
      var x := contexts.PopLeft();
      length := length - |x|;
    }
    inputs := [];
    var kept := contexts.items;
    for k := 0 to |kept|
      invariant contexts.items == kept
      invariant inputs == Encoded(kept[..k], encode)
    {
      inputs := inputs + encode(kept[k]);
      assert kept[..k + 1][..k] == kept[..k];
    }
    assert kept[..|kept|] == kept;
    inputs := inputs + encode(Segmenter.AgentPrefix);
  }

  /** The lines of the current session: those after the last "<eod>". */
  function Session(lines: seq<string>): (r: seq<string>)
    ensures |r| <= |lines|
    ensures Segmenter.EndOfDocument !in r
    decreases |lines|
  {
    if lines == [] then []
    else if lines[|lines| - 1] == Segmenter.EndOfDocument then []
    else Session(lines[..|lines| - 1]) + [lines[|lines| - 1]]
  }

  /** The session is the longest suffix free of "<eod>". */
  lemma SessionIsLastRun(lines: seq<string>)
    ensures IsSuffix(Session(lines), lines)
    ensures Segmenter.EndOfDocument !in Session(lines)
    ensures |Session(lines)| < |lines| ==>
              lines[|lines| - |Session(lines)| - 1] == Segmenter.EndOfDocument
  {
    SessionIsSuffix(lines);
    SessionFollowsEnd(lines);
  }

  lemma {:induction false} SessionIsSuffix(lines: seq<string>)
    ensures IsSuffix(Session(lines), lines)
    decreases |lines|
  {
    if lines != [] && lines[|lines| - 1] != Segmenter.EndOfDocument {
      var p := lines[..|lines| - 1];
      var x := lines[|lines| - 1];
      assert lines == p + [x];
      SessionIsSuffix(p);
      SessionSnoc(p, x);
      SuffixSnoc(Session(p), p, x);
    } else if lines != [] {
      assert lines[|lines|..] == [];
    }
  }

  lemma {:induction false} SessionFollowsEnd(lines: seq<string>)
    ensures |Session(lines)| < |lines| ==>
              lines[|lines| - |Session(lines)| - 1] == Segmenter.EndOfDocument
    decreases |lines|
  {
    if lines != [] && lines[|lines| - 1] != Segmenter.EndOfDocument {
      var p := lines[..|lines| - 1];
      SessionFollowsEnd(p);
      var s := Session(p);
      if |s| < |p| {
        assert lines[|lines| - |s| - 2] == p[|p| - |s| - 1];
      }
    }
  }

  /** An "<eod>" line starts a fresh session: what follows it, up to the next "<eod>", is
      the whole session. */
  lemma {:induction false} SessionRestartsAfterEnd(a: seq<string>, b: seq<string>)
    requires Segmenter.EndOfDocument !in b
    ensures Session(a + [Segmenter.EndOfDocument] + b) == b
    decreases |b|
  {
    var e := a + [Segmenter.EndOfDocument];
    if b == [] {
      assert e + b == e;
    } else {
      var b' := b[..|b| - 1];
      assert (e + b)[..|e + b| - 1] == e + b';
      assert b[|b| - 1] in b;
      SessionRestartsAfterEnd(a, b');
      assert b' + [b[|b| - 1]] == b;
    }
  }

  /** Trimming twice is trimming once. */
  lemma TrimmedIdempotent(s: seq<string>, budget: nat)
    ensures Trimmed(Trimmed(s, budget), budget) == Trimmed(s, budget)
  {
    TrimmedIsFittingSuffix(s, budget);
  }

  lemma SessionSnoc(prefix: seq<string>, line: string)
    ensures Session(prefix + [line])
            == if line == Segmenter.EndOfDocument then [] else Session(prefix) + [line]
  {
    assert (prefix + [line])[..|prefix|] == prefix;
  }


  predicate IsCustomerTurn(line: string) {
    |line| > 0 && line[0] == '客'
  }

  /** The output entry for the last line of `prefix`: empty except at a customer line,
      where the model is asked to continue the longest tail of the session so far that fits
      in 200 characters. */
  function Response(prefix: seq<string>, encode: string -> seq<int>,
                    generate: seq<int> -> string): (r: string)
    requires prefix != []
    ensures r != "" ==> prefix[|prefix| - 1] != Segmenter.EndOfDocument
                        && IsCustomerTurn(prefix[|prefix| - 1])
  {
    var line := prefix[|prefix| - 1];
    if line == Segmenter.EndOfDocument || !IsCustomerTurn(line) then ""
    else generate(Prompt(Trimmed(Session(prefix), ContextBudget), encode))
  }

  /** `nlg` holds the output entries of the first `k` lines. */
  ghost predicate Answered(nlg: seq<string>, lines: seq<string>, k: nat,
                           encode: string -> seq<int>, generate: seq<int> -> string)
  {
    k <= |lines| && |nlg| == k
    && forall j :: 0 <= j < k ==> nlg[j] == Response(lines[..j + 1], encode, generate)
  }

  lemma AnsweredSnoc(nlg: seq<string>, lines: seq<string>, k: nat, out: string,
                     encode: string -> seq<int>, generate: seq<int> -> string)
    requires Answered(nlg, lines, k, encode, generate) && k < |lines|
    requires out == Response(lines[..k + 1], encode, generate)
    ensures Answered(nlg + [out], lines, k + 1, encode, generate)
  {
  }

  /** The deque holds a tail of the current session that still contains the session's
      trimmed form. */
  ghost predicate Tracks(items: seq<string>, prefix: seq<string>) {
    IsSuffix(items, Session(prefix)) && IsSuffix(Trimmed(Session(prefix), ContextBudget), items)
  }

  /** One iteration of the loop of BenchmarkHandler.handle: "<eod>" clears the deque and
      yields ''; any other line is appended, and a customer line trims the deque and yields
      the generation for its prompt. */
  method RespondLine(contexts: Deque, ghost prefix: seq<string>, line: string,
                     encode: string -> seq<int>, generate: seq<int> -> string)
    returns (out: string)
    requires |line| > 0 && Tracks(contexts.items, prefix)
    modifies contexts
    ensures line == Segmenter.EndOfDocument ==> contexts.items == []
    ensures line != Segmenter.EndOfDocument && line[0] == '客' ==>
              contexts.items == Trimmed(Session(prefix + [line]), ContextBudget)
    ensures line != Segmenter.EndOfDocument && line[0] != '客' ==>
              contexts.items == old(contexts.items) + [line]
    ensures Tracks(contexts.items, prefix + [line])
    ensures out == Response(prefix + [line], encode, generate)
  {
    if line == Segmenter.EndOfDocument {
      contexts.Clear();
      TracksAfterEnd(prefix);
      out := "";
    } else {
      out := RespondUtterance(contexts, prefix, line, encode, generate);
    }
  }

  /** A line other than "<eod>": it joins the deque, and at a customer line the deque is
      trimmed and a continuation generated. */
  method RespondUtterance(contexts: Deque, ghost prefix: seq<string>, line: string,
                          encode: string -> seq<int>, generate: seq<int> -> string)
    returns (out: string)
    requires |line| > 0 && line != Segmenter.EndOfDocument && Tracks(contexts.items, prefix)
    modifies contexts
    ensures line[0] == '客' ==> contexts.items == Trimmed(Session(prefix + [line]), ContextBudget)
    ensures line[0] != '客' ==> contexts.items == old(contexts.items) + [line]
    ensures Tracks(contexts.items, prefix + [line])
    ensures out == Response(prefix + [line], encode, generate)
  {
    ghost var next := prefix + [line];
    ghost var kept := Trimmed(Session(next), ContextBudget);
    TracksAfterLine(contexts.items, prefix, line);
    contexts.Append(line);
    if line[0] == '客' && |contexts.items| > 0 {
      var inputs := GetInput(contexts, encode);
      assert contexts.items == kept;
      TracksTrimmed(next);
      out := generate(inputs);
      CustomerResponse(prefix, line, encode, generate);
      assert out == generate(Prompt(kept, encode));
    } else {
      out := "";
      NonCustomerResponse(prefix, line, encode, generate);
    }
  }

  lemma TracksAfterEnd(prefix: seq<string>)
    ensures Tracks([], prefix + [Segmenter.EndOfDocument])
  {
    SessionSnoc(prefix, Segmenter.EndOfDocument);
    assert Trimmed([], ContextBudget) == [];
  }

  /** A line other than "<eod>" extends the session and the deque alike, and trimming the
      deque then gives the session's trimmed form. */
  lemma TracksAfterLine(items: seq<string>, prefix: seq<string>, line: string)
    requires line != Segmenter.EndOfDocument && Tracks(items, prefix)
    ensures Tracks(items + [line], prefix + [line])
    ensures Trimmed(items + [line], ContextBudget) == Trimmed(Session(prefix + [line]), ContextBudget)
  {
    SessionSnoc(prefix, line);
    ContextStep(Session(prefix), items, line);
  }

  lemma TracksTrimmed(prefix: seq<string>)
    ensures Tracks(Trimmed(Session(prefix), ContextBudget), prefix)
  {
    TrimmedIsFittingSuffix(Session(prefix), ContextBudget);
    SuffixRefl(Trimmed(Session(prefix), ContextBudget));
  }

  lemma NonCustomerResponse(prefix: seq<string>, line: string, encode: string -> seq<int>,
                            generate: seq<int> -> string)
    requires |line| > 0 && line[0] != '客'
    ensures Response(prefix + [line], encode, generate) == ""
  {
  }

  lemma CustomerResponse(prefix: seq<string>, line: string, encode: string -> seq<int>,
                         generate: seq<int> -> string)
    requires line != Segmenter.EndOfDocument && |line| > 0 && line[0] == '客'
    ensures Response(prefix + [line], encode, generate)
            == generate(Prompt(Trimmed(Session(prefix + [line]), ContextBudget), encode))
  {
  }

  /** BenchmarkHandler.handle, with generation and decoding as the function `generate`:
      returns the segmented lines and one output entry per line. */
  method Handle(rows: seq<Segmenter.Row>, encode: string -> seq<int>, generate: seq<int> -> string)
    returns (lines: seq<string>, nlg: seq<string>)
    ensures lines == Segmenter.Segmented(rows)
    ensures |nlg| == |lines|
    ensures forall k :: 0 <= k < |lines| ==> nlg[k] == Response(lines[..k + 1], encode, generate)
  {
    lines := Segmenter.Segment(rows);
    Segmenter.SegmentedEnds(rows);
    nlg := Respond(lines, encode, generate);
  }

  /** The loop of BenchmarkHandler.handle over the segmented lines; it reads the first
      character of every line, so every line must be non-empty. */
  method Respond(lines: seq<string>, encode: string -> seq<int>, generate: seq<int> -> string)
    returns (nlg: seq<string>)
    requires forall k :: 0 <= k < |lines| ==> |lines[k]| > 0
    ensures |nlg| == |lines|
    ensures forall k :: 0 <= k < |lines| ==> nlg[k] == Response(lines[..k + 1], encode, generate)
  {
    var contexts := new Deque();
    nlg := [];
    for k := 0 to |lines|
      invariant fresh(contexts)
      invariant Answered(nlg, lines, k, encode, generate)
      invariant Tracks(contexts.items, lines[..k])
    {
      assert lines[..k + 1] == lines[..k] + [lines[k]];
      var out := RespondLine(contexts, lines[..k], lines[k], encode, generate);
      AnsweredSnoc(nlg, lines, k, out, encode, generate);
      nlg := nlg + [out];
    }
    assert lines[..|lines|] == lines;
  }
}
