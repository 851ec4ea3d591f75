/** The window packer (PretrainingDataHandler.handle): packs tagged lines into training
    windows of about 256 tokens. `mem1` holds the window being assembled, `mem2` the lines
    since the last customer line; a session end flushes `mem1` when it holds a reply, and
    reaching the token budget flushes `mem1` and restarts it from a copy of `mem2`. */
module WindowPacker {
  import Segmenter
  import opened LineSequences

  const Budget: nat := 256
  /** The condition `text.startswith('客户')`. */
  const CustomerMark: string := "客户"

  predicate IsCustomerLine(line: string) {
    CustomerMark <= line
  }

  /** `AsWritten` is the handler as it stands; `Corrected` also resets `reply2` where a
      customer line clears `mem2`, so that `reply2` counts the replies held in `mem2`. */
  datatype Variant = AsWritten | Corrected

  /** A Python list of lines, updated in place. */
  class LineList {
    var items: seq<string>

    constructor ()
      ensures items == []
    {
      items := [];
    }

    /** `copy.deepcopy(other)`: a new list with the same lines. */
    constructor CopyOf(other: LineList)
      ensures items == other.items
    {
      items := other.items;
    }

    method Append(line: string)
      modifies this
      ensures items == old(items) + [line]
    {
      items := items + [line];
    }

    method Clear()
      modifies this
      ensures items == []
    {
      items := [];
    }
  }

  /** `' '.join(lines)` */
  function Join(lines: seq<string>): (r: string)
    ensures |lines| == 1 ==> r == lines[0]
    ensures lines != [] ==> lines[0] <= r
    decreases |lines|
  {
    if lines == [] then "" else if |lines| == 1 then lines[0] else lines[0] + " " + Join(lines[1..])
  }

  // ---------------------------------------------------------------------------
  // The loop, as a fold over the lines

  /** The loop's variables (`features` holds the emitted windows). */
  datatype PackState = PackState(mem1: seq<string>, mem2: seq<string>, curLen: nat,
                                 reply: nat, reply2: nat, windows: seq<seq<string>>)

  const Initial: PackState := PackState([], [], 0, 0, 0, [])

  /** A "<eod>" line: emit `mem1` if it holds a reply, then reset everything. */
  function EndSession(st: PackState): (r: PackState)
    ensures st.windows <= r.windows && |r.windows| <= |st.windows| + 1
    ensures |r.windows| > |st.windows| <==> st.reply > 0
  {
    PackState([], [], 0, 0, 0, if st.reply > 0 then st.windows + [st.mem1] else st.windows)
  }

  /** Any other line: update `mem2` and the reply counters, append to both buffers, count tokens. */
  function Absorb(st: PackState, line: string, count: string -> nat, variant: Variant): (r: PackState)
    ensures r.windows == st.windows
    ensures r.mem1 == st.mem1 + [line]
    ensures IsCustomerLine(line) <==> r.reply == 0
  {
    if IsCustomerLine(line) then
      PackState(st.mem1 + [line], [line], st.curLen + count(line),
                0, if variant == Corrected then 0 else st.reply2, st.windows)
    else
      PackState(st.mem1 + [line], st.mem2 + [line], st.curLen + count(line),
                st.reply + 1, st.reply2 + 1, st.windows)
  }

  /** The budget check: emit `mem1` and carry a copy of `mem2` over. */
  function Flush(st: PackState, count: string -> nat): (r: PackState)
    ensures st.curLen >= Budget ==> r.windows == st.windows + [st.mem1] && r.mem1 == st.mem2
    ensures st.curLen < Budget ==> r == st
  {
    if st.curLen >= Budget then
      PackState(st.mem2, [], count(Join(st.mem2)), st.reply2, 0, st.windows + [st.mem1])
    else st
  }

  /** One line: windows are only ever appended, at most one per line. */
  function Step(st: PackState, line: string, count: string -> nat, variant: Variant): (r: PackState)
    ensures st.windows <= r.windows && |r.windows| <= |st.windows| + 1
  {
    if line == Segmenter.EndOfDocument then EndSession(st)
    else Flush(Absorb(st, line, count, variant), count)
  }

  function Run(lines: seq<string>, count: string -> nat, variant: Variant): (r: PackState)
    decreases |lines|
  {
    if lines == [] then Initial
    else Step(Run(lines[..|lines| - 1], count, variant), lines[|lines| - 1], count, variant)
  }

  /** The windows emitted for `lines`, in order. */
  function Windows(lines: seq<string>, count: string -> nat, variant: Variant): (w: seq<seq<string>>)
  {
    Run(lines, count, variant).windows
  }

  lemma RunSnoc(lines: seq<string>, line: string, count: string -> nat, variant: Variant)
    ensures Run(lines + [line], count, variant) == Step(Run(lines, count, variant), line, count, variant)
  {
    assert (lines + [line])[..|lines|] == lines;
  }

  lemma RunPrefixStep(lines: seq<string>, i: nat, count: string -> nat, variant: Variant)
    requires i < |lines|
    ensures Run(lines[..i + 1], count, variant)
            == Step(Run(lines[..i], count, variant), lines[i], count, variant)
  {
    assert lines[..i + 1][..i] == lines[..i];
  }

  // ---------------------------------------------------------------------------
  // Invariants of the buffers and of the emitted windows

  /** `w` is a run of consecutive input lines. */
  ghost predicate IsSliceOf(w: seq<string>, lines: seq<string>) {
    exists i, j :: 0 <= i <= j <= |lines| && lines[i..j] == w
  }

  /** Only the first line of `mem2` can be a customer line. */
  ghost predicate CustomerOnlyFirst(s: seq<string>) {
    forall k :: 0 < k < |s| ==> !IsCustomerLine(s[k])
  }

  ghost predicate Inv(st: PackState, lines: seq<string>) {
    && IsSuffix(st.mem1, lines)
    && IsSuffix(st.mem2, st.mem1)
    && Segmenter.EndOfDocument !in st.mem1
    && CustomerOnlyFirst(st.mem2)
    && (st.mem1 == [] ==> st.reply == 0)
    && (forall w :: w in st.windows ==>
          w != [] && Segmenter.EndOfDocument !in w && IsSliceOf(w, lines))
  }

  lemma SuffixIsSlice(a: seq<string>, b: seq<string>)
    requires IsSuffix(a, b)
    ensures IsSliceOf(a, b)
  {
    assert b[|b| - |a|..|b|] == a;
  }

  lemma SliceExtends(w: seq<string>, lines: seq<string>, x: string)
    requires IsSliceOf(w, lines)
    ensures IsSliceOf(w, lines + [x])
  {
    var i, j :| 0 <= i <= j <= |lines| && lines[i..j] == w;
    assert (lines + [x])[i..j] == w;
  }

  lemma EndSessionKeepsInv(st: PackState, lines: seq<string>)
    requires Inv(st, lines)
    ensures Inv(EndSession(st), lines + [Segmenter.EndOfDocument])
  {
    var all := lines + [Segmenter.EndOfDocument];
    forall w | w in st.windows
      ensures IsSliceOf(w, all)
    {
      SliceExtends(w, lines, Segmenter.EndOfDocument);
    }
    assert all[|all|..] == [];
    if st.reply > 0 {
      SuffixIsSlice(st.mem1, lines);
      SliceExtends(st.mem1, lines, Segmenter.EndOfDocument);
    }
  }

  lemma AbsorbKeepsInv(st: PackState, lines: seq<string>, line: string,
                       count: string -> nat, variant: Variant)
    requires Inv(st, lines) && line != Segmenter.EndOfDocument
    ensures Inv(Absorb(st, line, count, variant), lines + [line])
    ensures Absorb(st, line, count, variant).mem2 != []
  {
    var all := lines + [line];
    var mid := Absorb(st, line, count, variant);
    forall w | w in st.windows
      ensures IsSliceOf(w, all)
    {
      SliceExtends(w, lines, line);
    }
    SuffixSnoc(st.mem1, lines, line);
    if IsCustomerLine(line) {
      assert mid.mem1[|mid.mem1| - 1..] == [line];
    } else {
      SuffixSnoc(st.mem2, st.mem1, line);
    }
  }

  lemma FlushKeepsInv(mid: PackState, all: seq<string>, count: string -> nat)
    requires Inv(mid, all) && mid.mem2 != []
    ensures Inv(Flush(mid, count), all)
  {
    if mid.curLen >= Budget {
      SuffixTrans(mid.mem2, mid.mem1, all);
      SuffixIsSlice(mid.mem1, all);
      assert [] == mid.mem2[|mid.mem2|..];
    }
  }

  lemma StepKeepsInv(st: PackState, lines: seq<string>, line: string,
                     count: string -> nat, variant: Variant)
    requires Inv(st, lines)
    ensures Inv(Step(st, line, count, variant), lines + [line])
  {
    if line == Segmenter.EndOfDocument {
      EndSessionKeepsInv(st, lines);
    } else {
      AbsorbKeepsInv(st, lines, line, count, variant);
      FlushKeepsInv(Absorb(st, line, count, variant), lines + [line], count);
    }
  }

  /** In every reachable state `mem1` is the most recent input lines, `mem2` a suffix of
      `mem1` in which only the first line may be a customer line, "<eod>" is in neither,
      and every emitted window is a non-empty run of consecutive input lines containing no
      "<eod>": a window never spans two sessions. */
  lemma {:induction false} RunKeepsInv(lines: seq<string>, count: string -> nat, variant: Variant)
    ensures Inv(Run(lines, count, variant), lines)
    decreases |lines|
  {
    if lines != [] {
      var prev := lines[..|lines| - 1];
      assert lines == prev + [lines[|lines| - 1]];
      RunKeepsInv(prev, count, variant);
      StepKeepsInv(Run(prev, count, variant), prev, lines[|lines| - 1], count, variant);
    }
  }

  // ---------------------------------------------------------------------------
  // Order of the windows, carry-over, and the session-end flush

  /** Each line emits at most one window, and windows are only ever appended: the windows
      of a prefix of the input are a prefix of the windows of the whole input. */
  lemma {:induction false} WindowsOnlyGrow(lines: seq<string>, count: string -> nat, variant: Variant,
                                           j: nat)
    requires j <= |lines|
    ensures Windows(lines[..j], count, variant) <= Windows(lines, count, variant)
    ensures |Windows(lines, count, variant)| <= |Windows(lines[..j], count, variant)| + (|lines| - j)
    decreases |lines|
  {
    if j == |lines| {
      assert lines[..j] == lines;
    } else {
      var prev := lines[..|lines| - 1];
      assert prev[..j] == lines[..j];
      assert lines == prev + [lines[|lines| - 1]];
      WindowsOnlyGrow(prev, count, variant, j);
      RunSnoc(prev, lines[|lines| - 1], count, variant);
    }
  }

  /** Inside one session, as long as no window is emitted, `mem1` only grows. */
  lemma {:induction false} PrimaryKeepsPrefix(lines: seq<string>, count: string -> nat,
                                              variant: Variant, i: nat, k: nat)
    requires i <= k <= |lines|
    requires forall j :: i <= j < k ==> lines[j] != Segmenter.EndOfDocument
    requires |Windows(lines[..k], count, variant)| == |Windows(lines[..i], count, variant)|
    ensures Run(lines[..i], count, variant).mem1 <= Run(lines[..k], count, variant).mem1
    decreases k
  {
    if k > i {
      var p := lines[..k];
      assert p[..k - 1] == lines[..k - 1];
      assert p[..i] == lines[..i];
      assert lines[..k] == lines[..k - 1] + [lines[k - 1]];
      WindowsOnlyGrow(p, count, variant, k - 1);
      WindowsOnlyGrow(lines[..k - 1], count, variant, i) by {
        assert lines[..k - 1][..i] == lines[..i];
      }
      assert lines[..k - 1][..i] == lines[..i];
      PrimaryKeepsPrefix(lines, count, variant, i, k - 1);
      RunSnoc(lines[..k - 1], lines[k - 1], count, variant);
    }
  }

  /** Carry-over: the lines held in `mem1` after step `i` (after a forced flush, the copy
      of `mem2`) lead the next window, when that window is emitted in the same session. */
  lemma CarriedLinesLeadNextWindow(lines: seq<string>, count: string -> nat, variant: Variant,
                                   i: nat, k: nat)
    requires i <= k < |lines|
    requires forall j :: i <= j < k ==> lines[j] != Segmenter.EndOfDocument
    requires |Windows(lines[..k], count, variant)| == |Windows(lines[..i], count, variant)|
    requires |Windows(lines[..k + 1], count, variant)| > |Windows(lines[..k], count, variant)|
    ensures Run(lines[..i], count, variant).mem1
            <= Windows(lines[..k + 1], count, variant)[|Windows(lines[..i], count, variant)|]
  {
    PrimaryKeepsPrefix(lines, count, variant, i, k);
    RunPrefixStep(lines, k, count, variant);
    var st := Run(lines[..k], count, variant);
    StepEmits(st, lines[k], count, variant);
    var a := Run(lines[..i], count, variant).mem1;
    var w := Windows(lines[..k + 1], count, variant)[|st.windows|];
    assert a <= st.mem1 && st.mem1 <= w;
  }

  /** A step that emits a window emits one, and it begins with the `mem1` held before. */
  lemma StepEmits(st: PackState, line: string, count: string -> nat, variant: Variant)
    requires |Step(st, line, count, variant).windows| > |st.windows|
    ensures |Step(st, line, count, variant).windows| == |st.windows| + 1
    ensures st.mem1 <= Step(st, line, count, variant).windows[|st.windows|]
  {
  }

  /** A forced flush emits `mem1` with the new line, then restarts `mem1` from the lines
      since the last customer line (a suffix of the input with a customer line at most at
      its head), empties `mem2`, recounts the tokens of the carried lines and takes over
      `reply2` (as updated by the new line) as `reply`. */
  lemma ForcedFlushCarriesPending(lines: seq<string>, line: string, count: string -> nat,
                                  variant: Variant)
    requires line != Segmenter.EndOfDocument
    requires Run(lines, count, variant).curLen + count(line) >= Budget
    ensures
      var before := Run(lines, count, variant);
      var after := Run(lines + [line], count, variant);
      var pending := if IsCustomerLine(line) then [line] else before.mem2 + [line];
      && after.windows == before.windows + [before.mem1 + [line]]
      && after.mem1 == pending && after.mem2 == []
      && after.curLen == count(Join(pending)) && after.reply2 == 0
      && after.reply == (if !IsCustomerLine(line) then before.reply2 + 1
                         else if variant == AsWritten then before.reply2 else 0)
      && IsSuffix(pending, lines + [line]) && CustomerOnlyFirst(pending)
  {
    RunSnoc(lines, line, count, variant);
    RunKeepsInv(lines + [line], count, variant);
    RunKeepsInv(lines, count, variant);
  }

  /** A line other than "<eod>" that does not reach the budget: it is appended to `mem1`,
      and to `mem2` after a customer line has cleared it; a customer line resets `reply`
      (and, as written, leaves `reply2` alone), any other line counts one more reply in
      both counters; its tokens are added and no window is emitted. */
  lemma LineWithoutFlush(lines: seq<string>, line: string, count: string -> nat,
                         variant: Variant)
    requires line != Segmenter.EndOfDocument
    requires Run(lines, count, variant).curLen + count(line) < Budget
    ensures
      var before := Run(lines, count, variant);
      var after := Run(lines + [line], count, variant);
      && after.windows == before.windows
      && after.mem1 == before.mem1 + [line]
      && after.mem2 == (if IsCustomerLine(line) then [line] else before.mem2 + [line])
      && after.curLen == before.curLen + count(line)
      && after.reply == (if IsCustomerLine(line) then 0 else before.reply + 1)
      && after.reply2 == (if !IsCustomerLine(line) then before.reply2 + 1
                          else if variant == AsWritten then before.reply2 else 0)
  {
    RunSnoc(lines, line, count, variant);
  }

  /** Tokens of the lines, counted one line at a time. */
  function Tokens(lines: seq<string>, count: string -> nat): (n: nat)
    decreases |lines|
  {
    if lines == [] then 0 else Tokens(lines[..|lines| - 1], count) + count(lines[|lines| - 1])
  }

  /** Token counts add up over a concatenation of lines. */
  lemma {:induction false} TokensAppend(a: seq<string>, b: seq<string>, count: string -> nat)
    ensures Tokens(a + b, count) == Tokens(a, count) + Tokens(b, count)
    decreases |b|
  {
    if b == [] {
      assert a + b == a;
    } else {
      var b' := b[..|b| - 1];
      assert (a + b)[..|a + b| - 1] == a + b';
      TokensAppend(a, b', count);
    }
  }

  /** Lines without "<eod>" whose tokens keep `cur_len` below 256 emit nothing: they are
      appended to `mem1` and their tokens added to `cur_len`. */
  lemma {:induction false} NoFlushBelowBudget(p: seq<string>, s: seq<string>, count: string -> nat,
                                              variant: Variant)
    requires forall k :: 0 <= k < |s| ==> s[k] != Segmenter.EndOfDocument
    requires Run(p, count, variant).curLen + Tokens(s, count) < Budget
    ensures Run(p + s, count, variant).windows == Run(p, count, variant).windows
    ensures Run(p + s, count, variant).mem1 == Run(p, count, variant).mem1 + s
    ensures Run(p + s, count, variant).curLen == Run(p, count, variant).curLen + Tokens(s, count)
    decreases |s|
  {
    if s == [] {
      assert p + s == p;
    } else {
      var s' := s[..|s| - 1];
      var x := s[|s| - 1];
      assert s == s' + [x];
      NoFlushBelowBudget(p, s', count, variant);
      assert p + s == (p + s') + [x];
      RunSnoc(p + s', x, count, variant);
      assert Run(p, count, variant).mem1 + s == (Run(p, count, variant).mem1 + s') + [x];
    }
  }

  /** A session whose lines total fewer than 256 tokens never fills a window: from the
      start of the input or from just after an "<eod>", all its lines stay in `mem1` and
      nothing is emitted until the next "<eod>" (or ever, when the input stops there). */
  lemma ShortSessionEmitsNothing(p: seq<string>, s: seq<string>, count: string -> nat,
                                 variant: Variant)
    requires p == [] || p[|p| - 1] == Segmenter.EndOfDocument
    requires forall k :: 0 <= k < |s| ==> s[k] != Segmenter.EndOfDocument
    requires Tokens(s, count) < Budget
    ensures Run(p + s, count, variant).windows == Run(p, count, variant).windows
    ensures Run(p + s, count, variant).mem1 == s
    ensures Run(p + s, count, variant).curLen == Tokens(s, count)
  {
    if p != [] {
      assert p == p[..|p| - 1] + [Segmenter.EndOfDocument];
      RunSnoc(p[..|p| - 1], Segmenter.EndOfDocument, count, variant);
    }
    NoFlushBelowBudget(p, s, count, variant);
  }

  /** The handler as written: at "<eod>", `mem1` is emitted exactly when `reply > 0`, and
      afterwards both buffers are empty and the counters are zero. */
  lemma SessionEndFlush(lines: seq<string>, count: string -> nat, variant: Variant)
    ensures
      var before := Run(lines, count, variant);
      var after := Run(lines + [Segmenter.EndOfDocument], count, variant);
      && after.windows == before.windows + (if before.reply > 0 then [before.mem1] else [])
      && after == PackState([], [], 0, 0, 0, after.windows)
  {
    RunSnoc(lines, Segmenter.EndOfDocument, count, variant);
  }

  // ---------------------------------------------------------------------------
  // The reply counters

  /** Number of non-customer lines. */
  function Replies(s: seq<string>): (n: nat)
    ensures n <= |s|
    decreases |s|
  {
    if s == [] then 0
    else Replies(s[..|s| - 1]) + (if IsCustomerLine(s[|s| - 1]) then 0 else 1)
  }

  /** Number of non-customer lines after the last customer line. */
  function TrailingReplies(s: seq<string>): (n: nat)
    ensures n <= Replies(s)
    decreases |s|
  {
    if s == [] then 0
    else if IsCustomerLine(s[|s| - 1]) then 0
    else TrailingReplies(s[..|s| - 1]) + 1
  }

  predicate EndsWithReply(window: seq<string>) {
    |window| > 0 && !IsCustomerLine(window[|window| - 1])
  }

  lemma {:induction false} TrailingRepliesAreAll(s: seq<string>)
    requires CustomerOnlyFirst(s)
    ensures TrailingReplies(s) == Replies(s)
    decreases |s|
  {
    if s != [] && !IsCustomerLine(s[|s| - 1]) {
      TrailingRepliesAreAll(s[..|s| - 1]);
    } else if s != [] {
      assert |s| == 1;
      assert s[..0] == [];
    }
  }

  lemma SnocCounts(s: seq<string>, x: string)
    ensures Replies(s + [x]) == Replies(s) + (if IsCustomerLine(x) then 0 else 1)
    ensures TrailingReplies(s + [x]) == if IsCustomerLine(x) then 0 else TrailingReplies(s) + 1
  {
    assert (s + [x])[..|s|] == s;
  }

  /** With the correction, `reply` is the number of replies after the last customer line
      of `mem1`, and `reply2` the number of replies in `mem2`. */
  lemma {:induction false} CorrectedReplyCounts(lines: seq<string>, count: string -> nat)
    ensures Run(lines, count, Corrected).reply == TrailingReplies(Run(lines, count, Corrected).mem1)
    ensures Run(lines, count, Corrected).reply2 == Replies(Run(lines, count, Corrected).mem2)
    decreases |lines|
  {
    if lines != [] {
      var prev := lines[..|lines| - 1];
      var line := lines[|lines| - 1];
      assert lines == prev + [line];
      CorrectedReplyCounts(prev, count);
      RunKeepsInv(prev, count, Corrected);
      RunSnoc(prev, line, count, Corrected);
      CorrectedStepCounts(Run(prev, count, Corrected), prev, line, count);
    }
  }

  /** One step of the corrected loop keeps both reply counts exact. */
  lemma CorrectedStepCounts(st: PackState, lines: seq<string>, line: string, count: string -> nat)
    requires Inv(st, lines)
    requires st.reply == TrailingReplies(st.mem1) && st.reply2 == Replies(st.mem2)
    ensures Step(st, line, count, Corrected).reply
            == TrailingReplies(Step(st, line, count, Corrected).mem1)
    ensures Step(st, line, count, Corrected).reply2
            == Replies(Step(st, line, count, Corrected).mem2)
  {
    if line != Segmenter.EndOfDocument {
      var mid := Absorb(st, line, count, Corrected);
      SnocCounts(st.mem1, line);
      SnocCounts(st.mem2, line);
      if IsCustomerLine(line) {
        assert Replies([line]) == 0 by { SnocCounts([], line); assert [] + [line] == [line]; }
      }
      assert CustomerOnlyFirst(mid.mem2);
      TrailingRepliesAreAll(mid.mem2);
    }
  }

  /** With the correction, "<eod>" emits `mem1` exactly when it ends with a reply, so a
      window flushed at a session end always holds at least one agent reply. */
  lemma CorrectedSessionEnd(lines: seq<string>, count: string -> nat)
    ensures
      var before := Run(lines, count, Corrected);
      Windows(lines + [Segmenter.EndOfDocument], count, Corrected)
        == before.windows + (if EndsWithReply(before.mem1) then [before.mem1] else [])
    ensures
      var before := Run(lines, count, Corrected);
      EndsWithReply(before.mem1) ==> Replies(before.mem1) > 0
  {
    RunSnoc(lines, Segmenter.EndOfDocument, count, Corrected);
    CorrectedReplyCounts(lines, count);
    var m := Run(lines, count, Corrected).mem1;
    if EndsWithReply(m) {
      SnocCounts(m[..|m| - 1], m[|m| - 1]);
      assert m[..|m| - 1] + [m[|m| - 1]] == m;
    }
  }

  /** The token count used by the counterexample: 300 tokens for the second customer line. */
  function SpikeCount(s: string): (n: nat) {
    if s == "客户：c" then 300 else 1
  }

  /** The first three lines of the counterexample: the second customer line reaches the
      budget, so the window with all three lines is emitted and `mem1` restarts from it;
      as written `reply` becomes 1 there, corrected 0. */
  lemma SpikeRun(variant: Variant)
    ensures Run(["客户：a", "销售：b", "客户：c"], SpikeCount, variant)
            == PackState(["客户：c"], [], 300, if variant == Corrected then 0 else 1, 0,
                         [["客户：a", "销售：b", "客户：c"]])
  {
    var a, b, c := "客户：a", "销售：b", "客户：c";
    assert IsCustomerLine(a) && !IsCustomerLine(b) && IsCustomerLine(c) by {
      assert a[..2] == CustomerMark && c[..2] == CustomerMark && b[0] != CustomerMark[0];
    }
    assert a != Segmenter.EndOfDocument && b != Segmenter.EndOfDocument
        && c != Segmenter.EndOfDocument by {
      assert a[0] != '<' && b[0] != '<' && c[0] != '<';
    }
    assert SpikeCount(Join([c])) == 300;
    assert [a] == [] + [a];
    assert [a, b] == [a] + [b];
    assert [a, b, c] == [a, b] + [c];
    RunSnoc([], a, SpikeCount, variant);
    assert Run([a], SpikeCount, variant) == PackState([a], [a], 1, 0, 0, []);
    RunSnoc([a], b, SpikeCount, variant);
    assert Run([a, b], SpikeCount, variant) == PackState([a, b], [a, b], 2, 1, 1, []);
    RunSnoc([a, b], c, SpikeCount, variant);
  }

  /** As written, `reply2` still counts the replies of an earlier exchange when a forced
      flush copies it into `reply`, so the following "<eod>" emits a window that holds only
      a customer line. The corrected packer does not emit it. */
  lemma AsWrittenEmitsReplyFreeWindow()
    ensures
      var lines := ["客户：a", "销售：b", "客户：c", Segmenter.EndOfDocument];
      && Windows(lines, SpikeCount, AsWritten) == [["客户：a", "销售：b", "客户：c"], ["客户：c"]]
      && Replies(["客户：c"]) == 0
      && Windows(lines, SpikeCount, Corrected) == [["客户：a", "销售：b", "客户：c"]]
  {
    var a, b, c := "客户：a", "销售：b", "客户：c";
    assert IsCustomerLine(c) by { assert c[..2] == CustomerMark; }
    assert Replies([c]) == 0 by { SnocCounts([], c); assert [] + [c] == [c]; }
    assert [a, b, c, Segmenter.EndOfDocument] == [a, b, c] + [Segmenter.EndOfDocument];
    SpikeRun(AsWritten);
    SpikeRun(Corrected);
    RunSnoc([a, b, c], Segmenter.EndOfDocument, SpikeCount, AsWritten);
    RunSnoc([a, b, c], Segmenter.EndOfDocument, SpikeCount, Corrected);
  }

  /** A token counter that gives every line 100 tokens. */
  function FlatCount(s: string): (n: nat) {
    100
  }

  lemma ScenarioLineKinds()
    ensures IsCustomerLine("客户：a") && !IsCustomerLine("销售：b") && !IsCustomerLine("销售：c")
  {
    assert "客户：a"[..2] == CustomerMark;
    assert "销售：b"[0] != CustomerMark[0] && "销售：c"[0] != CustomerMark[0];
  }

  /** The first two lines stay below the budget. */
  lemma ScenarioTwoLines(variant: Variant)
    ensures Run(["客户：a", "销售：b"], FlatCount, variant)
            == PackState(["客户：a", "销售：b"], ["客户：a", "销售：b"], 200, 1, 1, [])
  {
    var a, b := "客户：a", "销售：b";
    ScenarioLineKinds();
    assert [a] == [] + [a];
    assert [a, b] == [a] + [b];
    RunSnoc([], a, FlatCount, variant);
    RunSnoc([a], b, FlatCount, variant);
  }

  /** The third line reaches 300 tokens: the window is emitted and `mem2` carried over. */
  lemma ScenarioThreeLines(variant: Variant)
    ensures Run(["客户：a", "销售：b", "销售：c"], FlatCount, variant)
            == PackState(["客户：a", "销售：b", "销售：c"], [], 100, 2, 0,
                         [["客户：a", "销售：b", "销售：c"]])
  {
    var a, b, c := "客户：a", "销售：b", "销售：c";
    ScenarioLineKinds();
    ScenarioTwoLines(variant);
    assert [a, b, c] == [a, b] + [c];
    RunSnoc([a, b], c, FlatCount, variant);
  }

  /** Three lines of 100 tokens each: the third reaches the budget and one window with all
      three lines is emitted; `mem1` restarts from `mem2`, which still holds all three, so a
      following "<eod>" emits the same lines again. */
  lemma ScenarioBudgetReached(variant: Variant)
    ensures
      var lines := ["客户：a", "销售：b", "销售：c"];
      && Windows(lines, FlatCount, variant) == [lines]
      && Windows(lines + [Segmenter.EndOfDocument], FlatCount, variant) == [lines, lines]
  {
    ScenarioThreeLines(variant);
    RunSnoc(["客户：a", "销售：b", "销售：c"], Segmenter.EndOfDocument, FlatCount, variant);
  }

  // ---------------------------------------------------------------------------
  // The handler

  /** PretrainingDataHandler.handle, up to the encoding of each window: one pass over the
      lines with two buffers and three counters. */
  method Pack(lines: seq<string>, count: string -> nat, variant: Variant)
    returns (windows: seq<seq<string>>)
    ensures windows == Windows(lines, count, variant)
    ensures |windows| <= |lines|
    ensures forall w :: w in windows ==>
              w != [] && Segmenter.EndOfDocument !in w && IsSliceOf(w, lines)
  {
    var mem1 := new LineList();
    var mem2 := new LineList();
    var curLen: nat := 0;
    var reply: nat := 0;
    var reply2: nat := 0;
    windows := [];
    ghost var st := Initial;
    for i := 0 to |lines|
      invariant fresh(mem1) && fresh(mem2) && mem1 != mem2
      invariant st == Run(lines[..i], count, variant)
      invariant mem1.items == st.mem1 && mem2.items == st.mem2 && curLen == st.curLen
      invariant reply == st.reply && reply2 == st.reply2 && windows == st.windows
    {
      var text := lines[i];
      RunPrefixStep(lines, i, count, variant);
      if text == Segmenter.EndOfDocument {
        if reply > 0 {
          windows := windows + [mem1.items];
        }
        mem1.Clear();
        mem2.Clear();
        curLen, reply, reply2 := 0, 0, 0;
        st := EndSession(st);
      } else {
        if IsCustomerLine(text) {
          mem2.Clear();
          reply := 0;
          if variant == Corrected {
            reply2 := 0;
          }
        } else {
          reply := reply + 1;
          reply2 := reply2 + 1;
        }
        mem1.Append(text);
        mem2.Append(text);
        curLen := curLen + count(text);
        st := Absorb(st, text, count, variant);
        if curLen >= Budget {
          var window := mem1.items;
          mem1 := new LineList.CopyOf(mem2);
          reply := reply2;
          reply2 := 0;
          curLen := count(Join(mem1.items));
          mem2.Clear();
          windows := windows + [window];
        }
        st := Flush(st, count);
      }
    }
    assert lines[..|lines|] == lines;
    WindowsWellFormed(lines, count, variant);
  }

  /** At most one window per line, and every window is a non-empty run of consecutive
      input lines without "<eod>". */
  lemma WindowsWellFormed(lines: seq<string>, count: string -> nat, variant: Variant)
    ensures |Windows(lines, count, variant)| <= |lines|
    ensures forall w :: w in Windows(lines, count, variant) ==>
              w != [] && Segmenter.EndOfDocument !in w && IsSliceOf(w, lines)
  {
    RunKeepsInv(lines, count, variant);
    WindowsOnlyGrow(lines, count, variant, 0);
    assert lines[..0] == [];
  }
}
