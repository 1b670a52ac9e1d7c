/**
  The expected outputs of `diffString` recorded in the project's unit tests,
  and one input that shows the end-of-string quirk.
 */
module DiffToolsExamples {

  import opened DiffTools
  import opened Decimal

  /**
    When two strings give a single run, the list is that run's entry in
    brackets, with the offset and length written in decimal.
   */
  lemma RenderSingle(left: string, right: string, r: Run, offsetText: string, lengthText: string)
    requires DiffRuns(left, right) == [r]
    requires NatToString(r.offset) == offsetText && NatToString(r.length) == lengthText
    ensures ListToString(RenderRuns(DiffRuns(left, right))) ==
      "[" + OffsetLabel + offsetText + LengthLabel + lengthText + "]"
  {
  }

  /** Identical strings: no difference at all. */
  lemma SameStringExample(left: string, right: string)
    requires left == "00000100000" && right == "00000100000"
    ensures DiffRuns(left, right) == []
  {
    NoRunsIffEqual(left, right);
  }

  /** A single difference at the first position. */
  lemma DifferenceAtBeginExample(left: string, right: string)
    requires left == "10000100000" && right == "00000100000"
    ensures DiffRuns(left, right) == [Run(0, 1)]
    ensures ListToString(RenderRuns(DiffRuns(left, right))) ==
      "[" + OffsetLabel + "0" + LengthLabel + "1" + "]"
  {
    SingleMismatch(left, right, 0);
    RenderSingle(left, right, Run(0, 1), "0", "1");
  }

  /** A single difference at the last position. */
  lemma DifferenceAtEndExample(left: string, right: string)
    requires left == "00000100000" && right == "00000100001"
    ensures DiffRuns(left, right) == [Run(10, 1)]
    ensures ListToString(RenderRuns(DiffRuns(left, right))) ==
      "[" + OffsetLabel + "10" + LengthLabel + "1" + "]"
  {
    SingleMismatch(left, right, 10);
    RenderSingle(left, right, Run(10, 1), "10", "1");
  }

  /**
    Any pair of 40-character strings that differ exactly at positions 0-1,
    10-12, 17-21 and 37-39 gives the four runs of the unit test.
   */
  lemma MultipleRunsPattern(left: string, right: string)
    requires |left| == |right| == 40
    requires forall q :: 0 <= q < 40 ==>
      (left[q] != right[q] <==> q < 2 || 10 <= q < 13 || 17 <= q < 22 || 37 <= q)
    ensures DiffRuns(left, right) == [Run(0, 2), Run(10, 3), Run(17, 5), Run(37, 3)]
  {
    RunReachingEnd(left, right, 23, 37);
    RunClosedByMatch(left, right, 14, 17, 22);
    RunClosedByMatch(left, right, 3, 10, 13);
    RunClosedByMatch(left, right, 0, 0, 2);
  }

  /**
    Four separate runs, the last one ending at the last position. The test's
    strings "1100000000111000011111000000000000000111" and forty "0"s are
    written in pieces that break at the run boundaries.
   */
  lemma MultipleRunsExample(left: string, right: string)
    requires left == "11" + "00000000" + "111" + "0000" + "11111" + "000000000000000" + "111"
    requires right == "00" + "00000000" + "000" + "0000" + "00000" + "000000000000000" + "000"
    ensures DiffRuns(left, right) == [Run(0, 2), Run(10, 3), Run(17, 5), Run(37, 3)]
    ensures ListToString(RenderRuns(DiffRuns(left, right))) ==
      "[" + (OffsetLabel + "0" + LengthLabel + "2") + ", " + (OffsetLabel + "10" + LengthLabel + "3") + ", " +
      (OffsetLabel + "17" + LengthLabel + "5") + ", " + (OffsetLabel + "37" + LengthLabel + "3") + "]"
  {
    MultipleRunsPattern(left, right);
    MultipleRunsRendered(left, right);
  }

  /** A list of four elements is written as the four in brackets, separated by ", ". */
  lemma ListOfFour(a: string, b: string, c: string, d: string)
    ensures ListToString([a, b, c, d]) == "[" + a + ", " + b + ", " + c + ", " + d + "]"
  {
    JoinAppend([a], b);
    JoinAppend([a, b], c);
    JoinAppend([a, b, c], d);
    assert [a] + [b] == [a, b] && [a, b] + [c] == [a, b, c] && [a, b, c] + [d] == [a, b, c, d];
  }

  /** The four runs of the unit test are rendered as four entries separated by ", ". */
  lemma MultipleRunsRendered(left: string, right: string)
    requires DiffRuns(left, right) == [Run(0, 2), Run(10, 3), Run(17, 5), Run(37, 3)]
    ensures ListToString(RenderRuns(DiffRuns(left, right))) ==
      "[" + (OffsetLabel + "0" + LengthLabel + "2") + ", " + (OffsetLabel + "10" + LengthLabel + "3") + ", " +
      (OffsetLabel + "17" + LengthLabel + "5") + ", " + (OffsetLabel + "37" + LengthLabel + "3") + "]"
  {
    var r1, r2, r3, r4 := Run(0, 2), Run(10, 3), Run(17, 5), Run(37, 3);
    assert RenderRuns(DiffRuns(left, right)) == [RenderRun(r1), RenderRun(r2), RenderRun(r3), RenderRun(r4)];
    ListOfFour(RenderRun(r1), RenderRun(r2), RenderRun(r3), RenderRun(r4));
    assert NatToString(0) == "0" && NatToString(2) == "2";
    assert NatToString(10) == "10" && NatToString(3) == "3";
    assert NatToString(17) == "17" && NatToString(5) == "5";
    assert NatToString(37) == "37";
  }

  /** Strings that differ everywhere: one run over the whole length. */
  lemma AllDifferentExample(left: string, right: string)
    requires left == "0000000000" && right == "1111111111"
    ensures DiffRuns(left, right) == [Run(0, 10)]
    ensures ListToString(RenderRuns(DiffRuns(left, right))) ==
      "[" + OffsetLabel + "0" + LengthLabel + "10" + "]"
  {
    AllDifferent(left, right);
    RenderSingle(left, right, Run(0, 10), "0", "10");
  }

  /** The end-of-string quirk: the last position agrees, yet the run takes it in. */
  lemma BoundaryQuirkExample(left: string, right: string)
    requires left == "10" && right == "00"
    ensures left[1] == right[1]
    ensures DiffRuns(left, right) == [Run(0, 2)]
    ensures ListToString(RenderRuns(DiffRuns(left, right))) ==
      "[" + OffsetLabel + "0" + LengthLabel + "2" + "]"
  {
    SingleMismatch(left, right, 0);
    RenderSingle(left, right, Run(0, 2), "0", "2");
  }
}
