/**
  The mismatch-run finder of the diff service (`DiffTools.diffString`).

  Two strings of the same length are scanned left to right; each maximal
  stretch of positions where they differ is reported as a run
  (offset, length), and the runs are rendered as
  "Offset: X & Lenght: Y" (the misspelling is the program's own).

  `RunsFrom` is the specification of the scan; `FindDifferences` and
  `DiffString` are the nested loops of the program, proved to compute it.
  One quirk of the program is kept on purpose: when the inner scan reaches
  the last index it always counts that index, whether or not the strings
  differ there (see `LastIndexAlwaysCounted`).
 */
module DiffTools {

  import opened Decimal

  datatype Option<T> = None | Some(value: T)

  /** A run of differing positions: `length` positions starting at `offset`. */
  datatype Run = Run(offset: nat, length: nat)

  /** One past the last position of a run. */
  function End(r: Run): nat {
    r.offset + r.length
  }

  predicate Covers(r: Run, q: int) {
    r.offset <= q < End(r)
  }

  /** Some run of `rs` covers position `q`. */
  ghost predicate Covered(rs: seq<Run>, q: int) {
    exists k :: 0 <= k < |rs| && Covers(rs[k], q)
  }

  // ---------------------------------------------------------------------
  // Specification of the scan

  /**
    Where the inner scan, started at a differing index `j`, stops: the first
    index from `j` on at which the strings agree, or the last index.
   */
  function ScanEnd(a: seq<char>, b: seq<char>, j: nat): (e: nat)
    requires |a| == |b| && j < |a|
    ensures j <= e < |a|
    ensures forall q :: j <= q < e ==> a[q] != b[q]
    ensures e == |a| - 1 || a[e] == b[e]
    decreases |a| - j
  {
    if a[j] != b[j] && j + 1 != |a| then ScanEnd(a, b, j + 1) else j
  }

  /**
    The length recorded for a run that starts at `i` and whose scan stopped
    at `e`: the positions before `e`, plus `e` itself when `e` is the last
    index (the program adds 1 there without looking at the characters).
   */
  function RunLength(i: nat, e: nat, n: nat): nat
    requires i <= e
  {
    (e - i) + (if e + 1 == n then 1 else 0)
  }

  /** The runs the scan reports when its outer index starts at `i`. */
  function RunsFrom(a: seq<char>, b: seq<char>, i: nat): seq<Run>
    requires |a| == |b| && i <= |a|
    decreases |a| - i
  {
    if i == |a| then []
    else if a[i] == b[i] then RunsFrom(a, b, i + 1)
    else
      var e := ScanEnd(a, b, i);
      [Run(i, RunLength(i, e, |a|))] + RunsFrom(a, b, e + 1)
  }

  /** The runs `diffString` reports: none at all when the lengths differ. */
  function DiffRuns(left: seq<char>, right: seq<char>): seq<Run> {
    if |left| == |right| then RunsFrom(left, right, 0) else []
  }

  // ---------------------------------------------------------------------
  // Rendering

  const OffsetLabel := "Offset: "
  const LengthLabel := " & Lenght: "

  /** One entry of the list `diffString` returns. */
  function RenderRun(r: Run): string {
    OffsetLabel + NatToString(r.offset) + LengthLabel + NatToString(r.length)
  }

  function RenderRuns(rs: seq<Run>): (strs: seq<string>)
    ensures |strs| == |rs|
    ensures forall k :: 0 <= k < |rs| ==> strs[k] == RenderRun(rs[k])
  {
    seq(|rs|, k requires 0 <= k < |rs| => RenderRun(rs[k]))
  }

  /** The elements joined by ", ". */
  function Join(strs: seq<string>): string {
    if strs == [] then ""
    else if |strs| == 1 then strs[0]
    else strs[0] + ", " + Join(strs[1..])
  }

  /** `toString` of a Java list of strings: the elements in brackets, separated by ", ". */
  function ListToString(strs: seq<string>): string {
    "[" + Join(strs) + "]"
  }

  /** Reads one rendered entry back; the inverse of `RenderRun`. */
  function ParseRun(s: string): Option<Run> {
    if |s| < |OffsetLabel| || s[..|OffsetLabel|] != OffsetLabel then None
    else
      var rest := s[|OffsetLabel|..];
      var k := DigitPrefix(rest);
      var tail := rest[k..];
      if k == 0 || |tail| < |LengthLabel| || tail[..|LengthLabel|] != LengthLabel then None
      else
        var num := tail[|LengthLabel|..];
        if num == [] || DigitPrefix(num) != |num| then None
        else Some(Run(DigitsValue(rest[..k]), DigitsValue(num)))
  }

  // ---------------------------------------------------------------------
  // Properties of the runs

  /**
    The runs found from `p` on lie in [p, n), are non-empty, and come in
    strictly ascending order with at least one position between one run and
    the next.
   */
  ghost predicate Ordered(rs: seq<Run>, p: nat, n: nat) {
    (forall k :: 0 <= k < |rs| ==> p <= rs[k].offset && 1 <= rs[k].length && End(rs[k]) <= n) &&
    (forall k, m :: 0 <= k < m < |rs| ==> End(rs[k]) < rs[m].offset)
  }

  /** A run placed before ordered runs, ending before the first of them begins, keeps them ordered. */
  lemma OrderedCons(head: Run, rest: seq<Run>, p: nat, q: nat, n: nat)
    requires Ordered(rest, q, n)
    requires p <= head.offset && 1 <= head.length && End(head) <= n
    requires rest != [] ==> End(head) < q
    ensures Ordered([head] + rest, p, n)
  {
  }

  lemma {:induction false} RunsFromOrdered(a: seq<char>, b: seq<char>, p: nat)
    requires |a| == |b| && p <= |a|
    ensures Ordered(RunsFrom(a, b, p), p, |a|)
    decreases |a| - p
  {
    if p < |a| {
      if a[p] == b[p] {
        RunsFromOrdered(a, b, p + 1);
      } else {
        var e := ScanEnd(a, b, p);
        var rest := RunsFrom(a, b, e + 1);
        RunsFromOrdered(a, b, e + 1);
        var head := Run(p, RunLength(p, e, |a|));
        assert RunsFrom(a, b, p) == [head] + rest;
        assert e + 1 == |a| ==> rest == [];
        OrderedCons(head, rest, p, e + 1, |a|);
      }
    }
  }

  /**
    A run found from `p` on starts at a differing position, and the position
    before it, when that is at or after `p`, agrees.
   */
  predicate StartsAtMismatch(a: seq<char>, b: seq<char>, p: nat, r: Run)
    requires |a| == |b|
  {
    r.offset < |a| && a[r.offset] != b[r.offset] &&
    (r.offset > p ==> a[r.offset - 1] == b[r.offset - 1])
  }

  /** Every run starts at a differing position, and the position before it (if any, from `p` on) agrees. */
  lemma {:induction false} RunsFromStartAtMismatch(a: seq<char>, b: seq<char>, p: nat)
    requires |a| == |b| && p <= |a|
    ensures forall k :: 0 <= k < |RunsFrom(a, b, p)| ==> StartsAtMismatch(a, b, p, RunsFrom(a, b, p)[k])
    decreases |a| - p
  {
    if p < |a| {
      if a[p] == b[p] {
        RunsFromStartAtMismatch(a, b, p + 1);
        forall k | 0 <= k < |RunsFrom(a, b, p)|
          ensures StartsAtMismatch(a, b, p, RunsFrom(a, b, p)[k])
        {
          assert StartsAtMismatch(a, b, p + 1, RunsFrom(a, b, p + 1)[k]);
        }
      } else {
        var e := ScanEnd(a, b, p);
        var rest := RunsFrom(a, b, e + 1);
        RunsFromStartAtMismatch(a, b, e + 1);
        RunsFromOrdered(a, b, e + 1);
        assert RunsFrom(a, b, p) == [Run(p, RunLength(p, e, |a|))] + rest;
        forall k | 0 <= k < |rest|
          ensures StartsAtMismatch(a, b, p, rest[k])
        {
          assert StartsAtMismatch(a, b, e + 1, rest[k]);
          assert e + 1 <= rest[k].offset < |a|;
        }
      }
    }
  }

  /**
    Inside a run the strings differ at every position, except possibly at
    the last index of the strings; a run that ends before the end of the
    strings is closed by a position where they agree.
   */
  lemma {:induction false} RunsFromInside(a: seq<char>, b: seq<char>, p: nat)
    requires |a| == |b| && p <= |a|
    ensures forall k, q :: 0 <= k < |RunsFrom(a, b, p)| && Covers(RunsFrom(a, b, p)[k], q) && q + 1 < |a| ==>
      a[q] != b[q]
    ensures forall k :: 0 <= k < |RunsFrom(a, b, p)| && End(RunsFrom(a, b, p)[k]) < |a| ==>
      End(RunsFrom(a, b, p)[k]) + 1 < |a| && a[End(RunsFrom(a, b, p)[k])] == b[End(RunsFrom(a, b, p)[k])]
    decreases |a| - p
  {
    if p < |a| {
      if a[p] == b[p] {
        RunsFromInside(a, b, p + 1);
      } else {
        var e := ScanEnd(a, b, p);
        RunsFromInside(a, b, e + 1);
        assert RunsFrom(a, b, p) == [Run(p, RunLength(p, e, |a|))] + RunsFrom(a, b, e + 1);
      }
    }
  }

  /** Every position from `p` on where the strings differ lies inside some run. */
  lemma {:induction false} RunsFromCover(a: seq<char>, b: seq<char>, p: nat)
    requires |a| == |b| && p <= |a|
    ensures forall q :: p <= q < |a| && a[q] != b[q] ==> Covered(RunsFrom(a, b, p), q)
    decreases |a| - p
  {
    if p < |a| {
      var rs := RunsFrom(a, b, p);
      if a[p] == b[p] {
        RunsFromCover(a, b, p + 1);
        assert rs == RunsFrom(a, b, p + 1);
        forall q | p <= q < |a| && a[q] != b[q]
          ensures Covered(rs, q)
        {
          var k :| 0 <= k < |RunsFrom(a, b, p + 1)| && Covers(RunsFrom(a, b, p + 1)[k], q);
          assert rs[k] == RunsFrom(a, b, p + 1)[k];
        }
      } else {
        var e := ScanEnd(a, b, p);
        var tail := RunsFrom(a, b, e + 1);
        RunsFromCover(a, b, e + 1);
        assert rs == [Run(p, RunLength(p, e, |a|))] + tail;
        forall q | p <= q < |a| && a[q] != b[q]
          ensures Covered(rs, q)
        {
          if q <= e {
            assert q < e || e + 1 == |a|;
            assert rs[0] == Run(p, RunLength(p, e, |a|));
            assert Covers(rs[0], q);
          } else {
            var k :| 0 <= k < |tail| && Covers(tail[k], q);
            assert rs[k + 1] == tail[k];
            assert Covers(rs[k + 1], q);
          }
        }
      }
    }
  }

  /** Positions from `i` up to `p` all agree, so the scan from `i` finds what the scan from `p` finds. */
  lemma {:induction false} SkipAgreeing(a: seq<char>, b: seq<char>, i: nat, p: nat)
    requires |a| == |b| && i <= p <= |a|
    requires forall q :: i <= q < p ==> a[q] == b[q]
    ensures RunsFrom(a, b, i) == RunsFrom(a, b, p)
    decreases p - i
  {
    if i < p {
      SkipAgreeing(a, b, i + 1, p);
    }
  }

  /**
    A stretch of agreeing positions from `p`, then differing positions from
    `i` up to an agreeing index `e` before the last: the scan reports the run
    (i, e - i) and resumes after `e`.
   */
  lemma RunClosedByMatch(a: seq<char>, b: seq<char>, p: nat, i: nat, e: nat)
    requires |a| == |b| && p <= i < e && e + 1 < |a|
    requires forall q :: p <= q < i ==> a[q] == b[q]
    requires forall q :: i <= q < e ==> a[q] != b[q]
    requires a[e] == b[e]
    ensures RunsFrom(a, b, p) == [Run(i, e - i)] + RunsFrom(a, b, e + 1)
  {
    SkipAgreeing(a, b, p, i);
    assert ScanEnd(a, b, i) == e;
  }

  /**
    Agreeing positions from `p`, then a difference at `i` and at every later
    position except possibly the last: the scan reports the single run
    (i, n - i), which takes in the last index whatever its characters.
   */
  lemma RunReachingEnd(a: seq<char>, b: seq<char>, p: nat, i: nat)
    requires |a| == |b| && p <= i < |a|
    requires forall q :: p <= q < i ==> a[q] == b[q]
    requires forall q :: i <= q < |a| - 1 ==> a[q] != b[q]
    requires a[i] != b[i]
    ensures RunsFrom(a, b, p) == [Run(i, |a| - i)]
  {
    SkipAgreeing(a, b, p, i);
    assert ScanEnd(a, b, i) == |a| - 1;
    assert RunsFrom(a, b, |a|) == [];
  }

  // ---------------------------------------------------------------------
  // Properties of diffString's result

  /** Strings of different lengths give no runs. */
  lemma UnequalLengthsNoRuns(left: seq<char>, right: seq<char>)
    requires |left| != |right|
    ensures DiffRuns(left, right) == []
  {
  }

  /** Runs are non-empty, inside the strings, ascending, non-overlapping and never adjacent. */
  lemma RunsOrdered(left: seq<char>, right: seq<char>)
    ensures Ordered(DiffRuns(left, right), 0, |left|)
  {
    if |left| == |right| {
      RunsFromOrdered(left, right, 0);
    }
  }

  /**
    Every run starts at a differing position that is the first of its
    stretch, differs at each of its positions except possibly the last index
    of the strings, and ends at an agreeing position or at the end.
   */
  lemma RunsAreMismatchSpans(left: seq<char>, right: seq<char>)
    requires |left| == |right|
    ensures forall k :: 0 <= k < |DiffRuns(left, right)| ==> StartsAtMismatch(left, right, 0, DiffRuns(left, right)[k])
    ensures forall k, q :: 0 <= k < |DiffRuns(left, right)| && Covers(DiffRuns(left, right)[k], q) && q + 1 < |left| ==>
      left[q] != right[q]
    ensures forall k :: 0 <= k < |DiffRuns(left, right)| && End(DiffRuns(left, right)[k]) < |left| ==>
      End(DiffRuns(left, right)[k]) + 1 < |left| &&
      left[End(DiffRuns(left, right)[k])] == right[End(DiffRuns(left, right)[k])]
  {
    RunsFromStartAtMismatch(left, right, 0);
    RunsFromInside(left, right, 0);
  }

  /**
    Away from the last index, a position lies inside a run exactly when the
    strings differ there; at the last index, a difference implies it is
    covered.
   */
  lemma MismatchIffCovered(left: seq<char>, right: seq<char>, q: nat)
    requires |left| == |right| && q < |left|
    ensures left[q] != right[q] ==> Covered(DiffRuns(left, right), q)
    ensures q + 1 < |left| && Covered(DiffRuns(left, right), q) ==> left[q] != right[q]
  {
    assert DiffRuns(left, right) == RunsFrom(left, right, 0);
    RunsFromCover(left, right, 0);
    RunsFromInside(left, right, 0);
  }

  /** For strings of equal length, there are no runs exactly when the strings are equal. */
  lemma NoRunsIffEqual(left: seq<char>, right: seq<char>)
    requires |left| == |right|
    ensures DiffRuns(left, right) == [] <==> left == right
  {
    if left == right {
      SkipAgreeing(left, right, 0, |left|);
    } else {
      var q :| 0 <= q < |left| && left[q] != right[q];
      RunsFromCover(left, right, 0);
    }
  }

  /**
    The end-of-string quirk: when the inner scan reaches the last index, that
    index is counted even if the strings agree there. A run at the next to
    last position is then reported with length 2.
   */
  lemma LastIndexAlwaysCounted(left: seq<char>, right: seq<char>)
    requires |left| == |right| >= 2
    requires left[|left| - 2] != right[|left| - 2] && left[|left| - 1] == right[|left| - 1]
    ensures DiffRuns(left, right) != []
    ensures End(DiffRuns(left, right)[|DiffRuns(left, right)| - 1]) == |left|
  {
    var n := |left|;
    var rs := DiffRuns(left, right);
    assert rs == RunsFrom(left, right, 0);
    RunsFromCover(left, right, 0);
    RunsFromOrdered(left, right, 0);
    RunsFromInside(left, right, 0);
    var k :| 0 <= k < |rs| && Covers(rs[k], n - 2);
    assert End(rs[k]) == n;
    assert k == |rs| - 1;
  }

  /**
    Strings that differ at exactly one position `p` give the single run
    (p, 1), except when `p` is the next to last index, where the quirk gives
    (p, 2).
   */
  lemma {:induction false} SingleMismatch(left: seq<char>, right: seq<char>, p: nat)
    requires |left| == |right| && p < |left|
    requires forall q :: 0 <= q < |left| ==> (left[q] != right[q] <==> q == p)
    ensures DiffRuns(left, right) == [Run(p, if p + 2 == |left| then 2 else 1)]
  {
    var n := |left|;
    SkipAgreeing(left, right, 0, p);
    var e := ScanEnd(left, right, p);
    if p + 1 < n {
      assert ScanEnd(left, right, p + 1) == p + 1;
    }
    assert e == if p + 1 == n then p else p + 1;
    SkipAgreeing(left, right, e + 1, n);
  }

  /** Strings that differ everywhere give a single run over the whole length. */
  lemma AllDifferent(left: seq<char>, right: seq<char>)
    requires |left| == |right| >= 1
    requires forall q :: 0 <= q < |left| ==> left[q] != right[q]
    ensures DiffRuns(left, right) == [Run(0, |left|)]
  {
    assert ScanEnd(left, right, 0) == |left| - 1;
    assert RunsFrom(left, right, |left|) == [];
    assert DiffRuns(left, right) == [Run(0, RunLength(0, |left| - 1, |left|))] + RunsFrom(left, right, |left|);
  }

  /**
    The rendered list is "[]" exactly when the strings (of equal length) are
    equal: "inputs have the same size" with an empty offset list means the
    decoded texts are the same.
   */
  lemma RenderedEmptyIffEqual(left: seq<char>, right: seq<char>)
    requires |left| == |right|
    ensures ListToString(RenderRuns(DiffRuns(left, right))) == "[]" <==> left == right
  {
    NoRunsIffEqual(left, right);
    var strs := RenderRuns(DiffRuns(left, right));
    if strs != [] {
      assert |Join(strs)| >= |strs[0]| > 0;
      assert |ListToString(strs)| > 2;
    }
  }

  /** Reading a rendered entry back gives the run. */
  lemma RenderRunRoundTrip(r: Run)
    ensures ParseRun(RenderRun(r)) == Some(r)
  {
    var off, len := NatToString(r.offset), NatToString(r.length);
    var s := RenderRun(r);
    assert s[..|OffsetLabel|] == OffsetLabel;
    var rest := s[|OffsetLabel|..];
    assert rest == off + (LengthLabel + len);
    DigitPrefixOfConcat(off, LengthLabel + len);
    assert rest[..|off|] == off;
    assert rest[|off|..] == LengthLabel + len;
    assert (LengthLabel + len)[|LengthLabel|..] == len;
    assert DigitPrefix(len) == |len| by {
      assert len[..|len|] == len;
    }
    NatToStringRoundTrip(r.offset);
    NatToStringRoundTrip(r.length);
  }

  /** Different runs are rendered differently. */
  lemma RenderRunInjective(r1: Run, r2: Run)
    requires RenderRun(r1) == RenderRun(r2)
    ensures r1 == r2
  {
    RenderRunRoundTrip(r1);
    RenderRunRoundTrip(r2);
  }

  /** Every entry of a rendered list reads back to its run. */
  lemma RenderRunsRoundTrip(rs: seq<Run>)
    ensures forall k :: 0 <= k < |rs| ==> ParseRun(RenderRuns(rs)[k]) == Some(rs[k])
  {
    forall k | 0 <= k < |rs|
      ensures ParseRun(RenderRuns(rs)[k]) == Some(rs[k])
    {
      RenderRunRoundTrip(rs[k]);
    }
  }

  /** Different run lists are rendered as different lists of entries. */
  lemma RenderRunsInjective(rs1: seq<Run>, rs2: seq<Run>)
    requires RenderRuns(rs1) == RenderRuns(rs2)
    ensures rs1 == rs2
  {
    RenderRunsRoundTrip(rs1);
    RenderRunsRoundTrip(rs2);
    forall k | 0 <= k < |rs1|
      ensures rs1[k] == rs2[k]
    {
      assert ParseRun(RenderRuns(rs1)[k]) == Some(rs2[k]);
    }
  }

  /**
    The list text is built as Java's `toString` builds it, one element after
    another: appending an element to a non-empty list adds ", " and the element.
   */
  lemma {:induction false} JoinAppend(strs: seq<string>, s: string)
    requires strs != []
    ensures Join(strs + [s]) == Join(strs) + ", " + s
    decreases |strs|
  {
    if |strs| == 1 {
      assert (strs + [s])[1..] == [s];
    } else {
      assert (strs + [s])[1..] == strs[1..] + [s];
      JoinAppend(strs[1..], s);
    }
  }

  // ---------------------------------------------------------------------
  // The program: the nested loops and the rendering loop

  /**
    The scan of `diffString`: an outer index looks for a differing position,
    an inner index extends the run, the run is recorded and the outer index
    resumes after the index that closed it. `difference` stands for the
    program's insertion-ordered map from offset to length; its offsets are
    strictly ascending (`RunsOrdered`), so no entry is ever overwritten and
    a sequence of pairs in insertion order is the same thing.
   */
  method FindDifferences(left: seq<char>, right: seq<char>) returns (difference: seq<Run>)
    ensures difference == DiffRuns(left, right)
  {
    difference := [];
    var lenght := 0;
    if |left| == |right| {
      var n := |left|;
      var i := 0;
      while i < n
        invariant 0 <= i <= n
        invariant difference + RunsFrom(left, right, i) == RunsFrom(left, right, 0)
      {
        lenght := 0;
        if left[i] != right[i] {
          var j := i;
          while left[j] != right[j] && j + 1 != n
            invariant i <= j < n
            invariant lenght == j - i
            invariant ScanEnd(left, right, j) == ScanEnd(left, right, i)
            decreases n - j
          {
            lenght := lenght + 1;
            j := j + 1;
          }
          if j + 1 == n {
            lenght := lenght + 1;
          }
          difference := difference + [Run(i, lenght)];
          i := j;
        }
        i := i + 1;
      }
    }
  }

  /** `diffString`: the runs, rendered one entry per run in discovery order. */
  method DiffString(left: seq<char>, right: seq<char>) returns (strList: seq<string>)
    ensures strList == RenderRuns(DiffRuns(left, right))
  {
    var difference := FindDifferences(left, right);
    strList := [];
    var k := 0;
    while k < |difference|
      invariant 0 <= k <= |difference|
      invariant strList == RenderRuns(difference[..k])
    {
      strList := strList + [RenderRun(difference[k])];
      k := k + 1;
    }
    assert difference[..k] == difference;
  }
}
