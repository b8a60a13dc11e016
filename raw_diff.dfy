/**
 * The Raw Byte Differ (diff_rawdata): compares two byte ranges position by
 * position up to the longer length. A position past the end of one range
 * reads as "absent" (the program's -1 sentinel), which no byte equals. The
 * first `cap` differing positions are reported after a one-time heading; at
 * the next difference a single snip notice is reported and the scan stops.
 */
module RawDiff {
  import opened PeImage

  /** What one range holds at a position: a byte, or nothing past its end. */
  datatype Cell = Absent | Present(byte: Byte)

  function At(p: seq<Byte>, i: nat): (c: Cell)
    ensures c == Absent <==> i >= |p|
  {
    if i < |p| then Present(p[i]) else Absent
  }

  /** The program's reading of a position: the byte, or -1 past the end. */
  function Sentinel(p: seq<Byte>, i: nat): (c: int)
    ensures -1 <= c < 0x100
  {
    if i < |p| then p[i] else -1
  }

  /** The -1 sentinel decides equality exactly as the cells do. */
  lemma SentinelAgrees(p1: seq<Byte>, p2: seq<Byte>, i: nat)
    ensures Sentinel(p1, i) == Sentinel(p2, i) <==> At(p1, i) == At(p2, i)
  {
  }

  /**
   * One reported event: the heading (printed once, before the first
   * difference), a differing position with both sides, or the snip notice.
   * A Difference whose left is Absent is only in the second range, one whose
   * right is Absent only in the first.
   */
  datatype RawEvent = Heading | Difference(offset: nat, left: Cell, right: Cell) | Snip(cap: nat)

  /** The differing positions below k, in increasing order. */
  function DiffPositions(p1: seq<Byte>, p2: seq<Byte>, k: nat): (d: seq<nat>)
    ensures |d| <= k
  {
    if k == 0 then [] else DiffPositions(p1, p2, k - 1) + (if At(p1, k - 1) != At(p2, k - 1) then [k - 1] else [])
  }

  /** Every position found below k is below k and differs. */
  lemma {:induction false} DiffPositionsSound(p1: seq<Byte>, p2: seq<Byte>, k: nat)
    ensures forall j :: 0 <= j < |DiffPositions(p1, p2, k)| ==>
      DiffPositions(p1, p2, k)[j] < k && At(p1, DiffPositions(p1, p2, k)[j]) != At(p2, DiffPositions(p1, p2, k)[j])
  {
    if k > 0 {
      DiffPositionsSound(p1, p2, k - 1);
      var d := DiffPositions(p1, p2, k - 1);
      if At(p1, k - 1) != At(p2, k - 1) {
        assert DiffPositions(p1, p2, k) == d + [k - 1];
      }
    }
  }

  /** Every differing position below k is found. */
  lemma {:induction false} DiffPositionsComplete(p1: seq<Byte>, p2: seq<Byte>, k: nat)
    ensures forall i :: 0 <= i < k && At(p1, i) != At(p2, i) ==> i in DiffPositions(p1, p2, k)
  {
    if k > 0 {
      DiffPositionsComplete(p1, p2, k - 1);
      var d := DiffPositions(p1, p2, k - 1);
      assert DiffPositions(p1, p2, k) == d + (if At(p1, k - 1) != At(p2, k - 1) then [k - 1] else []);
    }
  }

  /** The positions found below k are in strictly increasing order. */
  lemma {:induction false} DiffPositionsSorted(p1: seq<Byte>, p2: seq<Byte>, k: nat)
    ensures forall a, b :: 0 <= a < b < |DiffPositions(p1, p2, k)| ==> DiffPositions(p1, p2, k)[a] < DiffPositions(p1, p2, k)[b]
  {
    if k > 0 {
      DiffPositionsSorted(p1, p2, k - 1);
      DiffPositionsSound(p1, p2, k - 1);
      var d := DiffPositions(p1, p2, k - 1);
      if At(p1, k - 1) != At(p2, k - 1) {
        var e := d + [k - 1];
        assert DiffPositions(p1, p2, k) == e;
        assert forall a :: 0 <= a < |d| ==> e[a] == d[a] < k - 1;
      }
    }
  }

  /**
   * The positions found below k are exactly the differing ones, each once,
   * in increasing order.
   */
  lemma DiffPositionsMeaning(p1: seq<Byte>, p2: seq<Byte>, k: nat)
    ensures forall j :: 0 <= j < |DiffPositions(p1, p2, k)| ==>
      DiffPositions(p1, p2, k)[j] < k && At(p1, DiffPositions(p1, p2, k)[j]) != At(p2, DiffPositions(p1, p2, k)[j])
    ensures forall i :: 0 <= i < k && At(p1, i) != At(p2, i) ==> i in DiffPositions(p1, p2, k)
    ensures forall a, b :: 0 <= a < b < |DiffPositions(p1, p2, k)| ==> DiffPositions(p1, p2, k)[a] < DiffPositions(p1, p2, k)[b]
  {
    DiffPositionsSound(p1, p2, k);
    DiffPositionsComplete(p1, p2, k);
    DiffPositionsSorted(p1, p2, k);
  }

  /** All differing positions of the two ranges. */
  function Differences(p1: seq<Byte>, p2: seq<Byte>): seq<nat> {
    DiffPositions(p1, p2, Max(|p1|, |p2|))
  }

  /** Scanning further only adds positions at the end. */
  lemma {:induction false} DiffPositionsPrefix(p1: seq<Byte>, p2: seq<Byte>, k: nat, m: nat)
    requires k <= m
    ensures DiffPositions(p1, p2, k) <= DiffPositions(p1, p2, m)
    decreases m - k
  {
    if k < m {
      DiffPositionsPrefix(p1, p2, k, m - 1);
    }
  }

  /**
   * Two ranges have no differing position exactly when they are equal; a
   * length difference always shows, since absent never equals a byte.
   */
  lemma DifferencesEmptyIff(p1: seq<Byte>, p2: seq<Byte>)
    ensures Differences(p1, p2) == [] <==> p1 == p2
  {
    var n := Max(|p1|, |p2|);
    DiffPositionsMeaning(p1, p2, n);
    if Differences(p1, p2) == [] {
      forall i | 0 <= i < |p1|
        ensures p1[i] == p2[i]
      {
        assert At(p1, i) == At(p2, i);
      }
    } else {
      var j := Differences(p1, p2)[0];
      assert At(p1, j) != At(p2, j);
    }
  }

  /** Changing one byte gives exactly that one differing position. */
  lemma {:induction false} SingleByteChange(p: seq<Byte>, k: nat, b: Byte, m: nat)
    requires k < |p| && b != p[k] && m <= |p|
    ensures DiffPositions(p, p[k := b], m) == if k < m then [k] else []
  {
    if m > 0 {
      SingleByteChange(p, k, b, m - 1);
      var q := p[k := b];
      assert At(p, m - 1) != At(q, m - 1) <==> m - 1 == k;
      assert DiffPositions(p, q, m) == DiffPositions(p, q, m - 1) + (if m - 1 == k then [m - 1] else []);
    }
  }

  /** The Difference events for the first n differing positions. */
  function DifferenceEvents(p1: seq<Byte>, p2: seq<Byte>, d: seq<nat>, n: nat): seq<RawEvent>
    requires n <= |d|
  {
    seq(n, j requires 0 <= j < n => Difference(d[j], At(p1, d[j]), At(p2, d[j])))
  }

  /**
   * What diff_rawdata reports with cap `cap`: nothing for equal ranges;
   * otherwise the heading, the first min(M, cap) of the M differences in
   * increasing order, and the snip notice when M exceeds the cap.
   */
  function Reported(p1: seq<Byte>, p2: seq<Byte>, cap: nat): seq<RawEvent> {
    var d := Differences(p1, p2);
    if d == [] then []
    else
      var n := Min(|d|, cap);
      [Heading] + DifferenceEvents(p1, p2, d, n) + (if |d| > cap then [Snip(cap)] else [])
  }

  /** Nothing is reported exactly when the ranges are equal. */
  lemma ReportedEmptyIff(p1: seq<Byte>, p2: seq<Byte>, cap: nat)
    ensures Reported(p1, p2, cap) == [] <==> p1 == p2
  {
    DifferencesEmptyIff(p1, p2);
  }

  /** A report on differing ranges: the heading, the first min(M, cap) Difference events, then the snip notice when M exceeds the cap. */
  lemma ReportedLayout(p1: seq<Byte>, p2: seq<Byte>, cap: nat)
    requires p1 != p2
    ensures var d := Differences(p1, p2);
      && d != []
      && Reported(p1, p2, cap) == [Heading] + DifferenceEvents(p1, p2, d, Min(|d|, cap)) + (if |d| > cap then [Snip(cap)] else [])
  {
    DifferencesEmptyIff(p1, p2);
  }

  /**
   * The shape of a report on differing ranges: the heading once, first;
   * min(M, cap) Difference events in increasing offset order, each with the
   * two sides at its offset; and the snip notice, last, exactly when there
   * are more than cap differences.
   */
  lemma ReportedShape(p1: seq<Byte>, p2: seq<Byte>, cap: nat)
    requires p1 != p2
    ensures var r, d := Reported(p1, p2, cap), Differences(p1, p2);
      && |r| == 1 + Min(|d|, cap) + (if |d| > cap then 1 else 0)
      && r[0] == Heading && Heading !in r[1..]
      && (forall j :: 1 <= j <= Min(|d|, cap) ==>
            r[j].Difference? && r[j].offset == d[j - 1] &&
            r[j].left == At(p1, d[j - 1]) && r[j].right == At(p2, d[j - 1]) && r[j].left != r[j].right)
      && (forall j, k :: 1 <= j < k <= Min(|d|, cap) ==> r[j].offset < r[k].offset)
      && (Snip(cap) in r <==> |d| > cap)
      && (forall j :: 0 <= j < |r| && r[j].Snip? ==> j == |r| - 1)
  {
    ReportedLayout(p1, p2, cap);
    var d := Differences(p1, p2);
    var n := Min(|d|, cap);
    var events := DifferenceEvents(p1, p2, d, n);
    var tail := if |d| > cap then [Snip(cap)] else [];
    var r := Reported(p1, p2, cap);
    assert r == [Heading] + events + tail;
    assert r[1..] == events + tail;
    forall j | 1 <= j <= n
      ensures r[j] == events[j - 1]
    {
    }
    DiffPositionsMeaning(p1, p2, Max(|p1|, |p2|));
  }

  /** The events reported once the positions below i have been scanned. */
  function ReportedSoFar(p1: seq<Byte>, p2: seq<Byte>, i: nat): seq<RawEvent> {
    var d := DiffPositions(p1, p2, i);
    if d == [] then [] else [Heading] + DifferenceEvents(p1, p2, d, |d|)
  }

  /** One scan step that finds a difference within the cap appends its Difference event. */
  lemma ReportedSoFarStep(p1: seq<Byte>, p2: seq<Byte>, i: nat)
    requires At(p1, i) != At(p2, i)
    ensures ReportedSoFar(p1, p2, i + 1) ==
      (if DiffPositions(p1, p2, i) == [] then [Heading] else ReportedSoFar(p1, p2, i)) + [Difference(i, At(p1, i), At(p2, i))]
  {
    var d := DiffPositions(p1, p2, i);
    var e := DiffPositions(p1, p2, i + 1);
    assert e == d + [i];
    assert DifferenceEvents(p1, p2, e, |e|) == DifferenceEvents(p1, p2, d, |d|) + [Difference(i, At(p1, i), At(p2, i))];
  }

  /** The scan ran to the end within the cap: everything found is reported. */
  lemma ReportedComplete(p1: seq<Byte>, p2: seq<Byte>, cap: nat)
    requires |Differences(p1, p2)| <= cap
    ensures Reported(p1, p2, cap) == ReportedSoFar(p1, p2, Max(|p1|, |p2|))
  {
  }

  /** The scan stopped at the difference past the cap: the snip closes the report. */
  lemma ReportedSnipped(p1: seq<Byte>, p2: seq<Byte>, cap: nat, i: nat)
    requires i < Max(|p1|, |p2|)
    requires At(p1, i) != At(p2, i) && |DiffPositions(p1, p2, i)| == cap
    ensures p1 != p2 && |Differences(p1, p2)| > cap && Differences(p1, p2)[cap] == i
    ensures Reported(p1, p2, cap) ==
      (if cap == 0 then [Heading] else ReportedSoFar(p1, p2, i)) + [Snip(cap)]
  {
    var d := DiffPositions(p1, p2, i);
    var all := Differences(p1, p2);
    DiffPositionsPrefix(p1, p2, i + 1, Max(|p1|, |p2|));
    assert DiffPositions(p1, p2, i + 1) == d + [i];
    assert all[..cap + 1] == d + [i];
    assert |all| > cap && all[cap] == i;
    DifferencesEmptyIff(p1, p2);
    assert all[..cap] == d;
    var events := DifferenceEvents(p1, p2, all, cap);
    assert events == DifferenceEvents(p1, p2, d, |d|);
    assert Reported(p1, p2, cap) == [Heading] + events + [Snip(cap)];
  }

  /**
   * One pass of diff_rawdata's loop, at position i: a difference prints the
   * heading when it is the first, then either its line or, past the cap,
   * the snip notice, which ends the scan.
   */
  method ScanAt(p1: seq<Byte>, p2: seq<Byte>, cap: nat, quiet: bool, i: nat, differ0: nat, events0: seq<RawEvent>)
    returns (differ: nat, events: seq<RawEvent>, snipped: bool)
    requires i < Max(|p1|, |p2|)
    requires differ0 == |DiffPositions(p1, p2, i)| <= cap
    requires events0 == if quiet then [] else ReportedSoFar(p1, p2, i)
    ensures !snipped ==> differ == |DiffPositions(p1, p2, i + 1)| <= cap
    ensures !snipped ==> events == if quiet then [] else ReportedSoFar(p1, p2, i + 1)
    ensures snipped ==> p1 != p2 && |Differences(p1, p2)| > cap && Differences(p1, p2)[cap] == i
    ensures snipped ==> events == if quiet then [] else Reported(p1, p2, cap)
  {
    differ, events, snipped := differ0, events0, false;
    var c1, c2 := Sentinel(p1, i), Sentinel(p2, i);
    SentinelAgrees(p1, p2, i);
    if c1 != c2 {
      if differ == 0 && !quiet {
        events := events + [Heading];
      }
      differ := differ + 1;
      if differ > cap {
        if !quiet {
          events := events + [Snip(cap)];
        }
        ReportedSnipped(p1, p2, cap, i);
        snipped := true;
        return;
      }
      ReportedSoFarStep(p1, p2, i);
      if !quiet {
        events := events + [Difference(i, At(p1, i), At(p2, i))];
      }
    }
  }

  /**
   * diff_rawdata: 1 when the ranges differ, 0 when they are equal, whatever
   * the cap and the quiet setting; the events are suppressed when quiet.
   * `stop` is the position where the scan ended: the end of the longer
   * range, or the first difference past the cap.
   */
  method DiffRawData(p1: seq<Byte>, p2: seq<Byte>, cap: nat, quiet: bool)
    returns (differs: nat, events: seq<RawEvent>, ghost stop: nat)
    ensures differs == if p1 != p2 then 1 else 0
    ensures events == if quiet then [] else Reported(p1, p2, cap)
    ensures stop == if |Differences(p1, p2)| <= cap then Max(|p1|, |p2|) else Differences(p1, p2)[cap]
  {
    var differ: nat := 0;
    events := [];
    var i := 0;
    while i < |p1| || i < |p2|
      decreases Max(|p1|, |p2|) - i
      invariant i <= Max(|p1|, |p2|)
      invariant differ == |DiffPositions(p1, p2, i)| <= cap
      invariant events == if quiet then [] else ReportedSoFar(p1, p2, i)
    {
      var snipped;
      differ, events, snipped := ScanAt(p1, p2, cap, quiet, i, differ, events);
      if snipped {
        stop, differs := i, 1;
        return;
      }
      i := i + 1;
    }
    ReportedComplete(p1, p2, cap);
    DifferencesEmptyIff(p1, p2);
    stop := i;
    differs := if differ != 0 then 1 else 0;
  }
}
