/** What a decoder answers, chunk by chunk, and the points that come out of it when all goes well. */
module ChunkedDecoding {
  import opened Options
  import opened Seqs

  datatype Answer<T> = Delivered(points: seq<T>, complete: bool) | Broken

  /** The points of a decoder that behaves: it says when it is done, delivers no empty chunk before, no chunk over
      the limit, and as many points as announced. */
  function Clean<T>(answers: seq<Answer<T>>, limit: nat, left: nat): Option<seq<T>>
  {
    if answers == [] || answers[0].Broken? then None
    else
      var a := answers[0];
      if (a.points == [] && !a.complete) || |a.points| > limit || |a.points| > left then None
      else if a.complete then (if |a.points| == left then Some(a.points) else None)
      else
        match Clean(answers[1..], limit, left - |a.points|)
        case None => None
        case Some(rest) => Some(a.points + rest)
  }

  /** The points of the first `n` answers. */
  function PointsOf<T>(answers: seq<Answer<T>>, n: nat): seq<seq<T>>
    requires n <= |answers| && forall i :: 0 <= i < n ==> answers[i].Delivered?
  {
    seq(n, i requires 0 <= i < n => answers[i].points)
  }

  /** `points` have been cut into chunks, up to the first complete answer, which is number `last`. */
  ghost predicate Cut<T>(answers: seq<Answer<T>>, limit: nat, points: seq<T>, last: nat)
  {
    && last < |answers| && (forall i :: 0 <= i <= last ==> answers[i].Delivered? && |answers[i].points| <= limit)
    && (forall i :: 0 <= i < last ==> !answers[i].complete && answers[i].points != [])
    && answers[last].complete && Flatten(PointsOf(answers, last + 1)) == points
  }

  lemma {:induction false} FlattenFirst<T>(chunks: seq<seq<T>>)
    requires chunks != []
    ensures Flatten(chunks) == chunks[0] + Flatten(chunks[1..])
  {
    var m := |chunks| - 1;
    if m > 0 {
      FlattenFirst(chunks[..m]);
      assert chunks[..m][1..] == chunks[1..][..m - 1];
    } else {
      assert chunks[..0] == [];
    }
  }

  /** However points are cut into chunks within the limit, the decoder that delivers these chunks behaves, and the
      points come out. */
  lemma {:induction false} CutIsClean<T>(answers: seq<Answer<T>>, limit: nat, points: seq<T>, last: nat)
    requires Cut(answers, limit, points, last)
    ensures Clean(answers, limit, |points|) == Some(points)
    decreases answers
  {
    var chunks := PointsOf(answers, last + 1);
    FlattenFirst(chunks);
    assert points == answers[0].points + Flatten(chunks[1..]);
    if last > 0 {
      var rest := PointsOf(answers[1..], last);
      assert chunks[1..] == rest;
      assert answers[1..][last - 1] == answers[last];
      CutIsClean(answers[1..], limit, Flatten(rest), last - 1);
    } else {
      assert chunks[1..] == [];
      assert answers[0].points + [] == answers[0].points;
    }
  }

  /** Only such decoders behave. */
  lemma {:induction false} CleanIsCut<T>(answers: seq<Answer<T>>, limit: nat, left: nat) returns (last: nat)
    requires Clean(answers, limit, left).Some?
    ensures Cut(answers, limit, Clean(answers, limit, left).value, last)
    ensures |Clean(answers, limit, left).value| == left
    decreases answers
  {
    var a := answers[0];
    last := 0;
    if !a.complete {
      var before := CleanIsCut(answers[1..], limit, left - |a.points|);
      last := before + 1;
      forall i | 0 <= i <= last
        ensures answers[i].Delivered? && |answers[i].points| <= limit
        ensures i < last ==> !answers[i].complete && answers[i].points != []
      {
        assert i > 0 ==> answers[i] == answers[1..][i - 1];
      }
      assert answers[last] == answers[1..][before];
    }
    var chunks := PointsOf(answers, last + 1);
    FlattenFirst(chunks);
    if last > 0 {
      assert chunks[1..] == PointsOf(answers[1..], last);
    } else {
      assert chunks[1..] == [];
    }
  }

  // ----- The part of the points that was asked for

  function Least(a: nat, b: nat): nat { if a < b then a else b }

  /** The points from `first` up to, but not including, `end`. */
  function Window<T>(points: seq<T>, first: nat, end: nat): seq<T>
  {
    var to := Least(end, |points|);
    points[Least(first, to)..to]
  }

  /** The part of one chunk, which starts as point number `start`. */
  function ChunkWindow<T>(chunk: seq<T>, start: nat, first: nat, end: nat): seq<T>
  {
    var from, to := if start < first then first else start, Least(start + |chunk|, end);
    if from >= to then [] else chunk[from - start..to - start]
  }

  function Wanted<T>(keep: T -> bool, points: seq<T>, first: nat, end: nat): seq<T>
  {
    Filter(keep, Window(points, first, end))
  }

  lemma WindowNext<T>(points: seq<T>, chunk: seq<T>, first: nat, end: nat)
    requires first <= end
    ensures Window(points + chunk, first, end) == Window(points, first, end) + ChunkWindow(chunk, |points|, first, end)
  {
    var all, s := points + chunk, |points|;
    var to := Least(end, |all|);
    if to <= s {
      SliceInFront(points, chunk, Least(first, to), to);
    } else if first >= s {
      SliceBehind(points, chunk, Least(first, to), to);
    } else {
      SliceAcross(points, chunk, first, to);
      assert points[first..|points|] == points[first..];
      assert chunk[0..to - s] == chunk[..to - s];
    }
  }

  lemma SliceInFront<T>(a: seq<T>, b: seq<T>, i: nat, j: nat)
    requires i <= j <= |a|
    ensures (a + b)[i..j] == a[i..j]
  {
  }

  lemma SliceBehind<T>(a: seq<T>, b: seq<T>, i: nat, j: nat)
    requires |a| <= i <= j <= |a + b|
    ensures (a + b)[i..j] == b[i - |a|..j - |a|]
  {
  }

  lemma SliceAcross<T>(a: seq<T>, b: seq<T>, i: nat, j: nat)
    requires i <= |a| <= j <= |a + b|
    ensures (a + b)[i..j] == a[i..] + b[..j - |a|]
  {
  }

  lemma WantedNext<T>(keep: T -> bool, points: seq<T>, chunk: seq<T>, first: nat, end: nat)
    requires first <= end
    ensures Wanted(keep, points + chunk, first, end)
      == Wanted(keep, points, first, end) + Filter(keep, ChunkWindow(chunk, |points|, first, end))
  {
    WindowNext(points, chunk, first, end);
    FilterConcat(keep, Window(points, first, end), ChunkWindow(chunk, |points|, first, end));
  }

  /** What a decoder comes to after some of its answers. */
  function Whole<T>(taken: seq<T>, complete: bool, answers: seq<Answer<T>>, limit: nat, count: nat): Option<seq<T>>
  {
    if |taken| > count then None
    else if complete then (if |taken| == count then Some(taken) else None)
    else
      match Clean(answers, limit, count - |taken|)
      case None => None
      case Some(rest) => Some(taken + rest)
  }

  lemma WholeNext<T>(taken: seq<T>, answers: seq<Answer<T>>, limit: nat, count: nat)
    requires answers != [] && answers[0].Delivered? && |taken| <= count
    requires answers[0].points != [] || answers[0].complete
    requires |answers[0].points| <= limit && |answers[0].points| <= count - |taken|
    ensures Whole(taken, false, answers, limit, count)
      == Whole(taken + answers[0].points, answers[0].complete, answers[1..], limit, count)
  {
    var a := answers[0];
    if !a.complete && Clean(answers[1..], limit, count - |taken| - |a.points|).Some? {
      var rest := Clean(answers[1..], limit, count - |taken| - |a.points|).value;
      assert taken + (a.points + rest) == taken + a.points + rest;
    }
  }
}
