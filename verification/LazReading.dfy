/** Reading a range of a LAZ file through a filter, by pulling chunks and by pushing them. */
module LazReading {
  import opened Options
  import opened Seqs
  import opened ChunkedDecoding

  datatype Status = Chunk | End | Error

  /** A range of points; a count of zero reaches to the last point. */
  datatype Range = Range(first: nat, count: nat) {
    /** The end of the range among `total` points, if the range is within them. */
    function EndIn(total: nat): Option<nat>
    {
      if first > total || (count != 0 && count > total - first) then None
      else Some(if count == 0 then total else first + count)
    }
  }

  /** How many points a chunk may have, given the memory that each takes. */
  function PointLimit(chunkPointLimit: nat, memoryBudget: nat, bytesPerPoint: nat): nat
    requires bytesPerPoint > 0
  {
    Least(chunkPointLimit, memoryBudget / bytesPerPoint)
  }

  class LazPointStream<T(==)> {
    const keep: T -> bool
    const range: Range
    const total: nat
    const endPoint: nat
    const maximumPoints: nat
    var answers: seq<Answer<T>>
    var pointsRead: nat
    var complete: bool
    var ended: bool

    /** What the decoder comes to; what was taken from it, and what was passed on. */
    ghost const whole: Option<seq<T>>
    ghost var taken: seq<T>
    ghost var passed: seq<T>

    constructor (answers: seq<Answer<T>>, keep: T -> bool, range: Range, total: nat, maximumPoints: nat)
      requires range.EndIn(total).Some?
      ensures Valid() && !ended && passed == [] && whole == Clean(answers, maximumPoints, total)
      ensures this.keep == keep && this.range == range && this.total == total && this.maximumPoints == maximumPoints
      ensures endPoint == range.EndIn(total).value && |this.answers| == |answers|
    {
      this.answers, this.keep, this.range, this.total, this.maximumPoints := answers, keep, range, total, maximumPoints;
      endPoint := if range.count == 0 then total else range.first + range.count;
      pointsRead, complete, ended, taken, passed := 0, false, false, [], [];
      whole := Clean(answers, maximumPoints, total);
      new;
      NothingTaken(keep, answers, maximumPoints, total, range.first, endPoint);
    }

    ghost predicate Valid()
      reads this
    {
      && range.first <= endPoint <= total
      && (!ended ==> pointsRead == |taken| <= total && passed == Wanted(keep, taken, range.first, endPoint))
      && (!ended ==> whole == Whole(taken, complete, answers, maximumPoints, total))
    }

    /** Pulls the next chunk. After the end or an error there is nothing but the end. */
    method ReadNext() returns (status: Status, chunk: seq<T>, stopped: bool)
      requires Valid()
      modifies this
      ensures Valid()
      ensures old(ended) ==> status == End && chunk == [] && ended && passed == old(passed)
      ensures status == Chunk ==> !ended && 0 < |chunk| <= maximumPoints && passed == old(passed) + chunk
      ensures |answers| <= |old(answers)| && (status == Chunk ==> |answers| < |old(answers)|)
      ensures status != Chunk ==> ended && chunk == [] && passed == old(passed)
      ensures !old(ended) && status == End ==> whole.Some? && passed == Wanted(keep, whole.value, range.first, endPoint)
      ensures status == Error ==> whole == None || stopped
    {
      hide Wanted, Clean, Filter;
      chunk, stopped := [], false;
      if ended {
        return End, chunk, stopped;
      }
      while !complete
        invariant Valid() && !ended && chunk == [] && passed == old(passed) && |answers| <= |old(answers)|
        decreases |answers|
      {
        var cancelled := *;
        if cancelled {
          ended := true;
          return Error, chunk, true;
        }
        if answers == [] || answers[0].Broken? || (answers[0].points == [] && !answers[0].complete)
          || |answers[0].points| > maximumPoints || |answers[0].points| > total - pointsRead
        {
          NotWhole(taken, answers, maximumPoints, total);
          ended := true;
          return Error, chunk, stopped;
        }
        chunk := Take();
        if chunk != [] {
          var convertible := *;
          if !convertible {
            ended := true;
            passed := old(passed);
            return Error, [], true;
          }
          return Chunk, chunk, stopped;
        }
      }
      ended := true;
      status := if pointsRead != total then Error else End;
    }

    /** Takes one answer: of its points those in the range that pass the filter. */
    method Take() returns (points: seq<T>)
      requires Valid() && !ended && !complete && answers != [] && answers[0].Delivered?
      requires answers[0].points != [] || answers[0].complete
      requires |answers[0].points| <= maximumPoints && |answers[0].points| <= total - pointsRead
      modifies this`answers, this`complete, this`pointsRead, this`taken, this`passed
      ensures Valid() && |points| <= maximumPoints && passed == old(passed) + points
      ensures |answers| < |old(answers)|
    {
      hide Wanted, Whole;
      points := answers[0].points;
      ghost var delivered := points;
      WholeNext(taken, answers, maximumPoints, total);
      WantedNext(keep, taken, points, range.first, endPoint);
      complete, answers := answers[0].complete, answers[1..];
      var chunkStart := pointsRead;
      pointsRead := pointsRead + |points|;
      taken := taken + delivered;
      points := Select(points, keep, chunkStart, range.first, endPoint);
      passed := passed + points;
    }
  }

  lemma NotWhole<T>(taken: seq<T>, answers: seq<Answer<T>>, limit: nat, count: nat)
    requires |taken| <= count
    requires answers == [] || answers[0].Broken? || (answers[0].points == [] && !answers[0].complete)
      || |answers[0].points| > limit || |answers[0].points| > count - |taken|
    ensures Whole(taken, false, answers, limit, count) == None
  {
  }

  /** What a request selects: from the first point on, so many, or all that follow. */
  function Selected<T>(keep: T -> bool, points: seq<T>, range: Range): seq<T>
    requires range.first + range.count <= |points|
  {
    Filter(keep, if range.count == 0 then points[range.first..] else points[range.first..range.first + range.count])
  }

  /** A request is within the points exactly when they reach its end, and what it wants is then what it selects. */
  lemma WantedExactly<T>(keep: T -> bool, points: seq<T>, range: Range)
    ensures range.EndIn(|points|).Some? <==> range.first + range.count <= |points|
    ensures range.EndIn(|points|).Some? ==>
      Wanted(keep, points, range.first, range.EndIn(|points|).value) == Selected(keep, points, range)
  {
    hide Filter;
    if range.EndIn(|points|).Some? {
      var end := range.EndIn(|points|).value;
      assert Window(points, range.first, end) == points[range.first..end];
      assert range.count == 0 ==> points[range.first..end] == points[range.first..];
    }
  }

  /** A chunk may have as many points as the caller allows and as fit the budget. */
  lemma LimitExactly(chunkPointLimit: nat, memoryBudget: nat, bytesPerPoint: nat, n: nat)
    requires bytesPerPoint > 0
    ensures n <= PointLimit(chunkPointLimit, memoryBudget, bytesPerPoint) <==>
      n <= chunkPointLimit && n * bytesPerPoint <= memoryBudget
  {
    var most := memoryBudget / bytesPerPoint;
    assert memoryBudget == most * bytesPerPoint + memoryBudget % bytesPerPoint;
    assert n <= most ==> n * bytesPerPoint <= most * bytesPerPoint;
    assert n > most ==> n * bytesPerPoint >= (most + 1) * bytesPerPoint;
  }

  /** Pulls a stream to its end. */
  method PullAll<T(==)>(answers: seq<Answer<T>>, keep: T -> bool, range: Range, total: nat, chunkPointLimit: nat,
                        memoryBudget: nat, bytesPerPoint: nat)
    returns (ok: bool, points: seq<T>, stopped: bool)
    requires bytesPerPoint > 0
    ensures var limit, whole := PointLimit(chunkPointLimit, memoryBudget, bytesPerPoint),
                                Clean(answers, PointLimit(chunkPointLimit, memoryBudget, bytesPerPoint), total);
      && (ok ==> limit > 0 && range.EndIn(total).Some? && whole.Some?)
      && (ok ==> points == Wanted(keep, whole.value, range.first, range.EndIn(total).value))
      && (!ok ==> limit == 0 || range.EndIn(total) == None || whole == None || stopped)
  {
    hide Clean, Wanted;
    points, stopped := [], false;
    var maximumPoints := PointLimit(chunkPointLimit, memoryBudget, bytesPerPoint);
    if range.EndIn(total).None? || maximumPoints == 0 {
      return false, points, stopped;
    }
    var stream := new LazPointStream(answers, keep, range, total, maximumPoints);
    var status := Chunk;
    while status == Chunk
      invariant stream.Valid() && stream.keep == keep && stream.range == range && stream.total == total
      invariant stream.endPoint == range.EndIn(total).value && stream.whole == Clean(answers, maximumPoints, total)
      invariant points == stream.passed && (status == Chunk ==> !stream.ended)
      invariant status == End ==> stream.whole.Some? && points == Wanted(keep, stream.whole.value, range.first, stream.endPoint)
      invariant status == Error ==> stream.whole == None || stopped
      decreases |stream.answers|, status == Chunk
    {
      var chunk;
      status, chunk, stopped := stream.ReadNext();
      points := points + chunk;
    }
    ok := status == End;
  }

  /** Reads by pushing: every chunk is handed to a consumer, which may refuse it. */
  method Read<T(==)>(decoder: seq<Answer<T>>, keep: T -> bool, range: Range, total: nat, chunkPointLimit: nat,
                     memoryBudget: nat, bytesPerPoint: nat)
    returns (ok: bool, consumed: seq<T>, stopped: bool)
    requires bytesPerPoint > 0
    ensures var limit, whole := PointLimit(chunkPointLimit, memoryBudget, bytesPerPoint),
                                Clean(decoder, PointLimit(chunkPointLimit, memoryBudget, bytesPerPoint), total);
      && (ok ==> limit > 0 && range.EndIn(total).Some? && whole.Some?)
      && (ok ==> consumed == Wanted(keep, whole.value, range.first, range.EndIn(total).value))
      && (!ok ==> limit == 0 || range.EndIn(total) == None || whole == None || stopped)
  {
    hide Clean, Wanted, Filter;
    consumed, stopped := [], false;
    var maximumPoints := PointLimit(chunkPointLimit, memoryBudget, bytesPerPoint);
    if range.EndIn(total).None? || maximumPoints == 0 {
      return false, consumed, stopped;
    }
    var rangeEnd := if range.count == 0 then total else range.first + range.count;
    var pointsRead, complete, answers := 0, false, decoder;
    ghost var taken: seq<T> := [];
    ghost var whole := Clean(decoder, maximumPoints, total);
    NothingTaken(keep, decoder, maximumPoints, total, range.first, rangeEnd);
    while !complete
      invariant pointsRead == |taken| <= total && whole == Whole(taken, complete, answers, maximumPoints, total)
      invariant consumed == Wanted(keep, taken, range.first, rangeEnd)
      decreases |answers|
    {
      var cancelled := *;
      if cancelled {
        return false, consumed, true;
      }
      if answers == [] || answers[0].Broken? || (answers[0].points == [] && !answers[0].complete)
        || |answers[0].points| > maximumPoints || |answers[0].points| > total - pointsRead
      {
        NotWhole(taken, answers, maximumPoints, total);
        return false, consumed, stopped;
      }
      var points := answers[0].points;
      WholeNext(taken, answers, maximumPoints, total);
      WantedNext(keep, taken, points, range.first, rangeEnd);
      var selected := Select(points, keep, pointsRead, range.first, rangeEnd);
      taken := taken + points;
      pointsRead := pointsRead + |points|;
      complete, answers := answers[0].complete, answers[1..];
      if selected != [] {
        var accepted := *;
        if !accepted {
          return false, consumed, true;
        }
      }
      consumed := consumed + selected;
    }
    ok := pointsRead == total;
  }

  lemma NothingTaken<T>(keep: T -> bool, answers: seq<Answer<T>>, limit: nat, count: nat, first: nat, end: nat)
    ensures Whole([], false, answers, limit, count) == Clean(answers, limit, count)
    ensures Wanted(keep, [], first, end) == []
  {
    var whole := Clean(answers, limit, count);
    if whole.Some? {
      assert [] + whole.value == whole.value;
    }
    assert Window<T>([], first, end) == [];
  }

  /** The points of a chunk that are in the range and pass the filter. */
  method Select<T(==)>(chunk: seq<T>, keep: T -> bool, chunkStart: nat, first: nat, end: nat) returns (points: seq<T>)
    ensures points == Filter(keep, ChunkWindow(chunk, chunkStart, first, end))
  {
    var selectedStart := if chunkStart < first then first else chunkStart;
    var selectedEnd := Least(chunkStart + |chunk|, end);
    points := [];
    if selectedStart < selectedEnd {
      points := chunk[selectedStart - chunkStart..];
      points := points[..selectedEnd - selectedStart];
      assert points == ChunkWindow(chunk, chunkStart, first, end);
      points := Filter(keep, points);
    }
  }
}
