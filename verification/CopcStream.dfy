/** Reading the points of a COPC file, entry by entry, through a filter. */
module CopcStream {
  import opened Options
  import opened Seqs
  import opened ChunkedDecoding
  import CopcPages
  import LazReading

  type Entry = CopcPages.Entry
  type Status = LazReading.Status

  /** How the decoder of an entry answers, if it can be opened. */
  type Opener<!T> = Entry -> Option<seq<Answer<T>>>

  /** The points of a decoder that does not break and says when it is done. */
  function Drained<T>(answers: seq<Answer<T>>): Option<seq<T>>
  {
    if answers == [] || answers[0].Broken? || (answers[0].points == [] && !answers[0].complete) then None
    else if answers[0].complete then Some(answers[0].points)
    else Before(answers[0].points, Drained(answers[1..]))
  }

  function Before<T>(points: seq<T>, rest: Option<seq<T>>): Option<seq<T>>
  {
    if rest.None? then None else Some(points + rest.value)
  }

  function Then<T>(a: Option<seq<T>>, b: Option<seq<T>>): Option<seq<T>>
  {
    if a.None? then None else Before(a.value, b)
  }

  /** The points of all data entries, one entry after another. */
  function EntriesPoints<T>(open: Opener<T>, entries: seq<Entry>): Option<seq<T>>
  {
    if entries == [] then Some([])
    else if !entries[0].IsPointData() then EntriesPoints(open, entries[1..])
    else if open(entries[0]).None? then None
    else Then(Drained(open(entries[0]).value), EntriesPoints(open, entries[1..]))
  }

  /** What is still to come. */
  function Rest<T>(decoder: Option<seq<Answer<T>>>, open: Opener<T>, entries: seq<Entry>): Option<seq<T>>
  {
    Then(if decoder.None? then Some([]) else Drained(decoder.value), EntriesPoints(open, entries))
  }

  lemma BeforeTwice<T>(a: seq<T>, b: seq<T>, rest: Option<seq<T>>)
    ensures Before(a, Before(b, rest)) == Before(a + b, rest)
  {
    if rest.Some? {
      assert a + (b + rest.value) == a + b + rest.value;
    }
  }

  lemma BeforeNothing<T>(rest: Option<seq<T>>)
    ensures Before([], rest) == rest
  {
    if rest.Some? {
      assert [] + rest.value == rest.value;
    }
  }

  /** One answer of the decoder taken. */
  lemma RestNext<T>(taken: seq<T>, answers: seq<Answer<T>>, open: Opener<T>, entries: seq<Entry>)
    requires answers != [] && answers[0].Delivered? && (answers[0].points != [] || answers[0].complete)
    ensures Before(taken, Rest(Some(answers), open, entries))
      == Before(taken + answers[0].points, Rest(if answers[0].complete then None else Some(answers[1..]), open, entries))
  {
    hide EntriesPoints;
    var a, more := answers[0], EntriesPoints(open, entries);
    BeforeTwice(taken, a.points, Rest(if a.complete then None else Some(answers[1..]), open, entries));
    if a.complete {
      BeforeNothing(more);
    } else if Drained(answers[1..]).Some? {
      BeforeTwice(a.points, Drained(answers[1..]).value, more);
    }
  }

  class CopcPointStream<T(==)> {
    const open: Opener<T>
    const keep: T -> bool
    const entries: seq<Entry>
    const maximumPoints: nat
    var entryIndex: nat
    var decoder: Option<seq<Answer<T>>>
    var pendingPoints: seq<T>
    var pendingIndex: nat
    var ended: bool

    /** The points taken from decoders, and those passed on. */
    ghost var taken: seq<T>
    ghost var passed: seq<T>

    constructor (open: Opener<T>, keep: T -> bool, entries: seq<Entry>, maximumPoints: nat)
      requires maximumPoints > 0
      ensures Valid() && !ended && passed == [] && entryIndex == 0 && decoder == None
      ensures this.open == open && this.keep == keep && this.entries == entries && this.maximumPoints == maximumPoints
    {
      this.open, this.keep, this.entries, this.maximumPoints := open, keep, entries, maximumPoints;
      entryIndex, decoder, pendingPoints, pendingIndex, ended, taken, passed := 0, None, [], 0, false, [], [];
      new;
      BeforeNothing(EntriesPoints(open, entries));
      assert entries[0..] == entries;
    }

    ghost function Whole(): Option<seq<T>>
      reads this
    {
      EntriesPoints(open, entries)
    }

    ghost predicate Valid()
      reads this
    {
      && maximumPoints > 0 && entryIndex <= |entries| && pendingIndex <= |pendingPoints|
      && (!ended ==> passed + pendingPoints[pendingIndex..] == Filter(keep, taken))
      && (!ended ==> Whole() == Before(taken, Rest(decoder, open, entries[entryIndex..])))
    }

    /** How far the stream is from its end. */
    ghost function Left(): nat
      reads this
    {
      if entryIndex <= |entries| then |entries| - entryIndex else 0
    }

    /** Pulls the next chunk. After the end or an error there is nothing but the end. */
    method ReadNext() returns (status: Status, chunk: seq<T>, stopped: bool)
      requires Valid()
      modifies this
      ensures Valid()
      ensures old(ended) ==> status == LazReading.End && chunk == [] && passed == old(passed)
      ensures status.Chunk? ==> !ended && 0 < |chunk| <= maximumPoints && passed == old(passed) + chunk
      ensures !status.Chunk? ==> ended && chunk == [] && passed == old(passed)
      ensures !old(ended) && status.End? ==> Whole().Some? && passed == Filter(keep, Whole().value)
      ensures status.Error? ==> Whole() == None || stopped
    {
      hide Filter, Rest, EntriesPoints;
      chunk, stopped := [], false;
      if ended {
        return LazReading.End, chunk, stopped;
      }
      while pendingIndex >= |pendingPoints|
        invariant Valid() && !ended && passed == old(passed)
        decreases Left(), if decoder.Some? then 1 + |decoder.value| else 0
      {
        pendingPoints, pendingIndex := [], 0;
        var cancelled := *;
        if decoder.Some? {
          var ok := !cancelled;
          if ok {
            ok := TakeAnswer();
          }
          if !ok {
            ended := true;
            return LazReading.Error, chunk, cancelled;
          }
        } else if entryIndex >= |entries| {
          NothingLeft(open, entries[entryIndex..]);
          ended := true;
          return LazReading.End, chunk, stopped;
        } else {
          var ok := !cancelled;
          if ok {
            ok := NextEntry();
          }
          if !ok {
            ended := true;
            return LazReading.Error, chunk, cancelled;
          }
        }
      }
      var count := Least(maximumPoints, |pendingPoints| - pendingIndex);
      chunk := pendingPoints[pendingIndex..pendingIndex + count];
      assert pendingPoints[pendingIndex..] == chunk + pendingPoints[pendingIndex + count..];
      pendingIndex := pendingIndex + count;
      var convertible := *;
      if !convertible {
        ended := true;
        return LazReading.Error, [], true;
      }
      passed := passed + chunk;
      status := LazReading.Chunk;
    }

    /** Takes one answer of the open decoder. */
    method TakeAnswer() returns (ok: bool)
      requires Valid() && !ended && decoder.Some? && pendingPoints == [] && pendingIndex == 0
      modifies this`decoder, this`pendingPoints, this`taken
      ensures !ok ==> Whole() == None && pendingPoints == []
      ensures ok ==> Valid() && (decoder == None || |decoder.value| < |old(decoder).value|)
    {
      hide EntriesPoints;
      var answers := decoder.value;
      if answers == [] || answers[0].Broken? || (answers[0].points == [] && !answers[0].complete) {
        return false;
      }
      var points := answers[0].points;
      RestNext(taken, answers, open, entries[entryIndex..]);
      FilterConcat(keep, taken, points);
      hide Filter, Rest;
      decoder := if answers[0].complete then None else Some(answers[1..]);
      taken := taken + points;
      pendingPoints := Filter(keep, points);
      assert pendingPoints[0..] == pendingPoints;
      ok := true;
    }

    /** Goes to the next entry, and opens its decoder if it has points. */
    method NextEntry() returns (ok: bool)
      requires Valid() && !ended && decoder.None? && entryIndex < |entries|
      modifies this`entryIndex, this`decoder
      ensures entryIndex == old(entryIndex) + 1
      ensures !ok ==> Whole() == None && decoder == None
      ensures ok ==> Valid()
    {
      hide Filter;
      var entry := entries[entryIndex];
      EntryNext(open, entries[entryIndex..]);
      assert entries[entryIndex..][1..] == entries[entryIndex + 1..];
      entryIndex := entryIndex + 1;
      ok := true;
      if entry.IsPointData() {
        decoder := open(entry);
        ok := decoder.Some?;
      }
    }
  }

  lemma EntryNext<T>(open: Opener<T>, entries: seq<Entry>)
    requires entries != []
    ensures Rest(None, open, entries)
      == if !entries[0].IsPointData() then Rest(None, open, entries[1..])
         else if open(entries[0]).None? then None
         else Rest(open(entries[0]), open, entries[1..])
  {
    BeforeNothing(EntriesPoints(open, entries));
    BeforeNothing(EntriesPoints(open, entries[1..]));
  }

  lemma NothingLeft<T>(open: Opener<T>, entries: seq<Entry>)
    requires entries == []
    ensures Rest(None, open, entries) == Some([])
    ensures forall taken: seq<T> :: Before(taken, Some([])) == Some(taken)
  {
    forall taken: seq<T> ensures Before(taken, Some([])) == Some(taken) {
      assert taken + [] == taken;
    }
  }

  /** The first `n` chunks pulled from a stream; it may end before. */
  method Pull<T(==)>(open: Opener<T>, keep: T -> bool, entries: seq<Entry>, maximumPoints: nat, n: nat)
    returns (chunks: seq<seq<T>>, last: Status, stopped: bool)
    requires maximumPoints > 0
    ensures |chunks| <= n && forall c :: c in chunks ==> 0 < |c| <= maximumPoints
    ensures last.End? ==> EntriesPoints(open, entries).Some?
    ensures last.End? ==> Flatten(chunks) == Filter(keep, EntriesPoints(open, entries).value)
    ensures last.Error? ==> EntriesPoints(open, entries) == None || stopped
    ensures last.Chunk? ==> |chunks| == n
  {
    hide Filter, EntriesPoints;
    var stream := new CopcPointStream(open, keep, entries, maximumPoints);
    chunks, last, stopped := [], LazReading.Chunk, false;
    while |chunks| < n && last.Chunk?
      invariant stream.Valid() && stream.open == open && stream.keep == keep && stream.entries == entries
      invariant stream.maximumPoints == maximumPoints && (last.Chunk? ==> !stream.ended)
      invariant |chunks| <= n && forall c :: c in chunks ==> 0 < |c| <= maximumPoints
      invariant Flatten(chunks) == stream.passed
      invariant last.End? ==> stream.Whole().Some? && stream.passed == Filter(keep, stream.Whole().value)
      invariant last.Error? ==> stream.Whole() == None || stopped
      decreases n - |chunks|, last.Chunk?
    {
      var chunk;
      last, chunk, stopped := stream.ReadNext();
      if last.Chunk? {
        ghost var before := chunks;
        chunks := chunks + [chunk];
        assert chunks[..|chunks| - 1] == before;
      }
    }
  }
}
