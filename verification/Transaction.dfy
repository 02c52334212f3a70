/** The converter's transaction: a marker that records what has to be cleared away after an interrupted conversion, and
    the order in which manifest and root layer are published. Every state that a step leaves is on record, because the
    process may end after any step. */
module Transaction {
  import opened Options
  import opened Publication

  type Text = string

  /** A directory, by the names on the way to it. */
  type Path = seq<string>

  // ----- Paths

  function NormalPath(parts: seq<string>): Path
  {
    if parts == [] then []
    else
      var front, last := NormalPath(parts[..|parts| - 1]), parts[|parts| - 1];
      if last == "" || last == "." then front
      else if last == ".." then (if front == [] then [] else front[..|front| - 1])
      else front + [last]
  }

  function PathOf(text: Text): Path { NormalPath(Components(text)) }

  predicate IsAbsolute(text: Text) { text != "" && text[0] == '/' }

  /** The way from `directory` to `path`: up to where they part, and then down. */
  function Relative(path: Path, directory: Path): Path
  {
    if path != [] && directory != [] && path[0] == directory[0] then Relative(path[1..], directory[1..])
    else seq(|directory|, _ => "..") + path
  }

  /** `path` lies below `directory`. */
  predicate Within(path: Path, directory: Path)
  {
    var relative := Relative(path, directory);
    relative != [] && forall component :: component in relative ==> component != ".."
  }

  predicate AtOrBelow(path: Path, directory: Path)
  {
    |directory| <= |path| && path[..|directory|] == directory
  }

  // ----- The state file

  const PREFIX := "payloadDirectory="

  function StateText(directory: Text): Text { PREFIX + directory + "\n" }

  /** The text up to the end of its first line. */
  function FirstLine(text: Text): (r: Text)
    ensures r <= text && '\n' !in r
    ensures |r| < |text| ==> text[|r|] == '\n'
  {
    if text == "" || text[0] == '\n' then "" else [text[0]] + FirstLine(text[1..])
  }

  function WithoutReturn(line: Text): Text
  {
    if line != "" && line[|line| - 1] == '\r' then line[..|line| - 1] else line
  }

  /** The directory that a state file names, if it is readable. */
  function RecordedIn(text: Text): Option<Text>
  {
    var line := FirstLine(text);
    if text == "" || !(PREFIX <= line) then None
    else
      var named := WithoutReturn(line)[|PREFIX|..];
      if IsAbsolute(named) then Some(named) else None
  }

  lemma {:induction false} FirstLineOf(line: Text, rest: Text)
    requires '\n' !in line && (rest == "" || rest[0] == '\n')
    ensures FirstLine(line + rest) == line
    decreases line
  {
    if line == "" {
      assert line + rest == rest;
    } else {
      assert (line + rest)[1..] == line[1..] + rest;
      FirstLineOf(line[1..], rest);
    }
  }

  /** What the reader takes for the path: the first line, without a carriage return at its end. */
  function Named(part: Text): Text { WithoutReturn(FirstLine(part)) }

  /** A state file that was cut anywhere, or not at all, names what the reader takes from the part of the path it has. */
  lemma TornRecords(directory: Text, n: nat)
    requires IsAbsolute(directory) && n <= |StateText(directory)|
    ensures var text := StateText(directory)[..n];
      && (n <= |PREFIX| ==> RecordedIn(text) == None)
      && (|PREFIX| < n <= |PREFIX| + |directory| ==> RecordedIn(text) == Some(Named(directory[..n - |PREFIX|])))
      && (n > |PREFIX| + |directory| ==> RecordedIn(text) == Some(Named(directory)))
  {
    var text := StateText(directory)[..n];
    assert |PREFIX| == 17 && PREFIX[16] == '=';
    assert '\n' !in PREFIX;
    if n <= |PREFIX| {
      assert text == PREFIX[..n];
      FirstLineOf(text, "");
      assert text + "" == text;
    } else {
      var m := if n <= |PREFIX| + |directory| then n - |PREFIX| else |directory|;
      var part, end := directory[..m], if n <= |PREFIX| + |directory| then "" else "\n";
      assert directory[..|directory|] == directory;
      assert text == PREFIX + part + end;
      NamedInside(part, end);
    }
  }

  lemma NamedInside(part: Text, end: Text)
    requires IsAbsolute(part) && (end == "" || end == "\n")
    ensures RecordedIn(PREFIX + part + end) == Some(Named(part))
  {
    assert '\n' !in PREFIX;
    FirstLineAfter(PREFIX, part, end);
    assert FirstLine(part)[0] == part[0];
    hide FirstLine, WithoutReturn, RecordedIn;
    RecordedAfter(PREFIX + part + end, FirstLine(part));
  }

  lemma RecordedAfter(text: Text, line: Text)
    requires FirstLine(text) == PREFIX + line && IsAbsolute(line)
    ensures RecordedIn(text) == Some(WithoutReturn(line))
  {
    hide FirstLine;
    assert |PREFIX| == 17 && PREFIX[16] == '=';
    assert (PREFIX + line)[..|PREFIX|] == PREFIX;
    assert WithoutReturn(PREFIX + line)[|PREFIX|..] == WithoutReturn(line);
  }

  lemma FirstLineAfter(before: Text, part: Text, end: Text)
    requires '\n' !in before && (end == "" || end == "\n")
    ensures FirstLine(before + part + end) == before + FirstLine(part)
  {
    var line := FirstLine(part);
    hide FirstLine;
    var rest := part[|line|..] + end;
    assert |line| < |part| ==> part[|line|..][0] == '\n';
    assert before + part + end == (before + line) + rest;
    FirstLineOf(before + line, rest);
  }

  /** What a part of a path without line breaks is taken for. */
  lemma NamedPlain(part: Text)
    requires '\n' !in part
    ensures Named(part) == if part != "" && part[|part| - 1] == '\r' then part[..|part| - 1] else part
  {
    assert part + "" == part;
    FirstLineOf(part, "");
  }

  /** A state file gives its path back exactly when the path has no line break and no carriage return at its end. */
  lemma RecordedExactly(directory: Text)
    requires IsAbsolute(directory)
    ensures StateText(directory) == "payloadDirectory=" + directory + "\n"
    ensures RecordedIn(StateText(directory)) == Some(directory)
        <==> '\n' !in directory && directory[|directory| - 1] != '\r'
  {
    TornRecords(directory, |StateText(directory)|);
    assert StateText(directory)[..|StateText(directory)|] == StateText(directory);
    if '\n' !in directory {
      NamedPlain(directory);
    } else {
      assert |FirstLine(directory)| < |directory|;
    }
  }

  /** Removing what the state file names removes the directory. */
  predicate Recoverable(directory: Text)
  {
    && IsAbsolute(directory)
    && var recorded := RecordedIn(StateText(directory));
    && recorded.Some? && AtOrBelow(PathOf(directory), PathOf(recorded.value))
  }

  /** So does every path that the state file gives back. */
  lemma PlainRecoverable(directory: Text)
    requires IsAbsolute(directory) && '\n' !in directory && directory[|directory| - 1] != '\r'
    ensures Recoverable(directory)
  {
    RecordedExactly(directory);
  }

  // ----- What is on disk

  datatype Payloads = Partial | Complete

  datatype Draft = Missing | Unfinished | Finished(directory: Path)

  /** The transaction's marker directory, with its state file if that was created. */
  datatype Marker = Marker(state: Option<Text>)

  /** What conversions to one output leave on disk. The root layer and the manifest refer to a payload directory. */
  datatype Artifacts = Artifacts(
    root: Option<Path>,
    manifest: Option<Path>,
    temporaryRoot: Draft,
    temporaryManifest: Draft,
    payloads: map<Path, Payloads>,
    marker: Option<Marker>)

  const CLEAN := Artifacts(None, None, Missing, Missing, map[], None)

  /** A published root layer has its manifest and all its payloads. */
  predicate Usable(s: Artifacts)
  {
    s.root.Some? ==> s.manifest == s.root && s.root.value in s.payloads && s.payloads[s.root.value] == Complete
  }

  /** Without a marker, there is everything or nothing. */
  ghost predicate AllOrNothing(s: Artifacts)
  {
    s.marker.None? ==>
      && s.temporaryRoot.Missing? && s.temporaryManifest.Missing?
      && if s.root.Some? then s.payloads.Keys == {s.root.value} else s.manifest.None? && s.payloads == map[]
  }

  /** With a marker, all payloads are in the directory that it names. */
  ghost predicate Traceable(s: Artifacts)
  {
    s.marker.Some? && s.root.None? && s.payloads != map[] ==>
      s.marker.value.state.Some? && exists d :: Names(s.marker.value.state.value, d) && s.payloads.Keys == {PathOf(d)}
  }

  ghost predicate Names(text: Text, directory: Text)
  {
    Recoverable(directory) && text == StateText(directory)
  }

  ghost predicate Published(s: Artifacts)
  {
    s.marker.Some? && s.root.Some? ==>
      s.temporaryRoot.Missing? && s.temporaryManifest.Missing? && s.payloads.Keys == {s.root.value}
  }

  ghost predicate Consistent(s: Artifacts)
  {
    Usable(s) && AllOrNothing(s) && Traceable(s) && Published(s)
  }

  function WithoutBelow(payloads: map<Path, Payloads>, directory: Path): map<Path, Payloads>
  {
    map p | p in payloads && !AtOrBelow(p, directory) :: payloads[p]
  }

  function DamagedBelow(payloads: map<Path, Payloads>, directory: Path): map<Path, Payloads>
  {
    map p | p in payloads :: if AtOrBelow(p, directory) then Partial else payloads[p]
  }

  /** Recovery acts on a recorded directory that is the current one, or lies in the output's directory. */
  predicate Acceptable(recorded: Option<Text>, current: Text, workspace: Path)
  {
    recorded.Some? && (PathOf(recorded.value) == PathOf(current) || Within(PathOf(recorded.value), workspace))
  }

  /** What recovery takes for the payload directory. */
  function RecordedBy(s: Artifacts, current: Text): Option<Text>
  {
    if s.marker.Some? && s.marker.value.state.Some? then RecordedIn(s.marker.value.state.value) else Some(current)
  }

  /** What stops recovery: a root layer without a manifest, or a state file that it does not accept. */
  predicate Refused(s: Artifacts, current: Text, workspace: Path)
  {
    s.marker.Some? && if s.root.Some? then s.manifest.None? else !Acceptable(RecordedBy(s, current), current, workspace)
  }

  /** Nothing but what is at or below the recorded directory has been removed. */
  predicate KeepsOthers(s: Artifacts, next: Artifacts, recorded: Option<Text>)
  {
    if recorded.None? then next.payloads == s.payloads
    else WithoutBelow(next.payloads, PathOf(recorded.value)) == WithoutBelow(s.payloads, PathOf(recorded.value))
  }

  /** What a recovery that comes to its end leaves. */
  function Recovered(s: Artifacts, current: Text): Artifacts
  {
    if s.marker.None? || s.root.Some? then s.(marker := None)
    else match RecordedBy(s, current)
         case None => s
         case Some(recorded) => CLEAN.(payloads := WithoutBelow(s.payloads, PathOf(recorded)))
  }

  /** Nothing is in the way of a conversion. */
  predicate Free(s: Artifacts, path: Path)
  {
    s.root.None? && s.manifest.None? && !Exists(s.payloads, path) && s.marker.None?
  }

  // ----- Steps that keep the state consistent

  /** Nothing but the artifacts of an unfinished conversion is removed. */
  ghost predicate StillUnfinished(s: Artifacts, next: Artifacts)
  {
    && s.marker.Some? && s.root.None? && next.root.None? && next.marker == s.marker
    && (next.payloads.Keys == s.payloads.Keys || next.payloads == map[])
  }

  lemma UnfinishedConsistent(s: Artifacts, next: Artifacts)
    requires Consistent(s) && StillUnfinished(s, next)
    ensures Consistent(next)
  {
  }

  lemma DamagedKeys(payloads: map<Path, Payloads>, directory: Path)
    ensures DamagedBelow(payloads, directory).Keys == payloads.Keys
  {
  }

  /** Removing what the state file names leaves no payloads. */
  lemma RecordedRemoved(s: Artifacts, recorded: Text)
    requires Consistent(s) && s.marker.Some? && s.root.None?
    requires s.marker.value.state.Some? ==> RecordedIn(s.marker.value.state.value) == Some(recorded)
    ensures WithoutBelow(s.payloads, PathOf(recorded)) == map[]
  {
    hide PathOf, RecordedIn;
    if s.payloads != map[] {
      var d :| Names(s.marker.value.state.value, d) && s.payloads.Keys == {PathOf(d)};
      assert AtOrBelow(PathOf(d), PathOf(recorded));
    }
  }

  /** Damage on the way does not matter to a removal. */
  lemma DamagedRemoved(payloads: map<Path, Payloads>, directory: Path)
    ensures WithoutBelow(DamagedBelow(payloads, directory), directory) == WithoutBelow(payloads, directory)
  {
  }

  /** With the marker gone or its state file gone, nothing else may be left, unless all is there. */
  lemma MarkerConsistent(s: Artifacts)
    requires Consistent(s) && s.marker.Some?
    requires s.root.Some? || s == CLEAN.(marker := s.marker)
    ensures Consistent(s.(marker := None)) && Consistent(s.(marker := Some(Marker(None))))
  {
  }

  lemma RemovedTwice(payloads: map<Path, Payloads>, directory: Path)
    ensures WithoutBelow(WithoutBelow(payloads, directory), directory) == WithoutBelow(payloads, directory)
  {
  }

  class Conversion {
    var state: Artifacts
    var trace: seq<Artifacts>
    /** A removal of this conversion's cleanup has failed. */
    var failed: bool
    /** Some state had a root layer that was not usable. */
    var exposed: bool
    /** The system has refused something, the input could not be converted, or the process was told to stop. */
    var trouble: bool
    /** The directory of the output, and the directory for the payloads. */
    const workspace: Path
    const directory: Text
    /** The conversion found a consistent state, and its payload directory can be recovered. */
    ghost const sound: bool
    /** The removals of a cleanup do not fail. */
    const reliable: bool

    constructor (initial: Artifacts, workspace: Path, directory: Text, reliable: bool)
      requires IsAbsolute(directory)
      ensures Valid() && !failed && !trouble && exposed == !Usable(initial)
      ensures sound == (Consistent(initial) && Recoverable(directory))
      ensures state == initial && trace == [initial] && this.workspace == workspace && this.directory == directory
      ensures this.reliable == reliable
    {
      state, trace, this.workspace, this.directory, this.reliable := initial, [initial], workspace, directory, reliable;
      failed, trouble, exposed := false, false, !Usable(initial);
      sound := Consistent(initial) && Recoverable(directory);
    }

    ghost predicate Valid()
      reads this
    {
      && trace != [] && trace[|trace| - 1] == state && IsAbsolute(directory) && (sound ==> Recoverable(directory))
      && (Promised() ==> !exposed && forall i :: 0 <= i < |trace| ==> Consistent(trace[i]))
      && (!exposed ==> forall i :: 0 <= i < |trace| ==> Usable(trace[i]))
      && (reliable ==> !failed)
    }

    /** Every state is consistent. */
    ghost predicate Promised()
      reads this`failed
    {
      sound && !failed
    }

    /** One step. */
    method Set(next: Artifacts)
      requires Valid() && (Promised() ==> Consistent(next))
      modifies this`state, this`trace, this`exposed
      ensures Valid() && state == next && trace == old(trace) + [next] && exposed == (old(exposed) || !Usable(next))
    {
      state, trace, exposed := next, trace + [next], exposed || !Usable(next);
    }

    /** Whether the process may go on. */
    method Ask() returns (ok: bool)
      modifies this`trouble
      ensures trouble == (old(trouble) || !ok)
    {
      ok := *;
      trouble := trouble || !ok;
    }

    /** One step that may fail. */
    method Try(next: Artifacts) returns (ok: bool)
      requires Valid() && (Promised() ==> Consistent(next))
      modifies this`state, this`trace, this`trouble, this`exposed
      ensures Valid() && old(trace) <= trace && state == if ok then next else old(state)
      ensures trouble == (old(trouble) || !ok) && exposed == (old(exposed) || !Usable(state))
    {
      ok := Ask();
      if ok {
        Set(next);
      }
    }

    /** Removes the marker: its state file first, or all at once. */
    method RemoveMarker() returns (ok: bool)
      requires Valid() && state.marker.Some?
      requires Promised() ==> state.root.Some? || state == CLEAN.(marker := state.marker)
      modifies this`state, this`trace, this`trouble, this`exposed
      ensures Valid() && old(trace) <= trace && trouble == (old(trouble) || !ok) && exposed == old(exposed)
      ensures ok ==> state == old(state).(marker := None)
      ensures !ok ==> state == old(state) || state == old(state).(marker := Some(Marker(None)))
    {
      hide Consistent;
      if Promised() {
        MarkerConsistent(state);
      }
      var atOnce := *;
      if !atOnce {
        Set(state.(marker := Some(Marker(None))));
      }
      ok := Try(state.(marker := None));
    }

    /** Clears away what an interrupted conversion has left; refuses when it cannot tell what that is. */
    method RecoverIncompleteTransaction() returns (ok: bool)
      requires Valid() && !failed
      modifies this`state, this`trace, this`trouble, this`exposed
      ensures Valid() && old(trace) <= trace && (old(trouble) ==> trouble) && exposed == old(exposed)
      ensures !trouble ==> (ok <==> !Refused(old(state), directory, workspace))
      ensures state.root == old(state).root
      ensures ok ==> state == Recovered(old(state), directory)
      ensures KeepsOthers(old(state), state, RecordedBy(old(state), directory))
      ensures ok && sound && old(state).marker.Some? && old(state).root.None? ==> state == CLEAN
      ensures Refused(old(state), directory, workspace) ==> !ok && trace == old(trace)
    {
      hide Consistent, PathOf, RecordedIn, Within, Recoverable;
      var readable := Ask();
      if !readable {
        return false;
      }
      if state.marker.None? {
        return true;
      }
      if state.root.Some? && state.manifest.Some? {
        ok := RemoveMarker();
        return;
      }
      if state.root.Some? {
        return false;
      }
      var recorded := RecordedBy(state, directory);
      if !Acceptable(recorded, directory, workspace) {
        return false;
      }
      if sound {
        RecordedRemoved(state, recorded.value);
      }
      ok := RemoveArtifacts(recorded.value);
      if ok {
        ok := RemoveMarker();
      }
    }

    /** Removes everything but the marker. */
    method RemoveArtifacts(recorded: Text) returns (ok: bool)
      requires Valid() && state.marker.Some? && state.root.None?
      requires Promised() ==> WithoutBelow(state.payloads, PathOf(recorded)) == map[]
      modifies this`state, this`trace, this`trouble, this`exposed
      ensures Valid() && old(trace) <= trace && trouble == (old(trouble) || !ok) && exposed == old(exposed)
      ensures state.root.None? && state.marker == old(state).marker
      ensures WithoutBelow(state.payloads, PathOf(recorded)) == WithoutBelow(old(state).payloads, PathOf(recorded))
      ensures ok ==> state == CLEAN.(payloads := WithoutBelow(old(state).payloads, PathOf(recorded)), marker := state.marker)
    {
      hide Consistent, PathOf, Recoverable, WithoutBelow, DamagedBelow;
      var path := PathOf(recorded);
      ok := Erase(state.(manifest := None));
      if !ok {
        return;
      }
      ok := Erase(state.(temporaryRoot := Missing));
      if !ok {
        return;
      }
      ok := Erase(state.(temporaryManifest := Missing));
      if !ok {
        return;
      }
      DamagedKeys(state.payloads, path);
      DamagedRemoved(state.payloads, path);
      var partly := *;
      if partly {
        if Promised() {
          UnfinishedConsistent(state, state.(payloads := DamagedBelow(state.payloads, path)));
        }
        Set(state.(payloads := DamagedBelow(state.payloads, path)));
      }
      RemovedTwice(state.payloads, path);
      ok := Erase(state.(payloads := WithoutBelow(state.payloads, path)));
    }

    /** One removal before anything is published. */
    method Erase(next: Artifacts) returns (ok: bool)
      requires Valid() && state.root.None? && next.root.None? && (Promised() ==> StillUnfinished(state, next))
      modifies this`state, this`trace, this`trouble, this`exposed
      ensures Valid() && old(trace) <= trace && state == if ok then next else old(state)
      ensures trouble == (old(trouble) || !ok) && exposed == old(exposed)
    {
      hide Consistent, StillUnfinished;
      if Promised() {
        UnfinishedConsistent(state, next);
      }
      ok := Try(next);
    }

    /** Starts the transaction: the marker, and then the state file, which is written piece by piece. */
    method BeginTransaction() returns (ok: bool)
      requires Valid() && Free(state, PathOf(directory)) && (Promised() ==> state == CLEAN)
      modifies this`state, this`trace, this`trouble, this`exposed
      ensures Valid() && old(trace) <= trace && exposed == old(exposed)
      ensures (old(trouble) || !ok ==> trouble) && (ok ==> trouble == old(trouble))
      ensures ok ==> state == old(state).(marker := Some(Marker(Some(StateText(directory)))))
      ensures !ok ==> state == old(state).(marker := state.marker)
    {
      hide PathOf, Recoverable, Consistent, Exists, StateText;
      forall m ensures Consistent(CLEAN.(marker := m)) {
        MarkedConsistent(m);
      }
      ok := Try(state.(marker := Some(Marker(None))));
      if !ok {
        return;
      }
      ok := Try(state.(marker := Some(Marker(Some("")))));
      if ok {
        var n: int := *;
        var text := StateText(directory);
        Set(state.(marker := Some(Marker(Some(if 0 <= n <= |text| then text[..n] else "")))));
        ok := Try(state.(marker := Some(Marker(Some(text)))));
      }
      if !ok {
        var _ := RemoveMarker();
      }
    }

    /** Producing the files of the conversion, in any number of steps and any order, up to a finished whole. */
    method Produce(ghost others: map<Path, Payloads>) returns (ok: bool)
      requires Valid() && Producing(state, directory, others) && (Promised() ==> others == map[])
      modifies this`state, this`trace, this`trouble, this`exposed
      ensures Valid() && old(trace) <= trace && Producing(state, directory, others)
      ensures trouble == (old(trouble) || !ok) && exposed == old(exposed)
      ensures ok ==> state.temporaryRoot == state.temporaryManifest == Finished(PathOf(directory))
      ensures ok ==> state.payloads == others[PathOf(directory) := Complete]
    {
      hide Consistent, PathOf, Recoverable;
      var path := PathOf(directory);
      var steps: int := *;
      var k := 0;
      while k < steps
        invariant Valid() && old(trace) <= trace && Producing(state, directory, others)
        invariant trouble == old(trouble) && exposed == old(exposed)
      {
        var root: Draft, manifest: Draft, started: bool, status: Payloads := *, *, *, *;
        var next := state.(temporaryRoot := root, temporaryManifest := manifest,
                           payloads := if started then state.payloads[path := status] else state.payloads - {path});
        if Promised() {
          ProducingConsistent(next, directory);
        }
        Set(next);
        k := k + 1;
      }
      var whole := state.(temporaryRoot := Finished(path), temporaryManifest := Finished(path),
                          payloads := state.payloads[path := Complete]);
      if Promised() {
        ProducingConsistent(whole, directory);
      }
      ok := Try(whole);
    }

    /** Publishes what was produced: the manifest, then the root layer, each by one step. With files from the cache, a
        manifest that cannot be put in place is left to the next recovery. */
    method Publish(cacheHit: bool, ghost others: map<Path, Payloads>) returns (ok: bool)
      requires Valid() && !failed && Producing(state, directory, others) && (sound ==> others == map[])
      requires state.temporaryRoot == state.temporaryManifest == Finished(PathOf(directory))
      requires state.payloads == others[PathOf(directory) := Complete]
      modifies this
      ensures Valid() && old(trace) <= trace
      ensures ok ==> !failed && exposed == old(exposed) && state.root == Some(PathOf(directory)) && Usable(state)
      ensures ok ==> state.payloads == old(state).payloads && state.temporaryRoot == state.temporaryManifest == Missing
      ensures !ok && !failed ==> exposed == old(exposed)
      ensures !ok && !failed ==> state == CLEAN.(payloads := WithoutBelow(others, PathOf(directory)))
                                 || (cacheHit && state == old(state))
      ensures exposed && !old(exposed) ==> Uncovered()
      ensures old(trouble) || !ok ==> trouble
    {
      hide PathOf, StateText, Recoverable, AfterCleanup, WithoutBelow, Consistent, Uncovered;
      if sound {
        PublishingConsistent(state, directory);
      }
      AddedBelow(others, PathOf(directory));
      var cleared;
      ok, cleared := PublishFiles(cacheHit);
      if !ok && !cleared {
        return;
      }
      if !ok {
        var _ := Cleanup(false);
        return;
      }
      ok := Ask();
      if !ok {
        var _ := Cleanup(true);
        return;
      }
      var _ := RemoveMarker();
    }

    /** The two renames, and whether a failure is to be cleared away. */
    method PublishFiles(cacheHit: bool) returns (ok: bool, cleared: bool)
      requires Valid() && !failed && state.root.None?
      requires PathOf(directory) in state.payloads && state.payloads[PathOf(directory)] == Complete
      requires sound ==> StepsConsistent(state, PathOf(directory))
      modifies this`state, this`trace, this`trouble, this`exposed
      ensures Valid() && old(trace) <= trace && exposed == old(exposed) && trouble == (old(trouble) || !ok)
      ensures state.payloads == old(state).payloads && state.marker == old(state).marker
      ensures sound ==> Consistent(state.(root := None))
      ensures !ok ==> state.root.None?
      ensures !cleared ==> !ok && cacheHit && state == old(state)
      ensures ok ==> state == WithRoot(WithManifest(old(state), PathOf(directory)), PathOf(directory))
    {
      hide PathOf, Recoverable, Consistent;
      var path := PathOf(directory);
      assert state.(root := None) == state;
      cleared := true;
      ok := Ask();
      if !ok {
        return;
      }
      ok := Try(WithManifest(state, path));
      if !ok {
        return ok, !cacheHit;
      }
      if !cacheHit {
        ok := Ask();
      }
      if !ok {
        return;
      }
      ok := Try(WithRoot(state, path));
    }

    /** One run of the converter. */
    method Convert(cacheHit: bool) returns (ok: bool)
      requires Valid() && !failed
      modifies this
      ensures Valid() && old(trace) <= trace
      ensures ok ==> !failed && state.root == Some(PathOf(directory)) && Usable(state) && old(state).root.None?
      ensures ok ==> state.payloads == Recovered(old(state), directory).payloads[PathOf(directory) := Complete]
                     && state.temporaryRoot == state.temporaryManifest == Missing
      ensures !trouble ==> (ok <==> !Refused(old(state), directory, workspace)
                                    && Free(Recovered(old(state), directory), PathOf(directory)))
      ensures sound && !trouble ==> (ok <==> old(state).root.None? && !Refused(old(state), directory, workspace))
      ensures !ok && !failed ==> state.root == old(state).root
      ensures exposed && !old(exposed) ==> failed && Uncovered()
    {
      hide Traceable, Published, PathOf, StateText, Recoverable;
      ok := RecoverIncompleteTransaction();
      if !ok {
        return;
      }
      var goOn := Ask();
      if !goOn || !Free(state, PathOf(directory)) {
        return false;
      }
      ghost var others := state.payloads;
      AddedBelow(others, PathOf(directory));
      ok := BeginTransaction();
      if !ok {
        return;
      }
      ok := Produce(others);
      if sound {
        ProducingConsistent(state, directory);
        NothingElse(state.payloads, PathOf(directory));
      }
      if !ok {
        var _ := Cleanup(false);
        return;
      }
      ok := Publish(cacheHit, others);
    }

    /** The last state is what a cleanup has left that took manifest or payloads away from a published root layer after
        it had failed to remove that. */
    ghost predicate Uncovered()
      reads this`state, this`trace
    {
      exists s, r :: s in trace && s.root.Some? && Exposing(r) && state == AfterCleanup(s, true, PathOf(directory), r)
    }

    /** Clears away this conversion's artifacts. A removal that fails is passed over. */
    method Cleanup(removePublishedRoot: bool) returns (r: Removals)
      requires Valid() && !failed && state.marker.Some? && (state.root.Some? ==> removePublishedRoot)
      requires sound ==> Consistent(state.(root := None)) && state.payloads.Keys <= {PathOf(directory)}
      modifies this
      ensures Valid() && old(trace) <= trace
      ensures state == AfterCleanup(old(state), removePublishedRoot, PathOf(directory), r)
      ensures failed <==> !r.AllDone(removePublishedRoot)
      ensures exposed == (old(exposed) || !Usable(state))
      ensures !failed ==> state == CLEAN.(payloads := WithoutBelow(old(state).payloads, PathOf(directory)))
      ensures exposed && !old(exposed) ==> Uncovered()
      ensures old(trouble) ==> trouble
    {
      hide Consistent, PathOf, Recoverable, WithoutBelow, DamagedBelow;
      r := Removals(false, false, false, false, Untouched, NotRemoved);
      ghost var before := state;
      if removePublishedRoot {
        var removed := TryRemoval(state.(root := None));
        r := r.(root := removed);
      }
      var rest := RemoveRest();
      r := rest.(root := r.root);
      if exposed && !old(exposed) {
        assert before in old(trace);
        CleanupExposes(before, PathOf(directory), r);
      }
    }

    method TryRemoval(next: Artifacts) returns (ok: bool)
      requires Valid() && (Promised() ==> Consistent(next))
      modifies this`state, this`trace, this`failed, this`trouble, this`exposed
      ensures old(trouble) ==> trouble
      ensures Valid() && old(trace) <= trace && state == (if ok then next else old(state)) && failed == (old(failed) || !ok)
      ensures exposed == (old(exposed) || !Usable(state))
    {
      if reliable {
        Set(next);
        return true;
      }
      ok := Try(next);
      failed := failed || !ok;
    }

    method RemoveRest() returns (r: Removals)
      requires Valid() && state.marker.Some? && (Promised() ==> state.root.None?)
      requires Promised() ==> state.payloads.Keys <= {PathOf(directory)}
      modifies this`state, this`trace, this`failed, this`trouble, this`exposed
      ensures old(trouble) ==> trouble
      ensures Valid() && old(trace) <= trace && r.root == false
      ensures state == AfterCleanup(old(state), false, PathOf(directory), r)
      ensures failed <==> old(failed) || !r.AllDone(false)
      ensures exposed == (old(exposed) || !Usable(state))
    {
      hide Consistent, PathOf, Recoverable, WithoutBelow, DamagedBelow, Fated, Usable;
      var one, two, three := RemoveFiles();
      ghost var left := state;
      var fate := RemovePayloads();
      if !Usable(left) {
        StaysUnusable(left, PathOf(directory), fate);
      }
      MarkerUnused(state);
      var last := DropMarker();
      r := Removals(false, one, two, three, fate, last);
    }

    /** Removes the marker as far as the system lets it. */
    method DropMarker() returns (fate: MarkerFate)
      requires Valid() && state.marker.Some?
      requires Promised() ==> state == CLEAN.(marker := state.marker)
      modifies this`state, this`trace, this`failed, this`trouble, this`exposed
      ensures old(trouble) ==> trouble
      ensures Valid() && old(trace) <= trace && failed == (old(failed) || !fate.MarkerRemoved?)
      ensures state == old(state).(marker := MarkerAfter(old(state).marker, fate))
      ensures exposed == (old(exposed) || !Usable(state))
    {
      hide Consistent, Recoverable, Usable;
      if Promised() {
        MarkerConsistent(state);
      }
      MarkerUnused(state);
      fate := NotRemoved;
      var atOnce := *;
      if !atOnce {
        Set(state.(marker := Some(Marker(None))));
        fate := StateRemoved;
      }
      MarkerUnused(state);
      var gone := TryRemoval(state.(marker := None));
      if gone {
        fate := MarkerRemoved;
      }
    }

    method RemoveFiles() returns (one: bool, two: bool, three: bool)
      requires Valid() && state.marker.Some? && (Promised() ==> state.root.None?)
      modifies this`state, this`trace, this`failed, this`trouble, this`exposed
      ensures old(trouble) ==> trouble
      ensures Valid() && old(trace) <= trace && failed == (old(failed) || !one || !two || !three)
      ensures state.payloads == old(state).payloads && state.marker == old(state).marker && state.root == old(state).root
      ensures state.temporaryRoot == if one then Missing else old(state).temporaryRoot
      ensures state.temporaryManifest == if two then Missing else old(state).temporaryManifest
      ensures state.manifest == if three then None else old(state).manifest
      ensures exposed == (old(exposed) || !Usable(state))
    {
      hide Consistent, Recoverable;
      if Promised() { UnfinishedConsistent(state, state.(temporaryRoot := Missing)); }
      one := TryRemoval(state.(temporaryRoot := Missing));
      if Promised() { UnfinishedConsistent(state, state.(temporaryManifest := Missing)); }
      two := TryRemoval(state.(temporaryManifest := Missing));
      if Promised() { UnfinishedConsistent(state, state.(manifest := None)); }
      three := TryRemoval(state.(manifest := None));
    }

    method RemovePayloads() returns (fate: Fate)
      requires Valid() && state.marker.Some? && (Promised() ==> state.root.None?)
      requires Promised() ==> state.payloads.Keys <= {PathOf(directory)}
      modifies this`state, this`trace, this`failed, this`trouble, this`exposed
      ensures old(trouble) ==> trouble
      ensures Valid() && old(trace) <= trace
      ensures state == old(state).(payloads := Fated(old(state).payloads, PathOf(directory), fate))
      ensures failed <==> old(failed) || fate != Gone
      ensures Promised() ==> state.payloads == map[]
      ensures exposed == (old(exposed) || !Usable(state))
    {
      hide Consistent, PathOf, Recoverable;
      var path := PathOf(directory);
      fate := Untouched;
      DamagedKeys(state.payloads, path);
      DamagedRemoved(state.payloads, path);
      if Promised() {
        OnlyBelow(state.payloads, path);
        UnfinishedConsistent(state, state.(payloads := DamagedBelow(state.payloads, path)));
        UnfinishedConsistent(state, state.(payloads := map[]));
      }
      var partly := *;
      if partly {
        Set(state.(payloads := DamagedBelow(state.payloads, path)));
        fate := Harmed;
      }
      var gone := TryRemoval(state.(payloads := WithoutBelow(state.payloads, path)));
      if gone {
        fate := Gone;
      }
    }
  }

  /** What a cleanup does to payloads makes no root layer usable. */
  lemma StaysUnusable(s: Artifacts, path: Path, fate: Fate)
    requires !Usable(s)
    ensures !Usable(s.(payloads := Fated(s.payloads, path, fate)))
  {
  }

  lemma MarkedConsistent(m: Option<Marker>)
    ensures Consistent(CLEAN.(marker := m))
  {
  }

  lemma MarkerUnused(s: Artifacts)
    ensures forall m :: Usable(s.(marker := m)) == Usable(s)
  {
  }

  lemma AddedBelow(payloads: map<Path, Payloads>, path: Path)
    requires !Exists(payloads, path)
    ensures path !in payloads && WithoutBelow(payloads, path) == payloads
    ensures forall m: map<Path, Payloads> :: m - {path} == payloads ==> WithoutBelow(m, path) == payloads
  {
    assert AtOrBelow(path, path);
    forall m: map<Path, Payloads> | m - {path} == payloads ensures WithoutBelow(m, path) == payloads {
      assert forall p :: p in m && p != path ==> p in payloads && m[p] == payloads[p];
      assert forall p :: p in payloads ==> p in m;
    }
  }

  /** A cleanup that leaves a root layer without manifest or payloads has failed to remove the root layer. */
  lemma CleanupExposes(s: Artifacts, path: Path, r: Removals)
    requires Usable(s) && !Usable(AfterCleanup(s, true, path, r))
    ensures s.root.Some? && Exposing(r)
  {
  }

  /** A conversion is on its way: nothing is published, the state file names its payload directory, and beside that
      directory there are the others. */
  ghost predicate Producing(s: Artifacts, directory: Text, others: map<Path, Payloads>)
  {
    && s.root.None? && s.manifest.None? && s.marker == Some(Marker(Some(StateText(directory))))
    && s.payloads - {PathOf(directory)} == others && !Exists(others, PathOf(directory))
  }

  function WithManifest(s: Artifacts, path: Path): Artifacts
  {
    s.(temporaryManifest := Missing, manifest := Some(path))
  }

  function WithRoot(s: Artifacts, path: Path): Artifacts
  {
    s.(temporaryRoot := Missing, root := Some(path))
  }

  /** The steps of publishing lead to consistent states. */
  ghost predicate StepsConsistent(s: Artifacts, path: Path)
  {
    var next := WithManifest(s, path);
    Consistent(s) && Consistent(next) && Consistent(WithRoot(next, path)) && Consistent(WithRoot(next, path).(root := None))
  }

  lemma PublishingConsistent(s: Artifacts, directory: Text)
    requires Producing(s, directory, map[]) && Recoverable(directory)
    requires s.payloads == map[PathOf(directory) := Complete]
    ensures StepsConsistent(s, PathOf(directory))
    ensures s.payloads.Keys <= {PathOf(directory)}
  {
    hide PathOf, StateText, Recoverable;
    assert Names(s.marker.value.state.value, directory);
  }

  lemma ProducingConsistent(s: Artifacts, directory: Text)
    requires Producing(s, directory, map[]) && Recoverable(directory)
    ensures Consistent(s)
  {
    assert Names(s.marker.value.state.value, directory);
    NothingElse(s.payloads, PathOf(directory));
  }

  lemma NothingElse(payloads: map<Path, Payloads>, path: Path)
    requires payloads - {path} == map[]
    ensures payloads.Keys <= {path} && (payloads == map[] || payloads.Keys == {path})
  {
    forall p | p in payloads ensures p == path {
      assert p != path ==> p in payloads - {path};
    }
  }

  predicate Exists(payloads: map<Path, Payloads>, path: Path)
  {
    exists p :: p in payloads && AtOrBelow(p, path)
  }

  datatype Fate = Untouched | Harmed | Gone

  datatype MarkerFate = NotRemoved | StateRemoved | MarkerRemoved

  /** Which removals of a cleanup were done. */
  datatype Removals = Removals(root: bool, temporaryRoot: bool, temporaryManifest: bool, manifest: bool, payloads: Fate,
                               marker: MarkerFate)
  {
    predicate AllDone(withRoot: bool)
    {
      (withRoot ==> root) && temporaryRoot && temporaryManifest && manifest && payloads.Gone? && marker.MarkerRemoved?
    }
  }

  function Fated(payloads: map<Path, Payloads>, path: Path, fate: Fate): map<Path, Payloads>
  {
    match fate
    case Untouched => payloads
    case Harmed => DamagedBelow(payloads, path)
    case Gone => WithoutBelow(payloads, path)
  }

  /** What a cleanup leaves, depending on which removals were done. */
  function AfterCleanup(s: Artifacts, withRoot: bool, path: Path, r: Removals): Artifacts
  {
    Artifacts(if withRoot && r.root then None else s.root,
          if r.manifest then None else s.manifest,
          if r.temporaryRoot then Missing else s.temporaryRoot,
          if r.temporaryManifest then Missing else s.temporaryManifest,
          Fated(s.payloads, path, r.payloads),
          MarkerAfter(s.marker, r.marker))
  }

  function MarkerAfter(marker: Option<Marker>, fate: MarkerFate): Option<Marker>
  {
    match fate
    case NotRemoved => marker
    case StateRemoved => if marker.Some? then Some(Marker(None)) else None
    case MarkerRemoved => None
  }

  lemma OnlyBelow(payloads: map<Path, Payloads>, path: Path)
    requires payloads.Keys <= {path}
    ensures WithoutBelow(payloads, path) == map[]
  {
    assert AtOrBelow(path, path);
  }

  /** A cleanup that did these removals took manifest or payloads away from a root layer that it did not remove. */
  predicate Exposing(r: Removals)
  {
    !r.root && (r.manifest || !r.payloads.Untouched?)
  }
}
