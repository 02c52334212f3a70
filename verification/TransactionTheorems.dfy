/** Whole histories of conversions to one output, interrupted anywhere; and what recovery and cleanup cannot promise. */
module TransactionTheorems {
  import opened Options
  import opened Publication
  import opened Transaction
  import opened PathTheorems

  /** Any number of conversions to one output, each with another payload directory perhaps, and each ending after any of
      its steps, within recovery and cleanup too.
      A published root layer always has its manifest and all its payloads, also when removals of a cleanup fail: until one
      fails to remove a published root layer and takes its manifest or payloads away, where the history ends.
      Without a marker there is all or nothing, when no cleanup's removal fails and all directories are recoverable. */
  method History(initial: Artifacts, workspace: Path, directories: seq<Text>, reliable: bool)
    returns (states: seq<Artifacts>, exposed: bool)
    requires Usable(initial) && forall d :: d in directories ==> IsAbsolute(d)
    ensures initial in states
    ensures !exposed ==> |states| > |directories| && forall i :: 0 <= i < |states| ==> Usable(states[i])
    ensures exposed ==> !reliable && exists d :: d in directories && EndsUncovered(states, PathOf(d))
    ensures reliable && Consistent(initial) && (forall d :: d in directories ==> Recoverable(d)) ==>
              forall i :: 0 <= i < |states| ==> AllOrNothing(states[i])
  {
    hide PathOf, Recoverable, Traceable, Published, Usable, AllOrNothing, EndsUncovered, Conversion.Uncovered;
    var state := initial;
    states, exposed := [state], false;
    ghost var orderly := reliable && Consistent(initial) && forall d :: d in directories ==> Recoverable(d);
    var k := 0;
    while k < |directories|
      invariant 0 <= k <= |directories| && Usable(state) && (orderly ==> Consistent(state)) && initial in states
      invariant forall i :: 0 <= i < |states| ==> Usable(states[i]) && (orderly ==> AllOrNothing(states[i]))
      invariant |states| > k && !exposed
    {
      assert directories[k] in directories;
      var conversion := new Conversion(state, workspace, directories[k], reliable);
      var cacheHit: bool := *;
      var _ := conversion.Convert(cacheHit);
      if conversion.exposed {
        UncoveredLast(conversion, states);
        return states + conversion.trace, true;
      }
      var last: int := *;
      if !(0 <= last < |conversion.trace|) {
        last := |conversion.trace| - 1;
      }
      states := states + conversion.trace[..last + 1];
      state := conversion.trace[last];
      k := k + 1;
    }
  }

  /** The last state is what a cleanup left of a published root layer. */
  ghost predicate EndsUncovered(states: seq<Artifacts>, path: Path)
  {
    states != [] && exists s, r :: s in states && s.root.Some? && Exposing(r)
                                   && states[|states| - 1] == AfterCleanup(s, true, path, r)
  }

  lemma UncoveredLast(conversion: Conversion, before: seq<Artifacts>)
    requires conversion.Valid() && conversion.Uncovered()
    ensures EndsUncovered(before + conversion.trace, PathOf(conversion.directory))
  {
    hide PathOf, AfterCleanup, Exposing, Recoverable, Consistent, Usable;
    var s, r :| s in conversion.trace && s.root.Some? && Exposing(r)
      && conversion.state == AfterCleanup(s, true, PathOf(conversion.directory), r);
    assert s in before + conversion.trace;
  }

  // ----- Paths that a state file does not give back

  /** What a crash in the middle of a conversion leaves. */
  function Interrupted(directory: Text, status: Payloads): Artifacts
  {
    CLEAN.(payloads := map[PathOf(directory) := status], marker := Some(Marker(Some(StateText(directory)))))
  }

  /** A recovery that does not refuse clears an interrupted conversion away exactly when its directory is recoverable.
      Otherwise it drops the marker and leaves the payloads. */
  lemma RecoveryClears(directory: Text, status: Payloads, current: Text, workspace: Path)
    requires IsAbsolute(directory) && !Refused(Interrupted(directory, status), current, workspace)
    ensures AllOrNothing(Recovered(Interrupted(directory, status), current)) <==> Recoverable(directory)
    ensures Recovered(Interrupted(directory, status), current) == CLEAN <==> Recoverable(directory)
  {
    hide PathOf, RecordedIn, StateText;
    var path, s := PathOf(directory), Interrupted(directory, status);
    var recorded := RecordedIn(StateText(directory)).value;
    assert path in s.payloads;
    assert AtOrBelow(path, PathOf(recorded)) <==> path !in WithoutBelow(s.payloads, PathOf(recorded));
    assert WithoutBelow(s.payloads, PathOf(recorded)).Keys <= {path};
  }

  /** A line break in the name of the payload directory: recovery takes the part before it for the directory, so it drops
      the marker and leaves the payloads of the interrupted conversion. */
  lemma LineBreakLeavesPayloads(status: Payloads)
    ensures var directory := "/o/a\nb";
      && IsAbsolute(directory) && RecordedIn(StateText(directory)) == Some("/o/a")
      && !Refused(Interrupted(directory, status), directory, PathOf("/o"))
      && !AllOrNothing(Recovered(Interrupted(directory, status), directory))
  {
    hide PathOf, RecordedIn, StateText, AllOrNothing, Recovered;
    var directory := "/o/a\nb";
    LineBreakNamed();
    BrokenPath();
    assert ["o", "a\nb"][..2][1] != ["o", "a"][1];
    assert !Recoverable(directory);
    assert ["o", "a"][..1] == ["o"];
    assert RecordedBy(Interrupted(directory, status), directory) == Some("/o/a");
    RecoveryClears(directory, status, directory, PathOf("/o"));
  }

  lemma LineBreakNamed()
    ensures RecordedIn(StateText("/o/a\nb")) == Some("/o/a")
  {
    hide RecordedIn, FirstLine;
    var directory := "/o/a\nb";
    TornRecords(directory, |StateText(directory)|);
    assert StateText(directory)[..|StateText(directory)|] == StateText(directory);
    FirstLineOf("/o/a", "\nb");
    assert "/o/a" + "\nb" == directory;
  }

  lemma BrokenPath()
    ensures PathOf("/o") == ["o"] && PathOf("/o/a") == ["o", "a"] && PathOf("/o/a\nb") == ["o", "a\nb"]
  {
    ShortPaths();
    ShortComponents();
    hide Components, NormalPath;
    Letter("/o/a", ["", "o"], "a", '\n');
    assert "/o/a" + ['\n'] == "/o/a\n" && "a" + ['\n'] == "a\n";
    Letter("/o/a\n", ["", "o"], "a\n", 'b');
    assert "/o/a\n" + ['b'] == "/o/a\nb" && "a\n" + ['b'] == "a\nb";
    assert ["", "o"] + ["a\nb"] == ["", "o", "a\nb"];
    NormalizedNext(["", "o"], "a\nb");
    assert NormalPath(["", "o"]) == PathOf("/o");
  }

  // ----- What recovery may remove

  /** Recovery of an interrupted conversion takes for the payload directory what the state file names, or the current one
      when there is no state file. It goes on exactly when that is the current one or extends the output's directory. */
  lemma RecoveryRemoves(s: Artifacts, current: Text, workspace: Path)
    requires s.marker.Some? && s.root.None?
    ensures s.marker.value.state.None? ==> RecordedBy(s, current) == Some(current) && !Refused(s, current, workspace)
    ensures s.marker.value.state.Some? ==> RecordedBy(s, current) == RecordedIn(s.marker.value.state.value)
    ensures !Refused(s, current, workspace) <==>
      RecordedBy(s, current).Some?
      && var path := PathOf(RecordedBy(s, current).value); path == PathOf(current) || Extends(path, workspace)
  {
    hide Within, Extends, NormalPath, RecordedIn;
    if RecordedBy(s, current).Some? {
      NormalHasNoDots(Components(RecordedBy(s, current).value));
      WithinExtends(PathOf(RecordedBy(s, current).value), workspace);
    }
  }

  /** A recovery that comes to its end has then removed that directory and what lies below it, and of the other payloads
      nothing. */
  lemma RecoveryLeaves(s: Artifacts, current: Text, recorded: Text)
    requires s.marker.Some? && s.root.None? && RecordedBy(s, current) == Some(recorded)
    ensures var left := Recovered(s, current);
      && left.manifest.None? && left.temporaryRoot.Missing? && left.temporaryManifest.Missing? && left.marker.None?
      && forall p ::
        && (p in left.payloads <==> p in s.payloads && p != PathOf(recorded) && !Extends(p, PathOf(recorded)))
        && (p in left.payloads ==> left.payloads[p] == s.payloads[p])
  {
    hide PathOf, RecordedBy, Extends;
    forall p ensures AtOrBelow(p, PathOf(recorded)) <==> p == PathOf(recorded) || Extends(p, PathOf(recorded)) {
      BelowExtends(p, PathOf(recorded));
    }
  }

  lemma BelowExtends(path: Path, directory: Path)
    ensures AtOrBelow(path, directory) <==> path == directory || Extends(path, directory)
  {
    if AtOrBelow(path, directory) {
      assert path == directory + path[|directory|..];
    }
    if Extends(path, directory) {
      var rest :| rest != [] && path == directory + rest;
    }
  }

  /** A conversion begins only where nothing is: no root layer, manifest or marker, and nothing at or below its directory. */
  lemma FreeExactly(s: Artifacts, path: Path)
    ensures Free(s, path) <==>
      s.root.None? && s.manifest.None? && s.marker.None? && path !in s.payloads && NothingExtends(s.payloads, path)
  {
    forall p ensures AtOrBelow(p, path) <==> p == path || Extends(p, path) {
      BelowExtends(p, path);
    }
  }

  ghost predicate NothingExtends(payloads: map<Path, Payloads>, directory: Path)
  {
    forall p :: p in payloads ==> !Extends(p, directory)
  }

  /** So the output's own directory, and what does not lie in it, are never removed but as the current payload directory. */
  lemma OutputDirectoryKept(s: Artifacts, current: Text, recorded: Text)
    requires s.marker.Some? && s.root.None? && RecordedBy(s, current) == Some(recorded) && PathOf(recorded) != PathOf(current)
    ensures Refused(s, current, PathOf(recorded))
    ensures forall workspace :: PathOf(recorded) < workspace ==> Refused(s, current, workspace)
  {
    hide Refused, PathOf, RecordedBy;
    forall workspace | PathOf(recorded) <= workspace ensures Refused(s, current, workspace) {
      RecoveryRemoves(s, current, workspace);
    }
  }

  // ----- A torn state file

  /** What a crash while the state file is written leaves. */
  function TornState(directory: Text, n: nat): Artifacts
    requires n <= |StateText(directory)|
  {
    CLEAN.(marker := Some(Marker(Some(StateText(directory)[..n]))))
  }

  /** The part of the path that is in the file, as the reader takes it. */
  function TornName(directory: Text, n: nat): Text
    requires |PREFIX| < n
  {
    Named(if n <= |PREFIX| + |directory| then directory[..n - |PREFIX|] else directory)
  }

  /** Recovery refuses a torn state file exactly when the part of the path it has is empty, or is taken neither for the
      current payload directory nor for anything below the output's directory. */
  lemma TornStateRefused(directory: Text, n: nat, current: Text, workspace: Path)
    requires IsAbsolute(directory) && n <= |StateText(directory)|
    ensures Refused(TornState(directory, n), current, workspace) <==>
      n <= |PREFIX| || (var part := PathOf(TornName(directory, n)); part != PathOf(current) && !Extends(part, workspace))
  {
    hide PathOf, Extends, RecordedIn, Named, StateText;
    TornRecords(directory, n);
    RecoveryRemoves(TornState(directory, n), current, workspace);
  }

  /** What the part of a path without line breaks is taken for: itself, or all of it but the carriage return it ends in. */
  lemma TornNamePlain(directory: Text, n: nat)
    requires '\n' !in directory && |PREFIX| < n <= |PREFIX| + |directory|
    ensures TornName(directory, n)
         == directory[..if directory[n - |PREFIX| - 1] == '\r' then n - |PREFIX| - 1 else n - |PREFIX|]
  {
    NamedPlain(directory[..n - |PREFIX|]);
  }

  /** So a path that was cut short can be taken for another directory, and be cleared away. */
  lemma TornStateAccepted()
    ensures var directory := "/o/ab";
      && Recoverable(directory) && |PREFIX| + 4 < |StateText(directory)|
      && RecordedIn(StateText(directory)[..|PREFIX| + 4]) == Some("/o/a")
      && PathOf("/o/a") != PathOf(directory)
      && !Refused(TornState(directory, |PREFIX| + 4), directory, PathOf("/o"))
  {
    hide PathOf, RecordedIn, Named, Recoverable;
    var directory := "/o/ab";
    TornRecords(directory, |PREFIX| + 4);
    assert ["o", "a"][..1] == ["o"];
    assert directory[..4] == "/o/a";
    NamedPlain("/o/a");
    PlainRecoverable(directory);
    ShortPaths();
  }

  lemma ShortPaths()
    ensures PathOf("/o") == ["o"] && PathOf("/o/a") == ["o", "a"] && PathOf("/o/ab") == ["o", "ab"]
  {
    ShortComponents();
    hide Components;
    assert NormalPath([]) == [];
    NormalizedNext([], "");
    assert [] + [""] == [""];
    NormalizedNext([""], "o");
    assert [""] + ["o"] == ["", "o"] && [] + ["o"] == ["o"];
    NormalizedNext(["", "o"], "a");
    assert ["", "o"] + ["a"] == ["", "o", "a"];
    NormalizedNext(["", "o"], "ab");
    assert ["", "o"] + ["ab"] == ["", "o", "ab"];
  }

  lemma ShortComponents()
    ensures Components("/o") == ["", "o"] && Components("/o/a") == ["", "o", "a"]
    ensures Components("/o/ab") == ["", "o", "ab"]
  {
    assert Components("") == [""];
    hide Components;
    Slash("");
    assert "" + "/" == "/" && [""] + [""] == ["", ""];
    Letter("/", [""], "", 'o');
    assert "/" + ['o'] == "/o" && "" + ['o'] == "o" && [""] + ["o"] == ["", "o"];
    LongerComponents();
  }

  lemma LongerComponents()
    requires Components("/o") == ["", "o"]
    ensures Components("/o/a") == ["", "o", "a"] && Components("/o/ab") == ["", "o", "ab"]
  {
    hide Components;
    Slash("/o");
    assert "/o" + "/" == "/o/" && ["", "o"] + [""] == ["", "o", ""];
    Letter("/o/", ["", "o"], "", 'a');
    assert "/o/" + ['a'] == "/o/a" && "" + ['a'] == "a" && ["", "o"] + ["a"] == ["", "o", "a"];
    Letter("/o/a", ["", "o"], "a", 'b');
    assert "/o/a" + ['b'] == "/o/ab" && "a" + ['b'] == "ab" && ["", "o"] + ["ab"] == ["", "o", "ab"];
  }

  // ----- A cleanup that fails

  /** Taking back a published root layer keeps the promise exactly when the root layer goes, or else the manifest and the
      payloads stay. */
  lemma CleanupKeepsUsable(s: Artifacts, path: Path, r: Removals)
    requires Usable(s) && s.root == Some(path)
    ensures Usable(AfterCleanup(s, true, path, r)) <==> r.root || (!r.manifest && r.payloads.Untouched?)
  {
    assert AtOrBelow(path, path);
  }

  /** A failed removal of the root layer alone leaves it published without manifest and payloads. */
  lemma CleanupCanBreak(path: Path, text: Text)
    ensures var s := Artifacts(Some(path), Some(path), Missing, Missing, map[path := Complete], Some(Marker(Some(text))));
      var r := Removals(false, true, true, true, Gone, MarkerRemoved);
      Consistent(s) && !Usable(AfterCleanup(s, true, path, r))
  {
    var s := Artifacts(Some(path), Some(path), Missing, Missing, map[path := Complete], Some(Marker(Some(text))));
    CleanupKeepsUsable(s, path, Removals(false, true, true, true, Gone, MarkerRemoved));
  }
}
