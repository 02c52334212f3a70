/** Whole runs of generating payloads: whatever happens, and wherever the process ends, something stays published. */
module PublicationTheorems {
  import opened FileSystem
  import opened Generations
  import opened Publication

  predicate StartsWith(name: Name, start: Name)
  {
    |name| >= |start| && name[..|start|] == start
  }

  /** A directory under a name that publishing gives out, or one of staging that was left untouched for long. */
  predicate IsLeftover(name: Name, e: Entry)
  {
    e.Folder? && (((StartsWith(name, "g-") || StartsWith(name, "c-")) && '/' !in name) || (StartsWith(name, ".tmp-") && e.stale))
  }

  /** Beside the published generation, there is exactly what was there before and is no leftover. */
  ghost predicate OnlyThisPublished(before: OwnerDirectory, after: OwnerDirectory, name: Name)
  {
    && name in after
    && forall n :: n != name ==>
         (n in after <==> n in before && !IsLeftover(n, before[n])) && (n in after ==> after[n] == before[n])
  }

  lemma PublishedOnly(before: OwnerDirectory, staged: OwnerDirectory, after: OwnerDirectory, staging: Name, name: Name)
    requires Without(staged, staging) == StaleRemoved(before) && Publishes(staged, after, staging, name) && name in after
    ensures OnlyThisPublished(before, after, name)
  {
    hide IsStagingName, IsGenerationName, StartsWith;
    forall n | n != name
      ensures n in after <==> n in before && !IsLeftover(n, before[n])
      ensures n in after ==> after[n] == before[n]
    {
      assert n in Without(staged, staging) <==> n in StaleRemoved(before);
      PrefixNames(n);
    }
  }

  lemma RunPublishedOnly(h: Identity, before: State, written: State, after: State, key: Name, staging: Name, name: Name)
    requires key in written.owners && DirectoryOf(Restored(before, key), key) == Without(written.owners[key], staging)
    requires Intact(h, after, key, name) && Publishes(written.owners[key], after.owners[key], staging, name)
    ensures OnlyThisPublished(DirectoryOf(before, key), after.owners[key], name)
  {
    hide Publishes, OnlyThisPublished, IsStale, Means, IsGenerationName;
    assert StaleRemoved(map[]) == map[];
    PublishedOnly(DirectoryOf(before, key), written.owners[key], after.owners[key], staging, name);
  }

  lemma PrefixNames(name: Name)
    ensures IsStagingName(name) <==> StartsWith(name, ".tmp-")
    ensures IsGenerationName(name) <==> (StartsWith(name, "g-") || StartsWith(name, "c-")) && '/' !in name
  {
  }

  /** Writes payloads for an owner and publishes them; gives up, and undoes what it did, when anything fails or when it
      is told to. The states on record are those in which the process may have ended. */
  method Generate(disk: Disk, key: Name, identity: Identity, payloads: seq<(Name, Content)>)
    returns (published: bool, ghost name: Name, committing: bool)
    requires disk.Recorded() && identity.Sound() && Recoverable(identity, disk.state, key)
    modifies disk
    ensures disk.Recorded() && disk.Grew(old(disk.trace))
    ensures AllKeep(identity, disk.trace, |old(disk.trace)|, old(disk.state), key)
    ensures published ==> Intact(identity, disk.state, key, name)
    ensures published ==> disk.state.owners[key][name].files == Collected(payloads)
    ensures published && disk.clean ==> OnlyThisPublished(DirectoryOf(old(disk.state), key), disk.state.owners[key], name)
    ensures !published && !committing && disk.clean ==>
      disk.state == old(disk.state) || disk.state == Restored(old(disk.state), key)
    ensures !disk.trouble ==> (published <==> CanBegin(old(disk.state), true, NamesOf(payloads)))
  {
    hide KeepsAll, DamageShows, Means, IsStagingName, PayloadGeneration.Undone, AllKeep, AllKeepAll, Intact, CanBegin,
         OnlyThisPublished, Publishes, Restored, DirectoryOf, PayloadGeneration.Staged;
    published, committing, name := false, false, "";
    ghost var before, from := disk.state, |disk.trace|;
    var generation := new PayloadGeneration(disk, true, key, identity);
    var ok := generation.Begin(NamesOf(payloads));
    KeepAllKeep(identity, disk.trace, from, before, key);
    if !ok {
      return;
    }
    ghost var first, mid := disk.trace, disk.state;
    RunKeeps(identity, disk.trace, from, before, disk.state, key);
    ok := WriteAll(generation, payloads);
    KeepFurther(identity, first, disk.trace, from, before, mid, key);
    RunKeeps(identity, disk.trace, from, before, disk.state, key);
    ghost var second, written, staging := disk.trace, disk.state, generation.staging;
    if ok && disk.clean {
      generation.UndoneDirectory();
    }
    published, name, committing := Finish(generation, payloads, ok);
    KeepFurther(identity, second, disk.trace, from, before, written, key);
    if published && disk.clean {
      RunPublishedOnly(identity, before, written, disk.state, key, staging.value, name);
    }
  }

  /** Publishes what was written, if all of it was, and gives up otherwise. */
  method Finish(generation: PayloadGeneration, payloads: seq<(Name, Content)>, written: bool)
    returns (published: bool, ghost name: Name, committing: bool)
    requires generation.Valid() && generation.active && generation.owned
    requires generation.names == NameSet(NamesOf(payloads))
    requires written ==> generation.StagedFiles() == Collected(payloads)
    modifies generation, generation.disk
    ensures generation.disk.Recorded() && generation.disk.Grew(old(generation.disk.trace))
    ensures AllKeep(generation.identity, generation.disk.trace, |old(generation.disk.trace)|, old(generation.disk.state),
                    generation.key)
    ensures published ==> Intact(generation.identity, generation.disk.state, generation.key, name)
    ensures published ==> generation.disk.state.owners[generation.key][name].files == Collected(payloads)
    ensures (generation.disk.clean ==> old(generation.disk.clean)) && (published ==> written)
    ensures published && generation.disk.clean ==>
      Publishes(old(generation.disk.state).owners[generation.key], generation.disk.state.owners[generation.key],
                old(generation.staging).value, name)
    ensures !published && !committing && generation.disk.clean ==> generation.disk.state == old(generation.target)
    ensures old(generation.disk.trouble) ==> generation.disk.trouble
    ensures !generation.disk.trouble ==> (published <==> written)
  {
    hide KeepsAll, DamageShows, Means, IsStagingName, PayloadGeneration.Undone, AllKeep, AllKeepAll, Intact, Publishes;
    published, committing, name := false, false, "";
    var disk := generation.disk;
    ghost var h, key, from, before := generation.identity, generation.key, |disk.trace|, disk.state;
    NothingKept(h, disk.trace, before, key);
    var goOn := disk.Ask();
    if written && goOn {
      CollectedNames(payloads);
      committing := true;
      ghost var files := generation.StagedFiles();
      published := generation.Commit();
      if published {
        name := h.NameOf(files);
      }
    }
    RunKeeps(h, disk.trace, from, before, disk.state, key);
    ghost var third, last := disk.trace, disk.state;
    generation.Rollback();
    RollbackKeeps(h, third, disk.trace, last, key, published);
    KeepFurther(h, third, disk.trace, from, before, last, key);
  }

  /** Any number of runs, any of which may end after any step: once the owner has a usable generation, it always has
      one, and nothing of another owner is ever changed. */
  method Runs(disk: Disk, key: Name, identity: Identity, runs: seq<seq<(Name, Content)>>)
    requires disk.Recorded() && identity.Sound() && Recoverable(identity, disk.state, key)
    modifies disk
    ensures Keeps(identity, old(disk.state), disk.state, key) && Recoverable(identity, disk.state, key)
  {
    hide Safe, DamageShows;
    ghost var before := disk.state;
    var k := 0;
    while k < |runs|
      invariant disk.Recorded() && Keeps(identity, before, disk.state, key) && Recoverable(identity, disk.state, key)
    {
      ghost var mid := disk.state;
      var from := |disk.trace|;
      var _, _, _ := Generate(disk, key, identity, runs[k]);
      var last: int := *;
      if !(from - 1 <= last < |disk.trace|) {
        last := |disk.trace| - 1;
      }
      assert last < from ==> disk.trace[last] == disk.trace[..from][last] == mid;
      disk.EndAfter(last);
      KeepsTwice(identity, before, mid, disk.state, key);
      k := k + 1;
    }
  }

  function NamesOf(payloads: seq<(Name, Content)>): (r: seq<Name>)
    ensures |r| == |payloads|
  {
    seq(|payloads|, i requires 0 <= i < |payloads| => payloads[i].0)
  }

  function Collected(payloads: seq<(Name, Content)>): Files
  {
    if payloads == [] then map[]
    else
      var last := payloads[|payloads| - 1];
      Collected(payloads[..|payloads| - 1])[last.0 := last.1]
  }

  lemma {:induction false} CollectedNames(payloads: seq<(Name, Content)>)
    ensures Collected(payloads).Keys == NameSet(NamesOf(payloads))
  {
    if payloads != [] {
      var m := |payloads| - 1;
      CollectedNames(payloads[..m]);
      assert NamesOf(payloads) == NamesOf(payloads[..m]) + [payloads[m].0];
      assert Collected(payloads).Keys == Collected(payloads[..m]).Keys + {payloads[m].0};
    }
  }

  method WriteAll(generation: PayloadGeneration, payloads: seq<(Name, Content)>) returns (ok: bool)
    requires generation.Valid() && generation.active && generation.owned && generation.StagedFiles() == map[]
    requires generation.names == NameSet(NamesOf(payloads))
    modifies generation.disk
    ensures generation.Valid() && generation.disk.Grew(old(generation.disk.trace))
    ensures generation.disk.clean == old(generation.disk.clean)
    ensures ok ==> generation.StagedFiles() == Collected(payloads)
    ensures old(generation.disk.trouble) || !ok ==> generation.disk.trouble
    ensures AllKeep(generation.identity, generation.disk.trace, |old(generation.disk.trace)|, old(generation.disk.state),
                    generation.key)
  {
    hide KeepsAll, DamageShows, PayloadGeneration.Undone, IsStagingName, AllKeep, AllKeepAll, Keeps;
    ghost var h, key, before, from := generation.identity, generation.key, generation.disk.state, |generation.disk.trace|;
    NothingKept(h, generation.disk.trace, before, key);
    var k := 0;
    assert payloads[..0] == [];
    ok := true;
    while k < |payloads|
      invariant 0 <= k <= |payloads| && generation.Valid() && generation.active && ok
      invariant generation.disk.Grew(old(generation.disk.trace)) && generation.disk.clean == old(generation.disk.clean)
      invariant old(generation.disk.trouble) ==> generation.disk.trouble
      invariant |generation.disk.trace| == from ==> generation.disk.state == before
      invariant AllKeep(h, generation.disk.trace, from, before, key)
      invariant generation.StagedFiles() == Collected(payloads[..k])
    {
      ghost var mid, first := generation.disk.state, generation.disk.trace;
      RunKeeps(h, first, from, before, mid, key);
      assert NamesOf(payloads)[k] in NamesOf(payloads);
      ok := generation.WritePayload(payloads[k].0, payloads[k].1);
      if ok || generation.disk.trace != first {
        KeepAllKeep(h, generation.disk.trace, |first|, mid, key);
      } else {
        NothingKept(h, first, mid, key);
      }
      KeepFurther(h, first, generation.disk.trace, from, before, mid, key);
      if !ok {
        return;
      }
      assert payloads[..k + 1][..k] == payloads[..k];
      k := k + 1;
    }
    assert payloads[..k] == payloads;
  }

  lemma KeepAllKeep(h: Identity, trace: seq<State>, from: nat, before: State, key: Name)
    requires AllKeepAll(trace, from, before, key)
    ensures AllKeep(h, trace, from, before, key)
  {
    hide KeepsAll, Keeps;
    forall i | from <= i < |trace| ensures Keeps(h, before, trace[i], key) {
      KeepsAllKeeps(h, before, trace[i], key);
    }
  }

  /** The last state on record is kept like the others. */
  lemma RunKeeps(h: Identity, trace: seq<State>, from: nat, before: State, s: State, key: Name)
    requires AllKeep(h, trace, from, before, key) && trace != [] && trace[|trace| - 1] == s && from <= |trace|
    requires |trace| == from ==> s == before
    ensures Keeps(h, before, s, key)
  {
    hide Safe;
  }

  lemma RollbackKeeps(h: Identity, first: seq<State>, trace: seq<State>, before: State, key: Name, inactive: bool)
    requires if inactive then trace == first else AllKeepAll(trace, |first|, before, key)
    ensures AllKeep(h, trace, |first|, before, key)
  {
    hide KeepsAll, Keeps;
    if !inactive {
      KeepAllKeep(h, trace, |first|, before, key);
    }
  }
}
