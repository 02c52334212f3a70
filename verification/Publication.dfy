/** One generation of payload files: begun, written, and then published or rolled back. */
module Publication {
  import opened Options
  import opened FileSystem
  import opened Generations

  // ----- Names that stay inside the directory

  /** The parts of a name between its slashes. */
  function Components(value: Name): (r: seq<Name>)
    ensures r != []
  {
    if value == "" then [""]
    else
      var rest := Components(value[..|value| - 1]);
      if value[|value| - 1] == '/' then rest + [""]
      else rest[..|rest| - 1] + [rest[|rest| - 1] + [value[|value| - 1]]]
  }

  predicate IsPlainComponent(component: Name)
  {
    component != "" && component != "." && component != ".."
  }

  predicate IsSafeRelativeName(value: Name)
  {
    && (forall c :: c in value ==> c !in "\\:\r\n")
    && forall component :: component in Components(value) ==> IsPlainComponent(component)
  }

  /** Names that stay inside the directory and differ. */
  predicate Declarable(names: seq<Name>)
  {
    (forall n :: n in names ==> IsSafeRelativeName(n)) && |NameSet(names)| == |names|
  }

  /** Declares names, which have to be safe and different. */
  method Declare(names: seq<Name>) returns (ok: bool, declared: set<Name>)
    ensures ok <==> Declarable(names)
    ensures ok ==> declared == NameSet(names)
  {
    hide IsSafeRelativeName;
    declared := {};
    var k := 0;
    while k < |names|
      invariant 0 <= k <= |names| && declared == NameSet(names[..k]) && |declared| == k
      invariant forall n :: n in names[..k] ==> IsSafeRelativeName(n)
    {
      DeclaredNext(names, k);
      if !IsSafeRelativeName(names[k]) || names[k] in declared {
        return false, declared;
      }
      declared := declared + {names[k]};
      k := k + 1;
    }
    assert names[..k] == names;
    ok := true;
  }

  function NameSet(names: seq<Name>): set<Name>
  {
    set n | n in names
  }

  lemma DeclaredNext(names: seq<Name>, k: nat)
    requires k < |names|
    ensures NameSet(names[..k + 1]) == NameSet(names[..k]) + {names[k]}
    ensures names[k] in names
    ensures names[k] in names[..k] ==> |NameSet(names)| < |names|
  {
    assert names[..k + 1] == names[..k] + [names[k]];
    if names[k] in names[..k] {
      var others := names[..k] + names[k + 1..];
      assert NameSet(names) == NameSet(others);
      FewNames(others);
    }
  }

  lemma {:induction false} FewNames(names: seq<Name>)
    ensures |NameSet(names)| <= |names|
  {
    if names != [] {
      var m := |names| - 1;
      FewNames(names[..m]);
      assert NameSet(names) == NameSet(names[..m]) + {names[m]};
    }
  }

  /** A request that only the system can refuse. */
  predicate CanBegin(s: State, owned: bool, wanted: seq<Name>)
  {
    && Declarable(wanted) && s.place != Obstructed
    && (owned || NameSet(wanted) !! s.files.Keys)
  }

  // ----- Undoing

  /** A directory without staging that has been left untouched for long. */
  function StaleRemoved(d: OwnerDirectory): OwnerDirectory
  {
    map n | n in d && !IsStale(n, d[n]) :: d[n]
  }

  predicate IsStale(name: Name, e: Entry) { IsStagingName(name) && e.Folder? && e.stale }

  /** The state before, but for stale staging of the owner. */
  function Restored(before: State, key: Name): State
  {
    if key in before.owners then With(before, key, StaleRemoved(before.owners[key])) else before
  }

  function RemoveOwner(s: State, key: Name): State { s.(owners := Without(s.owners, key)) }

  class PayloadGeneration {
    const disk: Disk
    /** Without an owner, files are written into the payload directory itself. */
    const owned: bool
    const key: Name
    const identity: Identity
    var names: set<Name>
    var active: bool
    var directoryCreated: bool
    var ownerDirectoryCreated: bool
    var staging: Option<Name>
    var publishedName: Option<Name>
    /** The state before this generation, and what rolling it back leads to. */
    ghost var base: State
    ghost var target: State

    constructor (disk: Disk, owned: bool, key: Name, identity: Identity)
      requires disk.Recorded() && identity.Sound()
      ensures Valid() && !active && this.disk == disk && this.owned == owned && this.key == key
      ensures this.identity == identity && publishedName == None
    {
      this.disk, this.owned, this.key, this.identity := disk, owned, key, identity;
      names, active, directoryCreated, ownerDirectoryCreated := {}, false, false, false;
      staging, publishedName, base, target := None, None, disk.state, disk.state;
    }

    ghost predicate Valid()
      reads this, disk
    {
      && disk.Recorded() && identity.Sound()
      && (!active ==> staging == None && !directoryCreated && !ownerDirectoryCreated)
      && (!owned ==> staging == None && !ownerDirectoryCreated)
      && (active && owned ==> Staged() && DamageShows(identity, disk.state, key))
      && (active && disk.clean ==> Undone(disk.state) == target)
    }

    /** The staging directory is there, with declared payloads only. */
    ghost predicate Staged()
      reads this, disk
    {
      && staging.Some? && IsStagingName(staging.value) && key in disk.state.owners
      && staging.value in disk.state.owners[key] && disk.state.owners[key][staging.value].Folder?
      && disk.state.owners[key][staging.value].files.Keys <= names
    }

    ghost function StagedFiles(): Files
      requires Staged()
      reads this, disk
    {
      disk.state.owners[key][staging.value].files
    }

    /** What rolling back makes of a state when every removal succeeds. */
    ghost function Undone(s: State): State
      reads this`names, this`staging, this`ownerDirectoryCreated, this`directoryCreated
    {
      WithoutDirectory(WithoutOwner(WithoutPayloads(s)))
    }

    /** Rolling back leaves in the owner's directory what is not staged. */
    lemma UndoneDirectory()
      requires Valid() && active && owned && disk.clean
      ensures staging.Some? && key in disk.state.owners
      ensures DirectoryOf(target, key) == Without(disk.state.owners[key], staging.value)
    {
    }

    ghost function WithoutPayloads(s: State): State
      reads this`names, this`staging
    {
      if !owned then s.(files := WithoutNames(s.files, names))
      else if staging.Some? && key in s.owners then With(s, key, Without(s.owners[key], staging.value))
      else s
    }

    ghost function WithoutOwner(s: State): State
      reads this`ownerDirectoryCreated
    {
      if ownerDirectoryCreated && key in s.owners && s.owners[key] == map[] then RemoveOwner(s, key) else s
    }

    ghost function WithoutDirectory(s: State): State
      reads this`directoryCreated
    {
      if directoryCreated && s.place == Directory && s.owners == map[] && s.files == map[] then s.(place := Absent) else s
    }

    /** Removes what this generation wrote, and the directories it made when they are empty. */
    method Rollback()
      requires disk.Recorded() && (!active ==> staging == None)
      requires owned && staging.Some? ==> IsStagingName(staging.value) && key in disk.state.owners
      modifies this, disk
      ensures old(disk.trouble) ==> disk.trouble
      ensures !active && staging == None && disk.Recorded() && disk.Grew(old(disk.trace))
      ensures base == old(base) && names == old(names) && publishedName == old(publishedName)
      ensures !old(active) ==> disk.state == old(disk.state) && disk.trace == old(disk.trace) && disk.clean == old(disk.clean)
      ensures !old(active) ==> directoryCreated == old(directoryCreated) && ownerDirectoryCreated == old(ownerDirectoryCreated)
      ensures old(active) ==> !directoryCreated && !ownerDirectoryCreated
      ensures old(active) && disk.clean ==> old(disk.clean) && disk.state == old(Undone(disk.state))
      ensures old(active) && owned ==> AllKeepAll(disk.trace, |old(disk.trace)|, old(disk.state), key)
      ensures owned ==> KeepsAll(old(disk.state), disk.state, key)
    {
      hide KeepsAll;
      ghost var before := disk.state;
      KeepsAllSame(before, key);
      if !active {
        return;
      }
      active := false;
      if !owned {
        RemoveNames();
      } else if staging.Some? {
        var _ := disk.RemoveAll(key, staging.value);
        StagingTouched(disk.trace, |old(disk.trace)|, before, disk.state, key, staging.value);
      }
      staging := None;
      ghost var mid, first := disk.state, disk.trace;
      RemoveDirectories();
      if owned {
        KeepAllFurther(first, disk.trace, |old(disk.trace)|, before, mid, disk.state, key);
      }
    }

    /** Removes the owner's staging directories that were left untouched for long. */
    method RemoveStaleStaging()
      requires disk.Recorded() && key in disk.state.owners
      modifies disk
      ensures old(disk.trouble) ==> disk.trouble
      ensures disk.Recorded() && disk.Grew(old(disk.trace)) && key in disk.state.owners
      ensures disk.clean ==> old(disk.clean) && disk.state == Restored(old(disk.state), key)
      ensures AllKeepAll(disk.trace, |old(disk.trace)|, old(disk.state), key)
      ensures KeepsAll(old(disk.state), disk.state, key)
      ensures disk.state.place == old(disk.state.place)
    {
      hide KeepsAll, IsStagingName, IsStale;
      ghost var before := disk.state;
      KeepsAllSame(before, key);
      var stale := StaleNames(disk.state.owners[key]);
      var left := stale;
      ghost var gone: set<Name> := {};
      assert Others(before.owners[key], gone) == before.owners[key];
      while left != {}
        invariant old(disk.trouble) ==> disk.trouble
        invariant disk.Recorded() && disk.Grew(old(disk.trace)) && key in disk.state.owners
        invariant left + gone == stale && (disk.clean ==> old(disk.clean))
        invariant disk.clean ==> disk.state == With(before, key, Others(before.owners[key], gone))
        invariant AllKeepAll(disk.trace, |old(disk.trace)|, before, key) && KeepsAll(before, disk.state, key)
        invariant disk.state.place == before.place
        decreases left
      {
        var name :| name in left;
        ghost var mid, first := disk.state, disk.trace;
        assert IsStagingName(name) by { StaleIsStaging(before.owners[key], name); }
        var _ := disk.RemoveAll(key, name);
        StagingTouched(disk.trace, |first|, mid, disk.state, key, name);
        KeepAllFurther(first, disk.trace, |old(disk.trace)|, before, mid, disk.state, key);
        OthersFewer(before.owners[key], gone, name);
        left, gone := left - {name}, gone + {name};
      }
      assert Others(before.owners[key], stale) == StaleRemoved(before.owners[key]);
    }

    /** The checks on the names and the directory. */
    method Check(wanted: seq<Name>) returns (ok: bool, declared: set<Name>)
      requires disk.state.place != Directory ==> disk.state.files == map[]
      modifies disk`trouble
      ensures old(disk.trouble) ==> disk.trouble
      ensures ok ==> disk.trouble == old(disk.trouble) && declared == NameSet(wanted) && CanBegin(disk.state, owned, wanted)
      ensures !disk.trouble ==> (ok <==> CanBegin(disk.state, owned, wanted))
    {
      hide Declarable, NameSet;
      ok, declared := Declare(wanted);
      var readable := disk.Ask();
      if !ok || !readable || disk.state.place == Obstructed {
        return false, declared;
      }
      if !owned && disk.state.place == Directory && declared * disk.state.files.Keys != {} {
        return false, declared;
      }
      assert forall n :: n in declared ==> n !in disk.state.files || n in declared * disk.state.files.Keys;
    }

    /** Prepares the directory that the declared payloads are written into. */
    method Begin(wanted: seq<Name>) returns (ok: bool)
      requires Valid() && (disk.state.place != Directory ==> disk.state.owners == map[] && disk.state.files == map[])
      requires owned ==> DamageShows(identity, disk.state, key)
      modifies this, disk
      ensures old(disk.trouble) ==> disk.trouble
      ensures Valid() && disk.Grew(old(disk.trace))
      ensures old(active) ==> !ok && disk.state == old(disk.state) && active
      ensures ok ==> active && names == NameSet(wanted)
      ensures ok ==> target == if owned then Restored(old(disk.state), key) else old(disk.state)
      ensures ok && owned ==> StagedFiles() == map[]
      ensures ok && !owned ==> names !! old(disk.state).files.Keys
      ensures !disk.trouble ==> (ok <==> !old(active) && CanBegin(old(disk.state), owned, wanted))
      ensures !old(active) && !ok ==> !active
      ensures !old(active) && !ok && disk.clean ==>
        disk.state == old(disk.state) || disk.state == Restored(old(disk.state), key)
      ensures owned ==> AllKeepAll(disk.trace, |old(disk.trace)|, old(disk.state), key)
    {
      hide KeepsAll, DamageShows, Declarable, NameSet, IsStagingName;
      if active {
        return false;
      }
      var declared;
      ok, declared := Check(wanted);
      if !ok {
        return;
      }
      names, active, base := declared, true, disk.state;
      KeepsAllSame(base, key);
      if disk.state.place != Directory {
        ok := disk.Try(disk.state.(place := Directory));
        if !ok {
          Rollback();
          return false;
        }
        directoryCreated := true;
      }
      if !owned {
        assert WithoutNames(base.files, names) == base.files;
        target := base;
        return true;
      }
      DirectoryMade(base, key);
      ok := PrepareStaging(|old(disk.trace)|);
    }

    /** Rolls back what there is so far. */
    method GiveUp(ghost from: nat)
      requires active && owned && disk.Recorded() && AllKeepAll(disk.trace, from, base, key)
      requires KeepsAll(base, disk.state, key) && from <= |disk.trace|
      requires staging.Some? ==> IsStagingName(staging.value) && key in disk.state.owners
      modifies this, disk
      ensures old(disk.trouble) ==> disk.trouble
      ensures !active && staging == None && !directoryCreated && !ownerDirectoryCreated && disk.Recorded()
      ensures disk.Grew(old(disk.trace)) && AllKeepAll(disk.trace, from, base, key)
      ensures base == old(base) && names == old(names)
      ensures disk.clean ==> old(disk.clean) && disk.state == old(Undone(disk.state))
    {
      hide KeepsAll;
      ghost var mid, first := disk.state, disk.trace;
      Rollback();
      KeepAllFurther(first, disk.trace, from, base, mid, disk.state, key);
    }

    /** Prepares the owner's directory and a staging directory in it. */
    method PrepareStaging(ghost from: nat) returns (ok: bool)
      requires active && owned && staging == None && disk.Recorded() && identity.Sound() && from <= |disk.trace|
      requires disk.state == base.(place := Directory) && base.place != Obstructed && !ownerDirectoryCreated
      requires base.place != Directory ==> base.owners == map[] && base.files == map[]
      requires directoryCreated <==> base.place == Absent
      requires AllKeepAll(disk.trace, from, base, key) && DamageShows(identity, base, key)
      modifies this, disk
      ensures old(disk.trouble) ==> disk.trouble
      ensures Valid() && disk.Grew(old(disk.trace)) && AllKeepAll(disk.trace, from, base, key)
      ensures base == old(base) && names == old(names)
      ensures ok ==> active && StagedFiles() == map[] && target == Restored(base, key)
      ensures !ok ==> !active && (disk.clean ==> disk.state == base || disk.state == Restored(base, key))
      ensures !ok ==> disk.trouble
    {
      hide KeepsAll, DamageShows;
      DirectoryMade(base, key);
      var readable := disk.Ask();
      if !readable {
        GiveUp(from);
        return false;
      }
      ok := PrepareOwner(from);
      if !ok {
        GiveUp(from);
        return false;
      }
      target := Restored(base, key);
      ok := MakeStaging(from);
      DamageStillShows(identity, base, disk.state, key);
      if !ok {
        GiveUp(from);
      }
    }

    /** The state from which the owner's directory is prepared. */
    ghost predicate Starting()
      reads this, disk
    {
      && active && owned && staging == None && disk.Recorded()
      && base.place != Obstructed && (directoryCreated <==> base.place == Absent)
      && (base.place != Directory ==> base.owners == map[] && base.files == map[])
    }

    method PrepareOwner(ghost from: nat) returns (ok: bool)
      requires Starting() && disk.state == base.(place := Directory) && !ownerDirectoryCreated && from <= |disk.trace|
      requires AllKeepAll(disk.trace, from, base, key) && KeepsAll(base, disk.state, key)
      modifies this`ownerDirectoryCreated, disk
      ensures old(disk.trouble) ==> disk.trouble
      ensures Starting() && disk.Grew(old(disk.trace)) && AllKeepAll(disk.trace, from, base, key)
      ensures KeepsAll(base, disk.state, key)
      ensures disk.clean ==> Undone(disk.state) == base || Undone(disk.state) == Restored(base, key)
      ensures ok ==> key in disk.state.owners && (disk.clean ==> Undone(disk.state) == Restored(base, key))
      ensures !ok ==> disk.trouble
    {
      hide KeepsAll, IsStale, IsStagingName;
      if key in disk.state.owners {
        ghost var mid, first := disk.state, disk.trace;
        RemoveStaleStaging();
        KeepAllFurther(first, disk.trace, from, base, mid, disk.state, key);
        ok := true;
      } else {
        OwnerMade(base, disk.state, key);
        ok := disk.Try(With(disk.state, key, map[]));
        if ok {
          ownerDirectoryCreated := true;
          assert Without(disk.state.owners, key) == base.owners;
        }
      }
    }

    /** Tries new names for a staging directory. */
    method MakeStaging(ghost from: nat) returns (ok: bool)
      requires Starting() && key in disk.state.owners && from <= |disk.trace|
      requires AllKeepAll(disk.trace, from, base, key) && KeepsAll(base, disk.state, key)
      modifies this`staging, disk
      ensures old(disk.trouble) ==> disk.trouble
      ensures disk.Recorded() && disk.Grew(old(disk.trace)) && AllKeepAll(disk.trace, from, base, key)
      ensures KeepsAll(base, disk.state, key) && Undone(disk.state) == old(Undone(disk.state))
      ensures disk.clean == old(disk.clean)
      ensures ok ==> Staged() && StagedFiles() == map[]
      ensures !ok ==> staging == None && disk.state == old(disk.state) && disk.trouble
    {
      hide KeepsAll;
      var attempt := 0;
      while attempt < 16 && staging.None?
        invariant old(disk.trouble) ==> disk.trouble
        invariant disk.Recorded() && disk.Grew(old(disk.trace)) && AllKeepAll(disk.trace, from, base, key)
        invariant KeepsAll(base, disk.state, key) && disk.clean == old(disk.clean)
        invariant Undone(disk.state) == old(Undone(disk.state))
        invariant staging.Some? ==> Staged() && StagedFiles() == map[]
        invariant staging.None? ==> disk.state == old(disk.state) && (attempt > 0 ==> disk.trouble)
      {
        var digits: Name := *;
        TryStaging(STAGING_PREFIX + digits);
        attempt := attempt + 1;
      }
      ok := staging.Some?;
    }

    /** Tries one new name. A name that is taken counts as trouble. */
    method TryStaging(name: Name)
      requires staging == None && owned && key in disk.state.owners && IsStagingName(name) && disk.Recorded()
      requires KeepsAll(base, disk.state, key)
      modifies this`staging, disk
      ensures old(disk.trouble) ==> disk.trouble
      ensures disk.Recorded() && disk.clean == old(disk.clean) && KeepsAll(base, disk.state, key)
      ensures disk.trace == old(disk.trace) || disk.trace == old(disk.trace) + [disk.state]
      ensures Undone(disk.state) == old(Undone(disk.state))
      ensures staging.Some? ==> Staged() && StagedFiles() == map[]
      ensures staging.None? ==> disk.state == old(disk.state) && disk.trouble
    {
      hide KeepsAll, IsStagingName;
      if name in disk.state.owners[key] {
        disk.trouble := true;
      } else {
        StagingMade(base, disk.state, key, name);
        var made := disk.Try(With(disk.state, key, disk.state.owners[key][name := Folder(map[], false)]));
        if made {
          staging := Some(name);
          assert Without(disk.state.owners[key], name) == old(disk.state).owners[key];
          assert With(disk.state, key, old(disk.state).owners[key]) == old(disk.state);
        }
      }
    }

    // ----- Writing

    /** One step of writing a declared payload. */
    method Put(name: Name, content: Content) returns (ok: bool)
      requires Valid() && active && name in names
      modifies disk
      ensures old(disk.trouble) ==> disk.trouble
      ensures Valid() && disk.Grew(old(disk.trace)) && disk.clean == old(disk.clean)
      ensures owned ==> AllKeepAll(disk.trace, |old(disk.trace)|, old(disk.state), key)
      ensures owned && ok ==> StagedFiles() == old(StagedFiles())[name := content]
      ensures owned && !ok ==> StagedFiles() == old(StagedFiles())
      ensures !ok ==> disk.trouble
    {
      if owned {
        ok := PutStaged(name, content);
      } else {
        ghost var before := disk.state;
        ok := disk.Try(disk.state.(files := disk.state.files[name := content]));
        assert ok ==> WithoutNames(disk.state.files, names) == WithoutNames(before.files, names);
      }
    }

    method PutStaged(name: Name, content: Content) returns (ok: bool)
      requires Valid() && active && name in names && owned
      modifies disk
      ensures old(disk.trouble) ==> disk.trouble
      ensures Valid() && disk.Grew(old(disk.trace)) && disk.clean == old(disk.clean)
      ensures AllKeepAll(disk.trace, |old(disk.trace)|, old(disk.state), key)
      ensures StagedFiles() == if ok then old(StagedFiles())[name := content] else old(StagedFiles())
      ensures !ok ==> disk.trouble
    {
      hide KeepsAll, DamageShows, IsStagingName;
      ghost var before := disk.state;
      var e := disk.state.owners[key][staging.value].(files := disk.state.owners[key][staging.value].files[name := content]);
      ok := disk.Try(With(disk.state, key, disk.state.owners[key][staging.value := e]));
      if ok {
        StagingChanged(before, disk.state, key, staging.value, e);
        DamageStillShows(identity, before, disk.state, key);
        SamePayloadsUndone(before);
      }
    }

    lemma SamePayloadsUndone(before: State)
      requires owned && staging.Some? && key in before.owners && key in disk.state.owners
      requires disk.state == With(before, key, disk.state.owners[key])
      requires Without(disk.state.owners[key], staging.value) == Without(before.owners[key], staging.value)
      ensures Undone(disk.state) == Undone(before)
    {
      assert WithoutPayloads(disk.state) == WithoutPayloads(before);
    }

    /** Writes a declared payload; part of it may be all that gets written. */
    method WritePayload(name: Name, content: Content) returns (ok: bool)
      requires Valid()
      modifies disk
      ensures old(disk.trouble) ==> disk.trouble
      ensures Valid() && disk.Grew(old(disk.trace)) && disk.clean == old(disk.clean)
      ensures !active || name !in names ==> !ok && disk.state == old(disk.state) && disk.trace == old(disk.trace)
      ensures active && owned ==> AllKeepAll(disk.trace, |old(disk.trace)|, old(disk.state), key)
      ensures active && owned && ok ==> StagedFiles() == old(StagedFiles())[name := content]
      ensures !disk.trouble ==> (ok <==> active && name in names)
    {
      hide KeepsAll, DamageShows, IsStagingName, Staged, Undone;
      if !active || name !in names {
        return false;
      }
      ghost var before := disk.state;
      var part: int := *;
      ok := Put(name, if 0 <= part <= |content| then content[..part] else []);
      if ok {
        ghost var mid, first := disk.state, disk.trace;
        ok := Put(name, content);
        if owned {
          PutTwice(first, disk.trace, |old(disk.trace)|, before, mid, key);
        }
      }
    }

    // ----- Publishing

    /** Every payload of this generation is there, with the size it was staged with. */
    ghost predicate Completed(generation: Entry)
      requires Staged()
      reads this, disk
    {
      forall n :: n in names ==> Matches(generation, StagedFiles(), n)
    }

    method IsComplete(generation: Name) returns (r: bool)
      requires Valid() && active && owned && generation in disk.state.owners[key]
      ensures r <==> Completed(disk.state.owners[key][generation])
    {
      hide KeepsAll, DamageShows, IsStagingName, Undone;
      var published, staged := disk.state.owners[key][generation], disk.state.owners[key][staging.value];
      var left := names;
      while left != {}
        invariant left <= names
        invariant forall n :: n in names && n !in left ==> Matches(published, staged.files, n)
        decreases left
      {
        var n :| n in left;
        if !Matches(published, staged.files, n) {
          return false;
        }
        left := left - {n};
      }
      r := true;
    }

    /** Clears a damaged generation of this name away. */
    method ClearDamaged(name: Name, ghost files: Files) returns (ok: bool)
      requires Valid() && active && owned && IsGenerationName(name) && Means(identity, name, files)
      requires files == StagedFiles()
      modifies this`target, disk
      ensures old(disk.trouble) ==> disk.trouble
      ensures Valid() && StagedFiles() == files && disk.Grew(old(disk.trace)) && (disk.clean ==> old(disk.clean))
      ensures Kept(|old(disk.trace)|, old(disk.state), files, name, ok)
      ensures Harmless(old(disk.state), files, name) ==> Keeps(identity, old(disk.state), disk.state, key)
      ensures Removing(old(disk.state), disk.state, key, name)
      ensures ok && name in disk.state.owners[key] ==> Intact(identity, disk.state, key, name)
      ensures disk.state == old(disk.state) ==> target == old(target)
      ensures !ok ==> disk.trouble
    {
      hide IsStagingName, Means, Undone, Keeps, IsGenerationName, Sheltered;
      ghost var before := disk.state;
      StagingIsNoGeneration(staging.value);
      StateKept(identity, before, key, name);
      if name !in disk.state.owners[key] {
        return true;
      }
      var complete := IsComplete(name);
      if complete {
        CompleteIsIntact(name, files);
        return true;
      }
      NotSameSizes(disk.state.owners[key][name], before, files, name);
      ok := Discard(name, files);
      StillStaged(before, disk.state, name);
      RemovingShowsDamage(identity, before, disk.state, key, name);
      if disk.state != before {
        target := Undone(disk.state);
      }
    }

    /** Removes a generation that was found incomplete. */
    method Discard(name: Name, ghost files: Files) returns (ok: bool)
      requires disk.Recorded() && identity.Sound() && DamageShows(identity, disk.state, key)
      requires key in disk.state.owners && name in disk.state.owners[key]
      requires IsGenerationName(name) && Means(identity, name, files)
      requires var e := disk.state.owners[key][name];
        Harmless(disk.state, files, name) ==>
          (Sheltered(identity, disk.state, key, name) || (e.Folder? ==> !SameSizes(files, e.files)))
      modifies disk
      ensures old(disk.trouble) || !ok ==> disk.trouble
      ensures disk.Recorded() && disk.Grew(old(disk.trace)) && (disk.clean ==> old(disk.clean)) && (!ok ==> !disk.clean)
      ensures Kept(|old(disk.trace)|, old(disk.state), files, name, ok)
      ensures Harmless(old(disk.state), files, name) ==> Keeps(identity, old(disk.state), disk.state, key)
      ensures Removing(old(disk.state), disk.state, key, name)
      ensures ok ==> disk.state == With(old(disk.state), key, Without(old(disk.state).owners[key], name))
    {
      hide Means, Keeps, IsGenerationName, Sheltered, SameSizes, DamageShows;
      ghost var before := disk.state;
      ok := disk.RemoveAll(key, name);
      if Harmless(before, files, name) {
        forall s: State | Removing(before, s, key, name) ensures Keeps(identity, before, s, key) {
          RemovingHarmless(identity, before, s, key, name, files);
        }
      } else if ok {
        RemovingUnsheltered(identity, before, disk.state, key, name);
        RemovedNotKept(identity, disk.trace, |old(disk.trace)|, before, key);
      }
    }

    lemma NotSameSizes(e: Entry, before: State, files: Files, name: Name)
      requires Staged() && files == StagedFiles() && !Completed(e)
      ensures Harmless(before, files, name) ==>
                (Sheltered(identity, before, key, name) || (e.Folder? ==> !SameSizes(files, e.files)))
    {
    }

    /** All declared payloads are staged, so a usable generation of this name is found complete and stays; or it may go,
        because the owner has another usable one. */
    ghost predicate Harmless(before: State, files: Files, name: Name)
      reads this`names
    {
      files.Keys == names || Sheltered(identity, before, key, name)
    }

    /** Exactly then publishing keeps a usable generation in every state. */
    ghost predicate Kept(from: nat, before: State, files: Files, name: Name, ok: bool)
      reads this`names, disk
    {
      && (Harmless(before, files, name) ==> AllKeep(identity, disk.trace, from, before, key))
      && (ok && !Harmless(before, files, name) ==> !AllKeep(identity, disk.trace, from, before, key))
    }

    /** What has all payloads with their sizes is the generation itself, as damage would show. */
    lemma CompleteIsIntact(name: Name, files: Files)
      requires Valid() && active && owned && IsGenerationName(name) && Means(identity, name, files)
      requires files == StagedFiles() && name in disk.state.owners[key]
      requires Completed(disk.state.owners[key][name])
      ensures Intact(identity, disk.state, key, name) && disk.state.owners[key][name].files == files
      ensures files.Keys == names
    {
      assert names <= files.Keys;
    }

    lemma StillStaged(before: State, s: State, name: Name)
      requires staging.Some? && name != staging.value && Removing(before, s, key, name)
      requires staging.value in before.owners[key]
      ensures staging.value in s.owners[key] && s.owners[key][staging.value] == before.owners[key][staging.value]
    {
      TouchedOnly(before, s, key, name, staging.value);
    }

    /** Drops what is staged, because the same is published already. */
    method DropStaging(ghost before: State, name: Name, ghost files: Files)
      requires disk.Recorded() && Staged() && identity.Sound() && Removing(before, disk.state, key, name)
      requires Intact(identity, disk.state, key, name) && Means(identity, name, files)
      modifies disk
      ensures old(disk.trouble) ==> disk.trouble
      ensures disk.Recorded() && disk.Grew(old(disk.trace)) && (disk.clean ==> old(disk.clean))
      ensures Framed(identity, before, disk.state, key) && Intact(identity, disk.state, key, name)
      ensures disk.state.owners[key][name].files == files
      ensures AllKeep(identity, disk.trace, |old(disk.trace)|, old(disk.state), key)
      ensures disk.clean ==> MovedInPlace(before.owners[key], disk.state.owners[key], staging.value, name)
    {
      StagingIsNoGeneration(staging.value);
      hide IsStagingName, Means, IsGenerationName;
      ghost var mid, first, st := disk.state, disk.trace, staging.value;
      var _ := disk.RemoveAll(key, staging.value);
      StagingGone(identity, before, mid, disk.state, key, st, name);
      StagingGoneTrace(identity, disk.trace, |first|, mid, key, st);
      MeansOnce(identity, name, mid.owners[key][name].files, files);
    }

    /** The one step that publishes. */
    method Rename(ghost before: State, name: Name, ghost files: Files) returns (ok: bool)
      requires Valid() && active && owned && IsGenerationName(name) && Means(identity, name, files)
      requires files == StagedFiles() && Removing(before, disk.state, key, name) && name !in disk.state.owners[key]
      modifies disk
      ensures old(disk.trouble) ==> disk.trouble
      ensures disk.Recorded() && disk.Grew(old(disk.trace)) && disk.clean == old(disk.clean)
      ensures AllKeep(identity, disk.trace, |old(disk.trace)|, old(disk.state), key)
      ensures ok ==> Framed(identity, before, disk.state, key) && Intact(identity, disk.state, key, name)
      ensures ok ==> disk.state.owners[key][name].files == files
      ensures ok ==> MovedInPlace(before.owners[key], disk.state.owners[key], staging.value, name)
      ensures !ok ==> disk.state == old(disk.state) && disk.trace == old(disk.trace) && disk.trouble
    {
      StagingIsNoGeneration(staging.value);
      hide IsStagingName, Means, Undone, DamageShows, IsGenerationName, Removing, Framed, Keeps, Intact, MovedInPlace;
      var d := Without(disk.state.owners[key], staging.value)[name := disk.state.owners[key][staging.value]];
      Renamed(identity, before, disk.state, key, staging.value, name);
      ok := disk.Try(With(disk.state, key, d));
    }

    /** Puts what is staged in place under its name, by one step, unless it is there already. */
    method MoveInPlace(name: Name, ghost files: Files) returns (ok: bool)
      requires Valid() && active && owned && IsGenerationName(name) && Means(identity, name, files)
      requires files == StagedFiles()
      modifies this`target, disk
      ensures old(disk.trouble) ==> disk.trouble
      ensures disk.Recorded() && disk.Grew(old(disk.trace)) && (disk.clean ==> old(disk.clean))
      ensures Kept(|old(disk.trace)|, old(disk.state), files, name, ok)
      ensures ok ==> Framed(identity, old(disk.state), disk.state, key)
      ensures ok ==> Intact(identity, disk.state, key, name) && disk.state.owners[key][name].files == files
      ensures ok && disk.clean ==> MovedInPlace(old(disk.state).owners[key], disk.state.owners[key], staging.value, name)
      ensures !ok ==> Valid() && Removing(old(disk.state), disk.state, key, name) && disk.trouble
      ensures !ok && disk.state == old(disk.state) ==> target == old(target)
    {
      hide IsStagingName, Means, Undone, DamageShows, Harmless, AllKeep, IsGenerationName, Framed, Keeps, MovedInPlace,
           Removing;
      ghost var before := disk.state;
      StagingIsNoGeneration(staging.value);
      ok := ClearDamaged(name, files);
      if !ok {
        return;
      }
      ghost var mid, first := disk.state, disk.trace;
      if name in disk.state.owners[key] {
        DropStaging(before, name, files);
      } else {
        ok := Rename(before, name, files);
      }
      if Harmless(before, files, name) {
        KeepFurther(identity, first, disk.trace, |old(disk.trace)|, before, mid, key);
      } else {
        StillNotKept(identity, first, disk.trace, |old(disk.trace)|, before, key);
      }
    }

    /** Removes the owner's other generations, as far as that works. */
    method RemoveSuperseded(name: Name)
      requires disk.Recorded() && IsGenerationName(name) && Intact(identity, disk.state, key, name)
      modifies disk
      ensures old(disk.trouble) ==> disk.trouble
      ensures disk.Recorded() && disk.Grew(old(disk.trace)) && (disk.clean ==> old(disk.clean))
      ensures Intact(identity, disk.state, key, name) && Framed(identity, old(disk.state), disk.state, key)
      ensures disk.state.owners[key][name] == old(disk.state).owners[key][name]
      ensures AllKeep(identity, disk.trace, |old(disk.trace)|, old(disk.state), key)
      ensures disk.clean ==> OnlyPublished(old(disk.state).owners[key], disk.state.owners[key], name)
    {
      hide IsGenerationName, Means;
      ghost var before := disk.state;
      var superseded := SupersededNames(disk.state.owners[key], name);
      var left := superseded;
      ghost var gone: set<Name> := {};
      assert Others(before.owners[key], gone) == before.owners[key];
      while left != {}
        invariant old(disk.trouble) ==> disk.trouble
        invariant disk.Recorded() && disk.Grew(old(disk.trace)) && (disk.clean ==> old(disk.clean))
        invariant left + gone == superseded
        invariant Intact(identity, disk.state, key, name) && Framed(identity, before, disk.state, key)
        invariant disk.state.owners[key][name] == before.owners[key][name]
        invariant AllKeep(identity, disk.trace, |old(disk.trace)|, before, key)
        invariant disk.clean ==> disk.state.owners[key] == Others(before.owners[key], gone)
        decreases left
      {
        var other :| other in left;
        ghost var mid, first := disk.state, disk.trace;
        var _ := disk.RemoveAll(key, other);
        TouchedOnly(mid, disk.state, key, other, name);
        RemovingFramed(identity, mid, disk.state, key, other);
        FramedTwice(identity, before, mid, disk.state, key);
        BesideTrace(identity, disk.trace, |old(disk.trace)|, |first|, before, mid, key, other, name);
        OthersFewer(before.owners[key], gone, other);
        left, gone := left - {other}, gone + {other};
      }
      assert gone == superseded;
    }

    method Publish(name: Name) returns (ok: bool)
      requires Valid() && active && owned && IsGenerationName(name)
      requires Means(identity, name, StagedFiles())
      modifies this, disk
      ensures old(disk.trouble) ==> disk.trouble
      ensures Valid() && disk.Grew(old(disk.trace)) && (disk.clean ==> old(disk.clean))
      ensures Kept(|old(disk.trace)|, old(disk.state), old(StagedFiles()), name, ok)
      ensures ok ==> !active && publishedName == Some(name) && Intact(identity, disk.state, key, name)
      ensures ok ==> disk.state.owners[key][name].files == old(StagedFiles())
      ensures ok && disk.clean ==> Publishes(old(disk.state).owners[key], disk.state.owners[key], old(staging).value, name)
      ensures names == old(names)
      ensures !ok ==> active && publishedName == old(publishedName) && Removing(old(disk.state), disk.state, key, name)
      ensures !ok ==> disk.trouble
      ensures !ok && disk.state == old(disk.state) ==> target == old(target)
    {
      hide IsStagingName, Means, Undone, DamageShows, IsGenerationName, Harmless, AllKeep, Removing, Publishes,
           MovedInPlace, OnlyPublished, Keeps, Framed;
      ghost var before, files := disk.state, StagedFiles();
      ok := MoveInPlace(name, files);
      if !ok {
        return;
      }
      ghost var mid, first, st := disk.state, disk.trace, staging.value;
      publishedName, staging, active, directoryCreated, ownerDirectoryCreated := Some(name), None, false, false, false;
      RemoveSuperseded(name);
      UsableKeeps(identity, before, mid, key, name);
      if Harmless(before, files, name) {
        KeepFurther(identity, first, disk.trace, |old(disk.trace)|, before, mid, key);
      } else {
        StillNotKept(identity, first, disk.trace, |old(disk.trace)|, before, key);
      }
      if disk.clean {
        PublishedSoFar(before.owners[key], mid.owners[key], disk.state.owners[key], st, name);
      }
    }

    /** Publishes under a name derived from the content. */
    method Commit() returns (ok: bool)
      requires Valid()
      modifies this, disk
      ensures old(disk.trouble) ==> disk.trouble
      ensures Valid() && disk.Grew(old(disk.trace)) && (disk.clean ==> old(disk.clean))
      ensures !old(active) ==> !ok && disk.state == old(disk.state) && disk.trace == old(disk.trace)
      ensures !owned ==> disk.state == old(disk.state) && (ok <==> old(active)) && (ok ==> !active)
      ensures owned ==> AllKeep(identity, disk.trace, |old(disk.trace)|, old(disk.state), key)
      ensures owned && ok ==> old(active) && !active
      ensures owned && ok ==> old(StagedFiles()).Keys == names && publishedName == Some(identity.NameOf(old(StagedFiles())))
      ensures owned && ok ==> Intact(identity, disk.state, key, publishedName.value)
      ensures owned && ok ==> disk.state.owners[key][publishedName.value].files == old(StagedFiles())
      ensures owned && ok && disk.clean ==>
        Publishes(old(disk.state).owners[key], disk.state.owners[key], old(staging).value, publishedName.value)
      ensures !ok ==> active == old(active)
      ensures !ok && disk.state == old(disk.state) ==> target == old(target)
      ensures names == old(names)
      ensures !disk.trouble ==> (ok <==> old(active) && (owned ==> names <= old(StagedFiles()).Keys))
    {
      hide IsStagingName, Undone, DamageShows, Intact, Publishes, AllKeep, Removing;
      if !active {
        NothingKept(identity, disk.trace, disk.state, key);
        return false;
      }
      if !owned {
        active, directoryCreated := false, false;
        return true;
      }
      NothingKept(identity, disk.trace, disk.state, key);
      var staged := disk.state.owners[key][staging.value].files;
      var readable := disk.Ask();
      if !(names <= staged.Keys) || !readable {
        return false;
      }
      NameIsGeneration(identity, staged);
      ok := Publish(identity.NameOf(staged));
    }

    /** Publishes under a name that the caller vouches for. Whether the declared payloads were written is not checked: where
        one was not, no generation of this name is complete, and a usable one is removed before it is replaced. */
    method CommitAs(name: Name) returns (ok: bool)
      requires Valid()
      requires active && owned && IsGenerationName(name) ==> Means(identity, name, StagedFiles())
      modifies this, disk
      ensures old(disk.trouble) ==> disk.trouble
      ensures Valid() && disk.Grew(old(disk.trace)) && (disk.clean ==> old(disk.clean))
      ensures !(old(active) && owned && IsGenerationName(name) && IsSafeRelativeName(name)) ==>
        !ok && disk.state == old(disk.state) && disk.trace == old(disk.trace)
      ensures !disk.trouble ==> (ok <==> old(active) && owned && IsGenerationName(name) && IsSafeRelativeName(name))
      ensures old(active) && owned ==> Kept(|old(disk.trace)|, old(disk.state), old(StagedFiles()), name, ok)
      ensures ok ==> !active && publishedName == Some(name) && Intact(identity, disk.state, key, name)
      ensures ok ==> disk.state.owners[key][name].files == old(StagedFiles())
      ensures ok && disk.clean ==> Publishes(old(disk.state).owners[key], disk.state.owners[key], old(staging).value, name)
    {
      hide IsStagingName, Undone, DamageShows, Intact, Publishes, AllKeep, Removing, Means, IsGenerationName,
           IsSafeRelativeName, Harmless;
      if !active || !owned || !IsGenerationName(name) || !IsSafeRelativeName(name) {
        NothingKept(identity, disk.trace, disk.state, key);
        return false;
      }
      ok := Publish(name);
    }

    /** Removes the declared files from the payload directory. */
    method RemoveNames()
      requires disk.Recorded()
      modifies disk
      ensures old(disk.trouble) ==> disk.trouble
      ensures disk.Recorded() && disk.Grew(old(disk.trace))
      ensures disk.clean ==> old(disk.clean)
      ensures disk.clean ==> disk.state == old(disk.state).(files := WithoutNames(old(disk.state).files, names))
    {
      var left := names;
      ghost var gone: set<Name> := {};
      assert WithoutNames(disk.state.files, gone) == disk.state.files;
      while left != {}
        invariant old(disk.trouble) ==> disk.trouble
        invariant disk.Recorded() && disk.Grew(old(disk.trace)) && (disk.clean ==> old(disk.clean))
        invariant left + gone == names
        invariant disk.clean ==> disk.state == old(disk.state).(files := WithoutNames(old(disk.state).files, gone))
        decreases left
      {
        var name :| name in left;
        if name in disk.state.files {
          var _ := disk.TryRemoval(disk.state.(files := Without(disk.state.files, name)));
        }
        left, gone := left - {name}, gone + {name};
      }
    }

    /** Removes the directories this generation made, where they are empty. */
    method RemoveDirectories()
      requires disk.Recorded()
      modifies this, disk
      ensures old(disk.trouble) ==> disk.trouble
      ensures disk.Recorded() && disk.Grew(old(disk.trace))
      ensures active == old(active) && staging == old(staging) && !directoryCreated && !ownerDirectoryCreated
      ensures base == old(base)
      ensures publishedName == old(publishedName) && names == old(names)
      ensures disk.clean ==> old(disk.clean) && disk.state == old(WithoutDirectory(WithoutOwner(disk.state)))
      ensures KeepsAll(old(disk.state), disk.state, key)
      ensures AllKeepAll(disk.trace, |old(disk.trace)|, old(disk.state), key)
    {
      if ownerDirectoryCreated {
        if key in disk.state.owners && disk.state.owners[key] == map[] {
          var _ := disk.TryRemoval(RemoveOwner(disk.state, key));
        }
        ownerDirectoryCreated := false;
      }
      if directoryCreated {
        if disk.state.place == Directory && disk.state.owners == map[] && disk.state.files == map[] {
          var _ := disk.TryRemoval(disk.state.(place := Absent));
        }
        directoryCreated := false;
      }
    }
  }

  function Others(d: OwnerDirectory, names: set<Name>): OwnerDirectory
  {
    map n | n in d && n !in names :: d[n]
  }

  lemma OthersFewer(d: OwnerDirectory, names: set<Name>, name: Name)
    ensures Without(Others(d, names), name) == Others(d, names + {name})
  {
  }

  function StaleNames(d: OwnerDirectory): set<Name>
  {
    set n | n in d && IsStale(n, d[n])
  }

  function WithoutNames(files: Files, names: set<Name>): Files
  {
    map n | n in files && n !in names :: files[n]
  }

  lemma DirectoryMade(base: State, key: Name)
    ensures KeepsAll(base, base.(place := Directory), key)
  {
  }

  lemma OwnerMade(base: State, s: State, key: Name)
    requires KeepsAll(base, s, key) && s == base.(place := Directory) && key !in s.owners
    ensures KeepsAll(base, With(s, key, map[]), key)
  {
  }

  lemma StagingMade(base: State, s: State, key: Name, name: Name)
    requires KeepsAll(base, s, key) && key in s.owners && IsStagingName(name)
    ensures KeepsAll(base, With(s, key, s.owners[key][name := Folder(map[], false)]), key)
  {
    var next := With(s, key, s.owners[key][name := Folder(map[], false)]);
    assert Without(next.owners[key], name) == Without(s.owners[key], name);
    StagingIsNoGeneration(name);
    TouchedOther(s, next, key, name);
    KeepsAllTwice(base, s, next, key);
  }

  /** A payload is there with the size it was staged with. */
  predicate Matches(published: Entry, staged: Files, n: Name)
  {
    published.Folder? && n in published.files && n in staged && |published.files[n]| == |staged[n]|
  }

  predicate IsSuperseded(name: Name, e: Entry, published: Name)
  {
    name != published && IsGenerationName(name) && e.Folder?
  }

  lemma StagingChanged(before: State, s: State, key: Name, staging: Name, e: Entry)
    requires IsStagingName(staging) && key in before.owners && staging in before.owners[key]
    requires s == With(before, key, before.owners[key][staging := e])
    ensures KeepsAll(before, s, key)
    ensures Without(s.owners[key], staging) == Without(before.owners[key], staging)
  {
    hide KeepsAll, IsStagingName;
    assert Without(s.owners[key], staging) == Without(before.owners[key], staging);
    StagingIsNoGeneration(staging);
    TouchedOther(before, s, key, staging);
  }

  lemma PutTwice(first: seq<State>, trace: seq<State>, from: nat, before: State, mid: State, key: Name)
    requires first <= trace && first != [] && first[|first| - 1] == mid && from <= |first|
    requires AllKeepAll(first, from, before, key) && AllKeepAll(trace, |first|, mid, key)
    requires |first| == from ==> mid == before
    ensures AllKeepAll(trace, from, before, key)
  {
    hide KeepsAll;
    KeepsAllSame(before, key);
    KeepsAllSame(mid, key);
    assert KeepsAll(before, mid, key);
    KeepAllFurther(first, trace, from, before, mid, mid, key);
  }

  /** Only the staged directory went away, and the generation came. */
  ghost predicate MovedInPlace(before: OwnerDirectory, after: OwnerDirectory, staged: Name, name: Name)
  {
    && (forall n :: n != name ==> (n in after <==> n in before && n != staged))
    && (forall n :: n != name && n in after ==> after[n] == before[n])
  }

  /** The owner's directory after publishing: the generation, and what is neither staged nor superseded by it. */
  ghost predicate Publishes(before: OwnerDirectory, after: OwnerDirectory, staged: Name, name: Name)
  {
    && (forall n :: n != name ==> (n in after <==> n in before && n != staged && !IsSuperseded(n, before[n], name)))
    && (forall n :: n != name && n in after ==> after[n] == before[n])
  }

  ghost predicate OnlyPublished(before: OwnerDirectory, after: OwnerDirectory, name: Name)
  {
    after == Others(before, SupersededNames(before, name))
  }

  function SupersededNames(d: OwnerDirectory, published: Name): set<Name>
  {
    set n | n in d && IsSuperseded(n, d[n], published)
  }

  lemma NameIsGeneration(h: Identity, files: Files)
    requires h.Sound()
    ensures IsGenerationName(h.NameOf(files)) && Means(h, h.NameOf(files), files)
  {
    var name := h.NameOf(files);
    assert forall c :: c in name ==> c in GENERATED_PREFIX || c in h.hash(files);
  }

  lemma NothingKept(h: Identity, trace: seq<State>, s: State, key: Name)
    ensures AllKeep(h, trace, |trace|, s, key)
  {
  }

  /** Two stretches of steps, one after the other. */
  lemma KeepFurther(h: Identity, first: seq<State>, trace: seq<State>, from: nat, before: State, mid: State, key: Name)
    requires first <= trace && AllKeep(h, first, from, before, key) && Keeps(h, before, mid, key)
    requires AllKeep(h, trace, |first|, mid, key)
    ensures AllKeep(h, trace, from, before, key)
  {
    hide Keeps;
    forall i | from <= i < |trace| ensures Keeps(h, before, trace[i], key) {
      if i < |first| {
        assert trace[i] == first[i];
      } else {
        KeepsTwice(h, before, mid, trace[i], key);
      }
    }
  }

  lemma StateKept(h: Identity, s: State, key: Name, name: Name)
    requires key in s.owners
    ensures Keeps(h, s, s, key) && (name !in s.owners[key] ==> Sheltered(h, s, key, name))
  {
    KeepsAllSame(s, key);
    KeepsAllKeeps(h, s, s, key);
  }

  lemma StillNotKept(h: Identity, first: seq<State>, trace: seq<State>, from: nat, before: State, key: Name)
    requires first <= trace && !AllKeep(h, first, from, before, key)
    ensures !AllKeep(h, trace, from, before, key)
  {
    hide Keeps;
    var i :| from <= i < |first| && !Keeps(h, before, first[i], key);
    assert trace[i] == first[i];
  }

  lemma RemovedNotKept(h: Identity, trace: seq<State>, from: nat, before: State, key: Name)
    requires 0 < from <= |trace| && trace[from - 1] == before && !Keeps(h, before, trace[|trace| - 1], key)
    requires trace[|trace| - 1] != before
    ensures !AllKeep(h, trace, from, before, key)
  {
    hide Keeps;
  }

  /** Removing the staging directory of a generation that is there already. */
  lemma StagingGone(h: Identity, before: State, mid: State, s: State, key: Name, staging: Name, name: Name)
    requires Removing(before, mid, key, name) && Removing(mid, s, key, staging)
    requires !IsGenerationName(staging) && Intact(h, mid, key, name)
    ensures Framed(h, before, s, key) && Intact(h, s, key, name)
    ensures s.owners[key][name] == mid.owners[key][name]
    ensures staging !in s.owners[key] ==> MovedInPlace(before.owners[key], s.owners[key], staging, name)
  {
    hide IsGenerationName, Means;
    TouchedOnly(mid, s, key, staging, name);
    forall n | n != name
      ensures n != staging ==> (n in s.owners[key] <==> n in before.owners[key])
      ensures n != staging && n in s.owners[key] ==> s.owners[key][n] == before.owners[key][n]
    {
      TouchedOnly(before, mid, key, name, n);
      if n != staging {
        TouchedOnly(mid, s, key, staging, n);
      }
    }
  }

  lemma StagingGoneTrace(h: Identity, trace: seq<State>, from: nat, mid: State, key: Name, staging: Name)
    requires !IsGenerationName(staging) && forall i :: from <= i < |trace| ==> Removing(mid, trace[i], key, staging)
    ensures AllKeep(h, trace, from, mid, key)
  {
    hide KeepsAll, Keeps, IsGenerationName;
    forall i | from <= i < |trace| ensures Keeps(h, mid, trace[i], key) {
      TouchedOther(mid, trace[i], key, staging);
      KeepsAllKeeps(h, mid, trace[i], key);
    }
  }

  lemma RenamedFramed(h: Identity, mid: State, key: Name, staging: Name, name: Name)
    requires key in mid.owners && staging in mid.owners[key] && mid.owners[key][staging].Folder?
    requires h.Sound() && Means(h, name, mid.owners[key][staging].files)
    ensures Framed(h, mid, With(mid, key, Without(mid.owners[key], staging)[name := mid.owners[key][staging]]), key)
  {
    hide IsGenerationName, Means;
    forall other | Means(h, name, other) ensures other == mid.owners[key][staging].files {
      MeansOnce(h, name, other, mid.owners[key][staging].files);
    }
  }

  /** The one step that publishes. */
  lemma Renamed(h: Identity, before: State, mid: State, key: Name, staging: Name, name: Name)
    requires Removing(before, mid, key, name) && h.Sound() && name !in mid.owners[key] && staging in mid.owners[key]
    requires IsGenerationName(name) && mid.owners[key][staging].Folder? && Means(h, name, mid.owners[key][staging].files)
    requires staging != name
    ensures var s := With(mid, key, Without(mid.owners[key], staging)[name := mid.owners[key][staging]]);
      && Intact(h, s, key, name) && Framed(h, before, s, key) && Keeps(h, mid, s, key)
      && MovedInPlace(before.owners[key], s.owners[key], staging, name)
  {
    hide IsGenerationName, Means;
    var s := With(mid, key, Without(mid.owners[key], staging)[name := mid.owners[key][staging]]);
    RenamedFramed(h, mid, key, staging, name);
    RemovingFramed(h, before, mid, key, name);
    FramedTwice(h, before, mid, s, key);
    UsableKeeps(h, mid, s, key, name);
    forall n | n != name
      ensures n in s.owners[key] <==> n in before.owners[key] && n != staging
      ensures n in s.owners[key] ==> s.owners[key][n] == before.owners[key][n]
    {
      TouchedOnly(before, mid, key, name, n);
    }
  }

  lemma BesideTrace(h: Identity, trace: seq<State>, from: nat, at: nat, before: State, mid: State, key: Name, other: Name,
                    name: Name)
    requires from <= at <= |trace| && AllKeep(h, trace[..at], from, before, key)
    requires Framed(h, before, mid, key) && Intact(h, mid, key, name) && name != other
    requires forall i :: at <= i < |trace| ==> Removing(mid, trace[i], key, other)
    ensures AllKeep(h, trace, from, before, key)
  {
    hide Keeps, Intact, Removing, Framed;
    UsableKeeps(h, before, mid, key, name);
    forall i | at <= i < |trace| ensures Keeps(h, mid, trace[i], key) {
      RemovingBeside(h, mid, trace[i], key, other, name);
    }
    KeepFurther(h, trace[..at], trace, from, before, mid, key);
  }

  lemma PublishedSoFar(before: OwnerDirectory, mid: OwnerDirectory, after: OwnerDirectory, staging: Name, name: Name)
    requires MovedInPlace(before, mid, staging, name) && OnlyPublished(mid, after, name)
    ensures Publishes(before, after, staging, name)
  {
    hide IsSuperseded;
  }

  lemma StaleIsStaging(d: OwnerDirectory, name: Name)
    requires name in StaleNames(d)
    ensures IsStagingName(name)
  {
  }

  lemma KeepsAllSame(s: State, key: Name)
    ensures KeepsAll(s, s, key)
  {
  }

  lemma StagingTouched(trace: seq<State>, from: nat, before: State, s: State, key: Name, staging: Name)
    requires IsStagingName(staging) && Removing(before, s, key, staging)
    requires forall i :: from <= i < |trace| ==> Removing(before, trace[i], key, staging)
    ensures KeepsAll(before, s, key) && AllKeepAll(trace, from, before, key)
  {
    hide KeepsAll;
    StagingIsNoGeneration(staging);
    TouchedOther(before, s, key, staging);
    forall i | from <= i < |trace| ensures KeepsAll(before, trace[i], key) {
      TouchedOther(before, trace[i], key, staging);
    }
  }

  /** Two stretches of steps, one after the other. */
  lemma KeepAllFurther(first: seq<State>, trace: seq<State>, from: nat, before: State, mid: State, s: State, key: Name)
    requires first <= trace && AllKeepAll(first, from, before, key) && KeepsAll(before, mid, key)
    requires AllKeepAll(trace, |first|, mid, key) && KeepsAll(mid, s, key)
    ensures AllKeepAll(trace, from, before, key) && KeepsAll(before, s, key)
  {
    hide KeepsAll;
    KeepsAllTwice(before, mid, s, key);
    forall i | from <= i < |trace| ensures KeepsAll(before, trace[i], key) {
      if i < |first| {
        assert trace[i] == first[i];
      } else {
        KeepsAllTwice(before, mid, trace[i], key);
      }
    }
  }
}
