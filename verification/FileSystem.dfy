/** A payload directory on disk, changed one step at a time. Every state that a step leaves is on record, because the
    process may end after any step. */
module FileSystem {

  type Name = string
  type Content = seq<int>
  type Files = map<Name, Content>

  /** A directory with payload files, which may have been left untouched for long, or anything else. */
  datatype Entry = Folder(files: Files, stale: bool) | Other

  /** What one owner has, by name. */
  type OwnerDirectory = map<Name, Entry>

  datatype Presence = Absent | Directory | Obstructed

  /** The payload directory: files directly in it, and the owners' directories. */
  datatype State = State(place: Presence, files: Files, owners: map<Name, OwnerDirectory>)

  function Without<T>(m: map<Name, T>, name: Name): (r: map<Name, T>)
    ensures name !in r && forall n :: n != name ==> (n in r <==> n in m) && (n in r ==> r[n] == m[n])
  {
    map n | n in m && n != name :: m[n]
  }

  /** The state with one owner's directory replaced. */
  function With(s: State, key: Name, d: OwnerDirectory): State
  {
    s.(owners := s.owners[key := d])
  }

  /** `s` differs from `before` at most in one entry of one owner's directory. */
  ghost predicate Touches(before: State, s: State, key: Name, entry: Name)
  {
    && key in before.owners && key in s.owners && s == With(before, key, s.owners[key])
    && Without(s.owners[key], entry) == Without(before.owners[key], entry)
  }

  /** What may be left of an entry that is being removed. */
  ghost predicate Remains(e: Entry, left: Entry)
  {
    if e.Folder? then left.Folder? && forall n :: n in left.files ==> n in e.files && left.files[n] == e.files[n]
    else left == e
  }

  /** `s` is `before` with one entry of one owner partly or wholly removed. */
  ghost predicate Removing(before: State, s: State, key: Name, entry: Name)
  {
    && Touches(before, s, key, entry)
    && (entry in s.owners[key] ==> entry in before.owners[key] && Remains(before.owners[key][entry], s.owners[key][entry]))
  }

  lemma RemovingTwice(a: State, b: State, c: State, key: Name, entry: Name)
    requires Removing(a, b, key, entry) && Removing(b, c, key, entry)
    ensures Removing(a, c, key, entry)
  {
  }

  class Disk {
    var state: State
    /** No removal has failed. */
    ghost var clean: bool
    /** The system has refused something, or the process was told to stop. */
    var trouble: bool
    /** Every state that a step has left. */
    var trace: seq<State>

    ghost predicate Recorded()
      reads this
    {
      trace != [] && trace[|trace| - 1] == state
    }

    ghost predicate Grew(old_: seq<State>)
      reads this
    {
      |old_| <= |trace| && trace[..|old_|] == old_
    }

    ghost predicate RemovingSince(from: nat, before: State, key: Name, entry: Name)
      reads this
    {
      forall i :: from <= i < |trace| ==> Removing(before, trace[i], key, entry)
    }

    /** One step. */
    method Set(next: State)
      modifies this
      ensures state == next && trace == old(trace) + [next] && clean == old(clean) && trouble == old(trouble)
    {
      state, trace := next, trace + [next];
    }

    /** The process has ended after an earlier step; what it did after that never happened. */
    method EndAfter(step: nat)
      requires step < |trace|
      modifies this
      ensures Recorded() && state == old(trace[step])
    {
      trace := trace[..step + 1];
      state := trace[step];
    }

    /** Whether the system lets the process look, and the process may go on. */
    method Ask() returns (ok: bool)
      modifies this`trouble
      ensures trouble == (old(trouble) || !ok)
    {
      ok := *;
      trouble := trouble || !ok;
    }

    /** One step that may fail. */
    method Try(next: State) returns (ok: bool)
      modifies this
      ensures ok ==> state == next && trace == old(trace) + [next]
      ensures !ok ==> state == old(state) && trace == old(trace)
      ensures clean == old(clean) && trouble == (old(trouble) || !ok)
    {
      ok := Ask();
      if ok {
        Set(next);
      }
    }

    /** One step of removal, which may fail. */
    method TryRemoval(next: State) returns (ok: bool)
      modifies this
      ensures ok ==> state == next && trace == old(trace) + [next] && clean == old(clean)
      ensures !ok ==> state == old(state) && trace == old(trace) && !clean
      ensures trouble == (old(trouble) || !ok)
    {
      ok := Try(next);
      if !ok {
        clean := false;
      }
    }

    /** Removes one file of a folder, unless that fails. */
    method RemoveFile(key: Name, folder: Name, name: Name) returns (ok: bool)
      requires key in state.owners && folder in state.owners[key] && state.owners[key][folder].Folder?
      requires name in state.owners[key][folder].files
      modifies this
      ensures ok ==> clean == old(clean)
      ensures ok ==> state == With(old(state), key, old(state).owners[key][folder :=
        old(state).owners[key][folder].(files := Without(old(state).owners[key][folder].files, name))])
      ensures ok ==> trace == old(trace) + [state]
      ensures !ok ==> state == old(state) && trace == old(trace) && !clean
      ensures trouble == (old(trouble) || !ok)
    {
      var e := state.owners[key][folder];
      ok := TryRemoval(With(state, key, state.owners[key][folder := e.(files := Without(e.files, name))]));
    }

    /** Removes an entry itself, unless that fails. */
    method RemoveEntry(key: Name, entry: Name) returns (ok: bool)
      requires key in state.owners && entry in state.owners[key]
      requires state.owners[key][entry].Folder? ==> state.owners[key][entry].files == map[]
      modifies this
      ensures ok ==> clean == old(clean)
      ensures ok ==> state == With(old(state), key, Without(old(state).owners[key], entry))
      ensures ok ==> trace == old(trace) + [state]
      ensures !ok ==> state == old(state) && trace == old(trace) && !clean
      ensures trouble == (old(trouble) || !ok)
    {
      ok := TryRemoval(With(state, key, Without(state.owners[key], entry)));
    }

    /** Removes an entry with all it holds, file by file in any order. It may end halfway. */
    method RemoveAll(key: Name, entry: Name) returns (ok: bool)
      requires key in state.owners && Recorded()
      modifies this
      ensures Recorded() && Grew(old(trace))
      ensures RemovingSince(|old(trace)|, old(state), key, entry) && Removing(old(state), state, key, entry)
      ensures ok ==> clean == old(clean) && state == With(old(state), key, Without(old(state).owners[key], entry))
      ensures !ok ==> !clean
      ensures trouble == (old(trouble) || !ok)
    {
      var d := state.owners[key];
      if entry !in d {
        assert Without(d, entry) == d;
        assert state == With(state, key, d);
        return true;
      }
      if d[entry].Folder? {
        ok := Empty(key, entry);
        if !ok {
          return;
        }
      }
      ghost var mid := state;
      ok := RemoveEntry(key, entry);
      assert Without(mid.owners[key], entry) == Without(old(state).owners[key], entry);
      if ok {
        RemovingTwice(old(state), mid, state, key, entry);
      }
    }

    method Empty(key: Name, entry: Name) returns (ok: bool)
      requires key in state.owners && Recorded() && entry in state.owners[key] && state.owners[key][entry].Folder?
      modifies this
      ensures Recorded() && Grew(old(trace))
      ensures RemovingSince(|old(trace)|, old(state), key, entry) && Removing(old(state), state, key, entry)
      ensures entry in state.owners[key] && state.owners[key][entry].Folder?
      ensures ok ==> clean == old(clean) && state.owners[key][entry].files == map[]
      ensures !ok ==> !clean
      ensures trouble == (old(trouble) || !ok)
    {
      hide Removing, With;
      ok := true;
      RemovingNothing(state, key, entry);
      while state.owners[key][entry].files != map[]
        invariant Recorded() && Grew(old(trace)) && clean == old(clean) && ok && trouble == old(trouble)
        invariant key in state.owners && entry in state.owners[key] && state.owners[key][entry].Folder?
        invariant RemovingSince(|old(trace)|, old(state), key, entry) && Removing(old(state), state, key, entry)
        decreases |state.owners[key][entry].files|
      {
        var files := state.owners[key][entry].files;
        var name :| name in files;
        ghost var mid := state;
        OneFileLess(mid, key, entry, name);
        ok := RemoveFile(key, entry, name);
        if !ok {
          return;
        }
        RemovingTwice(old(state), mid, state, key, entry);
        FewerFiles(files, name);
      }
    }
  }

  lemma RemovingNothing(s: State, key: Name, entry: Name)
    requires key in s.owners
    ensures Removing(s, s, key, entry)
  {
  }

  lemma OneFileLess(before: State, key: Name, entry: Name, name: Name)
    requires key in before.owners && entry in before.owners[key] && before.owners[key][entry].Folder?
    ensures var e := before.owners[key][entry];
      var d := before.owners[key][entry := e.(files := Without(e.files, name))];
      var s := With(before, key, d);
      && Removing(before, s, key, entry) && key in s.owners && s.owners[key] == d
  {
    var e := before.owners[key][entry];
    var d := before.owners[key][entry := e.(files := Without(e.files, name))];
    assert Without(d, entry) == Without(before.owners[key], entry);
  }

  lemma FewerFiles(files: Files, name: Name)
    requires name in files
    ensures |Without(files, name)| < |files|
  {
    assert files == Without(files, name)[name := files[name]];
  }
}
