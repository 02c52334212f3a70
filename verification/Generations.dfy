/** Published generations of payload files: when one can be used, and what leaves it usable. */
module Generations {
  import opened FileSystem

  const STAGING_PREFIX := ".tmp-"
  const GENERATED_PREFIX := "g-"
  const CACHED_PREFIX := "c-"

  predicate IsStagingName(name: Name) { STAGING_PREFIX <= name }

  predicate IsGenerationName(name: Name)
  {
    (GENERATED_PREFIX <= name || CACHED_PREFIX <= name) && '/' !in name
  }

  lemma StagingIsNoGeneration(name: Name)
    requires IsStagingName(name)
    ensures !IsGenerationName(name)
  {
    assert name[0] == STAGING_PREFIX[0];
  }

  // ----- What a name stands for

  /** How content is named: by its hash, or by a key that the caller vouches for. */
  datatype Identity = Identity(hash: Files -> Name, cached: Name -> Files) {
    /** The hash has no collisions. */
    ghost predicate Sound()
    {
      && (forall a, b :: hash(a) == hash(b) ==> a == b)
      && (forall a :: '/' !in hash(a))
    }

    function NameOf(files: Files): Name { GENERATED_PREFIX + hash(files) }
  }

  /** The content that belongs to a generation of this name. */
  ghost predicate Means(h: Identity, name: Name, files: Files)
  {
    if GENERATED_PREFIX <= name then name == h.NameOf(files) else h.cached(name) == files
  }

  lemma MeansOnce(h: Identity, name: Name, a: Files, b: Files)
    requires h.Sound() && Means(h, name, a) && Means(h, name, b)
    ensures a == b
  {
    if GENERATED_PREFIX <= name {
      assert h.NameOf(a)[|GENERATED_PREFIX|..] == h.hash(a);
      assert h.NameOf(b)[|GENERATED_PREFIX|..] == h.hash(b);
    }
  }

  /** The generation is published with the content that belongs to it. */
  ghost predicate Intact(h: Identity, s: State, key: Name, g: Name)
  {
    && key in s.owners && g in s.owners[key] && IsGenerationName(g)
    && s.owners[key][g].Folder? && Means(h, g, s.owners[key][g].files)
  }

  /** Some generation of the owner can be used. */
  ghost predicate Safe(h: Identity, s: State, key: Name)
  {
    exists g :: Intact(h, s, key, g)
  }

  /** Removing the generation leaves another usable one, or does not matter. */
  ghost predicate Sheltered(h: Identity, s: State, key: Name, g: Name)
  {
    !Intact(h, s, key, g) || exists w :: w != g && Intact(h, s, key, w)
  }

  predicate SameSizes(wanted: Files, found: Files)
  {
    forall n :: n in wanted ==> n in found && |found[n]| == |wanted[n]|
  }

  /** Damage to published generations is a missing file or a file of another size. */
  ghost predicate DamageShows(h: Identity, s: State, key: Name)
  {
    key in s.owners ==> forall g, files ::
      g in s.owners[key] && IsGenerationName(g) && Means(h, g, files) ==> ShowsDamage(s.owners[key][g], files)
  }

  ghost predicate ShowsDamage(e: Entry, files: Files)
  {
    if e.Folder? then SameSizes(files, e.files) ==> e.files == files else files != map[]
  }

  /** There is nothing in a directory that is not there. */
  predicate Tidy(s: State)
  {
    s.place != Directory ==> s.owners == map[] && s.files == map[]
  }

  /** A state from which generations can be published. */
  ghost predicate Recoverable(h: Identity, s: State, key: Name)
  {
    DamageShows(h, s, key) && Tidy(s)
  }

  // ----- What steps keep

  ghost predicate SameOthers(before: State, s: State, key: Name)
  {
    forall k :: k != key ==> (k in s.owners <==> k in before.owners) && (k in s.owners ==> s.owners[k] == before.owners[k])
  }

  /** No generation has been changed, the owner's or another's. */
  ghost predicate KeepsAll(before: State, s: State, key: Name)
  {
    && s.files == before.files && SameOthers(before, s, key) && (Tidy(before) ==> Tidy(s))
    && SameGenerations(DirectoryOf(before, key), DirectoryOf(s, key))
  }

  function DirectoryOf(s: State, key: Name): OwnerDirectory
  {
    if key in s.owners then s.owners[key] else map[]
  }

  ghost predicate SameGenerations(a: OwnerDirectory, b: OwnerDirectory)
  {
    forall g :: IsGenerationName(g) ==> (g in a <==> g in b) && (g in a ==> a[g] == b[g])
  }

  /** Nothing else than the owner's directory has been changed, and it can still be published in. */
  ghost predicate Framed(h: Identity, before: State, s: State, key: Name)
  {
    s.files == before.files && SameOthers(before, s, key) && (Recoverable(h, before, key) ==> Recoverable(h, s, key))
  }

  /** And the owner has a usable generation if it had one. */
  ghost predicate Keeps(h: Identity, before: State, s: State, key: Name)
  {
    Framed(h, before, s, key) && (Safe(h, before, key) ==> Safe(h, s, key))
  }

  lemma KeepsAllTwice(a: State, b: State, c: State, key: Name)
    requires KeepsAll(a, b, key) && KeepsAll(b, c, key)
    ensures KeepsAll(a, c, key)
  {
    hide IsGenerationName, Tidy;
  }

  lemma FramedTwice(h: Identity, a: State, b: State, c: State, key: Name)
    requires Framed(h, a, b, key) && Framed(h, b, c, key)
    ensures Framed(h, a, c, key)
  {
    hide Recoverable;
  }

  lemma KeepsTwice(h: Identity, a: State, b: State, c: State, key: Name)
    requires Keeps(h, a, b, key) && Keeps(h, b, c, key)
    ensures Keeps(h, a, c, key)
  {
    hide Safe, Framed;
    FramedTwice(h, a, b, c, key);
  }

  lemma UsableKeeps(h: Identity, before: State, s: State, key: Name, g: Name)
    requires Framed(h, before, s, key) && Intact(h, s, key, g)
    ensures Keeps(h, before, s, key)
  {
    hide Framed, Intact;
  }

  lemma KeepsAllIntact(h: Identity, before: State, s: State, key: Name, g: Name)
    requires KeepsAll(before, s, key)
    ensures Intact(h, before, key, g) ==> Intact(h, s, key, g)
  {
    hide IsGenerationName, Means;
  }

  lemma KeepsAllKeeps(h: Identity, before: State, s: State, key: Name)
    requires KeepsAll(before, s, key)
    ensures Keeps(h, before, s, key)
  {
    hide Intact, DamageShows, Tidy;
    if Safe(h, before, key) {
      var g :| Intact(h, before, key, g);
      KeepsAllIntact(h, before, s, key, g);
    }
    if DamageShows(h, before, key) {
      DamageStillShows(h, before, s, key);
    }
  }

  lemma DamageStillShows(h: Identity, before: State, s: State, key: Name)
    requires KeepsAll(before, s, key) && DamageShows(h, before, key)
    ensures DamageShows(h, s, key)
  {
    hide Means, IsGenerationName, ShowsDamage, Tidy;
  }

  /** What is left of a removed generation shows the damage. */
  lemma RemainsShowDamage(e: Entry, left: Entry, files: Files)
    requires Remains(e, left) && ShowsDamage(e, files)
    ensures ShowsDamage(left, files)
  {
    if e.Folder? && SameSizes(files, left.files) {
      assert SameSizes(files, e.files);
      assert left.files == files;
    }
  }

  lemma RemovingShowsDamage(h: Identity, before: State, s: State, key: Name, entry: Name)
    requires Removing(before, s, key, entry) && DamageShows(h, before, key)
    ensures DamageShows(h, s, key)
  {
    hide IsGenerationName, Means, Remains, ShowsDamage;
    forall w, other | w in s.owners[key] && IsGenerationName(w) && Means(h, w, other)
      ensures ShowsDamage(s.owners[key][w], other)
    {
      if w == entry {
        RemainsShowDamage(before.owners[key][w], s.owners[key][w], other);
      } else {
        TouchedOnly(before, s, key, entry, w);
      }
    }
  }

  /** Removing leaves a state that can be published in, wherever it stops. */
  lemma RemovingFramed(h: Identity, before: State, s: State, key: Name, entry: Name)
    requires Removing(before, s, key, entry)
    ensures Framed(h, before, s, key)
  {
    hide DamageShows, Remains;
    if DamageShows(h, before, key) {
      RemovingShowsDamage(h, before, s, key, entry);
    }
  }

  /** Removing an entry that is no generation. */
  lemma TouchedOther(before: State, s: State, key: Name, entry: Name)
    requires Touches(before, s, key, entry) && !IsGenerationName(entry)
    ensures KeepsAll(before, s, key)
  {
    hide IsGenerationName;
    forall g | IsGenerationName(g)
      ensures (g in before.owners[key] <==> g in s.owners[key])
      ensures g in s.owners[key] ==> s.owners[key][g] == before.owners[key][g]
    {
      TouchedOnly(before, s, key, entry, g);
    }
  }

  lemma TouchedOnly(before: State, s: State, key: Name, entry: Name, other: Name)
    requires Touches(before, s, key, entry) && other != entry
    ensures (other in before.owners[key] <==> other in s.owners[key])
    ensures other in s.owners[key] ==> s.owners[key][other] == before.owners[key][other]
  {
    assert other in Without(before.owners[key], entry) <==> other in before.owners[key];
    assert other in Without(s.owners[key], entry) <==> other in s.owners[key];
  }

  /** Removing an entry does no harm while another generation is usable. */
  lemma RemovingBeside(h: Identity, before: State, s: State, key: Name, entry: Name, g: Name)
    requires Removing(before, s, key, entry) && Intact(h, before, key, g) && g != entry
    ensures Intact(h, s, key, g) && Keeps(h, before, s, key)
  {
    hide Means, IsGenerationName, Framed;
    TouchedOnly(before, s, key, entry, g);
    RemovingFramed(h, before, s, key, entry);
  }

  /** Removing a damaged generation does no harm. */
  lemma DamagedHarmless(h: Identity, before: State, s: State, key: Name, g: Name, files: Files)
    requires h.Sound() && Removing(before, s, key, g) && Means(h, g, files)
    requires g in before.owners[key] && (before.owners[key][g].Folder? ==> !SameSizes(files, before.owners[key][g].files))
    ensures Keeps(h, before, s, key)
  {
    hide Framed;
    RemovingFramed(h, before, s, key, g);
    if Safe(h, before, key) {
      var w :| Intact(h, before, key, w);
      if w == g {
        MeansOnce(h, g, files, before.owners[key][g].files);
      }
      RemovingBeside(h, before, s, key, g, w);
    }
  }

  /** Removing a generation does no harm where it is damaged, or sheltered. */
  lemma RemovingHarmless(h: Identity, before: State, s: State, key: Name, g: Name, files: Files)
    requires h.Sound() && Removing(before, s, key, g) && Means(h, g, files) && IsGenerationName(g)
    requires DamageShows(h, before, key) && g in before.owners[key]
    requires Sheltered(h, before, key, g)
          || (before.owners[key][g].Folder? ==> !SameSizes(files, before.owners[key][g].files))
    ensures Keeps(h, before, s, key)
  {
    hide Framed, Keeps, IsGenerationName, SameSizes;
    var e := before.owners[key][g];
    if e.Folder? && SameSizes(files, e.files) {
      assert ShowsDamage(e, files);
      var w :| w != g && Intact(h, before, key, w);
      RemovingBeside(h, before, s, key, g, w);
    } else {
      DamagedHarmless(h, before, s, key, g, files);
    }
  }

  /** Where it is the one usable generation, its removal leaves none. */
  lemma RemovingUnsheltered(h: Identity, before: State, s: State, key: Name, g: Name)
    requires Removing(before, s, key, g) && g !in s.owners[key] && !Sheltered(h, before, key, g)
    ensures Safe(h, before, key) && !Safe(h, s, key) && !Keeps(h, before, s, key)
  {
    hide Framed, IsGenerationName, Means;
    forall w ensures !Intact(h, s, key, w) {
      if w != g {
        TouchedOnly(before, s, key, g, w);
        assert Intact(h, s, key, w) == Intact(h, before, key, w);
      }
    }
  }

  ghost predicate AllKeepAll(trace: seq<State>, from: nat, before: State, key: Name)
  {
    forall i :: from <= i < |trace| ==> KeepsAll(before, trace[i], key)
  }

  ghost predicate AllKeep(h: Identity, trace: seq<State>, from: nat, before: State, key: Name)
  {
    forall i :: from <= i < |trace| ==> Keeps(h, before, trace[i], key)
  }
}
