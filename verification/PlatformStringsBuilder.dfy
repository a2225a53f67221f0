/** Strings selected per platform: the emitted four-set form and what it selects. */
module PlatformStringSets {
  import opened Options
  import opened Sorting
  import opened Platforms

  /** Generic strings, and lists per OS, per arch and per OS/arch pair. The emitted
      attribute is the concatenation of the list and of one select per map. */
  datatype PlatformStrings = PlatformStrings(
    generic: seq<string>,
    os: map<string, seq<string>>,
    arch: map<string, seq<string>>,
    platform: map<PlatformConstraint, seq<string>>)

  /** What the concatenated selects evaluate to on platform `p`. */
  function Selected(ps: PlatformStrings, p: Platform, prefix: string): seq<string> {
    ps.generic
    + Lookup(ps.os, prefix + p.os)
    + Lookup(ps.arch, prefix + p.arch)
    + Lookup(ps.platform, PlatformConstraint(p, prefix))
  }

  // In which of the four sets a string occurs.
  ghost predicate InOS(ps: PlatformStrings, s: string) { exists k :: k in ps.os && s in ps.os[k] }
  ghost predicate InArch(ps: PlatformStrings, s: string) { exists k :: k in ps.arch && s in ps.arch[k] }
  ghost predicate InPlatform(ps: PlatformStrings, s: string) { exists k :: k in ps.platform && s in ps.platform[k] }

  ghost predicate InOneSetOnly(ps: PlatformStrings, s: string) {
    && !(s in ps.generic && (InOS(ps, s) || InArch(ps, s) || InPlatform(ps, s)))
    && !(InOS(ps, s) && (InArch(ps, s) || InPlatform(ps, s)))
    && !(InArch(ps, s) && InPlatform(ps, s))
  }

  lemma ConcatNoDuplicates<T>(a: seq<T>, b: seq<T>)
    requires NoDuplicates(a) && NoDuplicates(b) && Elements(a) !! Elements(b)
    ensures NoDuplicates(a + b) && Elements(a + b) == Elements(a) + Elements(b)
  {
    forall i, j | 0 <= i < j < |a + b| ensures (a + b)[i] != (a + b)[j] {
      if i < |a| <= j {
        assert a[i] in Elements(a) && b[j - |a|] in Elements(b);
      }
    }
    assert forall x :: x in a + b <==> x in a || x in b;
  }
}

/** The builder that accumulates strings under constraints, keeping every string in
    exactly one of the four sets. */
module PlatformStringsBuilders {
  import opened Options
  import opened Sorting
  import opened Platforms
  import opened PlatformStringSets

  /** What is known about one string: the set it is in and its constraints there. */
  datatype Info =
    | GenericSet
    | OSSet(osConstraints: set<string>)
    | ArchSet(archConstraints: set<string>)
    | PlatformSet(platformConstraints: set<PlatformConstraint>)

  function OSKeys(si: Info): set<string> {
    if si.OSSet? then si.osConstraints else {}
  }

  function ArchKeys(si: Info): set<string> {
    if si.ArchSet? then si.archConstraints else {}
  }

  function PlatformKeys(si: Info): set<PlatformConstraint> {
    if si.PlatformSet? then si.platformConstraints else {}
  }

  /** The string is used on `p`. */
  ghost predicate Covers(si: Info, p: Platform, prefix: string) {
    || si.GenericSet?
    || prefix + p.os in OSKeys(si)
    || prefix + p.arch in ArchKeys(si)
    || PlatformConstraint(p, prefix) in PlatformKeys(si)
  }

  /** Every OS and arch constraint was made with this prefix. */
  ghost predicate Prefixed(si: Info, prefix: string) {
    forall k | k in OSKeys(si) + ArchKeys(si) :: prefix <= k
  }

  function TrimPrefix(s: string, prefix: string): string {
    if prefix <= s then s[|prefix|..] else s
  }

  lemma PrefixInjective(prefix: string, a: string, b: string)
    ensures prefix + a == prefix + b ==> a == b
    ensures TrimPrefix(prefix + a, prefix) == a
  {
    assert (prefix + a)[|prefix|..] == a && (prefix + b)[|prefix|..] == b;
  }

  lemma TrimInverse(prefix: string, k: string)
    requires prefix <= k
    ensures prefix + TrimPrefix(k, prefix) == k
  {
  }

  /** The platform constraints of all archs of an OS. */
  method PlatformsOfOS(t: Tables, os: string, prefix: string) returns (r: set<PlatformConstraint>)
    requires Derived(t)
    ensures forall c :: c in r <==> c.constraintPrefix == prefix && c.platform in t.platforms && c.platform.os == os
  {
    r := {};
    var archs := Lookup(t.osArchs, os);
    for i := 0 to |archs|
      invariant forall c :: c in r <==>
                  c.constraintPrefix == prefix && c.platform.os == os && c.platform.arch in archs[..i]
    {
      assert archs[..i + 1] == archs[..i] + [archs[i]];
      r := r + {PlatformConstraint(Platform(os, archs[i]), prefix)};
    }
    forall c: PlatformConstraint | c.platform.os == os ensures c.platform.arch in archs <==> c.platform in t.platforms {
      assert c.platform.arch in Lookup(t.osArchs, os) <==> Platform(os, c.platform.arch) in t.platforms;
    }
  }

  method PlatformsOfArch(t: Tables, arch: string, prefix: string) returns (r: set<PlatformConstraint>)
    requires Derived(t)
    ensures forall c :: c in r <==> c.constraintPrefix == prefix && c.platform in t.platforms && c.platform.arch == arch
  {
    r := {};
    var oss := Lookup(t.archOSs, arch);
    for i := 0 to |oss|
      invariant forall c :: c in r <==>
                  c.constraintPrefix == prefix && c.platform.arch == arch && c.platform.os in oss[..i]
    {
      assert oss[..i + 1] == oss[..i] + [oss[i]];
      r := r + {PlatformConstraint(Platform(oss[i], arch), prefix)};
    }
    forall c: PlatformConstraint | c.platform.arch == arch ensures c.platform.os in oss <==> c.platform in t.platforms {
      assert c.platform.os in Lookup(t.archOSs, arch) <==> Platform(c.platform.os, arch) in t.platforms;
    }
  }

  /** Turns OS or arch constraints into the equivalent platform constraints. */
  method ConvertToPlatforms(t: Tables, si: Info, prefix: string) returns (r: Info)
    requires Derived(t) && !si.GenericSet? && Prefixed(si, prefix)
    ensures r.PlatformSet? && (si.PlatformSet? ==> r == si)
    ensures forall p | p in t.platforms :: Covers(r, p, prefix) <==> Covers(si, p, prefix)
  {
    match si
    case PlatformSet(_) =>
      r := si;
    case OSSet(constraints) =>
      var acc: set<PlatformConstraint>, todo := {}, constraints;
      while todo != {}
        invariant todo <= constraints
        invariant forall p | p in t.platforms ::
            PlatformConstraint(p, prefix) in acc <==> prefix + p.os in constraints - todo
        decreases todo
      {
        var k :| k in todo;
        var more := PlatformsOfOS(t, TrimPrefix(k, prefix), prefix);
        assert k in OSKeys(si) + ArchKeys(si);
        TrimInverse(prefix, k);
        forall p: Platform ensures prefix + p.os == k <==> p.os == TrimPrefix(k, prefix) {
          PrefixInjective(prefix, p.os, TrimPrefix(k, prefix));
        }
        acc := acc + more;
        todo := todo - {k};
      }
      r := PlatformSet(acc);
    case ArchSet(constraints) =>
      var acc: set<PlatformConstraint>, todo := {}, constraints;
      while todo != {}
        invariant todo <= constraints
        invariant forall p | p in t.platforms ::
            PlatformConstraint(p, prefix) in acc <==> prefix + p.arch in constraints - todo
        decreases todo
      {
        var k :| k in todo;
        var more := PlatformsOfArch(t, TrimPrefix(k, prefix), prefix);
        assert k in OSKeys(si) + ArchKeys(si);
        TrimInverse(prefix, k);
        forall p: Platform ensures prefix + p.arch == k <==> p.arch == TrimPrefix(k, prefix) {
          PrefixInjective(prefix, p.arch, TrimPrefix(k, prefix));
        }
        acc := acc + more;
        todo := todo - {k};
      }
      r := PlatformSet(acc);
  }

  /** prefix + n for every name n. */
  method WithPrefix(names: seq<string>, prefix: string) returns (r: set<string>)
    ensures forall n :: prefix + n in r <==> n in names
    ensures forall k | k in r :: prefix <= k
  {
    r := {};
    for i := 0 to |names|
      invariant forall n :: prefix + n in r <==> n in names[..i]
      invariant forall k | k in r :: prefix <= k
    {
      assert names[..i + 1] == names[..i] + [names[i]];
      forall n ensures prefix + n == prefix + names[i] <==> n == names[i] {
        PrefixInjective(prefix, n, names[i]);
      }
      r := r + {prefix + names[i]};
    }
    assert names[..|names|] == names;
  }

  // --------------------------------------------------------- grouping by key

  /** `m` lists, under each key, the done strings that have that key. */
  ghost predicate Groups<K(!new)>(m: map<K, seq<string>>, strs: map<string, Info>, done: set<string>,
        keys: Info -> set<K>)
    requires done <= strs.Keys
  {
    forall k ::
      && (k in m <==> Members(strs, done, keys, k) != {})
      && NoDuplicates(Lookup(m, k))
      && Elements(Lookup(m, k)) == Members(strs, done, keys, k)
  }

  ghost function Members<K(!new)>(strs: map<string, Info>, done: set<string>, keys: Info -> set<K>, k: K): set<string>
    requires done <= strs.Keys
  {
    set s | s in done && k in keys(strs[s])
  }

  /** Appends `s` to the list of every key. */
  method AppendToEach<K(!new)>(m: map<K, seq<string>>, ks: set<K>, s: string) returns (r: map<K, seq<string>>)
    ensures Appended(m, r, ks, s)
  {
    r := m;
    var todo := ks;
    while todo != {}
      invariant todo <= ks && Appended(m, r, ks - todo, s)
      decreases todo
    {
      var k :| k in todo;
      r := r[k := Lookup(r, k) + [s]];
      todo := todo - {k};
    }
  }

  lemma GroupsStep<K(!new)>(m: map<K, seq<string>>, r: map<K, seq<string>>, strs: map<string, Info>,
        done: set<string>, keys: Info -> set<K>, s: string)
    requires done <= strs.Keys && s in strs && s !in done
    requires Groups(m, strs, done, keys)
    requires Appended(m, r, keys(strs[s]), s)
    ensures Groups(r, strs, done + {s}, keys)
  {
    forall k
      ensures k in r <==> Members(strs, done + {s}, keys, k) != {}
      ensures NoDuplicates(Lookup(r, k)) && Elements(Lookup(r, k)) == Members(strs, done + {s}, keys, k)
    {
      var before := Members(strs, done, keys, k);
      var after := Members(strs, done + {s}, keys, k);
      if k in keys(strs[s]) {
        assert after == before + {s} && s in after;
        ConcatNoDuplicates(Lookup(m, k), [s]);
        assert Elements([s]) == {s};
      } else {
        assert after == before;
        assert Lookup(r, k) == Lookup(m, k);
      }
    }
  }

  /** Sorts the list of every key. */
  method SortEach<K(!new)>(m: map<K, seq<string>>, ghost strs: map<string, Info>, ghost keys: Info -> set<K>)
    returns (r: map<K, seq<string>>)
    requires Groups(m, strs, strs.Keys, keys)
    ensures Groups(r, strs, strs.Keys, keys)
    ensures forall k | k in r :: Sorted(r[k])
  {
    r := map k | k in m :: Sort(m[k]);
    forall k
      ensures k in r <==> Members(strs, strs.Keys, keys, k) != {}
      ensures NoDuplicates(Lookup(r, k)) && Elements(Lookup(r, k)) == Members(strs, strs.Keys, keys, k)
    {
      assert k in m <==> Members(strs, strs.Keys, keys, k) != {};
      if k in m {
        assert Lookup(m, k) == m[k];
        SortIsListing(m[k]);
      }
    }
  }

  /** The four sets, unsorted, once the strings in `done` have been emitted. */
  ghost predicate Collected(ps: PlatformStrings, strs: map<string, Info>, done: set<string>)
    requires done <= strs.Keys
  {
    && NoDuplicates(ps.generic)
    && Elements(ps.generic) == (set s | s in done && strs[s].GenericSet?)
    && Groups(ps.os, strs, done, OSKeys)
    && Groups(ps.arch, strs, done, ArchKeys)
    && Groups(ps.platform, strs, done, PlatformKeys)
  }

  ghost predicate Appended<K(!new)>(m: map<K, seq<string>>, r: map<K, seq<string>>, ks: set<K>, s: string) {
    && r.Keys == m.Keys + ks
    && forall k :: Lookup(r, k) == Lookup(m, k) + if k in ks then [s] else []
  }

  lemma CollectedStep(ps: PlatformStrings, next: PlatformStrings, strs: map<string, Info>, done: set<string>, s: string)
    requires done <= strs.Keys && s in strs && s !in done
    requires Collected(ps, strs, done)
    requires next.generic == if strs[s].GenericSet? then ps.generic + [s] else ps.generic
    requires Appended(ps.os, next.os, OSKeys(strs[s]), s)
    requires Appended(ps.arch, next.arch, ArchKeys(strs[s]), s)
    requires Appended(ps.platform, next.platform, PlatformKeys(strs[s]), s)
    ensures Collected(next, strs, done + {s})
  {
    GroupsStep(ps.os, next.os, strs, done, OSKeys, s);
    GroupsStep(ps.arch, next.arch, strs, done, ArchKeys, s);
    GroupsStep(ps.platform, next.platform, strs, done, PlatformKeys, s);
    GenericStep(ps.generic, strs, done, s);
  }

  lemma GenericStep(generic: seq<string>, strs: map<string, Info>, done: set<string>, s: string)
    requires done <= strs.Keys && s in strs && s !in done
    requires NoDuplicates(generic)
    requires Elements(generic) == set s | s in done && strs[s].GenericSet?
    ensures var r := if strs[s].GenericSet? then generic + [s] else generic;
            NoDuplicates(r) && Elements(r) == set s' | s' in done + {s} && strs[s'].GenericSet?
  {
    if strs[s].GenericSet? {
      assert Elements([s]) == {s};
      ConcatNoDuplicates(generic, [s]);
    }
  }

  /** The emitted form of the accumulated strings, fully determined: the order in
      which the map of strings is walked cannot be observed. */
  ghost predicate Emits(ps: PlatformStrings, strs: map<string, Info>) {
    && SortedListing(ps.generic, set s | s in strs && strs[s].GenericSet?)
    && Groups(ps.os, strs, strs.Keys, OSKeys) && (forall k | k in ps.os :: Sorted(ps.os[k]))
    && Groups(ps.arch, strs, strs.Keys, ArchKeys) && (forall k | k in ps.arch :: Sorted(ps.arch[k]))
    && Groups(ps.platform, strs, strs.Keys, PlatformKeys) && (forall k | k in ps.platform :: Sorted(ps.platform[k]))
  }

  lemma EmissionUnique(a: PlatformStrings, b: PlatformStrings, strs: map<string, Info>)
    requires Emits(a, strs) && Emits(b, strs)
    ensures a == b
  {
    SortedListingUnique(a.generic, b.generic, set s | s in strs && strs[s].GenericSet?);
    GroupsUnique(a.os, b.os, strs, OSKeys);
    GroupsUnique(a.arch, b.arch, strs, ArchKeys);
    GroupsUnique(a.platform, b.platform, strs, PlatformKeys);
  }

  lemma GroupsUnique<K(!new)>(a: map<K, seq<string>>, b: map<K, seq<string>>, strs: map<string, Info>,
        keys: Info -> set<K>)
    requires Groups(a, strs, strs.Keys, keys) && (forall k | k in a :: Sorted(a[k]))
    requires Groups(b, strs, strs.Keys, keys) && (forall k | k in b :: Sorted(b[k]))
    ensures a == b
  {
    assert forall k :: k in a <==> Members(strs, strs.Keys, keys, k) != {};
    assert forall k :: k in b <==> Members(strs, strs.Keys, keys, k) != {};
    forall k | k in a ensures a[k] == b[k] {
      assert Lookup(a, k) == a[k] && Lookup(b, k) == b[k];
      SortedListingUnique(a[k], b[k], Members(strs, strs.Keys, keys, k));
    }
  }

  /** On every platform the emitted selects hold each string at most once, exactly
      when the builder covers it; and each string is in one of the four sets only. */
  lemma EmissionSelects(ps: PlatformStrings, strs: map<string, Info>, p: Platform, prefix: string)
    requires Emits(ps, strs)
    ensures NoDuplicates(Selected(ps, p, prefix))
    ensures forall s :: s in Selected(ps, p, prefix) <==> s in strs && Covers(strs[s], p, prefix)
    ensures forall s :: InOneSetOnly(ps, s)
  {
    var os, arch := Lookup(ps.os, prefix + p.os), Lookup(ps.arch, prefix + p.arch);
    var platform := Lookup(ps.platform, PlatformConstraint(p, prefix));
    Listed(ps.os, strs, OSKeys, prefix + p.os);
    Listed(ps.arch, strs, ArchKeys, prefix + p.arch);
    Listed(ps.platform, strs, PlatformKeys, PlatformConstraint(p, prefix));
    var g := set s | s in strs && strs[s].GenericSet?;
    FourPieces(ps.generic, os, arch, platform, strs, p, prefix);
    forall s ensures InOneSetOnly(ps, s) {
      KindOfEmitted(ps, strs, s);
    }
  }

  lemma Listed<K(!new)>(m: map<K, seq<string>>, strs: map<string, Info>, keys: Info -> set<K>, k: K)
    requires Groups(m, strs, strs.Keys, keys)
    ensures NoDuplicates(Lookup(m, k))
    ensures forall s :: s in Lookup(m, k) <==> s in strs && k in keys(strs[s])
  {
    forall s ensures s in Lookup(m, k) <==> s in strs && k in keys(strs[s]) {
      assert s in Lookup(m, k) <==> s in Elements(Lookup(m, k));
      assert s in Members(strs, strs.Keys, keys, k) <==> s in strs && k in keys(strs[s]);
    }
  }

  lemma FourPieces(generic: seq<string>, os: seq<string>, arch: seq<string>, platform: seq<string>,
        strs: map<string, Info>, p: Platform, prefix: string)
    requires NoDuplicates(generic) && NoDuplicates(os) && NoDuplicates(arch) && NoDuplicates(platform)
    requires forall s :: s in Elements(generic) <==> s in strs && strs[s].GenericSet?
    requires forall s :: s in os <==> s in strs && prefix + p.os in OSKeys(strs[s])
    requires forall s :: s in arch <==> s in strs && prefix + p.arch in ArchKeys(strs[s])
    requires forall s :: s in platform <==> s in strs && PlatformConstraint(p, prefix) in PlatformKeys(strs[s])
    ensures NoDuplicates(generic + os + arch + platform)
    ensures forall s :: s in generic + os + arch + platform <==> s in strs && Covers(strs[s], p, prefix)
  {
    ConcatNoDuplicates(generic, os);
    ConcatNoDuplicates(generic + os, arch);
    ConcatNoDuplicates(generic + os + arch, platform);
    forall s ensures s in generic + os + arch + platform <==> s in strs && Covers(strs[s], p, prefix) {
      assert s in generic <==> s in Elements(generic);
    }
  }

  lemma KindOfEmitted(ps: PlatformStrings, strs: map<string, Info>, s: string)
    requires Emits(ps, strs)
    ensures s in ps.generic ==> s in strs && strs[s].GenericSet?
    ensures InOS(ps, s) ==> s in strs && strs[s].OSSet?
    ensures InArch(ps, s) ==> s in strs && strs[s].ArchSet?
    ensures InPlatform(ps, s) ==> s in strs && strs[s].PlatformSet?
  {
    assert s in ps.generic ==> s in Elements(ps.generic);
    if InOS(ps, s) {
      var k :| k in ps.os && s in ps.os[k];
      assert s in Elements(Lookup(ps.os, k));
    }
    if InArch(ps, s) {
      var k :| k in ps.arch && s in ps.arch[k];
      assert s in Elements(Lookup(ps.arch, k));
    }
    if InPlatform(ps, s) {
      var k :| k in ps.platform && s in ps.platform[k];
      assert s in Elements(Lookup(ps.platform, k));
    }
  }

  // -------------------------------------------------------------- the builder

  class PlatformStringsBuilder {
    const tables: Tables
    var strs: map<string, Info>

    /** All constraints so far were added with this prefix. */
    ghost predicate Valid(prefix: string)
      reads this
    {
      Derived(tables) && forall s | s in strs :: Prefixed(strs[s], prefix)
    }

    /** `s` is used on `p`. */
    ghost predicate On(s: string, p: Platform, prefix: string)
      reads this
    {
      s in strs && Covers(strs[s], p, prefix)
    }

    constructor (tables: Tables)
      requires Derived(tables)
      ensures this.tables == tables && strs == map[]
      ensures forall prefix :: Valid(prefix)
    {
      this.tables := tables;
      strs := map[];
    }

    method AddGenericString(s: string)
      modifies this
      ensures strs == old(strs)[s := GenericSet]
    {
      strs := strs[s := GenericSet];
    }

    method AddOSString(s: string, oss: seq<string>, prefix: string)
      requires Valid(prefix)
      modifies this
      ensures Valid(prefix)
      ensures s in strs && strs == old(strs)[s := strs[s]]
      ensures forall p | p in tables.platforms :: On(s, p, prefix) <==> old(On(s, p, prefix)) || p.os in oss
      ensures if s !in old(strs) then strs[s].OSSet?
              else if old(strs)[s].GenericSet? then strs[s].GenericSet?
              else if old(strs)[s].OSSet? then strs[s].OSSet?
              else strs[s].PlatformSet?
    {
      var si := if s in strs then strs[s] else OSSet({});
      match si {
      case GenericSet =>
        assert strs == strs[s := strs[s]];
        return;
      case OSSet(constraints) =>
        var added := WithPrefix(oss, prefix);
        assert forall k | k in constraints :: k in OSKeys(si) + ArchKeys(si);
        si := OSSet(constraints + added);
      case _ =>
        si := ConvertToPlatforms(tables, si, prefix);
        ghost var before := si;
        for i := 0 to |oss|
          invariant strs == old(strs) && si.PlatformSet?
          invariant forall p | p in tables.platforms ::
              Covers(si, p, prefix) <==> Covers(before, p, prefix) || p.os in oss[..i]
        {
          assert oss[..i + 1] == oss[..i] + [oss[i]];
          var more := PlatformsOfOS(tables, oss[i], prefix);
          si := PlatformSet(si.platformConstraints + more);
        }
        assert oss[..|oss|] == oss;
      }
      strs := strs[s := si];
    }

    method AddArchString(s: string, archs: seq<string>, prefix: string)
      requires Valid(prefix)
      modifies this
      ensures Valid(prefix)
      ensures s in strs && strs == old(strs)[s := strs[s]]
      ensures forall p | p in tables.platforms :: On(s, p, prefix) <==> old(On(s, p, prefix)) || p.arch in archs
      ensures if s !in old(strs) then strs[s].ArchSet?
              else if old(strs)[s].GenericSet? then strs[s].GenericSet?
              else if old(strs)[s].ArchSet? then strs[s].ArchSet?
              else strs[s].PlatformSet?
    {
      var si := if s in strs then strs[s] else ArchSet({});
      match si {
      case GenericSet =>
        assert strs == strs[s := strs[s]];
        return;
      case ArchSet(constraints) =>
        var added := WithPrefix(archs, prefix);
        assert forall k | k in constraints :: k in OSKeys(si) + ArchKeys(si);
        si := ArchSet(constraints + added);
      case _ =>
        si := ConvertToPlatforms(tables, si, prefix);
        ghost var before := si;
        for i := 0 to |archs|
          invariant strs == old(strs) && si.PlatformSet?
          invariant forall p | p in tables.platforms ::
              Covers(si, p, prefix) <==> Covers(before, p, prefix) || p.arch in archs[..i]
        {
          assert archs[..i + 1] == archs[..i] + [archs[i]];
          var more := PlatformsOfArch(tables, archs[i], prefix);
          si := PlatformSet(si.platformConstraints + more);
        }
        assert archs[..|archs|] == archs;
      }
      strs := strs[s := si];
    }

    method AddPlatformString(s: string, platforms: seq<Platform>, prefix: string)
      requires Valid(prefix)
      modifies this
      ensures Valid(prefix)
      ensures s in strs && strs == old(strs)[s := strs[s]]
      ensures forall p | p in tables.platforms :: On(s, p, prefix) <==> old(On(s, p, prefix)) || p in platforms
      ensures if s in old(strs) && old(strs)[s].GenericSet? then strs[s].GenericSet? else strs[s].PlatformSet?
    {
      var si := if s in strs then strs[s] else PlatformSet({});
      if si.GenericSet? {
        assert strs == strs[s := strs[s]];
        return;
      }
      si := ConvertToPlatforms(tables, si, prefix);
      ghost var before := si;
      for i := 0 to |platforms|
        invariant si.PlatformSet?
        invariant forall p | p in tables.platforms ::
            Covers(si, p, prefix) <==> Covers(before, p, prefix) || p in platforms[..i]
      {
        assert platforms[..i + 1] == platforms[..i] + [platforms[i]];
        si := PlatformSet(si.platformConstraints + {PlatformConstraint(platforms[i], prefix)});
      }
      assert platforms[..|platforms|] == platforms;
      strs := strs[s := si];
    }

    /** Emits the accumulated strings; the map of strings is walked in any order. */
    method Build() returns (ps: PlatformStrings)
      ensures Emits(ps, strs)
    {
      ps := PlatformStrings([], map[], map[], map[]);
      var todo := strs.Keys;
      ghost var done := {};
      while todo != {}
        invariant todo !! done && todo + done == strs.Keys
        invariant Collected(ps, strs, done)
        decreases todo
      {
        var s :| s in todo;
        ps := EmitString(ps, strs, done, s);
        todo, done := todo - {s}, done + {s};
      }
      assert done == strs.Keys;
      ps := SortAll(ps, strs);
    }
  }

  /** Appends one string to the lists of the set it is in. */
  method EmitString(ps: PlatformStrings, strs: map<string, Info>, ghost done: set<string>, s: string)
    returns (next: PlatformStrings)
    requires done <= strs.Keys && s in strs && s !in done
    requires Collected(ps, strs, done)
    ensures Collected(next, strs, done + {s})
  {
    var si := strs[s];
    var generic := if si.GenericSet? then ps.generic + [s] else ps.generic;
    var os := AppendToEach(ps.os, OSKeys(si), s);
    var arch := AppendToEach(ps.arch, ArchKeys(si), s);
    var platform := AppendToEach(ps.platform, PlatformKeys(si), s);
    next := PlatformStrings(generic, os, arch, platform);
    CollectedStep(ps, next, strs, done, s);
  }

  method SortAll(ps: PlatformStrings, ghost strs: map<string, Info>) returns (r: PlatformStrings)
    requires Collected(ps, strs, strs.Keys)
    ensures Emits(r, strs)
  {
    SortIsListing(ps.generic);
    var os := SortEach(ps.os, strs, OSKeys);
    var arch := SortEach(ps.arch, strs, ArchKeys);
    var platform := SortEach(ps.platform, strs, PlatformKeys);
    r := PlatformStrings(Sort(ps.generic), os, arch, platform);
  }
}
