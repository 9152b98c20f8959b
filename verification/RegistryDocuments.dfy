/**
 Registry v1 documents: releases, module documents, their validation, the canonical order,
 the v1 channel selection and the immutability rule between two revisions of a registry.
 */
module RegistryDocuments {
  import opened ArtifactPaths
  import opened Digests
  import opened SemVer
  import opened StableSort
  import opened Text
  import opened Wrappers

  datatype Channel = Stable | Beta | Nightly

  datatype Classification = FirstParty | ReviewedCommunity

  datatype Release = Release(
    version: Version, channel: Channel, url: string, sha256: Digest, bundleFormat: nat,
    sourceCommit: string, sourceTag: Option<string>,
    host: string, sdk: string, requiresModules: map<string, string>)

  datatype ModuleDoc = ModuleDoc(
    id: string, name: string, publisherId: string, publisherName: string,
    classification: Classification, license: string, sourceRepository: string,
    description: Option<string>, homepage: Option<string>, documentationUrl: Option<string>,
    versions: seq<Release>)

  /** What an index entry says about one channel. */
  datatype Target = Target(version: Version, sha256: Digest)

  datatype Entry = Entry(id: string, name: string, publisherId: string, publisherName: string,
                         classification: Classification, channels: map<Channel, Target>, metadata: string)

  // ----- Validation -----

  predicate ValidRelease(r: Release, moduleId: string) {
    && r.version.WellFormed()
    && (r.channel == Stable ==> r.version.pre.None?)
    && r.bundleFormat == 1
    && moduleId !in r.requiresModules
  }

  ghost predicate UniqueVersions(versions: seq<Release>) {
    forall i, j | 0 <= i < j < |versions| :: versions[i].version != versions[j].version
  }

  ghost predicate ValidModule(m: ModuleDoc) {
    && IsModuleId(m.id)
    && m.versions != []
    && (forall i | 0 <= i < |m.versions| :: ValidRelease(m.versions[i], m.id))
    && UniqueVersions(m.versions)
  }

  lemma ValidModuleExactly(m: ModuleDoc)
    ensures ValidModule(m) <==>
              && IsModuleId(m.id) && |m.versions| > 0
              && (forall r | r in m.versions ::
                    && r.version.WellFormed() && (r.channel == Stable ==> r.version.pre.None?)
                    && r.bundleFormat == 1 && m.id !in r.requiresModules)
              && (forall i, j | 0 <= i < |m.versions| && 0 <= j < |m.versions| && i != j ::
                    m.versions[i].version != m.versions[j].version)
  {
    hide IsModuleId;
    if forall r | r in m.versions ::
         && r.version.WellFormed() && (r.channel == Stable ==> r.version.pre.None?)
         && r.bundleFormat == 1 && m.id !in r.requiresModules {
      forall i | 0 <= i < |m.versions| ensures ValidRelease(m.versions[i], m.id) {
        assert m.versions[i] in m.versions;
      }
    }
  }

  method ValidateModule(m: ModuleDoc) returns (ok: bool)
    ensures ok <==> ValidModule(m)
    ensures ok <==>
              && IsModuleId(m.id) && |m.versions| > 0
              && (forall r | r in m.versions ::
                    && r.version.WellFormed() && (r.channel == Stable ==> r.version.pre.None?)
                    && r.bundleFormat == 1 && m.id !in r.requiresModules)
              && (forall i, j | 0 <= i < |m.versions| && 0 <= j < |m.versions| && i != j ::
                    m.versions[i].version != m.versions[j].version)
  {
    ValidModuleExactly(m);
    if !IsModuleId(m.id) || m.versions == [] { return false; }
    var seen: set<Version> := {};
    for i := 0 to |m.versions|
      invariant seen == set j | 0 <= j < i :: m.versions[j].version
      invariant forall j | 0 <= j < i :: ValidRelease(m.versions[j], m.id)
      invariant UniqueVersions(m.versions[..i])
    {
      var release := m.versions[i];
      if !ValidRelease(release, m.id) { return false; }
      if release.version in seen {
        ghost var j :| 0 <= j < i && m.versions[j].version == release.version;
        return false;
      }
      seen := seen + {release.version};
    }
    assert m.versions[..|m.versions|] == m.versions;
    return true;
  }

  // ----- Order and selection -----

  predicate ReleaseLess(a: Release, b: Release) { Before(a.version, b.version) }

  predicate ModuleIdLess(a: ModuleDoc, b: ModuleDoc) { TextLess(a.id, b.id) }

  function OnChannel(c: Channel): Release -> bool { (r: Release) => r.channel == c }

  lemma ReleaseLessIsWeakOrder()
    ensures WeakOrder(ReleaseLess)
  {
    forall x: Release, y: Release, z: Release
      ensures !(ReleaseLess(x, y) && ReleaseLess(y, x))
      ensures ReleaseLess(x, y) && ReleaseLess(y, z) ==> ReleaseLess(x, z)
      ensures !ReleaseLess(x, y) && !ReleaseLess(y, z) ==> !ReleaseLess(x, z)
    {
      PrecedenceIsTotalPreorder(x.version, y.version, z.version);
      PrecedenceIsTotalPreorder(z.version, y.version, x.version);
    }
  }

  lemma ModuleIdLessIsWeakOrder()
    ensures WeakOrder(ModuleIdLess)
  {
    forall x: ModuleDoc, y: ModuleDoc, z: ModuleDoc
      ensures !(ModuleIdLess(x, y) && ModuleIdLess(y, x))
      ensures ModuleIdLess(x, y) && ModuleIdLess(y, z) ==> ModuleIdLess(x, z)
      ensures !ModuleIdLess(x, y) && !ModuleIdLess(y, z) ==> !ModuleIdLess(x, z)
    {
      TextOrder(x.id, y.id, z.id);
      TextOrder(z.id, y.id, x.id);
      TextOrder(x.id, z.id, y.id);
    }
  }

  function CanonicalModule(m: ModuleDoc): ModuleDoc {
    m.(versions := Sort(m.versions, ReleaseLess))
  }

  function Current(versions: seq<Release>, c: Channel): Option<Release> {
    Best(Filter(versions, OnChannel(c)), ReleaseLess)
  }

  function TargetOf(r: Release): Target { Target(r.version, r.sha256) }

  /** The channels object of an index entry. */
  function ChannelsOf(versions: seq<Release>): map<Channel, Target> {
    map c: Channel | Current(versions, c).Some? :: TargetOf(Current(versions, c).value)
  }

  /** max(releases, key=semver_key): the first of the greatest. */
  method MaxRelease(releases: seq<Release>) returns (best: Release)
    requires releases != []
    ensures Best(releases, ReleaseLess) == Some(best)
  {
    ReleaseLessIsWeakOrder();
    best := releases[0];
    assert releases[..1] == [releases[0]];
    for i := 1 to |releases|
      invariant Best(releases[..i], ReleaseLess) == Some(best)
    {
      BestAppend(releases[..i], releases[i], ReleaseLess);
      assert releases[..i + 1] == releases[..i] + [releases[i]];
      if ReleaseLess(best, releases[i]) { best := releases[i]; }
    }
    assert releases[..|releases|] == releases;
  }

  function MetadataPath(id: string): string { "/modules/" + id + ".json" }

  function EntryOf(m: ModuleDoc): Entry {
    Entry(m.id, m.name, m.publisherId, m.publisherName, m.classification, ChannelsOf(m.versions), MetadataPath(m.id))
  }

  method SelectChannels(versions: seq<Release>) returns (channels: map<Channel, Target>)
    ensures channels == ChannelsOf(versions)
  {
    hide Current;
    channels := map[];
    var order := [Stable, Beta, Nightly];
    for n := 0 to 3
      invariant channels == map c: Channel | c in order[..n]
                && Current(versions, c).Some? :: TargetOf(Current(versions, c).value)
    {
      var releases := Filter(versions, OnChannel(order[n]));
      CurrentOf(versions, order[n]);
      if releases != [] {
        var current := MaxRelease(releases);
        channels := channels[order[n] := TargetOf(current)];
      }
    }
    assert order[..3] == [Stable, Beta, Nightly];
    forall c: Channel ensures c in order[..3] {
      match c
      case Stable => assert order[0] == c;
      case Beta => assert order[1] == c;
      case Nightly => assert order[2] == c;
    }
  }

  /** The canonical document has the same releases, those of lower precedence first, and is otherwise the same. */
  lemma CanonicalExactly(m: ModuleDoc)
    ensures var c := CanonicalModule(m);
            && c == m.(versions := c.versions) && multiset(c.versions) == multiset(m.versions)
            && forall i, j | 0 <= i < j < |c.versions| :: !Before(c.versions[j].version, c.versions[i].version)
  {
    hide Before;
    ReleaseLessIsWeakOrder();
    SortSorts(m.versions, ReleaseLess);
    var c := CanonicalModule(m);
    forall i, j | 0 <= i < j < |c.versions| ensures !Before(c.versions[j].version, c.versions[i].version) {
      assert !ReleaseLess(c.versions[j], c.versions[i]);
    }
  }

  lemma CurrentOf(versions: seq<Release>, c: Channel)
    ensures Current(versions, c) == Best(Filter(versions, OnChannel(c)), ReleaseLess)
    ensures Current(versions, c).None? <==> Filter(versions, OnChannel(c)) == []
  {
    ReleaseLessIsWeakOrder();
    BestIn(Filter(versions, OnChannel(c)), ReleaseLess);
  }

  method BuildIndex(modules: seq<ModuleDoc>) returns (entries: seq<Entry>)
    ensures |entries| == |modules|
    ensures forall k | 0 <= k < |entries| :: entries[k] == EntryOf(Sort(modules, ModuleIdLess)[k])
    ensures forall i, j | 0 <= i < j < |entries| :: !TextLess(entries[j].id, entries[i].id)
  {
    hide ChannelsOf;
    var sorted := Sort(modules, ModuleIdLess);
    ModuleIdLessIsWeakOrder();
    SortSorts(modules, ModuleIdLess);
    entries := [];
    for k := 0 to |sorted|
      invariant |entries| == k
      invariant forall j | 0 <= j < k :: entries[j] == EntryOf(sorted[j])
    {
      var m := sorted[k];
      var channels := SelectChannels(m.versions);
      entries := entries + [Entry(m.id, m.name, m.publisherId, m.publisherName, m.classification, channels,
                           MetadataPath(m.id))];
    }
    forall i, j | 0 <= i < j < |entries| ensures !TextLess(entries[j].id, entries[i].id) {
      assert !ModuleIdLess(sorted[j], sorted[i]);
    }
  }

  /** The selected release of a channel is beaten by none on it, and beats every earlier one strictly. */
  lemma CurrentIsFirstMax(versions: seq<Release>, c: Channel) returns (i: nat)
    requires exists r :: r in versions && r.channel == c
    ensures var on := Filter(versions, OnChannel(c));
            IsFirstMax(on, ReleaseLess, i) && Current(versions, c) == Some(on[i])
  {
    ReleaseLessIsWeakOrder();
    var r :| r in versions && r.channel == c;
    assert r in Filter(versions, OnChannel(c));
    i := BestIsFirstMax(Filter(versions, OnChannel(c)), ReleaseLess);
  }

  /** The whole index entry of a module, field by field; a target is a release that none on its channel exceeds. */
  lemma EntryExactly(m: ModuleDoc)
    ensures var e := EntryOf(m);
            && e.id == m.id && e.name == m.name && e.publisherId == m.publisherId
            && e.publisherName == m.publisherName && e.classification == m.classification
            && e.metadata == "/modules/" + m.id + ".json"
            && (forall c: Channel :: c in e.channels <==> exists r :: r in m.versions && r.channel == c)
            && (forall c: Channel | c in e.channels ::
                  exists r :: && r in m.versions && r.channel == c && e.channels[c] == Target(r.version, r.sha256)
                              && forall x | x in m.versions && x.channel == c :: !Before(r.version, x.version))
  {
    hide Current, Before;
    forall c: Channel
      ensures c in EntryOf(m).channels <==> exists r :: r in m.versions && r.channel == c
      ensures c in EntryOf(m).channels ==>
                exists r :: && r in m.versions && r.channel == c
                            && EntryOf(m).channels[c] == Target(r.version, r.sha256)
                            && forall x | x in m.versions && x.channel == c :: !Before(r.version, x.version)
    {
      CurrentDominates(m.versions, c);
      if Current(m.versions, c).Some? {
        var r := Current(m.versions, c).value;
        assert forall x | x in m.versions && x.channel == c :: !ReleaseLess(r, x);
      }
    }
  }

  /** Sorting a module canonically changes no channel target, equal-precedence builds included. */
  lemma CanonicalKeepsChannels(m: ModuleDoc)
    ensures ChannelsOf(CanonicalModule(m).versions) == ChannelsOf(m.versions)
  {
    ReleaseLessIsWeakOrder();
    forall c: Channel ensures Current(CanonicalModule(m).versions, c) == Current(m.versions, c) {
      SortKeepsBest(m.versions, ReleaseLess, OnChannel(c));
    }
  }

  lemma CurrentAppend(versions: seq<Release>, r: Release, c: Channel)
    ensures Current(versions + [r], c) ==
            if c != r.channel then Current(versions, c)
            else if Current(versions, c).Some? && !ReleaseLess(Current(versions, c).value, r) then Current(versions, c)
            else Some(r)
  {
    ReleaseLessIsWeakOrder();
    FilterAppend(versions, [r], OnChannel(c));
    var on := Filter(versions, OnChannel(c));
    if c != r.channel {
      FilterNone([r], OnChannel(c));
      assert on + [] == on;
    } else {
      FilterAll([r], OnChannel(c));
      BestAppend(on, r, ReleaseLess);
    }
  }

  lemma CurrentDominates(versions: seq<Release>, c: Channel)
    ensures Current(versions, c).None? ==> forall x | x in versions :: x.channel != c
    ensures Current(versions, c).Some? ==>
              && Current(versions, c).value in versions && Current(versions, c).value.channel == c
              && forall x | x in versions && x.channel == c :: !ReleaseLess(Current(versions, c).value, x)
  {
    ReleaseLessIsWeakOrder();
    var on := Filter(versions, OnChannel(c));
    BestIn(on, ReleaseLess);
    assert forall x | x in versions && x.channel == c :: x in on;
  }

  /**
   Appending a release moves exactly its own channel to it, if and only if it is strictly
   newer than every release already on that channel.
   */
  lemma AppendMovesPointer(versions: seq<Release>, r: Release)
    requires forall x | x in versions :: x.version != r.version
    ensures ChannelsOf(versions + [r]) == ChannelsOf(versions)[r.channel := TargetOf(r)]
            <==> forall x | x in versions && x.channel == r.channel :: Before(x.version, r.version)
  {
    hide Current, Before;
    forall c: Channel { CurrentAppend(versions, r, c); }
    var was := Current(versions, r.channel);
    CurrentDominates(versions, r.channel);
    var moved := ChannelsOf(versions)[r.channel := TargetOf(r)];
    if was.Some? && !ReleaseLess(was.value, r) {
      assert ChannelsOf(versions + [r])[r.channel] == TargetOf(was.value) != TargetOf(r) == moved[r.channel];
    } else {
      forall x | x in versions && x.channel == r.channel ensures Before(x.version, r.version) {
        PrecedenceIsTotalPreorder(r.version, x.version, was.value.version);
      }
      assert ChannelsOf(versions + [r]) == moved;
    }
  }
}
