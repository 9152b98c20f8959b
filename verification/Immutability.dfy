/**
 The rule between two revisions of a registry: published modules and releases stay, and a
 release may change once at most, from a GitHub download to its canonical mirror.
 */
module Immutability {
  import opened ArtifactPaths
  import opened RegistryDocuments
  import opened SemVer

  predicate OnGithub(r: Release) { Hostname(r.url) == "github.com" }

  /** _is_mirror_promotion: everything but the URL is kept, and the URL moves from GitHub to the mirror. */
  predicate IsMirrorPromotion(id: string, proposed: Release, published: Release) {
    && OnGithub(published)
    && proposed.url == PublicUrl(id, published.version)
    && proposed.(url := published.url) == published
  }

  predicate ReleaseKept(id: string, proposed: Release, published: Release) {
    proposed == published || IsMirrorPromotion(id, proposed, published)
  }

  predicate ProvenanceKept(current: ModuleDoc, published: ModuleDoc) {
    && current.publisherId == published.publisherId
    && current.classification == published.classification
    && current.sourceRepository == published.sourceRepository
    && current.license == published.license
  }

  ghost predicate ReleasesKept(current: ModuleDoc, published: ModuleDoc) {
    forall r | r in published.versions ::
      exists p :: p in current.versions && p.version == r.version && ReleaseKept(published.id, p, r)
  }

  /** What validate_immutability accepts. */
  ghost predicate Accepts(current: seq<ModuleDoc>, base: seq<ModuleDoc>) {
    forall b | b in base ::
      exists c :: c in current && c.id == b.id && ProvenanceKept(c, b) && ReleasesKept(c, b)
  }

  ghost predicate ValidRegistry(modules: seq<ModuleDoc>) {
    && (forall i | 0 <= i < |modules| :: ValidModule(modules[i]))
    && (forall i, j | 0 <= i < j < |modules| :: modules[i].id != modules[j].id)
  }

  lemma ModuleDetermined(modules: seq<ModuleDoc>, a: ModuleDoc, b: ModuleDoc)
    requires ValidRegistry(modules) && a in modules && b in modules && a.id == b.id
    ensures a == b
  {}

  lemma ReleaseDetermined(m: ModuleDoc, a: Release, b: Release)
    requires UniqueVersions(m.versions) && a in m.versions && b in m.versions && a.version == b.version
    ensures a == b
  {}

  method ReleasesByVersion(m: ModuleDoc) returns (byVersion: map<Version, Release>)
    requires UniqueVersions(m.versions)
    ensures forall v :: v in byVersion <==> exists r :: r in m.versions && r.version == v
    ensures forall v | v in byVersion :: byVersion[v] in m.versions && byVersion[v].version == v
  {
    byVersion := map[];
    for i := 0 to |m.versions|
      invariant forall v :: v in byVersion <==> exists j :: 0 <= j < i && m.versions[j].version == v
      invariant forall v | v in byVersion :: byVersion[v] in m.versions && byVersion[v].version == v
    {
      byVersion := byVersion[m.versions[i].version := m.versions[i]];
    }
    forall r | r in m.versions ensures r.version in byVersion {
      var j :| 0 <= j < |m.versions| && m.versions[j] == r;
    }
  }

  method ValidateReleases(current: ModuleDoc, published: ModuleDoc) returns (ok: bool)
    requires UniqueVersions(current.versions)
    ensures ok <==> ReleasesKept(current, published)
    ensures ok <==> ReleasesUnharmed(current, published)
  {
    hide ReleasesUnharmed;
    ReleasesKeptExactly(current, published);
    var releases := ReleasesByVersion(current);
    for i := 0 to |published.versions|
      invariant forall r | r in published.versions[..i] ::
          exists p :: p in current.versions && p.version == r.version && ReleaseKept(published.id, p, r)
    {
      var r := published.versions[i];
      if r.version !in releases {
        assert r in published.versions;
        return false;
      }
      var p := releases[r.version];
      if p != r && !IsMirrorPromotion(published.id, p, r) {
        forall q | q in current.versions && q.version == r.version ensures q == p {
          ReleaseDetermined(current, q, p);
        }
        assert r in published.versions;
        return false;
      }
      assert published.versions[..i + 1] == published.versions[..i] + [r];
    }
    assert published.versions[..|published.versions|] == published.versions;
    return true;
  }

  method ValidateImmutability(current: seq<ModuleDoc>, base: seq<ModuleDoc>) returns (ok: bool)
    requires ValidRegistry(current)
    ensures ok <==> Accepts(current, base)
    ensures ok <==> Unharmed(current, base)
  {
    hide Unharmed;
    AcceptsExactly(current, base);
    var byId: map<string, ModuleDoc> := map[];
    for i := 0 to |current|
      invariant forall id :: id in byId <==> exists j :: 0 <= j < i && current[j].id == id
      invariant forall id | id in byId :: byId[id] in current && byId[id].id == id
    {
      byId := byId[current[i].id := current[i]];
    }
    for i := 0 to |base|
      invariant forall b | b in base[..i] ::
          exists c :: c in current && c.id == b.id && ProvenanceKept(c, b) && ReleasesKept(c, b)
    {
      var b := base[i];
      assert b in base;
      if b.id !in byId {
        assert forall c | c in current :: c.id != b.id;
        return false;
      }
      var c := byId[b.id];
      forall d | d in current && d.id == b.id ensures d == c { ModuleDetermined(current, d, c); }
      if !ProvenanceKept(c, b) { return false; }
      var kept := ValidateReleases(c, b);
      if !kept { return false; }
      assert base[..i + 1] == base[..i] + [b];
    }
    assert base[..|base|] == base;
    return true;
  }

  // ----- In fields -----

  /** What may be installed from the release is the same in both: everything but where it is downloaded from. */
  ghost predicate SameContent(p: Release, r: Release) {
    && p.version == r.version && p.channel == r.channel && p.sha256 == r.sha256 && p.bundleFormat == r.bundleFormat
    && p.sourceCommit == r.sourceCommit && p.sourceTag == r.sourceTag && p.host == r.host && p.sdk == r.sdk
    && p.requiresModules == r.requiresModules
  }

  /** The download moves, if at all, from GitHub to the mirror. */
  ghost predicate UrlKept(id: string, p: Release, r: Release) {
    p.url != r.url ==> Hostname(r.url) == "github.com" && p.url == MirrorUrl(id, r.version)
  }

  ghost predicate SameProvenance(c: ModuleDoc, b: ModuleDoc) {
    && c.id == b.id && c.publisherId == b.publisherId && c.classification == b.classification
    && c.sourceRepository == b.sourceRepository && c.license == b.license
  }

  ghost predicate Unharmed(current: seq<ModuleDoc>, base: seq<ModuleDoc>) {
    forall b | b in base :: exists c :: c in current && SameProvenance(c, b) && ReleasesUnharmed(c, b)
  }

  ghost predicate ReleasesUnharmed(c: ModuleDoc, b: ModuleDoc) {
    forall r | r in b.versions :: exists p :: p in c.versions && SameContent(p, r) && UrlKept(b.id, p, r)
  }

  lemma KeptExactly(id: string, p: Release, r: Release)
    ensures p.version == r.version && ReleaseKept(id, p, r) <==> SameContent(p, r) && UrlKept(id, p, r)
  {
    MirrorUrlIsPublic(id, r.version);
  }

  lemma ReleasesKeptExactly(c: ModuleDoc, b: ModuleDoc)
    ensures ReleasesKept(c, b) <==> ReleasesUnharmed(c, b)
  {
    hide ReleaseKept, SameContent, UrlKept;
    forall p: Release, r: Release
      ensures p.version == r.version && ReleaseKept(b.id, p, r) <==> SameContent(p, r) && UrlKept(b.id, p, r)
    {
      KeptExactly(b.id, p, r);
    }
  }

  /**
   A registry is accepted if and only if every module of the base is still there with its
   publisher, classification, repository and licence, and every release with its whole content.
   */
  lemma AcceptsExactly(current: seq<ModuleDoc>, base: seq<ModuleDoc>)
    ensures Accepts(current, base) <==> Unharmed(current, base)
  {
    hide ReleasesKept, ReleasesUnharmed;
    forall c: ModuleDoc, b: ModuleDoc ensures ReleasesKept(c, b) <==> ReleasesUnharmed(c, b) {
      ReleasesKeptExactly(c, b);
    }
    forall c: ModuleDoc, b: ModuleDoc ensures c.id == b.id && ProvenanceKept(c, b) <==> SameProvenance(c, b) {}
  }

  // ----- A preorder, and what a whole history may do -----

  lemma AcceptsReflexive(modules: seq<ModuleDoc>)
    ensures Accepts(modules, modules)
  {
    forall b | b in modules ensures ProvenanceKept(b, b) && ReleasesKept(b, b) {
      forall r | r in b.versions ensures ReleaseKept(b.id, r, r) {}
    }
  }

  /** A mirror is never moved again: its host is not GitHub. */
  lemma ReleaseKeptTransitive(id: string, c: Release, b: Release, a: Release)
    requires ReleaseKept(id, c, b) && ReleaseKept(id, b, a)
    ensures ReleaseKept(id, c, a)
    ensures b != a ==> c == b
  {
    PublicUrlHost(id, a.version);
  }

  /** Two accepted changes in a row are accepted as one change. */
  lemma AcceptsTransitive(c: seq<ModuleDoc>, b: seq<ModuleDoc>, a: seq<ModuleDoc>)
    requires Accepts(c, b) && Accepts(b, a)
    ensures Accepts(c, a)
  {
    forall x | x in a
      ensures exists z :: z in c && z.id == x.id && ProvenanceKept(z, x) && ReleasesKept(z, x)
    {
      var y :| y in b && y.id == x.id && ProvenanceKept(y, x) && ReleasesKept(y, x);
      var z :| z in c && z.id == y.id && ProvenanceKept(z, y) && ReleasesKept(z, y);
      forall r | r in x.versions
        ensures exists p :: p in z.versions && p.version == r.version && ReleaseKept(x.id, p, r)
      {
        var q :| q in y.versions && q.version == r.version && ReleaseKept(x.id, q, r);
        var p :| p in z.versions && p.version == q.version && ReleaseKept(y.id, p, q);
        ReleaseKeptTransitive(x.id, p, q, r);
      }
      assert ReleasesKept(z, x);
    }
  }

  /** A history of valid registries, each accepted against the one before. */
  ghost predicate History(states: seq<seq<ModuleDoc>>) {
    && (forall i | 0 <= i < |states| :: ValidRegistry(states[i]))
    && (forall i | 0 <= i < |states| - 1 :: Accepts(states[i + 1], states[i]))
  }

  lemma {:induction false} HistoryComposes(states: seq<seq<ModuleDoc>>, i: nat, j: nat)
    requires History(states) && i <= j < |states|
    ensures Accepts(states[j], states[i])
    decreases j - i
  {
    if i == j {
      AcceptsReflexive(states[i]);
    } else {
      HistoryComposes(states, i, j - 1);
      AcceptsTransitive(states[j], states[j - 1], states[i]);
    }
  }

  ghost predicate Published(state: seq<ModuleDoc>, id: string, r: Release) {
    exists m :: m in state && m.id == id && r in m.versions
  }

  lemma AcceptedRelease(current: seq<ModuleDoc>, base: seq<ModuleDoc>, id: string, r: Release) returns (p: Release)
    requires Accepts(current, base) && Published(base, id, r)
    ensures Published(current, id, p) && p.version == r.version && ReleaseKept(id, p, r)
  {
    var b :| b in base && b.id == id && r in b.versions;
    var c :| c in current && c.id == b.id && ProvenanceKept(c, b) && ReleasesKept(c, b);
    p :| p in c.versions && p.version == r.version && ReleaseKept(b.id, p, r);
  }

  lemma PublishedDetermined(state: seq<ModuleDoc>, id: string, p: Release, q: Release)
    requires ValidRegistry(state) && Published(state, id, p) && Published(state, id, q) && p.version == q.version
    ensures p == q
  {
    var m :| m in state && m.id == id && p in m.versions;
    var n :| n in state && n.id == id && q in n.versions;
    ModuleDetermined(state, m, n);
    ReleaseDetermined(m, p, q);
  }

  /** No later registry of a history lacks a release that an earlier one published, or has it with other content. */
  lemma ReleaseNeverRemoved(states: seq<seq<ModuleDoc>>, i: nat, j: nat, id: string, r: Release)
    requires History(states) && i <= j < |states| && Published(states[i], id, r)
    ensures exists s :: Published(states[j], id, s) && SameContent(s, r) && UrlKept(id, s, r)
  {
    hide SameContent, UrlKept, ReleaseKept;
    HistoryComposes(states, i, j);
    var s := AcceptedRelease(states[j], states[i], id, r);
    KeptExactly(id, s, r);
  }

  /**
   Over a whole history a release takes at most two values: once it differs from what was
   published first, it is the mirrored form and stays so.
   */
  lemma ReleaseChangesAtMostOnce(states: seq<seq<ModuleDoc>>, i: nat, j: nat, k: nat, id: string, r: Release,
      s: Release, t: Release)
    requires History(states) && i <= j <= k < |states|
    requires Published(states[i], id, r) && Published(states[j], id, s) && Published(states[k], id, t)
    requires r.version == s.version == t.version
    ensures s != r ==>
              && SameContent(s, r) && Hostname(r.url) == "github.com" && s.url == MirrorUrl(id, r.version)
              && t == s
  {
    HistoryComposes(states, i, j);
    HistoryComposes(states, j, k);
    var s' := AcceptedRelease(states[j], states[i], id, r);
    var t' := AcceptedRelease(states[k], states[j], id, s);
    PublishedDetermined(states[j], id, s', s);
    PublishedDetermined(states[k], id, t', t);
    ReleaseKeptTransitive(id, t, s, r);
    KeptExactly(id, s, r);
  }

  /** Whatever two registries of a history publish as one version has the same content in both. */
  lemma HistoryKeepsContent(states: seq<seq<ModuleDoc>>, i: nat, j: nat, id: string, r: Release, s: Release)
    requires History(states) && i <= j < |states|
    requires Published(states[i], id, r) && Published(states[j], id, s) && r.version == s.version
    ensures SameContent(s, r) && UrlKept(id, s, r)
  {
    hide SameContent, UrlKept, ReleaseKept;
    HistoryComposes(states, i, j);
    var p := AcceptedRelease(states[j], states[i], id, r);
    PublishedDetermined(states[j], id, p, s);
    KeptExactly(id, s, r);
  }

  /** No module of a history goes, and who publishes it from where under which licence never changes. */
  lemma HistoryKeepsProvenance(states: seq<seq<ModuleDoc>>, i: nat, j: nat, b: ModuleDoc)
    requires History(states) && i <= j < |states| && b in states[i]
    ensures exists c :: c in states[j] && SameProvenance(c, b)
  {
    HistoryComposes(states, i, j);
    AcceptsExactly(states[j], states[i]);
  }
}
