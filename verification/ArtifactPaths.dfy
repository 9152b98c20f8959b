/** Where a release lives: the relative key and the public URL, both functions of module ID and version. */
module ArtifactPaths {
  import opened Digests
  import opened SemVer
  import opened Text

  const HOST := "packages.stadtplaner.oklabflensburg.de"

  /** MODULE_ID_RE with the length limit of _canonical_id. */
  predicate IsModuleId(s: string) {
    && 1 <= |s| <= 63 && 'a' <= s[0] <= 'z'
    && (forall i | 0 <= i < |s| :: 'a' <= s[i] <= 'z' || IsDigit(s[i]) || s[i] == '-')
    && (forall i | 0 <= i < |s| && s[i] == '-' :: i + 1 < |s| && s[i + 1] != '-')
  }

  predicate IsLowerOrDigit(c: char) { 'a' <= c <= 'z' || '0' <= c <= '9' }

  ghost predicate IsWord(w: string) { w != [] && forall c | c in w :: IsLowerOrDigit(c) }

  ghost predicate Hyphenated(s: string) {
    && s != [] && s[0] != '-'
    && (forall i | 0 <= i < |s| :: IsLowerOrDigit(s[i]) || s[i] == '-')
    && (forall i | 0 <= i < |s| && s[i] == '-' :: i + 1 < |s| && s[i + 1] != '-')
  }

  lemma {:induction false} HyphenatedSplits(s: string)
    requires Hyphenated(s)
    ensures forall w | w in Split(s, '-') :: IsWord(w)
    ensures Split(s, '-')[0][..1] == s[..1]
    decreases |s|
  {
    hide Hyphenated, IsWord;
    HyphenatedStarts(s);
    match Find(s, '-')
    case None =>
      assert s[..|s|] == s;
      WordBefore(s, |s|);
    case Some(k) =>
      WordBefore(s, k);
      HyphenatedRest(s, k);
      HyphenatedSplits(s[k + 1..]);
      assert Split(s, '-') == [s[..k]] + Split(s[k + 1..], '-');
  }

  lemma HyphenatedStarts(s: string)
    requires Hyphenated(s)
    ensures s != [] && s[0] != '-'
  {}

  lemma WordBefore(s: string, k: nat)
    requires Hyphenated(s) && 0 < k <= |s| && Lacks(s[..k], '-')
    ensures IsWord(s[..k])
  {
    forall c | c in s[..k] ensures IsLowerOrDigit(c) {
      var i :| 0 <= i < k && s[..k][i] == c;
      assert s[i] == c;
    }
  }

  lemma HyphenatedRest(s: string, k: nat)
    requires Hyphenated(s) && k < |s| && s[k] == '-'
    ensures Hyphenated(s[k + 1..])
  {}

  lemma {:induction false} WordsJoin(words: seq<string>)
    requires words != [] && forall w | w in words :: IsWord(w)
    ensures Hyphenated(Join(words, '-')) && Join(words, '-')[0] == words[0][0]
  {
    assert words[0] in words;
    forall i | 0 <= i < |words[0]| ensures IsLowerOrDigit(words[0][i]) { assert words[0][i] in words[0]; }
    if |words| > 1 {
      WordsJoin(words[1..]);
      var rest, s := Join(words[1..], '-'), Join(words, '-');
      assert s == words[0] + ['-'] + rest;
      assert forall i | |words[0]| < i < |s| :: s[i] == rest[i - |words[0]| - 1];
    }
  }

  /** A module ID is at most 63 characters of words in small letters and digits with hyphens between, a letter first. */
  lemma ModuleIdExactly(s: string)
    ensures IsModuleId(s) <==>
              |s| <= 63 && exists words: seq<string> ::
                && words != [] && s == Join(words, '-') && (forall w | w in words :: IsWord(w))
                && words[0] != [] && 'a' <= words[0][0] <= 'z'
  {
    if IsModuleId(s) {
      assert Hyphenated(s);
      HyphenatedSplits(s);
      JoinSplit(s, '-');
      assert Split(s, '-')[0] in Split(s, '-');
      assert Split(s, '-')[0][..1][0] == s[..1][0];
    }
    if |s| <= 63 {
      forall words: seq<string> | words != [] && s == Join(words, '-') && (forall w | w in words :: IsWord(w))
                                  && words[0] != [] && 'a' <= words[0][0] <= 'z'
        ensures IsModuleId(s)
      {
        WordsJoin(words);
      }
    }
  }

  /** modules/{id}/{version}/{id}-{version}.ocp */
  function RelativePath(id: string, v: Version): string {
    "modules" + ['/'] + (id + ['/'] + (v.Render() + ['/'] + (id + "-" + v.Render() + ".ocp")))
  }

  function PublicUrl(id: string, v: Version): string { "https://" + HOST + "/" + RelativePath(id, v) }

  /** The public URL, written out. */
  function MirrorUrl(id: string, v: Version): string {
    "https://" + "packages.stadtplaner.oklabflensburg.de" + "/" + "modules" + "/" + id + "/" + v.Render() + "/"
    + id + "-" + v.Render() + ".ocp"
  }

  lemma Regrouped(p: string, m: string, s: string, id: string, n: string, d: string, e: string)
    ensures p + (m + s + (id + s + (n + s + (id + d + n + e)))) == p + m + s + id + s + n + s + id + d + n + e
  {
    var f := id + d + n + e;
    assert p + (m + s + (id + s + (n + s + f))) == p + m + s + (id + s + (n + s + f));
    assert p + m + s + (id + s + (n + s + f)) == p + m + s + id + s + (n + s + f);
    assert p + m + s + id + s + (n + s + f) == p + m + s + id + s + n + s + f;
    assert p + m + s + id + s + n + s + f == p + m + s + id + s + n + s + id + d + n + e;
  }

  lemma MirrorUrlIsPublic(id: string, v: Version)
    ensures PublicUrl(id, v) == MirrorUrl(id, v)
  {
    assert "/" == ['/'];
    Regrouped("https://" + HOST + "/", "modules", ['/'], id, v.Render(), "-", ".ocp");
  }

  /** What the store reports about a stored version. */
  datatype StoredArtifact = StoredArtifact(digest: Digest, byteSize: nat, locator: string, publicUrl: string)

  function Metadata(id: string, v: Version, d: Digest, size: nat): StoredArtifact {
    StoredArtifact(d, size, RelativePath(id, v), PublicUrl(id, v))
  }

  lemma FirstFieldUnique(a: string, x: string, b: string, y: string, c: char)
    requires Lacks(a, c) && Lacks(b, c) && a + [c] + x == b + [c] + y
    ensures a == b && x == y
  {
    FindIn(a, c, x);
    FindIn(b, c, y);
    assert (a + [c] + x)[..|a|] == a && (b + [c] + y)[..|b|] == b;
    assert (a + [c] + x)[|a| + 1..] == x && (b + [c] + y)[|b| + 1..] == y;
  }

  /** Two accepted identities share a path only when they are the same identity. */
  lemma RelativePathInjective(id: string, v: Version, id': string, v': Version)
    requires IsModuleId(id) && IsModuleId(id') && v.WellFormed() && v'.WellFormed()
    requires RelativePath(id, v) == RelativePath(id', v')
    ensures id == id' && v == v'
  {
    RenderLacks(v, '/');
    RenderLacks(v', '/');
    var t, t' :=
      v.Render() + ['/'] + (id + "-" + v.Render() + ".ocp"), v'.Render() + ['/'] + (id' + "-" + v'.Render() + ".ocp");
    FirstFieldUnique("modules", id + ['/'] + t, "modules", id' + ['/'] + t', '/');
    FirstFieldUnique(id, t, id', t', '/');
    FirstFieldUnique(v.Render(), id + "-" + v.Render() + ".ocp", v'.Render(), id' + "-" + v'.Render() + ".ocp", '/');
    ParseComplete(v);
    ParseComplete(v');
  }

  function Lower(c: char): char {
    if 'A' <= c <= 'Z' then ('a' as int + (c as int - 'A' as int)) as char else c
  }

  function TakeHost(s: string): string {
    if s == [] || s[0] in {'/', ':', '?', '#'} then []
    else [Lower(s[0])] + TakeHost(s[1..])
  }

  /** urlsplit(url).hostname of an https URL without credentials. */
  function Hostname(url: string): string {
    if "https://" <= url then TakeHost(url[8..]) else []
  }

  lemma PublicUrlHost(id: string, v: Version)
    ensures Hostname(PublicUrl(id, v)) != "github.com"
  {
    var url := PublicUrl(id, v);
    assert url[8] == 'p';
    assert url[8..][0] == 'p';
    assert TakeHost(url[8..])[0] == 'p';
  }

  /** The host ends at the first port, path, query or fragment, and is read in lower case. */
  lemma {:induction false} HostEnds(host: string, rest: string)
    requires forall c | c in host :: c !in {'/', ':', '?', '#'}
    requires rest != [] ==> rest[0] in {'/', ':', '?', '#'}
    ensures |TakeHost(host + rest)| == |host|
    ensures forall k | 0 <= k < |host| :: TakeHost(host + rest)[k] == Lower(host[k])
  {
    if host == [] {
      assert host + rest == rest;
    } else {
      assert (host + rest)[1..] == host[1..] + rest;
      assert (host + rest)[0] == host[0] && host[0] in host;
      assert forall c | c in host[1..] :: c in host;
      HostEnds(host[1..], rest);
    }
  }

  lemma HostnameExactly(host: string, rest: string)
    requires forall c | c in host :: c !in {'/', ':', '?', '#'}
    requires rest != [] ==> rest[0] in {'/', ':', '?', '#'}
    ensures |Hostname("https://" + host + rest)| == |host|
    ensures forall k | 0 <= k < |host| :: Hostname("https://" + host + rest)[k] == Lower(host[k])
    ensures forall url | !("https://" <= url) :: Hostname(url) == []
  {
    var url := "https://" + host + rest;
    assert url[..8] == "https://" && url[8..] == host + rest;
    HostEnds(host, rest);
  }
}
