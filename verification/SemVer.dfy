/**
 Semantic versions: the grammar accepted by SEMVER_RE, the sort key built by semver_key,
 and section 11 of Semantic Versioning 2.0.0 written down independently of that key.
 */
module SemVer {
  import opened Text
  import opened Wrappers

  // ----- Grammar -----

  predicate IsDigit(c: char) { '0' <= c <= '9' }

  predicate IsIdentChar(c: char) {
    IsDigit(c) || 'A' <= c <= 'Z' || 'a' <= c <= 'z' || c == '-'
  }

  predicate AllDigits(s: string) { forall i | 0 <= i < |s| :: IsDigit(s[i]) }

  /** 0|[1-9][0-9]* */
  predicate IsNumeric(s: string) {
    |s| >= 1 && AllDigits(s) && (|s| > 1 ==> s[0] != '0')
  }

  /** [0-9A-Za-z-]+ */
  predicate IsIdent(s: string) {
    |s| >= 1 && forall i | 0 <= i < |s| :: IsIdentChar(s[i])
  }

  /** 0|[1-9][0-9]*|[0-9]*[A-Za-z-][0-9A-Za-z-]* */
  predicate IsPreIdent(s: string) {
    IsIdent(s) && (AllDigits(s) ==> IsNumeric(s))
  }

  /** The five groups of SEMVER_RE, dotted groups already split. */
  datatype Version = Version(
    major: string, minor: string, patch: string,
    pre: Option<seq<string>>, build: Option<seq<string>>)
  {
    predicate WellFormed() {
      && IsNumeric(major) && IsNumeric(minor) && IsNumeric(patch)
      && (pre.Some? ==> |pre.value| >= 1 && forall i | 0 <= i < |pre.value| :: IsPreIdent(pre.value[i]))
      && (build.Some? ==> |build.value| >= 1 && forall i | 0 <= i < |build.value| :: IsIdent(build.value[i]))
    }

    function Core(): string { Join([major, minor, patch], '.') }

    function Front(): string {
      if pre.Some? then Core() + ['-'] + Join(pre.value, '.') else Core()
    }

    /** The version text. */
    function Render(): string {
      if build.Some? then Front() + ['+'] + Join(build.value, '.') else Front()
    }
  }

  function SplitOff(s: string, c: char): (r: (string, Option<seq<string>>)) {
    match Find(s, c)
    case None => (s, None)
    case Some(k) => (s[..k], Some(Split(s[k + 1..], '.')))
  }

  /** SEMVER_RE.fullmatch: the groups of a match, or None. */
  function Parse(text: string): Option<Version> {
    var (front, build) := SplitOff(text, '+');
    var (core, pre) := SplitOff(front, '-');
    var numbers := Split(core, '.');
    if |numbers| != 3 then None else
    var v := Version(numbers[0], numbers[1], numbers[2], pre, build);
    if v.WellFormed() then Some(v) else None
  }

  // ----- The character classes and identifiers of the expression, listed -----

  const DIGITS := "0123456789"

  const UPPER := "ABCDEFGHIJKLMNOPQRSTUVWXYZ"

  const LOWER := "abcdefghijklmnopqrstuvwxyz"

  ghost predicate ListedChar(c: char) { c in DIGITS || c in UPPER || c in LOWER || c == '-' }

  lemma DigitExactly(c: char)
    ensures IsDigit(c) <==> c in DIGITS
  {
    if IsDigit(c) { assert DIGITS[c as int - '0' as int] == c; }
  }

  lemma UpperExactly(c: char)
    ensures 'A' <= c <= 'Z' <==> c in UPPER
  {
    if 'A' <= c <= 'Z' { assert UPPER[c as int - 'A' as int] == c; }
  }

  lemma LowerExactly(c: char)
    ensures 'a' <= c <= 'z' <==> c in LOWER
  {
    if 'a' <= c <= 'z' { assert LOWER[c as int - 'a' as int] == c; }
  }

  lemma IdentCharExactly(c: char)
    ensures IsIdentChar(c) <==> ListedChar(c)
  {
    DigitExactly(c);
    UpperExactly(c);
    LowerExactly(c);
  }

  /** A numeral is 0, or digits that do not start with 0. */
  lemma NumericExactly(s: string)
    ensures IsNumeric(s) <==> s == "0" || (s != [] && s[0] != '0' && forall c | c in s :: c in DIGITS)
  {
    hide IsDigit;
    forall i | 0 <= i < |s| ensures IsDigit(s[i]) <==> s[i] in DIGITS { DigitExactly(s[i]); }
    assert "0"[0] == '0' && DIGITS[0] == '0';
    if forall c | c in s :: c in DIGITS { assert forall i | 0 <= i < |s| :: s[i] in s; }
    if |s| == 1 && s[0] == '0' { assert s == "0"; }
  }

  /** An identifier is one or more digits, letters and hyphens; one of a pre-release is a numeral or has a non-digit. */
  lemma IdentExactly(s: string)
    ensures IsIdent(s) <==> s != [] && forall c | c in s :: ListedChar(c)
    ensures IsPreIdent(s) <==>
              && s != [] && (forall c | c in s :: ListedChar(c))
              && (IsNumeric(s) || exists c :: c in s && c !in DIGITS)
  {
    hide IsDigit, IsIdentChar, ListedChar;
    forall i | 0 <= i < |s|
      ensures IsDigit(s[i]) <==> s[i] in DIGITS
      ensures IsIdentChar(s[i]) <==> ListedChar(s[i])
      ensures s[i] in s
    {
      DigitExactly(s[i]);
      IdentCharExactly(s[i]);
    }
  }

  /** Three numerals, then one or more identifiers of a pre-release, then one or more of build metadata, if any. */
  lemma WellFormedExactly(v: Version)
    ensures v.WellFormed() <==>
              && IsNumeric(v.major) && IsNumeric(v.minor) && IsNumeric(v.patch)
              && (v.pre.Some? ==> v.pre.value != [] && forall p | p in v.pre.value :: IsPreIdent(p))
              && (v.build.Some? ==> v.build.value != [] && forall b | b in v.build.value :: IsIdent(b))
  {
    hide IsNumeric, IsPreIdent, IsIdent;
    if v.pre.Some? { assert forall i | 0 <= i < |v.pre.value| :: v.pre.value[i] in v.pre.value; }
    if v.build.Some? { assert forall i | 0 <= i < |v.build.value| :: v.build.value[i] in v.build.value; }
  }

  lemma CoreRoundTrip(core: string)
    requires |Split(core, '.')| == 3
    ensures Version(Split(core, '.')[0], Split(core, '.')[1], Split(core, '.')[2], None, None).Core() == core
  {
    var numbers := Split(core, '.');
    JoinSplit(core, '.');
    assert numbers == [numbers[0], numbers[1], numbers[2]];
  }

  lemma SplitOffRoundTrip(s: string, c: char)
    ensures var r := SplitOff(s, c);
            s == if r.1.Some? then r.0 + [c] + Join(r.1.value, '.') else r.0
  {
    match Find(s, c)
    case None =>
    case Some(k) =>
      var tail := s[k + 1..];
      JoinSplit(tail, '.');
      assert SplitOff(s, c) == (s[..k], Some(Split(tail, '.')));
      assert s == s[..k] + [c] + tail;
  }

  /** Every accepted text is the rendering of the groups it was split into. */
  lemma ParseSound(text: string)
    requires Parse(text).Some?
    ensures Parse(text).value.WellFormed() && Parse(text).value.Render() == text
  {
    var (front, build) := SplitOff(text, '+');
    var (core, pre) := SplitOff(front, '-');
    SplitOffRoundTrip(text, '+');
    SplitOffRoundTrip(front, '-');
    CoreRoundTrip(core);
  }

  lemma IdentLacks(s: string, c: char)
    requires IsIdent(s) && !IsIdentChar(c)
    ensures Lacks(s, c)
  {}

  lemma NumericLacks(s: string, c: char)
    requires IsNumeric(s) && !IsDigit(c)
    ensures Lacks(s, c)
  {}

  lemma CoreLacks(v: Version, c: char)
    requires v.WellFormed() && c != '.' && !IsDigit(c)
    ensures Lacks(v.Core(), c)
  {
    var parts := [v.major, v.minor, v.patch];
    forall i | 0 <= i < |parts| ensures Lacks(parts[i], c) { NumericLacks(parts[i], c); }
    JoinLacks(parts, '.', c);
  }

  lemma IdentsLack(parts: seq<string>, c: char)
    requires |parts| >= 1 && c != '.' && !IsIdentChar(c)
    requires forall i | 0 <= i < |parts| :: IsIdent(parts[i])
    ensures Lacks(Join(parts, '.'), c)
  {
    forall i | 0 <= i < |parts| ensures Lacks(parts[i], c) { IdentLacks(parts[i], c); }
    JoinLacks(parts, '.', c);
  }

  /** No character outside digits, identifiers, '.', '-' and '+' occurs in a version text. */
  lemma RenderLacks(v: Version, c: char)
    requires v.WellFormed() && c != '.' && c != '+' && !IsIdentChar(c)
    ensures Lacks(v.Render(), c)
  {
    CoreLacks(v, c);
    if v.pre.Some? { IdentsLack(v.pre.value, c); }
    if v.build.Some? { IdentsLack(v.build.value, c); }
  }

  lemma SplitOffJoined(front: string, c: char, parts: seq<string>)
    requires Lacks(front, c) && |parts| >= 1 && forall i | 0 <= i < |parts| :: IsIdent(parts[i])
    ensures SplitOff(front + [c] + Join(parts, '.'), c) == (front, Some(parts))
  {
    var tail := Join(parts, '.');
    FindIn(front, c, tail);
    var s := front + [c] + tail;
    assert s[..|front|] == front && s[|front| + 1..] == tail;
    forall i | 0 <= i < |parts| ensures Lacks(parts[i], '.') { IdentLacks(parts[i], '.'); }
    SplitJoin(parts, '.');
  }

  /** Every rendering is accepted and splits back into the same groups. */
  lemma ParseComplete(v: Version)
    requires v.WellFormed()
    ensures Parse(v.Render()) == Some(v)
  {
    CoreLacks(v, '-');
    CoreLacks(v, '+');
    if v.pre.Some? {
      IdentsLack(v.pre.value, '+');
      SplitOffJoined(v.Core(), '-', v.pre.value);
    }
    assert Lacks(v.Front(), '+');
    if v.build.Some? {
      SplitOffJoined(v.Front(), '+', v.build.value);
    }
    var parts := [v.major, v.minor, v.patch];
    forall i | 0 <= i < |parts| ensures Lacks(parts[i], '.') { NumericLacks(parts[i], '.'); }
    SplitJoin(parts, '.');
  }

  // ----- semver_key -----

  /** int(part) */
  function Decimal(s: string): nat {
    if s == [] then 0
    else 10 * Decimal(s[..|s| - 1]) + (if IsDigit(s[|s| - 1]) then (s[|s| - 1] - '0') as nat else 0)
  }

  /** (0, int(part)) or (1, part) */
  datatype Item = Num(n: nat) | Alpha(s: string)

  /** (1,) or (0, identifiers) */
  datatype Tail = Items(items: seq<Item>) | Final

  datatype Key = Key(major: nat, minor: nat, patch: nat, tail: Tail)

  function ItemOf(part: string): Item {
    if AllDigits(part) then Num(Decimal(part)) else Alpha(part)
  }

  function ItemsOf(parts: seq<string>): (r: seq<Item>)
    ensures |r| == |parts| && forall i | 0 <= i < |r| :: r[i] == ItemOf(parts[i])
  {
    seq(|parts|, i requires 0 <= i < |parts| => ItemOf(parts[i]))
  }

  function SemverKey(v: Version): Key {
    Key(Decimal(v.major), Decimal(v.minor), Decimal(v.patch),
        if v.pre.None? then Final else Items(ItemsOf(v.pre.value)))
  }

  // Comparison of the key tuples: the first unequal component decides, and a proper
  // prefix comes first.

  predicate ItemLess(a: Item, b: Item) {
    match (a, b)
    case (Num(m), Num(n)) => m < n
    case (Num(_), Alpha(_)) => true
    case (Alpha(_), Num(_)) => false
    case (Alpha(s), Alpha(t)) => TextLess(s, t)
  }

  predicate ItemsLess(a: seq<Item>, b: seq<Item>) {
    if b == [] then false
    else if a == [] then true
    else if a[0] != b[0] then ItemLess(a[0], b[0])
    else ItemsLess(a[1..], b[1..])
  }

  predicate TailLess(a: Tail, b: Tail) {
    match (a, b)
    case (Items(x), Items(y)) => ItemsLess(x, y)
    case (Items(_), Final) => true
    case (Final, _) => false
  }

  predicate KeyLess(a: Key, b: Key) {
    if a.major != b.major then a.major < b.major
    else if a.minor != b.minor then a.minor < b.minor
    else if a.patch != b.patch then a.patch < b.patch
    else TailLess(a.tail, b.tail)
  }

  /** v sorts strictly before w under semver_key. */
  predicate Before(v: Version, w: Version) { KeyLess(SemverKey(v), SemverKey(w)) }

  // ----- The key order is a strict total order -----

  lemma {:induction false} ItemsOrder(a: seq<Item>, b: seq<Item>, c: seq<Item>)
    ensures a == b || ItemsLess(a, b) || ItemsLess(b, a)
    ensures !(ItemsLess(a, b) && ItemsLess(b, a))
    ensures ItemsLess(a, b) && ItemsLess(b, c) ==> ItemsLess(a, c)
    decreases |a| + |b| + |c|
  {
    if a != [] && b != [] {
      ItemsOrder(a[1..], b[1..], if c == [] then [] else c[1..]);
      if a[0] == b[0] && a[1..] == b[1..] { assert a == [a[0]] + a[1..] == b; }
      ItemOrder(a[0], b[0], if c == [] then b[0] else c[0]);
    }
  }

  lemma ItemOrder(a: Item, b: Item, c: Item)
    ensures a == b || ItemLess(a, b) || ItemLess(b, a)
    ensures !(ItemLess(a, b) && ItemLess(b, a))
    ensures ItemLess(a, b) && ItemLess(b, c) ==> ItemLess(a, c)
  {
    if a.Alpha? && b.Alpha? { TextOrder(a.s, b.s, if c.Alpha? then c.s else []); }
  }

  lemma KeyOrder(a: Key, b: Key, c: Key)
    ensures a == b || KeyLess(a, b) || KeyLess(b, a)
    ensures !(KeyLess(a, b) && KeyLess(b, a))
    ensures KeyLess(a, b) && KeyLess(b, c) ==> KeyLess(a, c)
  {
    ItemsOrder(if a.tail.Items? then a.tail.items else [], if b.tail.Items? then b.tail.items else [],
               if c.tail.Items? then c.tail.items else []);
  }

  /** Before is a total preorder with its ties removed: asymmetric, transitive, and "not before" is transitive. */
  lemma PrecedenceIsTotalPreorder(u: Version, v: Version, w: Version)
    ensures !(Before(u, v) && Before(v, u))
    ensures Before(u, v) && Before(v, w) ==> Before(u, w)
    ensures !Before(v, u) && !Before(w, v) ==> !Before(w, u)
  {
    var a, b, c := SemverKey(u), SemverKey(v), SemverKey(w);
    KeyOrder(a, b, c);
    KeyOrder(c, b, a);
    KeyOrder(b, c, a);
    KeyOrder(b, a, c);
    KeyOrder(c, a, b);
  }

  // ----- Section 11 of Semantic Versioning 2.0.0 -----

  /** 11.4.2: ASCII sort order, said by the first place where the texts part. */
  ghost predicate AsciiBefore(x: string, y: string) {
    exists k: nat :: AsciiParts(x, y, k)
  }

  /** The sequences agree below k, and k is not past their end. */
  ghost predicate AgreeTo<T>(x: seq<T>, y: seq<T>, k: nat) {
    k <= |x| && k < |y| && x[..k] == y[..k]
  }

  ghost predicate AsciiParts(x: string, y: string, k: nat) {
    AgreeTo(x, y, k) && (k < |x| ==> x[k] < y[k])
  }

  /** 11.4.1 to 11.4.3: one pair of differing identifiers. */
  ghost predicate IdentBefore(x: string, y: string) {
    if AllDigits(x) && AllDigits(y) then Decimal(x) < Decimal(y)
    else if AllDigits(x) || AllDigits(y) then AllDigits(x)
    else AsciiBefore(x, y)
  }

  /** 11.4: identifiers from left to right until a difference; 11.4.4: a longer list wins when all before are equal. */
  ghost predicate PreBefore(x: seq<string>, y: seq<string>) {
    exists k: nat :: PreParts(x, y, k)
  }

  ghost predicate PreParts(x: seq<string>, y: seq<string>, k: nat) {
    AgreeTo(x, y, k) && (k < |x| ==> x[k] != y[k] && IdentBefore(x[k], y[k]))
  }

  /** 11.2, 11.3 and 11.4; 11.1 leaves build metadata out. */
  ghost predicate Section11(v: Version, w: Version) {
    var (a, b, c) := (Decimal(v.major), Decimal(v.minor), Decimal(v.patch));
    var (x, y, z) := (Decimal(w.major), Decimal(w.minor), Decimal(w.patch));
    || a < x
    || (a == x && b < y)
    || (a == x && b == y && c < z)
    || (a == x && b == y && c == z && v.pre.Some? && w.pre.None?)
    || (a == x && b == y && c == z && v.pre.Some? && w.pre.Some? && PreBefore(v.pre.value, w.pre.value))
  }

  lemma AgreeToHead<T>(x: seq<T>, y: seq<T>, k: nat)
    requires |x| >= 1 && |y| >= 1 && k >= 1
    ensures AgreeTo(x, y, k) <==> x[0] == y[0] && AgreeTo(x[1..], y[1..], k - 1)
  {
    if k <= |x| && k < |y| {
      assert x[..k] == [x[0]] + x[1..][..k - 1] && y[..k] == [y[0]] + y[1..][..k - 1];
      assert x[1..][..k - 1] == x[..k][1..] && y[1..][..k - 1] == y[..k][1..];
      assert x[..k][0] == x[0] && y[..k][0] == y[0];
    }
  }

  lemma AsciiHead(x: string, y: string)
    requires |x| >= 1 && |y| >= 1
    ensures AsciiBefore(x, y) <==> x[0] < y[0] || (x[0] == y[0] && AsciiBefore(x[1..], y[1..]))
  {
    if AsciiBefore(x, y) {
      var k: nat :| AsciiParts(x, y, k);
      if k > 0 { AgreeToHead(x, y, k); assert AsciiParts(x[1..], y[1..], k - 1); }
    }
    if x[0] < y[0] { assert AsciiParts(x, y, 0); }
    if x[0] == y[0] && AsciiBefore(x[1..], y[1..]) {
      var k: nat :| AsciiParts(x[1..], y[1..], k);
      AgreeToHead(x, y, k + 1);
      assert AsciiParts(x, y, k + 1);
    }
  }

  lemma {:induction false} TextLessIsAscii(a: string, b: string)
    ensures TextLess(a, b) <==> AsciiBefore(a, b)
    decreases |a|
  {
    if b == [] {
    } else if a == [] {
      assert AsciiParts(a, b, 0);
    } else {
      AsciiHead(a, b);
      TextLessIsAscii(a[1..], b[1..]);
    }
  }

  lemma DigitsBound(s: string)
    requires AllDigits(s) && |s| >= 1 && s[0] != '0'
    ensures Decimal(s) >= 1
    decreases |s|
  {
    if |s| > 1 { DigitsBound(s[..|s| - 1]); }
  }

  /** int() is injective on numerals without leading zeros. */
  lemma {:induction false} DecimalInjective(a: string, b: string)
    requires IsNumeric(a) && IsNumeric(b) && Decimal(a) == Decimal(b)
    ensures a == b
    decreases |a|
  {
    var p, q := a[..|a| - 1], b[..|b| - 1];
    assert a == p + [a[|a| - 1]] && b == q + [b[|b| - 1]];
    assert Decimal(a) / 10 == Decimal(p) && Decimal(b) / 10 == Decimal(q);
    if |a| == 1 && |b| == 1 {
    } else if |a| == 1 {
      DigitsBound(q);
    } else if |b| == 1 {
      DigitsBound(p);
    } else {
      DecimalInjective(p, q);
    }
  }

  lemma ItemInjective(x: string, y: string)
    requires IsPreIdent(x) && IsPreIdent(y)
    ensures ItemOf(x) == ItemOf(y) <==> x == y
  {
    if AllDigits(x) && AllDigits(y) && Decimal(x) == Decimal(y) { DecimalInjective(x, y); }
  }

  ghost predicate AllPre(x: seq<string>) { forall i | 0 <= i < |x| :: IsPreIdent(x[i]) }

  lemma PreHead(x: seq<string>, y: seq<string>)
    requires |x| >= 1 && |y| >= 1
    ensures PreBefore(x, y) <==>
            (x[0] != y[0] && IdentBefore(x[0], y[0])) || (x[0] == y[0] && PreBefore(x[1..], y[1..]))
  {
    if PreBefore(x, y) {
      var k: nat :| PreParts(x, y, k);
      if k > 0 { AgreeToHead(x, y, k); assert PreParts(x[1..], y[1..], k - 1); }
    }
    if x[0] != y[0] && IdentBefore(x[0], y[0]) { assert PreParts(x, y, 0); }
    if x[0] == y[0] && PreBefore(x[1..], y[1..]) {
      var k: nat :| PreParts(x[1..], y[1..], k);
      AgreeToHead(x, y, k + 1);
      assert PreParts(x, y, k + 1);
    }
  }

  lemma ItemLessIsIdent(x: string, y: string)
    ensures ItemLess(ItemOf(x), ItemOf(y)) <==> IdentBefore(x, y)
  {
    if !AllDigits(x) && !AllDigits(y) { TextLessIsAscii(x, y); }
  }

  lemma {:induction false} ItemsLessIsPre(x: seq<string>, y: seq<string>)
    requires AllPre(x) && AllPre(y)
    ensures ItemsLess(ItemsOf(x), ItemsOf(y)) <==> PreBefore(x, y)
    decreases |x|
  {
    if y == [] {
    } else if x == [] {
      assert PreParts(x, y, 0);
    } else {
      ItemInjective(x[0], y[0]);
      ItemLessIsIdent(x[0], y[0]);
      PreHead(x, y);
      assert ItemsOf(x)[1..] == ItemsOf(x[1..]) && ItemsOf(y)[1..] == ItemsOf(y[1..]);
      ItemsLessIsPre(x[1..], y[1..]);
    }
  }

  /** semver_key orders accepted versions exactly as section 11 does. */
  lemma KeyIsSection11(v: Version, w: Version)
    requires v.WellFormed() && w.WellFormed()
    ensures Before(v, w) <==> Section11(v, w)
  {
    if v.pre.Some? && w.pre.Some? { ItemsLessIsPre(v.pre.value, w.pre.value); }
  }

  lemma ItemsInjective(x: seq<string>, y: seq<string>)
    requires AllPre(x) && AllPre(y) && ItemsOf(x) == ItemsOf(y)
    ensures x == y
  {
    forall i | 0 <= i < |x| ensures x[i] == y[i] {
      assert ItemsOf(x)[i] == ItemsOf(y)[i];
      ItemInjective(x[i], y[i]);
    }
  }

  /** Two accepted versions tie exactly when they differ in build metadata at most. */
  lemma TieIsBuildOnly(v: Version, w: Version)
    requires v.WellFormed() && w.WellFormed()
    ensures !Before(v, w) && !Before(w, v) <==> v.(build := None) == w.(build := None)
  {
    KeyOrder(SemverKey(v), SemverKey(w), SemverKey(v));
    KeyOrder(SemverKey(v), SemverKey(v), SemverKey(v));
    if SemverKey(v) == SemverKey(w) {
      DecimalInjective(v.major, w.major);
      DecimalInjective(v.minor, w.minor);
      DecimalInjective(v.patch, w.patch);
      if v.pre.Some? { ItemsInjective(v.pre.value, w.pre.value); }
    }
  }
}
