/** Reading, printing and ordering version strings, and the newest patch of every tagged minor. */
module Versions {
  import opened Text
  import opened Sorting

  const MAX_INT := 0x7FFF_FFFF_FFFF_FFFF
  const SNAPSHOT := "-SNAPSHOT"

  datatype Version = Version(major: int, minor: int, patch: int)

  function Minor(v: Version): (int, int) {
    (v.major, v.minor)
  }

  // ---- Parsing ----

  datatype Atoi = Atoi(value: int, ok: bool)

  /** `strconv.Atoi` on a 64-bit platform: an optional sign and digits; out of range clamps and fails. */
  function ParseInt(s: string): Atoi {
    var signed := s != "" && (s[0] == '-' || s[0] == '+');
    var digits := if signed then s[1..] else s;
    if digits == "" || !AllDigits(digits) then Atoi(0, false)
    else
      var n := DigitsValue(digits);
      if signed && s[0] == '-' then
        if n > MAX_INT + 1 then Atoi(-MAX_INT - 1, false) else Atoi(0 - n, true)
      else if n > MAX_INT then Atoi(MAX_INT, false)
      else Atoi(n, true)
  }

  predicate IsSnapshot(v: string) {
    HasSuffix(v, SNAPSHOT)
  }

  function Components(v: string): seq<string> {
    Split(TrimPrefix(v, "v"), '.')
  }

  function Component(parts: seq<string>, i: nat): int {
    if i < |parts| then ParseInt(parts[i]).value else 0
  }

  /** `parseLooseVersion`: whatever does not parse is zero. */
  function ParseLoose(v: string): Version {
    var parts := Components(TrimSuffix(v, SNAPSHOT));
    Version(Component(parts, 0), Component(parts, 1), Component(parts, 2))
  }

  /** `parseGATag`: exactly three integers. */
  function ParseGATag(tag: string): Option<Version> {
    var parts := Components(tag);
    if |parts| != 3 || (exists i :: 0 <= i < 3 && !ParseInt(parts[i]).ok) then None
    else Some(Version(ParseInt(parts[0]).value, ParseInt(parts[1]).value, ParseInt(parts[2]).value))
  }

  /** The pattern of release tags: a `v`, major 8 or 9, and two runs of digits. */
  predicate GAPattern(tag: string) {
    && HasPrefix(tag, "v")
    && var parts := Split(tag[1..], '.');
    && |parts| == 3
    && (parts[0] == "8" || parts[0] == "9")
    && parts[1] != "" && AllDigits(parts[1])
    && parts[2] != "" && AllDigits(parts[2])
  }

  function GATag(tag: string): Option<Version> {
    if GAPattern(tag) then ParseGATag(tag) else None
  }

  predicate Printable(v: Version) {
    0 <= v.major <= MAX_INT && 0 <= v.minor <= MAX_INT && 0 <= v.patch <= MAX_INT
  }

  predicate Supported(v: Version) {
    Printable(v) && (v.major == 8 || v.major == 9)
  }

  function Print(v: Version): string
    requires Printable(v)
  {
    Decimal(v.major) + "." + Decimal(v.minor) + "." + Decimal(v.patch)
  }

  lemma DigitsAreNumbers(s: string)
    requires s != "" && AllDigits(s) && ParseInt(s).ok
    ensures 0 <= ParseInt(s).value <= MAX_INT
  {
    assert IsDigit(s[0]);
  }

  lemma OneDigit(s: string)
    requires s == "8" || s == "9"
    ensures ParseInt(s) == Atoi(if s == "8" then 8 else 9, true)
  {
    assert IsDigit(s[0]) && AllDigits(s);
    assert s[..0] == "";
    assert DigitsValue(s) == 10 * DigitsValue(s[..0]) + DigitValue(s[0]);
  }

  /** A tag that is read at all is a supported version. */
  lemma TagsAreSupported(tag: string)
    requires GATag(tag).Some?
    ensures Supported(GATag(tag).value)
  {
    var parts := Split(tag[1..], '.');
    assert Components(tag) == parts;
    OneDigit(parts[0]);
    DigitsAreNumbers(parts[1]);
    DigitsAreNumbers(parts[2]);
  }

  lemma DecimalReads(n: nat)
    requires n <= MAX_INT
    ensures ParseInt(Decimal(n)) == Atoi(n, true)
  {
    DecimalValue(n);
    assert IsDigit(Decimal(n)[0]);
  }

  lemma NoDots(s: string)
    requires AllDigits(s)
    ensures '.' !in s
  {
  }

  lemma PrintSplits(a: string, b: string, c: string)
    requires AllDigits(a) && AllDigits(b) && AllDigits(c)
    ensures Split(a + "." + b + "." + c, '.') == [a, b, c]
  {
    NoDots(a);
    NoDots(b);
    NoDots(c);
    SplitPiece(a, '.');
    SplitAppend(a, '.', b);
    SplitAppend(a + "." + b, '.', c);
  }

  /** Printing a version and reading it back, loosely or as a tag, gives the version. */
  lemma PrintReads(v: Version)
    requires Printable(v)
    ensures ParseLoose(Print(v)) == v && ParseGATag(Print(v)) == Some(v)
    ensures !IsSnapshot(Print(v)) && Print(v) != ""
  {
    var s := Print(v);
    PrintShape(v);
    DecimalReads(v.major);
    DecimalReads(v.minor);
    DecimalReads(v.patch);
    assert TrimSuffix(s, SNAPSHOT) == s;
  }

  /** A printed version has no prefix or suffix to trim, and three components. */
  lemma PrintShape(v: Version)
    requires Printable(v)
    ensures !IsSnapshot(Print(v)) && Print(v) != ""
    ensures Components(Print(v)) == [Decimal(v.major), Decimal(v.minor), Decimal(v.patch)]
  {
    var a, b, c := Decimal(v.major), Decimal(v.minor), Decimal(v.patch);
    PrintSplits(a, b, c);
    DottedEnds(a, b, c);
    NotSnapshot(Print(v));
  }

  lemma DottedEnds(a: string, b: string, c: string)
    requires a != "" && c != "" && AllDigits(a) && AllDigits(c)
    ensures var s := a + "." + b + "." + c;
            s != "" && IsDigit(s[|s| - 1]) && !HasPrefix(s, "v")
  {
    var s := a + "." + b + "." + c;
    assert s[0] == a[0] && IsDigit(a[0]);
    assert s[|s| - 1] == c[|c| - 1] && IsDigit(c[|c| - 1]);
  }

  lemma NotSnapshot(s: string)
    requires s != "" && IsDigit(s[|s| - 1])
    ensures !IsSnapshot(s)
  {
    if |s| >= 9 {
      assert s[|s| - 9..][8] == s[|s| - 1] != SNAPSHOT[8];
    }
  }

  lemma PrintInjective(v: Version, w: Version)
    requires Printable(v) && Printable(w) && Print(v) == Print(w)
    ensures v == w
  {
    PrintReads(v);
    PrintReads(w);
  }

  // ---- Order ----

  predicate Less(a: Version, b: Version) {
    if a.major != b.major then a.major < b.major
    else if a.minor != b.minor then a.minor < b.minor
    else a.patch < b.patch
  }

  predicate VersionLess(a: string, b: string) {
    Less(ParseLoose(a), ParseLoose(b))
  }

  predicate VersionLeq(a: string, b: string) {
    !VersionLess(b, a)
  }

  lemma VersionOrder()
    ensures TotalPreorder(VersionLeq)
  {
  }

  // ---- The newest patch of each minor ----

  /** `v` was tagged and no tag of its minor has a higher patch. */
  ghost predicate IsBest(tags: seq<string>, v: Version) {
    && (exists tag :: tag in tags && GATag(tag) == Some(v))
    && (forall tag :: tag in tags && GATag(tag).Some? && Minor(GATag(tag).value) == Minor(v) ==>
        GATag(tag).value.patch <= v.patch)
  }

  ghost predicate IsLatestOf(tags: seq<string>, s: string, v: Version) {
    IsBest(tags, v) && Printable(v) && Print(v) == s
  }

  ghost predicate IsLatestString(tags: seq<string>, s: string) {
    exists v :: IsLatestOf(tags, s, v)
  }

  /** The newest patch of every tagged minor, in version order. */
  ghost predicate IsLatest(tags: seq<string>, out: seq<string>) {
    && Sorted(out, VersionLeq) && Distinct(out)
    && forall s :: s in out <==> IsLatestString(tags, s)
  }

  type Best = map<(int, int), int>

  ghost predicate IsBestMap(tags: seq<string>, best: Best) {
    && (forall key :: key in best ==> IsBest(tags, Version(key.0, key.1, best[key])))
    && (forall tag :: tag in tags && GATag(tag).Some? ==> Minor(GATag(tag).value) in best)
  }

  lemma BestIsSupported(tags: seq<string>, v: Version)
    requires IsBest(tags, v)
    ensures Supported(v)
  {
    var tag :| tag in tags && GATag(tag) == Some(v);
    TagsAreSupported(tag);
  }

  lemma BestUnique(tags: seq<string>, v: Version, w: Version)
    requires IsBest(tags, v) && IsBest(tags, w) && Minor(v) == Minor(w)
    ensures v == w
  {
  }

  lemma BestStep(tags: seq<string>, tag: string, best: Best)
    requires IsBestMap(tags, best)
    ensures IsBestMap(tags + [tag], Improve(best, GATag(tag)))
  {
    var best', more := Improve(best, GATag(tag)), tags + [tag];
    assert forall t :: t in more <==> t in tags || t == tag;
    forall key | key in best'
      ensures IsBest(more, Version(key.0, key.1, best'[key]))
    {
      if key in best && best'[key] == best[key] {
        var old_ := Version(key.0, key.1, best[key]);
        assert IsBest(tags, old_);
        var t :| t in tags && GATag(t) == Some(old_);
        assert t in more;
      } else {
        assert tag in more && GATag(tag) == Some(Version(key.0, key.1, best'[key]));
        if key in best {
          assert IsBest(tags, Version(key.0, key.1, best[key]));
        }
      }
    }
  }

  function Improve(best: Best, tag: Option<Version>): Best {
    if tag.None? || (Minor(tag.value) in best && tag.value.patch <= best[Minor(tag.value)]) then best
    else best[Minor(tag.value) := tag.value.patch]
  }

  /** The first loop of `LatestPatchPerMinor`. */
  method BestPatches(tags: seq<string>) returns (best: Best)
    ensures IsBestMap(tags, best)
  {
    best := map[];
    for i := 0 to |tags|
      invariant IsBestMap(tags[..i], best)
    {
      BestStep(tags[..i], tags[i], best);
      assert tags[..i] + [tags[i]] == tags[..i + 1];
      var v := GATag(tags[i]);
      if v.Some? && (Minor(v.value) !in best || v.value.patch > best[Minor(v.value)]) {
        best := best[Minor(v.value) := v.value.patch];
      }
    }
    assert tags[..|tags|] == tags;
  }

  lemma {:induction false} BestMapExists(tags: seq<string>) returns (best: Best)
    ensures IsBestMap(tags, best)
  {
    if tags == [] {
      best := map[];
    } else {
      var n := |tags| - 1;
      var rest := BestMapExists(tags[..n]);
      BestStep(tags[..n], tags[n], rest);
      assert tags[..n] + [tags[n]] == tags;
      best := Improve(rest, GATag(tags[n]));
    }
  }

  /** Every tagged minor has a newest patch. */
  lemma TaggedHasLatest(tags: seq<string>, tag: string) returns (s: string)
    requires tag in tags && GATag(tag).Some?
    ensures IsLatestString(tags, s) && Minor(ParseLoose(s)) == Minor(GATag(tag).value)
  {
    var best := BestMapExists(tags);
    var key := Minor(GATag(tag).value);
    var v := Version(key.0, key.1, best[key]);
    BestIsSupported(tags, v);
    s := Print(v);
    PrintReads(v);
    assert IsLatestOf(tags, s, v);
  }

  ghost predicate PrintedFrom(best: Best, left: set<(int, int)>, s: string, key: (int, int)) {
    && key in best && key !in left
    && var v := Version(key.0, key.1, best[key]);
    && Printable(v) && s == Print(v)
  }

  /** The strings printed so far are those of the minors no longer in `left`. */
  ghost predicate Printed(best: Best, left: set<(int, int)>, out: seq<string>) {
    Distinct(out) && forall s :: s in out <==> exists key :: PrintedFrom(best, left, s, key)
  }

  /** The second loop: a string for each minor, in any order. */
  method PrintAll(best: Best, ghost tags: seq<string>) returns (out: seq<string>)
    requires IsBestMap(tags, best)
    ensures Printed(best, {}, out)
  {
    out := [];
    var left := best.Keys;
    while left != {}
      invariant left <= best.Keys && Printed(best, left, out)
      decreases left
    {
      var key :| key in left;
      var v := Version(key.0, key.1, best[key]);
      BestIsSupported(tags, v);
      PrintOneMore(best, left, key, out);
      out := out + [Print(v)];
      left := left - {key};
    }
  }

  lemma PrintOneMore(best: Best, left: set<(int, int)>, key: (int, int), out: seq<string>)
    requires Printed(best, left, out) && key in best && key in left && Printable(Version(key.0, key.1, best[key]))
    ensures Printed(best, left - {key}, out + [Print(Version(key.0, key.1, best[key]))])
  {
    var s := Print(Version(key.0, key.1, best[key]));
    FreshPrint(best, left, key, out);
    AppendDistinct(out, s);
    forall t
      ensures t in out + [s] <==> exists k :: PrintedFrom(best, left - {key}, t, k)
    {
      PrintOneMoreAt(best, left, key, out, t);
    }
  }

  lemma PrintOneMoreAt(best: Best, left: set<(int, int)>, key: (int, int), out: seq<string>, t: string)
    requires Printed(best, left, out) && key in best && key in left && Printable(Version(key.0, key.1, best[key]))
    ensures t in out || t == Print(Version(key.0, key.1, best[key])) <==>
              exists k :: PrintedFrom(best, left - {key}, t, k)
  {
    var s := Print(Version(key.0, key.1, best[key]));
    if t in out {
      var k :| PrintedFrom(best, left, t, k);
      assert PrintedFrom(best, left - {key}, t, k);
    }
    if t == s {
      assert PrintedFrom(best, left - {key}, t, key);
    }
    if k :| PrintedFrom(best, left - {key}, t, k) {
      assert k != key ==> PrintedFrom(best, left, t, k);
    }
  }

  lemma FreshPrint(best: Best, left: set<(int, int)>, key: (int, int), out: seq<string>)
    requires key in best && key in left && Printable(Version(key.0, key.1, best[key]))
    requires Printed(best, left, out)
    ensures Print(Version(key.0, key.1, best[key])) !in Elements(out)
  {
    var v := Version(key.0, key.1, best[key]);
    forall k | PrintedFrom(best, left, Print(v), k)
      ensures k == key
    {
      PrintInjective(v, Version(k.0, k.1, best[k]));
    }
  }

  /** `LatestPatchPerMinor`. */
  method LatestPatchPerMinor(tags: seq<string>) returns (out: seq<string>)
    ensures IsLatest(tags, out)
  {
    var best := BestPatches(tags);
    var all := PrintAll(best, tags);
    VersionOrder();
    out := Sort(all, VersionLeq);
    MultisetMembers(out, all);
    DistinctMultiset(all);
    DistinctFromMultiset(out, Elements(all));
    forall s
      ensures s in out <==> IsLatestString(tags, s)
    {
      PrintedIsLatest(tags, best, s);
    }
  }

  lemma PrintedIsLatest(tags: seq<string>, best: Best, s: string)
    requires IsBestMap(tags, best)
    ensures (exists key :: PrintedFrom(best, {}, s, key)) <==> IsLatestString(tags, s)
  {
    if key :| PrintedFrom(best, {}, s, key) {
      assert IsLatestOf(tags, s, Version(key.0, key.1, best[key]));
    }
    if v :| IsLatestOf(tags, s, v) {
      var tag :| tag in tags && GATag(tag) == Some(v);
      BestUnique(tags, v, Version(v.major, v.minor, best[Minor(v)]));
      assert PrintedFrom(best, {}, s, Minor(v));
    }
  }

  /** The version a latest string stands for. */
  lemma LatestReads(tags: seq<string>, s: string)
    requires IsLatestString(tags, s)
    ensures IsLatestOf(tags, s, ParseLoose(s)) && Supported(ParseLoose(s)) && !IsSnapshot(s) && s != ""
  {
    var v :| IsLatestOf(tags, s, v);
    PrintReads(v);
    BestIsSupported(tags, v);
  }

  /** No two of the latest strings share a minor. */
  lemma LatestApart(tags: seq<string>, s: string, t: string)
    requires IsLatestString(tags, s) && IsLatestString(tags, t) && Minor(ParseLoose(s)) == Minor(ParseLoose(t))
    ensures s == t
  {
    LatestReads(tags, s);
    LatestReads(tags, t);
    BestUnique(tags, ParseLoose(s), ParseLoose(t));
  }

  /** The result depends on the tags alone, not on how the map was iterated or the sort broke ties. */
  lemma LatestUnique(tags: seq<string>, a: seq<string>, b: seq<string>)
    requires IsLatest(tags, a) && IsLatest(tags, b)
    ensures a == b
  {
    forall x
      ensures x in a <==> x in b
    {
      assert x in a <==> IsLatestString(tags, x);
    }
    forall x, y | x in a && y in a && VersionLeq(x, y) && VersionLeq(y, x)
      ensures x == y
    {
      LatestApart(tags, x, y);
    }
    SortedSetUnique(a, b, VersionLeq);
  }
}
