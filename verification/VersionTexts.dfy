/** Which texts are read as tags, labels and pinned versions. */
module VersionTexts {
  import opened Text
  import opened Versions
  import opened Artifact

  predicate Number(s: string) {
    s != "" && AllDigits(s)
  }

  // ---- Three components ----

  lemma SplitFirst(s: string, sep: char) returns (head: string, tail: string)
    requires |Split(s, sep)| > 1
    ensures s == head + [sep] + tail && Split(s, sep) == [head] + Split(tail, sep)
    decreases |s|
  {
    if s[0] == sep {
      head, tail := "", s[1..];
      assert s == [sep] + s[1..];
    } else {
      assert |Split(s[1..], sep)| > 1;
      head, tail := SplitFirst(s[1..], sep);
      assert s == [s[0]] + s[1..];
      assert s == ([s[0]] + head) + [sep] + tail;
      head := [s[0]] + head;
    }
  }

  lemma {:induction false} SplitOne(s: string, sep: char)
    requires |Split(s, sep)| == 1
    ensures Split(s, sep) == [s]
    decreases |s|
  {
    if s != [] {
      SplitOne(s[1..], sep);
      assert s == [s[0]] + s[1..];
    }
  }

  lemma ThreeParts(s: string)
    requires |Split(s, '.')| == 3
    ensures var p := Split(s, '.'); s == p[0] + "." + p[1] + "." + p[2]
  {
    var a, rest := SplitFirst(s, '.');
    var b, c := SplitFirst(rest, '.');
    SplitOne(c, '.');
    assert Split(s, '.') == [a, b, c];
    assert s == a + "." + (b + "." + c);
  }

  // ---- Release tags ----

  ghost predicate TagOf(tag: string, v: Version, a: string, b: string, c: string) {
    && tag == "v" + (a + "." + b + "." + c) && (a == "8" || a == "9") && Number(b) && Number(c)
    && DigitsValue(a) == v.major && DigitsValue(b) == v.minor && DigitsValue(c) == v.patch
    && v.minor <= MAX_INT && v.patch <= MAX_INT
  }

  lemma NumberReads(s: string)
    requires Number(s)
    ensures ParseInt(s).ok <==> DigitsValue(s) <= MAX_INT
    ensures ParseInt(s).ok ==> ParseInt(s).value == DigitsValue(s)
  {
    assert IsDigit(s[0]);
  }

  lemma TagText(tag: string, a: string, b: string, c: string)
    requires tag == "v" + (a + "." + b + "." + c) && Number(a) && Number(b) && Number(c)
    ensures HasPrefix(tag, "v") && tag[1..] == a + "." + b + "." + c && Split(tag[1..], '.') == [a, b, c]
    ensures Components(tag) == [a, b, c]
  {
    assert tag[1..] == a + "." + b + "." + c;
    PrintSplits(a, b, c);
    assert TrimPrefix(tag, "v") == tag[1..];
  }

  lemma TagReads(tag: string, v: Version, a: string, b: string, c: string)
    requires TagOf(tag, v, a, b, c)
    ensures GATag(tag) == Some(v)
  {
    OneDigit(a);
    assert Number(a) by {
      assert IsDigit(a[0]);
    }
    TagText(tag, a, b, c);
    NumberReads(a);
    NumberReads(b);
    NumberReads(c);
  }

  lemma TagHas(tag: string, v: Version) returns (a: string, b: string, c: string)
    requires GATag(tag) == Some(v)
    ensures TagOf(tag, v, a, b, c)
  {
    var parts := Split(tag[1..], '.');
    a, b, c := parts[0], parts[1], parts[2];
    ThreeParts(tag[1..]);
    assert tag == "v" + tag[1..];
    assert Components(tag) == parts;
    OneDigit(a);
    assert Number(a) by {
      assert IsDigit(a[0]);
    }
    NumberReads(a);
    NumberReads(b);
    NumberReads(c);
  }

  /** A tag is read as a version if and only if it is a `v`, major 8 or 9, and two runs of digits in range. */
  lemma TagIff(tag: string, v: Version)
    ensures GATag(tag) == Some(v) <==> exists a, b, c :: TagOf(tag, v, a, b, c)
  {
    if GATag(tag) == Some(v) {
      var a, b, c := TagHas(tag, v);
    }
    if a, b, c :| TagOf(tag, v, a, b, c) {
      TagReads(tag, v, a, b, c);
    }
  }

  // ---- SNAPSHOT labels ----

  ghost predicate LabelOf(label_: string, a: string, b: string, c: string) {
    Number(a) && Number(b) && Number(c) && label_ == a + "." + b + "." + c + "-SNAPSHOT"
  }

  /** A label is adopted if and only if it is three runs of digits and the suffix. */
  lemma LabelIff(label_: string)
    ensures ParseSnapshotLabel(label_) == Some(label_) <==> exists a, b, c :: LabelOf(label_, a, b, c)
  {
    if ParseSnapshotLabel(label_) == Some(label_) {
      var base := TrimSuffix(label_, SNAPSHOT);
      var parts := Split(base, '.');
      ThreeParts(base);
      assert label_ == base + SNAPSHOT;
      assert LabelOf(label_, parts[0], parts[1], parts[2]);
    }
    if a, b, c :| LabelOf(label_, a, b, c) {
      LabelAccepted(a, b, c);
    }
  }

  // ---- Pinned versions ----

  lemma PlainValid(v: Version)
    requires Printable(v)
    ensures ValidVersion(Print(v)) <==> v.major == 8 || v.major == 9
  {
    PrintReads(v);
    assert TrimSuffix(Print(v), SNAPSHOT) == Print(v);
  }

  /** A printed version is a valid entry, with the suffix and without, if and only if its major is 8 or 9. */
  lemma ValidIff(v: Version)
    requires Printable(v)
    ensures ValidVersion(Print(v)) <==> v.major == 8 || v.major == 9
    ensures ValidVersion(Print(v) + "-SNAPSHOT") <==> v.major == 8 || v.major == 9
  {
    PlainValid(v);
    PrintReads(v);
    SnapshotOf(Print(v));
  }
}
