/** Which components survive the prune, told from the document alone: those that a chain of references leads to,
    from an endpoint or another section, or out of a cycle of components that keep each other. */
module Survivors {
  import opened Collections
  import opened Text
  import opened Sorting
  import opened Document
  import opened References
  import opened Prune

  /** A component the prune may delete. */
  datatype Entry = SchemaEntry(name: string) | ParameterEntry(name: string)

  function SectionOf(doc: Doc, e: Entry): map<string, Json>
    requires HasSections(doc)
  {
    if e.SchemaEntry? then Schemas(doc) else Parameters(doc)
  }

  predicate IsEntry(doc: Doc, e: Entry)
    requires HasSections(doc)
  {
    e.name in SectionOf(doc, e)
  }

  // ---- The references of a document, entry by entry ----

  /** What an entry of a map contributes to the references of the map; one called `$ref` may be a reference. */
  ghost function RefsAt(m: map<string, Json>, x: string): set<string>
    requires x in m
  {
    RefsIn(m[x]) + if x == "$ref" && m[x].Str? then {m[x].text} else {}
  }

  ghost function EntryRefs(doc: Doc, e: Entry): set<string>
    requires HasSections(doc) && IsEntry(doc, e)
  {
    RefsAt(SectionOf(doc, e), e.name)
  }

  /** The references of the endpoints and of the other component sections. */
  ghost function RootRefs(doc: Doc): set<string> {
    EndpointRefs(doc.paths) +
    (set k, r | k in doc.components && k != "schemas" && k != "parameters" && r in RefsAt(doc.components, k) :: r)
  }

  lemma MapRefs(m: map<string, Json>, r: string)
    ensures r in RefsIn(Object(m)) <==> exists x :: x in m && r in RefsAt(m, x)
  {
    if r in RefsIn(Object(m)) && OwnRef(m) != Some(r) {
      var x :| x in m && r in RefsIn(m[x]);
      assert r in RefsAt(m, x);
    }
    if OwnRef(m) == Some(r) {
      assert r in RefsAt(m, "$ref");
    }
    if x :| x in m && r in RefsAt(m, x) {
      if r !in RefsIn(m[x]) {
        assert OwnRef(m) == Some(r);
      }
    }
  }

  ghost predicate KeptRef(doc: Doc, s: set<string>, p: set<string>, r: string)
    requires HasSections(doc)
  {
    exists e :: Kept(s, p, e) && IsEntry(doc, e) && r in EntryRefs(doc, e)
  }

  predicate Kept(s: set<string>, p: set<string>, e: Entry) {
    if e.SchemaEntry? then e.name in s else e.name in p
  }

  lemma KeepMapRefs(m: map<string, Json>, names: set<string>, r: string)
    ensures r in RefsIn(Object(Keep(m, names))) <==> exists x :: x in m && x in names && r in RefsAt(m, x)
  {
    var k := Keep(m, names);
    MapRefs(k, r);
    assert forall x :: x in k ==> RefsAt(k, x) == RefsAt(m, x);
    if x :| x in m && x in names && r in RefsAt(m, x) {
      assert x in k;
    }
  }

  lemma SectionRefs(doc: Doc, s: set<string>, p: set<string>, r: string)
    requires HasSections(doc)
    ensures r in RefsIn(Object(Keep(Schemas(doc), s))) + RefsIn(Object(Keep(Parameters(doc), p))) <==>
              KeptRef(doc, s, p, r)
  {
    KeepMapRefs(Schemas(doc), s, r);
    KeepMapRefs(Parameters(doc), p, r);
    if x :| x in Schemas(doc) && x in s && r in RefsAt(Schemas(doc), x) {
      assert Kept(s, p, SchemaEntry(x)) && r in EntryRefs(doc, SchemaEntry(x));
    }
    if x :| x in Parameters(doc) && x in p && r in RefsAt(Parameters(doc), x) {
      assert Kept(s, p, ParameterEntry(x)) && r in EntryRefs(doc, ParameterEntry(x));
    }
    if e :| Kept(s, p, e) && IsEntry(doc, e) && r in EntryRefs(doc, e) {
      assert e.name in SectionOf(doc, e) && r in RefsAt(SectionOf(doc, e), e.name);
    }
  }

  lemma OtherSections(doc: Doc, s: set<string>, p: set<string>, k: string)
    requires HasSections(doc) && k != "schemas" && k != "parameters"
    ensures var c := Restrict(doc, s, p).components;
            (k in c <==> k in doc.components) && (k in c ==> RefsAt(c, k) == RefsAt(doc.components, k))
  {
  }

  lemma KeptSections(doc: Doc, s: set<string>, p: set<string>)
    requires HasSections(doc)
    ensures var c := Restrict(doc, s, p).components;
            && "schemas" in c && RefsAt(c, "schemas") == RefsIn(Object(Keep(Schemas(doc), s)))
            && "parameters" in c && RefsAt(c, "parameters") == RefsIn(Object(Keep(Parameters(doc), p)))
  {
  }

  /** What is scanned in a restricted document: the roots, and the entries that are kept. */
  lemma RestrictedRefs(doc: Doc, s: set<string>, p: set<string>, r: string)
    requires HasSections(doc)
    ensures r in ScannedRefs(Restrict(doc, s, p)) <==> r in RootRefs(doc) || KeptRef(doc, s, p, r)
  {
    var c := Restrict(doc, s, p).components;
    MapRefs(c, r);
    SectionRefs(doc, s, p, r);
    KeptSections(doc, s, p);
    if x :| x in c && r in RefsAt(c, x) {
      if x != "schemas" && x != "parameters" {
        OtherSections(doc, s, p, x);
      }
    }
    if k :| k in doc.components && k != "schemas" && k != "parameters" && r in RefsAt(doc.components, k) {
      OtherSections(doc, s, p, k);
      assert r in RefsAt(c, k);
    }
  }

  // ---- Support, entry by entry ----

  /** `e` is named by a reference of `from`. */
  ghost predicate Names(doc: Doc, from: Entry, e: Entry)
    requires HasSections(doc)
  {
    IsEntry(doc, from) && exists r :: r in EntryRefs(doc, from) && LastSegment(r) == e.name
  }

  ghost predicate RootNames(doc: Doc, e: Entry) {
    exists r :: r in RootRefs(doc) && LastSegment(r) == e.name
  }

  ghost predicate NamedWithin(doc: Doc, k: set<Entry>, e: Entry)
    requires HasSections(doc)
  {
    RootNames(doc, e) || exists f :: f in k && Names(doc, f, e)
  }

  /** Every entry of the set is named from a root or from the set. */
  ghost predicate SupportedSet(doc: Doc, k: set<Entry>)
    requires HasSections(doc)
  {
    forall e :: e in k ==> IsEntry(doc, e) && NamedWithin(doc, k, e)
  }

  ghost function EntriesOf(s: set<string>, p: set<string>): set<Entry> {
    (set n | n in s :: SchemaEntry(n)) + (set n | n in p :: ParameterEntry(n))
  }

  lemma AliveIff(doc: Doc, s: set<string>, p: set<string>, e: Entry)
    requires HasSections(doc)
    ensures e.name in Alive(Restrict(doc, s, p)) <==> NamedWithin(doc, EntriesOf(s, p), e)
  {
    if e.name in Alive(Restrict(doc, s, p)) {
      var r :| r in ScannedRefs(Restrict(doc, s, p)) && LastSegment(r) == e.name;
      RestrictedRefs(doc, s, p, r);
      if r !in RootRefs(doc) {
        var f :| Kept(s, p, f) && IsEntry(doc, f) && r in EntryRefs(doc, f);
        assert f in EntriesOf(s, p) && Names(doc, f, e);
      }
    }
    if RootNames(doc, e) {
      var r :| r in RootRefs(doc) && LastSegment(r) == e.name;
      RestrictedRefs(doc, s, p, r);
    }
    if f :| f in EntriesOf(s, p) && Names(doc, f, e) {
      var r :| r in EntryRefs(doc, f) && LastSegment(r) == e.name;
      assert Kept(s, p, f);
      RestrictedRefs(doc, s, p, r);
    }
  }

  lemma SupportedIff(doc: Doc, s: set<string>, p: set<string>)
    requires HasSections(doc)
    ensures Supported(doc, s, p) <==> SupportedSet(doc, EntriesOf(s, p))
  {
    var k := EntriesOf(s, p);
    forall e | e in k
      ensures e.name in Alive(Restrict(doc, s, p)) <==> NamedWithin(doc, k, e)
    {
      AliveIff(doc, s, p, e);
    }
    assert forall n :: n in s ==> SchemaEntry(n) in k;
    assert forall n :: n in p ==> ParameterEntry(n) in k;
    if SupportedSet(doc, k) {
      forall n | n in s
        ensures n in Schemas(doc) && n in Alive(Restrict(doc, s, p))
      {
        assert IsEntry(doc, SchemaEntry(n));
      }
      forall n | n in p
        ensures n in Parameters(doc) && n in Alive(Restrict(doc, s, p))
      {
        assert IsEntry(doc, ParameterEntry(n));
      }
    }
  }

  // ---- Chains ----

  /** Each entry names the next. */
  ghost predicate Linked(doc: Doc, c: seq<Entry>)
    requires HasSections(doc)
  {
    && c != [] && (forall i :: 0 <= i < |c| ==> IsEntry(doc, c[i]))
    && (forall i :: 0 <= i < |c| - 1 ==> Names(doc, c[i], c[i + 1]))
  }

  /** Its first entry is named from a root, or from the chain itself, which then runs out of a cycle. */
  ghost predicate Anchored(doc: Doc, c: seq<Entry>)
    requires HasSections(doc) && c != []
  {
    RootNames(doc, c[0]) || exists j :: 0 <= j < |c| && Names(doc, c[j], c[0])
  }

  ghost predicate LeadsTo(doc: Doc, c: seq<Entry>, e: Entry)
    requires HasSections(doc)
  {
    Linked(doc, c) && Anchored(doc, c) && c[|c| - 1] == e
  }

  /** An anchored chain of references leads to the entry. */
  ghost predicate Survives(doc: Doc, e: Entry)
    requires HasSections(doc)
  {
    exists c :: LeadsTo(doc, c, e)
  }

  lemma ChainSupported(doc: Doc, c: seq<Entry>)
    requires HasSections(doc) && Linked(doc, c) && Anchored(doc, c)
    ensures SupportedSet(doc, Elements(c))
  {
    forall e | e in Elements(c)
      ensures IsEntry(doc, e) && NamedWithin(doc, Elements(c), e)
    {
      var i :| 0 <= i < |c| && c[i] == e;
      if i > 0 {
        assert Names(doc, c[i - 1], c[i - 1 + 1]);
        assert c[i - 1] in Elements(c);
      } else if !RootNames(doc, e) {
        var j :| 0 <= j < |c| && Names(doc, c[j], c[0]);
        assert c[j] in Elements(c);
      }
    }
  }

  /** Following support backwards ends at a root or closes a cycle. */
  lemma {:induction false} ChainExists(doc: Doc, k: set<Entry>, c: seq<Entry>) returns (c': seq<Entry>)
    requires HasSections(doc) && SupportedSet(doc, k) && Linked(doc, c) && Distinct(c) && Elements(c) <= k
    ensures LeadsTo(doc, c', c[|c| - 1])
    decreases |k| - |c|
  {
    c' := c;
    if !Anchored(doc, c) {
      var f := NextLink(doc, k, c);
      ConsLinked(doc, f, c);
      Room(k, [f] + c);
      c' := ChainExists(doc, k, [f] + c);
    }
  }

  lemma NextLink(doc: Doc, k: set<Entry>, c: seq<Entry>) returns (f: Entry)
    requires HasSections(doc) && SupportedSet(doc, k) && c != [] && Elements(c) <= k && !Anchored(doc, c)
    ensures f in k && Names(doc, f, c[0]) && f !in Elements(c)
  {
    assert c[0] in Elements(c);
    assert NamedWithin(doc, k, c[0]);
    f :| f in k && Names(doc, f, c[0]);
    assert forall j :: 0 <= j < |c| ==> !Names(doc, c[j], c[0]);
  }

  lemma ConsLinked(doc: Doc, f: Entry, c: seq<Entry>)
    requires HasSections(doc) && Linked(doc, c) && Distinct(c) && Names(doc, f, c[0]) && f !in Elements(c)
    ensures Linked(doc, [f] + c) && Distinct([f] + c) && Elements([f] + c) == Elements(c) + {f}
  {
    var longer := [f] + c;
    forall i | 0 <= i < |longer| - 1
      ensures Names(doc, longer[i], longer[i + 1])
    {
      if i > 0 {
        assert Names(doc, c[i - 1], c[i - 1 + 1]);
      }
    }
  }

  lemma Room(k: set<Entry>, c: seq<Entry>)
    requires Distinct(c) && Elements(c) <= k
    ensures |c| <= |k|
  {
    DistinctMultiset(c);
    SubsetSize(Elements(c), k);
  }

  lemma OneLinked(doc: Doc, e: Entry) returns (c: seq<Entry>)
    requires HasSections(doc) && IsEntry(doc, e)
    ensures c == [e] && Linked(doc, c) && Distinct(c) && Elements(c) == {e}
  {
    c := [e];
  }

  ghost function SchemaNames(k: set<Entry>): set<string> {
    set e | e in k && e.SchemaEntry? :: e.name
  }

  ghost function ParameterNames(k: set<Entry>): set<string> {
    set e | e in k && e.ParameterEntry? :: e.name
  }

  lemma EntriesBack(k: set<Entry>)
    ensures EntriesOf(SchemaNames(k), ParameterNames(k)) == k
  {
    forall e
      ensures e in EntriesOf(SchemaNames(k), ParameterNames(k)) <==> e in k
    {
      assert e.name in SchemaNames(k) <==> SchemaEntry(e.name) in k;
      assert e.name in ParameterNames(k) <==> ParameterEntry(e.name) in k;
    }
  }

  /** What is left by the prune, the largest supported part, is exactly what anchored chains lead to. */
  lemma SurvivorsAre(doc: Doc, s: set<string>, p: set<string>, e: Entry)
    requires HasSections(doc) && LargestSupported(doc, s, p)
    ensures Kept(s, p, e) <==> Survives(doc, e)
  {
    if Kept(s, p, e) {
      SupportedIff(doc, s, p);
      assert e in EntriesOf(s, p);
      var one := OneLinked(doc, e);
      var c := ChainExists(doc, EntriesOf(s, p), one);
      assert LeadsTo(doc, c, e);
    }
    if c :| LeadsTo(doc, c, e) {
      var k := Elements(c);
      ChainSupported(doc, c);
      EntriesBack(k);
      SupportedIff(doc, SchemaNames(k), ParameterNames(k));
      assert c[|c| - 1] in k;
    }
  }
}
