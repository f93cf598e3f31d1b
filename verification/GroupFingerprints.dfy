/** What the fingerprint of a group depends on: the place, structure and required flag of every constituent, and nothing
    else.  So a change of any of them, or a new one, expires a verdict. */
module GroupFingerprints {
  import opened Collections
  import opened Text
  import opened Sorting
  import opened Gaps
  import opened Discover
  import Triage

  // ---- Texts that can be read back ----

  /** What is hashed for a group of one key. */
  function StageText(structure: string, required: bool): string {
    structure + "|" + if required then "true" else "false"
  }

  lemma StageTextInjective(a: string, ra: bool, b: string, rb: bool)
    requires StageText(a, ra) == StageText(b, rb)
    ensures a == b && ra == rb
  {
    var x, y := StageText(a, ra), StageText(b, rb);
    assert x[|x| - 4] == if ra then 't' else 'a';
    assert y[|y| - 4] == if rb then 't' else 'a';
    assert x[..|a|] == a && y[..|b|] == b;
  }

  /** Lines one after the other, each ended. */
  function Lines(lines: seq<string>): string {
    if lines == [] then "" else Lines(lines[..|lines| - 1]) + lines[|lines| - 1] + "\n"
  }

  lemma LinesEnd(lines: seq<string>)
    requires lines != []
    ensures Lines(lines) != "" && Lines(lines)[|Lines(lines)| - 1] == '\n'
  {
  }

  lemma NotLonger(a: string, x: string, b: string, y: string, sep: char)
    requires a + x == b + y && sep !in x && (b == "" || b[|b| - 1] == sep)
    ensures |b| <= |a|
  {
    assert forall i :: |a| <= i < |a + x| ==> (a + x)[i] in x;
    assert b != "" ==> (b + y)[|b| - 1] == sep;
  }

  /** The same text before a last piece without the separator has only one reading. */
  lemma LastPiece(a: string, x: string, b: string, y: string, sep: char)
    requires a + x == b + y && sep !in x && sep !in y
    requires (a == "" || a[|a| - 1] == sep) && (b == "" || b[|b| - 1] == sep)
    ensures a == b && x == y
  {
    NotLonger(a, x, b, y, sep);
    NotLonger(b, y, a, x, sep);
    assert (a + x)[..|a|] == a && (b + y)[..|b|] == b;
    assert (a + x)[|a|..] == x && (b + y)[|b|..] == y;
  }

  lemma {:induction false} LinesInjective(a: seq<string>, b: seq<string>)
    requires Lines(a) == Lines(b)
    requires (forall l :: l in a ==> '\n' !in l) && (forall l :: l in b ==> '\n' !in l)
    ensures a == b
  {
    if a == [] || b == [] {
      if a != [] {
        LinesEnd(a);
      }
      if b != [] {
        LinesEnd(b);
      }
    } else {
      var n, k := |a| - 1, |b| - 1;
      if n > 0 {
        LinesEnd(a[..n]);
      }
      if k > 0 {
        LinesEnd(b[..k]);
      }
      DropEnd(Lines(a[..n]) + a[n], Lines(b[..k]) + b[k]);
      LastPiece(Lines(a[..n]), a[n], Lines(b[..k]), b[k], '\n');
      LinesInjective(a[..n], b[..k]);
      assert a == a[..n] + [a[n]] && b == b[..k] + [b[k]];
    }
  }

  lemma DropEnd(x: string, y: string)
    requires x + "\n" == y + "\n"
    ensures x == y
  {
    assert (x + "\n")[..|x|] == x && (y + "\n")[..|y|] == y;
  }

  lemma PairInjective(p: string, f: string, q: string, g: string)
    requires p + "=" + f == q + "=" + g && '=' !in f && '=' !in g
    ensures p == q && f == g
  {
    assert (p + "=") + f == (q + "=") + g;
    LastPiece(p + "=", f, q + "=", g, '=');
    assert (p + "=")[..|p|] == p && (q + "=")[..|q|] == q;
  }

  // ---- Siblings ----

  /** The places and fingerprints of the siblings. */
  ghost function Pairs(gs: set<Group>): set<(string, string)> {
    set g | g in gs :: (g.pointer, g.fingerprint)
  }

  /** Pointers without newlines, and fingerprints as a hexadecimal digest writes them. */
  ghost predicate Clean(gs: set<Group>) {
    forall g :: g in gs ==> '\n' !in g.pointer && '\n' !in g.fingerprint && '=' !in g.fingerprint
  }

  ghost function LineList(gs: set<Group>, pointers: seq<string>): (lines: seq<string>)
    requires forall p :: p in pointers ==> p in Pointers(gs)
    ensures |lines| == |pointers|
    ensures forall i :: 0 <= i < |lines| ==> lines[i] == pointers[i] + "=" + At(gs, pointers[i]).fingerprint
  {
    seq(|pointers|, i requires 0 <= i < |pointers| => pointers[i] + "=" + At(gs, pointers[i]).fingerprint)
  }

  lemma {:induction false} TextIsLines(gs: set<Group>, pointers: seq<string>)
    requires forall p :: p in pointers ==> p in Pointers(gs)
    ensures StructureText(gs, pointers) == Lines(LineList(gs, pointers))
  {
    if pointers != [] {
      var n := |pointers| - 1;
      var g := At(gs, pointers[n]);
      TextIsLines(gs, pointers[..n]);
      assert LineList(gs, pointers)[..n] == LineList(gs, pointers[..n]);
      assert Line(g) == g.pointer + "=" + g.fingerprint + "\n";
      assert StructureText(gs, pointers[..n]) + Line(g) ==
             StructureText(gs, pointers[..n]) + (g.pointer + "=" + g.fingerprint) + "\n";
    }
  }

  lemma CleanLines(gs: set<Group>, pointers: seq<string>)
    requires Clean(gs) && forall p :: p in pointers ==> p in Pointers(gs)
    ensures forall l :: l in LineList(gs, pointers) ==> '\n' !in l
  {
  }

  /** The i-th sibling by pointer has this place and fingerprint. */
  ghost predicate PairAt(gs: set<Group>, pair: (string, string), i: nat) {
    && i < |SortedPointers(gs)| && SortedPointers(gs)[i] == pair.0
    && pair.0 in Pointers(gs) && At(gs, pair.0).fingerprint == pair.1
  }

  lemma PairsBySorted(gs: set<Group>, pair: (string, string))
    requires DistinctPointers(gs)
    ensures pair in Pairs(gs) <==> exists i :: PairAt(gs, pair, i)
  {
    var ps := SortedPointers(gs);
    if pair in Pairs(gs) {
      var g :| g in gs && (g.pointer, g.fingerprint) == pair;
      assert g.pointer in Pointers(gs) && Elements(ps) == Pointers(gs);
      assert g.pointer in Elements(ps);
      var i :| 0 <= i < |ps| && ps[i] == g.pointer;
      assert At(gs, ps[i]) == g;
      assert PairAt(gs, pair, i);
    }
    if i: nat :| PairAt(gs, pair, i) {
      var g := At(gs, ps[i]);
      assert g in gs && (g.pointer, g.fingerprint) == pair;
    }
  }

  ghost predicate InPointers(gs: set<Group>) {
    forall p :: p in SortedPointers(gs) ==> p in Pointers(gs)
  }

  lemma SamePairAt(a: set<Group>, b: set<Group>, pair: (string, string), i: nat)
    requires Clean(a) && Clean(b) && InPointers(a) && InPointers(b)
    requires LineList(a, SortedPointers(a)) == LineList(b, SortedPointers(b)) && PairAt(a, pair, i)
    ensures PairAt(b, pair, i)
  {
    var pa, pb := SortedPointers(a), SortedPointers(b);
    assert LineList(a, pa)[i] == LineList(b, pb)[i];
    PairInjective(pa[i], At(a, pa[i]).fingerprint, pb[i], At(b, pb[i]).fingerprint);
  }

  lemma PairWithin(a: set<Group>, b: set<Group>, pair: (string, string))
    requires DistinctPointers(a) && DistinctPointers(b) && Clean(a) && Clean(b) && InPointers(a) && InPointers(b)
    requires LineList(a, SortedPointers(a)) == LineList(b, SortedPointers(b)) && pair in Pairs(a)
    ensures pair in Pairs(b)
  {
    PairsBySorted(a, pair);
    PairsBySorted(b, pair);
    var i: nat :| PairAt(a, pair, i);
    SamePairAt(a, b, pair, i);
  }

  lemma SameTextSamePairs(a: set<Group>, b: set<Group>)
    requires DistinctPointers(a) && DistinctPointers(b) && Clean(a) && Clean(b) && InPointers(a) && InPointers(b)
    requires StructureText(a, SortedPointers(a)) == StructureText(b, SortedPointers(b))
    ensures Pairs(a) == Pairs(b)
  {
    TextIsLines(a, SortedPointers(a));
    TextIsLines(b, SortedPointers(b));
    CleanLines(a, SortedPointers(a));
    CleanLines(b, SortedPointers(b));
    LinesInjective(LineList(a, SortedPointers(a)), LineList(b, SortedPointers(b)));
    forall pair: (string, string) | pair in Pairs(a)
      ensures pair in Pairs(b)
    {
      PairWithin(a, b, pair);
    }
    forall pair: (string, string) | pair in Pairs(b)
      ensures pair in Pairs(a)
    {
      PairWithin(b, a, pair);
    }
  }

  lemma SamePairsAt(a: set<Group>, b: set<Group>, p: string)
    requires DistinctPointers(b) && Pairs(a) == Pairs(b) && p in Pointers(a)
    ensures p in Pointers(b) && At(a, p).fingerprint == At(b, p).fingerprint
  {
    var g := At(a, p);
    assert (g.pointer, g.fingerprint) in Pairs(b);
    var x :| x in b && (x.pointer, x.fingerprint) == (g.pointer, g.fingerprint);
    assert x.pointer in Pointers(b);
    assert At(b, p) == x;
  }

  lemma {:induction false} SamePairsSameText(a: set<Group>, b: set<Group>, pointers: seq<string>)
    requires DistinctPointers(b) && Pairs(a) == Pairs(b)
    requires forall p :: p in pointers ==> p in Pointers(a) && p in Pointers(b)
    ensures StructureText(a, pointers) == StructureText(b, pointers)
  {
    if pointers != [] {
      var n := |pointers| - 1;
      SamePairsSameText(a, b, pointers[..n]);
      SamePairsAt(a, b, pointers[n]);
    }
  }

  lemma SamePairsSamePointers(a: set<Group>, b: set<Group>)
    requires Pairs(a) == Pairs(b)
    ensures Pointers(a) == Pointers(b) && SortedPointers(a) == SortedPointers(b)
  {
    PointersWithin(a, b);
    PointersWithin(b, a);
  }

  lemma PointersWithin(a: set<Group>, b: set<Group>)
    requires Pairs(a) <= Pairs(b)
    ensures Pointers(a) <= Pointers(b)
  {
    forall p | p in Pointers(a)
      ensures p in Pointers(b)
    {
      var g :| g in a && g.pointer == p;
      assert (g.pointer, g.fingerprint) in Pairs(b);
    }
  }

  /** The texts of two sets of siblings are equal if and only if they hold the same places with the same
      fingerprints. */
  lemma TextIff(a: set<Group>, b: set<Group>)
    requires a != {} && b != {} && DistinctPointers(a) && DistinctPointers(b) && Clean(a) && Clean(b)
    ensures InPointers(a) && InPointers(b)
    ensures StructureText(a, SortedPointers(a)) == StructureText(b, SortedPointers(b)) <==> Pairs(a) == Pairs(b)
  {
    FirstPointer(a);
    FirstPointer(b);
    if Pairs(a) == Pairs(b) {
      SamePairsSamePointers(a, b);
      SamePairsSameText(a, b, SortedPointers(a));
    } else if StructureText(a, SortedPointers(a)) == StructureText(b, SortedPointers(b)) {
      SameTextSamePairs(a, b);
    }
  }

  /** The digest tells these texts apart. */
  ghost predicate TellsApart(digest: string -> string, texts: set<string>) {
    forall x, y :: x in texts && y in texts && digest(x) == digest(y) ==> x == y
  }

  // ---- Groups of one key ----

  /** The group of a key has the identity, place and members of its folds, and hashes their structure and whether one of
      them is required. */
  lemma FinishedIs(fs: set<Fold>, key: string, h: Hashes, f: Fold)
    requires Hashable(fs, h) && Coherent(fs) && f in fs && KeyOf(f) == key
    ensures key in KeysOf(fs)
    ensures var g := Finished(fs, key, h);
            && g.key == f.resource + "#" + f.gap.ref.pointer && g.resource == f.resource && g.field == f.gap.name
            && g.pointer == f.gap.ref.pointer && g.query == f.gap.query
            && g.fingerprint == h.digest(StageText(h.structure(f.gap.ref).value, SomeRequired(fs, key)))
            && forall m :: m in g.members <==> exists x :: x in fs && KeyOf(x) == key && m in x.gap.members
  {
    assert KeyOf(Representative(fs, key)) == KeyOf(f);
    var g := Finished(fs, key, h);
    forall m
      ensures m in g.members <==> exists x :: x in fs && KeyOf(x) == key && m in x.gap.members
    {
      SortedMembersHold(MembersAt(fs, key), m);
    }
  }

  /** The members are required in one of the folds of the key. */
  ghost predicate SomeRequired(fs: set<Fold>, key: string) {
    exists f :: f in fs && KeyOf(f) == key && f.gap.required
  }

  /** Two runs give the group of a key the same fingerprint if and only if its structure has the same hash in both and
      it is required in both or in neither. */
  lemma KeyFingerprintIff(fsA: set<Fold>, hA: Hashes, a: Fold, fsB: set<Fold>, hB: Hashes, b: Fold, key: string)
    requires Hashable(fsA, hA) && Coherent(fsA) && a in fsA && KeyOf(a) == key
    requires Hashable(fsB, hB) && Coherent(fsB) && b in fsB && KeyOf(b) == key
    requires hA.digest == hB.digest
    requires TellsApart(hA.digest, {StageText(hA.structure(a.gap.ref).value, SomeRequired(fsA, key)),
                                    StageText(hB.structure(b.gap.ref).value, SomeRequired(fsB, key))})
    ensures key in KeysOf(fsA) && key in KeysOf(fsB)
    ensures Finished(fsA, key, hA).fingerprint == Finished(fsB, key, hB).fingerprint <==>
            hA.structure(a.gap.ref).value == hB.structure(b.gap.ref).value &&
            (SomeRequired(fsA, key) <==> SomeRequired(fsB, key))
  {
    FinishedIs(fsA, key, hA, a);
    FinishedIs(fsB, key, hB, b);
    var x := StageText(hA.structure(a.gap.ref).value, SomeRequired(fsA, key));
    var y := StageText(hB.structure(b.gap.ref).value, SomeRequired(fsB, key));
    if x == y {
      StageTextInjective(hA.structure(a.gap.ref).value, SomeRequired(fsA, key), hB.structure(b.gap.ref).value,
          SomeRequired(fsB, key));
    }
  }

  // ---- Merged groups ----

  /** Two sets of siblings give the merged group the same fingerprint if and only if they hold the same places with the
      same fingerprints. */
  lemma MergedFingerprintIff(a: set<Group>, hA: Hashes, b: set<Group>, hB: Hashes)
    requires |a| > 1 && |b| > 1 && DistinctPointers(a) && DistinctPointers(b) && Clean(a) && Clean(b)
    requires hA.digest == hB.digest && InPointers(a) && InPointers(b)
    requires TellsApart(hA.digest, {StructureText(a, SortedPointers(a)), StructureText(b, SortedPointers(b))})
    ensures MergedOf(a, hA).fingerprint == MergedOf(b, hB).fingerprint <==> Pairs(a) == Pairs(b)
  {
    TextIff(a, b);
  }

  /** A merged group is keyed by the least of its places. */
  lemma MergedKey(gs: set<Group>, h: Hashes)
    requires gs != {}
    ensures exists g :: g in gs && MergedOf(gs, h).key == g.key && MergedOf(gs, h).pointer == g.pointer &&
                        forall x :: x in gs ==> StringLeq(g.pointer, x.pointer)
  {
    FirstPointer(gs);
    var ps := SortedPointers(gs);
    var g := At(gs, ps[0]);
    StringOrder();
    forall x | x in gs
      ensures StringLeq(g.pointer, x.pointer)
    {
      assert x.pointer in Pointers(gs) && Elements(ps) == Pointers(gs);
      assert x.pointer in Elements(ps);
      var i :| 0 <= i < |ps| && ps[i] == x.pointer;
      LeqTotal(ps[0], ps[0]);
    }
  }

  // ---- Whole runs ----

  /** One schema of a resource's field: its place, the hash of its structure, and whether it is required. */
  datatype Constituent = Constituent(pointer: string, structure: string, required: bool)

  function FoldId(f: Fold): Id {
    Id(f.resource, f.gap.name, f.gap.query)
  }

  ghost function ConstituentOf(fs: set<Fold>, h: Hashes, f: Fold): Constituent
    requires h.structure(f.gap.ref).Ok?
  {
    Constituent(f.gap.ref.pointer, h.structure(f.gap.ref).value, SomeRequired(fs, KeyOf(f)))
  }

  /** All constituents of a field in a run. */
  ghost function Shape(fs: set<Fold>, h: Hashes, id: Id): set<Constituent>
    requires Hashable(fs, h)
  {
    set f | f in fs && FoldId(f) == id :: ConstituentOf(fs, h, f)
  }

  ghost function PairOf(h: Hashes, c: Constituent): (string, string) {
    (c.pointer, h.digest(StageText(c.structure, c.required)))
  }

  /** The group of a fold in the finished groups. */
  lemma GroupOf(fs: set<Fold>, h: Hashes, f: Fold) returns (g: Group)
    requires Hashable(fs, h) && Coherent(fs) && f in fs
    ensures g in Siblings(FinishedGroups(fs, h), FoldId(f)) && FoldId(f) in Ids(FinishedGroups(fs, h))
    ensures (g.pointer, g.fingerprint) == PairOf(h, ConstituentOf(fs, h, f))
    ensures g.key == f.resource + "#" + f.gap.ref.pointer
  {
    FinishedIs(fs, KeyOf(f), h, f);
    g := Finished(fs, KeyOf(f), h);
    assert g in FinishedGroups(fs, h) && IdOf(g) == FoldId(f);
  }

  /** The fold of a finished group. */
  lemma FoldOf(fs: set<Fold>, h: Hashes, id: Id, g: Group) returns (f: Fold)
    requires Hashable(fs, h) && Coherent(fs) && g in Siblings(FinishedGroups(fs, h), id)
    ensures f in fs && FoldId(f) == id && (g.pointer, g.fingerprint) == PairOf(h, ConstituentOf(fs, h, f))
    ensures g.key == id.resource + "#" + g.pointer
  {
    var key :| key in KeysOf(fs) && g == Finished(fs, key, h);
    f := Representative(fs, key);
    FinishedIs(fs, key, h, f);
  }

  lemma PairsOfShape(fs: set<Fold>, h: Hashes, id: Id, pair: (string, string))
    requires Hashable(fs, h) && Coherent(fs)
    ensures pair in Pairs(Siblings(FinishedGroups(fs, h), id)) <==>
            exists c :: c in Shape(fs, h, id) && pair == PairOf(h, c)
  {
    var sib := Siblings(FinishedGroups(fs, h), id);
    if pair in Pairs(sib) {
      var g :| g in sib && pair == (g.pointer, g.fingerprint);
      var f := FoldOf(fs, h, id, g);
      assert ConstituentOf(fs, h, f) in Shape(fs, h, id);
    }
    if c :| c in Shape(fs, h, id) && pair == PairOf(h, c) {
      var f :| f in fs && FoldId(f) == id && c == ConstituentOf(fs, h, f);
      var g := GroupOf(fs, h, f);
    }
  }

  /** The field has a gap in the run, and its places are written without newlines. */
  ghost predicate HasField(fs: set<Fold>, h: Hashes, id: Id) {
    && Hashable(fs, h) && Coherent(fs) && (exists f :: f in fs && FoldId(f) == id)
    && forall f :: f in fs && FoldId(f) == id ==> '\n' !in f.gap.ref.pointer
  }

  /** A digest is written in hexadecimal digits. */
  ghost predicate Hexadecimal(digest: string -> string) {
    forall x :: '\n' !in digest(x) && '=' !in digest(x)
  }

  ghost function SiblingText(gs: set<Group>): string
    requires gs != {}
  {
    FirstPointer(gs);
    StructureText(gs, SortedPointers(gs))
  }

  /** What is hashed for a field: a text for each constituent, and one for all of them. */
  ghost function TextsFor(fs: set<Fold>, h: Hashes, id: Id): set<string>
    requires HasField(fs, h, id)
  {
    SiblingsExist(fs, h, id);
    (set c | c in Shape(fs, h, id) :: StageText(c.structure, c.required)) +
    {SiblingText(Siblings(FinishedGroups(fs, h), id))}
  }

  lemma SiblingsExist(fs: set<Fold>, h: Hashes, id: Id)
    requires HasField(fs, h, id)
    ensures id in Ids(FinishedGroups(fs, h)) && Siblings(FinishedGroups(fs, h), id) != {}
    ensures DistinctPointers(Siblings(FinishedGroups(fs, h), id))
  {
    var f :| f in fs && FoldId(f) == id;
    var g := GroupOf(fs, h, f);
    FinishedOnePerKey(fs, h);
    SiblingsHaveDistinctPointers(FinishedGroups(fs, h), id);
  }

  lemma SiblingsClean(fs: set<Fold>, h: Hashes, id: Id)
    requires HasField(fs, h, id) && Hexadecimal(h.digest)
    ensures Clean(Siblings(FinishedGroups(fs, h), id))
  {
    forall g | g in Siblings(FinishedGroups(fs, h), id)
      ensures '\n' !in g.pointer && '\n' !in g.fingerprint && '=' !in g.fingerprint
    {
      var f := FoldOf(fs, h, id, g);
    }
  }

  lemma SameConstituent(digest: string -> string, texts: set<string>, c: Constituent, d: Constituent)
    requires TellsApart(digest, texts) && c.pointer == d.pointer
    requires StageText(c.structure, c.required) in texts && StageText(d.structure, d.required) in texts
    requires digest(StageText(c.structure, c.required)) == digest(StageText(d.structure, d.required))
    ensures c == d
  {
    StageTextInjective(c.structure, c.required, d.structure, d.required);
  }

  lemma ConstituentText(fs: set<Fold>, h: Hashes, id: Id, c: Constituent)
    requires HasField(fs, h, id) && c in Shape(fs, h, id)
    ensures StageText(c.structure, c.required) in TextsFor(fs, h, id)
  {
  }

  /** Equal pairs come from equal constituents. */
  lemma ConstituentWithin(fsA: set<Fold>, hA: Hashes, fsB: set<Fold>, hB: Hashes, id: Id, texts: set<string>,
      c: Constituent)
    requires HasField(fsA, hA, id) && HasField(fsB, hB, id) && hA.digest == hB.digest
    requires TellsApart(hA.digest, texts) && TextsFor(fsA, hA, id) <= texts && TextsFor(fsB, hB, id) <= texts
    requires Pairs(Siblings(FinishedGroups(fsA, hA), id)) <= Pairs(Siblings(FinishedGroups(fsB, hB), id))
    requires c in Shape(fsA, hA, id)
    ensures c in Shape(fsB, hB, id)
  {
    PairsOfShape(fsA, hA, id, PairOf(hA, c));
    PairsOfShape(fsB, hB, id, PairOf(hA, c));
    var d :| d in Shape(fsB, hB, id) && PairOf(hA, c) == PairOf(hB, d);
    ConstituentText(fsA, hA, id, c);
    ConstituentText(fsB, hB, id, d);
    SameConstituent(hA.digest, texts, c, d);
  }

  lemma ShapeWithin(fsA: set<Fold>, hA: Hashes, fsB: set<Fold>, hB: Hashes, id: Id, texts: set<string>)
    requires HasField(fsA, hA, id) && HasField(fsB, hB, id) && hA.digest == hB.digest
    requires TellsApart(hA.digest, texts) && TextsFor(fsA, hA, id) <= texts && TextsFor(fsB, hB, id) <= texts
    requires Pairs(Siblings(FinishedGroups(fsA, hA), id)) <= Pairs(Siblings(FinishedGroups(fsB, hB), id))
    ensures Shape(fsA, hA, id) <= Shape(fsB, hB, id)
  {
    forall c | c in Shape(fsA, hA, id)
      ensures c in Shape(fsB, hB, id)
    {
      ConstituentWithin(fsA, hA, fsB, hB, id, texts, c);
    }
  }

  lemma PairsIff(fsA: set<Fold>, hA: Hashes, fsB: set<Fold>, hB: Hashes, id: Id)
    requires HasField(fsA, hA, id) && HasField(fsB, hB, id) && hA.digest == hB.digest
    requires TellsApart(hA.digest, TextsFor(fsA, hA, id) + TextsFor(fsB, hB, id))
    ensures Pairs(Siblings(FinishedGroups(fsA, hA), id)) == Pairs(Siblings(FinishedGroups(fsB, hB), id)) <==>
            Shape(fsA, hA, id) == Shape(fsB, hB, id)
  {
    var pa, pb := Pairs(Siblings(FinishedGroups(fsA, hA), id)), Pairs(Siblings(FinishedGroups(fsB, hB), id));
    if pa == pb {
      var texts := TextsFor(fsA, hA, id) + TextsFor(fsB, hB, id);
      ShapeWithin(fsA, hA, fsB, hB, id, texts);
      ShapeWithin(fsB, hB, fsA, hA, id, texts);
    }
    if Shape(fsA, hA, id) == Shape(fsB, hB, id) {
      forall pair
        ensures pair in pa <==> pair in pb
      {
        PairsOfShape(fsA, hA, id, pair);
        PairsOfShape(fsB, hB, id, pair);
      }
    }
  }

  lemma PairsCount(gs: set<Group>)
    requires DistinctPointers(gs)
    ensures |Pairs(gs)| == |gs|
    decreases |gs|
  {
    if gs != {} {
      var g :| g in gs;
      var rest := gs - {g};
      PairsCount(rest);
      assert Pairs(gs) == Pairs(rest) + {(g.pointer, g.fingerprint)};
      assert (g.pointer, g.fingerprint) !in Pairs(rest);
    }
  }

  /** The final group of a field. */
  ghost function FinalOf(fs: set<Fold>, h: Hashes, id: Id): Group
    requires HasField(fs, h, id)
  {
    SiblingsExist(fs, h, id);
    MergedAt(FinishedGroups(fs, h), id, h)
  }

  lemma FinalIs(fs: set<Fold>, h: Hashes, id: Id)
    requires HasField(fs, h, id)
    ensures var sib := Siblings(FinishedGroups(fs, h), id);
            && sib != {} && FinalOf(fs, h, id) == MergedOf(sib, h)
            && SortedPointers(sib) != [] && FinalOf(fs, h, id).pointer == SortedPointers(sib)[0]
            && FinalOf(fs, h, id).key == id.resource + "#" + SortedPointers(sib)[0]
            && (|sib| == 1 ==> FinalOf(fs, h, id) in sib)
            && (|sib| > 1 ==> FinalOf(fs, h, id).fingerprint == h.digest(SiblingText(sib)))
  {
    SiblingsExist(fs, h, id);
    var sib := Siblings(FinishedGroups(fs, h), id);
    FirstPointer(sib);
    var f := FoldOf(fs, h, id, At(sib, SortedPointers(sib)[0]));
  }

  lemma LoneAlike(a: set<Group>, b: set<Group>, x: Group, y: Group)
    requires Pairs(a) == Pairs(b) && |b| == 1 && x in a && y in b
    ensures x.fingerprint == y.fingerprint
  {
    LonePairs(b, y);
    assert (x.pointer, x.fingerprint) in Pairs(a);
  }

  lemma SameShapeSameGroup(fsA: set<Fold>, hA: Hashes, fsB: set<Fold>, hB: Hashes, id: Id)
    requires HasField(fsA, hA, id) && HasField(fsB, hB, id) && hA.digest == hB.digest
    requires Pairs(Siblings(FinishedGroups(fsA, hA), id)) == Pairs(Siblings(FinishedGroups(fsB, hB), id))
    ensures FinalOf(fsA, hA, id).key == FinalOf(fsB, hB, id).key
    ensures FinalOf(fsA, hA, id).fingerprint == FinalOf(fsB, hB, id).fingerprint
  {
    var a, b := Siblings(FinishedGroups(fsA, hA), id), Siblings(FinishedGroups(fsB, hB), id);
    SiblingsExist(fsA, hA, id);
    SiblingsExist(fsB, hB, id);
    FinalIs(fsA, hA, id);
    FinalIs(fsB, hB, id);
    SamePairsSamePointers(a, b);
    PairsCount(a);
    PairsCount(b);
    FirstPointer(a);
    FirstPointer(b);
    if |a| == 1 {
      LoneAlike(a, b, FinalOf(fsA, hA, id), FinalOf(fsB, hB, id));
    } else {
      SamePairsSameText(a, b, SortedPointers(a));
    }
  }

  lemma StageIsNoLine(structure: string, required: bool, gs: set<Group>)
    requires gs != {}
    ensures StageText(structure, required) != SiblingText(gs)
  {
    FirstPointer(gs);
    var ps := SortedPointers(gs);
    var x := StageText(structure, required);
    assert x[|x| - 1] == 'e';
    TextIsLines(gs, ps);
    LinesEnd(LineList(gs, ps));
  }

  lemma SamePlace(resource: string, p: string, q: string)
    requires resource + "#" + p == resource + "#" + q
    ensures p == q
  {
    assert (resource + "#" + p)[|resource| + 1..] == p && (resource + "#" + q)[|resource| + 1..] == q;
  }

  lemma LonePairs(gs: set<Group>, g: Group)
    requires |gs| == 1 && g in gs
    ensures Pairs(gs) == {(g.pointer, g.fingerprint)}
  {
    forall x | x in gs
      ensures x == g
    {
      OnlyElement(gs, x, g);
    }
  }

  /** A lone constituent is hashed without its place, several are hashed with theirs. */
  lemma LoneText(fs: set<Fold>, h: Hashes, id: Id) returns (text: string)
    requires HasField(fs, h, id) && |Siblings(FinishedGroups(fs, h), id)| == 1
    ensures FinalOf(fs, h, id).fingerprint == h.digest(text) && text in TextsFor(fs, h, id)
    ensures forall gs: set<Group> :: gs != {} ==> text != SiblingText(gs)
  {
    FinalIs(fs, h, id);
    var f := FoldOf(fs, h, id, FinalOf(fs, h, id));
    var c := ConstituentOf(fs, h, f);
    assert c in Shape(fs, h, id);
    text := StageText(c.structure, c.required);
    forall gs: set<Group> | gs != {}
      ensures text != SiblingText(gs)
    {
      StageIsNoLine(c.structure, c.required, gs);
    }
  }

  lemma LoneUnlike(fsA: set<Fold>, hA: Hashes, fsB: set<Fold>, hB: Hashes, id: Id, texts: set<string>)
    requires HasField(fsA, hA, id) && HasField(fsB, hB, id) && hA.digest == hB.digest
    requires TellsApart(hA.digest, texts) && TextsFor(fsA, hA, id) <= texts && TextsFor(fsB, hB, id) <= texts
    requires |Siblings(FinishedGroups(fsA, hA), id)| == 1 && |Siblings(FinishedGroups(fsB, hB), id)| > 1
    ensures FinalOf(fsA, hA, id).fingerprint != FinalOf(fsB, hB, id).fingerprint
  {
    FinalIs(fsB, hB, id);
    var text := LoneText(fsA, hA, id);
    assert SiblingText(Siblings(FinishedGroups(fsB, hB), id)) in TextsFor(fsB, hB, id);
  }

  /** A lone constituent and several never give the same fingerprint. */
  lemma LoneOrMany(fsA: set<Fold>, hA: Hashes, fsB: set<Fold>, hB: Hashes, id: Id)
    requires HasField(fsA, hA, id) && HasField(fsB, hB, id) && hA.digest == hB.digest
    requires TellsApart(hA.digest, TextsFor(fsA, hA, id) + TextsFor(fsB, hB, id))
    requires FinalOf(fsA, hA, id).fingerprint == FinalOf(fsB, hB, id).fingerprint
    ensures var a, b := |Siblings(FinishedGroups(fsA, hA), id)|, |Siblings(FinishedGroups(fsB, hB), id)|;
            (a == 1 && b == 1) || (a > 1 && b > 1)
  {
    var texts := TextsFor(fsA, hA, id) + TextsFor(fsB, hB, id);
    SiblingsExist(fsA, hA, id);
    SiblingsExist(fsB, hB, id);
    var a, b := |Siblings(FinishedGroups(fsA, hA), id)|, |Siblings(FinishedGroups(fsB, hB), id)|;
    if a == 1 && b > 1 {
      LoneUnlike(fsA, hA, fsB, hB, id, texts);
    } else if b == 1 && a > 1 {
      LoneUnlike(fsB, hB, fsA, hA, id, texts);
    }
  }

  lemma LoneSame(fsA: set<Fold>, hA: Hashes, fsB: set<Fold>, hB: Hashes, id: Id)
    requires HasField(fsA, hA, id) && HasField(fsB, hB, id)
    requires |Siblings(FinishedGroups(fsA, hA), id)| == 1 && |Siblings(FinishedGroups(fsB, hB), id)| == 1
    requires FinalOf(fsA, hA, id).key == FinalOf(fsB, hB, id).key
    requires FinalOf(fsA, hA, id).fingerprint == FinalOf(fsB, hB, id).fingerprint
    ensures Pairs(Siblings(FinishedGroups(fsA, hA), id)) == Pairs(Siblings(FinishedGroups(fsB, hB), id))
  {
    var a, b := Siblings(FinishedGroups(fsA, hA), id), Siblings(FinishedGroups(fsB, hB), id);
    FinalIs(fsA, hA, id);
    FinalIs(fsB, hB, id);
    SamePlace(id.resource, SortedPointers(a)[0], SortedPointers(b)[0]);
    LonePairs(a, FinalOf(fsA, hA, id));
    LonePairs(b, FinalOf(fsB, hB, id));
  }

  lemma ManySame(fsA: set<Fold>, hA: Hashes, fsB: set<Fold>, hB: Hashes, id: Id)
    requires HasField(fsA, hA, id) && HasField(fsB, hB, id) && hA.digest == hB.digest && Hexadecimal(hA.digest)
    requires TellsApart(hA.digest, TextsFor(fsA, hA, id) + TextsFor(fsB, hB, id))
    requires |Siblings(FinishedGroups(fsA, hA), id)| > 1 && |Siblings(FinishedGroups(fsB, hB), id)| > 1
    requires FinalOf(fsA, hA, id).fingerprint == FinalOf(fsB, hB, id).fingerprint
    ensures Pairs(Siblings(FinishedGroups(fsA, hA), id)) == Pairs(Siblings(FinishedGroups(fsB, hB), id))
  {
    var a, b := Siblings(FinishedGroups(fsA, hA), id), Siblings(FinishedGroups(fsB, hB), id);
    FinalIs(fsA, hA, id);
    FinalIs(fsB, hB, id);
    SiblingsExist(fsA, hA, id);
    SiblingsExist(fsB, hB, id);
    SiblingsClean(fsA, hA, id);
    SiblingsClean(fsB, hB, id);
    SameDigest(hA.digest, TextsFor(fsA, hA, id) + TextsFor(fsB, hB, id), SiblingText(a), SiblingText(b));
    TextIff(a, b);
  }

  lemma SameDigest(digest: string -> string, texts: set<string>, x: string, y: string)
    requires TellsApart(digest, texts) && x in texts && y in texts && digest(x) == digest(y)
    ensures x == y
  {
  }

  lemma SameGroupSamePairs(fsA: set<Fold>, hA: Hashes, fsB: set<Fold>, hB: Hashes, id: Id)
    requires HasField(fsA, hA, id) && HasField(fsB, hB, id) && hA.digest == hB.digest && Hexadecimal(hA.digest)
    requires TellsApart(hA.digest, TextsFor(fsA, hA, id) + TextsFor(fsB, hB, id))
    requires FinalOf(fsA, hA, id).key == FinalOf(fsB, hB, id).key
    requires FinalOf(fsA, hA, id).fingerprint == FinalOf(fsB, hB, id).fingerprint
    ensures Pairs(Siblings(FinishedGroups(fsA, hA), id)) == Pairs(Siblings(FinishedGroups(fsB, hB), id))
  {
    LoneOrMany(fsA, hA, fsB, hB, id);
    if |Siblings(FinishedGroups(fsA, hA), id)| == 1 {
      LoneSame(fsA, hA, fsB, hB, id);
    } else {
      ManySame(fsA, hA, fsB, hB, id);
    }
  }

  /** Over two runs the final group of a field has the same key and fingerprint if and only if the field has the same
      constituents: the same places, each with the same structure and required flag. */
  lemma FinalGroupIff(fsA: set<Fold>, hA: Hashes, fsB: set<Fold>, hB: Hashes, id: Id)
    requires HasField(fsA, hA, id) && HasField(fsB, hB, id) && hA.digest == hB.digest && Hexadecimal(hA.digest)
    requires TellsApart(hA.digest, TextsFor(fsA, hA, id) + TextsFor(fsB, hB, id))
    ensures FinalOf(fsA, hA, id).key == FinalOf(fsB, hB, id).key &&
            FinalOf(fsA, hA, id).fingerprint == FinalOf(fsB, hB, id).fingerprint <==>
            Shape(fsA, hA, id) == Shape(fsB, hB, id)
  {
    PairsIff(fsA, hA, fsB, hB, id);
    if Shape(fsA, hA, id) == Shape(fsB, hB, id) {
      SameShapeSameGroup(fsA, hA, fsB, hB, id);
    } else if FinalOf(fsA, hA, id).key == FinalOf(fsB, hB, id).key &&
              FinalOf(fsA, hA, id).fingerprint == FinalOf(fsB, hB, id).fingerprint {
      SameGroupSamePairs(fsA, hA, fsB, hB, id);
    }
  }

  /** The final list holds exactly one group for each field with a gap. */
  lemma FinalListed(fs: set<Fold>, h: Hashes, out: seq<Group>, id: Id)
    requires HasField(fs, h, id) && IsFinal(out, FinishedGroups(fs, h), h)
    ensures FinalOf(fs, h, id) in out && IdOf(FinalOf(fs, h, id)) == id
    ensures forall g :: g in out && IdOf(g) == id ==> g == FinalOf(fs, h, id)
  {
    var gs := FinishedGroups(fs, h);
    SiblingsExist(fs, h, id);
    MergedIdentity(gs, id, h);
    assert FinalOf(fs, h, id) in MergedSet(gs, h);
    assert FinalOf(fs, h, id) in Elements(out);
    forall g | g in out && IdOf(g) == id
      ensures g == FinalOf(fs, h, id)
    {
      assert g in Elements(out);
      var i :| i in Ids(gs) && g == MergedAt(gs, i, h);
      MergedIdentity(gs, i, h);
    }
  }

  /** A verdict on record for the group of one run covers the group of a later run under the same key, if and only if no
      constituent has changed, gone or been added; otherwise the group is pending again. */
  lemma VerdictHoldsIff(fsA: set<Fold>, hA: Hashes, fsB: set<Fold>, hB: Hashes, id: Id, m: Triage.Memory,
      out: seq<Group>)
    requires HasField(fsA, hA, id) && HasField(fsB, hB, id) && hA.digest == hB.digest && Hexadecimal(hA.digest)
    requires TellsApart(hA.digest, TextsFor(fsA, hA, id) + TextsFor(fsB, hB, id))
    requires IsFinal(out, FinishedGroups(fsB, hB), hB)
    requires var before := FinalOf(fsA, hA, id);
             before.key in m.groups && m.groups[before.key].fingerprint == before.fingerprint
    requires FinalOf(fsA, hA, id).key == FinalOf(fsB, hB, id).key
    ensures FinalOf(fsB, hB, id) in Triage.PendingSet(out, m) <==> Shape(fsA, hA, id) != Shape(fsB, hB, id)
  {
    FinalGroupIff(fsA, hA, fsB, hB, id);
    FinalListed(fsB, hB, out, id);
  }

  // ---- Places with newlines ----

  function Plain(pointer: string, fingerprint: string): Group {
    Group("r#" + pointer, "r", "x", pointer, fingerprint, [], false)
  }

  lemma SortedIs(gs: set<Group>, ps: seq<string>)
    requires Elements(ps) == Pointers(gs) && Distinct(ps) && Sorted(ps, StringLeq)
    ensures SortedPointers(gs) == ps
  {
    StringOrder();
    SortedSetUnique(ps, SortedPointers(gs), StringLeq);
  }

  predicate Less(a: string, b: string) {
    a != b && StringLeq(a, b)
  }

  lemma TextAppend(gs: set<Group>, ps: seq<string>, g: Group)
    requires DistinctPointers(gs) && g in gs && forall p :: p in ps ==> p in Pointers(gs)
    ensures g.pointer in Pointers(gs)
    ensures StructureText(gs, ps + [g.pointer]) == StructureText(gs, ps) + Line(g)
  {
    var all := ps + [g.pointer];
    assert all[..|all| - 1] == ps;
    assert At(gs, g.pointer) == g;
  }

  lemma TwoPointers(x: Group, y: Group)
    requires x.pointer != y.pointer
    ensures Pointers({x, y}) == {x.pointer, y.pointer} && |{x, y}| == 2 && DistinctPointers({x, y})
  {
    assert x in {x, y} && y in {x, y};
  }

  lemma ThreePointers(x: Group, y: Group, z: Group)
    requires x.pointer != y.pointer && y.pointer != z.pointer && x.pointer != z.pointer
    ensures Pointers({x, y, z}) == {x.pointer, y.pointer, z.pointer} && |{x, y, z}| == 3 && DistinctPointers({x, y, z})
  {
    assert x in {x, y, z} && y in {x, y, z} && z in {x, y, z};
  }

  lemma TwoInOrder(gs: set<Group>, p: string, q: string)
    requires Pointers(gs) == {p, q} && Less(p, q)
    ensures SortedPointers(gs) == [p, q]
  {
    assert Elements([p, q]) == {p, q};
    SortedIs(gs, [p, q]);
  }

  lemma ThreeInOrder(gs: set<Group>, p: string, q: string, r: string)
    requires Pointers(gs) == {p, q, r} && Less(p, q) && Less(q, r) && Less(p, r)
    ensures SortedPointers(gs) == [p, q, r]
  {
    assert Elements([p, q, r]) == {p, q, r};
    SortedIs(gs, [p, q, r]);
  }

  lemma TwoTexts(gs: set<Group>, x: Group, y: Group)
    requires DistinctPointers(gs) && x in gs && y in gs
    ensures x.pointer in Pointers(gs) && y.pointer in Pointers(gs)
    ensures StructureText(gs, [x.pointer, y.pointer]) == Line(x) + Line(y)
  {
    OneText(gs, x);
    TextAppend(gs, [x.pointer], y);
    assert [x.pointer] + [y.pointer] == [x.pointer, y.pointer];
  }

  lemma OneText(gs: set<Group>, x: Group)
    requires DistinctPointers(gs) && x in gs
    ensures x.pointer in Pointers(gs) && StructureText(gs, [x.pointer]) == Line(x)
  {
    TextAppend(gs, [], x);
    assert [] + [x.pointer] == [x.pointer];
    assert "" + Line(x) == Line(x);
  }

  lemma ThreeTexts(gs: set<Group>, x: Group, y: Group, z: Group)
    requires DistinctPointers(gs) && x in gs && y in gs && z in gs
    ensures x.pointer in Pointers(gs) && y.pointer in Pointers(gs) && z.pointer in Pointers(gs)
    ensures StructureText(gs, [x.pointer, y.pointer, z.pointer]) == Line(x) + Line(y) + Line(z)
  {
    TwoTexts(gs, x, y);
    TextAppend(gs, [x.pointer, y.pointer], z);
    assert [x.pointer, y.pointer] + [z.pointer] == [x.pointer, y.pointer, z.pointer];
  }

  lemma LinesJoin(f: string, g: string)
    ensures Line(Plain("a", f)) + Line(Plain("b", g)) == Line(Plain("a=" + f + "\nb", g))
  {
    var p, q := Line(Plain("a", f)), Line(Plain("b", g));
    assert p == "a=" + f + "\n";
    assert q == "b=" + g + "\n";
    assert p + q == "a=" + f + "\nb" + "=" + g + "\n";
  }

  lemma PlacesOrdered(f: string)
    ensures Less("0", "a") && Less("a", "b") && Less("0", "b") && Less("0", "a=" + f + "\nb")
    ensures "a=" + f + "\nb" != "b"
  {
    var q := "a=" + f + "\nb";
    assert q[0] == 'a' && "0"[0] < q[0];
    assert "b"[0] == 'b';
  }

  /** With newlines in places the condition is needed: in these siblings a constituent goes and another changes its
      place, and the key and fingerprint of the merged group stay. */
  lemma NewlineHides(f: string, g: string, k: string, h: Hashes)
    ensures var a, b := {Plain("0", k), Plain("a", f), Plain("b", g)}, {Plain("0", k), Plain("a=" + f + "\nb", g)};
            && DistinctPointers(a) && DistinctPointers(b) && Pairs(a) != Pairs(b)
            && MergedOf(a, h).key == MergedOf(b, h).key && MergedOf(a, h).fingerprint == MergedOf(b, h).fingerprint
  {
    PlacesOrdered(f);
    LinesJoin(f, g);
    Blurred(Plain("0", k), Plain("a", f), Plain("b", g), Plain("a=" + f + "\nb", g), h);
  }

  lemma Blurred(x: Group, y: Group, z: Group, w: Group, h: Hashes)
    requires Less(x.pointer, y.pointer) && Less(y.pointer, z.pointer) && Less(x.pointer, z.pointer)
    requires Less(x.pointer, w.pointer) && w.pointer != z.pointer && Line(y) + Line(z) == Line(w)
    ensures var a, b := {x, y, z}, {x, w};
            && DistinctPointers(a) && DistinctPointers(b) && Pairs(a) != Pairs(b)
            && MergedOf(a, h).key == MergedOf(b, h).key && MergedOf(a, h).fingerprint == MergedOf(b, h).fingerprint
  {
    ThreePointers(x, y, z);
    TwoPointers(x, w);
    BlurredSets({x, y, z}, {x, w}, x, y, z, w, h);
  }

  lemma BlurredSets(a: set<Group>, b: set<Group>, x: Group, y: Group, z: Group, w: Group, h: Hashes)
    requires |a| > 1 && |b| > 1 && DistinctPointers(a) && DistinctPointers(b)
    requires Pointers(a) == {x.pointer, y.pointer, z.pointer} && Pointers(b) == {x.pointer, w.pointer}
    requires x in a && y in a && z in a && x in b && w in b
    requires Less(x.pointer, y.pointer) && Less(y.pointer, z.pointer) && Less(x.pointer, z.pointer)
    requires Less(x.pointer, w.pointer) && w.pointer != z.pointer && Line(y) + Line(z) == Line(w)
    ensures Pairs(a) != Pairs(b)
    ensures MergedOf(a, h).key == MergedOf(b, h).key && MergedOf(a, h).fingerprint == MergedOf(b, h).fingerprint
  {
    ThreeInOrder(a, x.pointer, y.pointer, z.pointer);
    TwoInOrder(b, x.pointer, w.pointer);
    ThreeTexts(a, x, y, z);
    TwoTexts(b, x, w);
    ConcatAssociates(Line(x), Line(y), Line(z));
    BlurredGroups(a, b, x, z, h);
  }

  lemma BlurredGroups(a: set<Group>, b: set<Group>, x: Group, z: Group, h: Hashes)
    requires |a| > 1 && |b| > 1 && DistinctPointers(a) && DistinctPointers(b) && InPointers(a) && InPointers(b)
    requires x in a && x in b && SortedPointers(a) != [] && SortedPointers(b) != []
    requires SortedPointers(a)[0] == x.pointer && SortedPointers(b)[0] == x.pointer
    requires StructureText(a, SortedPointers(a)) == StructureText(b, SortedPointers(b))
    requires z in a && z.pointer !in Pointers(b)
    ensures Pairs(a) != Pairs(b)
    ensures MergedOf(a, h).key == MergedOf(b, h).key && MergedOf(a, h).fingerprint == MergedOf(b, h).fingerprint
  {
    assert At(a, x.pointer) == x && At(b, x.pointer) == x;
    assert (z.pointer, z.fingerprint) in Pairs(a);
    assert (z.pointer, z.fingerprint) !in Pairs(b);
  }

  // ---- The final list ----

  /** By field, then pointer, then state. */
  predicate MemberFirst(a: Member, b: Member) {
    if a.field != b.field then StringLeq(a.field, b.field)
    else if a.pointer != b.pointer then StringLeq(a.pointer, b.pointer)
    else StringLeq(a.xState, b.xState)
  }

  lemma MembersInOrder(u: set<Member>, i: nat, j: nat)
    requires i < j < |SortedMembers(u)|
    ensures MemberFirst(SortedMembers(u)[i], SortedMembers(u)[j]) && SortedMembers(u)[i] != SortedMembers(u)[j]
  {
    MemberOrder();
    assert MemberLeq(SortedMembers(u)[i], SortedMembers(u)[j]);
  }

  lemma FinishedInOrder(fs: set<Fold>, h: Hashes, g: Group, i: nat, j: nat)
    requires Hashable(fs, h) && g in FinishedGroups(fs, h) && i < j < |g.members|
    ensures MemberFirst(g.members[i], g.members[j]) && g.members[i] != g.members[j]
  {
    var key :| key in KeysOf(fs) && g == Finished(fs, key, h);
    MembersInOrder(MembersAt(fs, key), i, j);
  }

  /** The final list is ordered by key, no key twice, and every group in it has members, in order and each once. */
  lemma FinalOrder(folds: seq<Fold>, h: Hashes, out: seq<Group>)
    requires Coherent(FoldSet(folds)) && Hashable(FoldSet(folds), h)
    requires IsFinal(out, FinishedGroups(FoldSet(folds), h), h)
    ensures forall i, j :: 0 <= i < j < |out| ==> StringLeq(out[i].key, out[j].key) && out[i].key != out[j].key
    ensures forall g :: g in out ==> g.members != []
    ensures forall g, i, j :: g in out && 0 <= i < j < |g.members| ==>
              MemberFirst(g.members[i], g.members[j]) && g.members[i] != g.members[j]
  {
    var fs := FoldSet(folds);
    forall i, j | 0 <= i < j < |out|
      ensures StringLeq(out[i].key, out[j].key) && out[i].key != out[j].key
    {
      assert KeyLeq(out[i], out[j]);
      FinishedOnePerKey(fs, h);
      assert out[i] in Elements(out) && out[j] in Elements(out) && out[i] != out[j];
      if out[i].key == out[j].key {
        FinalKeysDistinct(FinishedGroups(fs, h), h, out[i], out[j]);
      }
    }
    forall g | g in out
      ensures g.members != []
    {
      var id := GroupIsFinal(fs, h, out, g);
      HasMembers(folds, h, id);
    }
    forall g, i, j | g in out && 0 <= i < j < |g.members|
      ensures MemberFirst(g.members[i], g.members[j]) && g.members[i] != g.members[j]
    {
      var id := GroupIsFinal(fs, h, out, g);
      FinalMembersOrder(fs, h, id, i, j);
    }
  }

  lemma GroupIsFinal(fs: set<Fold>, h: Hashes, out: seq<Group>, g: Group) returns (id: Id)
    requires Hashable(fs, h) && IsFinal(out, FinishedGroups(fs, h), h) && g in out
    ensures id in Ids(FinishedGroups(fs, h)) && g == MergedAt(FinishedGroups(fs, h), id, h)
  {
    assert g in Elements(out);
    id :| id in Ids(FinishedGroups(fs, h)) && g == MergedAt(FinishedGroups(fs, h), id, h);
  }

  lemma MemberFolded(fs: set<Fold>, f: Fold, m: Member)
    requires f in fs && m in f.gap.members
    ensures m in FoldedMembers(fs, FoldId(f))
  {
  }

  lemma FoldFor(fs: set<Fold>, h: Hashes, id: Id) returns (f: Fold)
    requires Coherent(fs) && Hashable(fs, h) && id in Ids(FinishedGroups(fs, h))
    ensures f in fs && FoldId(f) == id
  {
    var gs := FinishedGroups(fs, h);
    var g :| g in gs && IdOf(g) == id;
    assert g in Siblings(gs, id);
    f := FoldOf(fs, h, id, g);
  }

  lemma HasMembers(folds: seq<Fold>, h: Hashes, id: Id)
    requires Coherent(FoldSet(folds)) && Hashable(FoldSet(folds), h)
    requires id in Ids(FinishedGroups(FoldSet(folds), h))
    ensures MergedAt(FinishedGroups(FoldSet(folds), h), id, h).members != []
  {
    var f := FoldFor(FoldSet(folds), h, id);
    var m := f.gap.members[0];
    MemberFolded(FoldSet(folds), f, m);
    FoldedIsFinished(FoldSet(folds), h, id, m);
    MergedMembers(FinishedGroups(FoldSet(folds), h), id, h, m);
  }

  lemma FinalMembersOrder(fs: set<Fold>, h: Hashes, id: Id, i: nat, j: nat)
    requires Hashable(fs, h) && id in Ids(FinishedGroups(fs, h))
    requires i < j < |MergedAt(FinishedGroups(fs, h), id, h).members|
    ensures var ms := MergedAt(FinishedGroups(fs, h), id, h).members; MemberFirst(ms[i], ms[j]) && ms[i] != ms[j]
  {
    var gs := FinishedGroups(fs, h);
    var sib := Siblings(gs, id);
    var any :| any in gs && IdOf(any) == id;
    assert any in sib;
    FirstPointer(sib);
    var first := At(sib, SortedPointers(sib)[0]);
    if |sib| == 1 {
      FinishedInOrder(fs, h, first, i, j);
    } else {
      MembersInOrder(UnionMembers(sib), i, j);
    }
  }
}
