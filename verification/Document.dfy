/** The document algebra of the OpenAPI transformer: JSON trees addressed by dotted keys. */
module Document {
  import opened Text

  datatype Json =
    | Object(fields: map<string, Json>)
    | Array(items: seq<Json>)
    | Str(text: string)
    | Scalar(repr: string)

  predicate Container(j: Json) {
    j.Object? || j.Array?
  }

  // ---- Keys as the code reads them ----

  /** Where the first dot is; the length when there is none. */
  function FirstDot(key: string): (d: nat)
    ensures d <= |key|
    ensures d < |key| ==> key[d] == '.'
    ensures '.' !in key[..d]
  {
    if key == [] then 0
    else if key[0] == '.' then 0
    else
      var d := FirstDot(key[1..]);
      assert key[..d + 1] == [key[0]] + key[1..][..d];
      1 + d
  }

  /** strconv.Atoi, as far as an index is concerned. */
  function Atoi(s: string): Option<int> {
    var signed := s != [] && (s[0] == '-' || s[0] == '+');
    var digits := if signed then s[1..] else s;
    if digits == [] || !AllDigits(digits) then None
    else
      var n: int := DigitsValue(digits);
      Some(if signed && s[0] == '-' then -n else n)
  }

  /** An index the slice accepts; anything else makes the code panic. */
  function Index(s: string, n: nat): (r: Option<nat>)
    ensures r.Some? ==> r.value < n
  {
    var i := Atoi(s);
    if i.Some? && 0 <= i.value < n then Some(i.value) else None
  }

  datatype Got = Found(value: Json) | Absent | Panicked

  /** `Map.Get` and `Slice.Get`. */
  function Get(j: Json, key: string): Got
    requires Container(j)
    decreases |key|
  {
    var d := FirstDot(key);
    var root := key[..d];
    if j.Object? then
      if d < |key| && root in j.fields && Container(j.fields[root]) then Get(j.fields[root], key[d + 1..])
      else if key in j.fields then Found(j.fields[key])
      else Absent
    else
      var i := Index(root, |j.items|);
      if i.None? then Panicked
      else if d < |key| && Container(j.items[i.value]) then Get(j.items[i.value], key[d + 1..])
      else Found(j.items[i.value])
  }

  /** `Map.Set` and `Slice.Set`; `None` is a panic. */
  function Set(j: Json, key: string, value: Json): Option<Json>
    requires Container(j)
    decreases |key|
  {
    var d := FirstDot(key);
    var root := key[..d];
    if j.Object? then
      if d == |key| then Some(Object(j.fields[root := value]))
      else
        var child := if root in j.fields then j.fields[root] else Object(map[]);
        if !Container(child) then Some(j)
        else
          var sub := Set(child, key[d + 1..], value);
          if sub.None? then None else Some(Object(j.fields[root := sub.value]))
    else
      var i := Index(root, |j.items|);
      if i.None? then None
      else if d == |key| then Some(Array(j.items[i.value := value]))
      else if !Container(j.items[i.value]) then Some(j)
      else
        var sub := Set(j.items[i.value], key[d + 1..], value);
        if sub.None? then None else Some(Array(j.items[i.value := sub.value]))
  }

  // ---- Paths: sequences of segments, array segments in canonical decimal ----

  function CanonIndex(seg: string, n: nat): (r: Option<nat>)
    ensures r.Some? ==> r.value < n && Decimal(r.value) == seg
  {
    var i := Index(seg, n);
    if i.Some? && Decimal(i.value) == seg then i else None
  }

  function Child(j: Json, seg: string): (r: Option<Json>)
    ensures r.Some? ==> Container(j)
  {
    match j
    case Object(fields) => if seg in fields then Some(fields[seg]) else None
    case Array(items) =>
      var i := CanonIndex(seg, |items|);
      if i.Some? then Some(items[i.value]) else None
    case _ => None
  }

  function AtPath(j: Json, path: seq<string>): Option<Json>
    decreases |path|
  {
    if path == [] then Some(j)
    else
      var child := Child(j, path[0]);
      if child.None? then None else AtPath(child.value, path[1..])
  }

  predicate DotFree(seg: string) {
    seg != "" && '.' !in seg
  }

  ghost predicate DotFreePath(path: seq<string>) {
    forall i :: 0 <= i < |path| ==> DotFree(path[i])
  }

  function Join(path: seq<string>): string {
    if path == [] then ""
    else if |path| == 1 then path[0]
    else path[0] + "." + Join(path[1..])
  }

  lemma {:induction false} FirstDotOf(seg: string, rest: string)
    requires '.' !in seg
    ensures FirstDot(seg) == |seg|
    ensures FirstDot(seg + "." + rest) == |seg|
  {
    if seg != [] {
      assert seg[0] in seg;
      forall c | c in seg[1..] ensures c in seg {}
      FirstDotOf(seg[1..], rest);
      assert (seg + "." + rest)[1..] == seg[1..] + "." + rest;
    }
  }

  /** Cutting a joined path at its first dot gives its first segment and the rest. */
  lemma JoinCut(path: seq<string>)
    requires path != [] && DotFreePath(path)
    ensures var key := Join(path); var d := FirstDot(key);
            && key[..d] == path[0]
            && (d < |key| <==> |path| > 1)
            && (|path| > 1 ==> key[d + 1..] == Join(path[1..]))
            && (|path| == 1 ==> key == path[0])
  {
    var key := Join(path);
    assert DotFree(path[0]);
    FirstDotOf(path[0], Join(path[1..]));
    if |path| == 1 {
      assert key[..|path[0]|] == path[0];
    } else {
      assert key == path[0] + "." + Join(path[1..]);
      assert key[|path[0]| + 1..] == Join(path[1..]);
    }
  }

  lemma AtoiDecimal(i: nat)
    ensures Atoi(Decimal(i)) == Some(i)
  {
    DecimalValue(i);
    assert IsDigit(Decimal(i)[0]);
  }

  lemma CanonDecimal(i: nat, n: nat)
    requires i < n
    ensures CanonIndex(Decimal(i), n) == Some(i) && Index(Decimal(i), n) == Some(i)
  {
    AtoiDecimal(i);
  }

  /** A joined path that leads somewhere is found there by `Get`. */
  lemma {:induction false} GetAtPath(j: Json, path: seq<string>)
    requires path != [] && DotFreePath(path) && AtPath(j, path).Some?
    ensures Container(j) && Get(j, Join(path)) == Found(AtPath(j, path).value)
    decreases |path|
  {
    JoinCut(path);
    var child := Child(j, path[0]).value;
    if |path| > 1 {
      assert path[1..] != [] && DotFreePath(path[1..]);
      GetAtPath(child, path[1..]);
    } else {
      assert path[1..] == [];
    }
  }

  // ---- Writing at a path ----

  function SetChild(j: Json, seg: string, value: Json): Json
    requires j.Object? || (j.Array? && CanonIndex(seg, |j.items|).Some?)
  {
    if j.Object? then Object(j.fields[seg := value]) else Array(j.items[CanonIndex(seg, |j.items|).value := value])
  }

  /** In range, and no scalar in the middle. */
  predicate Settable(j: Json, path: seq<string>)
    decreases |path|
  {
    path == [] ||
    (&& (j.Object? || (j.Array? && CanonIndex(path[0], |j.items|).Some?))
     && (|path| > 1 && Child(j, path[0]).Some? ==>
         Container(Child(j, path[0]).value) && Settable(Child(j, path[0]).value, path[1..])))
  }

  function ChildOrNew(j: Json, seg: string): Json {
    var child := Child(j, seg);
    if child.Some? then child.value else Object(map[])
  }

  function SetPath(j: Json, path: seq<string>, value: Json): Json
    requires Settable(j, path)
    decreases |path|
  {
    if path == [] then value
    else if |path| == 1 then SetChild(j, path[0], value)
    else
      assert Settable(ChildOrNew(j, path[0]), path[1..]);
      SetChild(j, path[0], SetPath(ChildOrNew(j, path[0]), path[1..], value))
  }

  /** `Set` writes where the joined path leads. */
  lemma {:induction false} SetAtPath(j: Json, path: seq<string>, value: Json)
    requires path != [] && DotFreePath(path) && Settable(j, path)
    ensures Container(j) && Set(j, Join(path), value) == Some(SetPath(j, path, value))
    decreases |path|
  {
    JoinCut(path);
    if |path| > 1 {
      assert path[1..] != [] && DotFreePath(path[1..]);
      SetAtPath(ChildOrNew(j, path[0]), path[1..], value);
    }
  }

  lemma ChildSetChild(j: Json, seg: string, value: Json, other: string)
    requires j.Object? || (j.Array? && CanonIndex(seg, |j.items|).Some?)
    ensures Child(SetChild(j, seg, value), other) == if other == seg then Some(value) else Child(j, other)
  {
    if j.Array? && CanonIndex(other, |j.items|).Some? && other != seg {
      assert CanonIndex(other, |j.items|).value != CanonIndex(seg, |j.items|).value;
    }
  }

  /** What was written is read back. */
  lemma {:induction false} ReadBack(j: Json, path: seq<string>, value: Json)
    requires Settable(j, path)
    ensures AtPath(SetPath(j, path, value), path) == Some(value)
    decreases |path|
  {
    if path != [] {
      if |path| == 1 {
        ChildSetChild(j, path[0], value, path[0]);
        assert path[1..] == [];
      } else {
        var sub := SetPath(ChildOrNew(j, path[0]), path[1..], value);
        ChildSetChild(j, path[0], sub, path[0]);
        ReadBack(ChildOrNew(j, path[0]), path[1..], value);
      }
    }
  }

  /** Neither path is a prefix of the other. */
  predicate Diverge(p: seq<string>, q: seq<string>)
    decreases |p|
  {
    p != [] && q != [] && (p[0] != q[0] || Diverge(p[1..], q[1..]))
  }

  /** Nothing changes along a path that diverges. */
  lemma {:induction false} OthersUnchanged(j: Json, path: seq<string>, value: Json, other: seq<string>)
    requires Settable(j, path) && Diverge(path, other)
    ensures AtPath(SetPath(j, path, value), other) == AtPath(j, other)
    decreases |path|
  {
    if |path| == 1 {
      ChildSetChild(j, path[0], value, other[0]);
    } else {
      var child := ChildOrNew(j, path[0]);
      var sub := SetPath(child, path[1..], value);
      ChildSetChild(j, path[0], sub, other[0]);
      if path[0] == other[0] {
        OthersUnchanged(child, path[1..], value, other[1..]);
        if Child(j, path[0]).None? {
          assert AtPath(child, other[1..]).None?;
        }
      }
    }
  }

  /** `Get` after `Set`, in the code's own terms. */
  lemma GetAfterSet(j: Json, path: seq<string>, value: Json, other: seq<string>)
    requires path != [] && DotFreePath(path) && Settable(j, path)
    requires other != [] && DotFreePath(other) && Diverge(path, other) && AtPath(j, other).Some?
    ensures Container(j) && Set(j, Join(path), value).Some?
    ensures var j' := Set(j, Join(path), value).value;
            && Container(j')
            && Get(j', Join(path)) == Found(value)
            && Get(j', Join(other)) == Get(j, Join(other)) == Found(AtPath(j, other).value)
  {
    SetAtPath(j, path, value);
    var j' := SetPath(j, path, value);
    ReadBack(j, path, value);
    OthersUnchanged(j, path, value, other);
    GetAtPath(j', path);
    GetAtPath(j', other);
    GetAtPath(j, other);
  }

  lemma {:induction false} ResolvedIsSettable(j: Json, path: seq<string>)
    requires AtPath(j, path).Some?
    ensures Settable(j, path)
    decreases |path|
  {
    if path != [] {
      ResolvedIsSettable(Child(j, path[0]).value, path[1..]);
      if |path| > 1 {
        assert Child(Child(j, path[0]).value, path[1..][0]).Some?;
      }
    }
  }

  /** Writing back what is there changes nothing. */
  lemma {:induction false} WriteBack(j: Json, path: seq<string>)
    requires AtPath(j, path).Some? && Settable(j, path)
    ensures SetPath(j, path, AtPath(j, path).value) == j
    decreases |path|
  {
    if path != [] {
      var child := Child(j, path[0]).value;
      assert SetChild(j, path[0], child) == j;
      if |path| > 1 {
        WriteBack(child, path[1..]);
      } else {
        assert path[1..] == [];
      }
    }
  }

  lemma SetChildTwice(j: Json, seg: string, v: Json, w: Json)
    requires j.Object? || (j.Array? && CanonIndex(seg, |j.items|).Some?)
    ensures var once := SetChild(j, seg, v);
            && (once.Object? || (once.Array? && CanonIndex(seg, |once.items|).Some?))
            && SetChild(once, seg, w) == SetChild(j, seg, w)
  {
  }

  /** The second of two writes at one path wins. */
  lemma {:induction false} LastWriteWins(j: Json, path: seq<string>, v: Json, w: Json)
    requires Settable(j, path)
    ensures Settable(SetPath(j, path, v), path)
    ensures SetPath(SetPath(j, path, v), path, w) == SetPath(j, path, w)
    decreases |path|
  {
    ReadBack(j, path, v);
    ResolvedIsSettable(SetPath(j, path, v), path);
    if |path| == 1 {
      SetChildTwice(j, path[0], v, w);
    } else if |path| > 1 {
      var child := ChildOrNew(j, path[0]);
      var sub := SetPath(child, path[1..], v);
      ChildSetChild(j, path[0], sub, path[0]);
      LastWriteWins(child, path[1..], v, w);
      SetChildTwice(j, path[0], sub, SetPath(child, path[1..], w));
    }
  }
}
