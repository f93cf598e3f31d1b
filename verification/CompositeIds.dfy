/** Composite identities `<cluster uuid>/<resource id>` through create, update and read. */
module CompositeIds {
  import opened Text

  datatype CompositeID = CompositeID(clusterID: string, resourceID: string)

  /** Where the first slash is; the length when there is none. */
  function FirstSlash(s: string): (i: nat)
    ensures i <= |s| && '/' !in s[..i] && (i < |s| ==> s[i] == '/')
  {
    if s == "" || s[0] == '/' then 0
    else
      var i := FirstSlash(s[1..]);
      assert s[..i + 1] == [s[0]] + s[1..][..i];
      i + 1
  }

  /** `CompositeIDFromStr`: only the first slash separates, and something must follow it. */
  function Parse(id: string): Option<CompositeID> {
    var i := FirstSlash(id);
    if i == |id| || id[i + 1..] == "" then None else Some(CompositeID(id[..i], id[i + 1..]))
  }

  /** `CompositeID.String`, also behind `CompositeIDValue`. */
  function Print(c: CompositeID): string {
    c.clusterID + "/" + c.resourceID
  }

  lemma {:induction false} FirstSlashIs(a: string, b: string)
    requires '/' !in a
    ensures FirstSlash(a + "/" + b) == |a|
  {
    var s := a + "/" + b;
    var i := FirstSlash(s);
    assert s[|a|] == '/';
    assert forall k :: 0 <= k < |a| ==> s[k] == a[k] && a[k] in a;
    assert forall k :: 0 <= k < i ==> s[..i][k] == s[k] && s[k] in s[..i];
    assert i <= |a|;
  }

  /** Printing can be undone exactly when the cluster part has no slash and the resource part is not empty. */
  lemma ParsePrint(c: CompositeID)
    ensures Parse(Print(c)) == Some(c) <==> '/' !in c.clusterID && c.resourceID != ""
  {
    var s := Print(c);
    if '/' !in c.clusterID {
      FirstSlashIs(c.clusterID, c.resourceID);
      assert s[..|c.clusterID|] == c.clusterID && s[|c.clusterID| + 1..] == c.resourceID;
    }
  }

  /** Parsing accepts exactly the printed forms that can be undone, so it never loses anything. */
  lemma PrintParse(id: string)
    ensures Parse(id).Some? <==> exists c :: Parse(Print(c)) == Some(c) && Print(c) == id
    ensures Parse(id).Some? ==> Print(Parse(id).value) == id
  {
    var i := FirstSlash(id);
    if Parse(id).Some? {
      assert id == id[..i] + [id[i]] + id[i + 1..];
      assert Print(Parse(id).value) == id;
    }
  }

  // ---- Writes ----

  /** A planned attribute: unknown or null, or a value. */
  datatype Attribute = Unset | Known(value: string)

  /** The write-identity check: an empty or unset identity passes only on a create that allows it. */
  function ValidateIdentity(writeID: Attribute, allowEmptyCreate: bool, isUpdate: bool): (r: Option<string>)
    ensures r == Some("") ==> !isUpdate && allowEmptyCreate
    ensures r.Some? && r.value != "" ==> writeID == Known(r.value)
    ensures r.None? <==> (writeID.Unset? || writeID.value == "") && (isUpdate || !allowEmptyCreate)
  {
    if writeID.Unset? then
      if !isUpdate && allowEmptyCreate then Some("") else None
    else if writeID.value == "" && (isUpdate || !allowEmptyCreate) then None
    else Some(writeID.value)
  }

  /** `CompositeIDForWrite`: `live` is the cluster's own answer, None when asking it fails. */
  function IDForWrite(prior: Option<string>, live: Option<string>, writeID: string): Option<string> {
    if prior.None? then
      if live.None? then None else Some(Print(CompositeID(live.value, writeID)))
    else
      var parsed := Parse(prior.value);
      if parsed.None? || parsed.value.resourceID == writeID then prior
      else Some(Print(CompositeID(parsed.value.clusterID, writeID)))
  }

  /** An update request, and what the cluster would answer if it were asked for its UUID. */
  datatype Update = Update(writeID: Attribute, live: Option<string>)

  /** The state id after one update; a refused update leaves the state alone. */
  function AfterUpdate(id: string, u: Update): string {
    var w := ValidateIdentity(u.writeID, false, true);
    if w.None? then id
    else
      var next := IDForWrite(Some(id), u.live, w.value);
      if next.Some? then next.value else id
  }

  function AfterUpdates(id: string, updates: seq<Update>): string {
    if updates == [] then id
    else AfterUpdate(AfterUpdates(id, updates[..|updates| - 1]), updates[|updates| - 1])
  }

  /** The identity the last accepted write used. */
  function LastWrite(first: string, updates: seq<Update>): string {
    if updates == [] then first
    else
      var w := ValidateIdentity(updates[|updates| - 1].writeID, false, true);
      if w.Some? then w.value else LastWrite(first, updates[..|updates| - 1])
  }

  // ---- Reads ----

  /** What a model offers for resolving its identity; `readResourceID` only on models that override it. */
  datatype Model = Model(id: string, resourceID: string, readResourceID: Option<string>)

  /** `resolveElasticsearchReadResourceID`. */
  function ResolveRead(m: Model, writeFallback: string): string {
    if m.readResourceID.Some? && TrimSpace(m.readResourceID.value) != "" then TrimSpace(m.readResourceID.value)
    else if writeFallback != "" then writeFallback
    else
      var parsed := Parse(m.id);
      if parsed.Some? then parsed.value.resourceID
      else if TrimSpace(m.resourceID) != "" then TrimSpace(m.resourceID)
      else TrimSpace(m.id)
  }

  // ---- Identity along whole runs ----

  /** The state id is the original cluster, a slash, and the last identity written. */
  ghost predicate IdentityKept(uuid: string, first: string, updates: seq<Update>) {
    AfterUpdates(Print(CompositeID(uuid, first)), updates) == Print(CompositeID(uuid, LastWrite(first, updates)))
  }

  lemma {:induction false} LastWriteNonEmpty(first: string, updates: seq<Update>)
    requires first != ""
    ensures LastWrite(first, updates) != ""
    decreases |updates|
  {
    if updates != [] {
      LastWriteNonEmpty(first, updates[..|updates| - 1]);
    }
  }

  lemma {:induction false} RunKeepsIdentity(uuid: string, first: string, updates: seq<Update>)
    requires '/' !in uuid && first != ""
    ensures IdentityKept(uuid, first, updates)
    decreases |updates|
  {
    if updates != [] {
      var rest := updates[..|updates| - 1];
      RunKeepsIdentity(uuid, first, rest);
      LastWriteNonEmpty(first, rest);
      ParsePrint(CompositeID(uuid, LastWrite(first, rest)));
    }
  }

  /** The law holds along every sequence of updates exactly when the create used a slash-free cluster
      UUID and a non-empty write identity. */
  lemma IdentityIff(uuid: string, first: string)
    ensures (forall updates :: IdentityKept(uuid, first, updates)) <==> '/' !in uuid && first != ""
  {
    if '/' !in uuid && first != "" {
      forall updates
        ensures IdentityKept(uuid, first, updates)
      {
        RunKeepsIdentity(uuid, first, updates);
      }
    } else {
      var w := first + "x";
      var u := Update(Known(w), None);
      OneUpdate(uuid, first, u);
      BreaksAtOnce(uuid, first, w);
      assert !IdentityKept(uuid, first, [u]);
    }
  }

  lemma OneUpdate(uuid: string, first: string, u: Update)
    requires u.writeID.Known? && u.writeID.value != ""
    ensures AfterUpdates(Print(CompositeID(uuid, first)), [u]) == AfterUpdate(Print(CompositeID(uuid, first)), u)
    ensures LastWrite(first, [u]) == u.writeID.value
  {
    assert [u][..0] == [];
    assert AfterUpdates(Print(CompositeID(uuid, first)), [u][..0]) == Print(CompositeID(uuid, first));
  }

  lemma SameTail(a: string, b: string, w: string)
    requires a != b
    ensures Print(CompositeID(a, w)) != Print(CompositeID(b, w))
  {
    var x, y := Print(CompositeID(a, w)), Print(CompositeID(b, w));
    if |a| == |b| {
      assert x[..|a|] == a && y[..|b|] == b;
    } else {
      assert |x| != |y|;
    }
  }

  /** With a slash in the UUID or nothing written at first, the next change of identity goes astray. */
  lemma BreaksAtOnce(uuid: string, first: string, w: string)
    requires '/' in uuid || first == ""
    requires w == first + "x"
    ensures AfterUpdate(Print(CompositeID(uuid, first)), Update(Known(w), None)) != Print(CompositeID(uuid, w))
  {
    var id := Print(CompositeID(uuid, first));
    var parsed := Parse(id);
    PrintParse(id);
    var next := AfterUpdate(id, Update(Known(w), None));
    if next == id {
      assert |Print(CompositeID(uuid, w))| == |id| + 1;
    } else {
      var c := parsed.value.clusterID;
      assert '/' !in c;
      assert next == Print(CompositeID(c, w));
      if '/' !in uuid {
        FirstSlashIs(uuid, first);
      }
      assert '/' in uuid;
      SameTail(c, uuid, w);
    }
  }

  /** Create, any updates, then read or delete: the target is exactly the last identity written. */
  lemma ReadsLastWrite(uuid: string, writeID: Attribute, updates: seq<Update>, resourceID: string)
    requires '/' !in uuid && writeID.Known? && writeID.value != ""
    ensures var created := IDForWrite(None, Some(uuid), writeID.value);
            var last := LastWrite(writeID.value, updates);
            && created.Some?
            && ResolveRead(Model(AfterUpdates(created.value, updates), resourceID, None), "") == last
            && ResolveRead(Model(AfterUpdates(created.value, updates), resourceID, None), last) == last
  {
    var last := LastWrite(writeID.value, updates);
    RunKeepsIdentity(uuid, writeID.value, updates);
    LastWriteNonEmpty(writeID.value, updates);
    ParsePrint(CompositeID(uuid, last));
  }

  /** An update never consults the live cluster: whatever it would answer, the state id is the same. */
  lemma {:induction false} LiveClusterIgnored(id: string, a: seq<Update>, b: seq<Update>)
    requires |a| == |b| && forall i :: 0 <= i < |a| ==> a[i].writeID == b[i].writeID
    ensures AfterUpdates(id, a) == AfterUpdates(id, b)
    decreases |a|
  {
    if a != [] {
      LiveClusterIgnored(id, a[..|a| - 1], b[..|b| - 1]);
    }
  }

  /** A state id that never was composite stays as it is through every update and is read back whole, trimmed,
      unless the model names its resource. */
  lemma {:induction false} LegacyIdKept(id: string, updates: seq<Update>, resourceID: string)
    requires Parse(id).None?
    ensures AfterUpdates(id, updates) == id
    ensures ResolveRead(Model(id, resourceID, None), "")
         == if TrimSpace(resourceID) != "" then TrimSpace(resourceID) else TrimSpace(id)
    decreases |updates|
  {
    if updates != [] {
      LegacyIdKept(id, updates[..|updates| - 1], resourceID);
    }
  }

  /** Which identity a read resolves to: the model's own, else the one just written, else the resource part of the state
      id; a create takes the cluster's UUID, and fails without it. */
  lemma ReadPrecedence(uuid: string, id: string, own: string, resourceID: string, fallback: string)
    requires '/' !in uuid && id != ""
    ensures IDForWrite(None, Some(uuid), id) == Some(uuid + "/" + id) && IDForWrite(None, None, id).None?
    ensures var m := Model(uuid + "/" + id, resourceID, Some(own));
            ResolveRead(m, fallback) ==
            if TrimSpace(own) != "" then TrimSpace(own) else if fallback != "" then fallback else id
    ensures ResolveRead(Model(uuid + "/" + id, resourceID, None), fallback) == if fallback != "" then fallback else id
  {
    ParsePrint(CompositeID(uuid, id));
  }
}
