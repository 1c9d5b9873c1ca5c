/** The policy snapshot the controller sends, and the JSON each side signs. */
module Snapshots {
  import opened Literals
  import opened Options

  datatype Resource = Resource(
    id: string,
    kind: string,
    address: string,
    port: int,
    protocol: string,
    portFrom: Option<int>,
    portTo: Option<int>,
    identities: seq<string>)

  datatype Meta = Meta(
    connectorId: string,
    version: int,
    compiledAt: string,
    validUntil: string,
    signature: string)

  datatype Snapshot = Snapshot(meta: Meta, resources: seq<Resource>) {
    function WithSignature(signature: string): Snapshot {
      this.(meta := meta.(signature := signature))
    }
  }

  function Ids(resources: seq<Resource>): seq<string> {
    seq(|resources|, i requires 0 <= i < |resources| => resources[i].id)
  }

  predicate DistinctIds(resources: seq<Resource>) {
    forall i, j :: 0 <= i < j < |resources| ==> resources[i].id != resources[j].id
  }

  // ---------- JSON ----------

  datatype Json =
    | Null
    | Num(n: int)
    | Str(s: Literal)
    | Arr(items: seq<Json>)
    | Obj(fields: seq<(string, Json)>)

  function TextJson(e: Encoder, s: string): Json {
    Str(TextOf(e, s))
  }

  function Strings(e: Encoder, ss: seq<string>): Json {
    Arr(seq(|ss|, i requires 0 <= i < |ss| => TextJson(e, ss[i])))
  }

  function MetaJson(e: Encoder, m: Meta): Json {
    Obj([("connector_id", TextJson(e, m.connectorId)), ("policy_version", Num(m.version)),
         ("compiled_at", TextJson(e, m.compiledAt)), ("valid_until", TextJson(e, m.validUntil)),
         ("signature", TextJson(e, m.signature))])
  }

  function HeadFields(e: Encoder, r: Resource): seq<(string, Json)> {
    [("resource_id", TextJson(e, r.id)), ("type", TextJson(e, r.kind)), ("address", TextJson(e, r.address)),
     ("port", Num(r.port)), ("protocol", TextJson(e, r.protocol))]
  }

  /** Go's `omitempty` leaves an absent bound out; Rust's serde writes it as null. */
  function Bound(e: Encoder, name: string, bound: Option<int>): seq<(string, Json)> {
    if bound.Some? then [(name, Num(bound.value))] else if e.GoEncoder? then [] else [(name, Null)]
  }

  function Bounds(e: Encoder, r: Resource): seq<(string, Json)> {
    Bound(e, "port_from", r.portFrom) + Bound(e, "port_to", r.portTo)
  }

  function ResourceJson(e: Encoder, r: Resource): Json {
    Obj(HeadFields(e, r) + Bounds(e, r) + [("allowed_identities", Strings(e, r.identities))])
  }

  function ResourcesJson(e: Encoder, rs: seq<Resource>): seq<Json> {
    seq(|rs|, i requires 0 <= i < |rs| => ResourceJson(e, rs[i]))
  }

  function SnapshotJson(e: Encoder, s: Snapshot): Json {
    Obj([("snapshot_meta", MetaJson(e, s.meta)),
         ("resources", Arr(ResourcesJson(e, s.resources)))])
  }

  /** What a signature does not cover is only the signature field itself. */
  function Unsigned(s: Snapshot): Snapshot {
    s.WithSignature("")
  }

  // ---------- Reading it back, field by field name, as both connectors' decoders do ----------

  function Lookup(fields: seq<(string, Json)>, name: string): Option<Json> {
    if fields == [] then None
    else if fields[0].0 == name then Some(fields[0].1)
    else Lookup(fields[1..], name)
  }

  function ReadText(j: Option<Json>): Option<string> {
    match j
    case Some(Str(t)) => ReadLiteral(t)
    case _ => None
  }

  function ReadNumber(j: Option<Json>): Option<int> {
    match j
    case Some(Num(n)) => Some(n)
    case _ => None
  }

  function ReadTexts(items: seq<Json>): Option<seq<string>> {
    if items == [] then Some([])
    else
      var first :- ReadText(Some(items[0]));
      var rest :- ReadTexts(items[1..]);
      Some([first] + rest)
  }

  function ReadList(j: Option<Json>): Option<seq<string>> {
    match j
    case Some(Arr(items)) => ReadTexts(items)
    case _ => None
  }

  /** A field left out and a null both mean no bound. */
  function ReadBound(j: Option<Json>): Option<Option<int>> {
    match j
    case None => Some(None)
    case Some(Null) => Some(None)
    case Some(Num(n)) => Some(Some(n))
    case _ => None
  }

  function ReadMeta(j: Option<Json>): Option<Meta> {
    match j
    case Some(Obj(fields)) =>
      var connectorId :- ReadText(Lookup(fields, "connector_id"));
      var version :- ReadNumber(Lookup(fields, "policy_version"));
      var compiledAt :- ReadText(Lookup(fields, "compiled_at"));
      var validUntil :- ReadText(Lookup(fields, "valid_until"));
      var signature :- ReadText(Lookup(fields, "signature"));
      Some(Meta(connectorId, version, compiledAt, validUntil, signature))
    case _ => None
  }

  function ReadResource(j: Json): Option<Resource> {
    match j
    case Obj(fields) =>
      var id :- ReadText(Lookup(fields, "resource_id"));
      var kind :- ReadText(Lookup(fields, "type"));
      var address :- ReadText(Lookup(fields, "address"));
      var port :- ReadNumber(Lookup(fields, "port"));
      var protocol :- ReadText(Lookup(fields, "protocol"));
      var portFrom :- ReadBound(Lookup(fields, "port_from"));
      var portTo :- ReadBound(Lookup(fields, "port_to"));
      var identities :- ReadList(Lookup(fields, "allowed_identities"));
      Some(Resource(id, kind, address, port, protocol, portFrom, portTo, identities))
    case _ => None
  }

  function ReadResources(items: seq<Json>): Option<seq<Resource>> {
    if items == [] then Some([])
    else
      var first :- ReadResource(items[0]);
      var rest :- ReadResources(items[1..]);
      Some([first] + rest)
  }

  function ReadSnapshot(j: Json): Option<Snapshot> {
    match j
    case Obj(fields) =>
      var meta :- ReadMeta(Lookup(fields, "snapshot_meta"));
      (match Lookup(fields, "resources")
       case Some(Arr(items)) =>
         var resources :- ReadResources(items);
         Some(Snapshot(meta, resources))
       case _ => None)
    case _ => None
  }

  lemma {:induction false} LookupAt(fields: seq<(string, Json)>, k: nat, name: string)
    requires k < |fields| && fields[k].0 == name && forall i :: 0 <= i < k ==> fields[i].0 != name
    ensures Lookup(fields, name) == Some(fields[k].1)
  {
    if k > 0 {
      LookupAt(fields[1..], k - 1, name);
    }
  }

  lemma {:induction false} LookupNowhere(fields: seq<(string, Json)>, name: string)
    requires forall i :: 0 <= i < |fields| ==> fields[i].0 != name
    ensures Lookup(fields, name) == None
  {
    if fields != [] {
      LookupNowhere(fields[1..], name);
    }
  }

  /** Names of one length differ in these places. */
  lemma NamesDiffer()
    ensures "type" != "port" && "address" != "port_to" && "compiled_at" != "valid_until"
    ensures "resource_id" != "compiled_at" && "port_from" != "signature" && "protocol" != "resource"
  {
    assert "type"[0] != "port"[0] && "address"[0] != "port_to"[0] && "compiled_at"[0] != "valid_until"[0];
    assert "resource_id"[0] != "compiled_at"[0] && "port_from"[0] != "signature"[0] && "protocol"[0] != "resource"[0];
  }

  lemma TextReads(e: Encoder, s: string)
    ensures ReadText(Some(TextJson(e, s))) == Some(s)
  {
  }

  lemma {:induction false} TextsRead(e: Encoder, ss: seq<string>)
    ensures ReadList(Some(Strings(e, ss))) == Some(ss)
  {
    hide TextJson, ReadText;
    if ss != [] {
      TextsRead(e, ss[1..]);
      TextReads(e, ss[0]);
      assert Strings(e, ss).items[0] == TextJson(e, ss[0]);
      assert Strings(e, ss).items[1..] == Strings(e, ss[1..]).items;
      assert [ss[0]] + ss[1..] == ss;
    }
  }

  lemma MetaReads(e: Encoder, m: Meta)
    ensures ReadMeta(Some(MetaJson(e, m))) == Some(m)
  {
    hide TextJson, ReadText, Lookup;
    NamesDiffer();
    var fields := MetaJson(e, m).fields;
    LookupAt(fields, 0, "connector_id");
    LookupAt(fields, 1, "policy_version");
    LookupAt(fields, 2, "compiled_at");
    LookupAt(fields, 3, "valid_until");
    LookupAt(fields, 4, "signature");
    TextReads(e, m.connectorId);
    TextReads(e, m.compiledAt);
    TextReads(e, m.validUntil);
    TextReads(e, m.signature);
  }

  lemma BoundsRead(e: Encoder, r: Resource)
    ensures var fields := ResourceJson(e, r).fields;
            && ReadBound(Lookup(fields, "port_from")) == Some(r.portFrom)
            && ReadBound(Lookup(fields, "port_to")) == Some(r.portTo)
            && Lookup(fields, "allowed_identities") == Some(Strings(e, r.identities))
  {
    hide TextJson, Lookup, Strings;
    NamesDiffer();
    var fields, from := ResourceJson(e, r).fields, |Bound(e, "port_from", r.portFrom)|;
    if from == 1 {
      LookupAt(fields, 5, "port_from");
    } else {
      LookupNowhere(fields, "port_from");
    }
    if |Bound(e, "port_to", r.portTo)| == 1 {
      LookupAt(fields, 5 + from, "port_to");
    } else {
      LookupNowhere(fields, "port_to");
    }
    LookupAt(fields, |fields| - 1, "allowed_identities");
  }

  lemma ResourceReads(e: Encoder, r: Resource)
    ensures ReadResource(ResourceJson(e, r)) == Some(r)
  {
    hide TextJson, ReadText, Lookup, Bounds, Strings, ReadList;
    NamesDiffer();
    var fields := ResourceJson(e, r).fields;
    assert fields[..5] == HeadFields(e, r);
    LookupAt(fields, 0, "resource_id");
    LookupAt(fields, 1, "type");
    LookupAt(fields, 2, "address");
    LookupAt(fields, 3, "port");
    LookupAt(fields, 4, "protocol");
    TextReads(e, r.id);
    TextReads(e, r.kind);
    TextReads(e, r.address);
    TextReads(e, r.protocol);
    BoundsRead(e, r);
    TextsRead(e, r.identities);
  }

  lemma {:induction false} ResourcesRead(e: Encoder, rs: seq<Resource>)
    ensures ReadResources(ResourcesJson(e, rs)) == Some(rs)
  {
    hide ResourceJson, ReadResource;
    if rs != [] {
      ResourcesRead(e, rs[1..]);
      ResourceReads(e, rs[0]);
      assert ResourcesJson(e, rs)[1..] == ResourcesJson(e, rs[1..]);
      assert [rs[0]] + rs[1..] == rs;
    }
  }

  /** What either encoder writes reads back, by field names, as the snapshot it was. */
  lemma ReadsBack(e: Encoder, s: Snapshot)
    ensures ReadSnapshot(SnapshotJson(e, s)) == Some(s)
  {
    hide MetaJson, ReadMeta, ResourcesJson, ReadResources, Lookup;
    var fields := SnapshotJson(e, s).fields;
    LookupAt(fields, 0, "snapshot_meta");
    LookupAt(fields, 1, "resources");
    MetaReads(e, s.meta);
    ResourcesRead(e, s.resources);
  }

  /** Whichever encoders wrote it, equal JSON means equal snapshots. */
  lemma JsonInjective(e: Encoder, a: Snapshot, e': Encoder, b: Snapshot)
    requires SnapshotJson(e, a) == SnapshotJson(e', b)
    ensures a == b
  {
    hide SnapshotJson, ReadSnapshot;
    ReadsBack(e, a);
    ReadsBack(e', b);
  }

  /** The fields in the order the two struct definitions give, which is the order signed over. */
  lemma FieldOrder(e: Encoder, s: Snapshot, r: Resource)
    requires BothBounds(r)
    ensures Names(SnapshotJson(e, s).fields) == ["snapshot_meta", "resources"]
    ensures Names(MetaJson(e, s.meta).fields)
         == ["connector_id", "policy_version", "compiled_at", "valid_until", "signature"]
    ensures Names(ResourceJson(e, r).fields)
         == ["resource_id", "type", "address", "port", "protocol", "port_from", "port_to", "allowed_identities"]
  {
  }

  function Names(fields: seq<(string, Json)>): seq<string> {
    seq(|fields|, i requires 0 <= i < |fields| => fields[i].0)
  }

  // ---------- Part by part ----------

  lemma StringsParts(e: Encoder, a: seq<string>, e': Encoder, b: seq<string>)
    ensures Strings(e, a) == Strings(e', b)
       <==> |a| == |b| && forall i :: 0 <= i < |a| ==> TextJson(e, a[i]) == TextJson(e', b[i])
  {
    hide TextJson;
    var x, y := Strings(e, a).items, Strings(e', b).items;
    assert |x| == |a| && |y| == |b|;
    if x == y {
      forall i | 0 <= i < |a| ensures TextJson(e, a[i]) == TextJson(e', b[i]) {
        assert x[i] == y[i];
      }
    }
  }

  lemma ResourceParts(e: Encoder, a: Resource, e': Encoder, b: Resource)
    ensures ResourceJson(e, a) == ResourceJson(e', b)
       <==> && HeadFields(e, a) == HeadFields(e', b) && Bounds(e, a) == Bounds(e', b)
            && Strings(e, a.identities) == Strings(e', b.identities)
  {
    hide TextJson, Strings, Bounds;
    var x, y := ResourceJson(e, a).fields, ResourceJson(e', b).fields;
    assert |HeadFields(e, a)| == 5 && |HeadFields(e', b)| == 5;
    assert x[..5] == HeadFields(e, a) && y[..5] == HeadFields(e', b);
    assert x[5..|x| - 1] == Bounds(e, a) && y[5..|y| - 1] == Bounds(e', b);
    assert x[|x| - 1].1 == Strings(e, a.identities) && y[|y| - 1].1 == Strings(e', b.identities);
  }

  lemma HeadParts(e: Encoder, a: Resource, e': Encoder, b: Resource)
    ensures HeadFields(e, a) == HeadFields(e', b)
       <==> && TextJson(e, a.id) == TextJson(e', b.id) && TextJson(e, a.kind) == TextJson(e', b.kind)
            && TextJson(e, a.address) == TextJson(e', b.address) && a.port == b.port
            && TextJson(e, a.protocol) == TextJson(e', b.protocol)
  {
    hide TextJson;
    var x, y := HeadFields(e, a), HeadFields(e', b);
    assert x == y <==> x[0] == y[0] && x[1] == y[1] && x[2] == y[2] && x[3] == y[3] && x[4] == y[4];
  }

  lemma MetaParts(e: Encoder, a: Meta, e': Encoder, b: Meta)
    ensures MetaJson(e, a) == MetaJson(e', b)
       <==> && TextJson(e, a.connectorId) == TextJson(e', b.connectorId) && a.version == b.version
            && TextJson(e, a.compiledAt) == TextJson(e', b.compiledAt)
            && TextJson(e, a.validUntil) == TextJson(e', b.validUntil)
            && TextJson(e, a.signature) == TextJson(e', b.signature)
  {
    hide TextJson;
    var x, y := MetaJson(e, a).fields, MetaJson(e', b).fields;
    assert x == y <==> x[0] == y[0] && x[1] == y[1] && x[2] == y[2] && x[3] == y[3] && x[4] == y[4];
  }

  lemma SnapshotParts(e: Encoder, a: Snapshot, e': Encoder, b: Snapshot)
    ensures SnapshotJson(e, a) == SnapshotJson(e', b)
       <==> MetaJson(e, a.meta) == MetaJson(e', b.meta) && |a.resources| == |b.resources|
            && forall i :: 0 <= i < |a.resources| ==>
                 ResourceJson(e, a.resources[i]) == ResourceJson(e', b.resources[i])
  {
    hide MetaJson, ResourceJson;
    var x, y := SnapshotJson(e, a).fields, SnapshotJson(e', b).fields;
    assert x[0] == ("snapshot_meta", MetaJson(e, a.meta)) && y[0] == ("snapshot_meta", MetaJson(e', b.meta));
    assert x == y <==> x[0] == y[0] && x[1] == y[1];
    var p, q := x[1].1.items, y[1].1.items;
    assert |p| == |a.resources| && |q| == |b.resources|;
    assert forall i :: 0 <= i < |p| ==> p[i] == ResourceJson(e, a.resources[i]);
    assert forall i :: 0 <= i < |q| ==> q[i] == ResourceJson(e', b.resources[i]);
    if MetaJson(e, a.meta) == MetaJson(e', b.meta) && |p| == |q|
       && (forall i :: 0 <= i < |p| ==> ResourceJson(e, a.resources[i]) == ResourceJson(e', b.resources[i])) {
      assert p == q;
    }
    if x == y {
      forall i | 0 <= i < |a.resources| ensures ResourceJson(e, a.resources[i]) == ResourceJson(e', b.resources[i]) {
        assert p[i] == q[i];
      }
    }
  }

  // ---------- When the two encoders write the same ----------

  predicate BothBounds(r: Resource) {
    r.portFrom.Some? && r.portTo.Some?
  }

  /** No text of the resource holds a character that only Go escapes. */
  predicate PlainResource(r: Resource) {
    && PlainText(r.id) && PlainText(r.kind) && PlainText(r.address) && PlainText(r.protocol)
    && forall identity <- r.identities :: PlainText(identity)
  }

  predicate PlainMeta(m: Meta) {
    PlainText(m.connectorId) && PlainText(m.compiledAt) && PlainText(m.validUntil) && PlainText(m.signature)
  }

  /** What the two encoders write alike: plain texts, and resources with both bounds. */
  predicate WrittenAlike(s: Snapshot) {
    PlainMeta(s.meta) && forall r <- s.resources :: BothBounds(r) && PlainResource(r)
  }

  lemma SameTextJson(s: string)
    ensures TextJson(GoEncoder, s) == TextJson(RustEncoder, s) <==> PlainText(s)
  {
    hide TextOf, PlainText;
    SameText(s);
  }

  lemma SameStrings(ss: seq<string>)
    ensures Strings(GoEncoder, ss) == Strings(RustEncoder, ss) <==> forall s <- ss :: PlainText(s)
  {
    hide TextJson, PlainText, Strings;
    StringsParts(GoEncoder, ss, RustEncoder, ss);
    forall i | 0 <= i < |ss| ensures TextJson(GoEncoder, ss[i]) == TextJson(RustEncoder, ss[i]) <==> PlainText(ss[i]) {
      SameTextJson(ss[i]);
    }
    assert (forall s <- ss :: PlainText(s)) <==> (forall i :: 0 <= i < |ss| ==> PlainText(ss[i]));
  }

  lemma SameBounds(r: Resource)
    ensures Bounds(GoEncoder, r) == Bounds(RustEncoder, r) <==> BothBounds(r)
  {
    assert |Bounds(RustEncoder, r)| == 2;
  }

  lemma SameResourceJson(r: Resource)
    ensures ResourceJson(GoEncoder, r) == ResourceJson(RustEncoder, r) <==> BothBounds(r) && PlainResource(r)
  {
    hide TextJson, Strings, Bounds, HeadFields, ResourceJson, PlainText, BothBounds;
    ResourceParts(GoEncoder, r, RustEncoder, r);
    HeadParts(GoEncoder, r, RustEncoder, r);
    SameTextJson(r.id);
    SameTextJson(r.kind);
    SameTextJson(r.address);
    SameTextJson(r.protocol);
    SameBounds(r);
    SameStrings(r.identities);
  }

  lemma SameMetaJson(m: Meta)
    ensures MetaJson(GoEncoder, m) == MetaJson(RustEncoder, m) <==> PlainMeta(m)
  {
    hide TextJson, MetaJson, PlainText;
    MetaParts(GoEncoder, m, RustEncoder, m);
    SameTextJson(m.connectorId);
    SameTextJson(m.compiledAt);
    SameTextJson(m.validUntil);
    SameTextJson(m.signature);
  }

  /** The Rust connector re-creates what the Go controller signed exactly for snapshots written alike. */
  lemma SameJson(s: Snapshot)
    ensures SnapshotJson(GoEncoder, s) == SnapshotJson(RustEncoder, s) <==> WrittenAlike(s)
  {
    hide MetaJson, ResourceJson, SnapshotJson, PlainMeta, PlainResource, BothBounds;
    SnapshotParts(GoEncoder, s, RustEncoder, s);
    SameMetaJson(s.meta);
    forall i | 0 <= i < |s.resources|
      ensures ResourceJson(GoEncoder, s.resources[i]) == ResourceJson(RustEncoder, s.resources[i])
         <==> BothBounds(s.resources[i]) && PlainResource(s.resources[i])
    {
      SameResourceJson(s.resources[i]);
    }
    assert (forall r <- s.resources :: BothBounds(r) && PlainResource(r)) <==>
           (forall i :: 0 <= i < |s.resources| ==> BothBounds(s.resources[i]) && PlainResource(s.resources[i]));
  }
}
