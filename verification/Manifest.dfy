/**
 The public manifest (`manifest.rs`): its semantic checks, its wire form, and what its
 decoder keeps. An extension map is read and dropped, so several byte strings can decode to
 one manifest.
 */
module Manifest {
  import opened Octets
  import opened Cbor
  import opened CborValues
  import opened Geometry

  const MAX_OBJECTS := 1024
  const ROLE_PRIMARY: U64 := 0
  const ROLE_SIDECAR: U64 := 5
  const PADDING_FIXED_BUCKET: U64 := 3
  const ROUTE_STEALTH_TRANSFER: U64 := 3
  const CAPABILITY_SCHEME: U64 := 1

  datatype ManifestError = Encoding | UnknownCriticalField | UnsupportedVersion | UnsupportedSuite | InvalidValue
      | TooManyObjects

  datatype ObjectPublic = ObjectPublic(objectId: Bytes, role: U64, root: Bytes, ciphertextSize: U64,
                                       chunkCiphertextSize: U64, chunkCount: U64, padding: U64) {
    ghost predicate Sized() {
      |objectId| == ID_LEN && |root| == ID_LEN
    }

    /** The role and the padding are ones the protocol defines. */
    predicate Known() {
      role <= ROLE_SIDECAR && padding <= PADDING_FIXED_BUCKET
    }
  }

  datatype PublicManifest = PublicManifest(minor: U64, suite: U64, transferId: Bytes, createdAt: U64, expiresAt: U64,
                                           route: U64,
                                           objects: seq<ObjectPublic>, privateHash: Bytes, scheme: U64) {
    ghost predicate Sized() {
      && |transferId| == ID_LEN && |privateHash| == ID_LEN
      && |objects| < U64_LIMIT && AllSized(objects)
    }

    /** The suite, the route and the objects are ones the protocol defines. */
    predicate Known() {
      && suite == SUITE_ID && route <= ROUTE_STEALTH_TRANSFER && |objects| <= MAX_OBJECTS
      && forall k :: 0 <= k < |objects| ==> objects[k].Known()
    }
  }

  ghost predicate AllSized(objects: seq<ObjectPublic>) {
    forall k :: 0 <= k < |objects| ==> objects[k].Sized()
  }

  // --- Semantic checks ---

  predicate Plausible(o: ObjectPublic) {
    WindowAccepts(o.ciphertextSize, o.chunkCiphertextSize, o.chunkCount)
  }

  predicate DistinctIds(objects: seq<ObjectPublic>) {
    forall i, j :: 0 <= i < j < |objects| ==> objects[i].objectId != objects[j].objectId
  }

  /** Exactly one object is the primary one. */
  ghost predicate OnePrimary(objects: seq<ObjectPublic>) {
    exists p: nat :: p < |objects| && IsOnlyPrimary(objects, p)
  }

  ghost predicate IsOnlyPrimary(objects: seq<ObjectPublic>, p: nat)
    requires p < |objects|
  {
    forall k :: 0 <= k < |objects| ==> (objects[k].role == ROLE_PRIMARY <==> k == p)
  }

  /** What a manifest must satisfy beyond its shape. */
  ghost predicate Valid(m: PublicManifest) {
    && m.createdAt < m.expiresAt && m.scheme == CAPABILITY_SCHEME
    && OnePrimary(m.objects) && DistinctIds(m.objects)
    && forall k :: 0 <= k < |m.objects| ==> Plausible(m.objects[k])
  }

  /** How many objects are primary. */
  method CountPrimaries(objects: seq<ObjectPublic>) returns (count: nat)
    ensures count == 1 <==> OnePrimary(objects)
  {
    count := 0;
    ghost var first: nat, second: nat := 0, 0;
    for i := 0 to |objects|
      invariant count == 0 ==> forall k :: 0 <= k < i ==> objects[k].role != ROLE_PRIMARY
      invariant count >= 1 ==> first < i && objects[first].role == ROLE_PRIMARY
      invariant count == 1 ==> forall k :: 0 <= k < i && k != first ==> objects[k].role != ROLE_PRIMARY
      invariant count >= 2 ==> second < i && second != first && objects[second].role == ROLE_PRIMARY
    {
      if objects[i].role == ROLE_PRIMARY {
        first, second := if count == 0 then i else first, if count == 1 then i else second;
        count := count + 1;
      }
    }
    if count == 1 {
      assert IsOnlyPrimary(objects, first);
    } else if count >= 2 {
      TwoIsNotOne(objects, first, second);
    } else {
      NoneIsNotOne(objects);
    }
  }

  lemma NoneIsNotOne(objects: seq<ObjectPublic>)
    requires forall k :: 0 <= k < |objects| ==> objects[k].role != ROLE_PRIMARY
    ensures !OnePrimary(objects)
  {
    forall p: nat | p < |objects| ensures !IsOnlyPrimary(objects, p) {
      assert objects[p].role != ROLE_PRIMARY;
    }
  }

  lemma TwoIsNotOne(objects: seq<ObjectPublic>, i: nat, j: nat)
    requires i < |objects| && j < |objects| && i != j && objects[i].role == objects[j].role == ROLE_PRIMARY
    ensures !OnePrimary(objects)
  {
    forall p: nat | p < |objects| ensures !IsOnlyPrimary(objects, p) {
      assert objects[if p == i then j else i].role == ROLE_PRIMARY;
    }
  }

  /** `validate`: accepts exactly the valid manifests. */
  method Validate(m: PublicManifest) returns (r: Result<(), ManifestError>)
    ensures r.Ok? <==> Valid(m)
    ensures r.Err? ==> r.error == ManifestError.InvalidValue
  {
    hide Plausible, OnePrimary;
    if m.objects == [] {
      NoneIsNotOne(m.objects);
      return Err(ManifestError.InvalidValue);
    }
    if m.expiresAt <= m.createdAt || m.scheme != CAPABILITY_SCHEME {
      return Err(ManifestError.InvalidValue);
    }
    var primaries := CountPrimaries(m.objects);
    if primaries != 1 {
      return Err(ManifestError.InvalidValue);
    }
    var seen: set<Bytes> := {};
    for i := 0 to |m.objects|
      invariant forall id :: id in seen <==> exists k :: 0 <= k < i && m.objects[k].objectId == id
      invariant DistinctIds(m.objects[..i])
      invariant forall k :: 0 <= k < i ==> Plausible(m.objects[k])
    {
      var o := m.objects[i];
      if o.objectId in seen {
        return Err(ManifestError.InvalidValue);
      }
      seen := seen + {o.objectId};
      if !Plausible(o) {
        return Err(ManifestError.InvalidValue);
      }
    }
    assert m.objects[..|m.objects|] == m.objects;
    return Ok(());
  }

  /** Every object of a valid manifest has the wire size some file of its chunk count produces. */
  lemma ValidObjectsAreProducible(m: PublicManifest, k: nat)
    requires Valid(m) && k < |m.objects| && m.objects[k].chunkCount <= MAX_CHUNK_COUNT
    requires m.objects[k].chunkCiphertextSize < U32_LIMIT
    ensures var o := m.objects[k];
            && o.chunkCiphertextSize >= TAG_LEN && AllowedChunkSize(o.chunkCiphertextSize - TAG_LEN)
            && Producible(o.ciphertextSize, o.chunkCiphertextSize - TAG_LEN, o.chunkCount)
  {
    hide AllowedChunkSize, OnePrimary, DistinctIds, Producible;
    var o := m.objects[k];
    assert Plausible(o);
    assert (o.chunkCiphertextSize - TAG_LEN) % U32_LIMIT == o.chunkCiphertextSize - TAG_LEN;
    WindowIsExact(o.ciphertextSize, o.chunkCiphertextSize - TAG_LEN, o.chunkCount);
  }

  // --- Encoding, with the extension maps a sender may add ---

  function PutObjectEnd(extension: Option<Bytes>, tail: Bytes): Bytes {
    if extension.Some? then PutUint(7, extension.value + tail) else tail
  }

  /** An object's map, with an extension at key 7 if there is one. */
  function PutObject(o: ObjectPublic, extension: Option<Bytes>, tail: Bytes): Bytes
    requires o.Sized()
  {
    PutMap(if extension.Some? then 8 else 7,
      PutUint(0, PutBytes(o.objectId, PutUint(1, PutUint(o.role, PutUint(2, PutBytes(o.root, PutUint(3,
        PutUint(o.ciphertextSize,
      PutUint(4, PutUint(o.chunkCiphertextSize, PutUint(5, PutUint(o.chunkCount, PutUint(6, PutUint(o.padding,
      PutObjectEnd(extension, tail))))))))))))))))
  }

  function PutObjects(objects: seq<ObjectPublic>, extensions: seq<Option<Bytes>>, tail: Bytes): Bytes
    requires AllSized(objects) && |extensions| == |objects|
  {
    if objects == [] then tail
    else PutObject(objects[0], extensions[0], PutObjects(objects[1..], extensions[1..], tail))
  }

  /** Keys 8 to 10. */
  function PutEnd(m: PublicManifest, extension: Option<Bytes>): Bytes
    requires m.Sized()
  {
    PutUint(8, PutBytes(m.privateHash, PutUint(9, PutUint(m.scheme,
      if extension.Some? then PutUint(10, extension.value) else []))))
  }

  /** Keys 7 to 10. */
  function PutRest(m: PublicManifest, extensions: seq<Option<Bytes>>, extension: Option<Bytes>): Bytes
    requires m.Sized() && |extensions| == |m.objects|
  {
    PutUint(7, PutArray(|m.objects|, PutObjects(m.objects, extensions, PutEnd(m, extension))))
  }

  function PutManifest(m: PublicManifest, extensions: seq<Option<Bytes>>, extension: Option<Bytes>): Bytes
    requires m.Sized() && |extensions| == |m.objects|
  {
    PutMap(if extension.Some? then 11 else 10,
      PutUint(0, PutUint(PROTOCOL_MAJOR, PutUint(1, PutUint(m.minor, PutUint(2, PutUint(m.suite,
      PutUint(3, PutBytes(m.transferId, PutUint(4, PutUint(m.createdAt, PutUint(5, PutUint(m.expiresAt,
      PutUint(6, PutUint(m.route, PutRest(m, extensions, extension))))))))))))))))
  }

  function Plain(m: PublicManifest): seq<Option<Bytes>> {
    seq(|m.objects|, _ => None)
  }

  /** `encode` writes no extension. */
  function Encode(m: PublicManifest): Bytes
    requires m.Sized()
  {
    PutManifest(m, Plain(m), None)
  }

  // --- Decoding ---

  /** The end of a map that may carry an extension under one last key; any other key is critical. */
  function ReadEnd(m: MapReader, key: U64): Result<Cursor, ManifestError> {
    var (found, m1) :- OrElse(m.NextKey(), Encoding);
    if found.None? then Ok(m1.reader)
    else if found.value != key then Err(UnknownCriticalField)
    else
      var c :- OrElse(SkipExtension(m1.reader), Encoding);
      var (more, m2) :- OrElse(m1.(reader := c).NextKey(), Encoding);
      if more.Some? then Err(UnknownCriticalField) else Ok(m2.reader)
  }

  function ReadObject(c: Cursor): Result<(ObjectPublic, Cursor), ManifestError> {
    var m :- OrElse(c.Map(), Encoding);
    var (objectId, m0) :- OrElse(m.KeyBlobOf(0, ID_LEN), Encoding);
    var (role, m1) :- OrElse(m0.KeyUint(1), Encoding);
    var (root, m2) :- OrElse(m1.KeyBlobOf(2, ID_LEN), Encoding);
    var (ciphertextSize, m3) :- OrElse(m2.KeyUint(3), Encoding);
    var (chunkCiphertextSize, m4) :- OrElse(m3.KeyUint(4), Encoding);
    var (chunkCount, m5) :- OrElse(m4.KeyUint(5), Encoding);
    var (padding, m6) :- OrElse(m5.KeyUint(6), Encoding);
    var c' :- ReadEnd(m6, 7);
    var o := ObjectPublic(objectId, role, root, ciphertextSize, chunkCiphertextSize, chunkCount, padding);
    if o.Known() then Ok((o, c')) else Err(ManifestError.InvalidValue)
  }

  function ReadObjects(n: nat, c: Cursor): Result<(seq<ObjectPublic>, Cursor), ManifestError> {
    if n == 0 then Ok(([], c))
    else
      var (o, c1) :- ReadObject(c);
      var (rest, c2) :- ReadObjects(n - 1, c1);
      Ok(([o] + rest, c2))
  }

  /** Keys 7 to 10, to the end of the input. */
  function ReadRest(m: MapReader): Result<(seq<ObjectPublic>, Bytes, U64), ManifestError> {
    var m7 :- OrElse(m.Key(7), Encoding);
    var (n, c) :- OrElse(m7.reader.Array(), Encoding);
    if n > MAX_OBJECTS then Err(TooManyObjects)
    else
      var (objects, c') :- ReadObjects(n, c);
      var (privateHash, m8) :- OrElse(m7.(reader := c'.Leave()).KeyBlobOf(8, ID_LEN), Encoding);
      var (scheme, m9) :- OrElse(m8.KeyUint(9), Encoding);
      var end :- ReadEnd(m9, 10);
      var _ :- OrElse(end.Finish(), Encoding);
      Ok((objects, privateHash, scheme))
  }

  ghost function Decode(bytes: Bytes): Result<PublicManifest, ManifestError> {
    var c :- OrElse(Control(bytes), Encoding);
    var m :- OrElse(c.Map(), Encoding);
    var (major, m0) :- OrElse(m.KeyUint(0), Encoding);
    if major != PROTOCOL_MAJOR then Err(UnsupportedVersion)
    else
      var (minor, m1) :- OrElse(m0.KeyUint(1), Encoding);
      var (suite, m2) :- OrElse(m1.KeyUint(2), Encoding);
      if suite != SUITE_ID then Err(UnsupportedSuite)
      else
        var (transferId, m3) :- OrElse(m2.KeyBlobOf(3, ID_LEN), Encoding);
        var (createdAt, m4) :- OrElse(m3.KeyUint(4), Encoding);
        var (expiresAt, m5) :- OrElse(m4.KeyUint(5), Encoding);
        var (route, m6) :- OrElse(m5.KeyUint(6), Encoding);
        if route > ROUTE_STEALTH_TRANSFER then Err(ManifestError.InvalidValue)
        else
          var (objects, privateHash, scheme) :- ReadRest(m6);
          var decoded := PublicManifest(minor, suite, transferId, createdAt, expiresAt, route, objects, privateHash,
                                        scheme);
          if Valid(decoded) then Ok(decoded) else Err(ManifestError.InvalidValue)
  }

  // --- What was accepted, but for extensions, is the canonical encoding ---

  const TOP_DEPTH := 1
  const OBJECT_DEPTH := 3

  /** An extension, where there is one, is a whole map at its depth. */
  ghost predicate Proper(extension: Option<Bytes>, depth: nat) {
    extension.Some? ==> IsExtension(extension.value, depth)
  }

  ghost predicate AllProper(extensions: seq<Option<Bytes>>) {
    forall k :: 0 <= k < |extensions| ==> Proper(extensions[k], OBJECT_DEPTH)
  }

  lemma EndShape(m: MapReader, key: U64) returns (extension: Option<Bytes>)
    requires ReadEnd(m, key).Ok? && m.reader.depth > 0
    ensures var c := ReadEnd(m, key).value;
            && c.depth == m.reader.depth - 1
            && m.remaining == (if extension.Some? then 1 else 0)
            && m.reader.buf == (if extension.Some? then PutUint(key, extension.value + c.buf) else c.buf)
    ensures Proper(extension, m.reader.depth)
  {
    hide PutUint, SkipExtension;
    var (found, m1) := m.NextKey().value;
    if found.None? {
      extension := None;
    } else {
      var front := SkippedIsExtension(m1.reader);
      extension := Some(front);
    }
  }

  lemma ObjectShape(c: Cursor) returns (extension: Option<Bytes>)
    requires ReadObject(c).Ok?
    ensures var (o, c') := ReadObject(c).value;
            o.Sized() && o.Known() && c'.depth == c.depth && c.buf == PutObject(o, extension, c'.buf)
    ensures Proper(extension, c.depth + 1)
  {
    hide PutHead, PutUint, PutBytes, ReadEnd, Cursor.Map, MapReader.KeyUint, MapReader.KeyBlobOf;
    var m2 := c.Map().value.KeyBlobOf(0, ID_LEN).value.1.KeyUint(1).value.1.KeyBlobOf(2, ID_LEN).value.1;
    var m6 := m2.KeyUint(3).value.1.KeyUint(4).value.1.KeyUint(5).value.1.KeyUint(6).value.1;
    extension := EndShape(m6, 7);
  }

  lemma {:induction false} ObjectsShape(n: nat, c: Cursor) returns (extensions: seq<Option<Bytes>>)
    requires ReadObjects(n, c).Ok? && c.depth + 1 == OBJECT_DEPTH
    ensures var (objects, c') := ReadObjects(n, c).value;
            && |objects| == n == |extensions| && AllSized(objects) && c'.depth == c.depth
            && (forall k :: 0 <= k < n ==> objects[k].Known())
            && c.buf == PutObjects(objects, extensions, c'.buf)
    ensures AllProper(extensions)
  {
    hide PutObject, ReadObject, Proper, ObjectPublic.Known;
    if n == 0 {
      extensions := [];
    } else {
      var (o, c1) := ReadObject(c).value;
      var first := ObjectShape(c);
      var rest := ObjectsShape(n - 1, c1);
      var objects := ReadObjects(n - 1, c1).value.0;
      assert ([o] + objects)[1..] == objects && ([first] + rest)[1..] == rest;
      extensions := [first] + rest;
    }
  }

  lemma RestShape(m: MapReader, decoded: PublicManifest)
    returns (extensions: seq<Option<Bytes>>, extension: Option<Bytes>)
    requires ReadRest(m).Ok? && m.reader.depth == TOP_DEPTH
    requires ReadRest(m).value == (decoded.objects, decoded.privateHash, decoded.scheme)
    requires |decoded.transferId| == ID_LEN && decoded.suite == SUITE_ID && decoded.route <= ROUTE_STEALTH_TRANSFER
    ensures decoded.Sized() && decoded.Known() && |extensions| == |decoded.objects|
    ensures m.remaining == (if extension.Some? then 4 else 3)
    ensures m.reader.buf == PutRest(decoded, extensions, extension)
    ensures AllProper(extensions) && Proper(extension, TOP_DEPTH)
  {
    hide PutHead, PutUint, PutBytes, PutArray, ReadEnd, ReadObjects, PutObjects, Cursor.Array, MapReader.Key,
         MapReader.KeyUint, MapReader.KeyBlobOf, Proper, AllProper, AllSized, ObjectPublic.Known;
    var m7 := m.Key(7).value;
    var (n, c) := m7.reader.Array().value;
    extensions := ObjectsShape(n, c);
    var m9 := m7.(reader := ReadObjects(n, c).value.1.Leave()).KeyBlobOf(8, ID_LEN).value.1.KeyUint(9).value.1;
    extension := EndShape(m9, 10);
    if extension.Some? {
      assert extension.value + [] == extension.value;
    }
  }

  /** Bytes that decode are the encoding of a known and valid manifest, with nothing but whole extension maps added. */
  lemma DecodedShape(bytes: Bytes) returns (extensions: seq<Option<Bytes>>, extension: Option<Bytes>)
    requires Decode(bytes).Ok?
    ensures var m := Decode(bytes).value;
            && m.Sized() && m.Known() && Valid(m)
            && |extensions| == |m.objects| && bytes == PutManifest(m, extensions, extension)
    ensures AllProper(extensions) && Proper(extension, TOP_DEPTH) && |bytes| <= MAX_CONTROL_SIZE
  {
    hide PutHead, PutUint, PutBytes, ReadRest, PutRest, Valid, Cursor.Map, MapReader.KeyUint,
         MapReader.KeyBlobOf, Proper, AllProper, AllSized, PublicManifest.Known;
    var m3 := Cursor(bytes, 0).Map().value.KeyUint(0).value.1.KeyUint(1).value.1.KeyUint(2).value.1
              .KeyBlobOf(3, ID_LEN).value.1;
    var m6 := m3.KeyUint(4).value.1.KeyUint(5).value.1.KeyUint(6).value.1;
    extensions, extension := RestShape(m6, Decode(bytes).value);
  }

  // --- Equal encodings are of equal manifests ---

  lemma ObjectPeels(a: ObjectPublic, e: Option<Bytes>, x: Bytes, b: ObjectPublic, f: Option<Bytes>, y: Bytes)
    requires a.Sized() && b.Sized() && PutObject(a, e, x) == PutObject(b, f, y)
    ensures a == b && e.Some? == f.Some? && PutObjectEnd(e, x) == PutObjectEnd(f, y)
  {
    hide PutUint, PutBytes, PutMap, PutObjectEnd;
    Peels();
  }

  /** Bytes that are a plain encoding carry no extension, and only the objects they encode. */
  lemma {:induction false} ObjectsPeel(a: seq<ObjectPublic>, e: seq<Option<Bytes>>, x: Bytes, b: seq<ObjectPublic>,
                                       y: Bytes)
    requires AllSized(a) && AllSized(b) && |a| == |b| == |e|
    requires PutObjects(a, e, x) == PutObjects(b, seq(|b|, _ => None), y)
    ensures a == b && x == y && forall k :: 0 <= k < |e| ==> e[k].None?
    decreases |a|
  {
    hide PutObject;
    if a != [] {
      var none := seq(|b| - 1, _ => None);
      assert seq(|b|, _ => None)[1..] == none;
      ObjectPeels(a[0], e[0], PutObjects(a[1..], e[1..], x), b[0], None, PutObjects(b[1..], none, y));
      ObjectsPeel(a[1..], e[1..], x, b[1..], y);
    }
  }

  lemma EndPeels(a: PublicManifest, b: PublicManifest)
    requires a.Sized() && b.Sized() && PutEnd(a, None) == PutEnd(b, None)
    ensures a.privateHash == b.privateHash && a.scheme == b.scheme
  {
    hide PutUint, PutBytes, AllSized;
    Peels();
  }

  /** Bytes that are the plain encoding of one manifest are no other manifest's, with or without extensions. */
  lemma ManifestPeels(a: PublicManifest, extensions: seq<Option<Bytes>>, extension: Option<Bytes>, b: PublicManifest)
    requires a.Sized() && b.Sized() && |extensions| == |a.objects| && PutManifest(a, extensions, extension) == Encode(b)
    ensures a == b && extension.None? && extensions == Plain(a)
  {
    hide PutUint, PutBytes, PutMap, PutRest, AllSized;
    Peels();
    RestPeels(a, extensions, extension, b);
  }

  lemma RestPeels(a: PublicManifest, extensions: seq<Option<Bytes>>, extension: Option<Bytes>, b: PublicManifest)
    requires a.Sized() && b.Sized() && |extensions| == |a.objects| && extension.None?
    requires PutRest(a, extensions, extension) == PutRest(b, Plain(b), None)
    ensures a.objects == b.objects && a.privateHash == b.privateHash && a.scheme == b.scheme && extensions == Plain(a)
  {
    hide PutUint, PutArray, PutObjects, PutEnd, AllSized;
    Peels();
    ObjectsPeel(a.objects, extensions, PutEnd(a, extension), b.objects, PutEnd(b, None));
    EndPeels(a, b);
  }

  /** `encode` is injective. */
  lemma EncodeInjective(a: PublicManifest, b: PublicManifest)
    requires a.Sized() && b.Sized() && Encode(a) == Encode(b)
    ensures a == b
  {
    hide PutManifest;
    ManifestPeels(a, Plain(a), None, b);
  }

  // --- Encodings read back, and extensions are dropped ---

  lemma EndReads(key: U64, extension: Option<Bytes>, tail: Bytes, d: nat, last: U64)
    requires last < key && d > 0 && Proper(extension, d)
    ensures var buf := if extension.Some? then PutUint(key, extension.value + tail) else tail;
            ReadEnd(MapReader(Cursor(buf, d), if extension.Some? then 1 else 0, Some(last)), key) ==
                Ok(Cursor(tail, d - 1))
  {
    hide PutHead, PutUint, Cursor.Uint, SkipExtension;
    ReadsBack();
    if extension.Some? {
      ExtensionSkips(extension.value, d, tail);
    }
  }

  lemma ObjectReads(o: ObjectPublic, extension: Option<Bytes>, tail: Bytes, d: nat)
    requires o.Sized() && o.Known() && d < MAX_DEPTH && Proper(extension, d + 1)
    ensures ReadObject(Cursor(PutObject(o, extension, tail), d)) == Ok((o, Cursor(tail, d)))
  {
    hide PutHead, PutUint, PutBytes, PutMap, Cursor.Uint, Cursor.Blob, Cursor.Map, ReadEnd, Proper;
    ReadsBack();
    EndReads(7, extension, tail, d + 1, 6);
  }

  lemma {:induction false} ObjectsRead(objects: seq<ObjectPublic>, extensions: seq<Option<Bytes>>, tail: Bytes)
    requires AllSized(objects) && |extensions| == |objects| && AllProper(extensions)
    requires forall k :: 0 <= k < |objects| ==> objects[k].Known()
    ensures ReadObjects(|objects|, Cursor(PutObjects(objects, extensions, tail), 2)) == Ok((objects, Cursor(tail, 2)))
    decreases |objects|
  {
    hide PutObject, ReadObject, Proper, ObjectPublic.Known;
    if objects != [] {
      ObjectReads(objects[0], extensions[0], PutObjects(objects[1..], extensions[1..], tail), 2);
      ObjectsRead(objects[1..], extensions[1..], tail);
      assert [objects[0]] + objects[1..] == objects;
    }
  }

  lemma RestReads(m: PublicManifest, extensions: seq<Option<Bytes>>, extension: Option<Bytes>)
    requires m.Sized() && m.Known() && |extensions| == |m.objects| && AllProper(extensions) &&
             Proper(extension, TOP_DEPTH)
    ensures var left := if extension.Some? then 4 else 3;
            ReadRest(MapReader(Cursor(PutRest(m, extensions, extension), TOP_DEPTH), left, Some(6))) ==
            Ok((m.objects, m.privateHash, m.scheme))
  {
    hide PutHead, PutUint, PutBytes, PutArray, PutMap, PutObjects, ReadObjects, ReadEnd, AllSized, AllProper, Proper,
         Cursor.Uint, Cursor.Blob, Cursor.Array, ObjectPublic.Known;
    ReadsBack();
    ObjectsRead(m.objects, extensions, PutEnd(m, extension));
    EndReads(10, extension, [], TOP_DEPTH, 9);
    if extension.Some? {
      assert extension.value + [] == extension.value;
    }
  }

  /** A known manifest reads back exactly when it is valid, whatever extensions came with it, as far as it fits. */
  lemma ManifestReads(m: PublicManifest, extensions: seq<Option<Bytes>>, extension: Option<Bytes>)
    requires m.Sized() && m.Known() && |extensions| == |m.objects| && AllProper(extensions) &&
             Proper(extension, TOP_DEPTH)
    ensures Decode(PutManifest(m, extensions, extension)) ==
            if |PutManifest(m, extensions, extension)| > MAX_CONTROL_SIZE then Err(Encoding)
            else if Valid(m) then Ok(m)
            else Err(ManifestError.InvalidValue)
  {
    hide PutHead, PutUint, PutBytes, PutMap, PutRest, ReadRest, AllSized, AllProper, Proper, Valid,
         Cursor.Uint, Cursor.Blob, Cursor.Map, ObjectPublic.Known;
    ReadsBack();
    RestReads(m, extensions, extension);
  }

  /** Bytes that carry a manifest: its encoding with some extensions, within the size of a control object. */
  ghost predicate Carries(bytes: Bytes, m: PublicManifest) {
    && m.Sized() && |bytes| <= MAX_CONTROL_SIZE
    && exists extensions, extension :: CarriesWith(bytes, m, extensions, extension)
  }

  ghost predicate CarriesWith(bytes: Bytes, m: PublicManifest, extensions: seq<Option<Bytes>>, extension: Option<Bytes>)
    requires m.Sized()
  {
    && |extensions| == |m.objects| && AllProper(extensions) && Proper(extension, TOP_DEPTH)
    && bytes == PutManifest(m, extensions, extension)
  }

  /** The decoder accepts exactly the bytes that carry a known and valid manifest, and returns that manifest. */
  lemma DecodesExactly(bytes: Bytes, m: PublicManifest)
    ensures Decode(bytes) == Ok(m) <==> Carries(bytes, m) && m.Known() && Valid(m)
  {
    hide Decode, Valid, PutManifest, AllProper, Proper, PublicManifest.Known, PublicManifest.Sized;
    if Decode(bytes) == Ok(m) {
      var extensions, extension := DecodedShape(bytes);
      assert CarriesWith(bytes, m, extensions, extension);
    }
    if Carries(bytes, m) && m.Known() {
      var extensions, extension :| CarriesWith(bytes, m, extensions, extension);
      ManifestReads(m, extensions, extension);
    }
  }

  // --- What `encode` writes ---

  lemma {:induction false} ObjectsShort(objects: seq<ObjectPublic>, tail: Bytes)
    requires AllSized(objects)
    ensures |PutObjects(objects, seq(|objects|, _ => None), tail)| <= 250 * |objects| + |tail|
    decreases |objects|
  {
    hide PutObject;
    if objects != [] {
      var none := seq(|objects| - 1, _ => None);
      assert seq(|objects|, _ => None)[1..] == none;
      ObjectShort(objects[0], PutObjects(objects[1..], none, tail));
      ObjectsShort(objects[1..], tail);
    }
  }

  lemma ObjectShort(o: ObjectPublic, tail: Bytes)
    requires o.Sized()
    ensures |PutObject(o, None, tail)| <= 250 + |tail|
  {
    hide PutUint, PutBytes, PutMap;
    Lengths();
  }

  lemma PlainShort(m: PublicManifest)
    requires m.Sized() && |m.objects| <= MAX_OBJECTS
    ensures |Encode(m)| <= MAX_CONTROL_SIZE
  {
    hide PutUint, PutBytes, PutMap, PutArray, PutObjects, AllSized;
    Lengths();
    ObjectsShort(m.objects, PutEnd(m, None));
  }

  /** What `encode` writes is read back exactly for known and valid manifests. */
  lemma EncodedReads(m: PublicManifest)
    requires m.Sized()
    ensures if m.Known() && Valid(m) then Decode(Encode(m)) == Ok(m) else Decode(Encode(m)).Err?
  {
    hide Decode, Valid, PutManifest, ObjectPublic.Known, AllSized;
    if m.Known() {
      PlainShort(m);
      ManifestReads(m, Plain(m), None);
    } else if Decode(Encode(m)).Ok? {
      var extensions, extension := DecodedShape(Encode(m));
      ManifestPeels(Decode(Encode(m)).value, extensions, extension, m);
    }
  }

  /** The smallest extension: an empty map. */
  function EmptyMap(): Bytes {
    PutMap(0, [])
  }

  lemma EmptyMapSkips(d: nat)
    requires d < MAX_DEPTH
    ensures IsExtension(EmptyMap(), d)
  {
    hide PutHead, PutMap, Cursor.Map;
    ReadsBack();
  }

  lemma ExtendedShort(m: PublicManifest)
    requires m.Sized() && |m.objects| <= MAX_OBJECTS
    ensures |PutManifest(m, Plain(m), Some(EmptyMap()))| <= MAX_CONTROL_SIZE
  {
    hide PutUint, PutBytes, PutMap, PutArray, PutObjects, AllSized;
    Lengths();
    ObjectsShort(m.objects, PutEnd(m, Some(EmptyMap())));
  }

  /** So the decoded manifest does not determine the bytes: every one of them has bytes with an extension too. */
  lemma ExtensionIsDropped(m: PublicManifest) returns (other: Bytes)
    requires m.Sized() && m.Known() && Valid(m)
    ensures other != Encode(m)
    ensures Decode(other) == Ok(m)
  {
    hide PutManifest, ObjectPublic.Known, AllSized, Valid, Decode, EmptyMap, IsExtension;
    EmptyMapSkips(TOP_DEPTH);
    ExtendedShort(m);
    ManifestReads(m, Plain(m), Some(EmptyMap()));
    other := PutManifest(m, Plain(m), Some(EmptyMap()));
    if other == Encode(m) {
      ManifestPeels(m, Plain(m), Some(EmptyMap()), m);
    }
  }

  /** And it does exactly when there was none: decoded bytes re-encode to themselves iff no extension was added. */
  lemma ReencodesIffPlain(bytes: Bytes) returns (extensions: seq<Option<Bytes>>, extension: Option<Bytes>)
    requires Decode(bytes).Ok?
    ensures var m := Decode(bytes).value;
            && m.Sized() && |extensions| == |m.objects| && bytes == PutManifest(m, extensions, extension)
            && (bytes == Encode(m) <==> extension.None? && forall k :: 0 <= k < |extensions| ==> extensions[k].None?)
  {
    hide PutManifest, ObjectPublic.Known, AllSized, Valid, Decode;
    extensions, extension := DecodedShape(bytes);
    var m := Decode(bytes).value;
    if bytes == Encode(m) {
      ManifestPeels(m, extensions, extension, m);
    }
    assert (forall k :: 0 <= k < |extensions| ==> extensions[k].None?) ==> extensions == Plain(m);
  }

  // --- A manifest of one empty file ---

  function EmptyFileManifest(privateHash: Bytes): PublicManifest {
    var o := ObjectPublic(NoId(), ROLE_PRIMARY, NoId(), 0, 64 * KIB + TAG_LEN, 0, 0);
    PublicManifest(0, SUITE_ID, NoId(), 0, 1, 0, [o], privateHash, CAPABILITY_SCHEME)
  }

  lemma EmptyFileIsValid(privateHash: Bytes)
    requires |privateHash| == ID_LEN
    ensures var m := EmptyFileManifest(privateHash);
            m.Sized() && m.Known() && Valid(m) && m.privateHash == privateHash && m.expiresAt == 1
    ensures |Encode(EmptyFileManifest(privateHash))| < U64_LIMIT
  {
    hide Encode, PutManifest;
    var m := EmptyFileManifest(privateHash);
    assert IsOnlyPrimary(m.objects, 0);
    PlainShort(m);
  }
}
