/**
 Values of RTP-CBOR beyond the fixed fields (`cbor.rs`, `manifest.rs`): text, and values of
 any shape that are read and passed over.
 */
module CborValues {
  import opened Octets
  import opened Cbor

  // --- Text ---

  /** Well-formed UTF-8, by the table of section 4 of RFC 3629. */
  predicate Utf8(s: Bytes) {
    if s == [] then true
    else if s[0].Derived? then false
    else
      var b := s[0].b;
      if b < 0x80 then Utf8(s[1..])
      else if 0xC2 <= b <= 0xDF then Continues(s, 1, 0x80, 0xBF) && Utf8(s[2..])
      else if b == 0xE0 then Continues(s, 2, 0xA0, 0xBF) && Utf8(s[3..])
      else if b == 0xED then Continues(s, 2, 0x80, 0x9F) && Utf8(s[3..])
      else if 0xE1 <= b <= 0xEF then Continues(s, 2, 0x80, 0xBF) && Utf8(s[3..])
      else if b == 0xF0 then Continues(s, 3, 0x90, 0xBF) && Utf8(s[4..])
      else if b == 0xF4 then Continues(s, 3, 0x80, 0x8F) && Utf8(s[4..])
      else if 0xF1 <= b <= 0xF3 then Continues(s, 3, 0x80, 0xBF) && Utf8(s[4..])
      else false
  }

  /** `n` continuation bytes follow, the first of them within its own bounds. */
  predicate Continues(s: Bytes, n: nat, low: Byte, high: Byte)
    requires 0 < |s|
  {
    && n < |s|
    && (forall k :: 1 <= k <= n ==> s[k].Lit? && 0x80 <= s[k].b <= 0xBF)
    && (n > 0 ==> low <= s[1].b <= high)
  }

  function PutText(value: Bytes, tail: Bytes): Bytes
    requires |value| < U64_LIMIT
  {
    PutHead(MAJOR_TEXT, |value|, value + tail)
  }

  function ReadText(c: Cursor): (r: Result<(Bytes, Cursor), CborError>)
    ensures r.Ok? ==> |r.value.1.buf| < |c.buf| && r.value.1.depth == c.depth
  {
    var (len, c1) :- c.Item(MAJOR_TEXT);
    var (raw, rest) :- Take(c1.buf, len);
    if Utf8(raw) then Ok((raw, Cursor(rest, c.depth))) else Err(InvalidUtf8)
  }

  // --- Skipping a value ---

  /** Any value of the deterministic subset is passed over; what it holds is not kept. */
  function SkipValue(c: Cursor): (r: Result<Cursor, CborError>)
    ensures r.Ok? ==> |r.value.buf| < |c.buf| && r.value.depth == c.depth
    decreases |c.buf|, 0, 0
  {
    if c.buf == [] then Err(Truncated)
    else if c.buf[0].Derived? then Err(ForbiddenType)
    else
      var major := MajorOf(c.buf[0].b);
      if major == MAJOR_UINT then
        var (_, c1) :- c.Uint();
        Ok(c1)
      else if major == MAJOR_BYTES then
        var (_, c1) :- c.Blob();
        Ok(c1)
      else if major == MAJOR_TEXT then
        var (_, c1) :- ReadText(c);
        Ok(c1)
      else if major == MAJOR_ARRAY then
        var (n, c1) :- c.Array();
        var c2 :- SkipMany(n, c1);
        Ok(c2.Leave())
      else if major == MAJOR_MAP then
        var m :- c.Map();
        SkipEntries(m)
      else Err(ForbiddenType)
  }

  function SkipMany(n: nat, c: Cursor): (r: Result<Cursor, CborError>)
    ensures r.Ok? ==> |r.value.buf| <= |c.buf| && r.value.depth == c.depth
    decreases |c.buf|, 1, n
  {
    if n == 0 then Ok(c)
    else
      var c1 :- SkipValue(c);
      SkipMany(n - 1, c1)
  }

  function SkipEntries(m: MapReader): (r: Result<Cursor, CborError>)
    ensures r.Ok? ==> |r.value.buf| <= |m.reader.buf| && (m.reader.depth > 0 ==> r.value.depth == m.reader.depth - 1)
    decreases |m.reader.buf|, 1, 0
  {
    var (key, m1) :- m.NextKey();
    if key.None? then Ok(m1.reader)
    else
      var c :- SkipValue(m1.reader);
      SkipEntries(m1.(reader := c))
  }

  function SkipExtension(c: Cursor): (r: Result<Cursor, CborError>)
    ensures r.Ok? ==> |r.value.buf| < |c.buf| && r.value.depth == c.depth
  {
    var m :- c.Map();
    SkipEntries(m)
  }

  // --- What is skipped is a front of the input ---

  /** The second is what is left of the first after some of its front. */
  ghost predicate EndsIn(s: Bytes, t: Bytes) {
    |t| <= |s| && s[|s| - |t|..] == t
  }

  lemma EndsInOn(s: Bytes, t: Bytes, u: Bytes)
    requires EndsIn(s, t) && EndsIn(t, u)
    ensures EndsIn(s, u)
  {
  }

  lemma PutEndsIn(major: Major, value: U64, tail: Bytes)
    ensures EndsIn(PutHead(major, value, tail), tail)
  {
  }

  lemma {:induction false} SkipValueEndsIn(c: Cursor)
    requires SkipValue(c).Ok?
    ensures EndsIn(c.buf, SkipValue(c).value.buf)
    decreases |c.buf|, 0, 0
  {
    hide PutHead, EndsIn, Utf8, Cursor.Item, MapReader.NextKey;
    var major := MajorOf(c.buf[0].b);
    if major == MAJOR_UINT {
      var (v, c1) := c.Uint().value;
      PutEndsIn(MAJOR_UINT, v, c1.buf);
    } else if major == MAJOR_BYTES || major == MAJOR_TEXT {
      var (len, c1) := c.Item(major).value;
      PutEndsIn(major, len, c1.buf);
      TakeEndsIn(c1.buf, len);
      EndsInOn(c.buf, c1.buf, SkipValue(c).value.buf);
    } else if major == MAJOR_ARRAY {
      var (n, c1) := c.Array().value;
      PutEndsIn(MAJOR_ARRAY, n, c1.buf);
      Shorter(MAJOR_ARRAY, n, c1.buf);
      SkipManyEndsIn(n, c1);
      EndsInOn(c.buf, c1.buf, SkipValue(c).value.buf);
    } else {
      var m := c.Map().value;
      PutEndsIn(MAJOR_MAP, m.remaining, m.reader.buf);
      Shorter(MAJOR_MAP, m.remaining, m.reader.buf);
      SkipEntriesEndsIn(m);
      EndsInOn(c.buf, m.reader.buf, SkipValue(c).value.buf);
    }
  }

  lemma Shorter(major: Major, value: U64, tail: Bytes)
    ensures |tail| < |PutHead(major, value, tail)|
  {
  }

  lemma TakeEndsIn(buf: Bytes, n: nat)
    requires Take(buf, n).Ok?
    ensures EndsIn(buf, Take(buf, n).value.1)
  {
  }

  lemma {:induction false} SkipManyEndsIn(n: nat, c: Cursor)
    requires SkipMany(n, c).Ok?
    ensures EndsIn(c.buf, SkipMany(n, c).value.buf)
    decreases |c.buf|, 1, n
  {
    hide SkipValue;
    if n > 0 {
      var c1 := SkipValue(c).value;
      SkipValueEndsIn(c);
      SkipManyEndsIn(n - 1, c1);
      EndsInOn(c.buf, c1.buf, SkipMany(n, c).value.buf);
    }
  }

  lemma {:induction false} SkipEntriesEndsIn(m: MapReader)
    requires SkipEntries(m).Ok?
    ensures EndsIn(m.reader.buf, SkipEntries(m).value.buf)
    decreases |m.reader.buf|, 1, 0
  {
    hide SkipValue, PutHead;
    var (key, m1) := m.NextKey().value;
    if key.Some? {
      PutEndsIn(MAJOR_UINT, key.value, m1.reader.buf);
      Shorter(MAJOR_UINT, key.value, m1.reader.buf);
      SkipValueEndsIn(m1.reader);
      var c := SkipValue(m1.reader).value;
      SkipEntriesEndsIn(m1.(reader := c));
      EndsInOn(m1.reader.buf, c.buf, SkipEntries(m).value.buf);
      EndsInOn(m.reader.buf, m1.reader.buf, SkipEntries(m).value.buf);
    }
  }

  /** What an extension skips is a front of the input. */
  lemma ExtensionIsFront(c: Cursor) returns (extension: Bytes)
    requires SkipExtension(c).Ok?
    ensures extension != [] && c.buf == extension + SkipExtension(c).value.buf
  {
    hide SkipExtension, EndsIn;
    ExtensionEndsIn(c);
    extension := FrontOf(c.buf, SkipExtension(c).value.buf);
  }

  lemma ExtensionEndsIn(c: Cursor)
    requires SkipExtension(c).Ok?
    ensures EndsIn(c.buf, SkipExtension(c).value.buf)
  {
    hide PutHead, SkipEntries, EndsIn, Cursor.Map, MapReader.NextKey;
    var m := c.Map().value;
    PutEndsIn(MAJOR_MAP, m.remaining, m.reader.buf);
    SkipEntriesEndsIn(m);
    EndsInOn(c.buf, m.reader.buf, SkipExtension(c).value.buf);
  }

  lemma FrontOf(s: Bytes, t: Bytes) returns (front: Bytes)
    requires EndsIn(s, t)
    ensures s == front + t && (|t| < |s| ==> front != [])
  {
    front := s[..|s| - |t|];
  }

  // --- Skipping does not depend on what follows ---

  /** The same front with another end. */
  function Swap(s: Bytes, t: Bytes, u: Bytes): Bytes
    requires |t| <= |s|
  {
    s[..|s| - |t|] + u
  }

  function SwapEnd(c: Cursor, t: Bytes, u: Bytes): Cursor
    requires |t| <= |c.buf|
  {
    Cursor(Swap(c.buf, t, u), c.depth)
  }

  lemma HeadSwaps(buf: Bytes, t: Bytes, u: Bytes)
    requires Head(buf).Ok? && EndsIn(Head(buf).value.2, t)
    ensures |t| <= |buf|
    ensures var (major, value, rest) := Head(buf).value; Head(Swap(buf, t, u)) == Ok((major, value, Swap(rest, t, u)))
  {
    hide HeadFrom, Header;
    var (major, value, rest) := Head(buf).value;
    var swapped := Swap(rest, t, u);
    assert Swap(buf, t, u) == PutHead(major, value, swapped);
    HeadReads(major, value, swapped);
  }

  lemma ItemSwaps(c: Cursor, major: Major, t: Bytes, u: Bytes)
    requires c.Item(major).Ok? && EndsIn(c.Item(major).value.1.buf, t)
    ensures |t| <= |c.buf|
    ensures var (v, c') := c.Item(major).value; SwapEnd(c, t, u).Item(major) == Ok((v, SwapEnd(c', t, u)))
  {
    hide Head, Swap, EndsIn, PutHead;
    HeadSwaps(c.buf, t, u);
    EndsShorter(c.Item(major).value.1.buf, t);
  }

  lemma EndsShorter(s: Bytes, t: Bytes)
    requires EndsIn(s, t)
    ensures |t| <= |s|
  {
  }

  lemma TakeSwaps(buf: Bytes, n: nat, t: Bytes, u: Bytes)
    requires Take(buf, n).Ok? && EndsIn(Take(buf, n).value.1, t)
    ensures |t| <= |buf|
    ensures var (raw, rest) := Take(buf, n).value; Take(Swap(buf, t, u), n) == Ok((raw, Swap(rest, t, u)))
  {
    var rest := buf[n..];
    var swapped := Swap(buf, t, u);
    assert swapped[..n] == buf[..n] && swapped[n..] == Swap(rest, t, u);
  }

  lemma FirstStays(c: Cursor, t: Bytes, u: Bytes)
    requires |t| < |c.buf|
    ensures SwapEnd(c, t, u).buf != [] && SwapEnd(c, t, u).buf[0] == c.buf[0]
  {
  }

  lemma StringSwaps(c: Cursor, major: Major, t: Bytes, u: Bytes)
    requires major == MAJOR_BYTES || major == MAJOR_TEXT
    requires c.Item(major).Ok? && Take(c.Item(major).value.1.buf, c.Item(major).value.0).Ok?
    requires EndsIn(Take(c.Item(major).value.1.buf, c.Item(major).value.0).value.1, t)
    ensures EndsIn(c.Item(major).value.1.buf, t) && |t| <= |c.buf|
    ensures var (len, c1) := c.Item(major).value;
            var (raw, rest) := Take(c1.buf, len).value;
            && |t| <= |c1.buf| && |t| <= |rest|
            && SwapEnd(c, t, u).Item(major) == Ok((len, SwapEnd(c1, t, u)))
            && Take(SwapEnd(c1, t, u).buf, len) == Ok((raw, Swap(rest, t, u)))
  {
    hide Cursor.Item, EndsIn, Swap;
    var (len, c1) := c.Item(major).value;
    TakeEndsIn(c1.buf, len);
    EndsInOn(c1.buf, Take(c1.buf, len).value.1, t);
    EndsShorter(c1.buf, t);
    EndsShorter(Take(c1.buf, len).value.1, t);
    ItemSwaps(c, major, t, u);
    TakeSwaps(c1.buf, len, t, u);
  }

  lemma {:induction false} SkipValueSwaps(c: Cursor, t: Bytes, u: Bytes)
    requires SkipValue(c).Ok? && EndsIn(SkipValue(c).value.buf, t)
    ensures |t| <= |SkipValue(c).value.buf| < |c.buf|
    ensures SkipValue(SwapEnd(c, t, u)) == Ok(SwapEnd(SkipValue(c).value, t, u))
    decreases |c.buf|, 0, 0
  {
    hide PutHead, EndsIn, Utf8, Cursor.Item, Swap, Take;
    var major, rest := MajorOf(c.buf[0].b), SkipValue(c).value;
    EndsShorter(rest.buf, t);
    FirstStays(c, t, u);
    if major == MAJOR_UINT {
      ItemSwaps(c, MAJOR_UINT, t, u);
    } else if major == MAJOR_BYTES || major == MAJOR_TEXT {
      StringSwaps(c, major, t, u);
    } else if major == MAJOR_ARRAY {
      var (n, c1) := c.Array().value;
      Shorter(MAJOR_ARRAY, n, c1.buf);
      SkipManyEndsIn(n, c1);
      EndsInOn(c1.buf, rest.buf, t);
      ItemSwaps(c, MAJOR_ARRAY, t, u);
      SkipManySwaps(n, c1, t, u);
    } else {
      var m := c.Map().value;
      Shorter(MAJOR_MAP, m.remaining, m.reader.buf);
      SkipEntriesEndsIn(m);
      EndsInOn(m.reader.buf, rest.buf, t);
      ItemSwaps(c, MAJOR_MAP, t, u);
      SkipEntriesSwaps(m, t, u);
    }
  }

  lemma {:induction false} SkipManySwaps(n: nat, c: Cursor, t: Bytes, u: Bytes)
    requires SkipMany(n, c).Ok? && EndsIn(SkipMany(n, c).value.buf, t)
    ensures |t| <= |SkipMany(n, c).value.buf| <= |c.buf|
    ensures SkipMany(n, SwapEnd(c, t, u)) == Ok(SwapEnd(SkipMany(n, c).value, t, u))
    decreases |c.buf|, 1, n
  {
    hide SkipValue, EndsIn, Swap;
    EndsShorter(SkipMany(n, c).value.buf, t);
    if n > 0 {
      var c1 := SkipValue(c).value;
      SkipManyEndsIn(n - 1, c1);
      EndsInOn(c1.buf, SkipMany(n, c).value.buf, t);
      SkipValueSwaps(c, t, u);
      SkipManySwaps(n - 1, c1, t, u);
    }
  }

  lemma {:induction false} SkipEntriesSwaps(m: MapReader, t: Bytes, u: Bytes)
    requires SkipEntries(m).Ok? && EndsIn(SkipEntries(m).value.buf, t)
    ensures |t| <= |SkipEntries(m).value.buf| <= |m.reader.buf|
    ensures SkipEntries(m.(reader := SwapEnd(m.reader, t, u))) == Ok(SwapEnd(SkipEntries(m).value, t, u))
    decreases |m.reader.buf|, 1, 0
  {
    hide SkipValue, PutHead, EndsIn, Swap, Cursor.Item;
    EndsShorter(SkipEntries(m).value.buf, t);
    var (key, m1) := m.NextKey().value;
    if key.Some? {
      var c := SkipValue(m1.reader).value;
      Shorter(MAJOR_UINT, key.value, m1.reader.buf);
      SkipEntriesEndsIn(m1.(reader := c));
      EndsInOn(c.buf, SkipEntries(m).value.buf, t);
      SkipValueEndsIn(m1.reader);
      EndsInOn(m1.reader.buf, c.buf, t);
      ItemSwaps(m.reader, MAJOR_UINT, t, u);
      SkipValueSwaps(m1.reader, t, u);
      SkipEntriesSwaps(m1.(reader := c), t, u);
    }
  }

  // --- Extension maps ---

  /** These bytes are one map, at this depth, that is skipped whole. */
  ghost predicate IsExtension(x: Bytes, depth: nat) {
    SkipExtension(Cursor(x, depth)) == Ok(Cursor([], depth))
  }

  lemma ExtensionSwaps(c: Cursor, t: Bytes, u: Bytes)
    requires SkipExtension(c).Ok? && EndsIn(SkipExtension(c).value.buf, t)
    ensures |t| <= |SkipExtension(c).value.buf| <= |c.buf|
    ensures SkipExtension(SwapEnd(c, t, u)) == Ok(SwapEnd(SkipExtension(c).value, t, u))
  {
    hide PutHead, EndsIn, Swap, Cursor.Item, SkipEntries;
    var m := c.Map().value;
    SkipEntriesEndsIn(m);
    EndsInOn(m.reader.buf, SkipExtension(c).value.buf, t);
    ItemSwaps(c, MAJOR_MAP, t, u);
    SkipEntriesSwaps(m, t, u);
  }

  /** An extension is skipped whatever follows it. */
  lemma ExtensionSkips(x: Bytes, depth: nat, tail: Bytes)
    requires IsExtension(x, depth)
    ensures SkipExtension(Cursor(x + tail, depth)) == Ok(Cursor(tail, depth))
  {
    hide SkipExtension;
    ExtensionSwaps(Cursor(x, depth), [], tail);
    assert Swap(x, [], tail) == x + tail && Swap([], [], tail) == tail;
  }

  /** What is skipped as an extension is one. */
  lemma SkippedIsExtension(c: Cursor) returns (x: Bytes)
    requires SkipExtension(c).Ok?
    ensures IsExtension(x, c.depth) && x != [] && c.buf == x + SkipExtension(c).value.buf
  {
    hide SkipExtension;
    x := ExtensionIsFront(c);
    var rest := SkipExtension(c).value.buf;
    assert EndsIn(rest, rest);
    ExtensionSwaps(c, rest, []);
    assert Swap(c.buf, rest, []) == x && Swap(rest, rest, []) == [];
  }
}
