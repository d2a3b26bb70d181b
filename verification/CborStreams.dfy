/**
 The mutable writer and reader of `cbor.rs`. The writer's buffer grows in place and the
 reader's position and depth move in place; each method is tied to the `Put` or `Cursor`
 function it implements.
 */
module CborStreams {
  import opened Octets
  import opened Cbor

  /** Each method names, as a ghost, the bytes that are still to be written after it. */
  class Writer {
    var out: Bytes

    constructor ()
      ensures out == []
    {
      out := [];
    }

    /** Shortest-form header, byte by byte. */
    method Head(major: Major, value: U64, ghost tail: Bytes)
      modifies this
      ensures out + tail == old(out) + PutHead(major, value, tail)
    {
      ghost var before := out;
      out := out + [Initial(major, Info(value))];
      if value < 24 {
      } else if value < U8_LIMIT {
        out := out + BigEndian(value, 1);
      } else if value < U16_LIMIT {
        out := out + BigEndian(value, 2);
      } else if value < U32_LIMIT {
        out := out + BigEndian(value, 4);
      } else {
        out := out + BigEndian(value, 8);
      }
      assert out == before + Header(major, value);
      assert out + tail == before + (Header(major, value) + tail);
    }

    method Uint(value: U64, ghost tail: Bytes)
      modifies this
      ensures out + tail == old(out) + PutUint(value, tail)
    {
      Head(MAJOR_UINT, value, tail);
    }

    method Blob(value: Bytes, ghost tail: Bytes)
      requires |value| < U64_LIMIT
      modifies this
      ensures out + tail == old(out) + PutBytes(value, tail)
    {
      Head(MAJOR_BYTES, |value|, value + tail);
      ghost var headed := out;
      out := out + value;
      assert out + tail == headed + (value + tail);
    }

    method Array(len: U64, ghost tail: Bytes)
      modifies this
      ensures out + tail == old(out) + PutArray(len, tail)
    {
      Head(MAJOR_ARRAY, len, tail);
    }

    method Map(len: U64, ghost tail: Bytes)
      modifies this
      ensures out + tail == old(out) + PutMap(len, tail)
    {
      Head(MAJOR_MAP, len, tail);
    }
  }

  /** A result of the mutable reader, and the state it leaves, follow a reading function. */
  ghost predicate Follows<T>(spec: Result<(T, Cursor), CborError>, r: Result<T, CborError>, after: Cursor) {
    match spec
    case Ok((v, c)) => r == Ok(v) && after == c
    case Err(e) => r == Err(e)
  }

  class Reader {
    const buf: Bytes
    var pos: nat
    var depth: nat

    ghost predicate Valid()
      reads this
    {
      pos <= |buf|
    }

    ghost function View(): Cursor
      requires Valid()
      reads this
    {
      Cursor(buf[pos..], depth)
    }

    constructor (buf: Bytes)
      ensures Valid() && this.buf == buf && View() == Cursor(buf, 0)
    {
      this.buf := buf;
      pos := 0;
      depth := 0;
    }

    method Take(n: nat) returns (r: Result<Bytes, CborError>)
      requires Valid()
      modifies this
      ensures Valid() && depth == old(depth)
      ensures match Cbor.Take(old(View().buf), n)
              case Ok((raw, rest)) => r == Ok(raw) && View().buf == rest
              case Err(e) => r == Err(e)
    {
      if |buf| - pos < n {
        return Err(Truncated);
      }
      r := Ok(buf[pos..pos + n]);
      assert buf[pos..][..n] == buf[pos..pos + n];
      assert buf[pos..][n..] == buf[pos + n..];
      pos := pos + n;
    }

    method Head() returns (r: Result<(Major, U64), CborError>)
      requires Valid()
      modifies this
      ensures Valid() && depth == old(depth)
      ensures match Cbor.Head(old(View().buf))
              case Ok((major, value, rest)) => r == Ok((major, value)) && View().buf == rest
              case Err(e) => r == Err(e)
    {
      var first :- Take(1);
      if first[0].Derived? {
        return Err(ForbiddenType);
      }
      var major, info := MajorOf(first[0].b), InfoOf(first[0].b);
      var value: U64 := info;
      if info >= 28 {
        return Err(ForbiddenType);
      }
      if info >= 24 {
        var n := if info == 24 then 1 else if info == 25 then 2 else if info == 26 then 4 else 8;
        var floor := if info == 24 then 24 else if info == 25 then U8_LIMIT else if info == 26 then U16_LIMIT
            else U32_LIMIT;
        var raw :- Take(n);
        var v := FromBigEndian(raw);
        if v.None? {
          return Err(ForbiddenType);
        }
        Pow256Values();
        if v.value < floor {
          return Err(NonCanonical);
        }
        value := v.value;
      }
      if major == MAJOR_SIMPLE && value != SIMPLE_FALSE && value != SIMPLE_TRUE {
        return Err(ForbiddenType);
      }
      return Ok((major, value));
    }

    method Item(major: Major) returns (r: Result<U64, CborError>)
      requires Valid()
      modifies this
      ensures Valid() && depth == old(depth)
      ensures Follows(old(View()).Item(major), r, View())
    {
      var found :- Head();
      if found.0 != major {
        return Err(UnexpectedType);
      }
      return Ok(found.1);
    }

    method Uint() returns (r: Result<U64, CborError>)
      requires Valid()
      modifies this
      ensures Valid() && Follows(old(View()).Uint(), r, View())
    {
      r := Item(MAJOR_UINT);
    }

    method Blob() returns (r: Result<Bytes, CborError>)
      requires Valid()
      modifies this
      ensures Valid() && Follows(old(View()).Blob(), r, View())
    {
      var len :- Item(MAJOR_BYTES);
      r := Take(len);
    }

    method BlobOf(n: nat) returns (r: Result<Bytes, CborError>)
      requires Valid()
      modifies this
      ensures Valid() && Follows(old(View()).BlobOf(n), r, View())
    {
      var raw :- Blob();
      if |raw| != n {
        return Err(InvalidValue);
      }
      return Ok(raw);
    }

    method Enter() returns (r: Result<(), CborError>)
      requires Valid()
      modifies this
      ensures Valid()
      ensures r.Ok? == old(View()).Enter().Ok?
      ensures r.Ok? ==> View() == old(View()).Enter().value
      ensures r.Err? ==> r.error == old(View()).Enter().error
    {
      depth := depth + 1;
      if depth > MAX_DEPTH {
        return Err(DepthExceeded);
      }
      return Ok(());
    }

    method Leave()
      requires Valid()
      modifies this
      ensures Valid() && View() == old(View()).Leave()
    {
      depth := if depth > 0 then depth - 1 else 0;
    }

    method Array() returns (r: Result<U64, CborError>)
      requires Valid()
      modifies this
      ensures Valid() && Follows(old(View()).Array(), r, View())
    {
      var len :- Item(MAJOR_ARRAY);
      var _ :- Enter();
      return Ok(len);
    }

    method Map() returns (r: Result<U64, CborError>)
      requires Valid()
      modifies this
      ensures Valid()
      ensures match old(View()).Map()
              case Ok(m) => r == Ok(m.remaining) && View() == m.reader && m.last == None
              case Err(e) => r == Err(e)
    {
      var len :- Item(MAJOR_MAP);
      var _ :- Enter();
      return Ok(len);
    }

    method Finish() returns (r: Result<(), CborError>)
      requires Valid()
      ensures r == View().Finish()
    {
      return if pos == |buf| then Ok(()) else Err(TrailingBytes);
    }
  }

  /** A map in progress on a reader it shares with its creator. */
  class MapStream {
    const reader: Reader
    var remaining: nat
    var last: Option<U64>

    ghost predicate Valid()
      reads this, reader
    {
      reader.Valid()
    }

    ghost function View(): MapReader
      requires Valid()
      reads this, reader
    {
      MapReader(reader.View(), remaining, last)
    }

    constructor (reader: Reader, entries: U64)
      requires reader.Valid()
      ensures this.reader == reader && Valid()
      ensures View() == MapReader(reader.View(), entries, None)
    {
      this.reader := reader;
      remaining := entries;
      last := None;
    }

    method NextKey() returns (r: Result<Option<U64>, CborError>)
      requires Valid()
      modifies this, reader
      ensures Valid()
      ensures match old(View()).NextKey()
              case Ok((key, m)) => r == Ok(key) && View() == m
              case Err(e) => r == Err(e)
    {
      if remaining == 0 {
        reader.Leave();
        return Ok(None);
      }
      remaining := remaining - 1;
      var key :- reader.Uint();
      if last.Some? && key <= last.value {
        return Err(KeyOrder);
      }
      last := Some(key);
      return Ok(Some(key));
    }

    method Key(key: U64) returns (r: Result<(), CborError>)
      requires Valid()
      modifies this, reader
      ensures Valid()
      ensures match old(View()).Key(key)
              case Ok(m) => r == Ok(()) && View() == m
              case Err(e) => r == Err(e)
    {
      var found :- NextKey();
      if found != Some(key) {
        return Err(MissingField(key));
      }
      return Ok(());
    }
  }
}
