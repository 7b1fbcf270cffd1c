/** The ordered binary header encoding, version 1: a strict printer and parser that are inverse to each other. */
module Headers {
  import opened RowModel

  type Byte = n: int | 0 <= n < 256

  type Bytes = seq<Byte>

  const VERSION: Byte := 1
  const MAX_UINT32 := 0xFFFF_FFFF

  /** A null header carries no bytes. */
  datatype Header = Header(key: Bytes, value: Bytes, isNull: bool)

  // ---- big-endian lengths ----

  function Limit(width: nat): (m: nat)
    ensures m >= 1
  {
    if width == 0 then 1 else 256 * Limit(width - 1)
  }

  function BigEndian(n: nat, width: nat): (b: Bytes)
    ensures |b| == width
  {
    if width == 0 then [] else BigEndian(n / 256, width - 1) + [n % 256]
  }

  function Number(b: Bytes): (n: nat)
    ensures n < Limit(|b|)
  {
    if b == [] then 0 else 256 * Number(b[..|b| - 1]) + b[|b| - 1]
  }

  lemma {:induction false} NumberOf(n: nat, width: nat)
    requires n < Limit(width)
    ensures Number(BigEndian(n, width)) == n
  {
    if width > 0 {
      NumberOf(n / 256, width - 1);
      assert BigEndian(n, width)[..width - 1] == BigEndian(n / 256, width - 1);
    }
  }

  lemma {:induction false} OfNumber(b: Bytes)
    ensures BigEndian(Number(b), |b|) == b
  {
    if b != [] {
      var front := b[..|b| - 1];
      OfNumber(front);
      assert Number(b) / 256 == Number(front) && Number(b) % 256 == b[|b| - 1];
      assert b == front + [b[|b| - 1]];
    }
  }

  lemma FourBytes()
    ensures Limit(4) == MAX_UINT32 + 1
  {
    assert Limit(1) == 256 && Limit(2) == 0x1_0000 && Limit(3) == 0x100_0000;
  }

  function U32(n: nat): (b: Bytes)
    ensures |b| == 4
  {
    BigEndian(n, 4)
  }

  function ReadU32(data: Bytes): (r: Option<(nat, Bytes)>)
    ensures r.Some? ==> r.value.0 <= MAX_UINT32 && |r.value.1| == |data| - 4
  {
    FourBytes();
    if |data| < 4 then None else Some((Number(data[..4]), data[4..]))
  }

  lemma U32Read(n: nat, rest: Bytes)
    requires n <= MAX_UINT32
    ensures ReadU32(U32(n) + rest) == Some((n, rest))
  {
    FourBytes();
    NumberOf(n, 4);
    assert (U32(n) + rest)[4..] == rest && (U32(n) + rest)[..4] == U32(n);
  }

  lemma ReadIsU32(data: Bytes)
    requires ReadU32(data).Some?
    ensures data == U32(ReadU32(data).value.0) + ReadU32(data).value.1
  {
    OfNumber(data[..4]);
    assert data == data[..4] + data[4..];
  }

  // ---- the format ----

  predicate ValidHeader(h: Header) { |h.key| <= MAX_UINT32 && |h.value| <= MAX_UINT32 && (h.isNull ==> h.value == []) }

  ghost predicate Encodable(headers: Option<seq<Header>>) {
    headers.Some? ==>
      |headers.value| <= MAX_UINT32 && forall i :: 0 <= i < |headers.value| ==> ValidHeader(headers.value[i])
  }

  function Flag(h: Header): Byte { if h.isNull then 1 else 0 }

  function EntryBytes(h: Header): (b: Bytes)
    ensures |b| >= 9
  {
    U32(|h.key|) + h.key + [Flag(h)] + U32(|h.value|) + h.value
  }

  ghost predicate AllValid(headers: seq<Header>) { forall i :: 0 <= i < |headers| ==> ValidHeader(headers[i]) }

  /** Printed one after another, and read one after another: the same for any entry format. */
  function PrintAll(print1: Header -> Bytes, headers: seq<Header>): Bytes {
    if headers == [] then [] else print1(headers[0]) + PrintAll(print1, headers[1..])
  }

  type Reader = Bytes -> Option<(Header, Bytes)>

  function ReadAll(read1: Reader, data: Bytes, count: nat): (r: Option<(seq<Header>, Bytes)>)
    decreases count
  {
    if count == 0 then Some(([], data)) else
      var first := read1(data);
      if first.None? then None else
        var rest := ReadAll(read1, first.value.1, count - 1);
        if rest.None? then None else Some(([first.value.0] + rest.value.0, rest.value.1))
  }

  lemma {:induction false} PrintAppend(print1: Header -> Bytes, a: seq<Header>, h: Header)
    ensures PrintAll(print1, a + [h]) == PrintAll(print1, a) + print1(h)
  {
    if a == [] {
      assert a + [h] == [h] && [h][1..] == [];
      assert print1(h) + [] == print1(h) && [] + print1(h) == print1(h);
    } else {
      PrintAppend(print1, a[1..], h);
      assert (a + [h])[1..] == a[1..] + [h];
      assert print1(a[0]) + (PrintAll(print1, a[1..]) + print1(h)) ==
        print1(a[0]) + PrintAll(print1, a[1..]) + print1(h);
    }
  }

  lemma {:induction false} ReadPrinted(read1: Reader, print1: Header -> Bytes, headers: seq<Header>, rest: Bytes)
    requires forall h, tail :: h in headers ==> read1(print1(h) + tail) == Some((h, tail))
    ensures ReadAll(read1, PrintAll(print1, headers) + rest, |headers|) == Some((headers, rest))
    decreases |headers|
  {
    if headers == [] {
      assert [] + rest == rest;
    } else {
      var tail := PrintAll(print1, headers[1..]) + rest;
      ReadPrinted(read1, print1, headers[1..], rest);
      assert PrintAll(print1, headers) + rest == print1(headers[0]) + tail;
      assert headers == [headers[0]] + headers[1..];
    }
  }

  lemma {:induction false} PrintRead(read1: Reader, print1: Header -> Bytes, data: Bytes, count: nat)
    requires forall d :: read1(d).Some? ==> d == print1(read1(d).value.0) + read1(d).value.1
    requires ReadAll(read1, data, count).Some?
    ensures var r := ReadAll(read1, data, count).value;
            |r.0| == count && data == PrintAll(print1, r.0) + r.1
    decreases count
  {
    if count == 0 {
      assert [] + data == data;
    } else {
      var first := read1(data).value;
      PrintRead(read1, print1, first.1, count - 1);
      var rest := ReadAll(read1, first.1, count - 1).value;
      assert ([first.0] + rest.0)[1..] == rest.0;
      assert print1(first.0) + (PrintAll(print1, rest.0) + rest.1) ==
        print1(first.0) + PrintAll(print1, rest.0) + rest.1;
    }
  }

  lemma {:induction false} ReadValid(read1: Reader, data: Bytes, count: nat)
    requires forall d :: read1(d).Some? ==> ValidHeader(read1(d).value.0)
    requires ReadAll(read1, data, count).Some?
    ensures AllValid(ReadAll(read1, data, count).value.0)
    decreases count
  {
    if count > 0 { ReadValid(read1, read1(data).value.1, count - 1); }
  }

  function EntriesBytes(headers: seq<Header>): Bytes { PrintAll(EntryBytes, headers) }

  /** What EncodeHeaders produces; an absent list and an empty one differ. */
  ghost function Encoding(headers: Option<seq<Header>>): Bytes
    requires Encodable(headers)
  {
    if headers.None? then [VERSION, 0] else [VERSION, 1] + (U32(|headers.value|) + EntriesBytes(headers.value))
  }

  // ---- encoding ----

  method EncodeEntry(h: Header) returns (r: Option<Bytes>)
    ensures r == if ValidHeader(h) then Some(EntryBytes(h)) else None
  {
    if h.isNull && |h.value| > 0 { return None; }
    if |h.key| > MAX_UINT32 || |h.value| > MAX_UINT32 { return None; }
    var flag: Byte := 0;
    if h.isNull { flag := 1; }
    return Some(U32(|h.key|) + h.key + [flag] + U32(|h.value|) + h.value);
  }

  method EncodeEntries(list: seq<Header>) returns (r: Option<Bytes>)
    ensures r.Some? <==> AllValid(list)
    ensures r.Some? ==> r.value == EntriesBytes(list)
  {
    var out: Bytes := [];
    for k := 0 to |list|
      invariant AllValid(list[..k]) && out == PrintAll(EntryBytes, list[..k])
    {
      var entry := EncodeEntry(list[k]);
      if entry.None? { return None; }
      PrintAppend(EntryBytes, list[..k], list[k]);
      assert list[..k + 1] == list[..k] + [list[k]];
      out := out + entry.value;
    }
    assert list[..|list|] == list;
    return Some(out);
  }

  method EncodeHeaders(headers: Option<seq<Header>>) returns (r: Option<Bytes>)
    ensures r.Some? <==> Encodable(headers)
    ensures r.Some? ==> r.value == Encoding(headers)
  {
    if headers.None? { return Some([VERSION, 0]); }
    if |headers.value| > MAX_UINT32 { return None; }
    var entries := EncodeEntries(headers.value);
    if entries.None? { return None; }
    return Some([VERSION, 1] + (U32(|headers.value|) + entries.value));
  }

  // ---- decoding ----

  /** A length, then that many bytes. */
  function ReadBytes(data: Bytes): (r: Option<(Bytes, Bytes)>)
    ensures r.Some? ==> |r.value.0| <= MAX_UINT32
  {
    var n := ReadU32(data);
    if n.None? || n.value.0 > |n.value.1| then None
    else Some((n.value.1[..n.value.0], n.value.1[n.value.0..]))
  }

  function ReadEntry(data: Bytes): (r: Option<(Header, Bytes)>)
    ensures r.Some? ==> ValidHeader(r.value.0)
  {
    var key := ReadBytes(data);
    if key.None? || key.value.1 == [] || key.value.1[0] > 1 then None else
      var value := ReadBytes(key.value.1[1..]);
      if value.None? || (key.value.1[0] == 1 && value.value.0 != []) then None
      else Some((Header(key.value.0, value.value.0, key.value.1[0] == 1), value.value.1))
  }

  /** What DecodeHeaders accepts and gives. */
  function Decoding(data: Bytes): (r: Option<Option<seq<Header>>>) {
    if |data| < 2 || data[0] != VERSION || data[1] > 1 then None
    else if data[1] == 0 then (if |data| == 2 then Some(None) else None)
    else
      var count := ReadU32(data[2..]);
      if count.None? || count.value.0 > |count.value.1| / 9 then None else
        var entries := ReadAll(ReadEntry, count.value.1, count.value.0);
        if entries.None? || entries.value.1 != [] then None else Some(Some(entries.value.0))
  }

  function Prepended(out: seq<Header>, rest: Option<(seq<Header>, Bytes)>): Option<(seq<Header>, Bytes)> {
    if rest.None? then None else Some((out + rest.value.0, rest.value.1))
  }

  lemma PrependedNone(rest: Option<(seq<Header>, Bytes)>)
    ensures Prepended([], rest) == rest
  {
    if rest.Some? { assert [] + rest.value.0 == rest.value.0; }
  }

  lemma PrependedMore(read1: Reader, out: seq<Header>, data: Bytes, count: nat)
    requires count > 0
    ensures Prepended(out, ReadAll(read1, data, count))
            == var first := read1(data);
               if first.None? then None else Prepended(out + [first.value.0], ReadAll(read1, first.value.1, count - 1))
  {
    var first := read1(data);
    if first.Some? {
      var rest := ReadAll(read1, first.value.1, count - 1);
      if rest.Some? { assert out + ([first.value.0] + rest.value.0) == out + [first.value.0] + rest.value.0; }
    }
  }

  method DecodeEntry(data: Bytes) returns (r: Option<(Header, Bytes)>)
    ensures r == ReadEntry(data)
  {
    var key := ReadBytes(data);
    if key.None? || key.value.1 == [] || key.value.1[0] > 1 { return None; }
    var flag := key.value.1[0];
    var value := ReadBytes(key.value.1[1..]);
    if value.None? || (flag == 1 && value.value.0 != []) { return None; }
    return Some((Header(key.value.0, value.value.0, flag == 1), value.value.1));
  }

  method DecodeEntries(data: Bytes, n: nat) returns (r: Option<(seq<Header>, Bytes)>)
    ensures r == ReadAll(ReadEntry, data, n)
  {
    var rest, out: seq<Header> := data, [];
    ghost var read1: Reader := ReadEntry;
    PrependedNone(ReadAll(read1, data, n));
    for k := 0 to n
      invariant ReadAll(read1, data, n) == Prepended(out, ReadAll(read1, rest, n - k))
    {
      PrependedMore(read1, out, rest, n - k);
      var entry := DecodeEntry(rest);
      if entry.None? { return None; }
      out, rest := out + [entry.value.0], entry.value.1;
    }
    assert out + [] == out;
    return Some((out, rest));
  }

  method DecodeHeaders(data: Bytes) returns (r: Option<Option<seq<Header>>>)
    ensures r == Decoding(data)
  {
    if |data| < 2 || data[0] != VERSION || data[1] > 1 { return None; }
    if data[1] == 0 { return if |data| == 2 then Some(None) else None; }
    var count := ReadU32(data[2..]);
    if count.None? || count.value.0 > |count.value.1| / 9 { return None; }
    var entries := DecodeEntries(count.value.1, count.value.0);
    if entries.None? || entries.value.1 != [] { return None; }
    return Some(Some(entries.value.0));
  }

  // ---- inverse ----

  lemma BytesRead(b: Bytes, rest: Bytes)
    requires |b| <= MAX_UINT32
    ensures ReadBytes(U32(|b|) + b + rest) == Some((b, rest))
  {
    assert U32(|b|) + b + rest == U32(|b|) + (b + rest);
    U32Read(|b|, b + rest);
    assert (b + rest)[..|b|] == b && (b + rest)[|b|..] == rest;
  }

  lemma EntryRead(h: Header, rest: Bytes)
    requires ValidHeader(h)
    ensures ReadEntry(EntryBytes(h) + rest) == Some((h, rest))
  {
    var tail := U32(|h.value|) + h.value + rest;
    assert EntryBytes(h) + rest == U32(|h.key|) + h.key + ([Flag(h)] + tail);
    BytesRead(h.key, [Flag(h)] + tail);
    assert ([Flag(h)] + tail)[1..] == tail;
    BytesRead(h.value, rest);
  }

  /** Nine bytes an entry: the count guard rejects no encoding. */
  lemma {:induction false} NineEach(headers: seq<Header>)
    ensures 9 * |headers| <= |EntriesBytes(headers)|
  {
    if headers != [] { NineEach(headers[1..]); }
  }

  lemma EntriesRead(list: seq<Header>)
    requires forall h :: h in list ==> ValidHeader(h)
    ensures ReadAll(ReadEntry, EntriesBytes(list), |list|) == Some((list, []))
  {
    forall h, tail | h in list ensures ReadEntry(EntryBytes(h) + tail) == Some((h, tail)) { EntryRead(h, tail); }
    ReadPrinted(ReadEntry, EntryBytes, list, []);
    assert EntriesBytes(list) + [] == EntriesBytes(list);
  }

  /** Decoding an encoding gives back the list, absent kept apart from empty. */
  lemma DecodeEncode(headers: Option<seq<Header>>)
    requires Encodable(headers)
    ensures Decoding(Encoding(headers)) == Some(headers)
  {
    if headers.Some? {
      var list := headers.value;
      var body := U32(|list|) + EntriesBytes(list);
      assert ([VERSION, 1] + body)[2..] == body;
      U32Read(|list|, EntriesBytes(list));
      NineEach(list);
      EntriesRead(list);
    }
  }

  lemma ReadIsBytes(data: Bytes)
    requires ReadBytes(data).Some?
    ensures var r := ReadBytes(data).value;
            data == U32(|r.0|) + r.0 + r.1
  {
    ReadIsU32(data);
    var n := ReadU32(data).value;
    assert n.1 == n.1[..n.0] + n.1[n.0..];
    assert U32(n.0) + (n.1[..n.0] + n.1[n.0..]) == U32(n.0) + n.1[..n.0] + n.1[n.0..];
  }

  lemma ReadIsEntry(data: Bytes)
    requires ReadEntry(data).Some?
    ensures var r := ReadEntry(data).value;
            data == EntryBytes(r.0) + r.1
  {
    var key := ReadBytes(data).value;
    ReadIsBytes(data);
    var value := ReadBytes(key.1[1..]).value;
    ReadIsBytes(key.1[1..]);
    var h := ReadEntry(data).value.0;
    assert key.1 == [Flag(h)] + key.1[1..];
    var k := U32(|h.key|) + h.key;
    var v := U32(|h.value|) + h.value;
    assert k + ([Flag(h)] + (v + value.1)) == k + [Flag(h)] + U32(|h.value|) + h.value + value.1;
  }

  /** Bytes that decode are exactly the encoding of what they decode to. */
  lemma EncodeDecode(data: Bytes)
    requires Decoding(data).Some?
    ensures Encodable(Decoding(data).value) && Encoding(Decoding(data).value) == data
  {
    assert data == data[..2] + data[2..];
    if data[1] == 1 {
      ReadIsU32(data[2..]);
      var count := ReadU32(data[2..]).value;
      forall d | ReadEntry(d).Some? ensures d == EntryBytes(ReadEntry(d).value.0) + ReadEntry(d).value.1 {
        ReadIsEntry(d);
      }
      PrintRead(ReadEntry, EntryBytes, count.1, count.0);
      ReadValid(ReadEntry, count.1, count.0);
      var list := ReadAll(ReadEntry, count.1, count.0).value.0;
      assert EntriesBytes(list) + [] == EntriesBytes(list);
      assert data[..2] == [VERSION, 1];
    } else {
      assert data == [VERSION, 0];
    }
  }
}
