/** The binary form of a saved rule set, and of the fakeip address ranges. */
module RecordCodecs {
  import opened Wrappers
  import opened ByteStream

  // ----- SavedBinary -----

  /** A point in time: only the seconds are saved. */
  datatype Time = Time(seconds: Int64, nanoseconds: nat)

  datatype SavedBinary = SavedBinary(content: seq<Byte>, lastUpdated: Time, lastEtag: seq<Byte>)

  /**
   The lengths a slice cannot have on a platform: 2^63 and more everywhere, and whatever is beyond
   its largest allocation.
   */
  type Limit = n: nat | 0 < n <= INT64_LIMIT witness 1

  /** The parts are slices, so they are shorter than the limit. */
  predicate Representable(s: SavedBinary, limit: Limit) {
    |s.content| < limit && |s.lastEtag| < limit
  }

  function Encode(s: SavedBinary): seq<Byte> {
    [1] + Uvarint(|s.content|) + s.content + Int64Bytes(s.lastUpdated.seconds)
    + Uvarint(|s.lastEtag|) + s.lastEtag
  }

  /** What reading comes to: a value and the bytes behind it, an error, or a panic. */
  datatype Reading<+T> = Read(value: T, rest: seq<Byte>) | Failed | Panics

  /** A length, then as many bytes; making the slice for them comes first. */
  function ParseBlock(d: seq<Byte>, limit: Limit): Reading<seq<Byte>> {
    match ParseUvarint(d, 0)
    case None => Failed
    case Some((n, d1)) =>
      if n >= limit then Panics else
      match Take(d1, n)
      case None => Failed
      case Some((block, rest)) => Read(block, rest)
  }

  /** UnmarshalBinary. The version byte is read and ignored. */
  function Parse(d: seq<Byte>, limit: Limit): Reading<SavedBinary> {
    if d == [] then Failed else
    match ParseBlock(d[1..], limit)
    case Failed => Failed
    case Panics => Panics
    case Read(content, d1) =>
      match Take(d1, 8)
      case None => Failed
      case Some((seconds, d2)) =>
        match ParseBlock(d2, limit)
        case Failed => Failed
        case Panics => Panics
        case Read(etag, rest) => Read(SavedBinary(content, Time(Int64Of(seconds), 0), etag), rest)
  }

  method MarshalBinary(s: SavedBinary) returns (d: seq<Byte>)
    ensures d == Encode(s)
  {
    var buffer := new Buffer();
    buffer.Write([1]);
    buffer.WriteUvarint(|s.content|);
    buffer.Write(s.content);
    buffer.Write(Int64Bytes(s.lastUpdated.seconds));
    buffer.WriteUvarint(|s.lastEtag|);
    buffer.Write(s.lastEtag);
    assert buffer.bytes == Encode(s);
    return buffer.bytes;
  }

  method UnmarshalBinary(data: seq<Byte>, limit: Limit) returns (r: Reading<SavedBinary>)
    ensures r == Parse(data, limit)
  {
    var reader := new Reader(data);
    var version := reader.ReadFull(1);
    if version.None? { return Failed; }
    var contentLength := reader.ReadUvarint();
    if contentLength.None? { return Failed; }
    if contentLength.value >= limit { return Panics; }
    var content := reader.ReadFull(contentLength.value);
    if content.None? { return Failed; }
    var lastUpdated := reader.ReadFull(8);
    if lastUpdated.None? { return Failed; }
    var etagLength := reader.ReadUvarint();
    if etagLength.None? { return Failed; }
    if etagLength.value >= limit { return Panics; }
    var etag := reader.ReadFull(etagLength.value);
    if etag.None? { return Failed; }
    return Read(SavedBinary(content.value, Time(Int64Of(lastUpdated.value), 0), etag.value), reader.rest);
  }

  lemma ParseBlockEncode(block: seq<Byte>, tail: seq<Byte>, limit: Limit)
    requires |block| < limit
    ensures ParseBlock(Uvarint(|block|) + block + tail, limit) == Read(block, tail)
  {
    var d := Uvarint(|block|) + (block + tail);
    assert Uvarint(|block|) + block + tail == d;
    Uvarint64Parses(|block|, block + tail);
    ParseBlockFrom(d, block, tail, limit);
  }

  lemma ParseBlockFrom(d: seq<Byte>, block: seq<Byte>, tail: seq<Byte>, limit: Limit)
    requires |block| < limit && ParseUvarint(d, 0) == Some((|block|, block + tail))
    ensures ParseBlock(d, limit) == Read(block, tail)
  {
    assert Take(block + tail, |block|) == Some((block, tail));
  }

  /** Decoding an encoding, with anything behind it, gives the value back, less the fraction of a second. */
  lemma DecodeEncode(s: SavedBinary, tail: seq<Byte>, limit: Limit)
    requires Representable(s, limit)
    ensures Parse(Encode(s) + tail, limit) == Read(s.(lastUpdated := s.lastUpdated.(nanoseconds := 0)), tail)
  {
    var seconds := Int64Bytes(s.lastUpdated.seconds);
    var d2 := Uvarint(|s.lastEtag|) + s.lastEtag + tail;
    var d1 := seconds + d2;
    assert Encode(s) + tail == [1] + (Uvarint(|s.content|) + s.content + d1);
    ParseBlockEncode(s.content, d1, limit);
    assert Take(d1, 8) == Some((seconds, d2));
    Int64RoundTrip(s.lastUpdated.seconds);
    ParseBlockEncode(s.lastEtag, tail, limit);
  }

  /** The round trip is exact if and only if the time has whole seconds. */
  lemma RoundTripIffWholeSeconds(s: SavedBinary, tail: seq<Byte>, limit: Limit)
    requires Representable(s, limit)
    ensures Parse(Encode(s) + tail, limit) == Read(s, tail) <==> s.lastUpdated.nanoseconds == 0
  {
    DecodeEncode(s, tail, limit);
  }

  lemma TakeExtends(d: seq<Byte>, n: nat, tail: seq<Byte>)
    ensures var r := Take(d, n); r.Some? ==> Take(d + tail, n) == Some((r.value.0, r.value.1 + tail))
  {
    if n <= |d| {
      assert (d + tail)[..n] == d[..n];
      assert (d + tail)[n..] == d[n..] + tail;
    }
  }

  /** More bytes behind what was read change nothing; only an error may turn into something else. */
  ghost predicate Extends<T(!new)>(r: Reading<T>, longer: Reading<T>, tail: seq<Byte>) {
    match r
    case Read(value, rest) => longer == Read(value, rest + tail)
    case Failed => true
    case Panics => longer.Panics?
  }

  lemma BlockExtends(d: seq<Byte>, tail: seq<Byte>, limit: Limit)
    ensures Extends(ParseBlock(d, limit), ParseBlock(d + tail, limit), tail)
  {
    UvarintExtends(d, 0, tail);
    var r := ParseUvarint(d, 0);
    if r.Some? {
      TakeExtends(r.value.1, r.value.0, tail);
    }
  }

  lemma ParseExtends(d: seq<Byte>, tail: seq<Byte>, limit: Limit)
    ensures Extends(Parse(d, limit), Parse(d + tail, limit), tail)
  {
    if d != [] {
      assert (d + tail)[1..] == d[1..] + tail;
      BlockExtends(d[1..], tail, limit);
      var content := ParseBlock(d[1..], limit);
      if content.Read? {
        TakeExtends(content.rest, 8, tail);
        var seconds := Take(content.rest, 8);
        if seconds.Some? {
          BlockExtends(seconds.value.1, tail, limit);
        }
      }
    }
  }

  /** An encoding that was cut off anywhere is an error, and never a panic. */
  lemma CutEncodingFails(s: SavedBinary, k: nat, limit: Limit)
    requires Representable(s, limit) && k < |Encode(s)|
    ensures Parse(Encode(s)[..k], limit).Failed?
  {
    var e := Encode(s);
    assert e[..k] + e[k..] == e && e + [] == e;
    DecodeEncode(s, [], limit);
    ParseExtends(e[..k], e[k..], limit);
  }

  // ----- The format -----

  /** `d` is a length, the block it announces, and `rest`. */
  ghost predicate IsBlock(d: seq<Byte>, block: seq<Byte>, rest: seq<Byte>, limit: Limit) {
    |block| < limit && exists p :: Numeral(p, 0) && NumeralValue(p) == |block| && d == p + (block + rest)
  }

  /** `d` starts with a length that no slice can have. */
  ghost predicate IsHuge(d: seq<Byte>, limit: Limit) {
    exists p :: p <= d && Numeral(p, 0) && NumeralValue(p) >= limit
  }

  lemma BlockIsRead(d: seq<Byte>, block: seq<Byte>, rest: seq<Byte>, limit: Limit)
    requires IsBlock(d, block, rest, limit)
    ensures ParseBlock(d, limit) == Read(block, rest)
  {
    var p :| Numeral(p, 0) && NumeralValue(p) == |block| && d == p + (block + rest);
    NumeralParses(p, 0, block + rest);
    ParseBlockFrom(d, block, rest, limit);
  }

  lemma ReadIsBlock(d: seq<Byte>, limit: Limit)
    requires ParseBlock(d, limit).Read?
    ensures var r := ParseBlock(d, limit); IsBlock(d, r.value, r.rest, limit)
  {
    var p := ParsedNumeral(d, 0);
    var (n, d1) := ParseUvarint(d, 0).value;
    assert d1 == d1[..n] + d1[n..];
  }

  lemma HugePanics(d: seq<Byte>, limit: Limit)
    ensures ParseBlock(d, limit).Panics? <==> IsHuge(d, limit)
  {
    if IsHuge(d, limit) {
      var p :| p <= d && Numeral(p, 0) && NumeralValue(p) >= limit;
      NumeralParses(p, 0, d[|p|..]);
      assert d == p + d[|p|..];
    }
    if ParseBlock(d, limit).Panics? {
      var p := ParsedNumeral(d, 0);
      assert p <= d;
    }
  }

  /** `d` is a version byte, the block `content`, the eight bytes `seconds`, and `rest`. */
  ghost predicate Begins(d: seq<Byte>, content: seq<Byte>, seconds: seq<Byte>, rest: seq<Byte>, limit: Limit) {
    d != [] && |seconds| == 8 && IsBlock(d[1..], content, seconds + rest, limit)
  }

  /**
   The decoder reads exactly the byte strings of the format: a byte, a block, eight bytes of time
   and another block, with anything behind them.
   */
  lemma ReadsExactlyTheFormat(d: seq<Byte>, s: SavedBinary, rest: seq<Byte>, limit: Limit)
    ensures Parse(d, limit) == Read(s, rest) <==>
      && s.lastUpdated.nanoseconds == 0
      && exists seconds, d2 ::
           && Begins(d, s.content, seconds, d2, limit)
           && Int64Of(seconds) == s.lastUpdated.seconds && IsBlock(d2, s.lastEtag, rest, limit)
  {
    if Parse(d, limit) == Read(s, rest) {
      ReadIsBlock(d[1..], limit);
      var d1 := ParseBlock(d[1..], limit).rest;
      var seconds, d2 := d1[..8], d1[8..];
      assert d1 == seconds + d2;
      ReadIsBlock(d2, limit);
      assert Begins(d, s.content, seconds, d2, limit);
    }
    if seconds, d2 :|
      && Begins(d, s.content, seconds, d2, limit)
      && Int64Of(seconds) == s.lastUpdated.seconds && IsBlock(d2, s.lastEtag, rest, limit)
    {
      BlockIsRead(d[1..], s.content, seconds + d2, limit);
      assert Take(seconds + d2, 8) == Some((seconds, d2));
      BlockIsRead(d2, s.lastEtag, rest, limit);
    }
  }

  /**
   It panics exactly on the byte strings that announce a length beyond the limit where the format
   has a length: behind the first byte, or behind a content and the eight bytes of time.
   */
  lemma PanicsIffHuge(d: seq<Byte>, limit: Limit)
    ensures Parse(d, limit).Panics? <==>
      || (d != [] && IsHuge(d[1..], limit))
      || exists content, seconds, d2 :: Begins(d, content, seconds, d2, limit) && IsHuge(d2, limit)
  {
    if d != [] {
      HugePanics(d[1..], limit);
    }
    if Parse(d, limit).Panics? && !IsHuge(d[1..], limit) {
      ReadIsBlock(d[1..], limit);
      var content, d1 := ParseBlock(d[1..], limit).value, ParseBlock(d[1..], limit).rest;
      var seconds, d2 := d1[..8], d1[8..];
      assert d1 == seconds + d2;
      HugePanics(d2, limit);
      assert Begins(d, content, seconds, d2, limit);
    }
    if content, seconds, d2 :| Begins(d, content, seconds, d2, limit) && IsHuge(d2, limit) {
      BlockIsRead(d[1..], content, seconds + d2, limit);
      assert Take(seconds + d2, 8) == Some((seconds, d2));
      HugePanics(d2, limit);
    }
  }

  /** Such inputs exist: any 64-bit length beyond the limit, with anything around it. */
  lemma HugeLengthsPanic(version: Byte, n: nat, tail: seq<Byte>, limit: Limit)
    requires limit <= n < UINT64_LIMIT
    ensures Parse([version] + Uvarint(n) + tail, limit).Panics?
  {
    var d := [version] + Uvarint(n) + tail;
    assert d[1..] == Uvarint(n) + tail;
    Uvarint64Parses(n, tail);
  }

  // ----- FakeIPMetadata -----

  /** The four fields are written in the same way: a 16-bit length, then the field's own encoding. */
  function Frame(part: seq<Byte>): seq<Byte> {
    BigEndian(|part| % 65536, 2) + part
  }

  function Frames(parts: seq<seq<Byte>>): seq<Byte> {
    if parts == [] then [] else Frame(parts[0]) + Frames(parts[1..])
  }

  type Decoder<T> = (nat, seq<Byte>) -> Option<T>

  /**
   Reading `count` fields, field `i` first. A cut-off length is a panic, a cut-off or unreadable
   field an error.
   */
  function ReadFields<T>(d: seq<Byte>, i: nat, count: nat, decode: Decoder<T>): Reading<seq<T>>
    decreases count
  {
    if count == 0 then Read([], d) else
    match Take(d, 2)
    case None => Panics
    case Some((length, d1)) =>
      match Take(d1, FromBigEndian(length))
      case None => Failed
      case Some((element, d2)) =>
        match decode(i, element)
        case None => Failed
        case Some(x) => Prepend([x], ReadFields(d2, i + 1, count - 1, decode))
  }

  /** FakeIPMetadata.MarshalBinary: `parts` are the fields' own encodings, if they succeed. */
  method MarshalFields(parts: seq<Option<seq<Byte>>>) returns (d: Option<seq<Byte>>)
    ensures d.None? <==> None in parts
    ensures d.Some? ==> d.value == Frames(Values(parts))
  {
    var buffer := new Buffer();
    for i := 0 to |parts|
      invariant None !in parts[..i]
      invariant buffer.bytes == Frames(Values(parts[..i]))
    {
      if parts[i].None? { return None; }
      assert parts[..i + 1] == parts[..i] + [parts[i]];
      FramesAppend(Values(parts[..i]), parts[i].value);
      assert Values(parts[..i + 1]) == Values(parts[..i]) + [parts[i].value];
      buffer.Write(BigEndian(|parts[i].value| % 65536, 2));
      buffer.Write(parts[i].value);
    }
    assert parts[..|parts|] == parts;
    return Some(buffer.bytes);
  }

  function Values(parts: seq<Option<seq<Byte>>>): seq<seq<Byte>>
    requires None !in parts
  {
    if parts == [] then [] else Values(parts[..|parts| - 1]) + [parts[|parts| - 1].value]
  }

  lemma {:induction false} FramesAppend(parts: seq<seq<Byte>>, part: seq<Byte>)
    ensures Frames(parts + [part]) == Frames(parts) + Frame(part)
  {
    if parts == [] {
      assert Frames([part]) == Frame(part) + Frames([]);
    } else {
      assert (parts + [part])[1..] == parts[1..] + [part];
      FramesAppend(parts[1..], part);
    }
  }

  /** FakeIPMetadata.UnmarshalBinary. */
  method UnmarshalFields<T>(data: seq<Byte>, count: nat, decode: Decoder<T>) returns (fields: Reading<seq<T>>)
    ensures fields == ReadFields(data, 0, count, decode)
  {
    var reader := new Reader(data);
    var read: seq<T> := [];
    ghost var all := ReadFields(data, 0, count, decode);
    assert all.Read? ==> [] + all.value == all.value;
    for i := 0 to count
      invariant ReadFields(data, 0, count, decode) == Prepend(read, ReadFields(reader.rest, i, count - i, decode))
    {
      var length := reader.ReadFull(2);
      if length.None? { return Panics; }
      var element := reader.ReadFull(FromBigEndian(length.value));
      if element.None? { return Failed; }
      var value := decode(i, element.value);
      if value.None? { return Failed; }
      PrependTwice(read, [value.value], ReadFields(reader.rest, i + 1, count - i - 1, decode));
      read := read + [value.value];
    }
    assert read + [] == read;
    return Read(read, reader.rest);
  }

  function Prepend<T>(xs: seq<T>, fields: Reading<seq<T>>): Reading<seq<T>> {
    if fields.Read? then Read(xs + fields.value, fields.rest) else fields
  }

  lemma PrependTwice<T>(xs: seq<T>, ys: seq<T>, fields: Reading<seq<T>>)
    ensures Prepend(xs, Prepend(ys, fields)) == Prepend(xs + ys, fields)
  {
    if fields.Read? {
      assert xs + (ys + fields.value) == xs + ys + fields.value;
    }
  }

  /** The decoder undoes the encodings `parts` of the fields `xs`, from field `i` on. */
  ghost predicate Inverts<T>(decode: Decoder<T>, i: nat, parts: seq<seq<Byte>>, xs: seq<T>)
    decreases |parts|
  {
    && |parts| == |xs|
    && (parts != [] ==>
          |parts[0]| < 65536 && decode(i, parts[0]) == Some(xs[0]) && Inverts(decode, i + 1, parts[1..], xs[1..]))
  }

  lemma TakeFrame(part: seq<Byte>, tail: seq<Byte>)
    requires |part| < 65536
    ensures var r := Take(Frame(part) + tail, 2);
      r.Some? && FromBigEndian(r.value.0) == |part| && r.value.1 == part + tail
    ensures Take(part + tail, |part|) == Some((part, tail))
  {
    assert |part| % 65536 == |part|;
    HeaderRoundTrip(|part|);
    TakeHeader(BigEndian(|part|, 2), part, tail);
    TakeAppend(part, tail);
  }

  lemma HeaderRoundTrip(n: nat)
    requires n < 65536
    ensures FromBigEndian(BigEndian(n, 2)) == n
  {
    Range64Bits();
    BigEndianRoundTrip(n, 2);
  }

  lemma TakeHeader(header: seq<Byte>, part: seq<Byte>, tail: seq<Byte>)
    ensures Take(header + part + tail, |header|) == Some((header, part + tail))
  {
    TakeAppend(header, part + tail);
    assert header + part + tail == header + (part + tail);
  }

  lemma TakeAppend(a: seq<Byte>, b: seq<Byte>)
    ensures Take(a + b, |a|) == Some((a, b))
  {
  }

  /** Fields of less than 65536 bytes survive, whatever their codec and whatever follows. */
  lemma {:induction false} FieldsRoundTrip<T>(parts: seq<seq<Byte>>, tail: seq<Byte>, i: nat, xs: seq<T>,
                                              decode: Decoder<T>)
    requires Inverts(decode, i, parts, xs)
    ensures ReadFields(Frames(parts) + tail, i, |xs|, decode) == Read(xs, tail)
    decreases |parts|
  {
    if parts != [] {
      var d1 := Frames(parts[1..]) + tail;
      assert Frames(parts) + tail == Frame(parts[0]) + d1;
      TakeFrame(parts[0], d1);
      FieldsRoundTrip(parts[1..], tail, i + 1, xs[1..], decode);
      assert [xs[0]] + xs[1..] == xs;
    }
  }

  lemma {:induction false} FieldsExtend<T>(d: seq<Byte>, tail: seq<Byte>, i: nat, count: nat, decode: Decoder<T>)
    ensures var r := ReadFields(d, i, count, decode);
      r.Read? ==> ReadFields(d + tail, i, count, decode) == Read(r.value, r.rest + tail)
    decreases count
  {
    if ReadFields(d, i, count, decode).Read? && count > 0 {
      TakeExtends(d, 2, tail);
      var (length, d1) := Take(d, 2).value;
      TakeExtends(d1, FromBigEndian(length), tail);
      var d2 := Take(d1, FromBigEndian(length)).value.1;
      FieldsExtend(d2, tail, i + 1, count - 1, decode);
    }
  }

  /** Fields that were cut off anywhere are not read. */
  lemma CutFieldsFail<T>(parts: seq<seq<Byte>>, k: nat, xs: seq<T>, decode: Decoder<T>)
    requires Inverts(decode, 0, parts, xs) && k < |Frames(parts)|
    ensures !ReadFields(Frames(parts)[..k], 0, |xs|, decode).Read?
  {
    var e := Frames(parts);
    FieldsRoundTrip(parts, [], 0, xs, decode);
    assert e + [] == e;
    FieldsExtend(e[..k], e[k..], 0, |xs|, decode);
    assert e[..k] + e[k..] == e;
  }
}
