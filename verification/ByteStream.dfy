/** Byte buffers, readers, and the integer encodings the record formats are made of. */
module ByteStream {
  import opened Wrappers

  type Byte = n: nat | n < 256

  const UINT64_LIMIT := 0x1_0000_0000_0000_0000
  const INT64_LIMIT := 0x8000_0000_0000_0000

  type Int64 = i: int | -INT64_LIMIT <= i < INT64_LIMIT

  // ----- Variable-length integers -----

  function Uvarint(x: nat): seq<Byte> {
    if x < 128 then [x] else [x % 128 + 128] + Uvarint(x / 128)
  }

  /** binary.ReadUvarint, with `i` bytes read already: the value and the bytes behind it. */
  function ParseUvarint(d: seq<Byte>, i: nat): Option<(nat, seq<Byte>)>
    decreases 10 - i
  {
    if i >= 10 || d == [] then None
    else if d[0] < 128 then
      if i == 9 && d[0] > 1 then None else Some((d[0], d[1..]))
    else
      match ParseUvarint(d[1..], i + 1)
      case None => None
      case Some((high, rest)) => Some((d[0] - 128 + 128 * high, rest))
  }

  /** What still fits into 64 bits after `i` bytes. */
  function Room(i: nat): nat
    requires i <= 9
    decreases 9 - i
  {
    if i == 9 then 2 else 128 * Room(i + 1)
  }

  lemma RoomIs64Bits()
    ensures Room(0) == UINT64_LIMIT
  {
    assert Room(5) == 128 * 128 * 128 * 128 * 2;
  }

  lemma {:induction false} UvarintParses(x: nat, tail: seq<Byte>, i: nat)
    requires i <= 9 && x < Room(i)
    ensures ParseUvarint(Uvarint(x) + tail, i) == Some((x, tail))
    decreases x
  {
    if x >= 128 {
      assert (Uvarint(x) + tail)[1..] == Uvarint(x / 128) + tail;
      UvarintParses(x / 128, tail, i + 1);
    }
  }

  lemma Uvarint64Parses(x: nat, tail: seq<Byte>)
    requires x < UINT64_LIMIT
    ensures ParseUvarint(Uvarint(x) + tail, 0) == Some((x, tail))
  {
    RoomIs64Bits();
    UvarintParses(x, tail, 0);
  }

  /** What parses keeps its meaning when bytes follow. */
  lemma {:induction false} UvarintExtends(d: seq<Byte>, i: nat, tail: seq<Byte>)
    ensures var r := ParseUvarint(d, i);
      r.Some? ==> ParseUvarint(d + tail, i) == Some((r.value.0, r.value.1 + tail))
    decreases 10 - i
  {
    if i < 10 && d != [] {
      assert (d + tail)[1..] == d[1..] + tail;
      UvarintExtends(d[1..], i + 1, tail);
    }
  }

  /** `p` is one variable-length integer, `i` bytes of ten being used up: a last byte ends it. */
  predicate Numeral(p: seq<Byte>, i: nat) {
    && 0 < |p| <= 10 - i
    && (forall k :: 0 <= k < |p| - 1 ==> p[k] >= 128)
    && p[|p| - 1] < 128 && (|p| == 10 - i ==> p[|p| - 1] <= 1)
  }

  /** Seven bits a byte, lowest first. */
  function NumeralValue(p: seq<Byte>): nat {
    if p == [] then 0 else p[0] % 128 + 128 * NumeralValue(p[1..])
  }

  lemma {:induction false} NumeralParses(p: seq<Byte>, i: nat, rest: seq<Byte>)
    requires Numeral(p, i)
    ensures ParseUvarint(p + rest, i) == Some((NumeralValue(p), rest))
    decreases |p|
  {
    var d := p + rest;
    assert d[0] == p[0] && d[1..] == p[1..] + rest;
    if |p| > 1 {
      NumeralParses(p[1..], i + 1, rest);
      assert p[0] % 128 == p[0] - 128;
    } else {
      assert p[1..] + rest == rest && NumeralValue(p[1..]) == 0;
    }
  }

  /** What is parsed is a numeral, of that value and in front of those bytes. */
  lemma {:induction false} ParsedNumeral(d: seq<Byte>, i: nat) returns (p: seq<Byte>)
    requires ParseUvarint(d, i).Some?
    ensures var (n, rest) := ParseUvarint(d, i).value;
      Numeral(p, i) && d == p + rest && NumeralValue(p) == n
    decreases 10 - i
  {
    if d[0] < 128 {
      p := [d[0]];
      assert NumeralValue([]) == 0 && p[1..] == [];
    } else {
      var q := ParsedNumeral(d[1..], i + 1);
      p := [d[0]] + q;
      assert p[1..] == q;
    }
  }

  // ----- Fixed-width integers -----

  function BigEndian(n: nat, width: nat): (r: seq<Byte>)
    ensures |r| == width
  {
    if width == 0 then [] else BigEndian(n / 256, width - 1) + [n % 256]
  }

  function FromBigEndian(d: seq<Byte>): nat {
    if d == [] then 0 else 256 * FromBigEndian(d[..|d| - 1]) + d[|d| - 1]
  }

  function Range(width: nat): nat {
    if width == 0 then 1 else 256 * Range(width - 1)
  }

  lemma {:induction false} BigEndianRoundTrip(n: nat, width: nat)
    requires n < Range(width)
    ensures FromBigEndian(BigEndian(n, width)) == n
  {
    if width > 0 {
      BigEndianRoundTrip(n / 256, width - 1);
      assert BigEndian(n, width)[..width - 1] == BigEndian(n / 256, width - 1);
    }
  }

  lemma Range64Bits()
    ensures Range(8) == UINT64_LIMIT && Range(2) == 65536
  {
    assert Range(4) == 256 * 256 * 256 * 256;
  }

  /** Two's complement. */
  function Int64Bytes(i: Int64): (r: seq<Byte>)
    ensures |r| == 8
  {
    BigEndian(if i < 0 then i + UINT64_LIMIT else i, 8)
  }

  function Int64Of(d: seq<Byte>): Int64 {
    var n := FromBigEndian(d) % UINT64_LIMIT;
    if n < INT64_LIMIT then n else n - UINT64_LIMIT
  }

  lemma Int64RoundTrip(i: Int64)
    ensures Int64Of(Int64Bytes(i)) == i
  {
    Range64Bits();
    BigEndianRoundTrip(if i < 0 then i + UINT64_LIMIT else i, 8);
  }

  // ----- Buffer and reader -----

  class Buffer {
    var bytes: seq<Byte>

    constructor ()
      ensures bytes == []
    {
      bytes := [];
    }

    method Write(d: seq<Byte>)
      modifies this
      ensures bytes == old(bytes) + d
    {
      bytes := bytes + d;
    }

    /** varbin.WriteUvarint: seven bits at a time, lowest first. */
    method WriteUvarint(value: nat)
      modifies this
      ensures bytes == old(bytes) + Uvarint(value)
    {
      var x := value;
      while x >= 128
        invariant bytes + Uvarint(x) == old(bytes) + Uvarint(value)
        decreases x
      {
        assert bytes + [x % 128 + 128] + Uvarint(x / 128) == bytes + Uvarint(x);
        bytes := bytes + [x % 128 + 128];
        x := x / 128;
      }
      bytes := bytes + [x];
    }
  }

  /** The first `n` bytes and the rest, if there are that many. */
  function Take(d: seq<Byte>, n: nat): Option<(seq<Byte>, seq<Byte>)> {
    if n <= |d| then Some((d[..n], d[n..])) else None
  }

  class Reader {
    var rest: seq<Byte>   // what has not been read

    constructor (data: seq<Byte>)
      ensures rest == data
    {
      rest := data;
    }

    /** io.ReadFull: all of `n` bytes or an error. */
    method ReadFull(n: nat) returns (r: Option<seq<Byte>>)
      modifies this
      ensures match Take(old(rest), n)
        case None => r.None?
        case Some((taken, after)) => r == Some(taken) && rest == after
    {
      if n > |rest| {
        rest := [];
        return None;
      }
      r := Some(rest[..n]);
      rest := rest[n..];
    }

    /** binary.ReadUvarint. */
    method ReadUvarint() returns (r: Option<nat>)
      modifies this
      ensures match ParseUvarint(old(rest), 0)
        case None => r.None?
        case Some((value, after)) => r == Some(value) && rest == after
    {
      var x: nat := 0;
      for i := 0 to 10
        invariant ParseUvarint(old(rest), 0) == Combine(x, i, ParseUvarint(rest, i))
      {
        if rest == [] { return None; }
        ghost var open := rest;
        var b := rest[0];
        rest := rest[1..];
        if b < 128 {
          if i == 9 && b > 1 { return None; }
          return Some(x + Shifted(b, i));
        }
        NextDigit(x, open, i);
        x := x + Shifted(b - 128, i);
      }
      return None;
    }
  }

  /** `n` moved up by `i` digits of seven bits. */
  function Shifted(n: nat, i: nat): nat {
    if i == 0 then n else 128 * Shifted(n, i - 1)
  }

  /** `x` is the value of the `i` digits read, `open` what the bytes behind them parse to. */
  function Combine(x: nat, i: nat, open: Option<(nat, seq<Byte>)>): Option<(nat, seq<Byte>)> {
    if open.None? then None else Some((x + Shifted(open.value.0, i), open.value.1))
  }

  lemma {:induction false} ShiftedSum(low: nat, high: nat, i: nat)
    ensures Shifted(low + 128 * high, i) == Shifted(low, i) + Shifted(high, i + 1)
  {
    if i > 0 {
      ShiftedSum(low, high, i - 1);
    }
  }

  lemma NextDigit(x: nat, d: seq<Byte>, i: nat)
    requires i < 10 && d != [] && d[0] >= 128
    ensures Combine(x, i, ParseUvarint(d, i)) == Combine(x + Shifted(d[0] - 128, i), i + 1, ParseUvarint(d[1..], i + 1))
  {
    var open := ParseUvarint(d[1..], i + 1);
    if open.Some? {
      ShiftedSum(d[0] - 128, open.value.0, i);
    }
  }
}
