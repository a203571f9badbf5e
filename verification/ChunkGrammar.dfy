/** The documented byte format of encapsulated streams, a parser for it written as the reader's
    loops decode it, and the proof that the two agree on every byte string. */
module ChunkGrammar {
  import opened Bytes

  // ----- the format -----

  /** A chunk of data or padding; `width` is the number of bytes of its length prefix. */
  datatype Chunk = Chunk(isData: bool, width: nat, body: Bytes)

  const MAX_LENGTH: nat := 0xfffff

  /** One more than the longest body a prefix of `width` bytes can announce. */
  function Capacity(width: nat): nat {
    if width == 1 then 0x40 else if width == 2 then 0x2000 else if width == 3 then MAX_LENGTH + 1 else 0
  }

  predicate Fits(c: Chunk) {
    |c.body| < Capacity(c.width)
  }

  /** `dcxxxxxx`, `cyyyyyyy`, `czzzzzzz`: the data bit, then continuation bits around the length. */
  function Prefix(isData: bool, width: nat, n: nat): (p: Bytes)
    requires n < Capacity(width)
    ensures |p| == width
  {
    var d: int := if isData then 0x80 else 0;
    if width == 1 then [d + n]
    else if width == 2 then [d + 0x40 + n / 0x80, n % 0x80]
    else [d + 0x40 + n / 0x4000, 0x80 + n / 0x80 % 0x80, n % 0x80]
  }

  function Encode(c: Chunk): (s: Bytes)
    requires Fits(c)
  {
    Prefix(c.isData, c.width, |c.body|) + c.body
  }

  predicate FitAll(cs: seq<Chunk>) {
    forall i :: 0 <= i < |cs| ==> Fits(cs[i])
  }

  function EncodeAll(cs: seq<Chunk>): (s: Bytes)
    requires FitAll(cs)
  {
    if cs == [] then [] else Encode(cs[0]) + EncodeAll(cs[1..])
  }

  ghost predicate Paddings(cs: seq<Chunk>) {
    FitAll(cs) && forall i :: 0 <= i < |cs| ==> !cs[i].isData
  }

  /** The bodies of the data chunks, in order. */
  function DataOf(cs: seq<Chunk>): seq<Bytes> {
    if cs == [] then [] else (if cs[0].isData then [cs[0].body] else []) + DataOf(cs[1..])
  }

  /** A nonempty beginning of a chunk that lacks at least one byte of it. */
  ghost predicate CutChunk(s: Bytes) {
    s != [] && exists c :: Fits(c) && CutOf(s, c)
  }

  ghost predicate CutOf(s: Bytes, c: Chunk)
    requires Fits(c)
  {
    |s| < |Encode(c)| && s == Encode(c)[..|s|]
  }

  /** A prefix whose third byte still has the continuation bit. */
  predicate Overlong(s: Bytes) {
    |s| >= 3 && s[0] / 0x40 % 2 == 1 && s[1] >= 0x80 && s[2] >= 0x80
  }

  // ----- the parser -----

  datatype Length = Length(n: nat, used: nat) | LengthCut | LengthTooLong

  /** The length loop of ReadData, from its `i`-th turn with `n` decoded so far. */
  function MoreLength(s: Bytes, i: nat, n: nat, more: bool): (r: Length)
    requires i <= 2
    ensures r.Length? ==> i <= r.used <= 2 && r.used - i <= |s|
    decreases 2 - i
  {
    if !more then Length(n, i)
    else if i >= 2 then LengthTooLong
    else if s == [] then LengthCut
    else MoreLength(s[1..], i + 1, n * 0x80 + s[0] % 0x80, s[0] >= 0x80)
  }

  datatype Parsed = One(c: Chunk, rest: Bytes) | Nothing | Short | TooLong

  /** The first chunk of `s`. */
  function ParseChunk(s: Bytes): Parsed {
    if s == [] then Nothing
    else
      match MoreLength(s[1..], 0, s[0] % 0x40, s[0] / 0x40 % 2 == 1)
      case LengthCut => Short
      case LengthTooLong => TooLong
      case Length(n, used) =>
        var at := 1 + used;
        if |s| < at + n then Short
        else One(Chunk(s[0] >= 0x80, at, s[at..at + n]), s[at + n..])
  }

  /** What MoreLength makes of the bytes after the first, spelled out. */
  lemma LengthCases(s: Bytes, n0: nat)
    ensures MoreLength(s, 0, n0, true) ==
      if s == [] then LengthCut
      else if s[0] < 0x80 then Length(n0 * 0x80 + s[0], 1)
      else if |s| == 1 then LengthCut
      else if s[1] < 0x80 then Length(n0 * 0x4000 + (s[0] as int - 0x80) * 0x80 + s[1], 2)
      else LengthTooLong
  {
  }

  /** The bytes of a prefix determine, and are determined by, the length they announce. */
  lemma PrefixBytes(s: Bytes, d: bool, n: nat)
    ensures |s| == 1 ==>
      (n < Capacity(1) && Prefix(d, 1, n) == s <==>
        s[0] / 0x40 % 2 == 0 && d == (s[0] >= 0x80) && n == s[0] % 0x40)
    ensures |s| == 2 ==>
      (n < Capacity(2) && Prefix(d, 2, n) == s <==>
        s[0] / 0x40 % 2 == 1 && s[1] < 0x80 && d == (s[0] >= 0x80) && n == s[0] as int % 0x40 * 0x80 + s[1])
  {
  }

  lemma ThreeDigits(n: nat, x: nat, y: nat, z: nat)
    requires y < 0x80 && z < 0x80
    ensures n == x * 0x4000 + y * 0x80 + z <==> n / 0x4000 == x && n / 0x80 % 0x80 == y && n % 0x80 == z
  {
    assert n / 0x80 / 0x80 == n / 0x4000;
  }

  lemma PrefixBytes3(s: Bytes, d: bool, n: nat)
    requires |s| == 3
    ensures n < Capacity(3) && Prefix(d, 3, n) == s <==>
      s[0] / 0x40 % 2 == 1 && s[1] >= 0x80 && s[2] < 0x80 && d == (s[0] >= 0x80) &&
      n == s[0] as int % 0x40 * 0x4000 + (s[1] as int - 0x80) * 0x80 + s[2]
  {
    if s[1] >= 0x80 && s[2] < 0x80 {
      ThreeDigits(n, s[0] % 0x40, s[1] - 0x80, s[2]);
    }
  }

  /** Whatever the parser accepts is a chunk of the format, with nothing left over or skipped. */
  lemma ParseSound(s: Bytes)
    ensures match ParseChunk(s)
            case One(c, rest) => Fits(c) && s == Encode(c) + rest
            case _ => true
  {
    if s != [] {
      LengthCases(s[1..], s[0] % 0x40);
      if ParseChunk(s).One? {
        var c := ParseChunk(s).c;
        var p := s[..c.width];
        if c.width == 3 { PrefixBytes3(p, c.isData, |c.body|); } else { PrefixBytes(p, c.isData, |c.body|); }
      }
    }
  }

  /** Every chunk of the format, minimal prefix or not, is accepted with whatever follows it. */
  lemma ParseComplete(c: Chunk, rest: Bytes)
    requires Fits(c)
    ensures ParseChunk(Encode(c) + rest) == One(c, rest)
  {
    var s := Encode(c) + rest;
    var n := |c.body|;
    var p := Prefix(c.isData, c.width, n);
    assert s[..c.width] == p;
    if c.width == 3 { PrefixBytes3(p, c.isData, n); } else { PrefixBytes(p, c.isData, n); }
    LengthCases(s[1..], s[0] % 0x40);
    assert s[c.width..c.width + n] == c.body && s[c.width + n..] == rest;
  }

  lemma ParseTooLong(s: Bytes)
    ensures ParseChunk(s) == TooLong <==> Overlong(s)
  {
  }

  /** A short parse is exactly a chunk cut off before its end. */
  lemma ParseShort(s: Bytes)
    ensures ParseChunk(s) == Short <==> CutChunk(s)
  {
    if ParseChunk(s) == Short {
      var c := Completion(s);
    }
    if CutChunk(s) {
      var c :| Fits(c) && CutOf(s, c);
      CutIsShort(s, c);
    }
  }

  /** A chunk of which a short parse saw the beginning. */
  lemma Completion(s: Bytes) returns (c: Chunk)
    requires ParseChunk(s) == Short
    ensures Fits(c) && CutOf(s, c)
  {
    LengthCases(s[1..], s[0] % 0x40);
    match MoreLength(s[1..], 0, s[0] % 0x40, s[0] / 0x40 % 2 == 1)
    case LengthCut => c := ZeroedPrefix(s);
    case Length(n, used) =>
      var p := s[..1 + used];
      if used == 2 { PrefixBytes3(p, s[0] >= 0x80, n); } else { PrefixBytes(p, s[0] >= 0x80, n); }
      c := ZeroedBody(s, 1 + used, n);
  }

  /** The next byte of an unfinished prefix may be zero. */
  lemma ZeroedPrefix(s: Bytes) returns (c: Chunk)
    requires 1 <= |s| <= 2 && s[0] / 0x40 % 2 == 1 && (|s| == 2 ==> s[1] >= 0x80)
    ensures Fits(c) && CutOf(s, c)
  {
    var n := if |s| == 1 then s[0] as int % 0x40 * 0x80
             else s[0] as int % 0x40 * 0x4000 + (s[1] as int - 0x80) * 0x80;
    var p := s + [0];
    if |s| == 2 { PrefixBytes3(p, s[0] >= 0x80, n); } else { PrefixBytes(p, s[0] >= 0x80, n); }
    c := Chunk(s[0] >= 0x80, |s| + 1, seq(n, _ => 0));
    assert Encode(c) == p + c.body;
  }

  /** So may the missing bytes of an unfinished body. */
  lemma ZeroedBody(s: Bytes, at: nat, n: nat) returns (c: Chunk)
    requires 1 <= at <= 3 && at <= |s| < at + n
    requires n < Capacity(at) && Prefix(s[0] >= 0x80, at, n) == s[..at]
    ensures Fits(c) && CutOf(s, c)
  {
    c := Chunk(s[0] >= 0x80, at, s[at..] + seq(at + n - |s|, _ => 0));
    assert Encode(c)[..|s|] == s[..at] + s[at..];
  }

  lemma CutIsShort(s: Bytes, c: Chunk)
    requires s != [] && Fits(c) && CutOf(s, c)
    ensures ParseChunk(s) == Short
  {
    ParseComplete(c, []);
    assert Encode(c) + [] == Encode(c);
    LengthCases(s[1..], s[0] % 0x40);
    LengthCases(Encode(c)[1..], s[0] % 0x40);
  }
}
