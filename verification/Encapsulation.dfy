/** The encapsulation codec itself: ReadData, WriteData, WritePadding and the length arithmetic,
    each proved against the documented format. */
module Encapsulation {
  import opened Bytes
  import opened ByteStreams
  import opened ChunkGrammar
  import opened ChunkStream

  /** The error ReadData returns for each way of finding no data chunk. */
  function ErrorFor(why: Stop, end: Error): Error {
    match why
    case AtBoundary => end
    case InsideChunk => Unexpected(end)
    case PrefixTooLong => ErrTooLong
  }

  /** The loop over the rest of a length prefix, whose first byte gave `n0` and `more0`. */
  method ReadLength(r: Reader, n0: nat, more0: bool) returns (res: Result<nat>)
    modifies r
    ensures match MoreLength(old(r.rest), 0, n0, more0)
            case Length(n, used) => res == Ok(n) && r.rest == old(r.rest)[used..]
            case LengthCut => res == Err(Unexpected(r.end))
            case LengthTooLong => res == Err(ErrTooLong)
  {
    var n: nat, moreLength := n0, more0;
    var i := 0;
    while moreLength
      invariant 0 <= i <= 2 && i <= |old(r.rest)| && r.rest == old(r.rest)[i..]
      invariant MoreLength(r.rest, i, n, moreLength) == MoreLength(old(r.rest), 0, n0, more0)
      decreases 2 - i, moreLength
    {
      if i >= 2 {
        return Err(ErrTooLong);
      }
      var b := r.ReadByte();
      if b.Err? {
        return Err(Unexpected(b.error));
      }
      moreLength := b.value >= 0x80;
      n := n * 0x80 + b.value % 0x80;
      i := i + 1;
    }
    res := Ok(n);
  }

  /** The body of a chunk whose length prefix has been read. */
  method ReadBody(r: Reader, isData: bool, n: nat) returns (res: Result<(bool, Bytes)>)
    modifies r
    ensures if |old(r.rest)| < n then res == Err(Unexpected(r.end))
            else res == Ok((isData, if isData then old(r.rest)[..n] else [])) && r.rest == old(r.rest)[n..]
  {
    if isData {
      var p := r.ReadFull(n);
      return if p.Err? then Err(Unexpected(p.error)) else Ok((true, p.value));
    } else {
      var d := r.Discard(n);
      return if d.Err? then Err(Unexpected(d.error)) else Ok((false, []));
    }
  }

  /** What ParseChunk finds, in terms of what is left after the length prefix. */
  lemma ChunkAfterPrefix(s: Bytes, n: nat, used: nat)
    requires s != [] && MoreLength(s[1..], 0, s[0] % 0x40, s[0] / 0x40 % 2 == 1) == Length(n, used)
    ensures var tail := s[1..][used..];
      ParseChunk(s) ==
        if |tail| < n then Short else One(Chunk(s[0] >= 0x80, 1 + used, tail[..n]), tail[n..])
  {
  }

  /** One turn of the loop of ReadData: a chunk, with its body if it is data. */
  method ReadChunk(r: Reader) returns (res: Result<(bool, Bytes)>)
    modifies r
    ensures match ParseChunk(old(r.rest))
            case Nothing => res == Err(r.end)
            case Short => res == Err(Unexpected(r.end))
            case TooLong => res == Err(ErrTooLong)
            case One(c, rest) => res == Ok((c.isData, if c.isData then c.body else [])) && r.rest == rest
  {
    ghost var s := r.rest;
    var first := r.ReadByte();
    if first.Err? {
      return Err(first.error);
    }
    var len := ReadLength(r, first.value % 0x40, first.value / 0x40 % 2 == 1);
    if len.Err? {
      return Err(len.error);
    }
    ghost var parsed := MoreLength(s[1..], 0, s[0] % 0x40, s[0] / 0x40 % 2 == 1);
    ChunkAfterPrefix(s, len.value, parsed.used);
    res := ReadBody(r, first.value >= 0x80, len.value);
  }

  /** The first data chunk, or why there is none: the reader's own error between chunks, within one too
      but for io.EOF, which becomes io.ErrUnexpectedEOF there, and ErrTooLong for a prefix of more than
      three bytes. */
  method ReadData(r: Reader) returns (res: Result<Bytes>)
    modifies r
    ensures match Read(old(r.rest))
            case Got(data, rest) => res == Ok(data) && r.rest == rest
            case Stopped(why) => res == Err(ErrorFor(why, r.end))
    ensures EndsBetween(old(r.rest)) ==> res == Err(r.end)
    ensures EndsInside(old(r.rest)) ==> res == Err(if r.end == EOF then UnexpectedEOF else r.end)
    ensures TurnsOverlong(old(r.rest)) ==> res == Err(ErrTooLong)
    ensures res.Err? ==> EndsBetween(old(r.rest)) || EndsInside(old(r.rest)) || TurnsOverlong(old(r.rest))
  {
    ReadClassified(r.rest);
    while true
      invariant Read(r.rest) == Read(old(r.rest))
      decreases |r.rest|
    {
      ParseShrinks(r.rest);
      var chunk := ReadChunk(r);
      if chunk.Err? {
        return Err(chunk.error);
      }
      if chunk.value.0 {
        return Ok(chunk.value.1);
      }
    }
  }

  /** ReadData until it fails, as the receiving loops of the tunnel call it. */
  method ReadUntilError(r: Reader) returns (chunks: seq<Bytes>, err: Error)
    modifies r
    ensures chunks == ReadAll(old(r.rest)).0 && err == ErrorFor(ReadAll(old(r.rest)).1, r.end)
  {
    chunks := [];
    while true
      invariant ReadAll(old(r.rest)).0 == chunks + ReadAll(r.rest).0
      invariant ReadAll(old(r.rest)).1 == ReadAll(r.rest).1
      decreases |r.rest|
    {
      var res := ReadData(r);
      if res.Err? {
        return chunks, res.error;
      }
      chunks := chunks + [res.value];
    }
  }

  // ----- writers -----

  /** The fewest prefix bytes that can announce a body of `n` bytes. */
  function MinWidth(n: nat): (w: nat)
    requires n <= MAX_LENGTH
    ensures 1 <= w <= 3 && n < Capacity(w) && forall v :: 1 <= v < w ==> Capacity(v) <= n
  {
    if n < 0x40 then 1 else if n < 0x2000 then 2 else 3
  }

  function DataChunk(data: Bytes): (c: Chunk)
    requires |data| <= MAX_LENGTH
    ensures Fits(c)
  {
    Chunk(true, MinWidth(|data|), data)
  }

  /** `dataPrefixForLength`. A right shift is a floor division and a mask a remainder, for
      negative numbers too. */
  function DataPrefixForLength(n: int): (r: Result<Bytes>)
    ensures r.Ok? <==> 0 <= n <= MAX_LENGTH
    ensures r.Ok? ==> r.value == Prefix(true, MinWidth(n), n)
    ensures r.Err? ==> r.error == ErrTooLong
  {
    if n % 0x40 == n then Ok([0x80 + n % 0x40])
    else if n / 0x80 % 0x40 == n / 0x80 then Ok([0xc0 + n / 0x80 % 0x40, n % 0x80])
    else if n / 0x4000 % 0x40 == n / 0x4000 then Ok([0xc0 + n / 0x4000 % 0x40, 0x80 + n / 0x80 % 0x80, n % 0x80])
    else Err(ErrTooLong)
  }

  datatype WriteError = NoError | WriteFailed | DataTooLong

  function Min(a: nat, b: nat): nat {
    if a <= b then a else b
  }

  lemma TakeFurther(all: Bytes, from: nat, b: Bytes, c: Bytes, k: nat)
    requires from <= |all| && all[from..] == b + c && k <= |b|
    ensures all[..from + k] == all[..from] + b[..k]
    ensures k == |b| ==> all[from + k..] == c
  {
    assert all == all[..from] + (b + c);
  }

  /** Two writes, the second only if the first succeeds. */
  method WriteBoth(w: Writer, a: Bytes, b: Bytes) returns (total: nat, ok: bool)
    modifies w
    ensures ok <==> |a + b| <= old(w.room)
    ensures total == Min(|a + b|, old(w.room))
    ensures w.out == old(w.out) + (a + b)[..total] && w.room == old(w.room) - total
  {
    var n;
    n, ok := w.Write(a);
    total := n;
    TakeAcross(a, b, total);
    if ok {
      n, ok := w.Write(b);
      total := total + n;
      TakeAcross(a, b, total);
      Assoc(old(w.out), a, b[..n]);
    }
  }

  method WriteData(w: Writer, data: Bytes) returns (total: nat, err: WriteError)
    modifies w
    ensures |data| > MAX_LENGTH ==> err == DataTooLong && total == 0 && w.out == old(w.out) && w.room == old(w.room)
    ensures |data| <= MAX_LENGTH ==>
      var s := Encode(DataChunk(data));
      && err == (if |s| <= old(w.room) then NoError else WriteFailed)
      && total == Min(|s|, old(w.room))
      && w.out == old(w.out) + s[..total] && w.room == old(w.room) - total
  {
    var prefix := DataPrefixForLength(|data|);
    if prefix.Err? {
      return 0, DataTooLong;
    }
    var ok;
    total, ok := WriteBoth(w, prefix.value, data);
    err := if ok then NoError else WriteFailed;
  }

  // ----- padding -----

  const PADDING_BUFFER: nat := 1024

  function Zeros(n: nat): (z: Bytes)
    ensures |z| == n
  {
    seq(n, _ => 0)
  }

  /** A padding chunk of `p` bytes in all. */
  function PaddingChunk(p: nat): (c: Chunk)
    requires 1 <= p <= PADDING_BUFFER
    ensures Fits(c) && !c.isData && |Encode(c)| == p
  {
    if p <= 0x40 then Chunk(false, 1, Zeros(p - 1)) else Chunk(false, 2, Zeros(p - 2))
  }

  /** `n` bytes of padding, in chunks as large as the padding buffer and one for what remains. */
  function PaddingChunks(n: nat): (cs: seq<Chunk>)
    ensures FitAll(cs)
  {
    if n == 0 then []
    else [PaddingChunk(Min(PADDING_BUFFER, n))] + PaddingChunks(n - Min(PADDING_BUFFER, n))
  }

  /** Those chunks as bytes. */
  function PaddingBytes(n: nat): (s: Bytes)
    ensures |s| == n
  {
    if n == 0 then []
    else Encode(PaddingChunk(Min(PADDING_BUFFER, n))) + PaddingBytes(n - Min(PADDING_BUFFER, n))
  }

  /** `n` bytes of padding are `n` bytes, all of them well-formed chunks and none of them data. */
  lemma {:induction false} PaddingIsChunks(n: nat)
    ensures Paddings(PaddingChunks(n)) && EncodeAll(PaddingChunks(n)) == PaddingBytes(n)
  {
    if n == 0 {
    } else {
      PaddingIsChunks(n - Min(PADDING_BUFFER, n));
      assert PaddingChunks(n)[1..] == PaddingChunks(n - Min(PADDING_BUFFER, n));
    }
  }

  /** The prefix computed by the switch of WritePadding for a chunk of `p` bytes in all, and the
      length of the body that follows. The third case masks its middle byte with 0x3f, not 0x7f. */
  function PaddingPrefix(p: int): (r: (Bytes, int))
    requires 1 <= p
    ensures p <= PADDING_BUFFER ==>
      var c := PaddingChunk(p); r == (Prefix(false, c.width, |c.body|), |c.body|)
  {
    if (p - 1) % 0x40 == p - 1 then ([(p - 1) % 0x40], p - 1)
    else if (p - 2) / 0x80 % 0x40 == (p - 2) / 0x80 then
      ([0x40 + (p - 2) / 0x80 % 0x40, (p - 2) % 0x80], p - 2)
    else if (p - 3) / 0x4000 % 0x40 == (p - 3) / 0x4000 then
      ([0x40 + (p - 3) / 0x4000 % 0x40, 0x80 + (p - 3) / 0x80 % 0x40, (p - 3) % 0x80], p - 3)
    else ([], p)
  }

  /** One turn of the loop of WritePadding: a padding chunk of `p` bytes in all. */
  method WritePaddingChunk(w: Writer, p: nat) returns (n: nat, ok: bool)
    requires 1 <= p <= PADDING_BUFFER
    modifies w
    ensures ok <==> p <= old(w.room)
    ensures n == Min(p, old(w.room)) && w.room == old(w.room) - n
    ensures w.out == old(w.out) + Encode(PaddingChunk(p))[..n]
  {
    var (prefix, body) := PaddingPrefix(p);
    n, ok := WriteBoth(w, prefix, Zeros(body));
  }

  /** Exactly `size` bytes go out unless the writer fails first, and what goes out is the beginning
      of well-formed padding. */
  method WritePadding(w: Writer, size: nat) returns (total: nat, ok: bool)
    modifies w
    ensures ok <==> size <= old(w.room)
    ensures total == Min(size, old(w.room)) && w.room == old(w.room) - total
    ensures w.out == old(w.out) + PaddingBytes(size)[..total]
  {
    ghost var all := PaddingBytes(size);
    var n := size;
    total := 0;
    while n > 0
      invariant 0 <= n <= size && total == size - n && w.room == old(w.room) - total
      invariant w.out == old(w.out) + all[..total]
      invariant all[total..] == PaddingBytes(n)
      decreases n
    {
      var p := PADDING_BUFFER;
      if p > n {
        p := n;
      }
      var nn;
      nn, ok := WritePaddingChunk(w, p);
      ghost var chunk := Encode(PaddingChunk(p));
      TakeFurther(all, total, chunk, PaddingBytes(n - p), nn);
      Assoc(old(w.out), all[..total], chunk[..nn]);
      total := total + nn;
      n := n - p;
      if !ok {
        return;
      }
    }
    ok := true;
  }

  // ----- how much data fits -----

  predicate EncodesWithin(len: nat, n: int) {
    len <= MAX_LENGTH && len + MinWidth(len) <= n
  }

  /** `len` is the length of the longest data whose encoding is no larger than `n`. */
  ghost predicate Longest(len: nat, n: int) {
    EncodesWithin(len, n) && forall m: nat :: EncodesWithin(m, n) ==> m <= len
  }

  /** `MaxDataForSize`; it panics at 0. */
  function MaxDataForSize(n: int): (len: int)
    requires n != 0
  {
    match DataPrefixForLength(n)
    case Err(_) => 0x10_0000 - 1 - 3
    case Ok(prefix) => n - |prefix|
  }

  /** How far MaxDataForSize falls short of what its comment promises. */
  function Shortfall(n: nat): nat {
    if n in {0x40, 0x2000, 0x2001} then 1
    else if n <= MAX_LENGTH then 0
    else if n == MAX_LENGTH + 1 then 1
    else if n == MAX_LENGTH + 2 then 2
    else 3
  }

  /** For every size the answer fits, and the longest data is exactly `Shortfall` bytes longer. */
  lemma MaxDataForSizeShortfall(n: nat)
    requires n >= 1
    ensures MaxDataForSize(n) >= 0 && EncodesWithin(MaxDataForSize(n), n)
    ensures Longest(MaxDataForSize(n) + Shortfall(n), n)
  {
  }

  /** The encoding of data has the size the arithmetic says. */
  lemma DataChunkSize(data: Bytes)
    requires |data| <= MAX_LENGTH
    ensures |Encode(DataChunk(data))| == |data| + MinWidth(|data|)
  {
  }

  // ----- what is written is what is read -----

  datatype Item = Data(p: Bytes) | Padding(n: nat)

  predicate Encodable(items: seq<Item>) {
    forall x :: x in items && x.Data? ==> |x.p| <= MAX_LENGTH
  }

  function ChunksOfItem(x: Item): (cs: seq<Chunk>)
    requires x.Data? ==> |x.p| <= MAX_LENGTH
    ensures FitAll(cs)
  {
    match x
    case Data(p) => [DataChunk(p)]
    case Padding(n) => PaddingChunks(n)
  }

  function ChunksOf(items: seq<Item>): (cs: seq<Chunk>)
    requires Encodable(items)
    ensures FitAll(cs)
  {
    if items == [] then [] else ChunksOfItem(items[0]) + ChunksOf(items[1..])
  }

  function DataItems(items: seq<Item>): seq<Bytes> {
    if items == [] then [] else (match items[0] case Data(p) => [p] case Padding(_) => []) + DataItems(items[1..])
  }

  lemma {:induction false} PaddingsHaveNoData(cs: seq<Chunk>)
    requires Paddings(cs)
    ensures DataOf(cs) == []
  {
    if cs == [] {
    } else {
      PaddingsHaveNoData(cs[1..]);
    }
  }

  lemma {:induction false} ItemsAsChunks(items: seq<Item>)
    requires Encodable(items)
    ensures DataOf(ChunksOf(items)) == DataItems(items)
  {
    if items == [] {
    } else {
      ItemsAsChunks(items[1..]);
      var first := ChunksOfItem(items[0]);
      if items[0].Padding? {
        PaddingIsChunks(items[0].n);
        PaddingsHaveNoData(first);
      } else {
        assert first[1..] == [];
      }
      DataOfAppend(first, ChunksOf(items[1..]));
    }
  }

  function BytesOf(items: seq<Item>): Bytes
    requires Encodable(items)
  {
    if items == [] then [] else EncodeAll(ChunksOfItem(items[0])) + BytesOf(items[1..])
  }

  lemma {:induction false} BytesOfItems(items: seq<Item>)
    requires Encodable(items)
    ensures BytesOf(items) == EncodeAll(ChunksOf(items))
  {
    if items == [] {
    } else {
      BytesOfItems(items[1..]);
      EncodeAllAppend(ChunksOfItem(items[0]), ChunksOf(items[1..]));
    }
  }

  lemma BytesOfFrom(items: seq<Item>, i: nat)
    requires Encodable(items) && i < |items|
    ensures BytesOf(items[i..]) == EncodeAll(ChunksOfItem(items[i])) + BytesOf(items[i + 1..])
  {
  }

  method WriteItem(w: Writer, x: Item)
    requires x.Data? ==> |x.p| <= MAX_LENGTH
    requires |EncodeAll(ChunksOfItem(x))| <= w.room
    modifies w
    ensures w.out == old(w.out) + EncodeAll(ChunksOfItem(x))
    ensures w.room == old(w.room) - |EncodeAll(ChunksOfItem(x))|
  {
    match x {
      case Data(p) =>
        assert ChunksOfItem(x)[1..] == [] && EncodeAll(ChunksOfItem(x)) == Encode(DataChunk(p));
        var total, _ := WriteData(w, p);
        assert Encode(DataChunk(p))[..total] == Encode(DataChunk(p));
      case Padding(n) =>
        PaddingIsChunks(n);
        var total, _ := WritePadding(w, n);
        assert PaddingBytes(n)[..total] == PaddingBytes(n);
    }
  }

  /** Any items, written one after another with enough room. */
  method WriteItems(items: seq<Item>, room: nat) returns (w: Writer)
    requires Encodable(items) && |BytesOf(items)| <= room
    ensures w.out == BytesOf(items)
  {
    w := new Writer(room);
    for i := 0 to |items|
      invariant BytesOf(items) == w.out + BytesOf(items[i..])
      invariant fresh(w) && w.room == room - |w.out|
    {
      ghost var item, rest := EncodeAll(ChunksOfItem(items[i])), BytesOf(items[i + 1..]);
      BytesOfFrom(items, i);
      Assoc(w.out, item, rest);
      WriteItem(w, items[i]);
    }
  }

  /** Writing any items, then reading the result back after losing everything past byte `cut`: the
      reader gets the data of the chunks wholly before the cut, and with no cut the written data,
      all of it, in order. */
  method WriteThenRead(items: seq<Item>, room: nat, cut: nat) returns (chunks: seq<Bytes>, err: Error)
    requires Encodable(items) && cut <= |BytesOf(items)| <= room
    ensures var cs := ChunksOf(items); var m := WholeBefore(cs, cut);
      && chunks == DataOf(cs[..m])
      && err == (if cut == |EncodeAll(cs[..m])| then EOF else UnexpectedEOF)
    ensures cut == |BytesOf(items)| ==> chunks == DataItems(items) && err == EOF
  {
    var w := WriteItems(items, room);
    BytesOfItems(items);
    var r := new Reader(w.out[..cut], EOF);
    chunks, err := ReadUntilError(r);
    CutStream(ChunksOf(items), cut);
    ItemsAsChunks(items);
    EntireStream(ChunksOf(items));
    assert cut == |w.out| ==> w.out[..cut] == w.out;
  }
}
