/** Reading a whole stream of chunks: what one `ReadData` returns on any byte string, and what
    repeated calls return on an encoded stream, entire or cut off anywhere. */
module ChunkStream {
  import opened Bytes
  import opened ChunkGrammar

  /** Why a read found no data chunk: the input ended between chunks, or inside one, or held a
      length prefix of more than three bytes. */
  datatype Stop = AtBoundary | InsideChunk | PrefixTooLong

  datatype ReadResult = Got(data: Bytes, rest: Bytes) | Stopped(why: Stop)

  lemma ParseShrinks(s: Bytes)
    ensures ParseChunk(s).One? ==> |ParseChunk(s).rest| < |s|
  {
  }

  /** One ReadData: the first data chunk, skipping padding. */
  function Read(s: Bytes): (r: ReadResult)
    ensures r.Got? ==> |r.rest| < |s|
    decreases |s|
  {
    match ParseChunk(s)
    case Nothing => Stopped(AtBoundary)
    case Short => Stopped(InsideChunk)
    case TooLong => Stopped(PrefixTooLong)
    case One(c, rest) => ParseShrinks(s); if c.isData then Got(c.body, rest) else Read(rest)
  }

  /** ReadData until it fails: the chunks got, and why it stopped. */
  function ReadAll(s: Bytes): (seq<Bytes>, Stop)
    decreases |s|
  {
    match Read(s)
    case Stopped(why) => ([], why)
    case Got(data, rest) =>
      var (more, why) := ReadAll(rest);
      ([data] + more, why)
  }

  // ----- one read, on any input -----

  /** `s` is some padding chunks and then `tail`. */
  ghost predicate PaddedBefore(s: Bytes, pads: seq<Chunk>, tail: Bytes) {
    Paddings(pads) && s == EncodeAll(pads) + tail
  }

  lemma {:induction false} PaddingInvisible(pads: seq<Chunk>, tail: Bytes)
    requires Paddings(pads)
    ensures Read(EncodeAll(pads) + tail) == Read(tail)
  {
    if pads == [] {
      assert EncodeAll(pads) + tail == tail;
    } else {
      var rest := EncodeAll(pads[1..]) + tail;
      Assoc(Encode(pads[0]), EncodeAll(pads[1..]), tail);
      ParseComplete(pads[0], rest);
      PaddingInvisible(pads[1..], tail);
    }
  }

  lemma PadMore(c: Chunk, pads: seq<Chunk>, rest: Bytes, tail: Bytes)
    requires Fits(c) && !c.isData && PaddedBefore(rest, pads, tail)
    ensures PaddedBefore(Encode(c) + rest, [c] + pads, tail)
  {
    assert ([c] + pads)[0] == c && ([c] + pads)[1..] == pads;
    Assoc(Encode(c), EncodeAll(pads), tail);
  }

  /** The padding a read skips, and what it stops at. */
  lemma {:induction false} SkippedPadding(s: Bytes) returns (pads: seq<Chunk>, tail: Bytes)
    ensures PaddedBefore(s, pads, tail) && Read(s) == Read(tail)
    ensures ParseChunk(tail).One? ==> ParseChunk(tail).c.isData
    decreases |s|
  {
    ParseSound(s);
    match ParseChunk(s)
    case One(c, rest) =>
      if c.isData {
        pads, tail := [], s;
      } else {
        ParseShrinks(s);
        pads, tail := SkippedPadding(rest);
        PadMore(c, pads, rest, tail);
        pads := [c] + pads;
      }
    case _ => pads, tail := [], s;
  }

  /** Nothing but padding chunks. */
  ghost predicate EndsBetween(s: Bytes) {
    exists pads :: PaddedBefore(s, pads, [])
  }

  /** Padding, and then a chunk cut off. */
  ghost predicate EndsInside(s: Bytes) {
    exists pads, tail :: PaddedBefore(s, pads, tail) && CutChunk(tail)
  }

  /** Padding, and then a length prefix of more than three bytes. */
  ghost predicate TurnsOverlong(s: Bytes) {
    exists pads, tail :: PaddedBefore(s, pads, tail) && Overlong(tail)
  }

  /** Exactly when a read returns what, on any byte string at all. */
  lemma ReadClassified(s: Bytes)
    ensures Read(s) == Stopped(AtBoundary) <==> EndsBetween(s)
    ensures Read(s) == Stopped(InsideChunk) <==> EndsInside(s)
    ensures Read(s) == Stopped(PrefixTooLong) <==> TurnsOverlong(s)
  {
    var pads0, tail0 := SkippedPadding(s);
    ParseShort(tail0);
    ParseTooLong(tail0);
    forall pads, tail | PaddedBefore(s, pads, tail)
      ensures Read(s) == Read(tail)
      ensures ParseChunk(tail) == Short <==> CutChunk(tail)
      ensures ParseChunk(tail) == TooLong <==> Overlong(tail)
    {
      PaddingInvisible(pads, tail);
      ParseShort(tail);
      ParseTooLong(tail);
    }
  }

  /** A read succeeds exactly on padding followed by a whole data chunk; it consumes those and no
      byte more, and what it returns is no longer than the format allows. */
  lemma ReadGot(s: Bytes, data: Bytes, rest: Bytes)
    ensures Read(s) == Got(data, rest) <==>
      exists pads, c :: Fits(c) && c.isData && c.body == data && PaddedBefore(s, pads, Encode(c) + rest)
    ensures Read(s) == Got(data, rest) ==> |data| <= MAX_LENGTH
  {
    if Read(s) == Got(data, rest) {
      var pads, tail := SkippedPadding(s);
      ParseSound(tail);
      var c := ParseChunk(tail).c;
      assert Fits(c) && PaddedBefore(s, pads, Encode(c) + rest);
    }
    forall pads, c | Fits(c) && c.isData && c.body == data && PaddedBefore(s, pads, Encode(c) + rest)
      ensures Read(s) == Got(data, rest)
    {
      PaddingInvisible(pads, Encode(c) + rest);
      ParseComplete(c, rest);
    }
  }

  // ----- whole streams -----

  lemma ReadAllStep(c: Chunk, s: Bytes)
    requires Fits(c)
    ensures ReadAll(Encode(c) + s) == ((if c.isData then [c.body] else []) + ReadAll(s).0, ReadAll(s).1)
  {
    ParseComplete(c, s);
    if !c.isData {
      assert Read(Encode(c) + s) == Read(s);
      assert [] + ReadAll(s).0 == ReadAll(s).0;
    }
  }

  /** The number of leading chunks that lie wholly within the first `k` bytes. */
  function WholeBefore(cs: seq<Chunk>, k: nat): (m: nat)
    requires FitAll(cs)
    ensures m <= |cs|
  {
    if cs == [] || k < |Encode(cs[0])| then 0 else 1 + WholeBefore(cs[1..], k - |Encode(cs[0])|)
  }

  lemma {:induction false} WholeBeforeIsExact(cs: seq<Chunk>, k: nat)
    requires FitAll(cs)
    ensures var m := WholeBefore(cs, k);
      |EncodeAll(cs[..m])| <= k && (m < |cs| ==> k < |EncodeAll(cs[..m + 1])|)
  {
    if cs != [] && |Encode(cs[0])| <= k {
      var m := WholeBefore(cs, k);
      WholeBeforeIsExact(cs[1..], k - |Encode(cs[0])|);
      assert cs[..m][1..] == cs[1..][..m - 1];
      if m < |cs| {
        assert cs[..m + 1][1..] == cs[1..][..m];
      }
    } else if cs != [] {
      assert EncodeAll(cs[..1]) == Encode(cs[0]);
    }
  }

  /** The first of the first `m` chunks, and the others. */
  lemma FirstChunks(cs: seq<Chunk>, m: nat)
    requires FitAll(cs) && 1 <= m <= |cs|
    ensures EncodeAll(cs[..m]) == Encode(cs[0]) + EncodeAll(cs[1..][..m - 1])
    ensures DataOf(cs[..m]) == (if cs[0].isData then [cs[0].body] else []) + DataOf(cs[1..][..m - 1])
  {
    assert cs[..m][0] == cs[0] && cs[..m][1..] == cs[1..][..m - 1];
  }

  lemma CutInFirst(cs: seq<Chunk>, k: nat)
    requires FitAll(cs) && cs != [] && k < |Encode(cs[0])|
    ensures ReadAll(EncodeAll(cs)[..k]) == ([], if k == 0 then AtBoundary else InsideChunk)
  {
    TakeAcross(Encode(cs[0]), EncodeAll(cs[1..]), k);
    var s := Encode(cs[0])[..k];
    if k > 0 {
      assert CutOf(s, cs[0]);
      CutIsShort(s, cs[0]);
    }
  }

  /** What a stream cut after `k` bytes should give: the data chunks wholly before the cut, and a clean
      end if the cut is between chunks. */
  function BeforeCut(cs: seq<Chunk>, k: nat): (seq<Bytes>, Stop)
    requires FitAll(cs)
  {
    var m := WholeBefore(cs, k);
    (DataOf(cs[..m]), if k == |EncodeAll(cs[..m])| then AtBoundary else InsideChunk)
  }

  lemma BeforeLaterCut(cs: seq<Chunk>, k: nat)
    requires FitAll(cs) && cs != [] && k >= |Encode(cs[0])|
    ensures var (later, end) := BeforeCut(cs[1..], k - |Encode(cs[0])|);
      BeforeCut(cs, k) == ((if cs[0].isData then [cs[0].body] else []) + later, end)
  {
    FirstChunks(cs, WholeBefore(cs, k));
  }

  lemma CutLater(cs: seq<Chunk>, k: nat)
    requires FitAll(cs) && cs != [] && |Encode(cs[0])| <= k <= |EncodeAll(cs)|
    ensures var k' := k - |Encode(cs[0])|;
      k' <= |EncodeAll(cs[1..])| && EncodeAll(cs)[..k] == Encode(cs[0]) + EncodeAll(cs[1..])[..k']
  {
    TakeAcross(Encode(cs[0]), EncodeAll(cs[1..]), k);
  }

  lemma CutFromFirst(cs: seq<Chunk>, k: nat, cut: Bytes, later: Bytes)
    requires FitAll(cs) && cs != [] && |Encode(cs[0])| <= k && cut == Encode(cs[0]) + later
    requires ReadAll(later) == BeforeCut(cs[1..], k - |Encode(cs[0])|)
    ensures ReadAll(cut) == BeforeCut(cs, k)
  {
    ReadAllStep(cs[0], later);
    BeforeLaterCut(cs, k);
  }

  /** A stream cut after any `k` of its bytes gives exactly the data chunks wholly before the cut,
      then ends cleanly if the cut is between chunks and unexpectedly if it is inside one. */
  lemma {:induction false} CutStream(cs: seq<Chunk>, k: nat)
    requires FitAll(cs) && k <= |EncodeAll(cs)|
    ensures ReadAll(EncodeAll(cs)[..k]) == BeforeCut(cs, k)
  {
    if cs == [] {
    } else if k < |Encode(cs[0])| {
      CutInFirst(cs, k);
      assert cs[..0] == [];
    } else {
      var k' := k - |Encode(cs[0])|;
      CutLater(cs, k);
      CutStream(cs[1..], k');
      CutFromFirst(cs, k, EncodeAll(cs)[..k], EncodeAll(cs[1..])[..k']);
    }
  }

  /** An entire stream gives all its data chunks in order and then ends cleanly. */
  lemma {:induction false} EntireStream(cs: seq<Chunk>)
    requires FitAll(cs)
    ensures ReadAll(EncodeAll(cs)) == (DataOf(cs), AtBoundary)
  {
    if cs == [] {
    } else {
      ReadAllStep(cs[0], EncodeAll(cs[1..]));
      EntireStream(cs[1..]);
    }
  }

  lemma FitAllAppend(cs: seq<Chunk>, ds: seq<Chunk>)
    requires FitAll(cs) && FitAll(ds)
    ensures FitAll(cs + ds)
  {
  }

  lemma {:induction false} EncodeAllAppend(cs: seq<Chunk>, ds: seq<Chunk>)
    requires FitAll(cs) && FitAll(ds)
    ensures FitAll(cs + ds) && EncodeAll(cs + ds) == EncodeAll(cs) + EncodeAll(ds)
  {
    if cs == [] {
      assert cs + ds == ds;
    } else {
      EncodeAllAppend(cs[1..], ds);
      FitAllAppend(cs, ds);
      assert (cs + ds)[0] == cs[0] && (cs + ds)[1..] == cs[1..] + ds;
      Assoc(Encode(cs[0]), EncodeAll(cs[1..]), EncodeAll(ds));
    }
  }

  lemma {:induction false} DataOfAppend(cs: seq<Chunk>, ds: seq<Chunk>)
    ensures DataOf(cs + ds) == DataOf(cs) + DataOf(ds)
  {
    if cs == [] {
      assert cs + ds == ds;
    } else {
      DataOfAppend(cs[1..], ds);
      assert (cs + ds)[0] == cs[0] && (cs + ds)[1..] == cs[1..] + ds;
      var head := if cs[0].isData then [cs[0].body] else [];
      Assoc(head, DataOf(cs[1..]), DataOf(ds));
    }
  }
}
