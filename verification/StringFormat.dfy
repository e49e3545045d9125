/** How a list of strings goes over the wire: each string and a NUL, in words of sixteen
    bytes, the last one padded with zeros; and what a parser makes of such words. */
module StringFormat {

  import opened StripFormat

  type Text = seq<Byte>

  const LANES: nat := 16

  // ---------- printing ----------

  /** Each string, and a NUL after it. */
  function Print(list: seq<Text>): seq<Byte> {
    if list == [] then [] else list[0] + [0] + Print(list[1..])
  }

  function Zeros(n: nat): seq<Byte> { seq(n, _ => 0) }

  /** At most sixteen bytes, padded with zeros. */
  function Padded(bs: seq<Byte>): Word
    requires |bs| <= LANES
  {
    bs + Zeros(LANES - |bs|)
  }

  function Chunk(bs: seq<Byte>): (ws: seq<Word>)
    ensures |ws| == (|bs| + LANES - 1) / LANES
  {
    if bs == [] then []
    else if |bs| <= LANES then [Padded(bs)]
    else [Padded(bs[..LANES])] + Chunk(bs[LANES..])
  }

  /** The bytes of all words, in order. */
  function Bytes(ws: seq<Word>): (bs: seq<Byte>)
    ensures |bs| == LANES * |ws|
  {
    seq(LANES * |ws|, k requires 0 <= k < LANES * |ws| => ws[k / LANES][k % LANES])
  }

  lemma BytesAppend(ws: seq<Word>, w: Word)
    ensures Bytes(ws + [w]) == Bytes(ws) + w
  {
    var bs := Bytes(ws + [w]);
    forall k | 0 <= k < |bs| ensures bs[k] == (Bytes(ws) + w)[k] {
      if k >= LANES * |ws| {
        assert k / LANES == |ws| && k % LANES == k - LANES * |ws|;
      }
    }
  }

  lemma BytesPrepend(w: Word, ws: seq<Word>)
    ensures Bytes([w] + ws) == w + Bytes(ws)
  {
    var bs := Bytes([w] + ws);
    forall k | 0 <= k < |bs| ensures bs[k] == (w + Bytes(ws))[k] {
      if k >= LANES {
        assert ([w] + ws)[k / LANES] == ws[(k - LANES) / LANES];
      }
    }
  }

  /** Writing bytes as words loses nothing and adds fewer than sixteen zeros. */
  lemma {:induction false} ChunkRoundTrip(bs: seq<Byte>)
    ensures |bs| <= |Bytes(Chunk(bs))| < |bs| + LANES
    ensures Bytes(Chunk(bs)) == bs + Zeros(|Bytes(Chunk(bs))| - |bs|)
  {
    if 0 < |bs| <= LANES {
      assert Chunk(bs) == [Padded(bs)] + [];
      BytesPrepend(Padded(bs), []);
    } else if bs != [] {
      var head, rest := bs[..LANES], bs[LANES..];
      BytesPrepend(Padded(head), Chunk(rest));
      assert Padded(head) == head && bs == head + rest;
      ChunkRoundTrip(rest);
    }
  }

  // ---------- splitting ----------

  predicate NulFree(t: Text) { forall k :: 0 <= k < |t| ==> t[k] != 0 }

  /** The place of the first NUL, or the length. */
  function FirstNul(t: Text): (n: nat)
    ensures n <= |t| && NulFree(t[..n]) && (n < |t| ==> t[n] == 0)
  {
    if t == [] || t[0] == 0 then 0 else 1 + FirstNul(t[1..])
  }

  function Nonempty(t: Text): seq<Text> { if t == [] then [] else [t] }

  /** The non-empty stretches between NULs, the last one included. */
  function Pieces(t: Text): seq<Text>
    decreases |t|
  {
    var n := FirstNul(t);
    if n == |t| then Nonempty(t) else Nonempty(t[..n]) + Pieces(t[n + 1..])
  }

  /** What follows the last NUL. */
  function Tail(t: Text): Text
    decreases |t|
  {
    var n := FirstNul(t);
    if n == |t| then t else Tail(t[n + 1..])
  }

  function AllPieces(list: seq<Text>): seq<Text> {
    if list == [] then [] else Pieces(list[0]) + AllPieces(list[1..])
  }

  function NonemptyOf(list: seq<Text>): seq<Text> {
    if list == [] then [] else Nonempty(list[0]) + NonemptyOf(list[1..])
  }

  lemma {:induction false} FirstNulIs(h: Text, rest: Text)
    requires NulFree(h)
    ensures FirstNul(h + [0] + rest) == |h|
  {
    if h != [] {
      FirstNulIs(h[1..], rest);
      assert (h + [0] + rest)[1..] == h[1..] + [0] + rest;
    }
  }

  lemma PiecesAtNul(h: Text, rest: Text)
    requires NulFree(h)
    ensures Pieces(h + [0] + rest) == Nonempty(h) + Pieces(rest)
    ensures Tail(h + [0] + rest) == Tail(rest)
  {
    FirstNulIs(h, rest);
    var t := h + [0] + rest;
    assert t[..|h|] == h && t[|h| + 1..] == rest;
  }

  lemma CutAt(t: Text, n: nat)
    requires n < |t| && t[n] == 0
    ensures t == t[..n] + [0] + t[n + 1..]
  {
  }

  lemma Regroup<T>(a: seq<T>, b: seq<T>, c: seq<T>)
    ensures a + (b + c) == (a + b) + c
  {
  }

  lemma JoinedTwice(a: Text, b: Text, c: Text)
    ensures (a + [0] + b) + [0] + c == a + [0] + (b + [0] + c)
  {
  }

  lemma {:induction false} PiecesOfJoined(a: Text, b: Text)
    ensures Pieces(a + [0] + b) == Pieces(a) + Pieces(b)
    ensures Tail(a + [0] + b) == Tail(b)
    decreases |a|
  {
    var n := FirstNul(a);
    if n == |a| {
      assert a[..n] == a;
      PiecesAtNul(a, b);
    } else {
      var head, rest := a[..n], a[n + 1..];
      CutAt(a, n);
      JoinedTwice(head, rest, b);
      var joined := rest + [0] + b;
      PiecesAtNul(head, joined);
      PiecesOfJoined(rest, b);
      Regroup(Nonempty(head), Pieces(rest), Pieces(b));
    }
  }

  lemma {:induction false} PiecesOfZeros(n: nat)
    ensures Pieces(Zeros(n)) == [] && Tail(Zeros(n)) == []
  {
    if n > 0 {
      assert Zeros(n)[1..] == Zeros(n - 1);
      PiecesOfZeros(n - 1);
    }
  }

  lemma {:induction false} PiecesOfPrinted(list: seq<Text>, n: nat)
    ensures Pieces(Print(list) + Zeros(n)) == AllPieces(list)
    ensures Tail(Print(list) + Zeros(n)) == []
  {
    if list == [] {
      assert Print(list) + Zeros(n) == Zeros(n);
      PiecesOfZeros(n);
    } else {
      var rest := Print(list[1..]) + Zeros(n);
      assert Print(list) + Zeros(n) == list[0] + [0] + rest;
      PiecesOfJoined(list[0], rest);
      PiecesOfPrinted(list[1..], n);
    }
  }

  predicate Clean(list: seq<Text>) { forall k :: 0 <= k < |list| ==> NulFree(list[k]) && list[k] != [] }

  lemma {:induction false} PiecesAreClean(t: Text)
    ensures Clean(Pieces(t))
    decreases |t|
  {
    var n := FirstNul(t);
    if n < |t| {
      PiecesAreClean(t[n + 1..]);
    } else {
      assert t[..n] == t;
    }
  }

  lemma {:induction false} AllPiecesAreClean(list: seq<Text>)
    ensures Clean(AllPieces(list))
  {
    if list != [] {
      PiecesAreClean(list[0]);
      AllPiecesAreClean(list[1..]);
    }
  }

  lemma {:induction false} NonemptyIsThere(list: seq<Text>, k: nat)
    requires k < |list| && list[k] != []
    ensures list[k] in NonemptyOf(list)
  {
    if k > 0 {
      NonemptyIsThere(list[1..], k - 1);
    }
  }

  lemma {:induction false} NulFreeIsWhole(list: seq<Text>)
    requires forall k :: 0 <= k < |list| ==> NulFree(list[k])
    ensures AllPieces(list) == NonemptyOf(list)
  {
    if list != [] {
      NulFreeIsWhole(list[1..]);
    }
  }

  lemma {:induction false} CleanIsWhole(list: seq<Text>)
    requires Clean(list)
    ensures NonemptyOf(list) == list
  {
    if list != [] {
      CleanIsWhole(list[1..]);
    }
  }

  // ---------- parsing ----------

  /** The strings found and the one being read. */
  datatype Scan = Scan(found: seq<Text>, current: Text)

  const START: Scan := Scan([], [])

  function Feed(s: Scan, b: Byte): Scan {
    if b != 0 then Scan(s.found, s.current + [b])
    else if s.current != [] then Scan(s.found + [s.current], [])
    else s
  }

  function FeedAll(s: Scan, bs: seq<Byte>): Scan {
    if bs == [] then s else Feed(FeedAll(s, bs[..|bs| - 1]), bs[|bs| - 1])
  }

  /** Everything found, the unterminated rest included. */
  function Flushed(s: Scan): seq<Text> { s.found + Nonempty(s.current) }

  lemma {:induction false} FeedSplits(s: Scan, a: seq<Byte>, b: seq<Byte>)
    ensures FeedAll(s, a + b) == FeedAll(FeedAll(s, a), b)
    decreases |b|
  {
    if b == [] {
      assert a + b == a;
    } else {
      assert (a + b)[..|a + b| - 1] == a + b[..|b| - 1];
      FeedSplits(s, a, b[..|b| - 1]);
    }
  }

  lemma {:induction false} FeedNulFree(s: Scan, t: Text)
    requires NulFree(t)
    ensures FeedAll(s, t) == Scan(s.found, s.current + t)
  {
    if t != [] {
      var most := t[..|t| - 1];
      FeedNulFree(s, most);
      assert t == most + [t[|t| - 1]];
    }
  }

  lemma FeedTerminated(found: seq<Text>, head: Text)
    requires NulFree(head)
    ensures FeedAll(Scan(found, []), head + [0]) == Scan(found + Nonempty(head), [])
  {
    FeedNulFree(Scan(found, []), head);
    assert (head + [0])[..|head|] == head;
    assert Scan(found, []).current + head == head;
  }

  /** The scanner has split the bytes at the NULs. */
  ghost predicate HasSplit(found: seq<Text>, bs: seq<Byte>) {
    var s := FeedAll(Scan(found, []), bs);
    Flushed(s) == found + Pieces(bs) && s.current == Tail(bs)
  }

  lemma FeedAtNul(found: seq<Text>, head: Text, rest: seq<Byte>)
    requires NulFree(head)
    ensures FeedAll(Scan(found, []), head + [0] + rest) == FeedAll(Scan(found + Nonempty(head), []), rest)
  {
    FeedTerminated(found, head);
    FeedSplits(Scan(found, []), head + [0], rest);
  }

  lemma SplitStep(found: seq<Text>, first: seq<Text>, rest: seq<Byte>, bs: seq<Byte>)
    requires HasSplit(found + first, rest)
    requires FeedAll(Scan(found, []), bs) == FeedAll(Scan(found + first, []), rest)
    requires Pieces(bs) == first + Pieces(rest) && Tail(bs) == Tail(rest)
    ensures HasSplit(found, bs)
  {
    Regroup(found, first, Pieces(rest));
  }

  /** The scanner splits at the NULs, whatever the bytes are. */
  lemma {:induction false} FeedIsPieces(found: seq<Text>, bs: seq<Byte>)
    ensures HasSplit(found, bs)
    decreases |bs|
  {
    var n := FirstNul(bs);
    if n == |bs| {
      assert bs[..n] == bs && [] + bs == bs;
      FeedNulFree(Scan(found, []), bs);
    } else {
      var head, rest := bs[..n], bs[n + 1..];
      CutAt(bs, n);
      FeedAtNul(found, head, rest);
      FeedIsPieces(found + Nonempty(head), rest);
      SplitStep(found, Nonempty(head), rest, bs);
    }
  }

  /** The strings read from words by a parser that drops an unterminated rest. */
  function Parse(ws: seq<Word>): seq<Text> { FeedAll(START, Bytes(ws)).found }

  /** The strings read from words by a parser that keeps an unterminated rest. */
  function ParseWithTail(ws: seq<Word>): seq<Text> { Flushed(FeedAll(START, Bytes(ws))) }

  /** For all words, the two parsers return the same strings but for what follows the
      last NUL, which only the second one returns, unless it is empty. */
  lemma ParsersDifferByTail(ws: seq<Word>)
    ensures ParseWithTail(ws) == Pieces(Bytes(ws)) == Parse(ws) + Nonempty(Tail(Bytes(ws)))
  {
    FeedIsPieces([], Bytes(ws));
  }

  lemma PiecesOfWords(list: seq<Text>)
    ensures Pieces(Bytes(Chunk(Print(list)))) == AllPieces(list) && Tail(Bytes(Chunk(Print(list)))) == []
  {
    var bs := Print(list);
    ChunkRoundTrip(bs);
    PiecesOfPrinted(list, |Bytes(Chunk(bs))| - |bs|);
  }

  /** For all lists, wherever the word boundaries fall, both parsers return exactly the
      non-empty stretches between NULs of every string, in order. */
  lemma StringsRoundTrip(list: seq<Text>)
    ensures Parse(Chunk(Print(list))) == AllPieces(list)
    ensures ParseWithTail(Chunk(Print(list))) == AllPieces(list)
  {
    PiecesOfWords(list);
    ParsersDifferByTail(Chunk(Print(list)));
  }

  /** The non-empty strings come back if and only if no string holds a NUL. */
  lemma NonemptyComeBackIffNulFree(list: seq<Text>)
    ensures Parse(Chunk(Print(list))) == NonemptyOf(list)
            <==> forall k :: 0 <= k < |list| ==> NulFree(list[k])
  {
    StringsRoundTrip(list);
    if forall k :: 0 <= k < |list| ==> NulFree(list[k]) {
      NulFreeIsWhole(list);
    } else {
      var k :| 0 <= k < |list| && !NulFree(list[k]);
      AllPiecesAreClean(list);
      NonemptyIsThere(list, k);
    }
  }

  /** The whole list comes back if and only if all strings are non-empty and hold no NUL. */
  lemma ListComesBackIffClean(list: seq<Text>)
    ensures Parse(Chunk(Print(list))) == list <==> Clean(list)
  {
    StringsRoundTrip(list);
    AllPiecesAreClean(list);
    if Clean(list) {
      CleanIsWhole(list);
      NulFreeIsWhole(list);
    }
  }

  /** A cut block of words yields a prefix of the strings of the whole block. */
  lemma {:induction false} ParseOfPrefix(ws: seq<Word>, n: nat)
    requires n <= |ws|
    ensures Parse(ws[..n]) <= Parse(ws)
  {
    var head, tail := Bytes(ws[..n]), Bytes(ws)[LANES * n..];
    assert Bytes(ws) == head + tail;
    FeedSplits(START, head, tail);
    FeedKeepsFound(FeedAll(START, head), tail);
  }

  lemma {:induction false} FeedKeepsFound(s: Scan, bs: seq<Byte>)
    ensures s.found <= FeedAll(s, bs).found
  {
    if bs != [] {
      FeedKeepsFound(s, bs[..|bs| - 1]);
    }
  }

  /** What a receiver returns that takes the number of words from one byte. */
  function Received(ws: seq<Word>): seq<Text> { Parse(ws[..|ws| % 256]) }

  lemma ReceivedOfShort(ws: seq<Word>)
    requires |ws| <= 255
    ensures Received(ws) == Parse(ws)
  {
    assert ws[..|ws|] == ws;
  }

  /** Whatever is sent, the receiver returns the first strings sent, and all of them when
      the block has at most 255 words. */
  lemma ReceivedIsPrefix(list: seq<Text>)
    ensures Received(Chunk(Print(list))) <= AllPieces(list)
    ensures |Chunk(Print(list))| <= 255 ==> Received(Chunk(Print(list))) == AllPieces(list)
  {
    var ws := Chunk(Print(list));
    StringsRoundTrip(list);
    ParseOfPrefix(ws, |ws| % 256);
    if |ws| <= 255 {
      ReceivedOfShort(ws);
    }
  }
}
