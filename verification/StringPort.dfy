/** The code that writes and reads blocks of strings, against StringFormat. */
module StringPort {

  import opened StripFormat
  import opened StringFormat

  /** The write-only port of 128-bit words. */
  class OutPort {
    var pushed: seq<Word>

    constructor ()
      ensures pushed == []
    {
      pushed := [];
    }

    /** Sixteen bytes at a time, the last word padded. */
    method Write(buf: seq<Byte>)
      modifies this
      ensures pushed == old(pushed) + Chunk(buf)
    {
      var p: nat, n: nat := 0, |buf|;
      while n != 0
        invariant p + n == |buf|
        invariant pushed + Chunk(buf[p..]) == old(pushed) + Chunk(buf)
        decreases n
      {
        var chunk := if n < LANES then n else LANES;
        WriteStep(buf, p, chunk);
        ghost var rest := Chunk(buf[p + chunk..]);
        assert pushed + ([Padded(buf[p..p + chunk])] + rest) == (pushed + [Padded(buf[p..p + chunk])]) + rest;
        pushed := pushed + [Padded(buf[p..p + chunk])];
        p, n := p + chunk, n - chunk;
      }
    }

    /** A list of strings, each followed by a NUL, in one burst. */
    method SendStrings(list: seq<Text>)
      modifies this
      ensures pushed == old(pushed) + Chunk(Print(list))
    {
      var blob: seq<Byte> := [];
      for k := 0 to |list|
        invariant pushed == old(pushed)
        invariant blob + Print(list[k..]) == Print(list)
      {
        assert list[k..][1..] == list[k + 1..];
        assert blob + (list[k] + [0] + Print(list[k + 1..])) == (blob + list[k] + [0]) + Print(list[k + 1..]);
        blob := blob + list[k];
        blob := blob + [0];
      }
      assert blob + [] == blob;
      Write(blob);
    }
  }

  lemma WriteStep(buf: seq<Byte>, p: nat, chunk: nat)
    requires p < |buf| && chunk == if |buf| - p < LANES then |buf| - p else LANES
    ensures Chunk(buf[p..]) == [Padded(buf[p..p + chunk])] + Chunk(buf[p + chunk..])
  {
    var rest := buf[p..];
    assert rest[..chunk] == buf[p..p + chunk] && rest[chunk..] == buf[p + chunk..];
    if |rest| <= LANES {
      assert rest[..chunk] == rest;
    }
  }

  /** The read-only port: every read takes the next word of the supply. */
  class InPort {
    const supply: nat -> Word
    var taken: nat

    constructor (words: nat -> Word)
      ensures supply == words && taken == 0
    {
      supply, taken := words, 0;
    }

    /** The words that reads number from, from + 1, ... take. */
    function Supplied(from: nat, n: nat): (ws: seq<Word>)
      ensures |ws| == n
    {
      seq(n, k requires 0 <= k < n => supply(from + k))
    }

    method Pop() returns (w: Word)
      modifies this
      ensures w == supply(old(taken)) && taken == old(taken) + 1
    {
      w := supply(taken);
      taken := taken + 1;
    }

    /** Fills the buffer; the last word is read whole and only its head is kept. */
    method Read(dst: array<Byte>)
      modifies this, dst
      ensures taken == old(taken) + (dst.Length + LANES - 1) / LANES
      ensures dst[..] == Bytes(Supplied(old(taken), taken - old(taken)))[..dst.Length]
    {
      var p: nat, n: nat := 0, dst.Length;
      while n != 0
        invariant p + n == dst.Length && old(taken) <= taken && (n != 0 ==> p == LANES * (taken - old(taken)))
        invariant taken == old(taken) + (p + LANES - 1) / LANES
        invariant forall k :: 0 <= k < p ==> dst[k] == supply(old(taken) + k / LANES)[k % LANES]
        decreases n
      {
        var w := Pop();
        var chunk := if n < LANES then n else LANES;
        UnpackWord(dst, p, w, chunk);
        p, n := p + chunk, n - chunk;
      }
    }

    /** The header's low byte is the number of words that follow. A string that no NUL
        ends is dropped; nothing is returned when a read fails. */
    method ReceiveResultStrings(initialized: bool, headerValid: bool, burstValid: bool)
      returns (ok: bool, results: seq<Text>)
      modifies this
      ensures var count := supply(old(taken))[0];
              && ok == (initialized && headerValid && (count == 0 || burstValid))
              && results == (if ok then Parse(Supplied(old(taken) + 1, count)) else [])
              && taken == old(taken) + (if initialized && headerValid then 1 else 0) + (if ok then count else 0)
    {
      results := [];
      if !initialized || !headerValid {
        return false, results;
      }
      var header := Pop();
      var count := header[0];
      if count == 0 {
        return true, results;
      }
      if !burstValid {
        return false, results;
      }
      var burst := ReadBurst(count);
      results := SplitWords(burst);
      return true, results;
    }

    method ReadBurst(count: nat) returns (burst: seq<Word>)
      modifies this
      ensures taken == old(taken) + count && burst == Supplied(old(taken), count)
    {
      burst := [];
      for i := 0 to count
        invariant taken == old(taken) + i && burst == Supplied(old(taken), i)
      {
        var w := Pop();
        burst := burst + [w];
      }
    }

    /** The other reader of the same block, which keeps an unterminated string. */
    method ReadStringResults() returns (results: seq<Text>)
      modifies this
      ensures var count := supply(old(taken))[0];
              && results == ParseWithTail(Supplied(old(taken) + 1, count))
              && taken == old(taken) + 1 + count
    {
      var header := Pop();
      var count := header[0];
      if count == 0 {
        assert Bytes([]) == [];
        return [];
      }
      var buf := new Byte[count * LANES];
      Read(buf);
      results := SplitBytes(buf[..]);
      assert Bytes(Supplied(old(taken) + 1, count))[..count * LANES] == Bytes(Supplied(old(taken) + 1, count));
    }
  }

  /** The first n bytes of a word, to the buffer from place p on. */
  method UnpackWord(dst: array<Byte>, p: nat, w: Word, n: nat)
    requires n <= LANES && p + n <= dst.Length
    modifies dst
    ensures dst[..] == old(dst[..p]) + w[..n] + old(dst[p + n..])
  {
    for i := 0 to n
      invariant dst[..] == old(dst[..p]) + w[..i] + old(dst[p + i..])
    {
      dst[p + i] := w[i];
    }
  }

  method SplitBytes(buf: seq<Byte>) returns (results: seq<Text>)
    ensures results == Flushed(FeedAll(START, buf))
  {
    results := [];
    var current: Text := [];
    for k := 0 to |buf|
      invariant Scan(results, current) == FeedAll(START, buf[..k])
    {
      assert buf[..k + 1][..k] == buf[..k];
      var b := buf[k];
      if b == 0 {
        if current != [] {
          results, current := results + [current], [];
        }
      } else {
        current := current + [b];
      }
    }
    assert buf[..|buf|] == buf;
    if current != [] {
      results := results + [current];
    }
  }

  method SplitWords(words: seq<Word>) returns (results: seq<Text>)
    ensures results == Parse(words)
  {
    results := [];
    var buffer: Text := [];
    for n := 0 to |words|
      invariant Scan(results, buffer) == FeedAll(START, Bytes(words[..n]))
    {
      ghost var before := Scan(results, buffer);
      for k := 0 to LANES
        invariant Scan(results, buffer) == FeedAll(before, words[n][..k])
      {
        assert words[n][..k + 1][..k] == words[n][..k];
        var c := words[n][k];
        if c == 0 {
          if buffer != [] {
            results, buffer := results + [buffer], [];
          }
        } else {
          buffer := buffer + [c];
        }
      }
      assert words[n][..LANES] == words[n];
      assert words[..n + 1] == words[..n] + [words[n]];
      BytesAppend(words[..n], words[n]);
      FeedSplits(START, Bytes(words[..n]), words[n]);
    }
    assert words[..|words|] == words;
  }
}
