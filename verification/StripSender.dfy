/** The sender of a batch of images, as StripFormat describes it. */
module StripSender {

  import opened StripFormat

  // ---------- the sender ----------

  /** The device at the other end: whether it could be mapped, the commands and the
      words written so far. */
  class Bridge {
    const initialized: bool
    var commands: seq<nat>
    var words: seq<Word>

    constructor (mapped: bool)
      ensures initialized == mapped && commands == [] && words == []
    {
      initialized, commands, words := mapped, [], [];
    }

    /** A burst of words; ready says whether the output port took it. */
    method WriteBurst(packed: seq<Word>, ready: bool) returns (ok: bool)
      modifies this`words
      ensures ok == ready
      ensures words == if ready then old(words) + packed else old(words)
    {
      if ready {
        words := words + packed;
      }
      return ready;
    }

    /** The word that was sent, if one was: type 2, the width from bit 12 and the count
        from bit 4 on. */
    predicate UploadWord(before: seq<nat>, after: seq<nat>, sent: bool, count: nat, width: nat) {
      after == if sent then before + [0x2000_0000 + 0x1000 * width + 0x10 * count] else before
    }

    method CmdUpload(count: nat, width: nat) returns (ok: bool)
      requires count < 256
      modifies this`commands
      ensures ok == (initialized && width <= MAX_WIDTH)
      ensures commands == if ok then old(commands) + [UploadCommand(count, width)] else old(commands)
      ensures UploadWord(old(commands), commands, ok, count, width)
    {
      if width <= MAX_WIDTH {
        UploadRoundTrip(count, width);
      }
      if !initialized || width > MAX_WIDTH {
        return false;
      }
      commands := commands + [RawCommand(UPLOAD, width * 0x1000 + count * 16)];
      return true;
    }

    method SendUint16Array(values: seq<int>, ready: bool) returns (ok: bool)
      requires AllShort(values)
      modifies this`words
      ensures ok == (initialized && ready)
      ensures words == if ok then old(words) + Pack(values) else old(words)
    {
      if !initialized {
        return false;
      }
      var packed := PackShorts(values);
      ok := WriteBurst(packed, ready);
    }

    /** The columns of a flat strip, sixteen signed bytes each, one word a column. */
    method SendImageColumnsFlat(flat: array<int>, ready: bool, ghost cs: seq<Column>) returns (ok: bool)
      requires Flattened(flat[..], cs)
      modifies this`words
      ensures ok == (initialized && ready)
      ensures words == if ok then old(words) + ColumnWords(cs) else old(words)
    {
      if !initialized {
        return false;
      }
      var columns := flat.Length / HEIGHT;
      var packed: seq<Word> := [];
      for col := 0 to columns
        invariant words == old(words)
        invariant packed == ColumnWords(cs[..col])
      {
        var word: seq<Byte> := seq(16, _ => 0);
        for row := 0 to HEIGHT
          invariant |word| == 16
          invariant forall b :: HEIGHT - row <= b < HEIGHT ==> word[b] == ColumnWord(cs[col])[b]
        {
          assert flat[..][col * HEIGHT + row] == Signed(cs[col][row]);
          word := word[15 - row := AsByte(flat[col * HEIGHT + row])];
        }
        assert word == ColumnWord(cs[col]);
        packed := packed + [word];
      }
      assert cs[..columns] == cs;
      ok := WriteBurst(packed, ready);
    }

    predicate Accepts(imgs: seq<Image>) {
      initialized && AllWellFormed(imgs) && WireWidth(imgs) <= MAX_WIDTH
    }

    /** A batch of images. A batch that is not sixteen rows of equal length each, or too
        wide, sends nothing; after the command, a port that is not ready stops the rest. */
    method SendImageStrip(imgs: seq<Image>, pointsReady: bool, columnsReady: bool) returns (ok: bool)
      modifies this`commands, this`words
      ensures ok == (Accepts(imgs) && pointsReady && columnsReady)
      ensures commands == if Accepts(imgs) then old(commands) + [CommandFor(imgs)] else old(commands)
      ensures AllWellFormed(imgs) ==>
                && Accepts(imgs) == (initialized && |Strip(imgs)| % 0x1_0000_0000 <= 0xFFFF)
                && UploadWord(old(commands), commands, Accepts(imgs), |imgs| % 256, |Strip(imgs)| % 0x1_0000_0000)
      ensures ok ==> words == old(words) + Encode(imgs)
      ensures Accepts(imgs) && pointsReady && !ok ==> words == old(words) + Pack(Breakpoints(imgs, 0))
      ensures !Accepts(imgs) || !pointsReady ==> words == old(words)
    {
      if !initialized {
        return false;
      }
      var good, total, points := Measure(imgs);
      if !good {
        return false;
      }
      var flat := FlatStrip(imgs, total);
      ok := UploadFor(imgs, total);
      if !ok {
        return false;
      }
      ok := SendWords(points, flat, pointsReady, columnsReady, Strip(imgs));
    }

    /** The breakpoints, then the columns. */
    method SendWords(points: seq<int>, flat: array<int>, pointsReady: bool, columnsReady: bool, ghost cs: seq<Column>)
      returns (ok: bool)
      requires initialized && AllShort(points) && Flattened(flat[..], cs)
      modifies this`words
      ensures ok == (pointsReady && columnsReady)
      ensures ok ==> words == old(words) + (Pack(points) + ColumnWords(cs))
      ensures pointsReady && !ok ==> words == old(words) + Pack(points)
      ensures !pointsReady ==> words == old(words)
    {
      ok := SendUint16Array(points, pointsReady);
      if !ok {
        return false;
      }
      ok := SendImageColumnsFlat(flat, columnsReady, cs);
    }

    /** The count goes out as an unsigned 8-bit, the width as an unsigned 32-bit number. */
    method UploadFor(imgs: seq<Image>, total: nat) returns (ok: bool)
      requires initialized && AllWellFormed(imgs) && total == |Strip(imgs)|
      modifies this`commands
      ensures ok == Accepts(imgs)
      ensures commands == if ok then old(commands) + [CommandFor(imgs)] else old(commands)
      ensures UploadWord(old(commands), commands, ok, |imgs| % 256, |Strip(imgs)| % 0x1_0000_0000)
    {
      ok := CmdUpload(|imgs| % 256, total % 0x1_0000_0000);
    }
  }

  lemma MoveOne<T>(xs: seq<T>, x: T, ys: seq<T>)
    ensures xs + ([x] + ys) == (xs + [x]) + ys
  {
  }

  /** What is left of the values from i on. */
  function From(values: seq<int>, i: nat): seq<int> { if i <= |values| then values[i..] else [] }

  lemma PackStep(values: seq<int>, i: nat)
    requires AllShort(values) && i < |values|
    ensures Pack(From(values, i)) == [PackEight(Eight(values[i..]))] + Pack(From(values, i + PER_WORD))
  {
    assert Rest(values[i..]) == From(values, i + PER_WORD);
  }

  method PackShorts(values: seq<int>) returns (packed: seq<Word>)
    requires AllShort(values)
    ensures packed == Pack(values)
  {
    packed := [];
    var i := 0;
    while i < |values|
      invariant packed + Pack(From(values, i)) == Pack(values)
    {
      var word := PackWord(values, i);
      PackStep(values, i);
      MoveOne(packed, word, Pack(From(values, i + PER_WORD)));
      packed := packed + [word];
      i := i + PER_WORD;
    }
    assert packed + [] == packed;
  }

  method PackWord(values: seq<int>, i: nat) returns (word: Word)
    requires AllShort(values) && i < |values|
    ensures word == PackEight(Eight(values[i..]))
  {
    ghost var tail := Eight(values[i..]);
    word := seq(16, _ => 0);
    var j := 0;
    while j < PER_WORD && i + j < |values|
      invariant j <= PER_WORD && i + j <= |values|
      invariant forall b :: 0 <= b < 16 ==> word[b] == if b / 2 < j then PackedByte(tail, b) else 0
    {
      var v := values[i + j];
      assert tail[j] == v;
      word := word[2 * j := v % 256][2 * j + 1 := v / 256];
      j := j + 1;
    }
    assert j == |tail|;
  }

  /** Sixteen signed bytes for each column, one column after the other. */
  ghost predicate Flattened(flat: seq<int>, cs: seq<Column>) {
    && |flat| == |cs| * HEIGHT
    && forall c, y :: 0 <= c < |cs| && 0 <= y < HEIGHT ==> flat[c * HEIGHT + y] == Signed(cs[c][y])
  }

  /** After n images, total columns and these points, what is left makes up the batch. */
  ghost predicate MeasuredTo(imgs: seq<Image>, n: nat, total: nat, points: seq<int>)
    requires AllWellFormed(imgs)
  {
    && n <= |imgs|
    && points + Breakpoints(imgs[n..], total) == Breakpoints(imgs, 0)
    && total + |Strip(imgs[n..])| == |Strip(imgs)|
  }

  lemma MeasureOne(imgs: seq<Image>, n: nat, total: nat, points: seq<int>)
    requires AllWellFormed(imgs) && n < |imgs| && MeasuredTo(imgs, n, total, points)
    ensures var next := total + Width(imgs[n]);
            MeasuredTo(imgs, n + 1, next, points + [(next - 1) % (MAX_WIDTH + 1)])
  {
    assert imgs[n..][1..] == imgs[n + 1..];
    var next := total + Width(imgs[n]);
    MoveOne(points, (next - 1) % (MAX_WIDTH + 1), Breakpoints(imgs[n + 1..], next));
  }

  /** Checks every image and sums up the widths and the breakpoints on the way. */
  method Measure(imgs: seq<Image>) returns (good: bool, total: nat, points: seq<int>)
    ensures good <==> AllWellFormed(imgs)
    ensures good ==> total == |Strip(imgs)| && points == Breakpoints(imgs, 0)
  {
    total, points := 0, [];
    assert imgs[0..] == imgs;
    for n := 0 to |imgs|
      invariant forall k :: 0 <= k < n ==> WellFormed(imgs[k])
      invariant AllWellFormed(imgs) ==> MeasuredTo(imgs, n, total, points)
    {
      var fine := IsWellFormed(imgs[n]);
      if !fine {
        return false, total, points;
      }
      if AllWellFormed(imgs) {
        MeasureOne(imgs, n, total, points);
      }
      total := total + |imgs[n][0]|;
      points := points + [(total - 1) % (MAX_WIDTH + 1)];
    }
    good := true;
  }

  method IsWellFormed(img: Image) returns (ok: bool)
    ensures ok <==> WellFormed(img)
  {
    if |img| != HEIGHT {
      return false;
    }
    for r := 0 to |img|
      invariant forall y :: 0 <= y < r ==> |img[y]| == |img[0]|
    {
      if |img[r]| != |img[0]| {
        return false;
      }
    }
    return true;
  }

  method FlatStrip(imgs: seq<Image>, total: nat) returns (flat: array<int>)
    requires AllWellFormed(imgs) && total == |Strip(imgs)|
    ensures fresh(flat) && Flattened(flat[..], Strip(imgs))
  {
    flat := new int[total * HEIGHT];
    ghost var cs := Strip(imgs);
    var from := 0;
    assert cs[0..] == cs;
    for n := 0 to |imgs|
      invariant from <= total && cs[from..] == Strip(imgs[n..])
      invariant forall c, y :: 0 <= c < from && 0 <= y < HEIGHT ==> flat[c * HEIGHT + y] == Signed(cs[c][y])
    {
      assert imgs[n..][1..] == imgs[n + 1..];
      FlattenImage(flat, from, imgs[n], cs);
      from := from + |imgs[n][0]|;
      assert cs[from..] == Strip(imgs[n + 1..]);
    }
  }

  /** Writes the pixels of one image, row by row, behind column from. */
  method FlattenImage(flat: array<int>, from: nat, img: Image, ghost cs: seq<Column>)
    requires WellFormed(img) && flat.Length == |cs| * HEIGHT
    requires from <= |cs| && ColumnsOf(img) <= cs[from..]
    modifies flat
    ensures forall i :: 0 <= i < from * HEIGHT ==> flat[i] == old(flat[i])
    ensures forall c, y :: from <= c < from + Width(img) && 0 <= y < HEIGHT
              ==> flat[c * HEIGHT + y] == Signed(cs[c][y])
  {
    var w := |img[0]|;
    for y := 0 to HEIGHT
      invariant forall i :: 0 <= i < from * HEIGHT ==> flat[i] == old(flat[i])
      invariant forall c, r :: from <= c < from + w && 0 <= r < y ==> flat[c * HEIGHT + r] == Signed(cs[c][r])
    {
      for x := 0 to w
        invariant forall i :: 0 <= i < from * HEIGHT ==> flat[i] == old(flat[i])
        invariant forall c, r :: from <= c < from + w && 0 <= r < y ==> flat[c * HEIGHT + r] == Signed(cs[c][r])
        invariant forall c :: from <= c < from + x ==> flat[c * HEIGHT + y] == Signed(cs[c][y])
      {
        assert cs[from + x] == cs[from..][x] == ColumnAt(img, x);
        flat[(from + x) * HEIGHT + y] := Signed(img[y][x]);
      }
    }
  }
}
