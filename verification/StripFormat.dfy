/** How a batch of images goes over the wire: an UPLOAD command, the breakpoints of
    the images packed eight to a 128-bit word, and one word for each pixel column. */
module StripFormat {

  type Byte = x: int | 0 <= x < 256

  /** Sixteen bytes, the first one least significant. */
  type Word = w: seq<Byte> | |w| == 16 witness seq(16, _ => 0)

  /** Rows of pixels. */
  type Image = seq<seq<Byte>>

  /** A column of sixteen pixels, top first. */
  type Column = w: seq<Byte> | |w| == 16 witness seq(16, _ => 0)

  const HEIGHT: nat := 16
  const PER_WORD: nat := 8
  const MAX_WIDTH: nat := 0xFFFF

  datatype Option<T> = None | Some(value: T)

  // ---------- images as columns ----------

  predicate WellFormed(img: Image) {
    |img| == HEIGHT && forall y :: 0 <= y < HEIGHT ==> |img[y]| == |img[0]|
  }

  predicate AllWellFormed(imgs: seq<Image>) {
    forall n :: 0 <= n < |imgs| ==> WellFormed(imgs[n])
  }

  function Width(img: Image): nat
    requires WellFormed(img)
  {
    |img[0]|
  }

  function ColumnAt(img: Image, x: nat): Column
    requires WellFormed(img) && x < Width(img)
  {
    seq(HEIGHT, y requires 0 <= y < HEIGHT => img[y][x])
  }

  function ColumnsOf(img: Image): (cs: seq<Column>)
    requires WellFormed(img)
    ensures |cs| == Width(img)
  {
    seq(Width(img), x requires 0 <= x < Width(img) => ColumnAt(img, x))
  }

  /** The image with the given columns. */
  function ImageOf(cs: seq<Column>): (img: Image)
    ensures WellFormed(img) && Width(img) == |cs|
  {
    seq(HEIGHT, y requires 0 <= y < HEIGHT => seq(|cs|, x requires 0 <= x < |cs| => cs[x][y]))
  }

  lemma ImageOfColumns(img: Image)
    requires WellFormed(img)
    ensures ImageOf(ColumnsOf(img)) == img
  {
    var cs := ColumnsOf(img);
    forall y | 0 <= y < HEIGHT ensures ImageOf(cs)[y] == img[y] {
      assert forall x :: 0 <= x < Width(img) ==> cs[x][y] == img[y][x];
    }
  }

  /** The columns of all images, one after the other. */
  function Strip(imgs: seq<Image>): (cs: seq<Column>)
    requires AllWellFormed(imgs)
  {
    if imgs == [] then [] else ColumnsOf(imgs[0]) + Strip(imgs[1..])
  }

  /** The 16-bit breakpoint of every image, the number of its last column, when the
      first image starts at column from. */
  function Breakpoints(imgs: seq<Image>, from: nat): (bs: seq<int>)
    requires AllWellFormed(imgs)
    ensures |bs| == |imgs| && forall k :: 0 <= k < |bs| ==> 0 <= bs[k] <= MAX_WIDTH
  {
    if imgs == [] then []
    else
      var next := from + Width(imgs[0]);
      [(next - 1) % (MAX_WIDTH + 1)] + Breakpoints(imgs[1..], next)
  }

  lemma {:induction false} StripGrows(imgs: seq<Image>, k: nat)
    requires AllWellFormed(imgs) && k < |imgs|
    ensures |Strip(imgs[..k + 1])| == |Strip(imgs[..k])| + Width(imgs[k])
    ensures |Strip(imgs[..k + 1])| <= |Strip(imgs)|
  {
    var next := imgs[1..];
    assert imgs[..k + 1][1..] == next[..k];
    if k > 0 {
      assert imgs[..k][1..] == next[..k - 1];
      StripGrows(next, k - 1);
    }
  }

  lemma {:induction false} BreakpointIsEnd(imgs: seq<Image>, from: nat, k: nat)
    requires AllWellFormed(imgs) && k < |imgs|
    ensures Breakpoints(imgs, from)[k] == (from + |Strip(imgs[..k + 1])| - 1) % (MAX_WIDTH + 1)
  {
    var next := imgs[1..];
    assert imgs[..k + 1][1..] == next[..k];
    if k > 0 {
      BreakpointIsEnd(next, from + Width(imgs[0]), k - 1);
    } else {
      assert Strip(imgs[..1]) == ColumnsOf(imgs[0]);
    }
  }

  lemma BreakpointExact(imgs: seq<Image>, k: nat)
    requires AllWellFormed(imgs) && |Strip(imgs)| <= MAX_WIDTH && k < |imgs| && Width(imgs[k]) > 0
    ensures Breakpoints(imgs, 0)[k] == |Strip(imgs[..k])| + Width(imgs[k]) - 1
    ensures Breakpoints(imgs, 0)[k] == |Strip(imgs[..k + 1])| - 1
  {
    BreakpointIsEnd(imgs, 0, k);
    StripGrows(imgs, k);
  }

  /** The breakpoints partition the columns when every image has one: they strictly
      ascend, image k has the columns after breakpoint k - 1 up to breakpoint k, and the
      last breakpoint is the last column. */
  lemma BreakpointsPartition(imgs: seq<Image>, k: nat)
    requires AllWellFormed(imgs) && |Strip(imgs)| <= MAX_WIDTH && k < |imgs|
    requires forall n :: 0 <= n < |imgs| ==> Width(imgs[n]) > 0
    ensures var before := if k == 0 then -1 else Breakpoints(imgs, 0)[k - 1];
            before < Breakpoints(imgs, 0)[k] == before + Width(imgs[k])
    ensures k == |imgs| - 1 ==> Breakpoints(imgs, 0)[k] == |Strip(imgs)| - 1
  {
    BreakpointExact(imgs, k);
    if k > 0 {
      BreakpointExact(imgs, k - 1);
    } else {
      assert Strip(imgs[..0]) == [];
    }
    if k == |imgs| - 1 {
      assert imgs[..k + 1] == imgs;
    }
  }

  // ---------- words ----------

  /** Pixel p is sent as p - 128, a signed byte. */
  function Signed(p: Byte): int {
    var v: int := p;
    v - 128
  }

  function AsByte(v: int): Byte { v % 256 }

  /** A column goes out bottom first. */
  function ColumnWord(c: Column): Word {
    seq(HEIGHT, b requires 0 <= b < HEIGHT => AsByte(Signed(c[15 - b])))
  }

  function PixelFrom(b: Byte): Byte {
    var v: int := b;
    AsByte(v + 128)
  }

  function ColumnFromWord(w: Word): Column {
    seq(HEIGHT, y requires 0 <= y < HEIGHT => PixelFrom(w[15 - y]))
  }

  function ColumnWords(cs: seq<Column>): (ws: seq<Word>)
    ensures |ws| == |cs|
  {
    seq(|cs|, k requires 0 <= k < |cs| => ColumnWord(cs[k]))
  }

  function ColumnsFromWords(ws: seq<Word>): (cs: seq<Column>)
    ensures |cs| == |ws|
  {
    seq(|ws|, k requires 0 <= k < |ws| => ColumnFromWord(ws[k]))
  }

  lemma PixelRoundTrip(p: Byte)
    ensures PixelFrom(AsByte(Signed(p))) == p
  {
  }

  lemma ColumnRoundTrip(c: Column)
    ensures ColumnFromWord(ColumnWord(c)) == c
  {
    var w := ColumnWord(c);
    forall y | 0 <= y < HEIGHT ensures ColumnFromWord(w)[y] == c[y] {
      assert w[15 - y] == AsByte(Signed(c[y]));
      PixelRoundTrip(c[y]);
    }
  }

  lemma ColumnsRoundTrip(cs: seq<Column>)
    ensures ColumnsFromWords(ColumnWords(cs)) == cs
  {
    forall k | 0 <= k < |cs| ensures ColumnsFromWords(ColumnWords(cs))[k] == cs[k] {
      assert ColumnWords(cs)[k] == ColumnWord(cs[k]);
      ColumnRoundTrip(cs[k]);
    }
  }

  predicate AllShort(vs: seq<int>) {
    forall k :: 0 <= k < |vs| ==> 0 <= vs[k] <= MAX_WIDTH
  }

  /** Byte b of a word of 16-bit values, low byte first. */
  function PackedByte(vs: seq<int>, b: nat): Byte
    requires AllShort(vs) && b < 16
  {
    if b / 2 >= |vs| then 0
    else if b % 2 == 0 then vs[b / 2] % 256 else vs[b / 2] / 256
  }

  /** Up to eight values, padded with zeros. */
  function PackEight(vs: seq<int>): (w: Word)
    requires AllShort(vs)
  {
    seq(16, b requires 0 <= b < 16 => PackedByte(vs, b))
  }

  function Eight(vs: seq<int>): seq<int> { if |vs| <= PER_WORD then vs else vs[..PER_WORD] }

  function Rest(vs: seq<int>): seq<int> { if |vs| <= PER_WORD then [] else vs[PER_WORD..] }

  function WordsFor(n: nat): nat { (n + PER_WORD - 1) / PER_WORD }

  function Pack(vs: seq<int>): (ws: seq<Word>)
    requires AllShort(vs)
    ensures |ws| == WordsFor(|vs|)
    decreases |vs|
  {
    if vs == [] then [] else [PackEight(Eight(vs))] + Pack(Rest(vs))
  }

  function Value(w: Word, j: nat): int
    requires j < PER_WORD
  {
    var low: int := w[2 * j];
    var high: int := w[2 * j + 1];
    low + 256 * high
  }

  /** The first n 16-bit values of a sequence of words. */
  function Unpack(ws: seq<Word>, n: nat): (vs: seq<int>)
    requires n <= |ws| * PER_WORD
    ensures |vs| == n
  {
    seq(n, k requires 0 <= k < n => Value(ws[k / PER_WORD], k % PER_WORD))
  }

  lemma EightRoundTrip(vs: seq<int>, j: nat)
    requires AllShort(vs) && j < |vs| && j < PER_WORD
    ensures Value(PackEight(vs), j) == vs[j]
  {
    var w := PackEight(vs);
    assert w[2 * j] == PackedByte(vs, 2 * j) == vs[j] % 256;
    assert w[2 * j + 1] == PackedByte(vs, 2 * j + 1) == vs[j] / 256;
  }

  lemma UnpackShift(w: Word, ws: seq<Word>, n: nat)
    requires n <= |ws| * PER_WORD
    ensures Unpack([w] + ws, n + PER_WORD)[PER_WORD..] == Unpack(ws, n)
  {
    forall k | 0 <= k < n ensures Unpack([w] + ws, n + PER_WORD)[k + PER_WORD] == Unpack(ws, n)[k] {
      assert (k + PER_WORD) / PER_WORD == k / PER_WORD + 1 && (k + PER_WORD) % PER_WORD == k % PER_WORD;
      assert ([w] + ws)[k / PER_WORD + 1] == ws[k / PER_WORD];
    }
  }

  lemma UnpackHead(vs: seq<int>, ws: seq<Word>)
    requires AllShort(vs)
    ensures forall n | |Eight(vs)| <= n <= (|ws| + 1) * PER_WORD ::
              Unpack([PackEight(Eight(vs))] + ws, n)[..|Eight(vs)|] == Eight(vs)
  {
    forall n, k | |Eight(vs)| <= n <= (|ws| + 1) * PER_WORD && 0 <= k < |Eight(vs)|
      ensures Unpack([PackEight(Eight(vs))] + ws, n)[k] == Eight(vs)[k]
    {
      EightRoundTrip(Eight(vs), k);
    }
  }

  lemma UnpackBoth(vs: seq<int>, ws: seq<Word>)
    requires AllShort(vs) && |vs| > PER_WORD && |Rest(vs)| <= |ws| * PER_WORD
    requires Unpack(ws, |Rest(vs)|) == Rest(vs)
    ensures Unpack([PackEight(Eight(vs))] + ws, |vs|) == vs
  {
    UnpackHead(vs, ws);
    UnpackShift(PackEight(Eight(vs)), ws, |Rest(vs)|);
    assert vs == Eight(vs) + Rest(vs);
  }

  lemma {:induction false} PackRoundTrip(vs: seq<int>)
    requires AllShort(vs)
    ensures Unpack(Pack(vs), |vs|) == vs
    decreases |vs|
  {
    if |vs| > PER_WORD {
      PackRoundTrip(Rest(vs));
      UnpackBoth(vs, Pack(Rest(vs)));
    } else if vs != [] {
      UnpackHead(vs, []);
      assert Pack(vs) == [PackEight(vs)] + [];
    }
  }

  // ---------- commands ----------

  const UPLOAD: nat := 2

  /** A command word: the type in the top four bits, the payload below. */
  function RawCommand(kind: nat, payload: nat): nat {
    (kind % 16) * 0x1000_0000 + payload % 0x1000_0000
  }

  function UploadCommand(count: nat, width: nat): nat
    requires count < 256 && width <= MAX_WIDTH
  {
    RawCommand(UPLOAD, width * 0x1000 + count * 16)
  }

  function CountField(cmd: nat): nat { (cmd / 16) % 256 }

  function WidthField(cmd: nat): nat { (cmd / 0x1000) % 0x1_0000 }

  /** The type in the top four bits is UPLOAD, and the reserved low bits are zero. */
  predicate IsUpload(cmd: nat) { cmd / 0x1000_0000 == 2 && cmd % 16 == 0 }

  lemma UploadRoundTrip(count: nat, width: nat)
    requires count < 256 && width <= MAX_WIDTH
    ensures CountField(UploadCommand(count, width)) == count
    ensures WidthField(UploadCommand(count, width)) == width
    ensures UploadCommand(count, width) == 0x2000_0000 + 0x1000 * width + 0x10 * count
    ensures IsUpload(UploadCommand(count, width))
  {
    var cmd := UploadCommand(count, width);
    assert cmd == 2 * 0x1000_0000 + width * 0x1000 + count * 16;
    assert cmd / 16 == 256 * (0x2_0000 + width) + count;
    assert cmd / 0x1000 == 2 * 0x1_0000 + width;
  }

  // ---------- a reference decoder ----------

  /** The images that the breakpoints cut off the columns from column from on; the last
      one must end with the last column. */
  function Cut(cs: seq<Column>, bs: seq<int>, from: nat): (r: Option<seq<Image>>)
    requires from <= |cs|
    ensures r.Some? ==> |r.value| == |bs|
    decreases |bs|
  {
    if bs == [] then (if from == |cs| then Some([]) else None)
    else if !(from <= bs[0] + 1 <= |cs|) then None
    else
      match Cut(cs, bs[1..], bs[0] + 1)
      case None => None
      case Some(rest) => Some([ImageOf(cs[from..bs[0] + 1])] + rest)
  }

  /** What a receiver makes of an UPLOAD command and the words that follow. */
  function Decode(cmd: nat, words: seq<Word>): Option<seq<Image>> {
    var count, width := CountField(cmd), WidthField(cmd);
    var n := WordsFor(count);
    if !IsUpload(cmd) || |words| != n + width then None
    else Cut(ColumnsFromWords(words[n..]), Unpack(words[..n], count), 0)
  }

  // ---------- the round trip ----------

  /** The words of a batch. */
  function Encode(imgs: seq<Image>): seq<Word>
    requires AllWellFormed(imgs)
  {
    Pack(Breakpoints(imgs, 0)) + ColumnWords(Strip(imgs))
  }

  /** The width that the command is given, an unsigned 32-bit number. */
  function WireWidth(imgs: seq<Image>): nat
    requires AllWellFormed(imgs)
  {
    |Strip(imgs)| % 0x1_0000_0000
  }

  /** The command of a batch; the count is cut to eight bits. */
  function CommandFor(imgs: seq<Image>): nat
    requires AllWellFormed(imgs) && WireWidth(imgs) <= MAX_WIDTH
  {
    UploadCommand(|imgs| % 256, WireWidth(imgs))
  }

  /** The first image, if there is one, has a column. */
  predicate StartsWide(imgs: seq<Image>)
    requires AllWellFormed(imgs)
  {
    imgs == [] || Width(imgs[0]) > 0
  }

  lemma CutStep(cs: seq<Column>, bs: seq<int>, from: nat, rest: seq<Image>)
    requires bs != [] && from <= bs[0] + 1 <= |cs|
    requires Cut(cs, bs[1..], bs[0] + 1) == Some(rest)
    ensures Cut(cs, bs, from) == Some([ImageOf(cs[from..bs[0] + 1])] + rest)
  {
  }

  lemma CutTail<T>(cs: seq<T>, from: nat, mine: seq<T>, rest: seq<T>)
    requires from <= |cs| && cs[from..] == mine + rest
    ensures from + |mine| <= |cs| && cs[from..from + |mine|] == mine && cs[from + |mine|..] == rest
  {
    assert cs[from..from + |mine|] == cs[from..][..|mine|];
    assert cs[from + |mine|..] == cs[from..][|mine|..];
  }

  lemma FirstBreakpoint(imgs: seq<Image>, from: nat)
    requires AllWellFormed(imgs) && imgs != [] && 0 < from + Width(imgs[0]) <= MAX_WIDTH
    ensures var bs, next := Breakpoints(imgs, from), from + Width(imgs[0]);
            bs[0] == next - 1 && bs[1..] == Breakpoints(imgs[1..], next)
  {
  }

  lemma CutImage(cs: seq<Column>, bs: seq<int>, from: nat, img: Image, rest: seq<Image>)
    requires WellFormed(img) && bs != [] && from <= bs[0] + 1 <= |cs| && cs[from..bs[0] + 1] == ColumnsOf(img)
    requires Cut(cs, bs[1..], bs[0] + 1) == Some(rest)
    ensures Cut(cs, bs, from) == Some([img] + rest)
  {
    CutStep(cs, bs, from, rest);
    ImageOfColumns(img);
  }

  lemma CutFirst(cs: seq<Column>, from: nat, imgs: seq<Image>)
    requires AllWellFormed(imgs) && imgs != [] && 0 < from + Width(imgs[0]) <= |cs| <= MAX_WIDTH
    requires var next := from + Width(imgs[0]);
             cs[from..next] == ColumnsOf(imgs[0]) && Cut(cs, Breakpoints(imgs[1..], next), next) == Some(imgs[1..])
    ensures Cut(cs, Breakpoints(imgs, from), from) == Some(imgs)
  {
    FirstBreakpoint(imgs, from);
    CutImage(cs, Breakpoints(imgs, from), from, imgs[0], imgs[1..]);
    assert [imgs[0]] + imgs[1..] == imgs;
  }

  /** Cutting at the breakpoints gives back the images whose columns are those from
      column from on. */
  lemma {:induction false} CutFindsImages(cs: seq<Column>, from: nat, imgs: seq<Image>)
    requires AllWellFormed(imgs) && from <= |cs| <= MAX_WIDTH && cs[from..] == Strip(imgs)
    requires from == 0 ==> StartsWide(imgs)
    ensures Cut(cs, Breakpoints(imgs, from), from) == Some(imgs)
    decreases |imgs|
  {
    if imgs != [] {
      CutTail(cs, from, ColumnsOf(imgs[0]), Strip(imgs[1..]));
      CutFindsImages(cs, from + Width(imgs[0]), imgs[1..]);
      CutFirst(cs, from, imgs);
    }
  }

  lemma CutUnlessStartsEmpty(imgs: seq<Image>)
    requires AllWellFormed(imgs) && |Strip(imgs)| <= MAX_WIDTH
    ensures Cut(Strip(imgs), Breakpoints(imgs, 0), 0) == if StartsWide(imgs) then Some(imgs) else None
  {
    if StartsWide(imgs) {
      assert Strip(imgs)[0..] == Strip(imgs);
      CutFindsImages(Strip(imgs), 0, imgs);
    } else {
      assert Breakpoints(imgs, 0)[0] == MAX_WIDTH;
    }
  }

  lemma DecodeOfEncode(cmd: nat, imgs: seq<Image>)
    requires AllWellFormed(imgs) && IsUpload(cmd) && CountField(cmd) == |imgs| && WidthField(cmd) == |Strip(imgs)|
    ensures Decode(cmd, Encode(imgs)) == Cut(Strip(imgs), Breakpoints(imgs, 0), 0)
  {
    var words, bs, n := Encode(imgs), Breakpoints(imgs, 0), WordsFor(|imgs|);
    assert words[..n] == Pack(bs) && words[n..] == ColumnWords(Strip(imgs));
    PackRoundTrip(bs);
    ColumnsRoundTrip(Strip(imgs));
  }

  /** The batches that a receiver can recover: at most 255 images, of which the first has
      a column, and a total width that fits 16 bits. */
  predicate Recoverable(imgs: seq<Image>)
    requires AllWellFormed(imgs)
  {
    |imgs| <= 255 && |Strip(imgs)| <= MAX_WIDTH && StartsWide(imgs)
  }

  lemma WordsForCutCount(count: nat)
    ensures WordsFor(count % 256) <= WordsFor(count)
    ensures count > 255 ==> WordsFor(count % 256) < WordsFor(count)
  {
    var q := count / 256;
    assert count == 256 * q + count % 256;
    assert WordsFor(count) == 32 * q + WordsFor(count % 256);
  }

  lemma EncodedLength(imgs: seq<Image>)
    requires AllWellFormed(imgs)
    ensures |Encode(imgs)| == WordsFor(|imgs|) + |Strip(imgs)|
  {
  }

  lemma WrongLengthIsRefused(cmd: nat, words: seq<Word>)
    requires |words| != WordsFor(CountField(cmd)) + WidthField(cmd)
    ensures Decode(cmd, words) == None
  {
  }

  lemma DecodesTo(cmd: nat, imgs: seq<Image>)
    requires AllWellFormed(imgs) && WireWidth(imgs) <= MAX_WIDTH
    requires IsUpload(cmd) && CountField(cmd) == |imgs| % 256 && WidthField(cmd) == WireWidth(imgs)
    ensures Decode(cmd, Encode(imgs)) == if Recoverable(imgs) then Some(imgs) else None
  {
    if |imgs| <= 255 && |Strip(imgs)| <= MAX_WIDTH {
      DecodeOfEncode(cmd, imgs);
      CutUnlessStartsEmpty(imgs);
    } else {
      EncodesTooLong(imgs);
      WrongLengthIsRefused(cmd, Encode(imgs));
    }
  }

  lemma EncodesTooLong(imgs: seq<Image>)
    requires AllWellFormed(imgs) && (|imgs| > 255 || |Strip(imgs)| > MAX_WIDTH) && WireWidth(imgs) <= MAX_WIDTH
    ensures |Encode(imgs)| > WordsFor(|imgs| % 256) + WireWidth(imgs)
  {
    EncodedLength(imgs);
    WordsForCutCount(|imgs|);
    WidthIsCut(|Strip(imgs)|);
  }

  lemma WidthIsCut(width: nat)
    ensures width % 0x1_0000_0000 <= width
  {
  }

  lemma CommandFields(imgs: seq<Image>)
    requires AllWellFormed(imgs) && WireWidth(imgs) <= MAX_WIDTH
    ensures IsUpload(CommandFor(imgs))
    ensures CountField(CommandFor(imgs)) == |imgs| % 256 && WidthField(CommandFor(imgs)) == WireWidth(imgs)
  {
    UploadRoundTrip(|imgs| % 256, WireWidth(imgs));
  }

  /** For every batch whose command is sent, the receiver gets exactly the images back if
      the batch is recoverable, and otherwise makes nothing of it. */
  lemma StripRoundTrip(imgs: seq<Image>)
    requires AllWellFormed(imgs) && WireWidth(imgs) <= MAX_WIDTH
    ensures Decode(CommandFor(imgs), Encode(imgs)) == if Recoverable(imgs) then Some(imgs) else None
  {
    CommandFields(imgs);
    DecodesTo(CommandFor(imgs), imgs);
  }

  // ---------- where every byte is on the wire ----------

  /** Two bytes of the word hold the value, the low one first. */
  predicate Holds(w: Word, r: nat, value: int)
    requires r < 8
  {
    w[2 * r] == value % 256 && w[2 * r + 1] == value / 256
  }

  lemma EightOnWire(vs: seq<int>, r: nat)
    requires AllShort(vs) && r < 8 && r < |vs|
    ensures Holds(PackEight(vs), r, vs[r])
  {
    assert PackEight(vs)[2 * r] == PackedByte(vs, 2 * r);
    assert PackEight(vs)[2 * r + 1] == PackedByte(vs, 2 * r + 1);
  }

  lemma {:induction false} PackedOnWire(vs: seq<int>, q: nat, r: nat)
    requires AllShort(vs) && r < 8 && 8 * q + r < |vs|
    ensures q < |Pack(vs)| && Holds(Pack(vs)[q], r, vs[8 * q + r])
    decreases q
  {
    if q == 0 {
      EightOnWire(Eight(vs), r);
    } else {
      PackedOnWire(Rest(vs), q - 1, r);
      assert Pack(vs)[q] == Pack(Rest(vs))[q - 1];
    }
  }

  lemma EncodeStarts(imgs: seq<Image>, q: nat)
    requires AllWellFormed(imgs) && q < |Pack(Breakpoints(imgs, 0))|
    ensures q < |Encode(imgs)| && Encode(imgs)[q] == Pack(Breakpoints(imgs, 0))[q]
  {
    FirstWords(Pack(Breakpoints(imgs, 0)), ColumnWords(Strip(imgs)), q);
  }

  /** Eight breakpoints to a word, before the columns. */
  lemma PointOnWire(imgs: seq<Image>, q: nat, r: nat)
    requires AllWellFormed(imgs) && r < 8 && 8 * q + r < |imgs|
    ensures q < |Encode(imgs)| && Holds(Encode(imgs)[q], r, Breakpoints(imgs, 0)[8 * q + r])
  {
    PackedOnWire(Breakpoints(imgs, 0), q, r);
    EncodeStarts(imgs, q);
  }

  lemma FirstWords(front: seq<Word>, back: seq<Word>, k: nat)
    requires k < |front|
    ensures (front + back)[k] == front[k]
  {
  }

  /** One word for each column, behind the words of the breakpoints; its last byte is the
      top pixel, less 128 and as a byte. */
  lemma PixelOnWire(imgs: seq<Image>, c: nat, y: nat)
    requires AllWellFormed(imgs) && c < |Strip(imgs)| && y < 16
    ensures |Encode(imgs)| == (|imgs| + 7) / 8 + |Strip(imgs)|
    ensures var sent: int, pixel: int := Encode(imgs)[(|imgs| + 7) / 8 + c][15 - y], Strip(imgs)[c][y];
            sent == (pixel - 128) % 256
  {
    assert Encode(imgs)[WordsFor(|imgs|) + c] == ColumnWord(Strip(imgs)[c]);
  }

  /** Column x of image k comes behind the columns of the images before. */
  lemma {:induction false} PixelInStrip(imgs: seq<Image>, k: nat, x: nat, y: nat)
    requires AllWellFormed(imgs) && k < |imgs| && x < Width(imgs[k]) && y < 16
    ensures |Strip(imgs[..k])| + x < |Strip(imgs)|
    ensures Strip(imgs)[|Strip(imgs[..k])| + x][y] == imgs[k][y][x]
  {
    if k > 0 {
      assert imgs[..k][1..] == imgs[1..][..k - 1];
      PixelInStrip(imgs[1..], k - 1, x, y);
    }
  }

  /** n images of one column each. */
  function Slivers(n: nat): (imgs: seq<Image>)
    ensures |imgs| == n && AllWellFormed(imgs)
  {
    seq(n, _ => ImageOf([seq(HEIGHT, _ => 0)]))
  }

  lemma {:induction false} SliversWidth(n: nat)
    ensures |Strip(Slivers(n))| == n
  {
    if n > 0 {
      assert Slivers(n)[1..] == Slivers(n - 1);
      SliversWidth(n - 1);
    }
  }

  /** The command goes out, with the count cut to eight bits, and the receiver makes
      nothing of the batch. */
  predicate SentAndLost(imgs: seq<Image>)
    requires AllWellFormed(imgs)
  {
    && WireWidth(imgs) <= MAX_WIDTH && CountField(CommandFor(imgs)) == |imgs| % 256
    && Decode(CommandFor(imgs), Encode(imgs)) == None
  }

  /** The count is cut before it is compared with 255, so that every larger batch that is
      not too wide is sent and lost. */
  lemma LargeBatchIsLost(imgs: seq<Image>)
    requires AllWellFormed(imgs) && WireWidth(imgs) <= MAX_WIDTH && |imgs| > 255
    ensures SentAndLost(imgs)
  {
    CommandFields(imgs);
    StripRoundTrip(imgs);
  }

  lemma SliversFit(n: nat)
    requires n <= MAX_WIDTH
    ensures WireWidth(Slivers(n)) == n
  {
    SliversWidth(n);
  }

  /** There are such batches, of 256 images and more. */
  lemma TooManyAreLost(n: nat)
    requires 255 < n <= MAX_WIDTH
    ensures SentAndLost(Slivers(n))
  {
    SliversFit(n);
    LargeBatchIsLost(Slivers(n));
  }
}
