/** The favicon packer: byte-level layout of an ICO file into a preallocated buffer, and a reader
    that undoes it. */
module Ico {
  import opened Prelude

  type byte = x: int | 0 <= x < 256

  const HEADER := 6
  const DIRECTORY := 16
  const U16 := 0x1_0000
  const U32 := 0x1_0000_0000

  datatype Image = Image(buffer: seq<byte>, width: int, height: int)

  // ----- layout

  function Le16(v: int): (r: seq<byte>)
    requires 0 <= v < U16
    ensures |r| == 2
  {
    [v % 256, v / 256]
  }

  function Le32(v: int): (r: seq<byte>)
    requires 0 <= v < U32
    ensures |r| == 4
  {
    [v % 256, v / 256 % 256, v / 65536 % 256, v / 16777216]
  }

  predicate SideFits(side: int) {
    0 <= side <= 256
  }

  /** A side of 256 is written as zero. */
  function Side(side: int): byte
    requires SideFits(side)
  {
    if side == 256 then 0 else side
  }

  function Start(images: seq<Image>): nat {
    HEADER + DIRECTORY * |images|
  }

  /** Where the data of image `i` begins; for `i == |images|`, the length of the file. */
  function Offset(images: seq<Image>, i: nat): (r: nat)
    requires i <= |images|
    ensures r >= Start(images)
  {
    if i == 0 then Start(images) else Offset(images, i - 1) + |images[i - 1].buffer|
  }

  /** Image `i` can be described: every number its directory entry holds is in range. */
  predicate EntryFits(images: seq<Image>, i: nat)
    requires i < |images|
  {
    && SideFits(images[i].width) && SideFits(images[i].height)
    && |images[i].buffer| < U32 && Offset(images, i) < U32
  }

  predicate Fits(images: seq<Image>) {
    |images| < U16 && forall i :: 0 <= i < |images| ==> EntryFits(images, i)
  }

  function Header(n: nat): (r: seq<byte>)
    requires n < U16
    ensures |r| == HEADER
  {
    Le16(0) + Le16(1) + Le16(n)
  }

  /** The sixteen bytes that describe one image. */
  function Described(image: Image, offset: int): (r: seq<byte>)
    requires SideFits(image.width) && SideFits(image.height) && |image.buffer| < U32 && 0 <= offset < U32
    ensures |r| == DIRECTORY
  {
    [Side(image.width)] + [Side(image.height)] + [0] + [0]
      + Le16(1) + Le16(32) + Le32(|image.buffer|) + Le32(offset)
  }

  function Entry(images: seq<Image>, i: nat): (r: seq<byte>)
    requires i < |images| && EntryFits(images, i)
    ensures |r| == DIRECTORY
  {
    Described(images[i], Offset(images, i))
  }

  function Entries(images: seq<Image>, n: nat): (r: seq<byte>)
    requires n <= |images| && forall i :: 0 <= i < n ==> EntryFits(images, i)
    ensures |r| == DIRECTORY * n
  {
    if n == 0 then [] else Entries(images, n - 1) + Entry(images, n - 1)
  }

  function Data(images: seq<Image>, n: nat): (r: seq<byte>)
    requires n <= |images|
    ensures |r| == Offset(images, n) - Start(images)
  {
    if n == 0 then [] else Data(images, n - 1) + images[n - 1].buffer
  }

  function IcoBytes(images: seq<Image>): (r: seq<byte>)
    requires Fits(images)
    ensures |r| == Offset(images, |images|)
  {
    Header(|images|) + Entries(images, |images|) + Data(images, |images|)
  }

  // ----- the packer

  /** `s` with `bs` written over it at `pos`. */
  function Splice(s: seq<byte>, pos: nat, bs: seq<byte>): (r: seq<byte>)
    requires pos + |bs| <= |s|
    ensures |r| == |s|
  {
    s[..pos] + bs + s[pos + |bs|..]
  }

  lemma SpliceJoin(s: seq<byte>, pos: nat, a: seq<byte>, b: seq<byte>)
    requires pos + |a| + |b| <= |s|
    ensures Splice(Splice(s, pos, a), pos + |a|, b) == Splice(s, pos, a + b)
  {
  }

  /** Copies `bs` into the buffer at `pos`. */
  method Write(out: array<byte>, pos: nat, bs: seq<byte>)
    requires pos + |bs| <= out.Length
    modifies out
    ensures out[..] == Splice(old(out[..]), pos, bs)
  {
    var k := 0;
    while k < |bs|
      invariant k <= |bs|
      invariant out[..] == Splice(old(out[..]), pos, bs[..k])
    {
      out[pos + k] := bs[k];
      k := k + 1;
    }
    assert bs[..k] == bs;
  }

  method WriteEntry(out: array<byte>, at: nat, image: Image, offset: nat)
    requires at + DIRECTORY <= out.Length
    requires SideFits(image.width) && SideFits(image.height) && |image.buffer| < U32 && offset < U32
    modifies out
    ensures out[..] == Splice(old(out[..]), at, Described(image, offset))
  {
    ghost var s := out[..];
    Write(out, at, [if image.width == 256 then 0 else image.width]);
    ghost var bs := [Side(image.width)];
    bs := WriteNext(out, at + 1, [if image.height == 256 then 0 else image.height], s, at, bs);
    bs := WriteNext(out, at + 2, [0], s, at, bs);
    bs := WriteNext(out, at + 3, [0], s, at, bs);
    bs := WriteNext(out, at + 4, Le16(1), s, at, bs);
    bs := WriteNext(out, at + 6, Le16(32), s, at, bs);
    bs := WriteNext(out, at + 8, Le32(|image.buffer|), s, at, bs);
    bs := WriteNext(out, at + 12, Le32(offset), s, at, bs);
  }

  /** Writes one field behind the fields `bs` that already cover `at` up to `pos`. */
  method WriteNext(out: array<byte>, pos: nat, field: seq<byte>, ghost s: seq<byte>, ghost at: nat, ghost bs: seq<byte>)
    returns (ghost all: seq<byte>)
    requires pos == at + |bs| && pos + |field| <= out.Length == |s|
    requires out[..] == Splice(s, at, bs)
    modifies out
    ensures all == bs + field && out[..] == Splice(s, at, all)
  {
    Write(out, pos, field);
    SpliceJoin(s, at, bs, field);
    all := bs + field;
  }

  /** The first `i` images are in place. */
  ghost predicate Packed(s: seq<byte>, images: seq<Image>, i: nat) {
    && i <= |images| < U16 && (forall j :: 0 <= j < i ==> EntryFits(images, j))
    && |s| == Offset(images, |images|) >= Offset(images, i)
    && s[..HEADER] == Header(|images|)
    && s[HEADER..HEADER + DIRECTORY * i] == Entries(images, i)
    && s[Start(images)..Offset(images, i)] == Data(images, i)
  }

  /** A write shows where it was made and nowhere else. */
  lemma SpliceShows(s: seq<byte>, pos: nat, bs: seq<byte>, lo: nat, hi: nat)
    requires pos + |bs| <= |s| && lo <= hi <= |s|
    ensures hi <= pos || pos + |bs| <= lo ==> Splice(s, pos, bs)[lo..hi] == s[lo..hi]
    ensures Splice(s, pos, bs)[pos..pos + |bs|] == bs
    ensures lo <= pos ==> Splice(s, pos, bs)[lo..pos + |bs|] == s[lo..pos] + bs
  {
  }

  /** The directory is one entry ahead of the data. */
  ghost predicate HalfPacked(s: seq<byte>, images: seq<Image>, i: nat) {
    && i < |images| < U16 && (forall j :: 0 <= j < i + 1 ==> EntryFits(images, j))
    && |s| == Offset(images, |images|) >= Offset(images, i)
    && s[..HEADER] == Header(|images|)
    && s[HEADER..HEADER + DIRECTORY * (i + 1)] == Entries(images, i + 1)
    && s[Start(images)..Offset(images, i)] == Data(images, i)
  }

  lemma PackEntry(s: seq<byte>, images: seq<Image>, i: nat)
    requires Packed(s, images, i) && i < |images| && EntryFits(images, i)
    ensures HalfPacked(Splice(s, HEADER + DIRECTORY * i, Entry(images, i)), images, i)
  {
    var at, e := HEADER + DIRECTORY * i, Entry(images, i);
    SpliceShows(s, at, e, 0, HEADER);
    SpliceShows(s, at, e, HEADER, at);
    SpliceShows(s, at, e, Start(images), Offset(images, i));
    assert at + DIRECTORY == HEADER + DIRECTORY * (i + 1);
  }

  lemma PackData(s: seq<byte>, images: seq<Image>, i: nat)
    requires HalfPacked(s, images, i)
    ensures Offset(images, i + 1) <= |s|
    ensures Packed(Splice(s, Offset(images, i), images[i].buffer), images, i + 1)
  {
    OffsetMonotone(images, i + 1, |images|);
    var cur, bs := Offset(images, i), images[i].buffer;
    SpliceShows(s, cur, bs, 0, HEADER);
    SpliceShows(s, cur, bs, HEADER, HEADER + DIRECTORY * (i + 1));
    SpliceShows(s, cur, bs, Start(images), cur);
  }

  lemma PackNext(s: seq<byte>, images: seq<Image>, i: nat)
    requires Packed(s, images, i) && i < |images| && EntryFits(images, i)
    ensures Offset(images, i + 1) <= |s|
    ensures Packed(Splice(Splice(s, HEADER + DIRECTORY * i, Entry(images, i)), Offset(images, i), images[i].buffer), images, i + 1)
  {
    PackEntry(s, images, i);
    PackData(Splice(s, HEADER + DIRECTORY * i, Entry(images, i)), images, i);
  }

  method FileSize(images: seq<Image>) returns (total: nat)
    ensures total == Offset(images, |images|)
  {
    total := Start(images);
    var i := 0;
    while i < |images|
      invariant i <= |images| && total == Offset(images, i)
    {
      total := total + |images[i].buffer|;
      i := i + 1;
    }
  }

  lemma HeaderPacked(s: seq<byte>, images: seq<Image>)
    requires |images| < U16 && |s| == Offset(images, |images|)
    ensures Packed(Splice(s, 0, Header(|images|)), images, 0)
  {
    OffsetMonotone(images, 0, |images|);
    SpliceShows(s, 0, Header(|images|), 0, 0);
  }

  /** Packs the images, or fails where a number does not fit its field. */
  method PackIco(images: seq<Image>) returns (ok: bool, out: array<byte>)
    ensures ok <==> Fits(images)
    ensures ok ==> out[..] == IcoBytes(images)
  {
    var total := FileSize(images);
    out := new byte[total];
    if |images| >= U16 { return false, out; }
    HeaderPacked(out[..], images);
    Write(out, 0, Header(|images|));
    var current := Start(images);
    var i := 0;
    while i < |images|
      invariant i <= |images| && current == Offset(images, i)
      invariant Packed(out[..], images, i)
    {
      if !EntryFits(images, i) { return false, out; }
      PackImage(out, images, i, current);
      current := current + |images[i].buffer|;
      i := i + 1;
    }
    PackedIsDone(out[..], images);
    ok := true;
  }

  /** One round of the packing loop. */
  method PackImage(out: array<byte>, images: seq<Image>, i: nat, current: nat)
    requires i < |images| && Packed(out[..], images, i) && EntryFits(images, i) && current == Offset(images, i)
    modifies out
    ensures Packed(out[..], images, i + 1)
  {
    PackNext(out[..], images, i);
    WriteEntry(out, HEADER + DIRECTORY * i, images[i], current);
    Write(out, current, images[i].buffer);
  }

  lemma PackedIsDone(s: seq<byte>, images: seq<Image>)
    requires Packed(s, images, |images|)
    ensures Fits(images) && s == IcoBytes(images)
  {
    assert s == s[..HEADER] + s[HEADER..Start(images)] + s[Start(images)..];
  }

  lemma {:induction false} OffsetMonotone(images: seq<Image>, i: nat, j: nat)
    requires i <= j <= |images|
    ensures Offset(images, i) <= Offset(images, j)
    decreases j
  {
    if i < j { OffsetMonotone(images, i, j - 1); }
  }

  // ----- the reader

  function U16At(s: seq<byte>, i: nat): nat
    requires i + 2 <= |s|
  {
    s[i] as int + 256 * (s[i + 1] as int)
  }

  function U32At(s: seq<byte>, i: nat): nat
    requires i + 4 <= |s|
  {
    s[i] as int + 256 * (s[i + 1] as int) + 65536 * (s[i + 2] as int) + 16777216 * (s[i + 3] as int)
  }

  function ReadSide(b: byte): int {
    if b == 0 then 256 else b
  }

  /** The image described by directory entry `i`. */
  function ReadImage(s: seq<byte>, i: nat): Option<Image> {
    var at := HEADER + DIRECTORY * i;
    if at + DIRECTORY > |s| then None
    else
      var size, offset := U32At(s, at + 8), U32At(s, at + 12);
      if offset + size > |s| then None
      else Some(Image(s[offset..offset + size], ReadSide(s[at]), ReadSide(s[at + 1])))
  }

  function ReadImages(s: seq<byte>, n: nat): Option<seq<Image>> {
    if n == 0 then Some([])
    else
      match ReadImages(s, n - 1)
      case None => None
      case Some(front) =>
        match ReadImage(s, n - 1)
        case None => None
        case Some(image) => Some(front + [image])
  }

  function ReadIco(s: seq<byte>): Option<seq<Image>> {
    if |s| < HEADER || U16At(s, 0) != 0 || U16At(s, 2) != 1 then None
    else ReadImages(s, U16At(s, 4))
  }

  // ----- round trip

  /** Four consecutive bytes that spell a number read as that number. */
  lemma Le32Reads(s: seq<byte>, i: nat, v: int)
    requires 0 <= v < U32 && i + 4 <= |s|
    requires s[i] == Le32(v)[0] && s[i + 1] == Le32(v)[1] && s[i + 2] == Le32(v)[2] && s[i + 3] == Le32(v)[3]
    ensures U32At(s, i) == v
  {
    assert v / 65536 == v / 256 / 256 && v / 16777216 == v / 256 / 256 / 256;
  }

  lemma {:induction false} EntriesAt(images: seq<Image>, n: nat, i: nat)
    requires i < n <= |images| && forall j :: 0 <= j < n ==> EntryFits(images, j)
    ensures Entries(images, n)[DIRECTORY * i..DIRECTORY * i + DIRECTORY] == Entry(images, i)
  {
    if i < n - 1 {
      EntriesAt(images, n - 1, i);
      assert Entries(images, n)[DIRECTORY * i..DIRECTORY * i + DIRECTORY]
          == Entries(images, n - 1)[DIRECTORY * i..DIRECTORY * i + DIRECTORY];
    }
  }

  lemma {:induction false} DataAt(images: seq<Image>, n: nat, i: nat)
    requires i < n <= |images|
    ensures Offset(images, i + 1) <= Offset(images, n)
    ensures Data(images, n)[Offset(images, i) - Start(images)..Offset(images, i + 1) - Start(images)] == images[i].buffer
  {
    if i < n - 1 {
      DataAt(images, n - 1, i);
      assert Data(images, n)[Offset(images, i) - Start(images)..Offset(images, i + 1) - Start(images)]
          == Data(images, n - 1)[Offset(images, i) - Start(images)..Offset(images, i + 1) - Start(images)];
    }
  }

  /** Directory entry `i` sits in its slot of the file. */
  lemma EntryInFile(images: seq<Image>, i: nat)
    requires Fits(images) && i < |images|
    ensures HEADER + DIRECTORY * i + DIRECTORY <= Start(images) <= |IcoBytes(images)|
    ensures IcoBytes(images)[HEADER + DIRECTORY * i..HEADER + DIRECTORY * i + DIRECTORY] == Entry(images, i)
  {
    var s, n := IcoBytes(images), |images|;
    EntriesAt(images, n, i);
    assert s[HEADER..Start(images)] == Entries(images, n);
    assert s[HEADER + DIRECTORY * i..HEADER + DIRECTORY * i + DIRECTORY]
        == s[HEADER..Start(images)][DIRECTORY * i..DIRECTORY * i + DIRECTORY];
  }

  /** The data regions follow one another without gap or overlap, from the end of the directory to
      the end of the file, and each holds its image's bytes. */
  lemma RegionsTile(images: seq<Image>, i: nat)
    requires Fits(images) && i < |images|
    ensures Offset(images, 0) == Start(images)
    ensures Offset(images, i) + |images[i].buffer| == Offset(images, i + 1) <= |IcoBytes(images)|
    ensures Offset(images, |images|) == |IcoBytes(images)|
    ensures IcoBytes(images)[Offset(images, i)..Offset(images, i + 1)] == images[i].buffer
  {
    var s, n := IcoBytes(images), |images|;
    DataAt(images, n, i);
    assert s[Start(images)..] == Data(images, n);
    assert s[Offset(images, i)..Offset(images, i + 1)]
        == s[Start(images)..][Offset(images, i) - Start(images)..Offset(images, i + 1) - Start(images)];
  }

  /** What comes back: a side of zero reads as 256, everything else as it was. */
  function Restored(image: Image): Image {
    image.(width := if image.width == 0 then 256 else image.width,
           height := if image.height == 0 then 256 else image.height)
  }

  function AllRestored(images: seq<Image>, n: nat): (r: seq<Image>)
    requires n <= |images|
    ensures |r| == n && forall i :: 0 <= i < n ==> r[i] == Restored(images[i])
  {
    seq(n, i requires 0 <= i < n => Restored(images[i]))
  }

  lemma DescribedFields(image: Image, offset: int)
    requires SideFits(image.width) && SideFits(image.height) && |image.buffer| < U32 && 0 <= offset < U32
    ensures var e := Described(image, offset);
      && e[0] == Side(image.width) && e[1] == Side(image.height)
      && (forall k :: 0 <= k < 4 ==> e[8 + k] == Le32(|image.buffer|)[k])
      && (forall k :: 0 <= k < 4 ==> e[12 + k] == Le32(offset)[k])
  {
  }

  /** Reading a directory entry found at `at`. */
  lemma EntryReads(s: seq<byte>, at: nat, image: Image, offset: int)
    requires SideFits(image.width) && SideFits(image.height) && |image.buffer| < U32 && 0 <= offset < U32
    requires at + DIRECTORY <= |s| && s[at..at + DIRECTORY] == Described(image, offset)
    ensures s[at] == Side(image.width) && s[at + 1] == Side(image.height)
    ensures U32At(s, at + 8) == |image.buffer| && U32At(s, at + 12) == offset
  {
    var e := Described(image, offset);
    DescribedFields(image, offset);
    forall k | 0 <= k < DIRECTORY ensures s[at + k] == e[k] {
      assert s[at + k] == s[at..at + DIRECTORY][k];
    }
    assert s[at] == s[at + 0];
    assert e[8] == e[8 + 0] && e[12] == e[12 + 0];
    assert s[at + 8 + 1] == s[at + 9] && s[at + 8 + 2] == s[at + 10] && s[at + 8 + 3] == s[at + 11];
    assert s[at + 12 + 1] == s[at + 13] && s[at + 12 + 2] == s[at + 14] && s[at + 12 + 3] == s[at + 15];
    Le32Reads(s, at + 8, |image.buffer|);
    Le32Reads(s, at + 12, offset);
  }

  /** A reader that finds an entry's fields and the region they point to has the image. */
  lemma FieldsGiveImage(s: seq<byte>, i: nat, image: Image, offset: nat)
    requires SideFits(image.width) && SideFits(image.height)
    requires var at := HEADER + DIRECTORY * i;
      && at + DIRECTORY <= |s| && s[at] == Side(image.width) && s[at + 1] == Side(image.height)
      && U32At(s, at + 8) == |image.buffer| && U32At(s, at + 12) == offset
    requires offset + |image.buffer| <= |s| && s[offset..offset + |image.buffer|] == image.buffer
    ensures ReadImage(s, i) == Some(Restored(image))
  {
  }

  lemma ImageReads(images: seq<Image>, i: nat)
    requires Fits(images) && i < |images|
    ensures ReadImage(IcoBytes(images), i) == Some(Restored(images[i]))
  {
    assert EntryFits(images, i);
    EntryInFile(images, i);
    EntryReads(IcoBytes(images), HEADER + DIRECTORY * i, images[i], Offset(images, i));
    RegionsTile(images, i);
    FieldsGiveImage(IcoBytes(images), i, images[i], Offset(images, i));
  }

  lemma {:induction false} ImagesReadFrom(s: seq<byte>, images: seq<Image>, n: nat)
    requires n <= |images| && forall i :: 0 <= i < n ==> ReadImage(s, i) == Some(Restored(images[i]))
    ensures ReadImages(s, n) == Some(AllRestored(images, n))
  {
    if n > 0 {
      ImagesReadFrom(s, images, n - 1);
      assert AllRestored(images, n) == AllRestored(images, n - 1) + [Restored(images[n - 1])];
    }
  }

  lemma ImagesRead(images: seq<Image>, n: nat)
    requires Fits(images) && n <= |images|
    ensures ReadImages(IcoBytes(images), n) == Some(AllRestored(images, n))
  {
    forall i | 0 <= i < n ensures ReadImage(IcoBytes(images), i) == Some(Restored(images[i])) { ImageReads(images, i); }
    ImagesReadFrom(IcoBytes(images), images, n);
  }

  /** A reader gets back every byte string and every side, except that a side of zero, which the
      packer lets through, comes back as 256: the round trip is exact iff no side is zero. */
  lemma RoundTrip(images: seq<Image>)
    requires Fits(images)
    ensures ReadIco(IcoBytes(images)) == Some(AllRestored(images, |images|))
    ensures ReadIco(IcoBytes(images)) == Some(images)
       <==> forall i :: 0 <= i < |images| ==> images[i].width != 0 && images[i].height != 0
  {
    var s, n := IcoBytes(images), |images|;
    assert s[..HEADER] == Header(n);
    assert s[0] == Header(n)[0] && s[1] == Header(n)[1] && s[2] == Header(n)[2]
        && s[3] == Header(n)[3] && s[4] == Header(n)[4] && s[5] == Header(n)[5];
    ImagesRead(images, n);
    var back := AllRestored(images, n);
    if forall i :: 0 <= i < n ==> images[i].width != 0 && images[i].height != 0 {
      assert back == images;
    } else {
      var i :| 0 <= i < n && (images[i].width == 0 || images[i].height == 0);
      assert back[i] != images[i];
    }
  }

  // ----- the bytes no reader above looks at

  /** The file begins with a zero, a one and the number of images, and every directory entry has no colour
      count, a zero, one plane and 32 bits a pixel. */
  lemma FixedBytes(images: seq<Image>, i: nat)
    requires Fits(images) && i < |images|
    ensures var s, at := IcoBytes(images), 6 + 16 * i;
      && s[..6] == [0, 0, 1, 0, |images| % 256, |images| / 256]
      && at + 16 <= |s| && s[at + 2..at + 8] == [0, 0, 1, 0, 32, 0]
  {
    var s, at := IcoBytes(images), 6 + 16 * i;
    EntryInFile(images, i);
    assert EntryFits(images, i);
    var e := Described(images[i], Offset(images, i));
    assert s[..6] == Header(|images|);
    assert e[2..8] == [0, 0, 1, 0, 32, 0];
    assert s[at + 2..at + 8] == s[at..at + 16][2..8];
  }
}
