/** Boot images: putting one together from its parts, and taking it apart. */
module BootImage {
  import opened Wrappers

  type Byte = b: nat | b < 256

  type Bytes = seq<Byte>

  const MAGIC: Bytes := [65, 78, 68, 82, 79, 73, 68, 33]  // ANDROID!
  const GZIP: Bytes := [0x1f, 0x8b, 0x08, 0x00]
  const LZMA: Bytes := [0x5d, 0x00, 0x00]
  const MTK: Bytes := [0x88, 0x16, 0x88, 0x58]
  const RECOVERY: Bytes := [82, 69, 67, 79, 86, 69, 82, 89]
  const ROOTFS: Bytes := [82, 79, 79, 84, 70, 83, 0, 0]
  const SIGN: Bytes := [83, 73, 71, 78]
  const DT_MAGICS: seq<Bytes> := [[81, 67, 68, 84], [83, 80, 82, 68], [68, 84, 66, 72], [0xd0, 0x0d, 0xfe, 0xed]]

  /** The header: its magic, ten 32-bit words, and the name, command line and id, of which
      only the id is touched. */
  const WORDS: nat := 10
  const TAIL: nat := 1584
  const HEADER: nat := 1632
  const ID_AT: nat := 528
  const ID_SIZE: nat := 32
  const MTK_SIZE: nat := 512
  const SIGN_AT: nat := 1024

  datatype Header = Header(words: seq<nat>, tail: Bytes) {
    function KernelSize(): nat requires |words| == WORDS { words[0] }
    function RamdiskSize(): nat requires |words| == WORDS { words[2] }
    function SecondSize(): nat requires |words| == WORDS { words[4] }
    function PageSize(): nat requires |words| == WORDS { words[7] }
    function DtSize(): nat requires |words| == WORDS { words[8] }

    predicate Good() {
      && |words| == WORDS && |tail| == TAIL
      && forall i | 0 <= i < WORDS :: words[i] < 0x1_0000_0000
    }
  }

  predicate IsPage(page: nat) {
    page == 2048 || page == 4096 || page == 16384
  }

  // ---------- little-endian words ----------

  function Word(n: nat): Bytes
    requires n < 0x1_0000_0000
  {
    [n % 256, n / 256 % 256, n / 65536 % 256, n / 16777216]
  }

  function ReadWord(b: Bytes): (n: nat)
    requires |b| == 4
    ensures n < 0x1_0000_0000
  {
    var b0: nat, b1: nat, b2: nat, b3: nat := b[0], b[1], b[2], b[3];
    b0 + 256 * b1 + 65536 * b2 + 16777216 * b3
  }

  lemma WordReads(n: nat)
    requires n < 0x1_0000_0000
    ensures ReadWord(Word(n)) == n
  {
    var a, b, c := n / 256, n / 65536, n / 16777216;
    assert n == 256 * a + n % 256;
    assert a == 256 * b + a % 256;
    assert b == 256 * c + b % 256;
  }

  ghost predicate Narrow(ws: seq<nat>) {
    forall i | 0 <= i < |ws| :: ws[i] < 0x1_0000_0000
  }

  function EncodeWords(ws: seq<nat>): (b: Bytes)
    requires Narrow(ws)
    ensures |b| == 4 * |ws|
  {
    if ws == [] then [] else EncodeWords(ws[..|ws| - 1]) + Word(ws[|ws| - 1])
  }

  lemma {:induction false} EncodedWordAt(ws: seq<nat>, i: nat)
    requires Narrow(ws) && i < |ws|
    ensures EncodeWords(ws)[4 * i..4 * i + 4] == Word(ws[i])
  {
    var n := |ws| - 1;
    if i < n {
      EncodedWordAt(ws[..n], i);
      assert EncodeWords(ws)[4 * i..4 * i + 4] == EncodeWords(ws[..n])[4 * i..4 * i + 4];
    }
  }

  function Encode(h: Header): (b: Bytes)
    requires h.Good()
    ensures |b| == HEADER
  {
    MAGIC + EncodeWords(h.words) + h.tail
  }

  predicate Matches(img: Bytes, at: nat, magic: Bytes) {
    at + |magic| <= |img| && img[at..at + |magic|] == magic
  }

  function WordAt(img: Bytes, at: nat): (n: nat)
    requires at + 4 <= |img|
    ensures n < 0x1_0000_0000
  {
    ReadWord(img[at..at + 4])
  }

  /** The header that lies at a position of an image. */
  function Decode(img: Bytes, base: nat): (h: Header)
    requires base + HEADER <= |img|
    ensures h.Good()
  {
    Header(seq(WORDS, i requires 0 <= i < WORDS => WordAt(img, base + 8 + 4 * i)), img[base + 48..base + HEADER])
  }

  lemma DecodeEncode(h: Header, rest: Bytes)
    requires h.Good()
    ensures Decode(Encode(h) + rest, 0) == h && Matches(Encode(h) + rest, 0, MAGIC)
  {
    var img := Encode(h) + rest;
    var ws := EncodeWords(h.words);
    forall i | 0 <= i < WORDS ensures WordAt(img, 8 + 4 * i) == h.words[i] {
      EncodedWordAt(h.words, i);
      assert img[8 + 4 * i..8 + 4 * i + 4] == ws[4 * i..4 * i + 4];
      WordReads(h.words[i]);
    }
    assert img[48..HEADER] == h.tail;
    assert img[..8] == MAGIC;
    var d := Decode(img, 0);
    assert |d.words| == WORDS && forall i | 0 <= i < WORDS :: d.words[i] == h.words[i];
    assert d.words == h.words;
  }

  // ---------- pages ----------

  /** On a page boundary. */
  predicate OnPage(pos: nat, page: nat) {
    if page == 2048 then pos % 2048 == 0 else if page == 4096 then pos % 4096 == 0 else pos % 16384 == 0
  }

  /** What clearing the low bits of a position does for a page size that is a power of two. */
  function RoundDown(pos: nat, page: nat): nat
    requires IsPage(page)
  {
    if page == 2048 then pos - pos % 2048 else if page == 4096 then pos - pos % 4096 else pos - pos % 16384
  }

  /** Where the section after one of this size begins. */
  function Next(pos: nat, size: nat, page: nat): nat
    requires IsPage(page)
  {
    RoundDown(pos + size + page - 1, page)
  }

  lemma Mask2048(x: bv32)
    ensures x & 0xfffff800 == x - x % 2048
  {
  }

  lemma Mask4096(x: bv32)
    ensures x & 0xfffff000 == x - x % 4096
  {
  }

  lemma Mask16384(x: bv32)
    ensures x & 0xffffc000 == x - x % 16384
  {
  }

  /** A section of n bytes takes (n + page - 1) / page pages. */
  function Pages(n: nat, page: nat): nat
    requires page > 0
  {
    (n + page - 1) / page
  }

  lemma Next2048(pos: nat, size: nat)
    requires pos % 2048 == 0
    ensures Next(pos, size, 2048) == pos + Pages(size, 2048) * 2048
    ensures Next(pos, size, 2048) % 2048 == 0 && pos + size <= Next(pos, size, 2048) < pos + size + 2048
  {
  }

  lemma Next4096(pos: nat, size: nat)
    requires pos % 4096 == 0
    ensures Next(pos, size, 4096) == pos + Pages(size, 4096) * 4096
    ensures Next(pos, size, 4096) % 4096 == 0 && pos + size <= Next(pos, size, 4096) < pos + size + 4096
  {
  }

  lemma Next16384(pos: nat, size: nat)
    requires pos % 16384 == 0
    ensures Next(pos, size, 16384) == pos + Pages(size, 16384) * 16384
    ensures Next(pos, size, 16384) % 16384 == 0 && pos + size <= Next(pos, size, 16384) < pos + size + 16384
  {
  }

  /** The masked position is the one the page count gives, and is on a page boundary. */
  lemma NextIsPages(pos: nat, size: nat, page: nat)
    requires IsPage(page) && OnPage(pos, page)
    ensures Next(pos, size, page) == pos + Pages(size, page) * page
    ensures OnPage(Next(pos, size, page), page) && pos + size <= Next(pos, size, page) < pos + size + page
  {
    if page == 2048 {
      Next2048(pos, size);
    } else if page == 4096 {
      Next4096(pos, size);
    } else {
      Next16384(pos, size);
    }
  }

  function Zeros(n: nat): Bytes {
    seq(n, _ => 0)
  }

  function Padded(b: Bytes, page: nat): (r: Bytes)
    requires IsPage(page)
  {
    b + Zeros(PadSize(|b|, page))
  }

  function PadSize(n: nat, page: nat): nat
    requires IsPage(page)
  {
    NextIsPages(0, n, page);
    Next(0, n, page) - n
  }

  lemma PaddedEnds(pos: nat, b: Bytes, page: nat)
    requires IsPage(page) && OnPage(pos, page)
    ensures pos + |Padded(b, page)| == Next(pos, |b|, page)
    ensures OnPage(|Padded(b, page)|, page)
  {
    NextIsPages(0, |b|, page);
    NextIsPages(pos, |b|, page);
  }

  // ---------- files ----------

  function Resized(data: Bytes, n: nat): (r: Bytes)
    ensures |r| == n
  {
    if n <= |data| then data[..n] else data + Zeros(n - |data|)
  }

  /** Writing at a position leaves zeros in any gap before it. */
  function Written(data: Bytes, pos: nat, b: Bytes): Bytes {
    if pos + |b| <= |data| then data[..pos] + b + data[pos + |b|..] else Resized(data, pos) + b
  }

  class File {
    var data: Bytes

    constructor ()
      ensures data == []
    {
      data := [];
    }

    method Write(pos: nat, b: Bytes)
      modifies this
      ensures data == Written(old(data), pos, b)
    {
      data := Written(data, pos, b);
    }

    method Truncate(n: nat)
      modifies this
      ensures data == Resized(old(data), n)
    {
      data := Resized(data, n);
    }

    /** So far the file is `image`, with perhaps some closing zeros still missing. */
    ghost predicate Holds(image: Bytes)
      reads this
    {
      |data| <= |image| && Resized(data, |image|) == image
    }

    /** Appends at a page boundary, and says where the next section begins. */
    method Append(b: Bytes, pos: nat, page: nat, ghost image: Bytes) returns (next: nat)
      requires IsPage(page) && pos == |image| && OnPage(pos, page) && Holds(image)
      modifies this
      ensures Holds(image + Padded(b, page)) && next == |image + Padded(b, page)| && OnPage(next, page)
      ensures |data| >= |old(data)|
    {
      Appended(data, image, b, page);
      PaddedEnds(pos, b, page);
      NextIsPages(pos, |b|, page);
      Write(pos, b);
      next := Next(pos, |b|, page);
    }
  }

  lemma AppendedPad(data: Bytes, image: Bytes, b: Bytes, pad: nat)
    requires |data| <= |image| && Resized(data, |image|) == image
    ensures
      var after, image' := Written(data, |image|, b), image + (b + Zeros(pad));
      |after| <= |image'| && Resized(after, |image'|) == image'
  {
    var after := Written(data, |image|, b);
    assert after == image + b;
    assert Resized(after, |image| + |b| + pad) == image + b + Zeros(pad);
    assert image + b + Zeros(pad) == image + (b + Zeros(pad));
  }

  lemma Appended(data: Bytes, image: Bytes, b: Bytes, page: nat)
    requires IsPage(page) && |data| <= |image| && Resized(data, |image|) == image
    ensures
      var after, image' := Written(data, |image|, b), image + Padded(b, page);
      |after| <= |image'| && Resized(after, |image'|) == image'
  {
    AppendedPad(data, image, b, PadSize(|b|, page));
  }

  // ---------- the ramdisk ----------

  /** The ramdisk files: the wrapper flags, the gzip file if there is one, and the plain one. */
  datatype RamdiskFiles = RamdiskFiles(mtk: bool, boot: bool, recovery: bool, gz: Option<Bytes>, raw: Bytes)

  function MtkHeader(size: nat, name: Bytes): Bytes
    requires size < 0x1_0000_0000 && |name| == 8
  {
    MTK + Word(size) + name + Zeros(24) + seq(472, _ => 0xff)
  }

  /** The bytes that go into the image; None where the program gives up. */
  function RamdiskBytes(r: RamdiskFiles): Option<Bytes>
    requires r.gz.Some? ==> |r.gz.value| < 0x1_0000_0000
  {
    if r.mtk then
      if r.gz.None? || !(r.boot || r.recovery) then None
      else Some(MtkHeader(|r.gz.value|, if r.boot then ROOTFS else RECOVERY) + r.gz.value)
    else if r.gz.Some? then r.gz
    else Some(r.raw)
  }

  datatype Kind = Gz | Lzma

  /** What came out: the content under a name, with the wrapper flags; or giving up. */
  datatype RamdiskDump =
    | Dumped(kind: Kind, content: Bytes, mtk: bool, boot: bool, recovery: bool)
    | Unknown(content: Bytes)
    | BadWrapper

  /** Looks at the bytes at a position; the wrapper is peeled off and looked into. */
  method DumpRamdisk(img: Bytes, at: nat, size: nat) returns (r: RamdiskDump)
    requires at + size <= |img|
    ensures r == RamdiskAt(img, at, size)
    decreases size
  {
    if Matches(img, at, GZIP) {
      r := Dumped(Gz, img[at..at + size], false, false, false);
    } else if Matches(img, at, LZMA) {
      r := Dumped(Lzma, img[at..at + size], false, false, false);
    } else if Matches(img, at, MTK) {
      var recovery := Matches(img, at + 8, RECOVERY);
      if !recovery && !Matches(img, at + 8, ROOTFS) { return BadWrapper; }
      if size < MTK_SIZE { return BadWrapper; }
      r := DumpRamdisk(img, at + MTK_SIZE, size - MTK_SIZE);
      r := Wrapped(r, !recovery, recovery);
    } else {
      r := Unknown(img[at..at + size]);
    }
  }

  function Wrapped(r: RamdiskDump, boot: bool, recovery: bool): RamdiskDump {
    if r.Dumped? then r.(mtk := true, boot := r.boot || boot, recovery := r.recovery || recovery) else r
  }

  function RamdiskAt(img: Bytes, at: nat, size: nat): RamdiskDump
    requires at + size <= |img|
    decreases size
  {
    if Matches(img, at, GZIP) then Dumped(Gz, img[at..at + size], false, false, false)
    else if Matches(img, at, LZMA) then Dumped(Lzma, img[at..at + size], false, false, false)
    else if !Matches(img, at, MTK) then Unknown(img[at..at + size])
    else if size < MTK_SIZE || !(Matches(img, at + 8, RECOVERY) || Matches(img, at + 8, ROOTFS)) then BadWrapper
    else
      var recovery := Matches(img, at + 8, RECOVERY);
      Wrapped(RamdiskAt(img, at + MTK_SIZE, size - MTK_SIZE), !recovery, recovery)
  }

  /** Content of a kind the extractor knows by its first bytes. */
  predicate Recognised(content: Bytes, kind: Kind) {
    match kind
    case Gz => |content| >= 4 && content[..4] == GZIP
    case Lzma => |content| >= 4 && content[..3] == LZMA
  }

  lemma MatchWithin(img: Bytes, at: nat, content: Bytes, k: nat, magic: Bytes)
    requires at + |content| <= |img| && img[at..at + |content|] == content && k + |magic| <= |content|
    ensures Matches(img, at + k, magic) <==> content[k..k + |magic|] == magic
  {
    SubSlice(img, at, |content|, k, |magic|);
  }

  lemma SubSlice(img: Bytes, at: nat, n: nat, k: nat, m: nat)
    requires at + n <= |img| && k + m <= n
    ensures img[at + k..at + k + m] == img[at..at + n][k..k + m]
  {
    var whole, x, y := img[at..at + n], img[at + k..at + k + m], img[at..at + n][k..k + m];
    forall i | 0 <= i < m ensures x[i] == y[i] {
      assert whole[k + i] == img[at + k + i];
    }
  }

  lemma PlainReads(img: Bytes, at: nat, content: Bytes, kind: Kind)
    requires at + |content| <= |img| && img[at..at + |content|] == content && Recognised(content, kind)
    ensures RamdiskAt(img, at, |content|) == Dumped(kind, content, false, false, false)
  {
    MatchWithin(img, at, content, 0, GZIP);
    MatchWithin(img, at, content, 0, LZMA);
    assert content[..4][0] == content[0] == content[..3][0];
  }

  lemma NameAt(a: Bytes, name: Bytes, b: Bytes, c: Bytes)
    requires |a| == 8 && |name| == 8
    ensures (a + name + b + c)[8..16] == name
  {
  }

  lemma HeaderParts(size: nat, boot: bool)
    requires size < 0x1_0000_0000
    ensures
      var h := MtkHeader(size, if boot then ROOTFS else RECOVERY);
      && |h| == MTK_SIZE && h[..4] == MTK
      && (h[8..16] == RECOVERY <==> !boot) && (h[8..16] == ROOTFS <==> boot)
      && h[0] == 0x88
  {
    NameAt(MTK + Word(size), if boot then ROOTFS else RECOVERY, Zeros(24), seq(472, _ => 0xff));
    assert ROOTFS[1] != RECOVERY[1];
  }

  /** A wrapped ramdisk comes back without its wrapper, and with the flags it stands for. */
  lemma WrappedReads(img: Bytes, at: nat, gz: Bytes, boot: bool)
    requires |gz| < 0x1_0000_0000 && Recognised(gz, Gz)
    requires
      var all := MtkHeader(|gz|, if boot then ROOTFS else RECOVERY) + gz;
      at + |all| <= |img| && img[at..at + |all|] == all
    ensures RamdiskAt(img, at, MTK_SIZE + |gz|) == Dumped(Gz, gz, true, boot, !boot)
  {
    var h := MtkHeader(|gz|, if boot then ROOTFS else RECOVERY);
    var all := h + gz;
    HeaderParts(|gz|, boot);
    MatchWithin(img, at, all, 0, GZIP);
    MatchWithin(img, at, all, 0, LZMA);
    MatchWithin(img, at, all, 0, MTK);
    MatchWithin(img, at, all, 8, RECOVERY);
    MatchWithin(img, at, all, 8, ROOTFS);
    assert all[0] == 0x88 && all[0..4] == h[..4] && all[8..16] == h[8..16];
    assert all[0..4][0] == 0x88 && all[0..3][0] == 0x88;
    assert img[at + MTK_SIZE..at + MTK_SIZE + |gz|] == all[MTK_SIZE..] == gz;
    PlainReads(img, at + MTK_SIZE, gz, Gz);
  }

  predicate Ready(r: RamdiskFiles, kind: Kind) {
    && (r.gz.Some? ==> |r.gz.value| < 0x1_0000_0000)
    && (r.mtk ==> r.gz.Some? && (r.boot || r.recovery))
    && Recognised(Content(r), kind) && (r.gz.Some? ==> kind == Gz)
  }

  function Content(r: RamdiskFiles): Bytes {
    if r.gz.Some? then r.gz.value else r.raw
  }

  lemma RamdiskReads(img: Bytes, at: nat, r: RamdiskFiles, kind: Kind)
    requires Ready(r, kind)
    requires at + |RamdiskBytes(r).value| <= |img| && img[at..at + |RamdiskBytes(r).value|] == RamdiskBytes(r).value
    ensures RamdiskAt(img, at, |RamdiskBytes(r).value|) ==
      Dumped(kind, Content(r), r.mtk, r.mtk && r.boot, r.mtk && !r.boot)
  {
    if r.mtk { WrappedRamdiskReads(img, at, r, kind); } else { PlainReads(img, at, Content(r), kind); }
  }

  lemma WrappedRamdiskReads(img: Bytes, at: nat, r: RamdiskFiles, kind: Kind)
    requires Ready(r, kind) && r.mtk
    requires at + |RamdiskBytes(r).value| <= |img| && img[at..at + |RamdiskBytes(r).value|] == RamdiskBytes(r).value
    ensures RamdiskAt(img, at, |RamdiskBytes(r).value|) == Dumped(kind, Content(r), true, r.boot, !r.boot)
  {
    HeaderParts(|r.gz.value|, r.boot);
    WrappedReads(img, at, r.gz.value, r.boot);
  }

  // ---------- the whole image ----------

  /** The header as it is written back. */
  function NewHeader(h: Header, kernel: nat, ramdisk: nat, second: nat, dt: nat): Header
    requires h.Good()
  {
    Header(h.words[0 := kernel][2 := ramdisk][4 := second][8 := dt],
           h.tail[..ID_AT] + Zeros(ID_SIZE) + h.tail[ID_AT + ID_SIZE..])
  }

  function Size(b: Option<Bytes>): nat {
    if b.Some? then |b.value| else 0
  }

  function Section(b: Option<Bytes>, page: nat): Bytes
    requires IsPage(page)
  {
    if b.Some? then Padded(b.value, page) else []
  }

  function FirstPage(h: Header, page: nat): (b: Bytes)
    requires h.Good() && IsPage(page)
    ensures |b| == page
  {
    Encode(h) + Zeros(page - HEADER)
  }

  function Image(h: Header, page: nat, kernel: Bytes, ramdisk: Bytes, second: Option<Bytes>, dt: Option<Bytes>): Bytes
    requires h.Good() && IsPage(page)
  {
    FirstPage(h, page) + Padded(kernel, page) + Padded(ramdisk, page) + Section(second, page) + Section(dt, page)
  }

  /** No header starts at a multiple of 256 before the position. */
  ghost predicate NoMagicBefore(img: Bytes, at: nat) {
    forall j | 0 <= j < at && j % 256 == 0 :: !Matches(img, j, MAGIC)
  }

  /** The first header at a multiple of 256, from one such position on. */
  function FirstMagic(img: Bytes, at: nat): Option<nat>
    decreases |img| - at
  {
    if at >= |img| then None else if Matches(img, at, MAGIC) then Some(at) else FirstMagic(img, at + 256)
  }

  lemma {:induction false} FirstMagicIs(img: Bytes, at: nat)
    requires at % 256 == 0 && NoMagicBefore(img, at)
    ensures FirstMagic(img, at).None? ==> NoMagicBefore(img, |img|)
    ensures FirstMagic(img, at).Some? ==>
      var base := FirstMagic(img, at).value;
      base < |img| && base % 256 == 0 && Matches(img, base, MAGIC) && NoMagicBefore(img, base)
    decreases |img| - at
  {
    if at < |img| && !Matches(img, at, MAGIC) { FirstMagicIs(img, at + 256); }
  }

  /** The header is looked for at every 256th byte. */
  method FindMagic(img: Bytes) returns (base: Option<nat>)
    ensures base == FirstMagic(img, 0)
  {
    var at := 0;
    while at < |img|
      invariant FirstMagic(img, 0) == FirstMagic(img, at)
      decreases |img| - at
    {
      if Matches(img, at, MAGIC) { return Some(at); }
      at := at + 256;
    }
    base := None;
  }

  /** Everything behind the first page. */
  function Sections(page: nat, kernel: Bytes, ramdisk: Bytes, second: Option<Bytes>, dt: Option<Bytes>): Bytes
    requires IsPage(page)
  {
    Padded(kernel, page) + Padded(ramdisk, page) + Section(second, page) + Section(dt, page)
  }

  method AppendOptional(file: File, b: Option<Bytes>, pos: nat, page: nat, ghost image: Bytes) returns (next: nat)
    requires IsPage(page) && pos == |image| && OnPage(pos, page) && file.Holds(image)
    modifies file
    ensures file.Holds(image + Section(b, page)) && next == |image + Section(b, page)| && OnPage(next, page)
    ensures |file.data| >= |old(file.data)|
  {
    next := pos;
    if b.Some? {
      next := file.Append(b.value, pos, page, image);
    } else {
      assert image + [] == image;
    }
  }

  /** Appends the sections one after the other. */
  method AppendSections(file: File, page: nat, kernel: Bytes, ramdisk: Bytes, second: Option<Bytes>, dt: Option<Bytes>,
                        ghost first: Bytes)
    returns (pos: nat)
    requires IsPage(page) && |first| == page && file.data == first
    modifies file
    ensures file.Holds(first + Sections(page, kernel, ramdisk, second, dt)) && |file.data| >= |first|
    ensures pos == |first + Sections(page, kernel, ramdisk, second, dt)|
  {
    var k, r, s, d := Padded(kernel, page), Padded(ramdisk, page), Section(second, page), Section(dt, page);
    pos := file.Append(kernel, page, page, first);
    pos := file.Append(ramdisk, pos, page, first + k);
    pos := AppendOptional(file, second, pos, page, first + k + r);
    pos := AppendOptional(file, dt, pos, page, first + k + r + s);
    Regroup(first, k, r, s, d);
  }

  /** Overwriting the header leaves the rest as it is. */
  lemma HeaderSwapped(data: Bytes, h: Header, h': Header, page: nat, rest: Bytes)
    requires h.Good() && h'.Good() && IsPage(page) && HEADER <= |data| <= |FirstPage(h, page) + rest|
    requires Resized(data, |FirstPage(h, page) + rest|) == FirstPage(h, page) + rest
    ensures Resized(Written(data, 0, Encode(h')), |FirstPage(h, page) + rest|) == FirstPage(h', page) + rest
  {
    var image, image' := FirstPage(h, page) + rest, FirstPage(h', page) + rest;
    var after := Written(data, 0, Encode(h'));
    assert after == Encode(h') + data[HEADER..];
    assert image[HEADER..] == image'[HEADER..];
    assert Resized(after, |image|) == Encode(h') + Resized(data, |image|)[HEADER..];
    assert image' == Encode(h') + image'[HEADER..];
  }

  lemma FreshPage(h: Header, page: nat)
    requires h.Good() && IsPage(page)
    ensures Written(Resized([], page), 0, Encode(h)) == FirstPage(h, page)
  {
  }

  lemma ImageIs(h: Header, page: nat, kernel: Bytes, ramdisk: Bytes, second: Option<Bytes>, dt: Option<Bytes>)
    requires h.Good() && IsPage(page)
    ensures Image(h, page, kernel, ramdisk, second, dt) ==
      FirstPage(h, page) + Sections(page, kernel, ramdisk, second, dt)
  {
    Regroup(FirstPage(h, page), Padded(kernel, page), Padded(ramdisk, page), Section(second, page), Section(dt, page));
  }

  lemma Regroup(f: Bytes, k: Bytes, r: Bytes, s: Bytes, d: Bytes)
    ensures f + k + r + s + d == f + (k + r + s + d)
  {
  }

  /** Puts the parts behind the given header. */
  method Assemble(ihdr: Header, kernel: Bytes, ramdisk: Bytes, second: Option<Bytes>, dt: Option<Bytes>)
    returns (image: Bytes)
    requires ihdr.Good() && IsPage(ihdr.PageSize())
    requires NewHeader(ihdr, |kernel|, |ramdisk|, Size(second), Size(dt)).Good()
    ensures image ==
      Image(NewHeader(ihdr, |kernel|, |ramdisk|, Size(second), Size(dt)), ihdr.PageSize(), kernel, ramdisk, second, dt)
  {
    var page := ihdr.PageSize();
    var file := new File();
    file.Truncate(page);
    file.Write(0, Encode(ihdr));
    FreshPage(ihdr, page);
    var pos := AppendSections(file, page, kernel, ramdisk, second, dt, FirstPage(ihdr, page));
    var hdr := NewHeader(ihdr, |kernel|, |ramdisk|, Size(second), Size(dt));
    HeaderSwapped(file.data, ihdr, hdr, page, Sections(page, kernel, ramdisk, second, dt));
    file.Write(0, Encode(hdr));
    file.Truncate(pos);
    image := file.data;
    ImageIs(hdr, page, kernel, ramdisk, second, dt);
  }

  // ---------- taking an image apart ----------

  datatype Outcome =
    | Failed
    | Stopped(kernel: Bytes, ramdisk: RamdiskDump)
    | Extracted(kernel: Bytes, ramdisk: RamdiskDump, second: Option<Bytes>, dt: Option<Bytes>, secure: bool,
                rkcrc: bool)

  predicate DtAt(img: Bytes, at: nat) {
    exists i :: 0 <= i < |DT_MAGICS| && Matches(img, at, DT_MAGICS[i])
  }

  /** What the device tree and the security marks come to. Positions are compared with the
      size of the file as they are, without the bytes before the header; a device tree that
      then runs past the end cannot be written out. */
  function ExtractDt(img: Bytes, base: nat, h: Header, pos: nat, kernel: Bytes, ramdisk: RamdiskDump,
                     second: Option<Bytes>): Outcome
    requires h.Good() && IsPage(h.PageSize())
  {
    var size := h.DtSize();
    var known := size > 0 && pos < |img| && pos + size <= |img| && DtAt(img, base + pos);
    if known && base + pos + size > |img| then Failed
    else
      var dt := if known then Some(img[base + pos..base + pos + size]) else None;
      var end := if known then Next(pos, size, h.PageSize()) else pos;
      var rkcrc := Matches(img, base + SIGN_AT, SIGN);
      Extracted(kernel, ramdisk, second, dt, rkcrc || end < |img|, rkcrc)
  }

  /** What the second stage comes to, and then the rest. */
  function ExtractRest(img: Bytes, base: nat, h: Header, pos: nat, kernel: Bytes, ramdisk: RamdiskDump): Outcome
    requires h.Good() && IsPage(h.PageSize())
  {
    var size := h.SecondSize();
    if size == 0 then ExtractDt(img, base, h, pos, kernel, ramdisk, None)
    else if base + pos + size > |img| then Failed
    else ExtractDt(img, base, h, Next(pos, size, h.PageSize()), kernel, ramdisk,
                   Some(img[base + pos..base + pos + size]))
  }

  /** What the ramdisk comes to, and then the rest. */
  function ExtractRamdisk(img: Bytes, base: nat, h: Header, pos: nat, kernel: Bytes): Outcome
    requires h.Good() && IsPage(h.PageSize())
  {
    if base + pos + h.RamdiskSize() > |img| then Failed
    else
      var ramdisk := RamdiskAt(img, base + pos, h.RamdiskSize());
      if !ramdisk.Dumped? then Stopped(kernel, ramdisk)
      else ExtractRest(img, base, h, Next(pos, h.RamdiskSize(), h.PageSize()), kernel, ramdisk)
  }

  function ExtractParts(img: Bytes, base: nat, h: Header): Outcome
    requires h.Good() && IsPage(h.PageSize())
  {
    var page := h.PageSize();
    if base + page + h.KernelSize() > |img| then Failed
    else ExtractRamdisk(img, base, h, Next(page, h.KernelSize(), page), img[base + page..base + page + h.KernelSize()])
  }

  /** Taking apart the image whose header is at a position. */
  function ExtractAt(img: Bytes, base: nat): Outcome {
    if base + HEADER > |img| || !IsPage(Decode(img, base).PageSize()) then Failed
    else ExtractParts(img, base, Decode(img, base))
  }

  method FindDt(img: Bytes, at: nat) returns (known: bool)
    ensures known <==> DtAt(img, at)
  {
    for i := 0 to |DT_MAGICS|
      invariant forall j | 0 <= j < i :: !Matches(img, at, DT_MAGICS[j])
    {
      if Matches(img, at, DT_MAGICS[i]) { return true; }
    }
    known := false;
  }

  /** Walks through the sections behind the header at `base`. */
  method ExtractFrom(img: Bytes, base: nat) returns (r: Outcome)
    ensures r == ExtractAt(img, base)
  {
    if base + HEADER > |img| { return Failed; }
    var hdr := Decode(img, base);
    if !IsPage(hdr.PageSize()) { return Failed; }
    r := ExtractSections(img, base, hdr);
  }

  method ExtractSections(img: Bytes, base: nat, hdr: Header) returns (r: Outcome)
    requires hdr.Good() && IsPage(hdr.PageSize())
    ensures r == ExtractParts(img, base, hdr)
  {
    var page := hdr.PageSize();
    var pos := page;
    if base + pos + hdr.KernelSize() > |img| { return Failed; }
    var kernel := img[base + pos..base + pos + hdr.KernelSize()];
    pos := Next(pos, hdr.KernelSize(), page);
    r := ExtractBehindKernel(img, base, hdr, pos, kernel);
  }

  method ExtractBehindKernel(img: Bytes, base: nat, hdr: Header, pos: nat, kernel: Bytes) returns (r: Outcome)
    requires hdr.Good() && IsPage(hdr.PageSize())
    ensures r == ExtractRamdisk(img, base, hdr, pos, kernel)
  {
    if base + pos + hdr.RamdiskSize() > |img| { return Failed; }
    var ramdisk := DumpRamdisk(img, base + pos, hdr.RamdiskSize());
    if !ramdisk.Dumped? { return Stopped(kernel, ramdisk); }
    r := ExtractOptional(img, base, hdr, Next(pos, hdr.RamdiskSize(), hdr.PageSize()), kernel, ramdisk);
  }

  method ExtractOptional(img: Bytes, base: nat, hdr: Header, pos0: nat, kernel: Bytes, ramdisk: RamdiskDump)
    returns (r: Outcome)
    requires hdr.Good() && IsPage(hdr.PageSize())
    ensures r == ExtractRest(img, base, hdr, pos0, kernel, ramdisk)
  {
    var page := hdr.PageSize();
    var pos := pos0;
    var second := None;
    if hdr.SecondSize() > 0 {
      if base + pos + hdr.SecondSize() > |img| { return Failed; }
      second := Some(img[base + pos..base + pos + hdr.SecondSize()]);
      pos := Next(pos, hdr.SecondSize(), page);
    }
    r := ExtractEnd(img, base, hdr, pos, kernel, ramdisk, second);
  }

  method ExtractEnd(img: Bytes, base: nat, hdr: Header, pos0: nat, kernel: Bytes, ramdisk: RamdiskDump,
                    second: Option<Bytes>)
    returns (r: Outcome)
    requires hdr.Good() && IsPage(hdr.PageSize())
    ensures r == ExtractDt(img, base, hdr, pos0, kernel, ramdisk, second)
  {
    var pos, dt := pos0, None;
    if hdr.DtSize() > 0 && pos < |img| && pos + hdr.DtSize() <= |img| {
      var known := FindDt(img, base + pos);
      if known {
        if base + pos + hdr.DtSize() > |img| { return Failed; }
        dt := Some(img[base + pos..base + pos + hdr.DtSize()]);
        pos := Next(pos, hdr.DtSize(), hdr.PageSize());
      }
    }
    var rkcrc := Matches(img, base + SIGN_AT, SIGN);
    r := Extracted(kernel, ramdisk, second, dt, rkcrc || pos < |img|, rkcrc);
  }

  /** What extracting comes to: the image is taken apart at its first header. */
  function ExtractFirst(img: Bytes): Outcome {
    var base := FirstMagic(img, 0);
    if base.None? then Failed else ExtractAt(img, base.value)
  }

  method Extract(img: Bytes) returns (r: Outcome)
    ensures r == ExtractFirst(img)
  {
    var base := FindMagic(img);
    if base.None? {
      r := Failed;
    } else {
      r := ExtractFrom(img, base.value);
    }
  }

  // ---------- the round trip ----------

  predicate Begins(b: Bytes, content: Bytes) {
    |content| <= |b| && b[..|content|] == content
  }

  lemma ContentAt(before: Bytes, b: Bytes, after: Bytes, content: Bytes, img: Bytes)
    requires Begins(b, content) && img == before + b + after
    ensures |before| + |content| <= |img| && img[|before|..|before| + |content|] == content
  {
  }

  /** Five pieces in a row, and what each of the last four begins with. */
  lemma PiecesAt(f: Bytes, k: Bytes, r: Bytes, s: Bytes, d: Bytes, k': Bytes, r': Bytes, s': Bytes, d': Bytes,
                 img: Bytes, a: nat, b: nat, c: nat)
    requires Begins(k, k') && Begins(r, r') && Begins(s, s') && Begins(d, d') && img == f + k + r + s + d
    requires a == |f| + |k| && b == a + |r| && c == b + |s|
    ensures c + |d'| <= |img| == c + |d|
    ensures img[|f|..|f| + |k'|] == k' && img[a..a + |r'|] == r' && img[b..b + |s'|] == s' && img[c..c + |d'|] == d'
  {
    assert img == f + k + (r + s + d);
    ContentAt(f, k, r + s + d, k', img);
    assert img == (f + k) + r + (s + d);
    ContentAt(f + k, r, s + d, r', img);
    ContentAt(f + k + r, s, d, s', img);
    assert img == (f + k + r + s) + d + [];
    ContentAt(f + k + r + s, d, [], d', img);
  }

  lemma PaddedBegins(b: Bytes, page: nat)
    requires IsPage(page)
    ensures Begins(Padded(b, page), b)
  {
  }

  function Or(b: Option<Bytes>): Bytes {
    if b.Some? then b.value else []
  }

  /** Where the sections lie: on page boundaries, one behind the other, to the end. */
  ghost predicate Lie(img: Bytes, page: nat, kernel: Bytes, ramdisk: Bytes, second: Option<Bytes>, dt: Option<Bytes>,
                      r: nat, s: nat, d: nat)
    requires IsPage(page)
  {
    && OnPage(r, page) && OnPage(s, page) && OnPage(d, page)
    && page + |kernel| <= r && r + |ramdisk| <= s && s + Size(second) <= d && d + Size(dt) <= |img|
    && Next(d, Size(dt), page) == |img|
    && img[page..page + |kernel|] == kernel && img[r..r + |ramdisk|] == ramdisk
    && img[s..s + Size(second)] == Or(second) && img[d..d + Size(dt)] == Or(dt)
  }

  lemma SectionsLie(h: Header, page: nat, kernel: Bytes, ramdisk: Bytes, second: Option<Bytes>, dt: Option<Bytes>,
                    r: nat, s: nat, d: nat)
    requires h.Good() && IsPage(page)
    requires r == Next(page, |kernel|, page) && s == Next(r, |ramdisk|, page) && d == Next(s, Size(second), page)
    ensures Lie(Image(h, page, kernel, ramdisk, second, dt), page, kernel, ramdisk, second, dt, r, s, d)
  {
    PaddedBegins(kernel, page);
    PaddedBegins(ramdisk, page);
    SectionBegins(second, page);
    SectionBegins(dt, page);
    Offsets(page, kernel, ramdisk, second, dt, r, s, d);
    PiecesLie(Image(h, page, kernel, ramdisk, second, dt), page, FirstPage(h, page), Padded(kernel, page),
              Padded(ramdisk, page),
              Section(second, page), Section(dt, page), kernel, ramdisk, second, dt, r, s, d);
  }

  lemma PiecesLie(img: Bytes, page: nat, first: Bytes, kp: Bytes, rp: Bytes, sp: Bytes, dp: Bytes,
                  kernel: Bytes, ramdisk: Bytes, second: Option<Bytes>, dt: Option<Bytes>, r: nat, s: nat, d: nat)
    requires IsPage(page) && |first| == page && img == first + kp + rp + sp + dp
    requires Begins(kp, kernel) && Begins(rp, ramdisk) && Begins(sp, Or(second)) && Begins(dp, Or(dt))
    requires r == page + |kp| && s == r + |rp| && d == s + |sp| && Next(d, Size(dt), page) == d + |dp|
    requires OnPage(r, page) && OnPage(s, page) && OnPage(d, page)
    requires |Or(second)| == Size(second) && |Or(dt)| == Size(dt)
    ensures Lie(img, page, kernel, ramdisk, second, dt, r, s, d)
  {
    PiecesAt(first, kp, rp, sp, dp, kernel, ramdisk, Or(second), Or(dt), img, r, s, d);
  }

  lemma Offsets(page: nat, kernel: Bytes, ramdisk: Bytes, second: Option<Bytes>, dt: Option<Bytes>, r: nat, s: nat,
                d: nat)
    requires IsPage(page)
    requires r == Next(page, |kernel|, page) && s == Next(r, |ramdisk|, page) && d == Next(s, Size(second), page)
    ensures OnPage(r, page) && OnPage(s, page) && OnPage(d, page)
    ensures page + |Padded(kernel, page)| == r >= page + |kernel|
    ensures r + |Padded(ramdisk, page)| == s >= r + |ramdisk|
    ensures s + |Section(second, page)| == d >= s + Size(second)
    ensures d + |Section(dt, page)| == Next(d, Size(dt), page)
  {
    FirstPageBoundary(page);
    PaddedEnds(page, kernel, page);
    NextIsPages(page, |kernel|, page);
    PaddedEnds(r, ramdisk, page);
    NextIsPages(r, |ramdisk|, page);
    SectionEnds(s, second, page);
    SectionEnds(d, dt, page);
  }

  lemma SectionBegins(b: Option<Bytes>, page: nat)
    requires IsPage(page)
    ensures Begins(Section(b, page), Or(b)) && |Or(b)| == Size(b)
  {
    if b.Some? { PaddedBegins(b.value, page); }
  }

  lemma FirstPageBoundary(page: nat)
    requires IsPage(page)
    ensures OnPage(page, page)
  {
  }

  lemma SectionEnds(pos: nat, b: Option<Bytes>, page: nat)
    requires IsPage(page) && OnPage(pos, page)
    ensures pos + |Section(b, page)| == Next(pos, Size(b), page) >= pos + Size(b)
    ensures OnPage(Next(pos, Size(b), page), page)
    ensures Size(b) == 0 ==> Next(pos, Size(b), page) == pos
  {
    NextIsPages(pos, Size(b), page);
    if b.Some? { PaddedEnds(pos, b.value, page); }
    EmptyNext(pos, page);
  }

  lemma EmptyNext(pos: nat, page: nat)
    requires IsPage(page) && OnPage(pos, page)
    ensures Next(pos, 0, page) == pos
  {
    NextIsPages(pos, 0, page);
  }

  /** An empty section is as good as none. */
  function NonEmpty(b: Option<Bytes>): Option<Bytes> {
    if Size(b) > 0 then b else None
  }

  /** The extractor up to the ramdisk, on an image whose sections lie as they should. */
  lemma FrontReads(img: Bytes, h: Header, kernel: Bytes, ramdisk: Bytes, r: nat, s: nat)
    requires h.Good() && IsPage(h.PageSize()) && HEADER <= |img| && Decode(img, 0) == h
    requires h.KernelSize() == |kernel| && h.RamdiskSize() == |ramdisk|
    requires r == Next(h.PageSize(), |kernel|, h.PageSize()) && s == Next(r, |ramdisk|, h.PageSize())
    requires h.PageSize() + |kernel| <= |img| && img[h.PageSize()..h.PageSize() + |kernel|] == kernel
    requires r + |ramdisk| <= |img| && RamdiskAt(img, r, |ramdisk|).Dumped?
    ensures ExtractAt(img, 0) == ExtractRest(img, 0, h, s, kernel, RamdiskAt(img, r, |ramdisk|))
  {
  }

  lemma DtReads(img: Bytes, h: Header, d: nat, kernel: Bytes, dump: RamdiskDump, second: Option<Bytes>,
                dt: Option<Bytes>)
    requires h.Good() && IsPage(h.PageSize()) && OnPage(d, h.PageSize()) && h.DtSize() == Size(dt)
    requires d + Size(dt) <= |img| == Next(d, Size(dt), h.PageSize()) && img[d..d + Size(dt)] == Or(dt)
    ensures
      var known := Size(dt) > 0 && DtAt(img, d);
      var sign := Matches(img, SIGN_AT, SIGN);
      ExtractDt(img, 0, h, d, kernel, dump, second) ==
        Extracted(kernel, dump, second, if known then dt else None, sign || (Size(dt) > 0 && !known), sign)
  {
    var size := h.DtSize();
    if size == 0 {
      EmptyNext(d, h.PageSize());
      assert d == |img|;
    } else {
      assert d < |img| && 0 + d == d;
      assert dt == Some(img[d..d + size]);
    }
  }

  /** The extractor from the second stage on. */
  lemma RestReads(img: Bytes, h: Header, s: nat, d: nat, kernel: Bytes, dump: RamdiskDump, second: Option<Bytes>)
    requires h.Good() && IsPage(h.PageSize()) && OnPage(s, h.PageSize())
    requires h.SecondSize() == Size(second) && d == Next(s, Size(second), h.PageSize())
    requires s + Size(second) <= |img| && img[s..s + Size(second)] == Or(second)
    ensures ExtractRest(img, 0, h, s, kernel, dump) == ExtractDt(img, 0, h, d, kernel, dump, NonEmpty(second))
  {
    EmptyNext(s, h.PageSize());
  }

  lemma ImageDecodes(h: Header, page: nat, kernel: Bytes, ramdisk: Bytes, second: Option<Bytes>, dt: Option<Bytes>)
    requires h.Good() && IsPage(page)
    ensures
      var img := Image(h, page, kernel, ramdisk, second, dt);
      HEADER <= |img| && Decode(img, 0) == h && Matches(img, 0, MAGIC)
  {
    ImageIs(h, page, kernel, ramdisk, second, dt);
    var rest := Sections(page, kernel, ramdisk, second, dt);
    Three(Encode(h), Zeros(page - HEADER), rest);
    DecodeEncode(h, Zeros(page - HEADER) + rest);
  }

  lemma Three(a: Bytes, b: Bytes, c: Bytes)
    ensures a + b + c == a + (b + c)
  {
  }

  /** What repacking and extracting gives back: the kernel, the ramdisk without a wrapper,
      the second stage, and the device tree if its kind is known; an unknown one is left
      behind and the image is marked instead. */
  lemma RoundTrip(ihdr: Header, kernel: Bytes, files: RamdiskFiles, kind: Kind, second: Option<Bytes>,
                  dt: Option<Bytes>,
                  h: Header, ramdisk: Bytes, r: nat, s: nat, d: nat)
    requires ihdr.Good() && IsPage(ihdr.PageSize()) && Ready(files, kind) && RamdiskBytes(files) == Some(ramdisk)
    requires h == NewHeader(ihdr, |kernel|, |ramdisk|, Size(second), Size(dt)) && h.Good()
    requires
      var page := ihdr.PageSize();
      r == Next(page, |kernel|, page) && s == Next(r, |ramdisk|, page) && d == Next(s, Size(second), page)
    ensures
      var img := Image(h, ihdr.PageSize(), kernel, ramdisk, second, dt);
      var known := Size(dt) > 0 && DtAt(img, d);
      var sign := Matches(img, SIGN_AT, SIGN);
      && Matches(img, 0, MAGIC)
      && ExtractAt(img, 0) ==
           Extracted(kernel, DumpOf(files, kind),
                     NonEmpty(second), if known then dt else None, sign || (Size(dt) > 0 && !known), sign)
  {
    var page := ihdr.PageSize();
    HeaderSizes(ihdr, |kernel|, |ramdisk|, Size(second), Size(dt));
    ImageDecodes(h, page, kernel, ramdisk, second, dt);
    SectionsLie(h, page, kernel, ramdisk, second, dt, r, s, d);
    LayoutReads(Image(h, page, kernel, ramdisk, second, dt), h, kernel, files, kind, second, dt, ramdisk, r, s, d);
  }

  lemma HeaderSizes(h: Header, kernel: nat, ramdisk: nat, second: nat, dt: nat)
    requires h.Good()
    ensures
      var h' := NewHeader(h, kernel, ramdisk, second, dt);
      && |h'.words| == WORDS && h'.PageSize() == h.PageSize() && h'.KernelSize() == kernel
      && h'.RamdiskSize() == ramdisk && h'.SecondSize() == second && h'.DtSize() == dt
  {
  }

  lemma LayoutReads(img: Bytes, h: Header, kernel: Bytes, files: RamdiskFiles, kind: Kind, second: Option<Bytes>,
                    dt: Option<Bytes>,
                    ramdisk: Bytes, r: nat, s: nat, d: nat)
    requires h.Good() && IsPage(h.PageSize()) && Ready(files, kind) && RamdiskBytes(files) == Some(ramdisk)
    requires h.KernelSize() == |kernel| && h.RamdiskSize() == |ramdisk| && h.SecondSize() == Size(second) &&
      h.DtSize() == Size(dt)
    requires
      var page := h.PageSize();
      r == Next(page, |kernel|, page) && s == Next(r, |ramdisk|, page) && d == Next(s, Size(second), page)
    requires HEADER <= |img| && Decode(img, 0) == h && Lie(img, h.PageSize(), kernel, ramdisk, second, dt, r, s, d)
    ensures
      var known := Size(dt) > 0 && DtAt(img, d);
      var sign := Matches(img, SIGN_AT, SIGN);
      ExtractAt(img, 0) ==
        Extracted(kernel, DumpOf(files, kind),
                  NonEmpty(second), if known then dt else None, sign || (Size(dt) > 0 && !known), sign)
  {
    LayoutFront(img, h, kernel, files, kind, ramdisk, r, s);
    TailReads(img, h, s, d, kernel, DumpOf(files, kind), second, dt);
  }

  /** The ramdisk as it is given back. */
  function DumpOf(files: RamdiskFiles, kind: Kind): RamdiskDump {
    Dumped(kind, Content(files), files.mtk, files.mtk && files.boot, files.mtk && !files.boot)
  }

  lemma LayoutFront(img: Bytes, h: Header, kernel: Bytes, files: RamdiskFiles, kind: Kind, ramdisk: Bytes, r: nat,
                    s: nat)
    requires h.Good() && IsPage(h.PageSize()) && Ready(files, kind) && RamdiskBytes(files) == Some(ramdisk)
    requires HEADER <= |img| && Decode(img, 0) == h
    requires h.KernelSize() == |kernel| && h.RamdiskSize() == |ramdisk|
    requires r == Next(h.PageSize(), |kernel|, h.PageSize()) && s == Next(r, |ramdisk|, h.PageSize())
    requires h.PageSize() + |kernel| <= |img| && img[h.PageSize()..h.PageSize() + |kernel|] == kernel
    requires r + |ramdisk| <= |img| && img[r..r + |ramdisk|] == ramdisk
    ensures ExtractAt(img, 0) == ExtractRest(img, 0, h, s, kernel, DumpOf(files, kind))
  {
    RamdiskReads(img, r, files, kind);
    FrontReads(img, h, kernel, ramdisk, r, s);
  }

  lemma TailReads(img: Bytes, h: Header, s: nat, d: nat, kernel: Bytes, dump: RamdiskDump, second: Option<Bytes>,
                  dt: Option<Bytes>)
    requires h.Good() && IsPage(h.PageSize()) && OnPage(s, h.PageSize()) && OnPage(d, h.PageSize())
    requires h.SecondSize() == Size(second) && h.DtSize() == Size(dt) && d == Next(s, Size(second), h.PageSize())
    requires s + Size(second) <= |img| && d + Size(dt) <= |img| == Next(d, Size(dt), h.PageSize())
    requires img[s..s + Size(second)] == Or(second) && img[d..d + Size(dt)] == Or(dt)
    ensures
      var known := Size(dt) > 0 && DtAt(img, d);
      var sign := Matches(img, SIGN_AT, SIGN);
      ExtractRest(img, 0, h, s, kernel, dump) ==
        Extracted(kernel, dump, NonEmpty(second), if known then dt else None, sign || (Size(dt) > 0 && !known), sign)
  {
    RestReads(img, h, s, d, kernel, dump, second);
    DtReads(img, h, d, kernel, dump, NonEmpty(second), dt);
  }

  // ---------- repacking ----------

  /** The header of the original image, if there is one that can be used. */
  function Usable(orig: Bytes): (h: Option<Header>)
    ensures h.Some? ==> h.value.Good() && IsPage(h.value.PageSize())
  {
    var base := FirstMagic(orig, 0);
    if base.None? || base.value + HEADER > |orig| || !IsPage(Decode(orig, base.value).PageSize()) then None
    else Some(Decode(orig, base.value))
  }

  /** All sizes are 32-bit numbers. */
  predicate SizesFit(kernel: Bytes, files: RamdiskFiles, second: Option<Bytes>, dt: Option<Bytes>) {
    && |kernel| < 0x1_0000_0000 && Size(second) < 0x1_0000_0000 && Size(dt) < 0x1_0000_0000
    && |Content(files)| + MTK_SIZE < 0x1_0000_0000
  }

  lemma HeaderFits(h: Header, kernel: Bytes, files: RamdiskFiles, second: Option<Bytes>, dt: Option<Bytes>)
    requires h.Good() && SizesFit(kernel, files, second, dt) && RamdiskBytes(files).Some?
    ensures NewHeader(h, |kernel|, |RamdiskBytes(files).value|, Size(second), Size(dt)).Good()
  {
    RamdiskSizes(files);
  }

  function NewImage(h: Header, kernel: Bytes, files: RamdiskFiles, second: Option<Bytes>, dt: Option<Bytes>): Bytes
    requires SizesFit(kernel, files, second, dt) && RamdiskBytes(files).Some? && h.Good() && IsPage(h.PageSize())
  {
    HeaderFits(h, kernel, files, second, dt);
    var ramdisk := RamdiskBytes(files).value;
    Image(NewHeader(h, |kernel|, |ramdisk|, Size(second), Size(dt)), h.PageSize(), kernel, ramdisk, second, dt)
  }

  /** The parts behind the header of the original image, or nothing: without a usable
      header, without a ramdisk to go with the wrapper flags, or with the flag that asks
      for a checksum. */
  function Repacked(orig: Bytes, kernel: Bytes, files: RamdiskFiles, second: Option<Bytes>, dt: Option<Bytes>,
                    rkcrc: bool):
    Option<Bytes>
    requires SizesFit(kernel, files, second, dt)
  {
    if rkcrc || Usable(orig).None? || RamdiskBytes(files).None? then None
    else Some(NewImage(Usable(orig).value, kernel, files, second, dt))
  }

  method Repack(orig: Bytes, kernel: Bytes, files: RamdiskFiles, second: Option<Bytes>, dt: Option<Bytes>, rkcrc: bool)
    returns (image: Option<Bytes>)
    requires SizesFit(kernel, files, second, dt)
    ensures image.Some? <==> !rkcrc && Usable(orig).Some? && RamdiskBytes(files).Some?
    ensures image.Some? ==> image.value == NewImage(Usable(orig).value, kernel, files, second, dt)
  {
    var base := FindMagic(orig);
    if base.None? || base.value + HEADER > |orig| { return None; }
    var ihdr := Decode(orig, base.value);
    if !IsPage(ihdr.PageSize()) { return None; }
    var ramdisk := RamdiskBytes(files);
    if ramdisk.None? { return None; }
    HeaderFits(ihdr, kernel, files, second, dt);
    var img := Assemble(ihdr, kernel, ramdisk.value, second, dt);
    image := if rkcrc then None else Some(img);
  }

  lemma RamdiskSizes(files: RamdiskFiles)
    requires |Content(files)| + MTK_SIZE < 0x1_0000_0000 && RamdiskBytes(files).Some?
    ensures |RamdiskBytes(files).value| < 0x1_0000_0000
  {
    if files.mtk { HeaderParts(|files.gz.value|, files.boot); }
  }

  /** A device tree of a kind the extractor knows. */
  predicate KnownDt(b: Bytes) {
    |b| >= 4 && exists i :: 0 <= i < |DT_MAGICS| && b[..4] == DT_MAGICS[i]
  }

  /** The mark of a checksummed image, which lies in the header. */
  predicate Signed(h: Header)
    requires h.Good()
  {
    h.tail[SIGN_AT - 48..SIGN_AT - 44] == SIGN
  }

  /** Repacking any parts behind the header of any original, and extracting the result,
      gives the kernel, the ramdisk of a known kind with its flags but without its wrapper,
      the second stage and a device tree of a known kind back; a device tree of another kind
      is left behind, and the image is marked instead. */
  lemma RepackThenExtract(orig: Bytes, kernel: Bytes, files: RamdiskFiles, kind: Kind, second: Option<Bytes>,
                          dt: Option<Bytes>)
    requires SizesFit(kernel, files, second, dt) && Ready(files, kind) && Usable(orig).Some?
    ensures Repacked(orig, kernel, files, second, dt, false).Some?
    ensures ExtractFirst(Repacked(orig, kernel, files, second, dt, false).value) ==
            GivenBack(Usable(orig).value, kernel, files, kind, second, dt)
  {
    var h := Usable(orig).value;
    NewImageExtracts(h, kernel, files, kind, second, dt);
    assert FirstMagic(NewImage(h, kernel, files, second, dt), 0) == Some(0);
  }

  lemma NewImageExtracts(h: Header, kernel: Bytes, files: RamdiskFiles, kind: Kind, second: Option<Bytes>,
                         dt: Option<Bytes>)
    requires SizesFit(kernel, files, second, dt) && Ready(files, kind) && h.Good() && IsPage(h.PageSize())
    ensures
      var img := NewImage(h, kernel, files, second, dt);
      img != [] && Matches(img, 0, MAGIC) && ExtractAt(img, 0) == GivenBack(h, kernel, files, kind, second, dt)
  {
    var ramdisk := RamdiskBytes(files).value;
    HeaderFits(h, kernel, files, second, dt);
    var h', page := NewHeader(h, |kernel|, |ramdisk|, Size(second), Size(dt)), h.PageSize();
    var a := Next(page, |kernel|, page);
    var b := Next(a, |ramdisk|, page);
    var c := Next(b, Size(second), page);
    RoundTrip(h, kernel, files, kind, second, dt, h', ramdisk, a, b, c);
    SignStays(h, h', page, kernel, ramdisk, second, dt);
    DtStays(h', page, kernel, ramdisk, second, dt, a, b, c);
  }

  /** What is to be given back. */
  function GivenBack(h: Header, kernel: Bytes, files: RamdiskFiles, kind: Kind, second: Option<Bytes>,
                     dt: Option<Bytes>): Outcome
    requires h.Good()
  {
    var known := dt.Some? && KnownDt(dt.value);
    Extracted(kernel, DumpOf(files, kind),
              NonEmpty(second), if known then dt else None, Signed(h) || (Size(dt) > 0 && !known), Signed(h))
  }

  lemma SignStays(h: Header, h': Header, page: nat, kernel: Bytes, ramdisk: Bytes, second: Option<Bytes>,
                  dt: Option<Bytes>)
    requires h.Good() && h'.Good() && IsPage(page) && h' == NewHeader(h, |kernel|, |ramdisk|, Size(second), Size(dt))
    ensures Matches(Image(h', page, kernel, ramdisk, second, dt), SIGN_AT, SIGN) <==> Signed(h)
  {
    var img := Image(h', page, kernel, ramdisk, second, dt);
    ImageDecodes(h', page, kernel, ramdisk, second, dt);
    assert img[48..HEADER] == h'.tail;
    SubSlice(img, 48, TAIL, SIGN_AT - 48, 4);
    assert h'.tail[SIGN_AT - 48..SIGN_AT - 44] == h.tail[SIGN_AT - 48..SIGN_AT - 44];
  }

  lemma DtStays(h: Header, page: nat, kernel: Bytes, ramdisk: Bytes, second: Option<Bytes>, dt: Option<Bytes>, r: nat,
                s: nat, d: nat)
    requires h.Good() && IsPage(page)
    requires r == Next(page, |kernel|, page) && s == Next(r, |ramdisk|, page) && d == Next(s, Size(second), page)
    ensures Size(dt) > 0 && DtAt(Image(h, page, kernel, ramdisk, second, dt), d) <==> dt.Some? && KnownDt(dt.value)
  {
    var img := Image(h, page, kernel, ramdisk, second, dt);
    if dt.Some? && dt.value != [] {
      DtPadded(img, page, h, kernel, ramdisk, second, dt.value, r, s, d);
      DtMagic(img, d, dt.value);
    }
  }

  function BeforeDt(h: Header, page: nat, kernel: Bytes, ramdisk: Bytes, second: Option<Bytes>): Bytes
    requires h.Good() && IsPage(page)
  {
    FirstPage(h, page) + Padded(kernel, page) + Padded(ramdisk, page) + Section(second, page)
  }

  lemma BeforeDtEnds(h: Header, page: nat, kernel: Bytes, ramdisk: Bytes, second: Option<Bytes>, r: nat, s: nat, d: nat)
    requires h.Good() && IsPage(page)
    requires r == Next(page, |kernel|, page) && s == Next(r, |ramdisk|, page) && d == Next(s, Size(second), page)
    ensures |BeforeDt(h, page, kernel, ramdisk, second)| == d
  {
    Offsets(page, kernel, ramdisk, second, None, r, s, d);
  }

  lemma LastPiece(a: Bytes, b: Bytes)
    ensures (a + b)[|a|..] == b
  {
  }

  /** Behind the device tree the image is padded with zeros. */
  lemma DtPadded(img: Bytes, page: nat, h: Header, kernel: Bytes, ramdisk: Bytes, second: Option<Bytes>, dt: Bytes,
                 r: nat, s: nat, d: nat)
    requires h.Good() && IsPage(page) && img == Image(h, page, kernel, ramdisk, second, Some(dt))
    requires r == Next(page, |kernel|, page) && s == Next(r, |ramdisk|, page) && d == Next(s, Size(second), page)
    ensures d <= |img| && img[d..] == Padded(dt, page)
  {
    BeforeDtEnds(h, page, kernel, ramdisk, second, r, s, d);
    LastPiece(BeforeDt(h, page, kernel, ramdisk, second), Padded(dt, page));
  }

  /** The first four bytes decide, and padding is not mistaken for them. */
  lemma DtMagic(img: Bytes, d: nat, b: Bytes)
    requires d <= |img| && b != []
    requires exists n :: img[d..] == b + Zeros(n)
    ensures DtAt(img, d) <==> KnownDt(b)
  {
    var n :| img[d..] == b + Zeros(n);
    var rest := img[d..];
    assert forall i | 0 <= i < |DT_MAGICS| :: NoZeroAfterFirst(DT_MAGICS[i]);
    forall i | 0 <= i < |DT_MAGICS|
      ensures Matches(img, d, DT_MAGICS[i]) <==> |b| >= 4 && b[..4] == DT_MAGICS[i]
    {
      if |b| >= 4 {
        assert img[d..d + 4] == rest[..4] == b[..4];
      } else {
        ShortNeverMatches(img, d, b, n, DT_MAGICS[i]);
      }
    }
  }

  predicate NoZeroAfterFirst(m: Bytes) {
    |m| == 4 && m[1] != 0 && m[2] != 0 && m[3] != 0
  }

  lemma ShortNeverMatches(img: Bytes, d: nat, b: Bytes, n: nat, m: Bytes)
    requires d <= |img| && img[d..] == b + Zeros(n) && 0 < |b| < 4
    requires NoZeroAfterFirst(m)
    ensures !Matches(img, d, m)
  {
    if d + 4 <= |img| {
      assert img[d..][|b|] == 0;
      assert img[d..d + 4][|b|] == img[d..][|b|];
    }
  }
}
