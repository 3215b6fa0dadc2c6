/** Boot images byte by byte: headers behind other bytes, and what repacking writes. */
module BootBytes {
  import opened Wrappers
  import opened BootImage

  // ---------- the marks that are looked for ----------

  /** The bytes are the characters of a text. */
  predicate Spells(b: Bytes, text: string) {
    |b| == |text| && forall i | 0 <= i < |b| :: b[i] == text[i] as int
  }

  lemma Marks()
    ensures Spells(MAGIC, "ANDROID!") && Spells(SIGN, "SIGN") && Spells(RECOVERY, "RECOVERY")
    ensures Spells(ROOTFS[..6], "ROOTFS") && ROOTFS[6..] == [0, 0]
    ensures GZIP == [31, 139, 8, 0] && LZMA == [93, 0, 0] && MTK == [136, 22, 136, 88]
    ensures SIGN_AT == 1024 && MTK_SIZE == 512 && HEADER == 1632
  {
  }

  /** The kinds of device trees that are known. */
  lemma KnownKinds(b: Bytes)
    ensures KnownDt(b) <==>
            |b| >= 4 && (Spells(b[..4], "QCDT") || Spells(b[..4], "SPRD") || Spells(b[..4], "DTBH")
                         || b[..4] == [0xd0, 0x0d, 0xfe, 0xed])
  {
    var q: Bytes, s: Bytes, d: Bytes := [81, 67, 68, 84], [83, 80, 82, 68], [68, 84, 66, 72];
    if |b| >= 4 {
      assert Spells(b[..4], "QCDT") <==> b[..4] == q;
      assert Spells(b[..4], "SPRD") <==> b[..4] == s;
      assert Spells(b[..4], "DTBH") <==> b[..4] == d;
      assert DT_MAGICS[0] == q && DT_MAGICS[1] == s && DT_MAGICS[2] == d;
      assert DT_MAGICS[3] == [0xd0, 0x0d, 0xfe, 0xed];
    }
  }

  // ---------- behind other bytes ----------

  /** Bytes before the header in which no header is found. */
  ghost predicate Skipped(pre: Bytes) {
    |pre| % 256 == 0 && forall j | 0 <= j < |pre| && j % 256 == 0 :: !Matches(pre, j, MAGIC)
  }

  /** The file is the image behind n other bytes. */
  ghost predicate Behind(all: Bytes, n: nat, img: Bytes) {
    |all| == n + |img| && forall i | 0 <= i < |img| :: all[n + i] == img[i]
  }

  lemma SliceBehind(all: Bytes, n: nat, img: Bytes, at: nat, size: nat)
    requires Behind(all, n, img) && at + size <= |img|
    ensures all[n + at..n + at + size] == img[at..at + size]
  {
    var x, y := all[n + at..n + at + size], img[at..at + size];
    forall i | 0 <= i < size ensures x[i] == y[i] {
      assert all[n + (at + i)] == img[at + i];
    }
  }

  lemma Prefixed(pre: Bytes, img: Bytes)
    ensures Behind(pre + img, |pre|, img)
  {
  }

  /** The same with the position in the file named. */
  lemma SliceAt(all: Bytes, n: nat, img: Bytes, there: nat, at: nat, size: nat)
    requires Behind(all, n, img) && at + size <= |img| && there == n + at
    ensures there + size <= |all| && all[there..there + size] == img[at..at + size]
  {
    SliceBehind(all, n, img, at, size);
  }

  lemma MatchesBehind(all: Bytes, n: nat, img: Bytes, at: nat, magic: Bytes)
    requires Behind(all, n, img)
    ensures Matches(all, n + at, magic) <==> Matches(img, at, magic)
  {
    if at + |magic| <= |img| { SliceBehind(all, n, img, at, |magic|); }
  }

  function Further(base: Option<nat>, n: nat): Option<nat> {
    if base.None? then None else Some(n + base.value)
  }

  lemma {:induction false} FirstMagicFrom(all: Bytes, n: nat, img: Bytes, at: nat)
    requires Behind(all, n, img)
    ensures FirstMagic(all, n + at) == Further(FirstMagic(img, at), n)
    decreases |img| - at
  {
    MatchesBehind(all, n, img, at, MAGIC);
    if at < |img| && !Matches(img, at, MAGIC) { FirstMagicFrom(all, n, img, at + 256); }
  }

  lemma {:induction false} MagicSkips(pre: Bytes, all: Bytes, img: Bytes, at: nat)
    requires Skipped(pre) && at % 256 == 0 && at <= |pre| && Behind(all, |pre|, img) && all[..|pre|] == pre
    ensures FirstMagic(all, at) == Further(FirstMagic(img, 0), |pre|)
    decreases |pre| - at
  {
    if at == |pre| {
      FirstMagicFrom(all, |pre|, img, 0);
    } else {
      NoMagicAt(pre, all, at);
      MagicSkips(pre, all, img, at + 256);
    }
  }

  lemma PrefixSlice(pre: Bytes, all: Bytes, i: nat, j: nat)
    requires i <= j <= |pre| <= |all| && all[..|pre|] == pre
    ensures all[i..j] == pre[i..j]
  {
    var x, y := all[i..j], pre[i..j];
    forall k | 0 <= k < j - i ensures x[k] == y[k] {
      assert all[..|pre|][i + k] == pre[i + k];
    }
  }

  lemma NoMagicAt(pre: Bytes, all: Bytes, at: nat)
    requires Skipped(pre) && at % 256 == 0 && at < |pre| <= |all| && all[..|pre|] == pre
    ensures at + 256 <= |pre| && !Matches(all, at, MAGIC)
  {
    assert at + 256 <= |pre|;
    assert !Matches(pre, at, MAGIC);
    PrefixSlice(pre, all, at, at + 8);
  }

  /** The header is found where it is found without them, only further on. */
  lemma FirstMagicBehind(pre: Bytes, img: Bytes)
    requires Skipped(pre)
    ensures FirstMagic(pre + img, 0) == Further(FirstMagic(img, 0), |pre|)
  {
    MagicSkips(pre, pre + img, img, 0);
  }

  lemma DecodeBehind(all: Bytes, n: nat, img: Bytes, base: nat)
    requires Behind(all, n, img) && base + HEADER <= |img|
    ensures Decode(all, n + base) == Decode(img, base)
  {
    var h, h' := Decode(img, base), Decode(all, n + base);
    forall i | 0 <= i < WORDS ensures h'.words[i] == h.words[i] {
      SliceBehind(all, n, img, base + 8 + 4 * i, 4);
    }
    assert h'.words == h.words;
    SliceBehind(all, n, img, base + 48, TAIL);
  }

  /** The same header can be used. */
  lemma UsableBehind(pre: Bytes, img: Bytes)
    requires Skipped(pre)
    ensures Usable(pre + img) == Usable(img)
  {
    FirstMagicBehind(pre, img);
    var base := FirstMagic(img, 0);
    if base.Some? && base.value + HEADER <= |img| { DecodeBehind(pre + img, |pre|, img, base.value); }
  }

  /** Any header written behind such bytes is the one that is read. */
  lemma HeaderBehind(pre: Bytes, h: Header, rest: Bytes)
    requires Skipped(pre) && h.Good()
    ensures Usable(pre + Encode(h) + rest) ==
            if h.PageSize() == 2048 || h.PageSize() == 4096 || h.PageSize() == 16384 then Some(h) else None
  {
    DecodeEncode(h, rest);
    assert FirstMagic(Encode(h) + rest, 0) == Some(0);
    UsableBehind(pre, Encode(h) + rest);
    assert pre + (Encode(h) + rest) == pre + Encode(h) + rest;
  }

  lemma {:induction false} RamdiskBehind(all: Bytes, n: nat, img: Bytes, at: nat, size: nat)
    requires Behind(all, n, img) && at + size <= |img|
    ensures RamdiskAt(all, n + at, size) == RamdiskAt(img, at, size)
    decreases size
  {
    RamdiskTests(all, n, img, at);
    SliceBehind(all, n, img, at, size);
    if size >= MTK_SIZE { RamdiskBehind(all, n, img, at + MTK_SIZE, size - MTK_SIZE); }
  }

  lemma RamdiskTests(all: Bytes, n: nat, img: Bytes, at: nat)
    requires Behind(all, n, img)
    ensures Matches(all, n + at, GZIP) <==> Matches(img, at, GZIP)
    ensures Matches(all, n + at, LZMA) <==> Matches(img, at, LZMA)
    ensures Matches(all, n + at, MTK) <==> Matches(img, at, MTK)
    ensures Matches(all, n + at + 8, RECOVERY) <==> Matches(img, at + 8, RECOVERY)
    ensures Matches(all, n + at + 8, ROOTFS) <==> Matches(img, at + 8, ROOTFS)
  {
    MatchesBehind(all, n, img, at, GZIP);
    MatchesBehind(all, n, img, at, LZMA);
    MatchesBehind(all, n, img, at, MTK);
    MatchesBehind(all, n, img, at + 8, RECOVERY);
    MatchesBehind(all, n, img, at + 8, ROOTFS);
  }

  /** A device tree of a known kind whose end is missing, in a file long enough for its
      position to pass. */
  predicate DtCut(img: Bytes, base: nat, h: Header, pos: nat, length: nat)
    requires h.Good()
  {
    && h.DtSize() > 0 && pos < length && pos + h.DtSize() <= length
    && base + pos + h.DtSize() > |img| && DtAt(img, base + pos)
  }

  /** Where the device tree is looked for, counted from the header. */
  function DtPosition(h: Header): nat
    requires h.Good() && IsPage(h.PageSize())
  {
    var page := h.PageSize();
    BehindSecond(h, Next(Next(page, h.KernelSize(), page), h.RamdiskSize(), page))
  }

  function BehindSecond(h: Header, pos: nat): nat
    requires h.Good() && IsPage(h.PageSize())
  {
    if h.SecondSize() == 0 then pos else Next(pos, h.SecondSize(), h.PageSize())
  }

  /** The same parts; a secure image stays so. */
  predicate SameParts(r: Outcome, r': Outcome) {
    match r
    case Failed => r'.Failed?
    case Stopped(_, _) => r' == r
    case Extracted(_, _, _, _, secure, _) =>
      r'.Extracted? && r' == r.(secure := r'.secure) && (secure ==> r'.secure)
  }

  lemma DtAtBehind(all: Bytes, n: nat, img: Bytes, at: nat)
    requires Behind(all, n, img)
    ensures DtAt(all, n + at) <==> DtAt(img, at)
  {
    forall i | 0 <= i < |DT_MAGICS|
      ensures Matches(all, n + at, DT_MAGICS[i]) <==> Matches(img, at, DT_MAGICS[i])
    {
      MatchesBehind(all, n, img, at, DT_MAGICS[i]);
    }
  }

  lemma DtBehind(all: Bytes, n: nat, img: Bytes, base: nat, h: Header, pos: nat, kernel: Bytes,
                 ramdisk: RamdiskDump, second: Option<Bytes>)
    requires Behind(all, n, img) && h.Good() && IsPage(h.PageSize())
    ensures Moved(ExtractDt(img, base, h, pos, kernel, ramdisk, second),
                  ExtractDt(all, n + base, h, pos, kernel, ramdisk, second), DtCut(img, base, h, pos, |all|))
  {
    if h.DtSize() == 0 || !DtAt(img, base + pos) {
      DtBehindUnknown(all, n, img, base, h, pos, kernel, ramdisk, second);
    } else if base + pos + h.DtSize() <= |img| {
      DtBehindKnown(all, n, img, base, h, pos, kernel, ramdisk, second);
    } else {
      DtBehindShort(all, n, img, base, h, pos, kernel, ramdisk, second);
    }
  }

  lemma SameMarks(all: Bytes, n: nat, img: Bytes, base: nat, pos: nat)
    requires Behind(all, n, img)
    ensures DtAt(all, n + base + pos) <==> DtAt(img, base + pos)
    ensures Matches(all, n + base + SIGN_AT, SIGN) <==> Matches(img, base + SIGN_AT, SIGN)
  {
    DtAtBehind(all, n, img, base + pos);
    MatchesBehind(all, n, img, base + SIGN_AT, SIGN);
  }

  lemma DtBehindUnknown(all: Bytes, n: nat, img: Bytes, base: nat, h: Header, pos: nat, kernel: Bytes,
                        ramdisk: RamdiskDump, second: Option<Bytes>)
    requires Behind(all, n, img) && h.Good() && IsPage(h.PageSize()) && (h.DtSize() == 0 || !DtAt(img, base + pos))
    ensures Moved(ExtractDt(img, base, h, pos, kernel, ramdisk, second),
                  ExtractDt(all, n + base, h, pos, kernel, ramdisk, second), DtCut(img, base, h, pos, |all|))
  {
    SameMarks(all, n, img, base, pos);
    DtUnknown(img, base, h, pos, kernel, ramdisk, second);
    DtUnknown(all, n + base, h, pos, kernel, ramdisk, second);
  }

  lemma DtBehindKnown(all: Bytes, n: nat, img: Bytes, base: nat, h: Header, pos: nat, kernel: Bytes,
                      ramdisk: RamdiskDump, second: Option<Bytes>)
    requires Behind(all, n, img) && h.Good() && IsPage(h.PageSize())
    requires h.DtSize() > 0 && DtAt(img, base + pos) && base + pos + h.DtSize() <= |img|
    ensures Moved(ExtractDt(img, base, h, pos, kernel, ramdisk, second),
                  ExtractDt(all, n + base, h, pos, kernel, ramdisk, second), DtCut(img, base, h, pos, |all|))
  {
    SameMarks(all, n, img, base, pos);
    SliceAt(all, n, img, n + base + pos, base + pos, h.DtSize());
    DtKnown(img, base, h, pos, kernel, ramdisk, second);
    DtKnown(all, n + base, h, pos, kernel, ramdisk, second);
  }

  lemma DtBehindShort(all: Bytes, n: nat, img: Bytes, base: nat, h: Header, pos: nat, kernel: Bytes,
                      ramdisk: RamdiskDump, second: Option<Bytes>)
    requires Behind(all, n, img) && h.Good() && IsPage(h.PageSize())
    requires h.DtSize() > 0 && DtAt(img, base + pos) && base + pos + h.DtSize() > |img|
    ensures Moved(ExtractDt(img, base, h, pos, kernel, ramdisk, second),
                  ExtractDt(all, n + base, h, pos, kernel, ramdisk, second), DtCut(img, base, h, pos, |all|))
  {
    SameMarks(all, n, img, base, pos);
    DtShort(img, base, h, pos, kernel, ramdisk, second);
    DtShort(all, n + base, h, pos, kernel, ramdisk, second);
  }

  lemma DtUnknown(img: Bytes, base: nat, h: Header, pos: nat, kernel: Bytes, ramdisk: RamdiskDump,
                  second: Option<Bytes>)
    requires h.Good() && IsPage(h.PageSize()) && (h.DtSize() == 0 || !DtAt(img, base + pos))
    ensures var sign := Matches(img, base + SIGN_AT, SIGN);
            ExtractDt(img, base, h, pos, kernel, ramdisk, second) ==
            Extracted(kernel, ramdisk, second, None, sign || pos < |img|, sign)
  {
  }

  lemma DtKnown(img: Bytes, base: nat, h: Header, pos: nat, kernel: Bytes, ramdisk: RamdiskDump, second: Option<Bytes>)
    requires h.Good() && IsPage(h.PageSize()) && h.DtSize() > 0 && DtAt(img, base + pos)
    requires base + pos + h.DtSize() <= |img|
    ensures var sign := Matches(img, base + SIGN_AT, SIGN);
            ExtractDt(img, base, h, pos, kernel, ramdisk, second) ==
            Extracted(kernel, ramdisk, second, Some(img[base + pos..base + pos + h.DtSize()]),
                      sign || Next(pos, h.DtSize(), h.PageSize()) < |img|, sign)
  {
  }

  lemma DtShort(img: Bytes, base: nat, h: Header, pos: nat, kernel: Bytes, ramdisk: RamdiskDump, second: Option<Bytes>)
    requires h.Good() && IsPage(h.PageSize()) && h.DtSize() > 0 && DtAt(img, base + pos)
    requires base + pos + h.DtSize() > |img|
    ensures var sign := Matches(img, base + SIGN_AT, SIGN);
            ExtractDt(img, base, h, pos, kernel, ramdisk, second) ==
            if pos < |img| && pos + h.DtSize() <= |img| then Failed
            else Extracted(kernel, ramdisk, second, None, sign || pos < |img|, sign)
  {
  }

  /** The outcome behind other bytes: the same parts, unless the device tree is cut. */
  predicate Moved(r: Outcome, r': Outcome, cut: bool) {
    if cut && !r.Failed? && !r.Stopped? then r'.Failed? else SameParts(r, r')
  }

  /** The outcome from the second stage on; d is where the device tree is looked for. */
  lemma RestBehind(all: Bytes, n: nat, img: Bytes, base: nat, h: Header, pos: nat, kernel: Bytes, ramdisk: RamdiskDump,
                   d: nat, cut: bool)
    requires Behind(all, n, img) && h.Good() && IsPage(h.PageSize())
    requires d == BehindSecond(h, pos) && cut == DtCut(img, base, h, d, |all|)
    ensures Moved(ExtractRest(img, base, h, pos, kernel, ramdisk), ExtractRest(all, n + base, h, pos, kernel, ramdisk),
                  cut)
  {
    var size := h.SecondSize();
    if size == 0 {
      DtBehind(all, n, img, base, h, pos, kernel, ramdisk, None);
    } else if base + pos + size <= |img| {
      SliceAt(all, n, img, n + base + pos, base + pos, size);
      DtBehind(all, n, img, base, h, d, kernel, ramdisk, Some(img[base + pos..base + pos + size]));
    }
  }

  lemma FrontBehind(all: Bytes, n: nat, img: Bytes, base: nat, h: Header, pos: nat, kernel: Bytes, d: nat, cut: bool)
    requires Behind(all, n, img) && h.Good() && IsPage(h.PageSize())
    requires d == BehindSecond(h, Next(pos, h.RamdiskSize(), h.PageSize())) && cut == DtCut(img, base, h, d, |all|)
    ensures Moved(ExtractRamdisk(img, base, h, pos, kernel), ExtractRamdisk(all, n + base, h, pos, kernel), cut)
  {
    var size := h.RamdiskSize();
    if base + pos + size > |img| {
      assert (n + base) + pos + size > |all|;
    } else {
      RamdiskBehind(all, n, img, base + pos, size);
      var dump := RamdiskAt(img, base + pos, size);
      RamdiskRead(img, base, h, pos, kernel, dump);
      RamdiskRead(all, n + base, h, pos, kernel, dump);
      RestBehind(all, n, img, base, h, Next(pos, size, h.PageSize()), kernel, dump, d, cut);
    }
  }

  lemma RamdiskRead(img: Bytes, base: nat, h: Header, pos: nat, kernel: Bytes, dump: RamdiskDump)
    requires h.Good() && IsPage(h.PageSize()) && base + pos + h.RamdiskSize() <= |img|
    requires dump == RamdiskAt(img, base + pos, h.RamdiskSize())
    ensures ExtractRamdisk(img, base, h, pos, kernel) ==
            if dump.Dumped? then ExtractRest(img, base, h, Next(pos, h.RamdiskSize(), h.PageSize()), kernel, dump)
            else Stopped(kernel, dump)
  {
  }

  lemma PartsBehind(all: Bytes, n: nat, img: Bytes, base: nat, h: Header, cut: bool)
    requires Behind(all, n, img) && h.Good() && IsPage(h.PageSize())
    requires cut == DtCut(img, base, h, DtPosition(h), |all|)
    ensures Moved(ExtractParts(img, base, h), ExtractParts(all, n + base, h), cut)
  {
    if base + h.PageSize() + h.KernelSize() > |img| {
      KernelShort(img, base, h);
      KernelShort(all, n + base, h);
    } else {
      KernelBehind(all, n, img, base, h, DtPosition(h), cut);
    }
  }

  lemma KernelBehind(all: Bytes, n: nat, img: Bytes, base: nat, h: Header, d: nat, cut: bool)
    requires Behind(all, n, img) && h.Good() && IsPage(h.PageSize())
    requires base + h.PageSize() + h.KernelSize() <= |img|
    requires d == DtPosition(h) && cut == DtCut(img, base, h, d, |all|)
    ensures Moved(ExtractParts(img, base, h), ExtractParts(all, n + base, h), cut)
  {
    var page, size := h.PageSize(), h.KernelSize();
    var kernel := img[base + page..base + page + size];
    SliceAt(all, n, img, n + base + page, base + page, size);
    KernelRead(img, base, h, kernel);
    KernelRead(all, n + base, h, kernel);
    FrontBehind(all, n, img, base, h, Next(page, size, page), kernel, d, cut);
  }

  lemma KernelShort(img: Bytes, base: nat, h: Header)
    requires h.Good() && IsPage(h.PageSize()) && base + h.PageSize() + h.KernelSize() > |img|
    ensures ExtractParts(img, base, h) == Failed
  {
  }

  lemma KernelRead(img: Bytes, base: nat, h: Header, kernel: Bytes)
    requires h.Good() && IsPage(h.PageSize()) && base + h.PageSize() + h.KernelSize() <= |img|
    requires kernel == img[base + h.PageSize()..base + h.PageSize() + h.KernelSize()]
    ensures ExtractParts(img, base, h) ==
            ExtractRamdisk(img, base, h, Next(h.PageSize(), h.KernelSize(), h.PageSize()), kernel)
  {
  }

  /** The device tree of a header, if it can be used, is cut off. */
  predicate CutAfter(img: Bytes, base: nat, length: nat) {
    && base + HEADER <= |img| && IsPage(Decode(img, base).PageSize())
    && DtCut(img, base, Decode(img, base), DtPosition(Decode(img, base)), length)
  }

  /** That of the first header is. */
  predicate FirstDtCut(img: Bytes, length: nat) {
    FirstMagic(img, 0).Some? && CutAfter(img, FirstMagic(img, 0).value, length)
  }

  lemma ExtractAtBehind(all: Bytes, n: nat, img: Bytes, base: nat)
    requires Behind(all, n, img)
    ensures Moved(ExtractAt(img, base), ExtractAt(all, n + base), CutAfter(img, base, |all|))
  {
    if base + HEADER > |img| {
      assert n + base + HEADER > |all|;
    } else {
      DecodeBehind(all, n, img, base);
      if IsPage(Decode(img, base).PageSize()) {
        PartsBehind(all, n, img, base, Decode(img, base), CutAfter(img, base, |all|));
      }
    }
  }

  lemma FirstIs(img: Bytes, base: nat, length: nat)
    requires FirstMagic(img, 0) == Some(base)
    ensures ExtractFirst(img) == ExtractAt(img, base) && (FirstDtCut(img, length) <==> CutAfter(img, base, length))
  {
  }

  lemma FirstBehind(all: Bytes, n: nat, img: Bytes, base: nat)
    requires Behind(all, n, img) && FirstMagic(img, 0) == Some(base) && FirstMagic(all, 0) == Some(n + base)
    ensures Moved(ExtractFirst(img), ExtractFirst(all), FirstDtCut(img, |all|))
  {
    FirstIs(img, base, |all|);
    FirstIs(all, n + base, |all|);
    ExtractAtBehind(all, n, img, base);
  }

  /** Bytes before an image change nothing about the parts extracted from it, except that a
      device tree that is cut off may pass for a whole one, and then nothing comes out. */
  lemma ExtractBehind(pre: Bytes, img: Bytes)
    requires Skipped(pre)
    ensures Moved(ExtractFirst(img), ExtractFirst(pre + img), FirstDtCut(img, |pre| + |img|))
  {
    FirstMagicBehind(pre, img);
    var base := FirstMagic(img, 0);
    if base.Some? {
      Prefixed(pre, img);
      FirstBehind(pre + img, |pre|, img, base.value);
    }
  }

  // ---------- what repacking writes ----------

  /** The 32-bit number at a position, lowest byte first. */
  function Number(img: Bytes, at: nat): nat
    requires at + 4 <= |img|
  {
    var a: nat, b: nat, c: nat, d: nat := img[at], img[at + 1], img[at + 2], img[at + 3];
    a + 0x100 * b + 0x1_0000 * c + 0x100_0000 * d
  }

  lemma WordBytes(b: Bytes)
    requires |b| == 4
    ensures Word(ReadWord(b)) == b
  {
    var b0: nat, b1: nat, b2: nat, b3: nat := b[0], b[1], b[2], b[3];
    var n, m, k := ReadWord(b), b1 + 256 * (b2 + 256 * b3), b2 + 256 * b3;
    ByteOff(n, m, b0);
    ByteOff(m, k, b1);
    ByteOff(k, b3, b2);
    assert n / 65536 == n / 256 / 256 && n / 16777216 == n / 65536 / 256;
  }

  lemma ByteOff(n: nat, m: nat, b: nat)
    requires b < 256 && n == b + 256 * m
    ensures n % 256 == b && n / 256 == m
  {
  }

  lemma NumberIs(n: nat, img: Bytes, at: nat)
    requires n < 0x1_0000_0000 && at + 4 <= |img| && img[at..at + 4] == Word(n)
    ensures Number(img, at) == n
  {
    WordReads(n);
    var w := img[at..at + 4];
    assert w[0] == img[at] && w[1] == img[at + 1] && w[2] == img[at + 2] && w[3] == img[at + 3];
  }

  /** Word i of an encoded header. */
  lemma EncodedWord(h: Header, i: nat)
    requires h.Good() && i < WORDS
    ensures Encode(h)[8 + 4 * i..8 + 4 * i + 4] == Word(h.words[i])
  {
    EncodedWordAt(h.words, i);
    var ws := EncodeWords(h.words);
    assert Encode(h)[8 + 4 * i..8 + 4 * i + 4] == ws[4 * i..4 * i + 4];
  }

  /** A byte of word i. */
  lemma KeptByte(orig: Bytes, base: nat, h: Header, i: nat, k: nat)
    requires base + HEADER <= |orig| && h.Good() && i < WORDS && h.words[i] == Decode(orig, base).words[i]
    requires 8 + 4 * i <= k < 8 + 4 * i + 4
    ensures Encode(h)[k] == orig[base + k]
  {
    EncodedWord(h, i);
    var w := orig[base + 8 + 4 * i..base + 8 + 4 * i + 4];
    WordBytes(w);
    assert Encode(h)[8 + 4 * i..8 + 4 * i + 4][k - 8 - 4 * i] == w[k - 8 - 4 * i];
  }

  /** The bytes of the header in which repacking writes: four sizes and the id. */
  predicate Rewritten(k: nat) {
    || 8 <= k < 12 || 16 <= k < 20 || 24 <= k < 28 || 40 <= k < 44
    || 576 <= k < 608
  }

  lemma HeaderByte(orig: Bytes, base: nat, kernel: nat, ramdisk: nat, second: nat, dt: nat, k: nat)
    requires base + HEADER <= |orig| && Matches(orig, base, MAGIC) && k < HEADER
    requires NewHeader(Decode(orig, base), kernel, ramdisk, second, dt).Good()
    ensures var b := Encode(NewHeader(Decode(orig, base), kernel, ramdisk, second, dt))[k];
            && (!Rewritten(k) ==> b == orig[base + k])
            && (576 <= k < 608 ==> b == 0)
  {
    var h := Decode(orig, base);
    var h' := NewHeader(h, kernel, ramdisk, second, dt);
    if k < 8 {
      assert orig[base..base + 8][k] == orig[base + k];
    } else if k < 48 {
      var i := (k - 8) / 4;
      if !Rewritten(k) { KeptByte(orig, base, h', i, k); }
    } else {
      assert Encode(h')[k] == h'.tail[k - 48];
      assert h.tail[k - 48] == orig[base + k];
    }
  }

  lemma SizesWritten(h: Header, kernel: nat, ramdisk: nat, second: nat, dt: nat)
    requires h.Good() && NewHeader(h, kernel, ramdisk, second, dt).Good()
    ensures var b := Encode(NewHeader(h, kernel, ramdisk, second, dt));
            Number(b, 8) == kernel && Number(b, 16) == ramdisk && Number(b, 24) == second && Number(b, 40) == dt
  {
    var h' := NewHeader(h, kernel, ramdisk, second, dt);
    EncodedWord(h', 0);
    EncodedWord(h', 2);
    EncodedWord(h', 4);
    EncodedWord(h', 8);
    NumberIs(kernel, Encode(h'), 8);
    NumberIs(ramdisk, Encode(h'), 16);
    NumberIs(second, Encode(h'), 24);
    NumberIs(dt, Encode(h'), 40);
  }

  /** A wrapped ramdisk: the mark, the size, the name that says what it is for, and the gzip
      file from byte 512 on. */
  lemma WrapperBytes(files: RamdiskFiles)
    requires files.mtk && files.gz.Some? && (files.boot || files.recovery) && |files.gz.value| < 0x1_0000_0000
    ensures RamdiskBytes(files).Some? && |RamdiskBytes(files).value| == 512 + |files.gz.value|
    ensures
      var b := RamdiskBytes(files).value;
      && b[..4] == [0x88, 0x16, 0x88, 0x58] && Number(b, 4) == |files.gz.value|
      && (if files.boot then Spells(b[8..14], "ROOTFS") && b[14] == b[15] == 0 else Spells(b[8..16], "RECOVERY"))
      && (forall k | 16 <= k < 40 :: b[k] == 0) && (forall k | 40 <= k < 512 :: b[k] == 0xff)
      && b[512..] == files.gz.value
  {
    var b, size := RamdiskBytes(files).value, |files.gz.value|;
    var name := if files.boot then ROOTFS else RECOVERY;
    Marks();
    assert b[4..8] == Word(size);
    NumberIs(size, b, 4);
    assert b[8..16] == name;
    assert files.boot ==> b[8..14] == ROOTFS[..6] && b[14..16] == ROOTFS[6..];
    assert files.boot ==> b[14] == b[14..16][0] && b[15] == b[14..16][1];
  }

  /** The header of a repacked image is the original's byte for byte, but for the sizes of the
      kernel, the ramdisk, the second stage and the device tree, and an id of zeros. */
  lemma RepackedHeader(orig: Bytes, kernel: Bytes, files: RamdiskFiles, second: Option<Bytes>, dt: Option<Bytes>)
    requires SizesFit(kernel, files, second, dt) && Usable(orig).Some? && RamdiskBytes(files).Some?
    ensures
      var base, img := FirstMagic(orig, 0).value, NewImage(Usable(orig).value, kernel, files, second, dt);
      && base + 1632 <= |orig| && 1632 <= |img|
      && (forall k | 0 <= k < 1632 && !Rewritten(k) :: img[k] == orig[base + k])
      && (forall k | 576 <= k < 608 :: img[k] == 0)
      && Number(img, 8) == |kernel| && Number(img, 16) == |RamdiskBytes(files).value|
      && Number(img, 24) == Size(second) && Number(img, 40) == Size(dt)
  {
    var base, h := FirstMagic(orig, 0).value, Usable(orig).value;
    FirstMagicIs(orig, 0);
    HeaderFits(h, kernel, files, second, dt);
    var ramdisk := |RamdiskBytes(files).value|;
    var h' := NewHeader(h, |kernel|, ramdisk, Size(second), Size(dt));
    var img := NewImage(h, kernel, files, second, dt);
    ImageBegins(h', h.PageSize(), kernel, RamdiskBytes(files).value, second, dt);
    HeaderBytes(orig, base, |kernel|, ramdisk, Size(second), Size(dt), img);
  }

  lemma HeaderBytes(orig: Bytes, base: nat, kernel: nat, ramdisk: nat, second: nat, dt: nat, img: Bytes)
    requires base + HEADER <= |orig| && Matches(orig, base, MAGIC) && HEADER <= |img|
    requires NewHeader(Decode(orig, base), kernel, ramdisk, second, dt).Good()
    requires img[..HEADER] == Encode(NewHeader(Decode(orig, base), kernel, ramdisk, second, dt))
    ensures forall k | 0 <= k < 1632 && !Rewritten(k) :: img[k] == orig[base + k]
    ensures forall k | 576 <= k < 608 :: img[k] == 0
    ensures Number(img, 8) == kernel && Number(img, 16) == ramdisk && Number(img, 24) == second
    ensures Number(img, 40) == dt
  {
    var first := img[..HEADER];
    forall k | 0 <= k < 1632
      ensures first[k] == img[k]
      ensures !Rewritten(k) ==> img[k] == orig[base + k]
      ensures 576 <= k < 608 ==> img[k] == 0
    {
      HeaderByte(orig, base, kernel, ramdisk, second, dt, k);
    }
    SizesWritten(Decode(orig, base), kernel, ramdisk, second, dt);
  }

  lemma ImageBegins(h: Header, page: nat, kernel: Bytes, ramdisk: Bytes, second: Option<Bytes>, dt: Option<Bytes>)
    requires h.Good() && IsPage(page)
    ensures var img := Image(h, page, kernel, ramdisk, second, dt);
            HEADER <= |img| && img[..HEADER] == Encode(h)
  {
    ImageIs(h, page, kernel, ramdisk, second, dt);
    Three(Encode(h), Zeros(page - HEADER), Sections(page, kernel, ramdisk, second, dt));
  }

  /** A repacked image gives its parts back behind other bytes too. */
  lemma RepackThenExtractBehind(pre: Bytes, orig: Bytes, kernel: Bytes, files: RamdiskFiles, kind: Kind,
                                second: Option<Bytes>, dt: Option<Bytes>)
    requires Skipped(pre) && SizesFit(kernel, files, second, dt) && Ready(files, kind) && Usable(orig).Some?
    ensures
      var img := Repacked(orig, kernel, files, second, dt, false);
      && img.Some?
      && SameParts(GivenBack(Usable(orig).value, kernel, files, kind, second, dt), ExtractFirst(pre + img.value))
  {
    RepackThenExtract(orig, kernel, files, kind, second, dt);
    var img := Repacked(orig, kernel, files, second, dt, false).value;
    ExtractBehind(pre, img);
    NotCut(Usable(orig).value, kernel, files, second, dt, |pre| + |img|);
  }

  lemma NotCut(h: Header, kernel: Bytes, files: RamdiskFiles, second: Option<Bytes>, dt: Option<Bytes>, length: nat)
    requires SizesFit(kernel, files, second, dt) && RamdiskBytes(files).Some? && h.Good() && IsPage(h.PageSize())
    ensures !FirstDtCut(NewImage(h, kernel, files, second, dt), length)
  {
    HeaderFits(h, kernel, files, second, dt);
    var ramdisk, page := RamdiskBytes(files).value, h.PageSize();
    var h' := NewHeader(h, |kernel|, |ramdisk|, Size(second), Size(dt));
    var img := NewImage(h, kernel, files, second, dt);
    HeaderSizes(h, |kernel|, |ramdisk|, Size(second), Size(dt));
    ImageDecodes(h', page, kernel, ramdisk, second, dt);
    var r := Next(page, |kernel|, page);
    var s := Next(r, |ramdisk|, page);
    var d := Next(s, Size(second), page);
    SectionsLie(h', page, kernel, ramdisk, second, dt, r, s, d);
    EmptyNext(s, page);
    assert FirstMagic(img, 0) == Some(0);
    assert DtPosition(h') == d;
  }
}
