/**
 When the cache, the bus and the RAM together behave as flat memory: which refills move words without
 changing what any address holds, that interrupts lose nothing, and what loads see.
 */
module Memory {
  import opened Words
  import opened Machine
  import opened Protocol

  // ---- the image ---------------------------------------------------------------------------

  /** Line i holds word w. */
  predicate Covers(lines: CacheLines, i: LineIndex, w: nat) {
    lines[i].valid && LineBase(i, lines[i].tag) <= w < LineBase(i, lines[i].tag) + 32
  }

  /** The first line from i on that holds word w, or 8. */
  function Search(lines: CacheLines, i: nat, w: nat): (r: nat)
    requires i <= 8
    ensures i <= r <= 8
    ensures r < 8 ==> Covers(lines, r, w)
    ensures forall k | i <= k < r :: !Covers(lines, k, w)
    decreases 8 - i
  {
    if i == 8 || Covers(lines, i, w) then i else Search(lines, i + 1, w)
  }

  /** Word w of memory as the CPU sees it: valid lines over what lies below the cache. */
  function Image(lines: CacheLines, below: seq<Word>, w: nat): Word
    requires w < |below|
  {
    var i := Search(lines, 0, w);
    if i < 8 then lines[i].data[w - LineBase(i, lines[i].tag)] else below[w]
  }

  /** Lines are disjoint blocks of memory. */
  lemma SameBlock(i: LineIndex, t: Tag, k: LineIndex, u: Tag, w: nat)
    requires LineBase(i, t) <= w < LineBase(i, t) + 32
    requires LineBase(k, u) <= w < LineBase(k, u) + 32
    ensures i == k && t == u
  {
    var x, y := 8 * t + i, 8 * u + k;
    assert 32 * x <= w < 32 * x + 32 && 32 * y <= w < 32 * y + 32;
    assert x == y;
  }

  /** Two lines of the cache never hold the same word. */
  lemma OneHolder(lines: CacheLines, i: LineIndex, k: LineIndex, w: nat)
    requires Covers(lines, i, w) && Covers(lines, k, w)
    ensures i == k
  {
    SameBlock(i, lines[i].tag, k, lines[k].tag, w);
  }

  lemma CachedImage(lines: CacheLines, below: seq<Word>, i: LineIndex, w: nat)
    requires w < |below| && Covers(lines, i, w)
    ensures Image(lines, below, w) == lines[i].data[w - LineBase(i, lines[i].tag)]
  {
    OneHolder(lines, i, Search(lines, 0, w), w);
  }

  lemma UncachedImage(lines: CacheLines, below: seq<Word>, w: nat)
    requires w < |below| && forall i | 0 <= i < 8 :: !Covers(lines, i, w)
    ensures Image(lines, below, w) == below[w]
  {
  }

  /** Changing one line does not change the image of words that it held neither before nor after. */
  lemma OtherLines(lines: CacheLines, lines': CacheLines, below: seq<Word>, v: LineIndex, w: nat)
    requires w < |below| && lines' == lines[v := lines'[v]]
    requires !Covers(lines, v, w) && !Covers(lines', v, w)
    ensures Image(lines', below, w) == Image(lines, below, w)
  {
    var i := Search(lines, 0, w);
    if i < 8 {
      assert Covers(lines', i, w);
      CachedImage(lines', below, i, w);
    } else {
      forall k | 0 <= k < 8 ensures !Covers(lines', k, w) {
        assert k != v ==> lines'[k] == lines[k];
        assert !Covers(lines, k, w);
      }
      UncachedImage(lines', below, w);
    }
  }

  ghost predicate SameImage(lines: CacheLines, below: seq<Word>, lines': CacheLines, below': seq<Word>) {
    |below'| == |below| && forall w | 0 <= w < |below| :: Image(lines', below', w) == Image(lines, below, w)
  }

  /** A valid line lies in memory. */
  predicate LineFits(below: seq<Word>, i: LineIndex, line: CacheLine) {
    line.valid ==> LineBase(i, line.tag) + 32 <= |below|
  }

  ghost predicate InMemory(lines: CacheLines, below: seq<Word>) {
    forall i | 0 <= i < 8 :: LineFits(below, i, lines[i])
  }

  /** Memory below the cache agrees with a valid line. */
  ghost predicate LineAgrees(below: seq<Word>, i: LineIndex, line: CacheLine) {
    line.valid ==> forall j | 0 <= j < 32 :: Agrees(below, i, line, j)
  }

  /** A valid line lies in memory, and if it is clean, memory below the cache agrees with it. */
  ghost predicate CoherentLine(below: seq<Word>, i: LineIndex, line: CacheLine) {
    LineFits(below, i, line) && (!line.dirty ==> LineAgrees(below, i, line))
  }

  ghost predicate Coherent(lines: CacheLines, below: seq<Word>) {
    forall i | 0 <= i < 8 :: CoherentLine(below, i, lines[i])
  }

  lemma CoherentInMemory(lines: CacheLines, below: seq<Word>)
    requires Coherent(lines, below)
    ensures InMemory(lines, below)
  {
    forall i | 0 <= i < 8 ensures LineFits(below, i, lines[i]) {
      assert CoherentLine(below, i, lines[i]);
    }
  }

  lemma OneLineCoherent(lines: CacheLines, lines': CacheLines, below: seq<Word>, v: LineIndex)
    requires Coherent(lines, below) && lines' == lines[v := lines'[v]]
    requires CoherentLine(below, v, lines'[v])
    ensures Coherent(lines', below)
  {
    forall i | 0 <= i < 8 ensures CoherentLine(below, i, lines'[i]) {
      assert CoherentLine(below, i, lines[i]);
    }
  }

  // ---- what the CPU's steps do to it -------------------------------------------------------

  /** A written-back word replaces its equal: the victim still holds it. */
  lemma WriteBackImage(lines: CacheLines, below: seq<Word>, v: LineIndex, j: Offset)
    requires InMemory(lines, below) && lines[v].valid && lines[v].dirty
    ensures var w := LineBase(v, lines[v].tag) + j;
            && w < |below|
            && var below' := below[w := lines[v].data[j]];
            SameImage(lines, below, lines, below') && (Coherent(lines, below) ==> Coherent(lines, below'))
  {
    assert LineFits(below, v, lines[v]);
    var w := LineBase(v, lines[v].tag) + j;
    var below' := below[w := lines[v].data[j]];
    assert Covers(lines, v, w);
    CachedImage(lines, below, v, w);
    CachedImage(lines, below', v, w);
    if Coherent(lines, below) { WriteBackCoherent(lines, below, v, w); }
  }

  lemma WriteBackCoherent(lines: CacheLines, below: seq<Word>, v: LineIndex, w: nat)
    requires Coherent(lines, below) && lines[v].dirty && Covers(lines, v, w) && w < |below|
    ensures Coherent(lines, below[w := lines[v].data[w - LineBase(v, lines[v].tag)]])
  {
    var below' := below[w := lines[v].data[w - LineBase(v, lines[v].tag)]];
    forall i | 0 <= i < 8 ensures CoherentLine(below', i, lines[i]) {
      assert CoherentLine(below, i, lines[i]);
      if Covers(lines, i, w) { OneHolder(lines, i, v, w); }
      forall k | 0 <= k < 32 && Agrees(below, i, lines[i], k) && lines[i].valid && !lines[i].dirty
        ensures Agrees(below', i, lines[i], k)
      {
        assert Covers(lines, i, LineBase(i, lines[i].tag) + k) && i != v;
      }
    }
  }

  /** Word by word: dropping a line keeps the image exactly where memory below the cache agrees. */
  lemma DroppedWord(lines: CacheLines, below: seq<Word>, v: LineIndex, j: Offset)
    requires lines[v].valid && LineBase(v, lines[v].tag) + j < |below|
    ensures var w := LineBase(v, lines[v].tag) + j;
            Image(lines[v := lines[v].(valid := false)], below, w) == Image(lines, below, w) <==>
            Agrees(below, v, lines[v], j)
  {
    var w := LineBase(v, lines[v].tag) + j;
    CachedImage(lines, below, v, w);
    MissedWord(lines[v := lines[v].(valid := false)], below, v, lines[v].tag, w);
  }

  /** A line that memory below the cache agrees with may be dropped. */
  lemma InvalidateImage(lines: CacheLines, below: seq<Word>, v: LineIndex)
    requires LineAgrees(below, v, lines[v])
    ensures var lines' := lines[v := lines[v].(valid := false)];
            SameImage(lines, below, lines', below) && (Coherent(lines, below) ==> Coherent(lines', below))
  {
    var lines' := lines[v := lines[v].(valid := false)];
    if Coherent(lines, below) { OneLineCoherent(lines, lines', below, v); }
    forall w | 0 <= w < |below| ensures Image(lines', below, w) == Image(lines, below, w) {
      if Covers(lines, v, w) {
        DroppedWord(lines, below, v, w - LineBase(v, lines[v].tag));
      } else {
        OtherLines(lines, lines', below, v, w);
      }
    }
  }

  /** While a line is invalid, the image of the words that map to it is memory's. */
  lemma MissedWord(lines: CacheLines, below: seq<Word>, v: LineIndex, t: Tag, w: nat)
    requires !lines[v].valid && LineBase(v, t) <= w < LineBase(v, t) + 32 && w < |below|
    ensures Image(lines, below, w) == below[w]
  {
    forall k | 0 <= k < 8 ensures !Covers(lines, k, w) {
      if Covers(lines, k, w) { SameBlock(v, t, k, lines[k].tag, w); }
    }
    UncachedImage(lines, below, w);
  }

  /** A line may become valid with the words that memory below the cache holds for it. */
  lemma ValidateImage(lines: CacheLines, below: seq<Word>, v: LineIndex, line: CacheLine)
    requires !lines[v].valid && line.valid && LineFits(below, v, line) && LineAgrees(below, v, line)
    ensures SameImage(lines, below, lines[v := line], below)
    ensures Coherent(lines, below) ==> Coherent(lines[v := line], below)
  {
    var lines' := lines[v := line];
    if Coherent(lines, below) { OneLineCoherent(lines, lines', below, v); }
    forall w | 0 <= w < |below| ensures Image(lines', below, w) == Image(lines, below, w) {
      if Covers(lines', v, w) {
        CachedImage(lines', below, v, w);
        assert Agrees(below, v, line, w - LineBase(v, line.tag));
        MissedWord(lines, below, v, line.tag, w);
      } else {
        OtherLines(lines, lines', below, v, w);
      }
    }
  }

  /** The words of an invalid line do not matter. */
  lemma InvalidImage(lines: CacheLines, below: seq<Word>, v: LineIndex, line: CacheLine)
    requires !lines[v].valid && !line.valid
    ensures SameImage(lines, below, lines[v := line], below)
    ensures Coherent(lines, below) ==> Coherent(lines[v := line], below)
  {
    if Coherent(lines, below) { OneLineCoherent(lines, lines[v := line], below, v); }
    forall w | 0 <= w < |below| ensures Image(lines[v := line], below, w) == Image(lines, below, w) {
      OtherLines(lines, lines[v := line], below, v, w);
    }
  }

  lemma MemStepImage(m: Machine, mode: FillMode)
    requires Sound(m, mode) && InMemory(m.cpu.lines, Below(m))
    requires !m.board.bus.Active() && !m.ram.bus.Input() && m.cpu.dtrMem && !m.cpu.Sleeping()
    ensures SameImage(m.cpu.lines, Below(m), m.cpu.lines, Below(MemStep(m)))
    ensures Coherent(m.cpu.lines, Below(m)) ==> Coherent(m.cpu.lines, Below(MemStep(m)))
  {
    MemBelow(m);
    if m.cpu.busWrite {
      WriteBackImage(m.cpu.lines, Below(m), m.cpu.cacheAddress.line, m.cpu.cacheStatus - 1);
    }
  }

  /** The word that the fill reads for word j of the missed line holds what that word holds. */
  predicate SourceAgrees(below: seq<Word>, mode: FillMode, addr: Addr, j: Offset) {
    LineBase(addr.line, addr.tag) + j < |below| ==>
      && FillBase(mode, addr) + j < |below|
      && below[FillBase(mode, addr) + j] == below[LineBase(addr.line, addr.tag) + j]
  }

  ghost predicate SourcesAgree(below: seq<Word>, mode: FillMode, addr: Addr) {
    forall j | 0 <= j < 32 :: SourceAgrees(below, mode, addr, j)
  }

  /** A completed fill lies in memory, and so does its line. */
  lemma CompletedFits(c: Cpu, below: seq<Word>, mode: FillMode)
    requires AtPosition(c, below, mode) && c.cacheStatus == 64
    ensures FillBase(mode, c.cacheAddress) + 32 <= |below|
    ensures LineFits(below, c.cacheAddress.line, RefillStep(c, mode).Victim())
  {
    CompletedFill(c, below, mode);
    assert FilledWord(c, below, mode, 31, RefillStep(c, mode).Victim().data[31]);
  }

  lemma CompletedAgrees(c: Cpu, below: seq<Word>, mode: FillMode)
    requires AtPosition(c, below, mode) && c.cacheStatus == 64 && SourcesAgree(below, mode, c.cacheAddress)
    ensures LineAgrees(below, c.cacheAddress.line, RefillStep(c, mode).Victim())
  {
    hide FilledWord, SourceAgrees, Agrees, OnCourse;
    var line := RefillStep(c, mode).Victim();
    CompletedFill(c, below, mode);
    forall j | 0 <= j < 32 ensures Agrees(below, c.cacheAddress.line, line, j) {
      FilledAgrees(c, below, mode, line, j);
    }
  }

  lemma FilledAgrees(c: Cpu, below: seq<Word>, mode: FillMode, line: CacheLine, j: Offset)
    requires FilledWord(c, below, mode, j, line.data[j]) && SourceAgrees(below, mode, c.cacheAddress, j)
    requires line.tag == c.cacheAddress.tag
    ensures Agrees(below, c.cacheAddress.line, line, j)
  {
    hide FillBase, LineBase;
  }

  /** The position drops only what memory agrees with, and makes valid only what it holds. */
  ghost predicate StepsRight(c: Cpu, below: seq<Word>, mode: FillMode) {
    && (c.cacheStatus == 32 ==> LineAgrees(below, c.cacheAddress.line, c.Victim()))
    && (c.cacheStatus == 64 ==> SourcesAgree(below, mode, c.cacheAddress))
  }

  /** A position of a refill that does so keeps the image. */
  lemma RefillStepImage(c: Cpu, below: seq<Word>, mode: FillMode)
    requires AtPosition(c, below, mode) && StepsRight(c, below, mode)
    ensures var c' := RefillStep(c, mode);
            && SameImage(c.lines, below, c'.lines, below)
            && (Coherent(c.lines, below) ==> Coherent(c'.lines, below))
  {
    var v := c.cacheAddress.line;
    if c.cacheStatus == 32 {
      InvalidateImage(c.lines, below, v);
    } else if c.cacheStatus == 64 {
      CompletedFits(c, below, mode);
      CompletedAgrees(c, below, mode);
      ValidateImage(c.lines, below, v, RefillStep(c, mode).Victim());
    } else if 32 < c.cacheStatus {
      InvalidImage(c.lines, below, v, RefillStep(c, mode).Victim());
    }
  }

  /** A victim that is dirty has been written back before it is dropped; a clean one agrees if it is coherent. */
  lemma CoherentDrop(c: Cpu, below: seq<Word>, mode: FillMode)
    requires AtPosition(c, below, mode) && Coherent(c.lines, below) && c.cacheStatus == 32
    ensures LineAgrees(below, c.cacheAddress.line, c.Victim())
  {
    assert CoherentLine(below, c.cacheAddress.line, c.Victim());
  }

  /** A position that does not is seen: some word of a line changes in the image. */
  lemma WrongStep(c: Cpu, below: seq<Word>, mode: FillMode) returns (t: Tag, j: Offset)
    requires AtPosition(c, below, mode) && !StepsRight(c, below, mode)
    ensures LineBase(c.cacheAddress.line, t) + j < |below|
    ensures var w := LineBase(c.cacheAddress.line, t) + j;
            Image(RefillStep(c, mode).lines, below, w) != Image(c.lines, below, w)
  {
    var v := c.cacheAddress.line;
    hide Image;
    if c.cacheStatus == 32 {
      t := c.Victim().tag;
      j := WrongDrop(c, below, mode);
    } else {
      t := c.cacheAddress.tag;
      j :| 0 <= j < 32 && !SourceAgrees(below, mode, c.cacheAddress, j);
      CompletedWord(c, below, mode, j);
    }
  }

  lemma DroppedLines(c: Cpu, mode: FillMode)
    requires c.cacheStatus == 32
    ensures RefillStep(c, mode).lines == c.lines[c.cacheAddress.line := c.Victim().(valid := false)]
  {
  }

  lemma WrongDrop(c: Cpu, below: seq<Word>, mode: FillMode) returns (j: Offset)
    requires c.cacheStatus == 32 && !LineAgrees(below, c.cacheAddress.line, c.Victim())
    ensures LineBase(c.cacheAddress.line, c.Victim().tag) + j < |below|
    ensures var w := LineBase(c.cacheAddress.line, c.Victim().tag) + j;
            Image(RefillStep(c, mode).lines, below, w) != Image(c.lines, below, w)
  {
    hide Image, RefillStep;
    j :| 0 <= j < 32 && !Agrees(below, c.cacheAddress.line, c.Victim(), j);
    DroppedLines(c, mode);
    DroppedWord(c.lines, below, c.cacheAddress.line, j);
  }

  /** Word by word: validating a line keeps the image exactly where the word read agrees. */
  lemma CompletedWord(c: Cpu, below: seq<Word>, mode: FillMode, j: Offset)
    requires AtPosition(c, below, mode) && c.cacheStatus == 64
    requires LineBase(c.cacheAddress.line, c.cacheAddress.tag) + j < |below|
    ensures var w := LineBase(c.cacheAddress.line, c.cacheAddress.tag) + j;
            Image(RefillStep(c, mode).lines, below, w) == Image(c.lines, below, w) <==>
            SourceAgrees(below, mode, c.cacheAddress, j)
  {
    var a := c.cacheAddress;
    var lines' := RefillStep(c, mode).lines;
    CompletedFill(c, below, mode);
    assert FilledWord(c, below, mode, j, lines'[a.line].data[j]);
    CachedImage(lines', below, a.line, LineBase(a.line, a.tag) + j);
    MissedWord(c.lines, below, a.line, a.tag, LineBase(a.line, a.tag) + j);
  }

  /** So a position keeps the whole image exactly if it steps right. */
  lemma StepImageIff(c: Cpu, below: seq<Word>, mode: FillMode)
    requires AtPosition(c, below, mode)
    ensures SameImage(c.lines, below, RefillStep(c, mode).lines, below) <==> StepsRight(c, below, mode)
  {
    hide Image;
    if StepsRight(c, below, mode) {
      RefillStepImage(c, below, mode);
    } else {
      var t, j := WrongStep(c, below, mode);
      assert 0 <= LineBase(c.cacheAddress.line, t) + j < |below|;
    }
  }

  // ---- bytes -------------------------------------------------------------------------------

  /** The byte of the memory image at an address. */
  function ByteImage(lines: CacheLines, below: seq<Word>, a: Addr): Byte
    requires WordOf(a) < |below|
  {
    Image(lines, below, WordOf(a)).At(a.byte)
  }

  /** A resident line holds the image of its bytes. */
  lemma HitImage(lines: CacheLines, below: seq<Word>, a: Addr)
    requires InMemory(lines, below) && Hit(lines, a)
    ensures WordOf(a) < |below|
    ensures ByteImage(lines, below, a) == lines[a.line].data[a.offset].At(a.byte)
  {
    assert LineFits(below, a.line, lines[a.line]);
    CachedImage(lines, below, a.line, WordOf(a));
  }

  /** Inside one line or in the last or first word of two: where each byte of an access is. */
  lemma AccessBytes(a: Addr, k: ByteIndex)
    ensures var r := Advance(a, k);
            var last := LastByte(a, 4);
            if Spans(a, 4) then
              && a.offset == 31 && a.byte > 0 && last.offset == 0 && last.byte + 1 == a.byte
              && (k < 4 - a.byte ==> r == a.(byte := a.byte + k))
              && (k >= 4 - a.byte ==> r == last.(byte := a.byte + k - 4))
            else
              && 4 * a.offset + a.byte <= 124
              && r == if a.byte + k < 4 then a.(byte := a.byte + k)
                    else a.(offset := a.offset + 1, byte := a.byte + k - 4)
  {
  }

  /** The two shifted halves of a spanning read do not disturb each other. */
  lemma SpannedByte(lo: Word, hi: Word, b: ByteIndex, k: ByteIndex)
    requires 0 < b
    ensures lo.ShiftRight(b).Or(hi.ShiftLeft(4 - b)).At(k) == if k < 4 - b then lo.At(b + k) else hi.At(b + k - 4)
  {
  }

  lemma ReadSpanning(lines: CacheLines, a: Addr, k: ByteIndex)
    requires Spans(a, 4)
    ensures var q := Advance(a, k); CacheRead(lines, a).At(k) == lines[q.line].data[q.offset].At(q.byte)
  {
    AccessBytes(a, k);
    SpannedByte(lines[a.line].data[31], lines[LastByte(a, 4).line].data[0], a.byte, k);
  }

  lemma ReadInside(lines: CacheLines, a: Addr, k: ByteIndex)
    requires !Spans(a, 4)
    ensures var q := Advance(a, k); CacheRead(lines, a).At(k) == lines[q.line].data[q.offset].At(q.byte)
  {
    AccessBytes(a, k);
    assert CacheRead(lines, a).At(k) == BytePast(lines[a.line].data, a.offset, a.byte, k);
  }

  /** A four-byte read at any alignment, in one line or across two, is the image's four bytes. */
  lemma ReadsImage(lines: CacheLines, below: seq<Word>, a: Addr, k: ByteIndex)
    requires InMemory(lines, below) && Resident(lines, a, 4)
    ensures WordOf(Advance(a, k)) < |below|
    ensures CacheRead(lines, a).At(k) == ByteImage(lines, below, Advance(a, k))
  {
    AccessBytes(a, k);
    HitImage(lines, below, Advance(a, k));
    if Spans(a, 4) { ReadSpanning(lines, a, k); } else { ReadInside(lines, a, k); }
  }

  /** Address q is one of the four bytes stored at a. */
  predicate Stored(a: Addr, q: Addr) { Raw(a) <= Raw(q) < Raw(a) + 4 }

  /** A byte of flat memory after a store at a. */
  function After(a: Addr, value: Word, q: Addr, before: Byte): Byte {
    if Stored(a, q) then value.At(Raw(q) - Raw(a)) else before
  }

  lemma OverlayAt(data: LineData, a: Addr, value: Word, q: Addr)
    requires q.line == a.line && q.tag == a.tag
    ensures StoreBytes(data, a.offset, a.byte, value)[q.offset].At(q.byte)
         == After(a, value, q, data[q.offset].At(q.byte))
  {
  }

  /** The bytes of a store inside one line belong to that line. */
  lemma OtherBlock(a: Addr, q: Addr)
    requires !Spans(a, 4) && !(q.line == a.line && q.tag == a.tag)
    ensures !Stored(a, q)
  {
    AccessBytes(a, 3);
    var x, y := 8 * a.tag + a.line, 8 * q.tag + q.line;
    assert Raw(a) <= 128 * x + 124 && 128 * y <= Raw(q) <= 128 * y + 127;
    assert x != y;
  }

  /** A store changes exactly its four bytes of the image. */
  lemma StoreImage(c: Cpu, below: seq<Word>, a: Addr, value: Word)
    requires InMemory(c.lines, below) && Resident(c.lines, a, 4) && !Spans(a, 4)
    ensures var lines' := CacheWrite(c, a, value).lines;
            && InMemory(lines', below) && (Coherent(c.lines, below) ==> Coherent(lines', below))
            && forall q: Addr | WordOf(q) < |below| ::
                 ByteImage(lines', below, q) == After(a, value, q, ByteImage(c.lines, below, q))
  {
    var lines' := CacheWrite(c, a, value).lines;
    assert LineFits(below, a.line, c.lines[a.line]);
    forall i | 0 <= i < 8 ensures LineFits(below, i, lines'[i]) { assert LineFits(below, i, c.lines[i]); }
    if Coherent(c.lines, below) { OneLineCoherent(c.lines, lines', below, a.line); }
    forall q: Addr | WordOf(q) < |below|
      ensures ByteImage(lines', below, q) == After(a, value, q, ByteImage(c.lines, below, q))
    {
      if q.line == a.line && q.tag == a.tag {
        HitImage(c.lines, below, q);
        HitImage(lines', below, q);
        OverlayAt(c.lines[a.line].data, a, value, q);
      } else {
        if Covers(c.lines, a.line, WordOf(q)) { SameBlock(a.line, a.tag, q.line, q.tag, WordOf(q)); }
        OtherLines(c.lines, lines', below, a.line, WordOf(q));
        OtherBlock(a, q);
      }
    }
  }

  // ---- ticks and runs ----------------------------------------------------------------------

  /** The state between two ticks of a machine whose cache and memory agree. */
  ghost predicate Consistent(m: Machine, mode: FillMode) {
    Settled(m, mode) && Coherent(m.cpu.lines, Below(m))
  }

  /** The byte at an address as the CPU sees it. */
  function Byte(m: Machine, a: Addr): Words.Byte
    requires WordOf(a) < |m.ram.data|
  {
    ByteImage(m.cpu.lines, Below(m), a)
  }

  /** Byte n of memory is byte n % 4 of word n / 4. */
  lemma ByteAtRaw(m: Machine, n: nat)
    requires n < 0x1_0000 && n / 4 < |m.ram.data|
    ensures WordOf(FromRaw(n)) == n / 4
    ensures Byte(m, FromRaw(n)) == Image(m.cpu.lines, Below(m), n / 4).At(n % 4)
  {
    RawOfFields(n);
    BusWord(FromRaw(n));
  }

  /** A machine that has just been switched on is consistent if every line is invalid. */
  lemma FreshConsistent(m: Machine, mode: FillMode)
    requires Fresh(m) && forall i | 0 <= i < 8 :: !m.cpu.lines[i].valid
    ensures Consistent(m, mode)
  {
    FreshSettled(m, mode);
  }

  /** The CPU executes the store of this event. */
  predicate Stores(m: Machine, e: Event) {
    var c := TimerStep(m, e.timer).cpu;
    !c.Sleeping() && !c.dtrMem && !c.dtrCache && e.work.Store? && Resident(c.lines, e.work.addr, 4)
  }

  /** The stores that a run executes, in order. */
  function Log(m: Machine, mode: FillMode, es: Events): seq<(Addr, Word)>
    decreases |es|
  {
    if es == [] then []
    else (if Stores(m, es[0]) then [(es[0].work.addr, es[0].work.value)] else [])
         + Log(Tick(m, mode, es[0]), mode, es[1..])
  }

  /** Flat memory: the byte at q after the stores of a log, if it was `b` before. */
  function Flat(log: seq<(Addr, Word)>, q: Addr, b: Words.Byte): Words.Byte {
    if log == [] then b else Flat(log[1..], q, After(log[0].0, log[0].1, q, b))
  }

  /** What one tick of flat memory does to a byte. */
  function AfterTick(m: Machine, e: Event, q: Addr): Words.Byte
    requires WordOf(q) < |m.ram.data|
  {
    if Stores(m, e) then After(e.work.addr, e.work.value, q, Byte(m, q)) else Byte(m, q)
  }

  /** The CPU takes a position of a refill. */
  predicate Refills(m: Machine, e: Event) {
    var c := TimerStep(m, e.timer).cpu;
    !c.Sleeping() && !c.dtrMem && c.dtrCache
  }

  /** What a refill drops in this tick memory agrees with, and what it makes valid memory holds. */
  ghost predicate RefillsRight(m: Machine, mode: FillMode, e: Event) {
    Refills(m, e) ==> StepsRight(m.cpu, Below(m), mode)
  }

  /** A line made valid in this tick has been filled with words equal to its own. */
  ghost predicate FillsRight(m: Machine, mode: FillMode, e: Event) {
    Refills(m, e) && m.cpu.cacheStatus == 64 ==> SourcesAgree(Below(m), mode, m.cpu.cacheAddress)
  }

  /** All other work of the CPU moves words without changing the image. */
  lemma CpuKeepsImage(m: Machine, mode: FillMode, w: Work)
    requires ValidWork(w) && Sound(m, mode) && !m.board.bus.Active() && InMemory(m.cpu.lines, Below(m))
    requires m.ram.bus.Input() && m.cpu.dtrMem ==> Awaiting(m.cpu)
    requires !m.cpu.Sleeping() && !m.cpu.dtrMem && !m.cpu.dtrCache && w.Store? ==> !Resident(m.cpu.lines, w.addr, 4)
    requires !m.cpu.Sleeping() && !m.cpu.dtrMem && m.cpu.dtrCache ==> StepsRight(m.cpu, Below(m), mode)
    ensures var m' := CpuStep(m, mode, w);
            && SameImage(m.cpu.lines, Below(m), m'.cpu.lines, Below(m'))
            && (Coherent(m.cpu.lines, Below(m)) ==> Coherent(m'.cpu.lines, Below(m')))
  {
    if !m.cpu.Sleeping() && m.cpu.dtrMem {
      MemStepImage(m, mode);
    } else if !m.cpu.Sleeping() && m.cpu.dtrCache {
      RefillStepImage(m.cpu, Below(m), mode);
    } else {
      var m' := CpuStep(m, mode, w);
      assert m'.cpu.lines == m.cpu.lines && Below(m') == Below(m);
    }
  }

  lemma CpuImage(m: Machine, mode: FillMode, e: Event)
    requires Settled(m, mode) && InMemory(m.cpu.lines, Below(m)) && ValidWork(e.work) && RefillsRight(m, mode, e)
    ensures var m2 := AfterCpu(m, mode, e);
            && |m2.ram.data| == |m.ram.data|
            && (Coherent(m.cpu.lines, Below(m)) ==> Coherent(m2.cpu.lines, Below(m2)))
            && forall q: Addr | WordOf(q) < |m.ram.data| :: Byte(m2, q) == AfterTick(m, e, q)
  {
    var m1 := TimerStep(m, e.timer);
    TimerSound(m, mode, e.timer);
    assert m1.cpu.lines == m.cpu.lines;
    if Stores(m, e) {
      StoreImage(m1.cpu, Below(m1), e.work.addr, e.work.value);
      assert Below(AfterCpu(m, mode, e)) == Below(m1);
    } else {
      CpuKeepsImage(m1, mode, e.work);
    }
  }

  /** Only the CPU changes the cache. */
  lemma TickLines(m: Machine, mode: FillMode, e: Event)
    requires ValidWork(e.work)
    ensures Tick(m, mode, e).cpu.lines == AfterCpu(m, mode, e).cpu.lines
    ensures |Tick(m, mode, e).ram.data| == |m.ram.data|
  {
    RamCpu(AfterCpu(m, mode, e));
    BoardLines(AfterRam(m, mode, e));
  }

  lemma RamCpu(m: Machine)
    ensures RamStep(m).cpu == m.cpu && |RamStep(m).ram.data| == |m.ram.data|
  {
  }

  lemma BoardLines(m: Machine)
    ensures BoardStep(m).cpu.lines == m.cpu.lines && BoardStep(m).ram.data == m.ram.data
  {
  }

  /** The image after a tick is flat memory after it. */
  ghost predicate FlatTick(m: Machine, mode: FillMode, e: Event)
    requires ValidWork(e.work)
  {
    var m' := Tick(m, mode, e);
    |m'.ram.data| == |m.ram.data| &&
    forall q: Addr | WordOf(q) < |m.ram.data| :: Byte(m', q) == AfterTick(m, e, q)
  }

  /** A tick in which a refill steps right leaves every byte of the image alone, but for an executed store. */
  lemma TickImage(m: Machine, mode: FillMode, e: Event)
    requires Settled(m, mode) && InMemory(m.cpu.lines, Below(m)) && ValidWork(e.work) && RefillsRight(m, mode, e)
    ensures FlatTick(m, mode, e)
    ensures Consistent(m, mode) ==> Consistent(Tick(m, mode, e), mode)
  {
    TickPhases(m, mode, e);
    CpuImage(m, mode, e);
    TickLines(m, mode, e);
  }

  lemma DifferentByte(x: Word, y: Word) returns (k: ByteIndex)
    requires x != y
    ensures x.At(k) != y.At(k)
  {
    k := if x.b0 != y.b0 then 0 else if x.b1 != y.b1 then 1 else if x.b2 != y.b2 then 2 else 3;
  }

  /** A wrong step of a refill is seen at once. */
  lemma TickDiffers(m: Machine, mode: FillMode, e: Event)
    requires Settled(m, mode) && ValidWork(e.work) && !RefillsRight(m, mode, e)
    ensures !FlatTick(m, mode, e)
  {
    hide Image, Settled, StepsRight;
    var m' := Tick(m, mode, e);
    PositionTick(m, mode, e);
    var t, j := WrongStep(m.cpu, Below(m), mode);
    var w := LineBase(m.cpu.cacheAddress.line, t) + j;
    var k := DifferentByte(Image(m'.cpu.lines, Below(m'), w), Image(m.cpu.lines, Below(m), w));
    var q := Addr(t, m.cpu.cacheAddress.line, j, k);
    assert WordOf(q) == w && Byte(m', q) != Byte(m, q) == AfterTick(m, e, q);
  }

  lemma PositionTick(m: Machine, mode: FillMode, e: Event)
    requires Settled(m, mode) && ValidWork(e.work) && Refills(m, e)
    ensures AtPosition(m.cpu, Below(m), mode) && !Stores(m, e)
    ensures var m' := Tick(m, mode, e); m'.cpu.lines == RefillStep(m.cpu, mode).lines && Below(m') == Below(m)
  {
    TickPhases(m, mode, e);
    TickLines(m, mode, e);
    var m1 := TimerStep(m, e.timer);
    TimerSound(m, mode, e.timer);
    assert AfterCpu(m, mode, e) == m1.(cpu := RefillStep(m1.cpu, mode));
  }

  /** In any state, coherent or not, a tick is flat memory exactly if a refill in it steps right. */
  lemma TickIff(m: Machine, mode: FillMode, e: Event)
    requires Settled(m, mode) && InMemory(m.cpu.lines, Below(m)) && ValidWork(e.work)
    ensures FlatTick(m, mode, e) <==> RefillsRight(m, mode, e)
  {
    hide FlatTick, RefillsRight;
    if RefillsRight(m, mode, e) { TickImage(m, mode, e); } else { TickDiffers(m, mode, e); }
  }

  /** Where cache and memory agree a refill drops nothing wrongly. */
  lemma ConsistentDrops(m: Machine, mode: FillMode, e: Event)
    requires Consistent(m, mode) && ValidWork(e.work)
    ensures RefillsRight(m, mode, e) <==> FillsRight(m, mode, e)
  {
    if Refills(m, e) && m.cpu.cacheStatus == 32 {
      PositionTick(m, mode, e);
      CoherentDrop(m.cpu, Below(m), mode);
    }
  }

  // ---- whole runs --------------------------------------------------------------------------

  /** Every line that a run makes valid has been filled with words equal to its own. */
  ghost predicate AllFillRight(m: Machine, mode: FillMode, es: Events)
    decreases |es|
  {
    es == [] || (FillsRight(m, mode, es[0]) && AllFillRight(Tick(m, mode, es[0]), mode, es[1..]))
  }

  /** Moreover every line that it drops agrees with memory. */
  ghost predicate AllRefillRight(m: Machine, mode: FillMode, es: Events)
    decreases |es|
  {
    es == [] || (RefillsRight(m, mode, es[0]) && AllRefillRight(Tick(m, mode, es[0]), mode, es[1..]))
  }

  /** In every tick of a run the image changes as flat memory does. */
  ghost predicate FlatThroughout(m: Machine, mode: FillMode, es: Events)
    decreases |es|
  {
    es == [] || (FlatTick(m, mode, es[0]) && FlatThroughout(Tick(m, mode, es[0]), mode, es[1..]))
  }

  /**
   Over any run in lockstep, with interrupts at any point of any refill, from any state whose lines are in
   memory: what the CPU sees is flat memory throughout exactly if every refill drops only what memory agrees
   with and makes valid only what memory holds.
   */
  lemma {:induction false} FlatFromAnyState(m: Machine, mode: FillMode, es: Events)
    requires Settled(m, mode) && InMemory(m.cpu.lines, Below(m))
    ensures FlatThroughout(m, mode, es) <==> AllRefillRight(m, mode, es)
    decreases |es|
  {
    hide Settled, FlatTick, RefillsRight, InMemory;
    if es != [] {
      TickIff(m, mode, es[0]);
      TickPhases(m, mode, es[0]);
      TickInMemory(m, mode, es[0]);
      FlatFromAnyState(Tick(m, mode, es[0]), mode, es[1..]);
    }
  }

  /**
   The main theorem: from a state whose cache agrees with memory, what the CPU sees is flat memory throughout
   exactly if every completed fill has read words equal to those of its line.
   */
  lemma {:induction false} FlatIff(m: Machine, mode: FillMode, es: Events)
    requires Consistent(m, mode)
    ensures FlatThroughout(m, mode, es) <==> AllFillRight(m, mode, es)
    decreases |es|
  {
    hide Settled, FlatTick, FillsRight, RefillsRight, Coherent, InMemory;
    if es != [] {
      CoherentInMemory(m.cpu.lines, Below(m));
      TickIff(m, mode, es[0]);
      ConsistentDrops(m, mode, es[0]);
      if RefillsRight(m, mode, es[0]) {
        TickImage(m, mode, es[0]);
        FlatIff(Tick(m, mode, es[0]), mode, es[1..]);
      }
    }
  }

  /** A fill that starts at the line's own words always does. */
  lemma {:induction false} OwnLineFillsRight(m: Machine, es: Events)
    ensures AllFillRight(m, OwnLine, es)
    decreases |es|
  {
    if es != [] { OwnLineFillsRight(Tick(m, OwnLine, es[0]), es[1..]); }
  }

  /** From such a state a run that fills right keeps cache and memory in agreement, and so drops nothing wrongly. */
  lemma {:induction false} ConsistentRun(m: Machine, mode: FillMode, es: Events)
    requires Consistent(m, mode) && AllFillRight(m, mode, es)
    ensures Consistent(Run(m, mode, es), mode) && AllRefillRight(m, mode, es)
    decreases |es|
  {
    hide Settled, FlatTick, FillsRight, RefillsRight, Coherent, InMemory;
    if es != [] {
      CoherentInMemory(m.cpu.lines, Below(m));
      ConsistentDrops(m, mode, es[0]);
      TickImage(m, mode, es[0]);
      ConsistentRun(Tick(m, mode, es[0]), mode, es[1..]);
    }
  }

  /** What is flat throughout is at the end the flat memory that the executed stores produce. */
  lemma {:induction false} FlatRun(m: Machine, mode: FillMode, es: Events)
    requires FlatThroughout(m, mode, es)
    ensures var m' := Run(m, mode, es);
            && |m'.ram.data| == |m.ram.data|
            && forall q: Addr | WordOf(q) < |m.ram.data| :: Byte(m', q) == Flat(Log(m, mode, es), q, Byte(m, q))
    decreases |es|
  {
    if es != [] {
      var m' := Tick(m, mode, es[0]);
      FlatRun(m', mode, es[1..]);
      forall q: Addr | WordOf(q) < |m.ram.data|
        ensures Flat(Log(m, mode, es), q, Byte(m, q)) == Flat(Log(m', mode, es[1..]), q, Byte(m', q))
      {
        LogTick(m, mode, es, q);
      }
    }
  }

  lemma LogTick(m: Machine, mode: FillMode, es: Events, q: Addr)
    requires es != [] && WordOf(q) < |m.ram.data|
    ensures Flat(Log(m, mode, es), q, Byte(m, q)) ==
            Flat(Log(Tick(m, mode, es[0]), mode, es[1..]), q, AfterTick(m, es[0], q))
  {
    var rest := Log(Tick(m, mode, es[0]), mode, es[1..]);
    if Stores(m, es[0]) {
      assert Log(m, mode, es)[1..] == rest;
    } else {
      assert Log(m, mode, es) == rest;
    }
  }

  /** The image after a run whose refills are right is flat memory: no store is lost, and nothing else changes. */
  lemma RunIsFlatMemory(m: Machine, mode: FillMode, es: Events)
    requires Settled(m, mode) && InMemory(m.cpu.lines, Below(m)) && AllRefillRight(m, mode, es)
    ensures var m' := Run(m, mode, es);
            && Settled(m', mode) && InMemory(m'.cpu.lines, Below(m')) && |m'.ram.data| == |m.ram.data|
            && forall q: Addr | WordOf(q) < |m.ram.data| :: Byte(m', q) == Flat(Log(m, mode, es), q, Byte(m, q))
  {
    FlatFromAnyState(m, mode, es);
    FlatRun(m, mode, es);
    RunInMemory(m, mode, es);
  }

  /** From a consistent state only the fills matter; those that start at the line's own words are always right. */
  lemma ConsistentIsFlatMemory(m: Machine, mode: FillMode, es: Events)
    requires Consistent(m, mode) && (mode.OwnLine? || AllFillRight(m, mode, es))
    ensures var m' := Run(m, mode, es);
            && Consistent(m', mode) && |m'.ram.data| == |m.ram.data| && AllRefillRight(m, mode, es)
            && forall q: Addr | WordOf(q) < |m.ram.data| :: Byte(m', q) == Flat(Log(m, mode, es), q, Byte(m, q))
  {
    if mode.OwnLine? { OwnLineFillsRight(m, es); }
    ConsistentRun(m, mode, es);
    CoherentInMemory(m.cpu.lines, Below(m));
    RunIsFlatMemory(m, mode, es);
  }

  /** A load at the end of a run whose refills are right gives, byte for byte, what flat memory would. */
  lemma LoadAfterRun(m: Machine, mode: FillMode, es: Events, a: Addr, k: ByteIndex)
    requires Settled(m, mode) && InMemory(m.cpu.lines, Below(m)) && AllRefillRight(m, mode, es)
    requires Resident(Run(m, mode, es).cpu.lines, a, 4)
    ensures var q := Advance(a, k);
            && WordOf(q) < |m.ram.data|
            && CacheRead(Run(m, mode, es).cpu.lines, a).At(k) == Flat(Log(m, mode, es), q, Byte(m, q))
  {
    RunIsFlatMemory(m, mode, es);
    var m' := Run(m, mode, es);
    ReadsImage(m'.cpu.lines, Below(m'), a, k);
  }

  // ---- lines in memory, whatever they have been filled with ---------------------------------

  lemma TickInMemory(m: Machine, mode: FillMode, e: Event)
    requires Settled(m, mode) && ValidWork(e.work) && InMemory(m.cpu.lines, Below(m))
    ensures var m' := Tick(m, mode, e); InMemory(m'.cpu.lines, Below(m')) && |m'.ram.data| == |m.ram.data|
  {
    TickLines(m, mode, e);
    var m1, m' := TimerStep(m, e.timer), Tick(m, mode, e);
    var last := Refills(m, e) && m.cpu.cacheStatus == 64;
    if last { PositionTick(m, mode, e); CompletedFits(m.cpu, Below(m), mode); }
    forall i | 0 <= i < 8 ensures LineFits(Below(m'), i, m'.cpu.lines[i]) {
      assert LineFits(Below(m), i, m.cpu.lines[i]);
      if !last { LineStays(m1, mode, e.work, i); }
    }
  }

  /** Only completing a refill changes the tag of a line or makes it valid. */
  lemma LineStays(m: Machine, mode: FillMode, w: Work, i: LineIndex)
    requires ValidWork(w)
    requires !(!m.cpu.Sleeping() && !m.cpu.dtrMem && m.cpu.dtrCache && m.cpu.cacheStatus == 64)
    ensures var line, line' := m.cpu.lines[i], CpuStep(m, mode, w).cpu.lines[i];
            line'.tag == line.tag && (line'.valid ==> line.valid)
  {
    hide StoreBytes, WordOf, LineBase;
  }

  lemma {:induction false} RunInMemory(m: Machine, mode: FillMode, es: Events)
    requires Settled(m, mode) && InMemory(m.cpu.lines, Below(m))
    ensures var m' := Run(m, mode, es);
            Settled(m', mode) && InMemory(m'.cpu.lines, Below(m')) && |m'.ram.data| == |m.ram.data|
    decreases |es|
  {
    if es != [] {
      TickPhases(m, mode, es[0]);
      TickInMemory(m, mode, es[0]);
      RunInMemory(Tick(m, mode, es[0]), mode, es[1..]);
    }
  }

  /** After any run a load gives the bytes of the image, whatever the lines have been filled with. */
  lemma LoadIsImage(m: Machine, mode: FillMode, es: Events, a: Addr, k: ByteIndex)
    requires Settled(m, mode) && InMemory(m.cpu.lines, Below(m))
    requires Resident(Run(m, mode, es).cpu.lines, a, 4)
    ensures var m', q := Run(m, mode, es), Advance(a, k);
            && |m'.ram.data| == |m.ram.data| && WordOf(q) < |m.ram.data|
            && CacheRead(m'.cpu.lines, a).At(k) == Byte(m', q)
  {
    RunInMemory(m, mode, es);
    var m' := Run(m, mode, es);
    ReadsImage(m'.cpu.lines, Below(m'), a, k);
  }
}
