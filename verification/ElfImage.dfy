/** The segment loader (drivers/binfmt/elf.c). */
module ElfImage {
  // From a program header to mappings, and what they read as once the pages are there, per the
  // "Program Header" section of chapter 5 of the System V gABI.

  import opened CowState
  import opened CowSteps
  import Runs = CowRun
  import Meaning = CowMeaning
  import opened Lists

  /** Addresses and sizes are 32 bits wide and wrap. */
  const WORD: nat := 0x1_0000_0000

  datatype Header = Header(offset: nat, vaddr: nat, filesz: nat, memsz: nat, writable: bool)

  /** Private mappings: of the file from a page-aligned offset on, and of zeros. */
  datatype FileMap = FileMap(addr: nat, size: nat, off: nat, shadow: bool)
  datatype AnonMap = AnonMap(addr: nat, size: nat)

  datatype Outcome = NoExec | Loaded(file: Option<FileMap>, anon: Option<AnonMap>)

  function Wrap(x: int): nat { x % WORD }

  function PageDown(x: nat): nat { x / PAGE * PAGE }

  function RoundUp(x: nat): nat { (x + PAGE - 1) / PAGE * PAGE }

  /** ALIGN to the page size. */
  function PageUp(x: nat): nat { Wrap(RoundUp(x)) }

  /** The size of the file mapping: not a multiple of a page if the rest of its last page must read as zero. */
  function FileSize(h: Header): nat {
    var size := Wrap(h.filesz + h.vaddr % PAGE);
    if h.filesz == 0 then 0 else if h.filesz == h.memsz then PageUp(size) else size
  }

  function AnonAddr(h: Header): nat { Wrap(PageDown(h.vaddr) + PageUp(FileSize(h))) }

  function AnonSize(h: Header): nat {
    if h.memsz > h.filesz then Wrap(PageUp(Wrap(h.vaddr + h.memsz)) - AnonAddr(h)) else 0
  }

  /** The address space, from its first to its last address. */
  datatype Space = Space(start: nat, end: nat)

  predicate User(s: Space) { s.start <= s.end && s.end + 1 < WORD }

  /** vm_vas_check_region, as vm_vas_map calls it. */
  predicate Room(s: Space, addr: nat, size: nat) {
    s.start <= addr <= s.end && Wrap(PageUp(size) - 1) <= s.end - addr
  }

  /** elf_load_section */
  function Load(h: Header, s: Space): Outcome {
    if h.filesz > h.memsz then NoExec
    else if h.memsz == 0 then Loaded(None, None)
    else if h.offset % PAGE != h.vaddr % PAGE then NoExec
    else if FileSize(h) != 0 && !Room(s, PageDown(h.vaddr), FileSize(h)) then NoExec
    else if AnonSize(h) != 0 && !Room(s, AnonAddr(h), AnonSize(h)) then NoExec
    else
      Loaded(if FileSize(h) == 0 then None
             else Some(FileMap(PageDown(h.vaddr), FileSize(h), PageDown(h.offset), h.writable
               || FileSize(h) % PAGE != 0)),
             if AnonSize(h) == 0 then None else Some(AnonMap(AnonAddr(h), AnonSize(h))))
  }

  /** What 32 bits can say. */
  predicate Word(h: Header) { h.offset < WORD && h.vaddr < WORD && h.filesz < WORD && h.memsz < WORD }

  /** The pages of the segment are fewer than the address space of 32 bits. */
  predicate Small(h: Header) { h.vaddr % PAGE + h.memsz + PAGE <= WORD }

  /** A mapping covers whole pages. */
  predicate InFile(f: Option<FileMap>, a: nat) { f.Some? && f.value.addr <= a < f.value.addr + PageUp(f.value.size) }

  predicate InAnon(m: Option<AnonMap>, a: nat) { m.Some? && m.value.addr <= a < m.value.addr + m.value.size }

  /**
   What a file mapping reads at an address: the file's page itself, or the copy that the fault of
   a shadow object of size off + size makes of it.
   */
  function FileByte(f: FileMap, file: nat -> Page, a: nat): byte
    requires f.addr <= a && (f.shadow ==> PAGE * ((f.off + (a - f.addr)) / PAGE) < f.off + f.size)
  {
    var o := f.off + (a - f.addr);
    var page := file(o / PAGE);
    if f.shadow then Copy(page, Copied(f.off + f.size, o / PAGE, false))[o % PAGE] else page[o % PAGE]
  }

  /** The copy keeps the file up to the size of the shadow and is zero from there on. */
  lemma {:induction false} CopyByte(page: Page, size: nat, pg: nat, k: nat)
    requires k < PAGE && PAGE * pg < size
    ensures Copy(page, Copied(size, pg, false))[k] == if PAGE * pg + k < size then page[k] else 0
  {}

  /** What an anonymous mapping reads at an address: its object, a root filled with zeros. */
  function AnonByte(m: AnonMap, a: nat): byte
    requires m.addr <= a
  {
    Zero((a - m.addr) / PAGE)[(a - m.addr) % PAGE]
  }

  // ----- Arithmetic -----

  lemma {:induction false} UpIs(x: nat)
    requires x + PAGE <= WORD
    ensures x <= PageUp(x) < x + PAGE && PageUp(x) % PAGE == 0 && PageUp(x) == RoundUp(x)
  {}

  lemma {:induction false} UpMono(y: nat, z: nat)
    requires y <= z
    ensures RoundUp(y) <= RoundUp(z)
  {}

  lemma {:induction false} UpTwice(x: nat)
    requires x + PAGE <= WORD
    ensures PageUp(PageUp(x)) == PageUp(x)
  {}

  lemma {:induction false} WrapIs(x: nat)
    requires x < WORD
    ensures Wrap(x) == x
  {}

  /** The end of the segment, cut to 32 bits. */
  lemma {:induction false} UpWrapped(b: nat, y: nat)
    requires b % PAGE == 0
    ensures PageUp(Wrap(b + y)) == Wrap(b + RoundUp(y))
  {
    var q := (b + y) / WORD;
    var k := PAGES * q;
    assert b + y == Wrap(b + y) + PAGE * k;
    UpShift(k, Wrap(b + y));
    UpShift(b / PAGE, y);
    assert RoundUp(b + y) == b + RoundUp(y);
    WrapShift(RoundUp(Wrap(b + y)), q);
  }

  /** Pages in the whole of 32 bits. */
  const PAGES: nat := 0x10_0000

  lemma {:induction false} UpShift(k: nat, y: nat)
    ensures RoundUp(PAGE * k + y) == PAGE * k + RoundUp(y)
  {}

  lemma {:induction false} WrapShift(x: nat, q: nat)
    ensures Wrap(x + PAGE * (PAGES * q)) == Wrap(x)
  {
    assert PAGE * (PAGES * q) == WORD * q;
  }

  lemma {:induction false} WrapPage(x: int)
    ensures Wrap(x) % PAGE == x % PAGE
  {
    var k := PAGES * (x / WORD);
    assert x == Wrap(x) + PAGE * k;
    ModShift(Wrap(x), k);
  }

  lemma {:induction false} ModShift(x: int, k: int)
    ensures (x + PAGE * k) % PAGE == x % PAGE
  {}

  lemma {:induction false} WrapSub(x: nat, y: nat)
    requires y <= x < y + WORD
    ensures Wrap(Wrap(x) - y) == x - y
  {}

  // ----- Where the mappings are -----

  function Base(h: Header): nat { h.vaddr - h.vaddr % PAGE }

  /** How much of the segment the file mapping takes, in whole pages. */
  function FilePart(h: Header): nat { if h.filesz == 0 then 0 else RoundUp(h.filesz + h.vaddr % PAGE) }

  function Whole(h: Header): nat { RoundUp(h.memsz + h.vaddr % PAGE) }

  lemma {:induction false} Sizes(h: Header)
    requires Small(h) && h.filesz <= h.memsz && h.memsz > 0
    ensures FilePart(h) <= Whole(h) < WORD && (h.filesz == h.memsz ==> FilePart(h) == Whole(h)) && 0 < Whole(h)
    ensures Base(h) == PageDown(h.vaddr) && FilePart(h) % PAGE == 0 && Whole(h) % PAGE == 0 && Base(h) % PAGE == 0
  {
    var g := h.vaddr % PAGE;
    UpMono(h.filesz + g, h.memsz + g);
    UpIs(h.memsz + g);
  }

  lemma {:induction false} FileShape(h: Header)
    requires Small(h) && h.filesz <= h.memsz && h.memsz > 0
    ensures FileSize(h) == if h.filesz == h.memsz || h.filesz == 0 then FilePart(h) else h.filesz + h.vaddr % PAGE
    ensures PageUp(FileSize(h)) == FilePart(h) && (FileSize(h) == 0 <==> h.filesz == 0)
  {
    var x := h.filesz + h.vaddr % PAGE;
    WrapIs(x);
    UpIs(x);
    UpTwice(x);
  }

  lemma {:induction false} SegmentEnd(h: Header)
    ensures PageUp(Wrap(h.vaddr + h.memsz)) == Wrap(Base(h) + Whole(h))
  {
    UpWrapped(Base(h), h.memsz + h.vaddr % PAGE);
  }

  lemma {:induction false} AnonShape(h: Header)
    requires Small(h) && h.filesz <= h.memsz && h.memsz > 0 && Base(h) + FilePart(h) < WORD
    ensures AnonAddr(h) == Base(h) + FilePart(h) && AnonSize(h) == Whole(h) - FilePart(h)
    ensures PageUp(AnonSize(h)) == AnonSize(h)
  {
    Sizes(h);
    FileShape(h);
    var at, whole := Base(h) + FilePart(h), Base(h) + Whole(h);
    WrapIs(at);
    assert AnonAddr(h) == at;
    SegmentEnd(h);
    WrapSub(whole, at);
    AnonWhole(h);
  }

  lemma {:induction false} Multiple(x: nat)
    requires x % PAGE == 0 && x < WORD
    ensures PageUp(x) == x
  {}

  lemma {:induction false} AnonWhole(h: Header)
    ensures PageUp(AnonSize(h)) == AnonSize(h)
  {
    WholePages(h.vaddr, FileSize(h));
    assert PageUp(Wrap(h.vaddr + h.memsz)) % PAGE == 0;
    if h.memsz > h.filesz { WholeDifference(PageUp(Wrap(h.vaddr + h.memsz)), AnonAddr(h)); }
    Multiple(AnonSize(h));
  }

  lemma {:induction false} WholePages(v: nat, size: nat)
    ensures Wrap(PageDown(v) + PageUp(size)) % PAGE == 0
  {
    WrapPage(RoundUp(size));
    WrapPage(PageDown(v) + PageUp(size));
    ModShift(0, (size + PAGE - 1) / PAGE);
    ModShift(PageUp(size), v / PAGE);
  }

  lemma {:induction false} WholeDifference(x: nat, y: nat)
    requires x % PAGE == 0 && y % PAGE == 0
    ensures Wrap(x - y) % PAGE == 0
  {
    WrapPage(x - y);
  }

  /**
   A segment whose pages 32 bits can count is taken if and only if the standard allows it and its
   pages are all in the address space.
   */
  lemma {:induction false} Accepted(h: Header, s: Space)
    requires User(s) && Word(h) && Small(h) && h.memsz > 0
    ensures Load(h, s) != NoExec <==>
            && h.filesz <= h.memsz && h.offset % PAGE == h.vaddr % PAGE
            && s.start <= Base(h) && Base(h) + Whole(h) <= s.end + 1
  {
    if h.filesz <= h.memsz && h.offset % PAGE == h.vaddr % PAGE { BothRoom(h, s); }
  }

  lemma {:induction false} BothRoom(h: Header, s: Space)
    requires User(s) && Word(h) && Small(h) && h.filesz <= h.memsz && h.memsz > 0
    ensures (FileSize(h) == 0 || Room(s, PageDown(h.vaddr), FileSize(h)))
      && (AnonSize(h) == 0 || Room(s, AnonAddr(h), AnonSize(h)))
      <==> s.start <= Base(h) && Base(h) + Whole(h) <= s.end + 1
  {
    Sizes(h);
    FileShape(h);
    RoomIs(s, Base(h), FileSize(h), FilePart(h));
    assert FileSize(h) == 0 <==> FilePart(h) == 0;
    if Base(h) + FilePart(h) < WORD {
      AnonShape(h);
      RoomIs(s, AnonAddr(h), AnonSize(h), AnonSize(h));
    }
  }

  lemma {:induction false} RoomIs(s: Space, addr: nat, size: nat, pages: nat)
    requires User(s) && PageUp(size) == pages
    ensures pages > 0 ==> (Room(s, addr, size) <==> s.start <= addr && addr + pages <= s.end + 1)
  {
    if pages > 0 { WrapIs(pages - 1); }
  }

  /** The mappings cover exactly the pages of the segment, and do not overlap. */
  ghost predicate Right(h: Header, o: Outcome)
    requires o.Loaded?
  {
    forall a: nat ::
      && !(InFile(o.file, a) && InAnon(o.anon, a))
      && (InFile(o.file, a) || InAnon(o.anon, a) <==> PageDown(h.vaddr) <= a < PageDown(h.vaddr) + Whole(h))
  }

  lemma {:induction false} Placed(h: Header, s: Space)
    requires User(s) && Word(h) && Small(h) && h.memsz > 0 && Load(h, s).Loaded?
    ensures Base(h) + Whole(h) < WORD && AnonAddr(h) == Base(h) + FilePart(h) && AnonSize(h) == Whole(h) - FilePart(h)
  {
    Accepted(h, s);
    Sizes(h);
    AnonShape(h);
  }

  lemma {:induction false} Covers(h: Header, s: Space)
    requires User(s) && Word(h) && Small(h) && h.memsz > 0 && Load(h, s).Loaded?
    ensures Right(h, Load(h, s))
  {
    Sizes(h);
    FileShape(h);
    Placed(h, s);
  }

  /**
   The loader does not check for wrap-around. Exactly the segments with fewer pages than 32 bits can
   address are mapped right; the others may be taken, and are then not mapped as asked.
   */
  lemma {:induction false} RightExactly(h: Header, s: Space)
    requires User(s) && Word(h) && h.memsz > 0 && Load(h, s).Loaded?
    ensures Right(h, Load(h, s)) <==> Small(h)
  {
    if Small(h) {
      Covers(h, s);
    } else {
      var a := PageDown(h.vaddr) + WORD - 1;
      assert Whole(h) >= WORD;
      NothingThere(h, s, a);
    }
  }

  /** What was mapped lies in the address space. */
  lemma {:induction false} NothingThere(h: Header, s: Space, a: nat)
    requires User(s) && Word(h) && Load(h, s).Loaded? && a >= WORD - 1
    ensures !InFile(Load(h, s).file, a) && !InAnon(Load(h, s).anon, a)
  {
    var o := Load(h, s);
    if o.file.Some? { RoomIs(s, o.file.value.addr, o.file.value.size, PageUp(o.file.value.size)); }
    if o.anon.Some? {
      AnonWhole(h);
      RoomIs(s, o.anon.value.addr, o.anon.value.size, PageUp(o.anon.value.size));
    }
  }

  /** A segment of 2^32 - 1 bytes is taken and nothing of it is mapped. */
  lemma {:induction false} FourGigabytes(s: Space)
    requires User(s)
    ensures
      var h := Header(0, 0, WORD - 1, WORD - 1, false);
      Load(h, s) == Loaded(None, None) && !Right(h, Load(h, s))
  {
    var h := Header(0, 0, WORD - 1, WORD - 1, false);
    RightExactly(h, s);
  }

  // ----- What the mappings read -----

  /** A byte of the file part, wherever it is in its page. */
  lemma {:induction false} FileReads(f: FileMap, file: nat -> Page, a: nat, o: nat)
    requires f.addr <= a && o == f.off + (a - f.addr) && PAGE * (o / PAGE) < f.off + f.size
    ensures FileByte(f, file, a) == if f.shadow && o >= f.off + f.size then 0 else file(o / PAGE)[o % PAGE]
  {
    if f.shadow { CopyByte(file(o / PAGE), f.off + f.size, o / PAGE, o % PAGE); }
  }

  predicate Present(f: FileMap, a: nat)
    requires f.addr <= a
  {
    PAGE * ((f.off + (a - f.addr)) / PAGE) < f.off + f.size
  }

  /** Byte i of the segment is byte p_offset + i of the file for every i below p_filesz. */
  lemma {:induction false} FilePartReads(h: Header, s: Space, file: nat -> Page, i: nat)
    requires User(s) && Word(h) && Small(h) && Load(h, s).Loaded? && i < h.filesz
    ensures
      var f, a := Load(h, s).file, h.vaddr + i;
      && InFile(f, a) && Present(f.value, a)
      && FileByte(f.value, file, a) == file((h.offset + i) / PAGE)[(h.offset + i) % PAGE]
  {
    FileShape(h);
    Sizes(h);
    Placed(h, s);
    UpIs(h.filesz + h.vaddr % PAGE);
    FileReads(Load(h, s).file.value, file, h.vaddr + i, h.offset + i);
  }

  /** And it is zero from there up to p_memsz, in the last page of the file part or after it. */
  lemma {:induction false} RestReadsZero(h: Header, s: Space, file: nat -> Page, i: nat)
    requires User(s) && Word(h) && Small(h) && Load(h, s).Loaded? && h.filesz <= i < h.memsz
    ensures
      var f, m, a := Load(h, s).file, Load(h, s).anon, h.vaddr + i;
      if InFile(f, a) then Present(f.value, a) && FileByte(f.value, file, a) == 0
      else InAnon(m, a) && AnonByte(m.value, a) == 0
  {
    FileShape(h);
    Sizes(h);
    Placed(h, s);
    Covers(h, s);
    UpIs(h.memsz + h.vaddr % PAGE);
    UpIs(h.filesz + h.vaddr % PAGE);
    if InFile(Load(h, s).file, h.vaddr + i) {
      LastPage(h, i);
      FileReads(Load(h, s).file.value, file, h.vaddr + i, h.offset + i);
    }
  }

  /** A byte past the file's bytes but in a page of the file part is in its last, partly filled page. */
  lemma {:induction false} LastPage(h: Header, i: nat)
    requires Small(h) && h.offset % PAGE == h.vaddr % PAGE && 0 < h.filesz <= i && h.filesz < h.memsz
    requires h.vaddr + i < Base(h) + FilePart(h)
    ensures PAGE * ((h.offset + i) / PAGE) < h.offset + h.filesz && (h.filesz + h.vaddr % PAGE) % PAGE != 0
  {
    UpIs(h.filesz + h.vaddr % PAGE);
  }

  // ----- Writing -----

  /** The step of the copy-on-write machine that maps a file part for writing: a shadow keeps the file out of it. */
  ghost function Segment(f: FileMap, m: Id, o: Id, vas: nat): Step
    requires f.shadow
  {
    MapFile(m, o, vas, f.off / PAGE, f.off + f.size)
  }

  /**
   A program may write its writable segments: whatever is done afterwards, stores through the
   segment included, the file reads as it did, and until then the segment reads the file.
   */
  lemma {:induction false} FileUntouched(h: Header, s: Space, steps: seq<Step>, m: Id, o: Id, vas: nat,
    more: seq<Step>, a: nat)
    requires Load(h, s).Loaded? && Load(h, s).file.Some? && h.writable
    requires
      var mapped := steps + [Segment(Load(h, s).file.value, m, o, vas)];
      Runs.After(steps).Some? && Runs.After(mapped).Some? && Runs.After(mapped + more).Some?
    requires
      var end := Runs.After(steps + [Segment(Load(h, s).file.value, m, o, vas)] + more).value;
      o in end.objs && end.objs[o].Root? && end.objs[o].file
    ensures
      var f := Load(h, s).file.value;
      var mapped := steps + [Segment(f, m, o, vas)];
      var start, end := Runs.After(mapped).value, Runs.After(mapped + more).value;
      && Linked(end.objs) && View(end.objs, o, a / PAGE)[a % PAGE] == Runs.FileByte(mapped + more, o, a)
      && (PAGE * (f.off / PAGE) <= a < f.off + f.size ==>
            m in start.maps && InRange(start.maps[m], a) && Meaning.Readable(start, m)
            && ReadByte(start, m, a) == Runs.FileByte(steps, o, a))
  {
    var f := Load(h, s).file.value;
    var mapped := steps + [Segment(f, m, o, vas)];
    Runs.FilesKeep(mapped + more, o, a);
    assert mapped[..|mapped| - 1] == steps;
    Runs.ReadsPrivateMemory(mapped, m, a);
  }
}
