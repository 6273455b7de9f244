/** From the compiler's constants to the machine: the hex file of a program is read back, and mm_init sets up
    memory as the program's header says (compiler/assembler.rkt, main/hexfile.c, main/mm.c). */
module Loading {
  import opened Cells
  import opened Constants
  import opened Memory
  import opened Wrappers
  import HexFiles
  import HexRecords
  import Numbers

  /** rom_heap, with as many cells as byte 2 of the header says. */
  function RomCells(program: seq<Byte>, n: nat): (r: seq<Cell>)
    requires 4 + 5 * n <= |program|
    ensures |r| == n && forall i: nat | i < n :: r[i] == RomCell(program, i)
  {
    seq(n, i requires 0 <= i < n => RomCell(program, i))
  }

  /** mm_init: memory for the program, with the number of globals in byte 3 of its header; null if it does
      not start with the mark, or if the heap would reach into the addresses of ROM.  The check of the free list
      never fails. */
  method MmInit(program: seq<Byte>, ramSize: nat) returns (m: Machine?)
    requires |program| >= 4 && 4 + 5 * (program[2] as int) <= |program| && (program[3] as int + 1) / 2 < ramSize
    ensures m != null <==> program[0] == 0xd7 && program[1] == 0xfb && ramSize < ROM_START
    ensures m != null ==> fresh(m) && fresh(m.ram) && m.Valid() && m.ram.Length == ramSize
    ensures m != null ==> m.reserved == (program[3] as int + 1) / 2 && m.rom == RomCells(program, program[2])
    ensures m != null ==> forall i | 0 <= i < m.reserved :: m.ram[i] == Cell(NIL, NIL, CONS, false, false)
    ensures m != null ==> forall w: Word :: w in m.free <==> m.reserved <= w < ramSize
  {
    if program[0] != 0xd7 || program[1] != 0xfb {
      return null;
    }
    var globalCount := program[3];
    if ramSize >= ROM_START {
      return null;
    }
    m := new Machine(ramSize, globalCount, RomCells(program, program[2]));
    var listed := m.CheckFreeList(ramSize);
    if !listed {
      return null;
    }
  }

  /** What the first four bytes of an image say. */
  lemma Header(cs: seq<Constant>, globals: nat)
    requires Image(cs, globals).Some? && |cs| <= 255 && globals <= 255
    ensures var image := Image(cs, globals).value;
      && |image| == 4 + 5 * |cs|
      && image[0] == 0xd7 && image[1] == 0xfb && image[2] == |cs| && image[3] == globals
  {}

  /** A file with the image of some constants and with code behind it is accepted, and read to the start of
      the buffer. */
  lemma FileAccepted(cs: seq<Constant>, globals: nat, code: seq<Byte>, mem: seq<Byte>)
    requires Image(cs, globals).Some? && |cs| <= 255 && globals <= 255
    requires var program := Image(cs, globals).value + code; |program| < 0x10000 && |program| <= |mem|
    ensures var program := Image(cs, globals).value + code;
      HexRecords.ReadFrom(HexRecords.Text(HexRecords.Raws(program)), false, mem, 0) ==
      HexRecords.Outcome(true, program + mem[|program|..], |program|)
  {
    hide Image, HexRecords.ReadFrom, HexRecords.Text, HexRecords.Raws;
    Header(cs, globals);
    var program := Image(cs, globals).value + code;
    HexRecords.RoundTrip(program, mem);
    assert HexRecords.Store(mem, 0, program) == program + mem[|program|..];
  }

  /** The cells of the ROM are in the first part of the program. */
  lemma SameRom(image: seq<Byte>, program: seq<Byte>, n: nat)
    requires |image| == 4 + 5 * n && image <= program
    ensures RomCells(program, n) == RomCells(image, n)
  {
    forall i: nat | i < n ensures RomCell(program, i) == RomCell(image, i) {
      var p := 4 + 5 * i;
      assert forall j | p <= j < p + 5 :: program[j] == image[j];
    }
  }

  /** The whole way: constants and code are assembled, written to a hex file, read from it, and a machine is
      set up.  In it every constant of the code is what it was, the globals have cells of their own, and the
      code is where the interpreter starts. */
  method Load(objs: seq<Datum>, globals: nat, code: seq<Byte>, buffer: array<Byte>, ramSize: nat)
      returns (m: Machine?)
    requires |Collect(objs)| <= 255 && globals <= 255 && forall o | o in objs :: NoEmpty(o)
    requires 4 + 5 * |Collect(objs)| + |code| < 0x10000 && 4 + 5 * |Collect(objs)| + |code| <= buffer.Length
    requires (globals + 1) / 2 < ramSize < ROM_START
    modifies buffer
    ensures m != null && m.Valid() && m.reserved == (globals + 1) / 2
    ensures forall k: nat | k < globals :: k / 2 < m.reserved && m.ram[k / 2] == Cell(NIL, NIL, CONS, false, false)
    ensures forall w: Word :: w in m.free <==> m.reserved <= w < ramSize
    ensures forall o | o in objs ::
      var cs := Sort(Collect(objs)); Reference(o, cs).Some? && Denotes(m.View(), Reference(o, cs).value, o)
    ensures var start := CodeStart(buffer[..]);
      start + |code| <= buffer.Length && buffer[start..start + |code|] == code
  {
    hide Image, Collect, Sort, NoEmpty, HexRecords.ReadFrom, HexRecords.Text, HexRecords.Raws, Denotes, Reference;
    hide CodeStart, RomCell, Machine.Valid;
    var cs := Sort(Collect(objs));
    AssemblesIff(objs, globals);
    SortedEncodable(Collect(objs));
    Header(cs, globals);
    var image := Image(cs, globals).value;
    var program := image + code;
    FileAccepted(cs, globals, code, buffer[..]);
    var file := HexFiles.WriteHex(program);
    var reader := new HexFiles.Reader(buffer);
    var ok := reader.ReadHexFile(file);
    assert buffer[..|program|] == program && image <= buffer[..];
    m := MmInit(buffer[..], ramSize);
    SameRom(image, buffer[..], |cs|);
    Placed(m, image, |cs|);
    StartsBehind(image, buffer[..], cs, globals);
    assert buffer[|image|..|image| + |code|] == program[|image|..] == code;
    forall o | o in objs ensures Reference(o, cs).Some? && Denotes(m.View(), Reference(o, cs).value, o) {
      ConstantsReadBack(m.View(), objs, globals, o);
    }
  }

  lemma Placed(m: Machine, image: seq<Byte>, n: nat)
    requires |image| == 4 + 5 * n && n <= 255 && m.Valid() && m.rom == RomCells(image, n)
    ensures Loaded(m.View(), image, n)
  {}

  lemma StartsBehind(image: seq<Byte>, program: seq<Byte>, cs: seq<Constant>, globals: nat)
    requires Image(cs, globals) == Some(image) && |cs| <= 255 && image <= program && |image| > 2
    ensures CodeStart(program) == |image|
  {
    CodeStartIff(cs, globals);
    assert image[2] == program[2];
  }
}
