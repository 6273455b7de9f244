/** Hex files: what the assembler writes and how the reader takes it apart
    (compiler/asm.rkt, main/hexfile.c). */
module HexRecords {
  import opened Wrappers

  // ---- text

  function Digit(n: nat): char
    requires n < 16
  {
    "0123456789ABCDEF"[n]
  }

  /** hex2bin */
  function Hex2Bin(ch: char): (r: nat)
    ensures r < 16
  {
    if '0' <= ch <= '9' then ch as int - '0' as int
    else if 'a' <= ch <= 'f' then 10 + (ch as int - 'a' as int)
    else if 'A' <= ch <= 'F' then 10 + (ch as int - 'A' as int)
    else 0
  }

  lemma DigitBack(n: nat)
    requires n < 16
    ensures Hex2Bin(Digit(n)) == n && Digit(n) != '\n' && Digit(n) != '\0'
  {}

  function Hex(bytes: seq<Byte>): (r: string)
    ensures |r| == 2 * |bytes|
  {
    if bytes == [] then "" else [Digit(bytes[0] / 16), Digit(bytes[0] % 16)] + Hex(bytes[1..])
  }

  /** A record of these bytes on a line of its own. */
  function Line(raw: seq<Byte>): string {
    ":" + Hex(raw) + "\n"
  }

  function Text(raws: seq<seq<Byte>>): string {
    if raws == [] then "" else Line(raws[0]) + Text(raws[1..])
  }

  lemma {:induction false} HexAt(bytes: seq<Byte>, i: nat)
    requires i < |bytes|
    ensures Hex(bytes)[2 * i] == Digit(bytes[i] / 16) && Hex(bytes)[2 * i + 1] == Digit(bytes[i] % 16)
  {
    if i > 0 {
      HexAt(bytes[1..], i - 1);
    }
  }

  lemma {:induction false} HexPlain(bytes: seq<Byte>)
    ensures '\n' !in Hex(bytes)
  {
    if bytes != [] {
      HexPlain(bytes[1..]);
      DigitBack(bytes[0] / 16);
      DigitBack(bytes[0] % 16);
    }
  }

  // ---- the reader's cursor

  /** The character at p; a line ends with NUL. */
  function At(line: string, p: nat): char {
    if p < |line| then line[p] else '\0'
  }

  datatype Cursor = Cursor(p: nat, sum: Byte)

  /** hex2byte */
  function Hex2Byte(line: string, c: Cursor): (Byte, Cursor) {
    if At(line, c.p) == '\0' then (0, c)
    else if At(line, c.p + 1) == '\0' then (0, Cursor(c.p + 1, c.sum))
    else
      var v: Byte := Hex2Bin(At(line, c.p)) * 16 + Hex2Bin(At(line, c.p + 1));
      (v, Cursor(c.p + 2, (c.sum + v as int) % 256))
  }

  function HexBytes(line: string, c: Cursor, n: nat): (r: (seq<Byte>, Cursor))
    ensures |r.0| == n
    decreases n
  {
    if n == 0 then ([], c) else
      var b := Hex2Byte(line, c);
      var rest := HexBytes(line, b.1, n - 1);
      ([b.0] + rest.0, rest.1)
  }

  function Sum(bytes: seq<Byte>): nat {
    if bytes == [] then 0 else bytes[0] + Sum(bytes[1..])
  }

  lemma {:induction false} SumSplit(bytes: seq<Byte>, i: nat)
    requires i <= |bytes|
    ensures Sum(bytes) == Sum(bytes[..i]) + Sum(bytes[i..])
  {
    if i > 0 {
      SumSplit(bytes[1..], i - 1);
      assert bytes[1..][..i - 1] == bytes[..i][1..] && bytes[1..][i - 1..] == bytes[i..];
    } else {
      assert bytes[0..] == bytes;
    }
  }

  lemma {:induction false} SumUpdate(bytes: seq<Byte>, k: nat, x: Byte)
    requires k < |bytes|
    ensures Sum(bytes[k := x]) == Sum(bytes) - bytes[k] + x
  {
    if k > 0 {
      SumUpdate(bytes[1..], k - 1, x);
      assert bytes[k := x][1..] == bytes[1..][k - 1 := x];
    } else {
      assert bytes[0 := x][1..] == bytes[1..];
    }
  }

  lemma LineStart(raw: seq<Byte>)
    ensures At(Line(raw), 0) == ':'
  {}

  lemma LineAt(raw: seq<Byte>, i: nat, sum: Byte)
    requires i < |raw|
    ensures Hex2Byte(Line(raw), Cursor(1 + 2 * i, sum)) == (raw[i], Cursor(3 + 2 * i, (sum + raw[i] as int) % 256))
  {
    var h := Hex(raw);
    HexAt(raw, i);
    assert Line(raw)[1 + 2 * i] == h[2 * i] && Line(raw)[2 + 2 * i] == h[2 * i + 1];
    DigitBack(raw[i] / 16);
    DigitBack(raw[i] % 16);
  }

  lemma ModAdd(a: nat, b: nat)
    ensures (a % 256 + b) % 256 == (a + b) % 256
  {}

  /** On a written line the cursor delivers its bytes one after the other. */
  lemma {:induction false} LineBytes(raw: seq<Byte>, i: nat, n: nat, sum: Byte)
    requires i + n <= |raw|
    ensures HexBytes(Line(raw), Cursor(1 + 2 * i, sum), n) ==
            (raw[i..i + n], Cursor(1 + 2 * (i + n), (sum + Sum(raw[i..i + n])) % 256))
    decreases n
  {
    hide Line, Hex2Byte;
    if n > 0 {
      LineAt(raw, i, sum);
      LineBytes(raw, i + 1, n - 1, (sum + raw[i] as int) % 256);
      assert raw[i..i + n] == [raw[i]] + raw[i + 1..i + n];
      ModAdd(sum + raw[i] as int, Sum(raw[i + 1..i + n]));
    }
  }

  /** Behind its end the line delivers zeros, which change no sum. */
  lemma {:induction false} LineOver(raw: seq<Byte>, p: nat, n: nat, sum: Byte)
    requires p >= 1 + 2 * |raw|
    ensures HexBytes(Line(raw), Cursor(p, sum), n).1.p >= 1 + 2 * |raw|
    ensures HexBytes(Line(raw), Cursor(p, sum), n).1.sum == sum
    decreases n
  {
    if n > 0 {
      var b := Hex2Byte(Line(raw), Cursor(p, sum));
      LineOver(raw, b.1.p, n - 1, sum);
    }
  }

  lemma {:induction false} BytesSplit(line: string, c: Cursor, m: nat, n: nat)
    ensures HexBytes(line, c, m + n).1 == HexBytes(line, HexBytes(line, c, m).1, n).1
    decreases m
  {
    if m > 0 {
      BytesSplit(line, Hex2Byte(line, c).1, m - 1, n);
    }
  }

  // ---- one line

  function SkipSpaces(line: string, p: nat): (r: nat)
    ensures At(line, p) != ' ' ==> r == p
    decreases |line| - p
  {
    if p < |line| && line[p] == ' ' then SkipSpaces(line, p + 1) else p
  }

  datatype Step = Step(mem: seq<Byte>, max: nat, completed: bool, error: bool)

  function Store(mem: seq<Byte>, addr: nat, bytes: seq<Byte>): (r: seq<Byte>)
    requires addr + |bytes| <= |mem|
    ensures |r| == |mem|
  {
    mem[..addr] + bytes + mem[addr + |bytes|..]
  }

  /** What the reader's loop does: byte after byte at 16-bit addresses.  What is outside of the buffer is
      not part of the model. */
  function Written(mem: seq<Byte>, addr: nat, bytes: seq<Byte>): (r: seq<Byte>)
    ensures |r| == |mem|
  {
    if bytes == [] then mem else
      var n := |bytes| - 1;
      var before := Written(mem, addr, bytes[..n]);
      var a := (addr + n) % 0x10000;
      if a < |mem| then before[a := bytes[n]] else before
  }

  lemma WrittenMore(mem: seq<Byte>, addr: nat, bytes: seq<Byte>, b: Byte)
    ensures var a, before := (addr + |bytes|) % 0x10000, Written(mem, addr, bytes);
      Written(mem, addr, bytes + [b]) == if a < |mem| then before[a := b] else before
  {
    assert (bytes + [b])[..|bytes|] == bytes;
  }

  /** Bytes that fit are stored in one piece. */
  lemma {:induction false} WrittenFits(mem: seq<Byte>, addr: nat, bytes: seq<Byte>)
    requires addr + |bytes| <= |mem| && addr + |bytes| <= 0x10000
    ensures Written(mem, addr, bytes) == Store(mem, addr, bytes)
  {
    if bytes != [] {
      var n := |bytes| - 1;
      WrittenFits(mem, addr, bytes[..n]);
      assert bytes == bytes[..n] + [bytes[n]];
    }
  }

  function Max(a: nat, b: nat): nat { if a > b then a else b }

  /** What a line does to the buffer. */
  function ReadLine(line: string, mem: seq<Byte>, max: nat): (r: Step)
    ensures |r.mem| == |mem|
  {
    var p := SkipSpaces(line, 0);
    if At(line, p) != ':' then Step(mem, max, false, false) else
      var head := HexBytes(line, Cursor(p + 1, 0), 4);
      var len := head.0[0];
      var high: nat, low: nat := head.0[1], head.0[2];
      var addr := high * 256 + low;
      var data := HexBytes(line, head.1, len);
      var tooShort := head.0[3] == 0 && addr + len > |mem|;
      var next := if head.0[3] == 0 then (addr + len) % 0x10000 else addr;
      Step(if head.0[3] == 0 then Written(mem, addr, data.0) else mem,
           Max(next, max),
           head.0[3] == 1,
           tooShort || Hex2Byte(line, data.1).1.sum != 0)
  }

  // ---- the whole file

  /** fgets(line, 99, f): up to a newline, at most 98 characters. */
  function TakeLine(rest: string, limit: nat): (r: string)
    ensures |r| <= |rest| && |r| <= limit && (rest != "" && limit > 0 ==> |r| > 0)
    decreases limit
  {
    if rest == "" || limit == 0 then ""
    else if rest[0] == '\n' then "\n"
    else [rest[0]] + TakeLine(rest[1..], limit - 1)
  }

  datatype Outcome = Outcome(ok: bool, mem: seq<Byte>, max: nat)

  function Marked(mem: seq<Byte>, max: nat): Outcome
    requires |mem| >= 2
  {
    Outcome(mem[0] == 0xd7 && mem[1] == 0xfb, mem, max)
  }

  /** read_hex_file, from what is left of the file. */
  function ReadFrom(rest: string, atEnd: bool, mem: seq<Byte>, max: nat): (r: Outcome)
    requires |mem| >= 2
    ensures |r.mem| == |mem|
    decreases |rest|
  {
    if atEnd then Marked(mem, max)
    else if rest == "" then Outcome(false, mem, max)
    else
      var line := TakeLine(rest, 98);
      var s := ReadLine(line, mem, max);
      if s.error then Outcome(false, s.mem, s.max)
      else if s.completed then Marked(s.mem, s.max)
      else ReadFrom(rest[|line|..], |line| == |rest| && |line| < 98 && line[|line| - 1] != '\n', s.mem, s.max)
  }

  // ---- what is written

  /** print-line: count, address, type, data and a checksum that makes the sum 0. */
  function Raw(addr: nat, typ: Byte, bytes: seq<Byte>): (r: seq<Byte>)
    requires addr < 0x10000 && |bytes| <= 16
    ensures |r| == |bytes| + 5 && r[0] == |bytes|
  {
    var head: seq<Byte> := [|bytes|, addr / 256, addr % 256, typ] + bytes;
    head + [(0 - Sum(head)) % 256]
  }

  function End(code: seq<Byte>, pos: nat): nat {
    if pos + 16 < |code| then pos + 16 else |code|
  }

  /** The data records from pos on. */
  function Chunks(code: seq<Byte>, pos: nat): (r: seq<seq<Byte>>)
    requires pos <= |code| < 0x10000
    decreases |code| - pos
  {
    if pos == |code| then [] else [Raw(pos, 0, code[pos..End(code, pos)])] + Chunks(code, End(code, pos))
  }

  /** Data record j has the 16 bytes from 16 * j on; only the last one can have fewer. */
  lemma {:induction false} ChunkAt(code: seq<Byte>, pos: nat, j: nat)
    requires pos <= |code| < 0x10000
    ensures j < |Chunks(code, pos)| <==> pos + 16 * j < |code|
    ensures j < |Chunks(code, pos)| ==>
      var p := pos + 16 * j;
      var rest := |code| - p;
      Chunks(code, pos)[j] == Raw(p, 0, code[p..p + if rest < 16 then rest else 16])
    decreases j
  {
    hide Raw;
    if pos < |code| && j > 0 {
      ChunkAt(code, End(code, pos), j - 1);
      if pos + 16 >= |code| {
        assert Chunks(code, End(code, pos)) == [];
      }
    }
  }

  /** The records of a hex file; the first one is empty. */
  function Raws(code: seq<Byte>): seq<seq<Byte>>
    requires |code| < 0x10000
  {
    (if code == [] then [] else [Raw(0, 0, [])]) + Chunks(code, 0) + [Raw(0, 1, [])]
  }

  /** A record as a line can carry it: at least as long as its count says, and short enough for the
      reader's lines. */
  ghost predicate Sound(raw: seq<Byte>) {
    5 <= |raw| <= 21 && Count(raw) + 5 <= |raw|
  }

  function Count(raw: seq<Byte>): nat
    requires |raw| > 0
  {
    raw[0]
  }

  function Address(raw: seq<Byte>): nat
    requires |raw| > 2
  {
    var high: nat, low: nat := raw[1], raw[2];
    high * 256 + low
  }

  lemma RawSum(addr: nat, typ: Byte, bytes: seq<Byte>)
    requires addr < 0x10000 && |bytes| <= 16
    ensures Sum(Raw(addr, typ, bytes)) % 256 == 0
  {
    var r := Raw(addr, typ, bytes);
    SumSplit(r, |bytes| + 4);
    assert r[..|bytes| + 4] == [|bytes|, addr / 256, addr % 256, typ] + bytes;
    assert r[|bytes| + 4..] == [r[|bytes| + 4]];
  }

  /** Where the cursor stands on the line of such a record, and what it delivers. */
  lemma Cursors(raw: seq<Byte>)
    requires Sound(raw)
    ensures var n, l := Count(raw), Line(raw);
      var head := HexBytes(l, Cursor(1, 0), 4);
      var data := HexBytes(l, head.1, n);
      && At(l, 0) == ':' && head.0 == raw[0..4] && data.0 == raw[4..4 + n]
      && Hex2Byte(l, data.1).1.sum == Sum(raw[..n + 5]) % 256
  {
    hide HexBytes, Hex2Byte, Sum;
    var n := Count(raw);
    var a, b, c: nat := Sum(raw[0..4]), Sum(raw[4..4 + n]), raw[4 + n];
    LineBytes(raw, 0, 4, 0);
    LineBytes(raw, 4, n, a % 256);
    LineAt(raw, 4 + n, (a % 256 + b) % 256);
    RecordSum(raw);
    ModAdd(a, b);
    ModAdd(a + b, c);
    assert At(Line(raw), 0) == ':';
  }

  lemma RecordSum(raw: seq<Byte>)
    requires Sound(raw)
    ensures var n := Count(raw); Sum(raw[..n + 5]) == Sum(raw[0..4]) + Sum(raw[4..4 + n]) + raw[4 + n]
  {
    var n := Count(raw);
    var r := raw[..n + 5];
    SumSplit(r, 4 + n);
    SumSplit(r[..4 + n], 4);
    assert r[..4 + n][..4] == raw[0..4] && r[..4 + n][4..] == raw[4..4 + n];
    assert r[4 + n..] == [raw[4 + n]];
  }

  /** What a record does, by its bytes alone. */
  lemma ReadRaw(raw: seq<Byte>, mem: seq<Byte>, max: nat)
    requires Sound(raw)
    ensures var n, addr := Count(raw), Address(raw);
      var s := ReadLine(Line(raw), mem, max);
      && (s.error <==> (raw[3] == 0 && addr + n > |mem|) || Sum(raw[..n + 5]) % 256 != 0)
      && (s.completed <==> raw[3] == 1)
      && (raw[3] == 0 ==> s.mem == Written(mem, addr, raw[4..n + 4]) && s.max == Max((addr + n) % 0x10000, max))
      && (raw[3] != 0 ==> s.mem == mem && s.max == Max(addr, max))
  {
    hide HexBytes, Hex2Byte, Sum, Line, Written;
    Cursors(raw);
  }

  // ---- whole files

  lemma {:induction false} TakeLineOf(s: string, tail: string, limit: nat)
    requires '\n' !in s && |s| < limit
    ensures TakeLine(s + "\n" + tail, limit) == s + "\n"
  {
    if s == "" {
      assert s + "\n" + tail == "\n" + tail;
    } else {
      assert (s + "\n" + tail)[1..] == s[1..] + "\n" + tail;
      TakeLineOf(s[1..], tail, limit - 1);
    }
  }

  /** The reader takes a file line by line. */
  lemma ReadNext(raw: seq<Byte>, tail: string, mem: seq<Byte>, max: nat)
    requires |raw| <= 21 && |mem| >= 2
    ensures ReadFrom(Line(raw) + tail, false, mem, max) ==
      var s := ReadLine(Line(raw), mem, max);
      if s.error then Outcome(false, s.mem, s.max)
      else if s.completed then Marked(s.mem, s.max)
      else ReadFrom(tail, false, s.mem, s.max)
  {
    hide ReadLine, Marked;
    var body := ":" + Hex(raw);
    HexPlain(raw);
    TakeLineOf(body, tail, 98);
    assert Line(raw) + tail == body + "\n" + tail;
    assert (Line(raw) + tail)[|body + "\n"|..] == tail;
  }

  lemma ReadText(raws: seq<seq<Byte>>, mem: seq<Byte>, max: nat)
    requires raws != [] && |raws[0]| <= 21 && |mem| >= 2
    ensures ReadFrom(Text(raws), false, mem, max) ==
      var s := ReadLine(Line(raws[0]), mem, max);
      if s.error then Outcome(false, s.mem, s.max)
      else if s.completed then Marked(s.mem, s.max)
      else ReadFrom(Text(raws[1..]), false, s.mem, s.max)
  {
    hide ReadLine, Marked, ReadFrom, Line;
    ReadNext(raws[0], Text(raws[1..]), mem, max);
  }

  lemma {:induction false} TextSplit(a: seq<seq<Byte>>, b: seq<seq<Byte>>)
    ensures Text(a + b) == Text(a) + Text(b)
  {
    if a == [] {
      assert a + b == b;
    } else {
      assert (a + b)[1..] == a[1..] + b;
      TextSplit(a[1..], b);
    }
  }

  lemma RawParts(addr: nat, typ: Byte, bytes: seq<Byte>)
    requires addr < 0x10000 && |bytes| <= 16
    ensures var r := Raw(addr, typ, bytes);
      Sound(r) && Count(r) == |bytes| && Address(r) == addr && r[3] == typ && r[4..Count(r) + 4] == bytes
  {
    hide Sum;
  }

  lemma RawReads(addr: nat, typ: Byte, bytes: seq<Byte>, mem: seq<Byte>, max: nat)
    requires addr < 0x10000 && |bytes| <= 16 && addr + |bytes| <= |mem| && addr + |bytes| < 0x10000
    ensures Sound(Raw(addr, typ, bytes))
    ensures typ == 0 ==> ReadLine(Line(Raw(addr, typ, bytes)), mem, max) ==
                         Step(Store(mem, addr, bytes), Max(addr + |bytes|, max), false, false)
    ensures typ == 1 ==> ReadLine(Line(Raw(addr, typ, bytes)), mem, max) == Step(mem, Max(addr, max), true, false)
  {
    hide ReadLine, Line, Raw, Sum, Sound, Count, Address, Written, Store;
    WrittenFits(mem, addr, bytes);
    var r := Raw(addr, typ, bytes);
    RawParts(addr, typ, bytes);
    RawSum(addr, typ, bytes);
    assert r[..|bytes| + 5] == r;
    ReadRaw(r, mem, max);
  }

  lemma StoreTwice(mem: seq<Byte>, pos: nat, code: seq<Byte>, e: nat)
    requires pos <= e <= |code| <= |mem|
    ensures Store(Store(mem, pos, code[pos..e]), e, code[e..]) == Store(mem, pos, code[pos..])
    ensures pos == |code| ==> Store(mem, pos, code[pos..]) == mem
  {}

  lemma {:induction false} ReadChunks(code: seq<Byte>, pos: nat, tail: seq<seq<Byte>>, mem: seq<Byte>, max: nat)
    requires pos <= |code| < 0x10000 && |code| <= |mem| && |mem| >= 2 && max <= pos
    ensures ReadFrom(Text(Chunks(code, pos) + tail), false, mem, max) ==
            ReadFrom(Text(tail), false, Store(mem, pos, code[pos..]), if pos == |code| then max else |code|)
    decreases |code| - pos
  {
    hide ReadFrom, ReadLine, Line, Text, Store, Raw;
    StoreTwice(mem, pos, code, pos);
    if pos == |code| {
      assert Chunks(code, pos) + tail == tail;
    } else {
      var e := End(code, pos);
      var raws := Chunks(code, pos) + tail;
      assert raws[0] == Raw(pos, 0, code[pos..e]) && raws[1..] == Chunks(code, e) + tail;
      RawReads(pos, 0, code[pos..e], mem, max);
      ReadText(raws, mem, max);
      var mem' := Store(mem, pos, code[pos..e]);
      ReadChunks(code, e, tail, mem', e);
      StoreTwice(mem, pos, code, e);
    }
  }

  lemma ReadEnd(mem: seq<Byte>, max: nat)
    requires |mem| >= 2
    ensures ReadFrom(Text([Raw(0, 1, [])]), false, mem, max) == Marked(mem, max)
  {
    hide ReadFrom, ReadLine, Line, Text, Raw;
    RawReads(0, 1, [], mem, max);
    ReadText([Raw(0, 1, [])], mem, max);
  }

  lemma ReadEmpty(raws: seq<seq<Byte>>, mem: seq<Byte>)
    requires |raws| > 0 && raws[0] == Raw(0, 0, []) && |mem| >= 2
    ensures ReadFrom(Text(raws), false, mem, 0) == ReadFrom(Text(raws[1..]), false, mem, 0)
  {
    hide ReadFrom, ReadLine, Line, Text, Raw;
    RawReads(0, 0, [], mem, 0);
    ReadText(raws, mem, 0);
    assert Store(mem, 0, []) == mem;
  }

  lemma ReadFirst(code: seq<Byte>, mem: seq<Byte>)
    requires |code| < 0x10000 && |mem| >= 2
    ensures ReadFrom(Text(Raws(code)), false, mem, 0) ==
      ReadFrom(Text(Chunks(code, 0) + [Raw(0, 1, [])]), false, mem, 0)
  {
    hide ReadFrom, ReadLine, Line, Text, Raw;
    var end := [Raw(0, 1, [])];
    if code == [] {
      assert Raws(code) == Chunks(code, 0) + end;
    } else {
      var first := [Raw(0, 0, [])];
      assert Raws(code) == first + Chunks(code, 0) + end == first + (Chunks(code, 0) + end);
      ReadEmpty(Raws(code), mem);
    }
  }

  /** What is written is read back: the buffer holds the code, max_addr is its length, and the file is
      accepted if it starts with the mark. */
  lemma RoundTrip(code: seq<Byte>, mem: seq<Byte>)
    requires |code| < 0x10000 && |code| <= |mem| && |mem| >= 2
    ensures ReadFrom(Text(Raws(code)), false, mem, 0) == Marked(Store(mem, 0, code), |code|)
  {
    hide ReadFrom, ReadLine, Line, Text, Raw, Chunks, Raws, Store, Marked;
    ReadFirst(code, mem);
    ReadChunks(code, 0, [Raw(0, 1, [])], mem, 0);
    assert code[0..] == code;
    ReadEnd(Store(mem, 0, code), |code|);
  }

  /** No buffer of this size accepts the line. */
  ghost predicate Rejected(line: string, size: nat) {
    forall mem, max | |mem| == size :: ReadLine(line, mem, max).error
  }

  /** Records that do not end the file. */
  ghost predicate Plain(raw: seq<Byte>) {
    Sound(raw) && raw[3] != 1
  }

  lemma {:induction false} RejectedRecord(raws: seq<seq<Byte>>, i: nat, mem: seq<Byte>, max: nat)
    requires i < |raws| && |mem| >= 2 && (forall j | 0 <= j < i :: Plain(raws[j])) && |raws[i]| <= 21
    requires Rejected(Line(raws[i]), |mem|)
    ensures !ReadFrom(Text(raws), false, mem, max).ok
    decreases i
  {
    hide ReadFrom, ReadLine, Line, Text;
    assert i > 0 ==> Plain(raws[0]);
    ReadText(raws, mem, max);
    var s := ReadLine(Line(raws[0]), mem, max);
    if i > 0 && !s.error {
      ReadRaw(raws[0], mem, max);
      assert forall j | 0 <= j < i - 1 :: raws[1..][j] == raws[j + 1];
      RejectedRecord(raws[1..], i - 1, s.mem, s.max);
    }
  }

  /** A written record: sums to 0, as long as it says, and of type 0 except for the last. */
  lemma {:induction false} ChunksShape(code: seq<Byte>, pos: nat, j: nat)
    requires pos <= |code| < 0x10000 && j < |Chunks(code, pos)|
    ensures var r := Chunks(code, pos)[j]; Plain(r) && |r| == Count(r) + 5 && Sum(r) % 256 == 0
    decreases |code| - pos
  {
    var e := End(code, pos);
    if j == 0 {
      RawSum(pos, 0, code[pos..e]);
    } else {
      ChunksShape(code, e, j - 1);
    }
  }

  lemma RawsShape(code: seq<Byte>, j: nat)
    requires |code| < 0x10000 && j < |Raws(code)|
    ensures var r := Raws(code)[j];
      Sound(r) && |r| == Count(r) + 5 && Sum(r) % 256 == 0 && (j < |Raws(code)| - 1 ==> Plain(r))
  {
    hide Sum;
    RawSum(0, 0, []);
    RawSum(0, 1, []);
    var first := if code == [] then 0 else 1;
    if first <= j < |Raws(code)| - 1 {
      ChunksShape(code, 0, j - first);
    }
  }

  /** One byte of one record replaced. */
  function Changed(raws: seq<seq<Byte>>, i: nat, k: nat, x: Byte): seq<seq<Byte>>
    requires i < |raws| && k < |raws[i]|
  {
    var r: seq<Byte> := raws[i][k := x];
    raws[i := r]
  }

  lemma BadSum(raw: seq<Byte>, size: nat)
    requires Sound(raw) && Sum(raw[..Count(raw) + 5]) % 256 != 0
    ensures Rejected(Line(raw), size)
  {
    hide Sum, Line, ReadLine;
    forall m: seq<Byte>, max | |m| == size ensures ReadLine(Line(raw), m, max).error {
      ReadRaw(raw, m, max);
    }
  }

  lemma Unbalanced(sum: nat, a: Byte, b: Byte)
    requires sum % 256 == 0 && a != b
    ensures (sum - a + b) % 256 != 0
  {}

  lemma StillSound(raw: seq<Byte>, k: nat, x: Byte)
    requires Sound(raw) && |raw| == Count(raw) + 5 && 1 <= k < |raw|
    ensures Sound(raw[k := x]) && raw[k := x][..Count(raw[k := x]) + 5] == raw[k := x]
  {}

  lemma ByteChanged(raw: seq<Byte>, k: nat, x: Byte, size: nat)
    requires Sound(raw) && |raw| == Count(raw) + 5 && Sum(raw) % 256 == 0 && 1 <= k < |raw| && x != raw[k]
    ensures Rejected(Line(raw[k := x]), size)
  {
    hide Sum, Rejected, Line, Address, Count, Sound;
    SumUpdate(raw, k, x);
    Unbalanced(Sum(raw), raw[k], x);
    StillSound(raw, k, x);
    BadSum(raw[k := x], size);
  }

  /** A file with any one byte of any record changed, except for a count, is not accepted. */
  lemma ChangeRejected(code: seq<Byte>, i: nat, k: nat, x: Byte, mem: seq<Byte>)
    requires |code| < 0x10000 && |mem| >= 2 && i < |Raws(code)| && 1 <= k < |Raws(code)[i]| && x != Raws(code)[i][k]
    ensures !ReadFrom(Text(Changed(Raws(code), i, k, x)), false, mem, 0).ok
  {
    hide Sum, Line, Text, ReadFrom, ReadLine, Raws;
    var raws, raws' := Raws(code), Changed(Raws(code), i, k, x);
    RawsShape(code, i);
    ByteChanged(raws[i], k, x, |mem|);
    forall j | 0 <= j < i ensures Plain(raws'[j]) {
      RawsShape(code, j);
      assert raws'[j] == raws[j];
    }
    RejectedRecord(raws', i, mem, 0);
  }

  /** A changed count passes the reader's checks exactly if it is smaller, and what it cuts off sums to 0
      with the difference. */
  lemma CountChange(raw: seq<Byte>, m: Byte, mem: seq<Byte>, max: nat)
    requires Sound(raw) && |raw| == Count(raw) + 5 && Sum(raw) % 256 == 0 && m != raw[0]
    requires raw[3] == 0 ==> Address(raw) + m <= |mem|
    ensures !ReadLine(Line(raw[0 := m]), mem, max).error <==>
            m < raw[0] && (raw[0] - m + Sum(raw[m as int + 5..])) % 256 == 0
  {
    hide Line, ReadLine, Sum;
    var r: seq<Byte> := raw[0 := m];
    SumUpdate(raw, 0, m);
    if m < raw[0] {
      assert Address(r) == Address(raw) && r[3] == raw[3];
      ReadRaw(r, mem, max);
      CutSum(raw, m);
    } else {
      Unbalanced(Sum(raw), raw[0], m);
      CountTooLarge(r, mem, max);
    }
  }

  lemma CutSum(raw: seq<Byte>, m: Byte)
    requires |raw| > 0 && |raw| == Count(raw) + 5 && Sum(raw) % 256 == 0 && m < raw[0]
    ensures Sum(raw[0 := m][..m as int + 5]) % 256 == 0 <==> (raw[0] - m + Sum(raw[m as int + 5..])) % 256 == 0
  {
    hide Sum;
    var r: seq<Byte> := raw[0 := m];
    SumUpdate(raw, 0, m);
    SumSplit(r, m as int + 5);
    assert r[m as int + 5..] == raw[m as int + 5..];
    Shares(Sum(raw), Sum(r[..m as int + 5]), raw[0] - m + Sum(raw[m as int + 5..]));
  }

  lemma Shares(sum: nat, head: int, tail: int)
    requires sum % 256 == 0 && head + tail == sum
    ensures head % 256 == 0 <==> tail % 256 == 0
  {}

  lemma CountTooLarge(r: seq<Byte>, mem: seq<Byte>, max: nat)
    requires 5 <= |r| <= 21 && Count(r) + 5 > |r| && Sum(r) % 256 != 0
    ensures ReadLine(Line(r), mem, max).error
  {
    hide HexBytes, Hex2Byte, Sum, Line;
    var l, k, m := Line(r), |r| - 4, Count(r);
    var a, b := Sum(r[0..4]), Sum(r[4..4 + k]);
    LineStart(r);
    LineBytes(r, 0, 4, 0);
    var c := Cursor(9, a % 256);
    LineBytes(r, 4, k, a % 256);
    ModAdd(a, b);
    SumSplit(r, 4);
    assert r[0..4] == r[..4] && r[4..4 + k] == r[4..];
    LineOver(r, 1 + 2 * |r|, m + 1 - k, (a + b) % 256);
    BytesSplit(l, c, k, m + 1 - k);
    BytesSplit(l, c, m, 1);
    OneByte(l, HexBytes(l, c, m).1);
  }

  lemma OneByte(line: string, c: Cursor)
    ensures HexBytes(line, c, 1).1 == Hex2Byte(line, c).1
  {
    assert HexBytes(line, Hex2Byte(line, c).1, 0).1 == Hex2Byte(line, c).1;
  }
}
