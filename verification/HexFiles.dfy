/** The hex writer and the hex reader as they run (compiler/asm.rkt, main/hexfile.c). */
module HexFiles {
  import opened HexRecords
  import opened Wrappers

  /** What has been printed, and what is to come from begin on, are the records of the file. */
  ghost predicate Printed(code: seq<Byte>, before: seq<seq<Byte>>, begin: nat, pos: nat)
    requires begin <= |code| < 0x10000
  {
    before + (if pos == 0 && code != [] then [Raw(0, 0, [])] else [])
      + Chunks(code, begin) + [Raw(0, 1, [])] == Raws(code)
  }

  lemma PrintRecord(code: seq<Byte>, before: seq<seq<Byte>>, begin: nat, pos: nat)
    requires begin <= pos < |code| < 0x10000 && Printed(code, before, begin, pos)
    requires if pos == 0 then begin == 0 else pos == begin + 16
    ensures Printed(code, before + [Raw(begin, 0, code[begin..pos])], pos, pos + 1)
  {
    hide Raws, Raw;
    var r, end := Raw(begin, 0, code[begin..pos]), [Raw(0, 1, [])];
    if pos == 0 {
      assert before + [r] + [] + Chunks(code, pos) + end == before + [r] + Chunks(code, begin) + end;
    } else {
      assert Chunks(code, begin) == [r] + Chunks(code, pos);
      assert before + [r] + [] + Chunks(code, pos) + end == before + [] + Chunks(code, begin) + end;
    }
  }

  lemma PrintLast(code: seq<Byte>, before: seq<seq<Byte>>, begin: nat)
    requires begin <= |code| < 0x10000 && Printed(code, before, begin, |code|) && |code| <= begin + 16
    ensures Raws(code) ==
      (if begin == |code| then before else before + [Raw(begin, 0, code[begin..|code|])]) + [Raw(0, 1, [])]
  {
    hide Raws, Raw;
    var end := [Raw(0, 1, [])];
    if begin < |code| {
      var r := Raw(begin, 0, code[begin..|code|]);
      assert Chunks(code, begin) == [r] + Chunks(code, |code|) == [r];
      assert before + [] + [r] + end == before + [r] + end;
    } else {
      assert before + [] + [] + end == before + end;
    }
  }

  /** print-line, after what is already in the file. */
  method PrintLine(text: string, r: seq<Byte>, ghost before: seq<seq<Byte>>) returns (t: string)
    requires text == Text(before)
    ensures t == Text(before + [r])
  {
    t := text + Line(r);
    TextSplit(before, [r]);
    assert Text([r]) == Line(r) + Text([r][1..]);
  }

  /** asm-write-hex, for code that starts at address 0. */
  method WriteHex(code: seq<Byte>) returns (text: string)
    requires |code| < 0x10000
    ensures text == Text(Raws(code))
  {
    hide Text, Raw, Chunks, Raws;
    text := Text([]);
    var pos, bytes: seq<Byte> := 0, [];
    ghost var begin := 0;
    ghost var before: seq<seq<Byte>> := [];
    PrintNone(code);
    while pos < |code|
      invariant begin <= pos <= |code| && bytes == code[begin..pos] && text == Text(before)
      invariant begin % 16 == 0 && (if pos == 0 then begin == 0 else begin < pos <= begin + 16)
      invariant Printed(code, before, begin, pos)
    {
      hide Printed;
      if pos % 16 == 0 {
        PrintRecord(code, before, begin, pos);
        var r := Raw(pos - |bytes|, 0, bytes);
        text := PrintLine(text, r, before);
        before := before + [r];
        begin := pos;
        bytes := [];
      } else {
        PrintOn(code, before, begin, pos);
      }
      bytes := bytes + [code[pos]];
      pos := pos + 1;
    }
    PrintLast(code, before, begin);
    if bytes != [] {
      var r := Raw(pos - |bytes|, 0, bytes);
      text := PrintLine(text, r, before);
      before := before + [r];
    }
    text := PrintLine(text, Raw(0, 1, []), before);
  }

  lemma PrintNone(code: seq<Byte>)
    requires |code| < 0x10000
    ensures Printed(code, [], 0, 0)
  {
    hide Raw;
    assert [] + (if code == [] then [] else [Raw(0, 0, [])]) == (if code == [] then [] else [Raw(0, 0, [])]);
  }

  lemma PrintOn(code: seq<Byte>, before: seq<seq<Byte>>, begin: nat, pos: nat)
    requires begin <= |code| < 0x10000 && pos > 0 && Printed(code, before, begin, pos)
    ensures Printed(code, before, begin, pos + 1)
  {}

  class Reader {
    var checksum: Byte
    var maxAddr: nat
    const buffer: array<Byte>

    constructor (buffer: array<Byte>)
      ensures this.buffer == buffer
    {
      this.buffer := buffer;
      checksum, maxAddr := 0, 0;
    }

    method NextByte(line: string, p: nat) returns (val: Byte, p': nat)
      modifies this`checksum
      ensures (val, Cursor(p', checksum)) == Hex2Byte(line, Cursor(p, old(checksum)))
    {
      p' := p;
      if At(line, p') == '\0' {
        return 0, p';
      }
      val := Hex2Bin(At(line, p'));
      p' := p' + 1;
      if At(line, p') == '\0' {
        return 0, p';
      }
      val := val as int * 16 + Hex2Bin(At(line, p'));
      p' := p' + 1;
      checksum := (checksum + val as int) % 256;
    }

    /** Reads len bytes and forgets them. */
    method SkipBytes(line: string, p: nat, len: nat) returns (p': nat)
      modifies this`checksum
      ensures Cursor(p', checksum) == HexBytes(line, Cursor(p, old(checksum)), len).1
    {
      p' := p;
      var left := len;
      while left > 0
        invariant 0 <= left <= len
        invariant HexBytes(line, Cursor(p', checksum), left).1 == HexBytes(line, Cursor(p, old(checksum)), len).1
      {
        left := left - 1;
        var _, q := NextByte(line, p');
        p' := q;
      }
    }

    /** Reads len bytes into the buffer, at addresses of 16 bits; a byte for an address outside is lost. */
    method StoreBytes(line: string, p: nat, len: nat, addr: nat) returns (p': nat)
      modifies this`checksum, buffer
      ensures var r := HexBytes(line, Cursor(p, old(checksum)), len);
        Cursor(p', checksum) == r.1 && buffer[..] == Written(old(buffer[..]), addr, r.0)
    {
      hide Hex2Byte, Written;
      WrittenNone(buffer[..], addr);
      p' := p;
      var k := 0;
      ghost var c := Cursor(p, checksum);
      ghost var got: seq<Byte> := [];
      while k < len
        invariant k <= len && |got| == k
        invariant buffer[..] == Written(old(buffer[..]), addr, got)
        invariant var r := HexBytes(line, Cursor(p', checksum), len - k);
          HexBytes(line, c, len).0 == got + r.0 && HexBytes(line, c, len).1 == r.1
      {
        ghost var r := HexBytes(line, Cursor(p', checksum), len - k);
        var b, q := NextByte(line, p');
        p' := q;
        var a := (addr + k) % 0x10000;
        if a < buffer.Length {
          buffer[a] := b;
        }
        WrittenMore(old(buffer[..]), addr, got, b);
        assert got + r.0 == got + [b] + r.0[1..];
        got := got + [b];
        k := k + 1;
      }
      assert got + [] == got;
    }

    /** One record line: the body of the reader's loop. */
    method ReadRecord(line: string) returns (completed: bool, error: bool)
      requires buffer.Length >= 2
      modifies this, buffer
      ensures ReadLine(line, old(buffer[..]), old(maxAddr)) == Step(buffer[..], maxAddr, completed, error)
    {
      hide Hex2Byte, Written;
      completed, error := false, false;
      var p := SkipSpaces(line, 0);
      if At(line, p) == ':' {
        checksum := 0;
        ghost var c := Cursor(p + 1, 0);
        var len, p0 := NextByte(line, p + 1);
        var high, p1 := NextByte(line, p0);
        var low, p2 := NextByte(line, p1);
        var typ, p3 := NextByte(line, p2);
        HeadBytes(line, c);
        var addr: nat := (high as int) * 256 + low as int;
        var n: nat := len;
        if typ == 0 {
          if addr + n > buffer.Length {
            error := true;
          }
          p3 := StoreBytes(line, p3, n, addr);
          addr := (addr + n) % 0x10000;
        } else {
          p3 := SkipBytes(line, p3, n);
          completed := typ == 1;
        }
        if addr > maxAddr {
          maxAddr := addr;
        }
        if !error {
          var _, p4 := NextByte(line, p3);
          error := checksum != 0;
        }
      }
    }

    /** read_hex_file, given what the file holds. */
    method ReadHexFile(file: string) returns (ok: bool)
      requires buffer.Length >= 2
      modifies this, buffer
      ensures Outcome(ok, buffer[..], maxAddr) == ReadFrom(file, false, old(buffer[..]), 0)
    {
      hide ReadLine, TakeLine;
      var rest := file;
      var atEnd, completed, error := false, false, false;
      maxAddr := 0;
      while !atEnd && !completed && !error
        invariant error ==> ReadFrom(file, false, old(buffer[..]), 0) == Outcome(false, buffer[..], maxAddr)
        invariant !error && completed ==> ReadFrom(file, false, old(buffer[..]), 0) == Marked(buffer[..], maxAddr)
        invariant !error && !completed ==>
          ReadFrom(file, false, old(buffer[..]), 0) == ReadFrom(rest, atEnd, buffer[..], maxAddr)
        decreases |rest|, !atEnd, !completed, !error
      {
        if rest == "" {
          return false;
        }
        var line := TakeLine(rest, 98);
        atEnd := |line| == |rest| && |line| < 98 && line[|line| - 1] != '\n';
        completed, error := ReadRecord(line);
        rest := rest[|line|..];
      }
      ok := !error && buffer[0] == 0xd7 && buffer[1] == 0xfb;
    }
  }

  lemma WrittenNone(mem: seq<Byte>, addr: nat)
    ensures Written(mem, addr, []) == mem
  {}

  lemma HeadBytes(line: string, c: Cursor)
    ensures var a := Hex2Byte(line, c);
      var b := Hex2Byte(line, a.1);
      var d := Hex2Byte(line, b.1);
      var e := Hex2Byte(line, d.1);
      HexBytes(line, c, 4).0 == [a.0, b.0, d.0, e.0] && HexBytes(line, c, 4).1 == e.1
  {
    hide Hex2Byte;
    var a := Hex2Byte(line, c);
    var b := Hex2Byte(line, a.1);
    var d := Hex2Byte(line, b.1);
    var e := Hex2Byte(line, d.1);
    assert HexBytes(line, d.1, 1).0 == [e.0] && HexBytes(line, d.1, 1).1 == e.1;
    assert HexBytes(line, b.1, 2).0 == [d.0, e.0] && HexBytes(line, b.1, 2).1 == e.1;
    assert HexBytes(line, a.1, 3).0 == [b.0, d.0, e.0] && HexBytes(line, a.1, 3).1 == e.1;
  }
}
