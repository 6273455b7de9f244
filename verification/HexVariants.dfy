/** Files that the writer does not make: cut short, in lower case, with other lines between the records
    (main/hexfile.c). */
module HexVariants {
  import opened HexRecords
  import opened Wrappers

  // ---- without the end record

  /** Whole records without an end record are not accepted, */
  lemma {:induction false} NoEnd(raws: seq<seq<Byte>>, mem: seq<Byte>, max: nat)
    requires (forall j | 0 <= j < |raws| :: Plain(raws[j])) && |mem| >= 2
    ensures !ReadFrom(Text(raws), false, mem, max).ok
  {
    hide ReadLine, Line, Plain, Marked;
    if raws != [] {
      PlainRecord(raws[0], mem, max);
      ReadText(raws, mem, max);
      var s := ReadLine(Line(raws[0]), mem, max);
      NoEnd(raws[1..], s.mem, s.max);
    }
  }

  lemma PlainRecord(raw: seq<Byte>, mem: seq<Byte>, max: nat)
    requires Plain(raw)
    ensures Sound(raw) && |raw| <= 21 && !ReadLine(Line(raw), mem, max).completed
  {
    ReadRaw(raw, mem, max);
  }

  /** so a written file that has lost records at its end is refused. */
  lemma LostRecords(code: seq<Byte>, n: nat, mem: seq<Byte>)
    requires |code| < 0x10000 && |mem| >= 2 && n < |Raws(code)|
    ensures !ReadFrom(Text(Raws(code)[..n]), false, mem, 0).ok
  {
    hide ReadFrom, Text, Raws, Plain;
    forall j | 0 <= j < n ensures Plain(Raws(code)[..n][j]) {
      RawsShape(code, j);
    }
    NoEnd(Raws(code)[..n], mem, 0);
  }

  // ---- without the last newline

  lemma ByteOfPrefix(short: string, long: string, c: Cursor)
    requires |short| <= |long| && long[..|short|] == short && '\0' !in short && c.p + 2 <= |short|
    ensures Hex2Byte(short, c) == Hex2Byte(long, c) && Hex2Byte(short, c).1.p == c.p + 2
  {
    assert forall i | 0 <= i < |short| :: At(short, i) == long[..|short|][i] == At(long, i);
  }

  lemma {:induction false} BytesOfPrefix(short: string, long: string, c: Cursor, n: nat)
    requires |short| <= |long| && long[..|short|] == short && '\0' !in short && c.p + 2 * n <= |short|
    ensures HexBytes(short, c, n) == HexBytes(long, c, n) && HexBytes(short, c, n).1.p == c.p + 2 * n
    decreases n
  {
    hide Hex2Byte;
    if n > 0 {
      ByteOfPrefix(short, long, c);
      BytesOfPrefix(short, long, Hex2Byte(short, c).1, n - 1);
    }
  }

  lemma {:induction false} HexNoNul(bytes: seq<Byte>)
    ensures '\0' !in Hex(bytes)
  {
    if bytes != [] {
      HexNoNul(bytes[1..]);
      DigitBack(bytes[0] / 16);
      DigitBack(bytes[0] % 16);
    }
  }

  lemma NewlineUnread(raw: seq<Byte>, mem: seq<Byte>, max: nat)
    requires Sound(raw)
    ensures ReadLine(":" + Hex(raw), mem, max) == ReadLine(Line(raw), mem, max)
  {
    hide HexBytes, Hex2Byte, Written, Hex;
    var short, long := ":" + Hex(raw), Line(raw);
    HexNoNul(raw);
    assert long[..|short|] == short;
    Cursors(raw);
    var c := Cursor(1, 0);
    BytesOfPrefix(short, long, c, 4);
    var head := HexBytes(long, c, 4).1;
    BytesOfPrefix(short, long, head, Count(raw));
    var data := HexBytes(long, head, Count(raw)).1;
    BytesOfPrefix(short, long, data, 1);
    OneByte(short, data);
    OneByte(long, data);
    assert At(short, 0) == ':' == At(long, 0);
  }

  lemma LastLine(last: seq<Byte>, mem: seq<Byte>, max: nat)
    requires Sound(last) && |mem| >= 2
    ensures var s := ReadLine(Line(last), mem, max);
      ReadFrom(":" + Hex(last), false, mem, max) ==
      if s.error then Outcome(false, s.mem, s.max) else Marked(s.mem, s.max)
  {
    hide ReadLine, Line, Marked;
    var line := ":" + Hex(last);
    HexPlain(last);
    NewlineUnread(last, mem, max);
    TakeWhole(line, 98);
    assert line[|line|..] == "";
  }

  lemma {:induction false} TakeWhole(s: string, limit: nat)
    requires '\n' !in s && |s| < limit
    ensures TakeLine(s, limit) == s
  {
    if s != "" {
      TakeWhole(s[1..], limit - 1);
    }
  }

  /** A last line without its newline needs no end record: it is read as if one came after it. */
  lemma {:induction false} NewlineEnds(raws: seq<seq<Byte>>, last: seq<Byte>, mem: seq<Byte>, max: nat)
    requires (forall j | 0 <= j < |raws| :: Plain(raws[j])) && Plain(last) && |mem| >= 2
    ensures ReadFrom(Text(raws) + (":" + Hex(last)), false, mem, max) ==
            ReadFrom(Text(raws + [last, Raw(0, 1, [])]), false, mem, max)
  {
    hide ReadLine, Line, Hex, ReadFrom, Raw, Marked, Plain;
    var end, line := Raw(0, 1, []), ":" + Hex(last);
    var all := raws + [last, end];
    if raws == [] {
      PlainRecord(last, mem, max);
      LastLine(last, mem, max);
      assert all == [last, end] && all[1..] == [end] && Text(raws) + line == line;
      ReadText(all, mem, max);
      var s := ReadLine(Line(last), mem, max);
      ReadEnd(s.mem, s.max);
    } else {
      PlainRecord(raws[0], mem, max);
      assert Text(raws) + line == Line(raws[0]) + (Text(raws[1..]) + line);
      ReadNext(raws[0], Text(raws[1..]) + line, mem, max);
      assert all[0] == raws[0] && all[1..] == raws[1..] + [last, end];
      ReadText(all, mem, max);
      var s := ReadLine(Line(raws[0]), mem, max);
      if !s.error {
        NewlineEnds(raws[1..], last, s.mem, s.max);
      }
    }
  }

  lemma {:induction false} ChunksCut(code: seq<Byte>, m: nat, pos: nat)
    requires pos <= m <= |code| < 0x10000 && pos % 16 == 0 && (m % 16 == 0 || m == |code|)
    ensures Chunks(code, pos) == Chunks(code[..m], pos) + Chunks(code, m)
    decreases m - pos
  {
    hide Raw;
    if pos < m {
      var e := End(code, pos);
      assert e == End(code[..m], pos) && code[..m][pos..e] == code[pos..e];
      if e % 16 == 0 {
        ChunksCut(code, m, e);
      }
    }
  }

  lemma RawsCut(code: seq<Byte>, m: nat)
    requires 0 < m <= |code| < 0x10000 && (m % 16 == 0 || m == |code|)
    ensures |Raws(code[..m])| >= 3 && Raws(code[..m])[..|Raws(code[..m])| - 1] <= Raws(code)
    ensures Raws(code[..m])[|Raws(code[..m])| - 1] == Raw(0, 1, [])
  {
    hide Raw;
    ChunksCut(code, m, 0);
    var kept, end := [Raw(0, 0, [])] + Chunks(code[..m], 0), [Raw(0, 1, [])];
    assert Raws(code[..m]) == kept + end;
    assert Raws(code) == kept + (Chunks(code, m) + end);
    assert (kept + end)[..|kept|] == kept;
  }

  /** A file's text up to the newline before its last record. */
  function Cut(raws: seq<seq<Byte>>): string
    requires |raws| >= 2
  {
    Text(raws[..|raws| - 2]) + (":" + Hex(raws[|raws| - 2]))
  }

  lemma CutEnds(raws: seq<seq<Byte>>, mem: seq<Byte>, max: nat)
    requires |raws| >= 2 && |mem| >= 2 && raws[|raws| - 1] == Raw(0, 1, [])
    requires forall j | 0 <= j < |raws| - 1 :: Plain(raws[j])
    ensures ReadFrom(Cut(raws), false, mem, max) == ReadFrom(Text(raws), false, mem, max)
  {
    hide Raw, ReadFrom, Text, Hex, Plain;
    var k := |raws| - 2;
    assert raws == raws[..k] + [raws[k], raws[k + 1]];
    NewlineEnds(raws[..k], raws[k], mem, max);
  }

  lemma CutRead(code: seq<Byte>, mem: seq<Byte>)
    requires 0 < |code| < 0x10000 && |code| <= |mem| && |mem| >= 2
    ensures |Raws(code)| >= 2 && ReadFrom(Cut(Raws(code)), false, mem, 0) == Marked(Store(mem, 0, code), |code|)
  {
    hide Raw, ReadFrom, Marked, Store, Text, Cut, Chunks, Plain;
    var raws := Raws(code);
    forall j | 0 <= j < |raws| - 1 ensures Plain(raws[j]) {
      RawsShape(code, j);
    }
    CutEnds(raws, mem, 0);
    RoundTrip(code, mem);
  }

  /** So a file that is cut between a data record and its newline is accepted, with a part of the code. */
  lemma CutAccepted(code: seq<Byte>, m: nat, mem: seq<Byte>)
    requires 0 < m <= |code| < 0x10000 && (m % 16 == 0 || m == |code|) && |code| <= |mem| && |mem| >= 2
    ensures var kept := Raws(code[..m]);
      && |kept| >= 3 && kept[..|kept| - 1] <= Raws(code)
      && ReadFrom(Cut(kept), false, mem, 0) == Marked(Store(mem, 0, code[..m]), m)
  {
    hide Raw, ReadFrom, Marked, Store, Text, Cut, Raws;
    RawsCut(code, m);
    CutRead(code[..m], mem);
  }

  // ---- lower case

  /** Equal up to the case of hex digits. */
  ghost predicate SameChar(a: char, b: char) {
    a == b || ('a' <= a <= 'f' && b as int == a as int - 'a' as int + 'A' as int)
  }

  ghost predicate SameText(s: string, t: string) {
    |s| == |t| && forall i | 0 <= i < |s| :: SameChar(s[i], t[i])
  }

  lemma SameByte(s: string, t: string, c: Cursor)
    requires SameText(s, t)
    ensures Hex2Byte(s, c) == Hex2Byte(t, c)
  {
    assert SameChar(At(s, c.p), At(t, c.p)) && SameChar(At(s, c.p + 1), At(t, c.p + 1));
  }

  lemma {:induction false} SameBytes(s: string, t: string, c: Cursor, n: nat)
    requires SameText(s, t)
    ensures HexBytes(s, c, n) == HexBytes(t, c, n)
    decreases n
  {
    hide Hex2Byte, SameText;
    if n > 0 {
      SameByte(s, t, c);
      SameBytes(s, t, Hex2Byte(s, c).1, n - 1);
    }
  }

  lemma {:induction false} SameSpaces(s: string, t: string, p: nat)
    requires SameText(s, t)
    ensures SkipSpaces(s, p) == SkipSpaces(t, p)
    decreases |s| - p
  {
    if p < |s| {
      assert SameChar(s[p], t[p]);
      if s[p] == ' ' {
        SameSpaces(s, t, p + 1);
      }
    }
  }

  lemma SameLine(s: string, t: string, mem: seq<Byte>, max: nat)
    requires SameText(s, t)
    ensures ReadLine(s, mem, max) == ReadLine(t, mem, max)
  {
    hide Hex2Byte, HexBytes, SkipSpaces, Written;
    SameSpaces(s, t, 0);
    var p := SkipSpaces(s, 0);
    assert SameChar(At(s, p), At(t, p));
    SameBytes(s, t, Cursor(p + 1, 0), 4);
    var head := HexBytes(s, Cursor(p + 1, 0), 4);
    SameBytes(s, t, head.1, head.0[0]);
    SameByte(s, t, HexBytes(s, head.1, head.0[0]).1);
  }

  lemma SameRest(s: string, t: string, n: nat)
    requires SameText(s, t) && n <= |s|
    ensures SameText(s[n..], t[n..])
  {
    forall i | 0 <= i < |s| - n ensures SameChar(s[n..][i], t[n..][i]) {
      assert s[n..][i] == s[n + i] && t[n..][i] == t[n + i];
    }
  }

  lemma {:induction false} SameTake(s: string, t: string, limit: nat)
    requires SameText(s, t)
    ensures SameText(TakeLine(s, limit), TakeLine(t, limit))
    decreases limit
  {
    if s != "" && limit > 0 {
      assert SameChar(s[0], t[0]);
      SameRest(s, t, 1);
      SameTake(s[1..], t[1..], limit - 1);
    }
  }

  /** The case of hex digits does not matter, in any file. */
  lemma {:induction false} CaseFree(s: string, t: string, atEnd: bool, mem: seq<Byte>, max: nat)
    requires SameText(s, t) && |mem| >= 2
    ensures ReadFrom(s, atEnd, mem, max) == ReadFrom(t, atEnd, mem, max)
    decreases |s|
  {
    hide ReadLine, Marked, TakeLine;
    if !atEnd && s != "" {
      var line, line' := TakeLine(s, 98), TakeLine(t, 98);
      SameTake(s, t, 98);
      SameLine(line, line', mem, max);
      var n := |line|;
      assert SameChar(line[n - 1], line'[n - 1]);
      SameRest(s, t, n);
      var r := ReadLine(line, mem, max);
      CaseFree(s[n..], t[n..], n == |s| && n < 98 && line[n - 1] != '\n', r.mem, r.max);
    }
  }

  // ---- other lines

  /** A line that does not start a record is passed over. */
  lemma Ignored(line: string, tail: string, mem: seq<Byte>, max: nat)
    requires '\n' !in line && |line| < 98 && |mem| >= 2 && At(line, SkipSpaces(line, 0)) != ':'
    ensures ReadFrom(line + "\n" + tail, false, mem, max) == ReadFrom(tail, false, mem, max)
  {
    hide SkipSpaces, Marked, HexBytes, Hex2Byte, Written;
    TakeLineOf(line, tail, 98);
    Spaces(line, "\n", 0);
    assert (line + "\n" + tail)[|line + "\n"|..] == tail;
  }

  lemma {:induction false} Spaces(line: string, more: string, p: nat)
    requires p <= |line| && |more| > 0 && more[0] != ' '
    ensures SkipSpaces(line + more, p) == SkipSpaces(line, p) <= |line|
    decreases |line| - p
  {
    if p < |line| && line[p] == ' ' {
      Spaces(line, more, p + 1);
    }
  }
}
