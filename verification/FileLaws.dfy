/** The file format on its bytes: what a loader rejects, in which order bytes and opcode numbers stand, and one whole
    file written out. */
module FileLaws {
  import opened Values
  import opened Bytes
  import opened Machine
  import opened Encode
  import opened ModuleFile

  // ----- files that are no modules -----

  /** The loader reports a bad magic number exactly when the file does not begin with the characters `BVM1`. */
  lemma MagicNeeded(buf: seq<Byte>)
    ensures LoadBytes(buf) == Die(BadMagic) <==>
            !(|buf| >= 4 && buf[0] as char == 'B' && buf[1] as char == 'V' && buf[2] as char == 'M'
              && buf[3] as char == '1')
  {
    hide ReadConsts, ReadFuncs, Bytes.Get;
    if |buf| >= 4 {
      assert buf[..4] == [buf[0], buf[1], buf[2], buf[3]];
      forall n, s ensures ReadConsts(n, s) != Die(BadMagic) { ConstsDie(n, s); }
      forall n, s ensures ReadFuncs(n, s) != Die(BadMagic) { FuncsDie(n, s); }
    }
  }

  lemma {:induction false} ConstsDie(n: nat, s: seq<Byte>)
    ensures var r := ReadConsts(n, s); r.Die? ==> r.msg == Truncated
  {
    hide Bytes.Get;
    if n > 0 {
      var c := ReadConst(s);
      if c.Rd? { ConstsDie(n - 1, c.rest); }
    }
  }

  lemma {:induction false} FuncsDie(n: nat, s: seq<Byte>)
    ensures var r := ReadFuncs(n, s); r.Die? ==> r.msg == Truncated
  {
    hide Bytes.Get;
    if n > 0 {
      var f := ReadFunc(s);
      if f.Rd? { FuncsDie(n - 1, f.rest); }
    }
  }

  // ----- files cut short -----

  /** What a reader makes of a text it also makes of a longer one, and leaves the addition behind. */
  lemma MoreToRead(n: nat, s: seq<Byte>, t: seq<Byte>)
    ensures var r := Read(n, s); r.Rd? ==> Read(n, s + t) == Rd(r.v, r.rest + t)
  {
    hide Bytes.Get;
    if n <= |s| { assert (s + t)[..n] == s[..n] && (s + t)[n..] == s[n..] + t; }
  }

  lemma MoreToSkip(n: nat, s: seq<Byte>, t: seq<Byte>)
    requires n <= |s|
    ensures Skip(n, s + t) == Skip(n, s) + t
  {
  }

  lemma MoreConst(s: seq<Byte>, t: seq<Byte>)
    ensures var r := ReadConst(s); r.Rd? ==> ReadConst(s + t) == Rd(r.v, r.rest + t)
  {
    hide Read;
    if ReadConst(s).Rd? {
      assert |s| >= 8 by { NothingToRead(8, s); }
      MoreToSkip(8, s, t);
      MoreToRead(8, Skip(8, s), t);
    }
  }

  /** Nothing can be read where too much was skipped. */
  lemma NothingToRead(n: nat, s: seq<Byte>)
    ensures n > |s| ==> Read(8, Skip(n, s)).Die? && Read(2, Skip(n, s)).Die?
  {
  }

  lemma {:induction false} MoreConsts(n: nat, s: seq<Byte>, t: seq<Byte>)
    ensures var r := ReadConsts(n, s); r.Rd? ==> ReadConsts(n, s + t) == Rd(r.v, r.rest + t)
  {
    hide ReadConst;
    if n > 0 {
      MoreConst(s, t);
      var c := ReadConst(s);
      if c.Rd? { MoreConsts(n - 1, c.rest, t); }
    }
  }

  lemma MoreFunc(s: seq<Byte>, t: seq<Byte>)
    ensures var r := ReadFunc(s); r.Rd? ==> ReadFunc(s + t) == Rd(r.v, r.rest + t)
  {
    hide Read, NameOf;
    var r := ReadFunc(s);
    if r.Rd? {
      MoreToRead(2, s, t);
      var nlen := Read(2, s);
      var s1 := nlen.rest;
      var kept := if nlen.v < 63 then nlen.v else 63;
      NothingToRead(nlen.v, s1);
      MoreToSkip(nlen.v, s1, t);
      assert (s1 + t)[..kept] == s1[..kept];
      var s2 := Skip(nlen.v, s1);
      MoreToRead(2, s2, t);
      var s3 := Read(2, s2).rest;
      MoreToRead(2, s3, t);
      var s4 := Read(2, s3).rest;
      MoreToRead(4, s4, t);
      var len := Read(4, s4);
      assert (len.rest + t)[..len.v] == len.rest[..len.v] && (len.rest + t)[len.v..] == len.rest[len.v..] + t;
    }
  }

  lemma {:induction false} MoreFuncs(n: nat, s: seq<Byte>, t: seq<Byte>)
    ensures var r := ReadFuncs(n, s); r.Rd? ==> ReadFuncs(n, s + t) == Rd(r.v, r.rest + t)
  {
    hide ReadFunc;
    if n > 0 {
      MoreFunc(s, t);
      var f := ReadFunc(s);
      if f.Rd? { MoreFuncs(n - 1, f.rest, t); }
    }
  }

  /** Bytes behind a file that loads are ignored. */
  lemma MoreIsIgnored(buf: seq<Byte>, t: seq<Byte>)
    ensures var r := LoadBytes(buf); r.Rd? ==> LoadBytes(buf + t) == Rd(r.v, r.rest + t)
  {
    hide Read, ReadConsts, ReadFuncs;
    if LoadBytes(buf).Rd? {
      assert (buf + t)[..4] == buf[..4] && (buf + t)[4..] == buf[4..] + t;
      MoreToRead(4, buf[4..], t);
      var a := Read(4, buf[4..]);
      MoreConsts(a.v, a.rest, t);
      var b := ReadConsts(a.v, a.rest);
      MoreToRead(4, b.rest, t);
      var c := Read(4, b.rest);
      MoreToRead(4, c.rest, t);
      var d := Read(4, c.rest);
      MoreFuncs(c.v, d.rest, t);
    }
  }

  /** A written file cut short anywhere is not accepted. */
  lemma CutFileIsRejected(image: Image, n: nat)
    requires ModuleFile.Writable(image) && n < |EmitBytes(image)|
    ensures !LoadBytes(EmitBytes(image)[..n]).Rd?
  {
    hide LoadBytes, EmitBytes;
    var file := EmitBytes(image);
    LoadEmit(image);
    MoreIsIgnored(file[..n], file[n..]);
    assert file[..n] + file[n..] == file;
  }

  // ----- the order of bytes -----

  /** The low byte comes first, and the low half of eight bytes. */
  lemma LowByteFirst(a: Byte, b: Byte, c: Byte, d: Byte)
    ensures Get([a, b]) == a + 0x100 * b
    ensures Get([a, b, c, d]) == a + 0x100 * b + 0x1_0000 * c + 0x100_0000 * d
  {
    assert [d][1..] == [] && [c, d][1..] == [d] && [b, c, d][1..] == [c, d] && [a, b, c, d][1..] == [b, c, d];
    assert [b][1..] == [] && [a, b][1..] == [b];
    assert Get([d]) == d && Get([c, d]) == c + 0x100 * d;
  }

  lemma LowHalfFirst(bs: seq<Byte>)
    requires |bs| == 8
    ensures Get(bs) == Get(bs[..4]) + 0x1_0000_0000 * Get(bs[4..])
  {
    var rest := bs[4..];
    LowByteFirst(bs[0], bs[1], bs[2], bs[3]);
    assert bs[..4] == [bs[0], bs[1], bs[2], bs[3]];
    assert bs == [bs[0]] + ([bs[1]] + ([bs[2]] + ([bs[3]] + rest)));
    OneByte(bs[3], rest);
    OneByte(bs[2], [bs[3]] + rest);
    OneByte(bs[1], [bs[2]] + ([bs[3]] + rest));
    OneByte(bs[0], [bs[1]] + ([bs[2]] + ([bs[3]] + rest)));
  }

  lemma OneByte(b: Byte, bs: seq<Byte>)
    ensures Get([b] + bs) == b + 0x100 * Get(bs)
  {
    assert ([b] + bs)[1..] == bs;
  }

  /** A constant: its tag, seven zeroes, and its 64 bits. */
  lemma ConstBytes(c: Const)
    ensures var bs := PutConst(c);
            && |bs| == 16 && bs[0] == (if c.CInt? then 0 else 1) && (forall k :: 1 <= k < 8 ==> bs[k] == 0)
            && Get(bs[8..]) == if c.CInt? then c.i % TWO_64 else c.d
  {
    hide Bytes.Put, Bytes.Get, Bytes.Pow256;
    var bits: nat := if c.CInt? then c.i % TWO_64 else c.d;
    Widths();
    GetPut(8, bits);
    assert PutConst(c)[8..] == Put(8, bits);
  }

  // ----- opcodes -----

  /** The instructions in the order of the format's enumeration, with every operand 0. */
  const ENUMERATION: seq<Instr> := [
    OpPushC(0), OpPushI(0), OpLoadL(0), OpStoreL(0), OpBin(Add), OpBin(Sub), OpBin(Mul), OpBin(Div), OpNeg,
    OpBin(Lt), OpBin(Gt), OpBin(Le), OpBin(Ge), OpBin(Eq), OpBin(Ne), OpI2D, OpD2I, OpJmp(0), OpJz(0), OpCall(0, 0),
    OpRet, OpRetV, OpNewArr, OpALoad, OpAStore, OpPrint, OpPop, OpHalt]

  function WithoutOperands(i: Instr): Instr {
    match i
    case OpPushC(_) => OpPushC(0)
    case OpPushI(_) => OpPushI(0)
    case OpLoadL(_) => OpLoadL(0)
    case OpStoreL(_) => OpStoreL(0)
    case OpJmp(_) => OpJmp(0)
    case OpJz(_) => OpJz(0)
    case OpCall(_, _) => OpCall(0, 0)
    case _ => i
  }

  /** Its number is an instruction's place in the enumeration. */
  lemma OpcodesInOrder(i: Instr)
    ensures OpCode(i) < |ENUMERATION| == 28 && ENUMERATION[OpCode(i)] == WithoutOperands(i)
  {
  }

  /** A jump's operand is the way from the byte behind it to its target. */
  lemma JumpBytes(code: seq<Instr>, k: nat)
    requires k < |code| && Encodable(code) && (code[k].OpJmp? || code[k].OpJz?)
    ensures var p, t := Off(code, k), Off(code, code[k].target);
            p + 5 <= |EncodeCode(code)| && EncodeCode(code)[p + 1..p + 5] == Put(4, (t - (p + 5)) % TWO_32)
  {
    hide Bytes.Put, EncodeAt, EncodeTo;
    EncodedAt(code, k, |code|);
    JumpEncoded(code, k);
    var p := Off(code, k);
    assert EncodeCode(code)[p + 1..p + 5] == EncodeCode(code)[p..p + 5][1..];
  }

  lemma JumpEncoded(code: seq<Instr>, k: nat)
    requires k < |code| && Closed(code) && (code[k].OpJmp? || code[k].OpJz?)
    ensures InRange(code[k], |code|) && Off(code, k + 1) == Off(code, k) + 5
    ensures EncodeAt(code, k)[1..] == Put(4, (Off(code, code[k].target) - (Off(code, k) + 5)) % TWO_32)
  {
    hide Bytes.Put;
    assert InRange(code[k], |code|);
  }

  // ----- one file -----

  const CODE: seq<Instr> := [OpPushI(1), OpRet, OpPushI(0), OpRet]

  /** `int main() { return 1; }`: the file, byte for byte. */
  lemma OneFile()
    ensures Closed(CODE)
    ensures EmitBytes(Image([], [Routine("main", 0, 0, CODE)], 0)) ==
            [66, 86, 77, 49] + [0, 0, 0, 0] + [1, 0, 0, 0] + [0, 0, 0, 0]
            + ([4, 0] + [109, 97, 105, 110] + [0, 0] + [0, 0] + [12, 0, 0, 0]
               + ([1, 1, 0, 0, 0] + [20] + [1, 0, 0, 0, 0] + [20]))
  {
    hide Bytes.Put, PutFunc;
    var f := Routine("main", 0, 0, CODE);
    OneFunc();
    SmallNumbers();
    assert [f][1..] == [];
    assert PutFuncs([f]) == PutFunc(f) + [];
    assert PutFuncs([f]) == PutFunc(f);
  }

  lemma OneFunc()
    ensures Closed(CODE)
    ensures PutFunc(Routine("main", 0, 0, CODE)) ==
            [4, 0] + [109, 97, 105, 110] + [0, 0] + [0, 0] + [12, 0, 0, 0]
            + ([1, 1, 0, 0, 0] + [20] + [1, 0, 0, 0, 0] + [20])
  {
    hide Bytes.Put, EncodeTo;
    OneCode();
    SmallNumbers();
    assert PutName("main") == [109, 97, 105, 110];
  }

  lemma OneCode()
    ensures Closed(CODE) && EncodeCode(CODE) == [1, 1, 0, 0, 0] + [20] + [1, 0, 0, 0, 0] + [20]
  {
    hide Bytes.Put;
    SmallNumbers();
    assert EncodeTo(CODE, 0) == [];
    assert EncodeTo(CODE, 1) == [1, 1, 0, 0, 0];
    assert EncodeTo(CODE, 2) == [1, 1, 0, 0, 0] + [20];
    assert EncodeTo(CODE, 3) == [1, 1, 0, 0, 0] + [20] + [1, 0, 0, 0, 0];
  }

  lemma SmallNumbers()
    ensures Put(4, 1) == [1, 0, 0, 0] && Put(4, 0) == [0, 0, 0, 0] && Put(4, 12) == [12, 0, 0, 0]
    ensures Put(2, 0) == [0, 0] && Put(2, 4) == [4, 0]
  {
    assert Put(1, 0) == [0] && Put(2, 0) == [0, 0] && Put(3, 0) == [0, 0, 0];
  }
}
