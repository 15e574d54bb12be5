/** The binary writer and the loader as they run: an offset table filled in a first pass, bytes appended in
    a second, and a cursor that readers advance. */
module Emit {
  import opened Values
  import opened Bytes
  import opened Machine
  import opened Encode
  import opened ModuleFile

  /** `encode_func`. */
  method EncodeFunc(code: seq<Instr>) returns (bytes: seq<Byte>)
    requires Closed(code)
    ensures bytes == EncodeCode(code)
  {
    hide EncodeAt, Closed, Off;
    var off := Offsets(code);
    bytes := [];
    for i := 0 to |code|
      invariant bytes == EncodeTo(code, i)
      invariant forall j :: 0 <= j < |code| ==> off[j] == Off(code, j)
    {
      var one := EncodeOne(code, i, off);
      bytes := bytes + one;
    }
  }

  /** The first pass. */
  method Offsets(code: seq<Instr>) returns (off: array<nat>)
    ensures fresh(off) && off.Length == |code| && forall j :: 0 <= j < |code| ==> off[j] == Off(code, j)
  {
    hide Size;
    off := new nat[|code|];
    var total := 0;
    for i := 0 to |code|
      invariant total == Off(code, i)
      invariant forall j :: 0 <= j < i ==> off[j] == Off(code, j)
    {
      off[i] := total;
      total := total + Size(code[i]);
    }
  }

  /** Serialises instruction `i`, turning a target index into a distance. */
  method EncodeOne(code: seq<Instr>, i: nat, off: array<nat>) returns (bytes: seq<Byte>)
    requires Closed(code) && i < |code| && off.Length == |code|
    requires forall j :: 0 <= j < |code| ==> off[j] == Off(code, j)
    ensures bytes == EncodeAt(code, i)
  {
    var instr := code[i];
    var hereNext := off[i] + Size(instr);
    assert InRange(instr, |code|);
    bytes := [OpCode(instr)];
    match instr
    case OpPushC(c) => bytes := bytes + PutU32(c);
    case OpPushI(v) => bytes := bytes + PutI32(v);
    case OpLoadL(s) => bytes := bytes + PutU16(s);
    case OpStoreL(s) => bytes := bytes + PutU16(s);
    case OpCall(f, argc) => bytes := bytes + (PutU16(f) + [argc % 256]);
    case OpJmp(t) => bytes := bytes + PutI32(off[t] - hereNext);
    case OpJz(t) => bytes := bytes + PutI32(off[t] - hereNext);
    case _ => bytes := bytes + [];
  }

  /** `emit_module`. */
  method EmitModule(image: Image) returns (out: seq<Byte>)
    requires AllClosed(image.funcs)
    ensures out == EmitBytes(image)
  {
    hide PutConst, PutFunc, Bytes.Put;
    out := MAGIC + PutU32(|image.consts|);
    ghost var out0 := out;
    for i := 0 to |image.consts|
      invariant out + PutConsts(image.consts[i..]) == out0 + PutConsts(image.consts)
    {
      assert image.consts[i..][1..] == image.consts[i + 1..];
      out := out + PutConst(image.consts[i]);
    }
    assert image.consts[|image.consts|..] == [];
    assert out + [] == out;
    out := out + PutU32(|image.funcs|) + PutU32(if image.entry < 0 then 0 else image.entry);
    out0 := out;
    for i := 0 to |image.funcs|
      invariant out + PutFuncs(image.funcs[i..]) == out0 + PutFuncs(image.funcs)
    {
      assert image.funcs[i..][1..] == image.funcs[i + 1..];
      var one := EmitFunc(image.funcs[i]);
      out := out + one;
    }
    assert image.funcs[|image.funcs|..] == [];
    assert out + [] == out;
  }

  method EmitFunc(f: Routine) returns (bytes: seq<Byte>)
    requires Closed(f.code)
    ensures bytes == PutFunc(f)
  {
    hide EncodeCode, Bytes.Put;
    var code := EncodeFunc(f.code);
    bytes := PutU16(|f.name|) + PutName(f.name) + PutU16(f.nparams) + PutU16(f.nlocals) + PutU32(|code|) + code;
  }

  /** The loader's cursor; it may be moved past the end, where every checked read fails. */
  class Cursor {
    const buf: seq<Byte>
    var p: nat

    constructor (buf: seq<Byte>)
      ensures this.buf == buf && p == 0
    {
      this.buf := buf;
      p := 0;
    }

    function Rest(): seq<Byte>
      reads this
    {
      Skip(p, buf)
    }

    /** `rd_u16`, `rd_u32`, `rd_i64`: `None` is `die("truncated bytecode")`. */
    method ReadField(n: nat) returns (v: Option<nat>)
      requires n > 0
      modifies this
      ensures match Read(n, old(Rest()))
              case Rd(x, rest) => v == Some(x) && Rest() == rest
              case _ => v == None
    {
      if p + n > |buf| { return None; }
      v := Some(Get(buf[p..p + n]));
      assert buf[p..][..n] == buf[p..p + n];
      p := p + n;
    }

    method Move(n: nat)
      modifies this
      ensures Rest() == Skip(n, old(Rest()))
    {
      p := p + n;
    }
  }

  /** One constant: tag, padding, value. */
  method LoadConst(c: Cursor) returns (r: Rd<Const>)
    modifies c
    ensures r == ReadConst(old(c.Rest()))
    ensures r.Rd? ==> c.Rest() == r.rest
  {
    hide Read;
    if c.p >= |c.buf| { return Overrun; }
    var tag := c.buf[c.p];
    c.Move(8);
    var raw := c.ReadField(8);
    if raw.None? { ReadFails(8, Skip(8, old(c.Rest()))); return Die(Truncated); }
    r := Rd(if tag == 0 then CInt(Signed(raw.value % TWO_64)) else CDbl(raw.value % TWO_64), c.Rest());
  }

  /** A checked read either succeeds or dies. */
  lemma ReadFails(n: nat, s: seq<Byte>)
    ensures !Read(n, s).Rd? ==> Read(n, s) == Die(Truncated)
  {
  }

  lemma SkipInside(n: nat, s: seq<Byte>)
    requires n <= |s|
    ensures Skip(n, s) == s[n..]
  {
  }

  method LoadFunc(c: Cursor) returns (r: Rd<LFunc>)
    modifies c
    ensures r == ReadFunc(old(c.Rest()))
    ensures r.Rd? ==> c.Rest() == r.rest
  {
    hide Read, Skip, NameOf, Cursor.Rest;
    ReadFails(2, c.Rest());
    var nlen := c.ReadField(2);
    if nlen.None? { return Die(Truncated); }
    var kept := if nlen.value < 63 then nlen.value else 63;
    if kept > |c.Rest()| { return Overrun; }
    var name := NameOf(c.Rest()[..kept]);
    c.Move(nlen.value);
    ReadFails(2, c.Rest());
    var nparams := c.ReadField(2);
    if nparams.None? { return Die(Truncated); }
    ReadFails(2, c.Rest());
    var nlocals := c.ReadField(2);
    if nlocals.None? { return Die(Truncated); }
    ReadFails(4, c.Rest());
    var len := c.ReadField(4);
    if len.None? { return Die(Truncated); }
    if len.value > |c.Rest()| { return Overrun; }
    var code := c.Rest()[..len.value];
    SkipInside(len.value, c.Rest());
    c.Move(len.value);
    r := Rd(LFunc(name, nparams.value, nlocals.value, code), c.Rest());
  }

  /** Puts what has been read in front of what is still to come. */
  function Prepend<T>(xs: seq<T>, r: Rd<seq<T>>): Rd<seq<T>> {
    if r.Rd? then Rd(xs + r.v, r.rest) else r
  }

  method LoadConsts(c: Cursor, n: nat) returns (r: Rd<seq<Const>>)
    modifies c
    ensures r == ReadConsts(n, old(c.Rest()))
    ensures r.Rd? ==> c.Rest() == r.rest
  {
    hide ReadConst;
    var cs: seq<Const> := [];
    ghost var whole := ReadConsts(n, c.Rest());
    if whole.Rd? { assert [] + whole.v == whole.v; }
    for i := 0 to n
      invariant Prepend(cs, ReadConsts(n - i, c.Rest())) == whole
    {
      var one := LoadConst(c);
      if one.IsFailure() { return one.PropagateFailure(); }
      ghost var later := ReadConsts(n - i - 1, c.Rest());
      if later.Rd? { assert cs + ([one.v] + later.v) == cs + [one.v] + later.v; }
      cs := cs + [one.v];
    }
    assert cs + [] == cs;
    r := Rd(cs, c.Rest());
  }

  method LoadFuncs(c: Cursor, n: nat) returns (r: Rd<seq<LFunc>>)
    modifies c
    ensures r == ReadFuncs(n, old(c.Rest()))
    ensures r.Rd? ==> c.Rest() == r.rest
  {
    hide ReadFunc;
    var fs: seq<LFunc> := [];
    ghost var whole := ReadFuncs(n, c.Rest());
    if whole.Rd? { assert [] + whole.v == whole.v; }
    for i := 0 to n
      invariant Prepend(fs, ReadFuncs(n - i, c.Rest())) == whole
    {
      var one := LoadFunc(c);
      if one.IsFailure() { return one.PropagateFailure(); }
      ghost var later := ReadFuncs(n - i - 1, c.Rest());
      if later.Rd? { assert fs + ([one.v] + later.v) == fs + [one.v] + later.v; }
      fs := fs + [one.v];
    }
    assert fs + [] == fs;
    r := Rd(fs, c.Rest());
  }

  /** `load_prog` on the bytes of the file. */
  method LoadProg(buf: seq<Byte>) returns (r: Rd<Prog>)
    ensures r == LoadBytes(buf)
  {
    hide Read, ReadConsts, ReadFuncs;
    if |buf| < 4 || buf[..4] != MAGIC { return Die(BadMagic); }
    var c := new Cursor(buf);
    c.Move(4);
    ReadFails(4, c.Rest());
    var nconsts := c.ReadField(4);
    if nconsts.None? { return Die(Truncated); }
    var consts := LoadConsts(c, nconsts.value);
    if consts.IsFailure() { return consts.PropagateFailure(); }
    ReadFails(4, c.Rest());
    var nfuncs := c.ReadField(4);
    if nfuncs.None? { return Die(Truncated); }
    ReadFails(4, c.Rest());
    var entry := c.ReadField(4);
    if entry.None? { return Die(Truncated); }
    var funcs := LoadFuncs(c, nfuncs.value);
    if funcs.IsFailure() { return funcs.PropagateFailure(); }
    r := Rd(Prog(consts.v, funcs.v, entry.value), c.Rest());
  }
}
