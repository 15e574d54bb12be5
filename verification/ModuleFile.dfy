/** The .bvm file: what `emit_module` writes and what `load_prog` reads back. */
module ModuleFile {
  import opened Values
  import opened Bytes
  import opened Machine
  import opened Encode

  // ----- writing -----

  const MAGIC: seq<Byte> := [66, 86, 77, 49]

  function PutConst(c: Const): (bs: seq<Byte>)
    ensures |bs| == 16
  {
    match c
    case CInt(i) => [0] + Zeros(7) + PutI64(i)
    case CDbl(d) => [1] + Zeros(7) + Put(8, d)
  }

  function Zeros(n: nat): (bs: seq<Byte>) ensures |bs| == n { seq(n, _ => 0) }

  function PutName(name: string): (bs: seq<Byte>)
    ensures |bs| == |name|
  {
    seq(|name|, i requires 0 <= i < |name| => name[i] as int % 256)
  }

  function PutFunc(f: Routine): seq<Byte>
    requires Closed(f.code)
  {
    var code := EncodeCode(f.code);
    PutU16(|f.name|) + PutName(f.name) + PutU16(f.nparams) + PutU16(f.nlocals) + PutU32(|code|) + code
  }

  function PutConsts(cs: seq<Const>): seq<Byte> {
    if cs == [] then [] else PutConst(cs[0]) + PutConsts(cs[1..])
  }

  predicate AllClosed(fs: seq<Routine>) {
    forall i :: 0 <= i < |fs| ==> Closed(fs[i].code)
  }

  function PutFuncs(fs: seq<Routine>): seq<Byte>
    requires AllClosed(fs)
  {
    if fs == [] then [] else PutFunc(fs[0]) + PutFuncs(fs[1..])
  }

  /** A module without `main` is written with entry 0. */
  function WrittenEntry(image: Image): nat {
    if image.entry < 0 then 0 else image.entry
  }

  function EmitBytes(image: Image): seq<Byte>
    requires AllClosed(image.funcs)
  {
    MAGIC + PutU32(|image.consts|) + PutConsts(image.consts)
    + PutU32(|image.funcs|) + PutU32(WrittenEntry(image)) + PutFuncs(image.funcs)
  }

  // ----- reading -----

  /** A value read and what is left, `die`, or a read outside the buffer that the loader does not check. */
  datatype Rd<+T> = Rd(v: T, rest: seq<Byte>) | Die(msg: Msg) | Overrun {
    predicate IsFailure() { !Rd? }

    function PropagateFailure<U>(): Rd<U>
      requires IsFailure()
    {
      match this case Die(m) => Die(m) case _ => Overrun
    }

    function Extract(): (T, seq<Byte>)
      requires Rd?
    {
      (v, rest)
    }
  }

  /** `rd_u16`, `rd_u32` and the bits of `rd_i64`. */
  function Read(n: nat, s: seq<Byte>): (r: Rd<nat>)
    ensures r.Rd? ==> |r.rest| + n == |s|
  {
    if |s| < n then Die(Truncated) else Rd(Get(s[..n]), s[n..])
  }

  function Skip(n: nat, s: seq<Byte>): (rest: seq<Byte>)
    ensures |rest| <= |s|
  {
    if n <= |s| then s[n..] else []
  }

  function ReadConst(s: seq<Byte>): (r: Rd<Const>)
    ensures r.Rd? ==> |r.rest| < |s|
  {
    if s == [] then Overrun
    else
      var (raw, rest) :- Read(8, Skip(8, s));
      Rd(if s[0] == 0 then CInt(Signed(raw % TWO_64)) else CDbl(raw % TWO_64), rest)
  }

  function ReadConsts(n: nat, s: seq<Byte>): Rd<seq<Const>> {
    if n == 0 then Rd([], s)
    else
      var (c, s1) :- ReadConst(s);
      var (cs, s2) :- ReadConsts(n - 1, s1);
      Rd([c] + cs, s2)
  }

  function NameOf(bs: seq<Byte>): string {
    seq(|bs|, i requires 0 <= i < |bs| => bs[i] as char)
  }

  function ReadFunc(s: seq<Byte>): (r: Rd<LFunc>)
    ensures r.Rd? ==> |r.rest| < |s|
  {
    var (nlen, s1) :- Read(2, s);
    var kept := if nlen < 63 then nlen else 63;
    if |s1| < kept then Overrun
    else
      var (nparams, s2) :- Read(2, Skip(nlen, s1));
      var (nlocals, s3) :- Read(2, s2);
      var (len, s4) :- Read(4, s3);
      if |s4| < len then Overrun
      else Rd(LFunc(NameOf(s1[..kept]), nparams, nlocals, s4[..len]), s4[len..])
  }

  function ReadFuncs(n: nat, s: seq<Byte>): Rd<seq<LFunc>> {
    if n == 0 then Rd([], s)
    else
      var (f, s1) :- ReadFunc(s);
      var (fs, s2) :- ReadFuncs(n - 1, s1);
      Rd([f] + fs, s2)
  }

  /** `load_prog` on the file's bytes. */
  function LoadBytes(buf: seq<Byte>): Rd<Prog> {
    if |buf| < 4 || buf[..4] != MAGIC then Die(BadMagic)
    else
      var (nconsts, s1) :- Read(4, buf[4..]);
      var (consts, s2) :- ReadConsts(nconsts, s1);
      var (nfuncs, s3) :- Read(4, s2);
      var (entry, s4) :- Read(4, s3);
      var (funcs, s5) :- ReadFuncs(nfuncs, s4);
      Rd(Prog(consts, funcs, entry), s5)
  }

  // ----- round trip -----

  predicate ConstFits(c: Const) {
    c.CInt? ==> -TWO_63 <= c.i < TWO_63
  }

  ghost predicate FuncFits(f: Routine) {
    && |f.name| <= 63 && (forall i :: 0 <= i < |f.name| ==> f.name[i] as int < 256)
    && f.nparams < TWO_16 && f.nlocals < TWO_16
    && Encodable(f.code)
  }

  /** Every number of the module fits the field it is written to. */
  ghost predicate Writable(image: Image) {
    && |image.consts| < TWO_32 && |image.funcs| < TWO_32
    && image.entry < |image.funcs|
    && (forall i :: 0 <= i < |image.consts| ==> ConstFits(image.consts[i]))
    && (forall i :: 0 <= i < |image.funcs| ==> FuncFits(image.funcs[i]))
  }

  /** The program a module denotes once its code is encoded. */
  ghost function Encoded(f: Routine): LFunc
    requires Closed(f.code)
  {
    LFunc(f.name, f.nparams, f.nlocals, EncodeCode(f.code))
  }

  ghost function EncodedAll(fs: seq<Routine>): seq<LFunc>
    requires AllClosed(fs)
  {
    seq(|fs|, i requires 0 <= i < |fs| => Encoded(fs[i]))
  }

  lemma ReadPut(n: nat, v: nat, rest: seq<Byte>)
    requires v < Pow256(n)
    ensures Read(n, Put(n, v) + rest) == Rd(v, rest)
  {
    GetPut(n, v);
    var s := Put(n, v) + rest;
    assert s[..n] == Put(n, v) && s[n..] == rest;
  }

  lemma {:induction false} ReadPutConst(c: Const, rest: seq<Byte>)
    requires ConstFits(c)
    ensures ReadConst(PutConst(c) + rest) == Rd(c, rest)
  {
    hide Bytes.Get, Bytes.Put, Bytes.Pow256, Read, Zeros;
    Widths();
    var s := PutConst(c) + rest;
    match c {
      case CInt(i) =>
        SignedOfWrapped(i);
        ReadPut(8, i % TWO_64, rest);
        assert Skip(8, s) == PutI64(i) + rest;
      case CDbl(d) =>
        ReadPut(8, d, rest);
        assert Skip(8, s) == Put(8, d) + rest;
    }
  }

  lemma {:induction false} ReadPutConsts(cs: seq<Const>, rest: seq<Byte>)
    requires forall i :: 0 <= i < |cs| ==> ConstFits(cs[i])
    ensures ReadConsts(|cs|, PutConsts(cs) + rest) == Rd(cs, rest)
  {
    hide ReadConst, PutConst;
    if cs != [] {
      ReadPutConst(cs[0], PutConsts(cs[1..]) + rest);
      ReadPutConsts(cs[1..], rest);
      assert [cs[0]] + cs[1..] == cs;
      assert PutConsts(cs) + rest == PutConst(cs[0]) + (PutConsts(cs[1..]) + rest);
    } else {
      assert [] + rest == rest;
    }
  }

  /** The bytes of a function, field by field. */
  lemma FuncInParts(f: Routine, rest: seq<Byte>)
    requires Closed(f.code)
    ensures var code := EncodeCode(f.code);
            PutFunc(f) + rest == PutU16(|f.name|) + (PutName(f.name) +
              (PutU16(f.nparams) + (PutU16(f.nlocals) + (PutU32(|code|) + (code + rest)))))
  {
    hide PutU16, PutU32, PutName, EncodeCode;
  }

  /** Reading the numbers behind the name, and the code. */
  lemma ReadPutBody(nparams: nat, nlocals: nat, code: seq<Byte>, rest: seq<Byte>)
    requires nparams < TWO_16 && nlocals < TWO_16 && |code| < TWO_32
    ensures var s4 := code + rest;
            var s3 := PutU32(|code|) + s4;
            var s2 := PutU16(nlocals) + s3;
            && Read(2, PutU16(nparams) + s2) == Rd(nparams, s2) && Read(2, s2) == Rd(nlocals, s3)
            && Read(4, s3) == Rd(|code|, s4) && s4[..|code|] == code && s4[|code|..] == rest
  {
    hide Bytes.Get, Bytes.Put, Read;
    Widths();
    var s3 := PutU32(|code|) + (code + rest);
    ReadPut(2, nparams, PutU16(nlocals) + s3);
    ReadPut(2, nlocals, s3);
    ReadPut(4, |code|, code + rest);
  }

  lemma {:induction false} ReadPutFunc(f: Routine, rest: seq<Byte>)
    requires FuncFits(f)
    ensures ReadFunc(PutFunc(f) + rest) == Rd(Encoded(f), rest)
  {
    hide Bytes.Get, Bytes.Put, Read, EncodeCode, PutFunc, PutU16, PutU32;
    var code := EncodeCode(f.code);
    EncodedLength(f.code);
    FuncInParts(f, rest);
    var body := PutU16(f.nparams) + (PutU16(f.nlocals) + (PutU32(|code|) + (code + rest)));
    var s1 := PutName(f.name) + body;
    ReadPutLength(f.name, s1);
    assert s1[..|f.name|] == PutName(f.name) && Skip(|f.name|, s1) == body;
    assert NameOf(PutName(f.name)) == f.name;
    ReadPutBody(f.nparams, f.nlocals, code, rest);
  }

  lemma ReadPutLength(name: string, rest: seq<Byte>)
    requires |name| < TWO_16
    ensures Read(2, PutU16(|name|) + rest) == Rd(|name|, rest)
  {
    hide Read;
    Widths();
    ReadPut(2, |name|, rest);
  }

  lemma {:induction false} ReadPutFuncs(fs: seq<Routine>, rest: seq<Byte>)
    requires AllClosed(fs) && forall i :: 0 <= i < |fs| ==> FuncFits(fs[i])
    ensures ReadFuncs(|fs|, PutFuncs(fs) + rest) == Rd(EncodedAll(fs), rest)
  {
    hide ReadFunc, PutFunc;
    if fs != [] {
      ReadPutFunc(fs[0], PutFuncs(fs[1..]) + rest);
      ReadPutFuncs(fs[1..], rest);
      assert PutFuncs(fs) + rest == PutFunc(fs[0]) + (PutFuncs(fs[1..]) + rest);
      assert EncodedAll(fs) == [Encoded(fs[0])] + EncodedAll(fs[1..]);
    } else {
      assert [] + rest == rest;
    }
  }

  /** Loading what was written gives the module back: constants, functions, code bytes.  The entry comes
      back too, except that -1 has become 0. */
  lemma {:induction false} LoadEmit(image: Image)
    requires Writable(image)
    ensures LoadBytes(EmitBytes(image))
            == Rd(Prog(image.consts, EncodedAll(image.funcs), WrittenEntry(image)), [])
    ensures Encodes(image, LoadBytes(EmitBytes(image)).v)
  {
    hide Bytes.Get, Bytes.Put, Read, ReadConsts, ReadFuncs, PutConsts, PutFuncs, Closed;
    Widths();
    var s4 := PutFuncs(image.funcs);
    var s3 := PutU32(WrittenEntry(image)) + s4;
    var s2 := PutU32(|image.funcs|) + s3;
    var s1 := PutConsts(image.consts) + s2;
    var buf := EmitBytes(image);
    assert buf == MAGIC + (PutU32(|image.consts|) + s1);
    assert buf[..4] == MAGIC && buf[4..] == PutU32(|image.consts|) + s1;
    ReadPut(4, |image.consts|, s1);
    ReadPutConsts(image.consts, s2);
    ReadPut(4, |image.funcs|, s3);
    ReadPut(4, WrittenEntry(image), s4);
    ReadPutFuncs(image.funcs, []);
    assert s4 + [] == s4;
  }

  /** The loaded entry is the module's entry exactly when the module has a `main`. */
  lemma EntrySurvivesIff(image: Image)
    requires Writable(image)
    ensures LoadBytes(EmitBytes(image)).Rd?
    ensures LoadBytes(EmitBytes(image)).v.entry == image.entry <==> image.entry >= 0
  {
    LoadEmit(image);
  }
}
