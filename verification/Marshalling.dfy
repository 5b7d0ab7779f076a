/** Perl values to C memory and back (lib/Affix/marshal.cxx): numeric scalars and nested structs of
    them on an LP64 little-endian target. */
module Marshalling {
  import opened Bytes
  import opened Integers
  import opened Options
  import opened Vector

  /** A Perl value: what a numeric or struct type can be given. */
  datatype Sv =
    | Undef(readOnly: bool)
    | BoolSv(truth: bool)
    | IntSv(v: int)
    | NumSv(nv: Word8)
    | HashSv(h: map<string, Sv>)

  /** The interpreter's conversions, as parameters. */
  datatype Perl = Perl(narrow: Word8 -> Word4, widen: Word4 -> Word8, fromInt: int -> Word8, nonZero: Word8 -> bool)

  datatype Kind = Bool | Short | UShort | Int | UInt | Long | ULong | LongLong | ULongLong | Float | Double

  datatype CType = Scalar(kind: Kind) | Struct(size: nat, fields: seq<Field>)

  datatype Field = Field(name: string, offset: nat, typ: CType)

  function Width(k: Kind): nat {
    match k
    case Bool => 1
    case Short => 2
    case UShort => 2
    case Int => 4
    case UInt => 4
    case Long => 8
    case ULong => 8
    case LongLong => 8
    case ULongLong => 8
    case Float => 4
    case Double => 8
  }

  function Size(t: CType): nat {
    if t.Scalar? then Width(t.kind) else t.size
  }

  /** Fields lie within their struct. */
  predicate InBounds(t: CType) {
    t.Struct? ==> forall i :: 0 <= i < |t.fields| ==>
      t.fields[i].offset + Size(t.fields[i].typ) <= t.size && InBounds(t.fields[i].typ)
  }

  // ----- scalars -----

  /** What `sv2ptr` does for a scalar type: store bytes, leave the memory alone, or croak. */
  datatype Stored = Put(bytes: seq<byte>) | Nothing | Croak

  function IntOf(sv: Sv): int
    requires sv.IntSv? || sv.BoolSv?
  {
    if sv.IntSv? then sv.v else if sv.truth then 1 else 0
  }

  function NumOf(p: Perl, sv: Sv): Word8
    requires sv.IntSv? || sv.BoolSv? || sv.NumSv?
  {
    if sv.NumSv? then sv.nv else p.fromInt(IntOf(sv))
  }

  function True(p: Perl, sv: Sv): bool {
    match sv
    case Undef(_) => false
    case BoolSv(b) => b
    case IntSv(v) => v != 0
    case NumSv(d) => p.nonZero(d)
    case HashSv(_) => true
  }

  function ToBytes(p: Perl, k: Kind, sv: Sv): (r: Stored)
    ensures r.Put? ==> |r.bytes| == Width(k)
  {
    if k.Bool? then Put([if True(p, sv) then 1 else 0])
    else if sv.Undef? then Nothing
    else if k.Float? then (if sv.HashSv? then Croak else Put(p.narrow(NumOf(p, sv))))
    else if k.Double? then (if sv.HashSv? then Croak else Put(NumOf(p, sv)))
    else if sv.IntSv? || sv.BoolSv? then Put(Digits(IntOf(sv), Width(k)))
    else Croak
  }

  /** What `ptr2sv` makes of a scalar's bytes.  The two 8-byte unsigned types are read through the
      interpreter's signed integer. */
  function FromBytes(p: Perl, k: Kind, b: seq<byte>): Sv
    requires |b| == Width(k)
  {
    match k
    case Bool => BoolSv(b[0] != 0)
    case UShort => IntSv(Unsigned(b))
    case UInt => IntSv(Unsigned(b))
    case Float => NumSv(p.widen(b))
    case Double => NumSv(b)
    case _ => IntSv(Signed(b))
  }

  // ----- sv2ptr -----

  function Marshal(p: Perl, t: CType, sv: Sv, mem: seq<byte>, at: nat): (r: Option<seq<byte>>)
    requires InBounds(t) && at + Size(t) <= |mem|
    ensures r.Some? ==> |r.value| == |mem|
    decreases t, 1, 0
  {
    if sv == Undef(true) then Some(mem)
    else if t.Scalar? then
      match ToBytes(p, t.kind, sv)
      case Put(b) => Some(Store(mem, at, b))
      case Nothing => Some(mem)
      case Croak => None
    else if sv.HashSv? then MarshalFields(p, t, 0, sv.h, mem, at)
    else Some(mem)
  }

  /** The fields from number `i` on. */
  function MarshalFields(p: Perl, t: CType, i: nat, h: map<string, Sv>, mem: seq<byte>, at: nat): (r: Option<seq<byte>>)
    requires t.Struct? && InBounds(t) && i <= |t.fields| && at + t.size <= |mem|
    ensures r.Some? ==> |r.value| == |mem|
    decreases t, 0, |t.fields| - i
  {
    if i == |t.fields| then Some(mem)
    else
      var f := t.fields[i];
      if f.name !in h then None
      else
        match Marshal(p, f.typ, h[f.name], mem, at + f.offset)
        case None => None
        case Some(m) => MarshalFields(p, t, i + 1, h, m, at)
  }

  /** `sv2ptr` into memory that is there already; `ok` is false if it croaked. */
  method Sv2Ptr(p: Perl, t: CType, sv: Sv, ret: array<byte>, at: nat) returns (ok: bool)
    requires InBounds(t) && at + Size(t) <= ret.Length
    modifies ret
    ensures ok <==> Marshal(p, t, sv, old(ret[..]), at).Some?
    ensures ok ==> ret[..] == Marshal(p, t, sv, old(ret[..]), at).value
    decreases t, 1
  {
    ok := true;
    if sv == Undef(true) {
      return;
    }
    if t.Scalar? {
      var stored := ToBytes(p, t.kind, sv);
      match stored {
        case Put(b) => CopyTo(ret, at, b);
        case Nothing =>
        case Croak => ok := false;
      }
    } else if sv.HashSv? {
      ok := Sv2PtrFields(p, t, sv.h, ret, at);
    }
  }

  method Sv2PtrFields(p: Perl, t: CType, h: map<string, Sv>, ret: array<byte>, at: nat) returns (ok: bool)
    requires t.Struct? && InBounds(t) && at + t.size <= ret.Length
    modifies ret
    ensures ok <==> MarshalFields(p, t, 0, h, old(ret[..]), at).Some?
    ensures ok ==> ret[..] == MarshalFields(p, t, 0, h, old(ret[..]), at).value
    decreases t, 0
  {
    ghost var start := ret[..];
    var i := 0;
    while i < |t.fields|
      invariant 0 <= i <= |t.fields|
      invariant MarshalFields(p, t, i, h, ret[..], at) == MarshalFields(p, t, 0, h, start, at)
    {
      var field := t.fields[i];
      if field.name !in h {
        return false;
      }
      var done := Sv2Ptr(p, field.typ, h[field.name], ret, at + field.offset);
      if !done {
        return false;
      }
      i := i + 1;
    }
    ok := true;
  }

  // ----- ptr2sv -----

  function Unmarshal(p: Perl, t: CType, mem: seq<byte>, at: nat): Sv
    requires InBounds(t) && at + Size(t) <= |mem|
    decreases t, 1, 0
  {
    if t.Scalar? then FromBytes(p, t.kind, Load(mem, at, Width(t.kind)))
    else HashSv(UnmarshalFields(p, t, |t.fields|, mem, at))
  }

  /** The hash after the first `n` fields. */
  function UnmarshalFields(p: Perl, t: CType, n: nat, mem: seq<byte>, at: nat): map<string, Sv>
    requires t.Struct? && InBounds(t) && n <= |t.fields| && at + t.size <= |mem|
    decreases t, 0, n
  {
    if n == 0 then map[]
    else
      var f := t.fields[n - 1];
      UnmarshalFields(p, t, n - 1, mem, at)[f.name := Unmarshal(p, f.typ, mem, at + f.offset)]
  }

  method Ptr2Sv(p: Perl, t: CType, ptr: array<byte>, at: nat) returns (ret: Sv)
    requires InBounds(t) && at + Size(t) <= ptr.Length
    ensures ret == Unmarshal(p, t, ptr[..], at)
    decreases t
  {
    if t.Scalar? {
      return FromBytes(p, t.kind, ptr[at..at + Width(t.kind)]);
    }
    var hv: map<string, Sv> := map[];
    var i := 0;
    while i < |t.fields|
      invariant 0 <= i <= |t.fields|
      invariant hv == UnmarshalFields(p, t, i, ptr[..], at)
    {
      var subtype := t.fields[i];
      var val := Ptr2Sv(p, subtype.typ, ptr, at + subtype.offset);
      hv := hv[subtype.name := val];
      i := i + 1;
    }
    ret := HashSv(hv);
  }
}
