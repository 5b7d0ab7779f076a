/** What marshalling keeps: exactly which values come back from memory, and which bytes are written. */
module MarshallingRoundTrip {
  import opened Bytes
  import opened Integers
  import opened Vector
  import opened Marshalling

  /** No two fields share a name or a byte, at any depth. */
  predicate Separate(t: CType) {
    t.Struct? ==>
      && (forall i :: 0 <= i < |t.fields| ==> Separate(t.fields[i].typ))
      && forall i, j :: 0 <= i < j < |t.fields| ==> Apart(t.fields[i], t.fields[j])
  }

  predicate Apart(f: Field, g: Field) {
    && f.name != g.name
    && (f.offset + Size(f.typ) <= g.offset || g.offset + Size(g.typ) <= f.offset)
  }

  /** The names of these fields. */
  function Names(fields: seq<Field>): set<string> {
    if fields == [] then {} else Names(fields[..|fields| - 1]) + {fields[|fields| - 1].name}
  }

  /** The values a type can carry.  The 8-byte unsigned types come back through a signed integer, so
      they carry what the signed ones do, and not the upper half of their own range. */
  predicate Representable(p: Perl, t: CType, sv: Sv)
    decreases t
  {
    match t
    case Scalar(k) =>
      if k.Bool? then sv.BoolSv?
      else if k.Float? then sv.NumSv? && p.widen(p.narrow(sv.nv)) == sv.nv
      else if k.Double? then sv.NumSv?
      else sv.IntSv? && if k.UShort? || k.UInt? then FitsUnsigned(sv.v, Width(k)) else FitsSigned(sv.v, Width(k))
    case Struct(_, fields) =>
      sv.HashSv? && sv.h.Keys == Names(fields)
      && forall i :: 0 <= i < |fields| ==> fields[i].name in sv.h && Representable(p, fields[i].typ, sv.h[fields[i].name])
  }

  // ----- scalars -----

  /** A scalar is stored and read back unchanged exactly if its type can carry it. */
  lemma ScalarIff(p: Perl, k: Kind, sv: Sv)
    ensures Representable(p, Scalar(k), sv)
            <==> var s := ToBytes(p, k, sv); s.Put? && FromBytes(p, k, s.bytes) == sv
  {
    if sv.IntSv? && !k.Bool? && !k.Float? && !k.Double? {
      UnsignedIff(sv.v, Width(k));
      SignedIff(sv.v, Width(k));
    }
  }

  /** The upper half of the 8-byte unsigned types comes back negative. */
  lemma UpperHalfLost(p: Perl, k: Kind, v: int)
    requires k.ULong? || k.ULongLong?
    requires FitsUnsigned(v, 8) && !FitsSigned(v, 8)
    ensures var s := ToBytes(p, k, IntSv(v)); s.Put? && FromBytes(p, k, s.bytes) == IntSv(v - Range(8))
  {
    UnsignedOfDigits(v, 8);
  }

  // ----- which bytes are written -----

  /** Byte `k` belongs to a scalar of the type laid out at `at`, and not to padding. */
  predicate Covered(t: CType, at: nat, k: nat)
    decreases t
  {
    if t.Scalar? then at <= k < at + Width(t.kind)
    else exists i :: 0 <= i < |t.fields| && Covered(t.fields[i].typ, at + t.fields[i].offset, k)
  }

  lemma {:induction false} CoveredInside(t: CType, at: nat, k: nat)
    requires InBounds(t) && Covered(t, at, k)
    ensures at <= k < at + Size(t)
    decreases t
  {
    if t.Struct? {
      var i :| 0 <= i < |t.fields| && Covered(t.fields[i].typ, at + t.fields[i].offset, k);
      CoveredInside(t.fields[i].typ, at + t.fields[i].offset, k);
    }
  }

  /** Only bytes of scalars are written: padding keeps what it held. */
  lemma {:induction false} PaddingKept(p: Perl, t: CType, sv: Sv, mem: seq<byte>, at: nat, k: nat)
    requires InBounds(t) && at + Size(t) <= |mem| && k < |mem| && !Covered(t, at, k)
    requires Marshal(p, t, sv, mem, at).Some?
    ensures Marshal(p, t, sv, mem, at).value[k] == mem[k]
    decreases t, 1, 0
  {
    if t.Struct? && sv.HashSv? {
      FieldsPaddingKept(p, t, 0, sv.h, mem, at, k);
    }
  }

  lemma {:induction false} FieldsPaddingKept(p: Perl, t: CType, i: nat, h: map<string, Sv>, mem: seq<byte>, at: nat, k: nat)
    requires t.Struct? && InBounds(t) && i <= |t.fields| && at + t.size <= |mem| && k < |mem|
    requires forall j :: i <= j < |t.fields| ==> !Covered(t.fields[j].typ, at + t.fields[j].offset, k)
    requires MarshalFields(p, t, i, h, mem, at).Some?
    ensures MarshalFields(p, t, i, h, mem, at).value[k] == mem[k]
    decreases t, 0, |t.fields| - i
  {
    if i < |t.fields| {
      var f := t.fields[i];
      PaddingKept(p, f.typ, h[f.name], mem, at + f.offset, k);
      FieldsPaddingKept(p, t, i + 1, h, Marshal(p, f.typ, h[f.name], mem, at + f.offset).value, at, k);
    }
  }

  // ----- round trip -----

  /** Reading depends on the bytes of the type's extent alone. */
  lemma {:induction false} ReadsExtent(p: Perl, t: CType, m: seq<byte>, m': seq<byte>, at: nat)
    requires InBounds(t) && at + Size(t) <= |m| && |m| == |m'|
    requires forall k :: at <= k < at + Size(t) ==> m[k] == m'[k]
    ensures Unmarshal(p, t, m, at) == Unmarshal(p, t, m', at)
    decreases t, 1, 0
  {
    if t.Scalar? {
      assert Load(m, at, Width(t.kind)) == Load(m', at, Width(t.kind));
    } else {
      FieldsReadExtent(p, t, |t.fields|, m, m', at);
    }
  }

  lemma {:induction false} FieldsReadExtent(p: Perl, t: CType, n: nat, m: seq<byte>, m': seq<byte>, at: nat)
    requires t.Struct? && InBounds(t) && n <= |t.fields| && at + t.size <= |m| && |m| == |m'|
    requires forall k :: at <= k < at + t.size ==> m[k] == m'[k]
    ensures UnmarshalFields(p, t, n, m, at) == UnmarshalFields(p, t, n, m', at)
    decreases t, 0, n
  {
    if n > 0 {
      ReadsExtent(p, t.fields[n - 1].typ, m, m', at + t.fields[n - 1].offset);
      FieldsReadExtent(p, t, n - 1, m, m', at);
    }
  }

  /** The hash that is read has the fields' names for keys. */
  lemma {:induction false} KeysOfHash(p: Perl, t: CType, n: nat, mem: seq<byte>, at: nat)
    requires t.Struct? && InBounds(t) && n <= |t.fields| && at + t.size <= |mem|
    ensures UnmarshalFields(p, t, n, mem, at).Keys == Names(t.fields[..n])
    decreases n
  {
    if n > 0 {
      KeysOfHash(p, t, n - 1, mem, at);
      assert t.fields[..n][..n - 1] == t.fields[..n - 1];
    }
  }

  /** And under each name the field's value. */
  lemma {:induction false} EntryOfHash(p: Perl, t: CType, n: nat, mem: seq<byte>, at: nat, i: nat)
    requires t.Struct? && InBounds(t) && Separate(t) && i < n <= |t.fields| && at + t.size <= |mem|
    ensures var h := UnmarshalFields(p, t, n, mem, at);
            && t.fields[i].name in h
            && h[t.fields[i].name] == Unmarshal(p, t.fields[i].typ, mem, at + t.fields[i].offset)
    decreases n
  {
    if i < n - 1 {
      EntryOfHash(p, t, n - 1, mem, at, i);
      OtherNames(t, i, n - 1);
    }
  }

  lemma OtherNames(t: CType, i: nat, j: nat)
    requires t.Struct? && Separate(t) && i < j < |t.fields|
    ensures t.fields[i].name != t.fields[j].name
  {
    assert Apart(t.fields[i], t.fields[j]);
  }

  lemma {:induction false} NameOfKey(fields: seq<Field>, name: string) returns (i: nat)
    requires name in Names(fields)
    ensures i < |fields| && fields[i].name == name
    decreases |fields|
  {
    i := |fields| - 1;
    if fields[i].name != name {
      i := NameOfKey(fields[..i], name);
    }
  }

  /** A value the type can carry, and only such a value, is stored without complaint and read back. */
  lemma {:induction false} RoundTripIff(p: Perl, t: CType, sv: Sv, mem: seq<byte>, at: nat)
    requires InBounds(t) && Separate(t) && at + Size(t) <= |mem|
    ensures Representable(p, t, sv)
            <==> var r := Marshal(p, t, sv, mem, at); r.Some? && Unmarshal(p, t, r.value, at) == sv
    decreases t, 2, 0
  {
    if t.Scalar? {
      ScalarIff(p, t.kind, sv);
      var s := ToBytes(p, t.kind, sv);
      if s.Put? {
        StoreLoad(mem, at, s.bytes);
      }
    } else if sv.HashSv? {
      StructIff(p, t, sv.h, mem, at);
    }
  }

  lemma {:induction false} StructIff(p: Perl, t: CType, h: map<string, Sv>, mem: seq<byte>, at: nat)
    requires t.Struct? && InBounds(t) && Separate(t) && at + t.size <= |mem|
    ensures Representable(p, t, HashSv(h))
            <==> var r := MarshalFields(p, t, 0, h, mem, at); r.Some? && UnmarshalFields(p, t, |t.fields|, r.value, at) == h
    decreases t, 1, 0
  {
    var r := MarshalFields(p, t, 0, h, mem, at);
    if Representable(p, t, HashSv(h)) {
      FieldsStored(p, t, 0, h, mem, at);
      SameHash(p, t, h, mem, at);
    } else if r.Some? {
      OtherHash(p, t, h, mem, at);
    }
  }

  lemma {:induction false} SameHash(p: Perl, t: CType, h: map<string, Sv>, mem: seq<byte>, at: nat)
    requires t.Struct? && InBounds(t) && Separate(t) && at + t.size <= |mem|
    requires MarshalFields(p, t, 0, h, mem, at).Some? && Representable(p, t, HashSv(h))
    ensures UnmarshalFields(p, t, |t.fields|, MarshalFields(p, t, 0, h, mem, at).value, at) == h
    decreases t, 0, |t.fields| + 1
  {
    var r := MarshalFields(p, t, 0, h, mem, at).value;
    var g := UnmarshalFields(p, t, |t.fields|, r, at);
    KeysOfHash(p, t, |t.fields|, r, at);
    assert t.fields[..|t.fields|] == t.fields;
    forall name | name in h
      ensures g[name] == h[name]
    {
      var j := NameOfKey(t.fields, name);
      FieldIff(p, t, 0, h, mem, at, j);
      EntryOfHash(p, t, |t.fields|, r, at, j);
    }
  }

  lemma {:induction false} OtherHash(p: Perl, t: CType, h: map<string, Sv>, mem: seq<byte>, at: nat)
    requires t.Struct? && InBounds(t) && Separate(t) && at + t.size <= |mem|
    requires MarshalFields(p, t, 0, h, mem, at).Some? && !Representable(p, t, HashSv(h))
    ensures UnmarshalFields(p, t, |t.fields|, MarshalFields(p, t, 0, h, mem, at).value, at) != h
    decreases t, 0, |t.fields| + 1
  {
    var r := MarshalFields(p, t, 0, h, mem, at).value;
    if UnmarshalFields(p, t, |t.fields|, r, at) == h {
      KeysOfHash(p, t, |t.fields|, r, at);
      assert t.fields[..|t.fields|] == t.fields;
      forall j | 0 <= j < |t.fields|
        ensures t.fields[j].name in h && Representable(p, t.fields[j].typ, h[t.fields[j].name])
      {
        EntryOfHash(p, t, |t.fields|, r, at, j);
        FieldIff(p, t, 0, h, mem, at, j);
      }
    }
  }

  /** Fields that are there and can be carried are all stored. */
  lemma {:induction false} FieldsStored(p: Perl, t: CType, i: nat, h: map<string, Sv>, mem: seq<byte>, at: nat)
    requires t.Struct? && InBounds(t) && Separate(t) && i <= |t.fields| && at + t.size <= |mem|
    requires forall j :: i <= j < |t.fields| ==>
               t.fields[j].name in h && Representable(p, t.fields[j].typ, h[t.fields[j].name])
    ensures MarshalFields(p, t, i, h, mem, at).Some?
    decreases t, 0, |t.fields| - i
  {
    if i < |t.fields| {
      var f := t.fields[i];
      RoundTripIff(p, f.typ, h[f.name], mem, at + f.offset);
      FieldsStored(p, t, i + 1, h, Marshal(p, f.typ, h[f.name], mem, at + f.offset).value, at);
    }
  }

  /** A field is read back exactly if its type can carry it: the later fields leave it alone. */
  lemma {:induction false} FieldIff(p: Perl, t: CType, i: nat, h: map<string, Sv>, mem: seq<byte>, at: nat, j: nat)
    requires t.Struct? && InBounds(t) && Separate(t) && i <= j < |t.fields| && at + t.size <= |mem|
    requires MarshalFields(p, t, i, h, mem, at).Some?
    ensures t.fields[j].name in h
    ensures Representable(p, t.fields[j].typ, h[t.fields[j].name])
            <==> Unmarshal(p, t.fields[j].typ, MarshalFields(p, t, i, h, mem, at).value, at + t.fields[j].offset)
                 == h[t.fields[j].name]
    decreases t, 0, |t.fields| - i
  {
    var f := t.fields[i];
    var m := Marshal(p, f.typ, h[f.name], mem, at + f.offset).value;
    if i < j {
      FieldIff(p, t, i + 1, h, m, at, j);
    } else {
      RoundTripIff(p, f.typ, h[f.name], mem, at + f.offset);
      LaterFieldsKeep(p, t, i, h, m, at);
    }
  }

  /** What is read of a field is not changed by storing the later ones. */
  lemma LaterFieldsKeep(p: Perl, t: CType, i: nat, h: map<string, Sv>, m: seq<byte>, at: nat)
    requires t.Struct? && InBounds(t) && Separate(t) && i < |t.fields| && at + t.size <= |m|
    requires MarshalFields(p, t, i + 1, h, m, at).Some?
    ensures var f := t.fields[i];
            Unmarshal(p, f.typ, MarshalFields(p, t, i + 1, h, m, at).value, at + f.offset) == Unmarshal(p, f.typ, m, at + f.offset)
  {
    LaterFieldsApart(p, t, i, h, m, at);
    ReadsExtent(p, t.fields[i].typ, m, MarshalFields(p, t, i + 1, h, m, at).value, at + t.fields[i].offset);
  }

  lemma LaterFieldsApart(p: Perl, t: CType, i: nat, h: map<string, Sv>, m: seq<byte>, at: nat)
    requires t.Struct? && InBounds(t) && Separate(t) && i < |t.fields| && at + t.size <= |m|
    requires MarshalFields(p, t, i + 1, h, m, at).Some?
    ensures var f, r := t.fields[i], MarshalFields(p, t, i + 1, h, m, at).value;
            forall k :: at + f.offset <= k < at + f.offset + Size(f.typ) ==> r[k] == m[k]
  {
    var f := t.fields[i];
    forall k | at + f.offset <= k < at + f.offset + Size(f.typ)
      ensures MarshalFields(p, t, i + 1, h, m, at).value[k] == m[k]
    {
      forall j | i + 1 <= j < |t.fields|
        ensures !Covered(t.fields[j].typ, at + t.fields[j].offset, k)
      {
        assert Apart(f, t.fields[j]);
        if Covered(t.fields[j].typ, at + t.fields[j].offset, k) {
          CoveredInside(t.fields[j].typ, at + t.fields[j].offset, k);
        }
      }
      FieldsPaddingKept(p, t, i + 1, h, m, at, k);
    }
  }

  // ----- memory that `sv2ptr` allocates -----

  datatype Allocated = Croaked | Null | Buffer(mem: seq<byte>)

  function Zeros(n: nat): (z: seq<byte>)
    ensures |z| == n
  {
    seq(n, _ => 0)
  }

  /** `sv2ptr` without memory: values that store nothing give a null pointer. */
  function ToMemory(p: Perl, t: CType, sv: Sv): Allocated
    requires InBounds(t)
  {
    if sv == Undef(true) then Null
    else if t.Scalar? then
      match ToBytes(p, t.kind, sv)
      case Put(b) => Buffer(b)
      case Nothing => Null
      case Croak => Croaked
    else if sv.HashSv? then
      match MarshalFields(p, t, 0, sv.h, Zeros(t.size), 0)
      case None => Croaked
      case Some(mem) => Buffer(mem)
    else Null
  }

  lemma MemorySize(p: Perl, t: CType, sv: Sv)
    requires InBounds(t)
    ensures var r := ToMemory(p, t, sv); r.Buffer? ==> |r.mem| == Size(t)
  {
  }

  /** A value survives the way to new memory and back exactly if its type can carry it, and all bytes
      of that memory which belong to no scalar are zero. */
  lemma MemoryRoundTripIff(p: Perl, t: CType, sv: Sv)
    requires InBounds(t) && Separate(t)
    ensures var r := ToMemory(p, t, sv);
            && (r.Buffer? ==> |r.mem| == Size(t))
            && (Representable(p, t, sv) <==> r.Buffer? && Unmarshal(p, t, r.mem, 0) == sv)
            && (r.Buffer? ==> forall k: nat :: k < |r.mem| && !Covered(t, 0, k) ==> r.mem[k] == 0)
  {
    var zeros := Zeros(Size(t));
    var r := ToMemory(p, t, sv);
    MemorySize(p, t, sv);
    RoundTripIff(p, t, sv, zeros, 0);
    if t.Scalar? {
      var s := ToBytes(p, t.kind, sv);
      if s.Put? {
        assert Store(zeros, 0, s.bytes) == s.bytes;
      }
      ScalarIff(p, t.kind, sv);
    }
    if r.Buffer? {
      forall k: nat | k < |r.mem| && !Covered(t, 0, k)
        ensures r.mem[k] == 0
      {
        PaddingKept(p, t, sv, zeros, 0, k);
      }
    }
  }

  /** `sv2ptr` with a null `ret`, and `ptr2sv` on what it returned. */
  method ThereAndBack(p: Perl, t: CType, sv: Sv) returns (stored: bool, back: Sv)
    requires InBounds(t) && Separate(t)
    ensures stored <==> ToMemory(p, t, sv).Buffer?
    ensures Representable(p, t, sv) <==> stored && back == sv
  {
    stored, back := false, Undef(false);
    MemoryRoundTripIff(p, t, sv);
    if sv == Undef(true) {
      return;
    }
    var ret: array<byte>;
    if t.Scalar? {
      var s := ToBytes(p, t.kind, sv);
      if !s.Put? {
        return;
      }
      ret := new byte[Width(t.kind)](_ => 0);
      CopyTo(ret, 0, s.bytes);
      assert ret[..] == s.bytes;
    } else {
      if !sv.HashSv? {
        return;
      }
      ret := new byte[t.size](_ => 0);
      assert ret[..] == Zeros(t.size);
      var ok := Sv2PtrFields(p, t, sv.h, ret, 0);
      if !ok {
        return;
      }
    }
    stored := true;
    back := Ptr2Sv(p, t, ret, 0);
  }
}
