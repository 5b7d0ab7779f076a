/** The classifier's loop over the fields (dyncall_aggregate_x64.c:63-121) returns the highest of the
    fields' classes, although it stops early at MEMORY: the order of the fields never matters. */
module ClassifyOrder {
  import opened Aggregate
  import opened Classify

  /** `x` is not above `c`, in the order NONE, SSE, INTEGER, MEMORY. */
  predicate Below(x: Class, c: Class) {
    Merge(c, x) == c
  }

  /** What one turn of the loop adds. */
  function FieldClass(f: Field, index: nat, offset: nat): Class {
    if Outside(f, offset, 8 * index) then NONE
    else if Misaligned(f.alignment, offset) then MEMORY
    else CodeField(f, index, offset)
  }

  function FieldClasses(fields: seq<Field>, index: nat, base: int): seq<Class> {
    seq(|fields|, k requires 0 <= k < |fields| => FieldClass(fields[k], index, ToSize(base + fields[k].offset)))
  }

  /** The highest class of a list, in the order NONE, SSE, INTEGER, MEMORY. */
  function Highest(cs: seq<Class>): Class {
    if MEMORY in cs then MEMORY else if INTEGER in cs then INTEGER else if SSE in cs then SSE else NONE
  }

  lemma HighestCons(c: Class, cs: seq<Class>)
    ensures Highest([c] + cs) == Merge(c, Highest(cs))
  {
    assert forall x :: x in [c] + cs <==> x == c || x in cs;
  }

  lemma HighestFrom(cs: seq<Class>, i: nat)
    requires i < |cs|
    ensures Highest(cs[i..]) == Merge(cs[i], Highest(cs[i + 1..]))
  {
    HighestCons(cs[i], cs[i + 1..]);
    assert cs[i..] == [cs[i]] + cs[i + 1..];
  }

  /** The classes from `i` on, merged one after the other. */
  function Merged(cs: seq<Class>, i: nat): Class
    requires i <= |cs|
    decreases |cs| - i
  {
    if i == |cs| then NONE else Merge(cs[i], Merged(cs, i + 1))
  }

  lemma {:induction false} MergedIsHighest(cs: seq<Class>, i: nat)
    requires i <= |cs|
    ensures Merged(cs, i) == Highest(cs[i..])
    decreases |cs| - i
  {
    if i < |cs| {
      MergedIsHighest(cs, i + 1);
      HighestFrom(cs, i);
    }
  }

  lemma HighestIsThere(cs: seq<Class>)
    ensures Highest(cs) == NONE || Highest(cs) in cs
    ensures forall c <- cs :: Merge(Highest(cs), c) == Highest(cs)
  {
  }

  lemma LoopTurn(ag: Aggr, index: nat, base: int, i: nat, clz: Class)
    requires i < |ag.fields|
    ensures var c := FieldClass(ag.fields[i], index, ToSize(base + ag.fields[i].offset));
            || CodeFields(ag, index, base, i, clz) == CodeFields(ag, index, base, i + 1, Merge(clz, c))
            || (c == MEMORY && CodeFields(ag, index, base, i, clz) == MEMORY)
  {
    assert Merge(clz, NONE) == clz;
  }

  /** The loop from field `i` on, whatever has been merged so far. */
  lemma {:induction false} LoopIsHighest(ag: Aggr, index: nat, base: int, i: nat, clz: Class)
    requires i <= |ag.fields|
    ensures CodeFields(ag, index, base, i, clz) == Merge(clz, Highest(FieldClasses(ag.fields, index, base)[i..]))
    decreases |ag.fields| - i
  {
    var cs := FieldClasses(ag.fields, index, base);
    if i < |ag.fields| {
      HighestFrom(cs, i);
      LoopTurn(ag, index, base, i, clz);
      LoopIsHighest(ag, index, base, i + 1, Merge(clz, cs[i]));
      MergeIsJoin(clz, cs[i], Highest(cs[i + 1..]));
    }
  }

  lemma ClassIsHighest(ag: Aggr, index: nat, base: int)
    ensures CodeClass(ag, index, base) == Highest(FieldClasses(ag.fields, index, base))
  {
    LoopIsHighest(ag, index, base, 0, NONE);
    var cs := FieldClasses(ag.fields, index, base);
    assert cs[0..] == cs;
  }

  /** The class the code computes does not depend on the order of the fields, or on repetitions. */
  lemma FieldOrderIrrelevant(ag: Aggr, fields: seq<Field>, index: nat, base: int)
    requires forall f :: f in fields <==> f in ag.fields
    ensures CodeClass(ag, index, base) == CodeClass(ag.(fields := fields), index, base)
  {
    ClassIsHighest(ag, index, base);
    ClassIsHighest(ag.(fields := fields), index, base);
    SameMembers(ag.fields, fields, index, base);
    SameMembers(fields, ag.fields, index, base);
  }

  lemma SameMembers(fs: seq<Field>, gs: seq<Field>, index: nat, base: int)
    requires forall f <- fs :: f in gs
    ensures forall c <- FieldClasses(fs, index, base) :: c in FieldClasses(gs, index, base)
  {
    var cs, ds := FieldClasses(fs, index, base), FieldClasses(gs, index, base);
    forall c | c in cs
      ensures c in ds
    {
      var k :| 0 <= k < |cs| && cs[k] == c;
      assert fs[k] in gs;
      var m :| 0 <= m < |gs| && gs[m] == fs[k];
      assert ds[m] == c;
    }
  }

  /** Some entry that was found covers what entry `k` calls for. */
  predicate StoodIn(sound: seq<bool>, wanted: seq<Class>, k: nat)
    requires |sound| == |wanted| && k < |wanted|
  {
    wanted[k] == NONE || exists m :: 0 <= m < |sound| && sound[m] && Merge(wanted[m], wanted[k]) == wanted[m]
  }

  /** If the sound entries are found and the others are not, the highest class is found exactly if
      sound entries stand in for the others. */
  lemma HighestIff(found: seq<Class>, wanted: seq<Class>, sound: seq<bool>)
    requires |found| == |wanted| == |sound|
    requires forall k :: 0 <= k < |found| ==> found[k] == if sound[k] then wanted[k] else NONE
    ensures Highest(found) == Highest(wanted)
            <==> forall k :: 0 <= k < |sound| && !sound[k] ==> StoodIn(sound, wanted, k)
  {
    HighestIsThere(found);
    HighestIsThere(wanted);
    if Highest(found) == Highest(wanted) {
      forall k | 0 <= k < |sound| && !sound[k]
        ensures StoodIn(sound, wanted, k)
      {
        assert wanted[k] in wanted;
        if wanted[k] != NONE {
          var m :| 0 <= m < |found| && found[m] == Highest(found);
          assert sound[m];
        }
      }
    } else {
      HighestBelow(found, wanted, sound);
      var k :| 0 <= k < |wanted| && wanted[k] == Highest(wanted);
      forall m | 0 <= m < |sound| && sound[m]
        ensures Merge(wanted[m], wanted[k]) != wanted[m]
      {
        assert found[m] in found;
      }
      assert !StoodIn(sound, wanted, k);
      NotFound(found, wanted, sound, k);
    }
  }

  lemma NotFound(found: seq<Class>, wanted: seq<Class>, sound: seq<bool>, k: nat)
    requires |found| == |wanted| == |sound| && k < |found|
    requires found[k] == (if sound[k] then wanted[k] else NONE)
    requires !StoodIn(sound, wanted, k)
    ensures !sound[k]
  {
    assert Merge(wanted[k], wanted[k]) == wanted[k];
  }

  lemma HighestBelow(found: seq<Class>, wanted: seq<Class>, sound: seq<bool>)
    requires |found| == |wanted| == |sound|
    requires forall k :: 0 <= k < |found| ==> found[k] == if sound[k] then wanted[k] else NONE
    ensures Merge(Highest(wanted), Highest(found)) == Highest(wanted)
    ensures Highest(found) != Highest(wanted) ==> Highest(wanted) != NONE
  {
    HighestIsThere(found);
    HighestIsThere(wanted);
    if Highest(found) != NONE {
      var k :| 0 <= k < |found| && found[k] == Highest(found);
      assert wanted[k] in wanted;
    }
  }
}
