/** Message descriptors and the cyclic iterator over their fields. */
module PbIterator {
  import opened Wire

  // ----- descriptors

  /** How a field is stored and encoded; of bytes fields, the offset of the bytes after their count. */
  datatype LType = Varint | Uvarint | Svarint | Fixed32 | Fixed64
                 | Bytes(offset: nat) | String | Submessage(sub: Descriptor) | Extension | FixedLengthBytes

  datatype HType = Required | Optional | Repeated | Oneof

  /** Where a field starts: past the end of the one before, or at the same place, inside a union. */
  datatype Start = After(padding: nat) | SameAsPrevious

  /** dflt is the value an absent field takes on decoding, zero if there is none. */
  datatype Field = Field(tag: nat, ltype: LType, htype: HType, start: Start, sizeOffset: int, dataSize: nat,
                         arraySize: nat, dflt: Option<Value>)

  datatype Descriptor = Descriptor(fields: seq<Field>)

  /** The value of a scalar, string, bytes or submessage field. */
  datatype Value = Number(n: int) | Text(s: seq<byte>) | Struct(cells: seq<Cell>)

  /**
   * The memory of a field: a bare value; one with a has flag; an array with its count; a union with the
   * tag of the member it holds. The later members of a union have no memory of their own.
   */
  datatype Cell = Bare(value: Value) | Flagged(has: bool, value: Value) | Counted(items: seq<Value>)
                | Union(which: nat, value: Value) | InUnion

  const LAST_FIELD := Field(0, Varint, Required, After(0), 0, 0, 0, None)

  /** The k-th entry of the field array, which ends with an entry of tag zero. */
  function FieldAt(fields: seq<Field>, k: nat): Field {
    if k < |fields| then fields[k] else LAST_FIELD
  }

  /** Field k shares the memory of the field before it. */
  predicate JoinsPrevious(fields: seq<Field>, k: nat)
    requires k < |fields|
  {
    k > 0 && fields[k - 1].htype.Oneof? && fields[k].htype.Oneof? && fields[k].start.SameAsPrevious?
  }

  /** The field whose memory field k uses. */
  function Home(fields: seq<Field>, k: nat): (h: nat)
    requires k < |fields|
    ensures h <= k
  {
    if JoinsPrevious(fields, k) then Home(fields, k - 1) else k
  }

  // ----- a fresh walk

  function MemorySize(f: Field): nat {
    if f.htype.Repeated? then f.dataSize * f.arraySize else f.dataSize
  }

  function Padding(f: Field, sizeMax: nat): nat {
    match f.start
    case After(n) => n
    case SameAsPrevious => sizeMax
  }

  /** The address of field k's data in a struct at base. */
  function DataAt(fields: seq<Field>, sizeMax: nat, base: int, k: nat): int {
    if k == 0 || k >= |fields| then base + Padding(FieldAt(fields, 0), sizeMax)
    else if JoinsPrevious(fields, k) then DataAt(fields, sizeMax, base, k - 1)
    else DataAt(fields, sizeMax, base, k - 1) + MemorySize(fields[k - 1]) + Padding(fields[k], sizeMax)
  }

  /** The address of field k's has flag, count or union tag. */
  function SizeAt(fields: seq<Field>, sizeMax: nat, base: int, k: nat): int {
    if k < |fields| && JoinsPrevious(fields, k) then SizeAt(fields, sizeMax, base, k - 1)
    else DataAt(fields, sizeMax, base, k) + FieldAt(fields, k).sizeOffset
  }

  /** How many of the first k fields are required. */
  function RequiredBefore(fields: seq<Field>, k: nat): nat
    requires k <= |fields|
  {
    if k == 0 then 0 else RequiredBefore(fields, k - 1) + if fields[k - 1].htype.Required? then 1 else 0
  }

  lemma {:induction false} RequiredBeforeGrows(fields: seq<Field>, i: nat, j: nat)
    requires i <= j <= |fields|
    ensures RequiredBefore(fields, i) <= RequiredBefore(fields, j)
    ensures i < j && fields[i].htype.Required? ==> RequiredBefore(fields, i) < RequiredBefore(fields, j)
    decreases j
  {
    if i < j {
      RequiredBeforeGrows(fields, i, j - 1);
    }
  }

  /** Members of a union have one address. */
  lemma {:induction false} HomeIsAddress(fields: seq<Field>, sizeMax: nat, base: int, k: nat)
    requires k < |fields|
    ensures DataAt(fields, sizeMax, base, k) == DataAt(fields, sizeMax, base, Home(fields, k))
    ensures SizeAt(fields, sizeMax, base, k) == SizeAt(fields, sizeMax, base, Home(fields, k))
  {
    if JoinsPrevious(fields, k) {
      HomeIsAddress(fields, sizeMax, base, k - 1);
    }
  }

  /** A field ends before a later one of another home; of a union, the last member does. */
  lemma {:induction false} FieldsDoNotOverlap(fields: seq<Field>, sizeMax: nat, base: int, i: nat, j: nat)
    requires i < j < |fields| && Home(fields, i) != Home(fields, j)
    ensures DataAt(fields, sizeMax, base, i) <= DataAt(fields, sizeMax, base, j)
    ensures !JoinsPrevious(fields, i + 1) ==>
              DataAt(fields, sizeMax, base, i) + MemorySize(fields[i]) <= DataAt(fields, sizeMax, base, j)
    decreases j
  {
    if j == i + 1 {
      assert !JoinsPrevious(fields, j);
    } else if Home(fields, i) != Home(fields, j - 1) {
      FieldsDoNotOverlap(fields, sizeMax, base, i, j - 1);
    } else {
      SameHomeTogether(fields, i, j - 1);
      HomeIsAddress(fields, sizeMax, base, i);
      HomeIsAddress(fields, sizeMax, base, j - 1);
      assert !JoinsPrevious(fields, j);
    }
  }

  /** Fields with a common home are members of one union. */
  lemma {:induction false} SameHomeTogether(fields: seq<Field>, i: nat, j: nat)
    requires i < j < |fields| && Home(fields, i) == Home(fields, j)
    ensures fields[i].htype.Oneof? && fields[j].htype.Oneof?
    ensures JoinsPrevious(fields, i + 1) && JoinsPrevious(fields, j)
    decreases j
  {
    if JoinsPrevious(fields, j) && i < j - 1 {
      SameHomeTogether(fields, i, j - 1);
    }
  }

  // ----- the iterator

  /** Field k is the one a lookup of tag means. */
  predicate Matches(fields: seq<Field>, tag: nat, k: nat) {
    FieldAt(fields, k).tag == tag && !FieldAt(fields, k).ltype.Extension?
  }

  class FieldIter {
    const fields: seq<Field>
    const sizeMax: nat
    const destStruct: int
    var pos: nat
    var requiredFieldIndex: nat
    var pData: int
    var pSize: int

    /** Everything is as a fresh walk to pos would leave it. */
    ghost predicate Valid()
      reads this
    {
      && (pos < |fields| || (pos == 0 && fields == []))
      && requiredFieldIndex == RequiredBefore(fields, pos)
      && pData == DataAt(fields, sizeMax, destStruct, pos)
      && pSize == SizeAt(fields, sizeMax, destStruct, pos)
    }

    lemma Facts()
      requires Valid()
      ensures pos < |fields| || (pos == 0 && fields == [])
      ensures requiredFieldIndex == if fields == [] then 0 else RequiredBefore(fields, pos)
    {
    }

    constructor (fields: seq<Field>, sizeMax: nat, destStruct: int)
      ensures Valid() && pos == 0
      ensures this.fields == fields && this.sizeMax == sizeMax && this.destStruct == destStruct
    {
      this.fields, this.sizeMax, this.destStruct := fields, sizeMax, destStruct;
      pos, requiredFieldIndex := 0, 0;
      pData := destStruct + Padding(FieldAt(fields, 0), sizeMax);
      pSize := destStruct + Padding(FieldAt(fields, 0), sizeMax) + FieldAt(fields, 0).sizeOffset;
    }

    method Begin() returns (ok: bool)
      modifies this
      ensures Valid() && pos == 0 && (ok <==> fields != [])
      requires forall k :: 0 <= k < |fields| ==> fields[k].tag != 0
    {
      pos, requiredFieldIndex := 0, 0;
      pData := destStruct + Padding(FieldAt(fields, 0), sizeMax);
      pSize := pData + FieldAt(fields, 0).sizeOffset;
      return FieldAt(fields, 0).tag != 0;
    }

    /** Steps to the next field; false when that is the first again. */
    method Next() returns (ok: bool)
      requires Valid() && forall k :: 0 <= k < |fields| ==> fields[k].tag != 0
      modifies this
      ensures Valid()
      ensures ok <==> old(pos) + 1 < |fields|
      ensures pos == if ok then old(pos) + 1 else 0
    {
      var prev := FieldAt(fields, pos);
      if prev.tag == 0 {
        return false;
      }
      pos := pos + 1;
      var cur := FieldAt(fields, pos);
      if cur.tag == 0 {
        var unused := Begin();
        return false;
      }
      var prevSize := prev.dataSize;
      if prev.htype.Oneof? && cur.htype.Oneof? && cur.start.SameAsPrevious? {
        return true;
      } else if prev.htype.Repeated? {
        prevSize := prevSize * prev.arraySize;
      }
      if prev.htype.Required? {
        requiredFieldIndex := requiredFieldIndex + 1;
      }
      pData := pData + prevSize + Padding(cur, sizeMax);
      pSize := pData + cur.sizeOffset;
      return true;
    }

    /** Looks for tag from the current field round to it again. */
    method Find(tag: nat) returns (found: bool)
      requires Valid() && forall k :: 0 <= k < |fields| ==> fields[k].tag != 0
      modifies this
      ensures Valid()
      ensures found ==> Matches(fields, tag, pos)
      ensures !found ==> pos == old(pos) && forall k :: 0 <= k < |fields| ==> !Matches(fields, tag, k)
      ensures fields == [] ==> (found <==> Matches(fields, tag, 0))
    {
      var start, more := pos, true;
      ghost var seen := 0;
      while more
        invariant Valid() && (fields == [] ==> pos == 0)
        invariant fields != [] ==> seen <= |fields| && pos == Wrapped(start + seen)
        invariant forall k :: 0 <= k < |fields| && Passed(start, seen, k) ==> !Matches(fields, tag, k)
        invariant fields == [] && !more ==> !Matches(fields, tag, 0)
        invariant if more then seen == 0 || pos != start else pos == start && (fields != [] ==> seen == |fields|)
        decreases more, |fields| - seen
      {
        if FieldAt(fields, pos).tag == tag && !FieldAt(fields, pos).ltype.Extension? {
          return true;
        }
        var unused := Next();
        seen := seen + 1;
        more := pos != start;
      }
      return false;
    }

    ghost function Wrapped(n: nat): int {
      if n < |fields| then n else n - |fields|
    }

    /** Field k is among the first n from start on, going round. */
    ghost predicate Passed(start: nat, n: nat, k: nat) {
      start <= k < start + n || k + |fields| < start + n
    }
  }
}
