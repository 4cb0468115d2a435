/** The wire form of a message, field by field: what the encoder writes and what the decoder makes of bytes. */
module PbMessage {
  import opened Wire
  import opened PbVarint
  import opened PbIterator

  const WT_VARINT: nat := 0
  const WT_64BIT: nat := 1
  const WT_STRING: nat := 2
  const WT_32BIT: nat := 5
  const MAX_REQUIRED_FIELDS: nat := 64

  // ----- descriptors as they are generated

  ghost predicate TagsDistinct(fields: seq<Field>) {
    && (forall i :: 0 <= i < |fields| ==> 0 < fields[i].tag < 0x2000_0000)
    && forall i, j :: 0 <= i < j < |fields| ==> fields[i].tag != fields[j].tag
  }

  /** At every depth, tags are distinct and in range, and sizes fit their 32-bit type. */
  ghost predicate Proper(d: Descriptor)
    decreases d
  {
    TagsDistinct(d.fields) && forall i :: 0 <= i < |d.fields| ==> ProperField(d.fields[i])
  }

  ghost predicate ProperField(f: Field)
    decreases f
  {
    0 < f.tag < 0x2000_0000 && f.dataSize < TWO32 && (f.ltype.Submessage? ==> Proper(f.ltype.sub))
  }

  // ----- memory

  predicate Packable(t: LType) {
    t.Varint? || t.Uvarint? || t.Svarint? || t.Fixed32? || t.Fixed64?
  }

  predicate SignedFits(n: int, size: nat) {
    match size
    case 1 => -0x80 <= n < 0x80
    case 2 => -0x8000 <= n < 0x8000
    case 4 => -0x8000_0000 <= n < 0x8000_0000
    case 8 => -TWO63 <= n < TWO63
    case _ => false
  }

  predicate UnsignedFits(n: int, size: nat) {
    match size
    case 1 => 0 <= n < 0x100
    case 2 => 0 <= n < 0x10000
    case 4 => 0 <= n < TWO32
    case 8 => 0 <= n < TWO64
    case _ => false
  }

  predicate SizeOk(size: nat) {
    size == 1 || size == 2 || size == 4 || size == 8
  }

  /** n is a value of the integer type that field f is stored as. */
  predicate Fits(f: Field, n: int) {
    match f.ltype
    case Varint => SignedFits(n, f.dataSize)
    case Uvarint => UnsignedFits(n, f.dataSize)
    case Svarint => SignedFits(n, f.dataSize)
    case Fixed32 => 0 <= n < TWO32
    case Fixed64 => 0 <= n < TWO64
    case _ => false
  }

  /** The integer held by a value of field f. */
  function NumberIn(f: Field, v: Value): int {
    if v.Number? && Fits(f, v.n) then v.n else 0
  }

  function TextIn(v: Value): seq<byte> {
    if v.Text? then v.s else []
  }

  function CellsIn(v: Value): seq<Cell> {
    if v.Struct? then v.cells else []
  }

  /** The bytes of a fixed-length field, all of its memory. */
  function FixedText(f: Field, v: Value): (s: seq<byte>)
    ensures |s| == f.dataSize
  {
    if |TextIn(v)| == f.dataSize then TextIn(v) else Zeros(f.dataSize)
  }

  /** The characters before the first NUL, at most max. */
  function CString(s: seq<byte>, max: nat): (t: seq<byte>)
    ensures |t| <= |s| && |t| <= max && t == s[..|t|]
  {
    if s == [] || max == 0 || s[0] == 0 then [] else [s[0]] + CString(s[1..], max - 1)
  }

  function CellAt(cells: seq<Cell>, k: nat): Cell {
    if k < |cells| then cells[k] else InUnion
  }

  function ValueIn(c: Cell): Value {
    if c.Bare? || c.Flagged? || c.Union? then c.value else Number(0)
  }

  function ItemsIn(c: Cell): seq<Value> {
    if c.Counted? then c.items else []
  }

  function WhichIn(c: Cell): nat {
    if c.Union? then c.which else 0
  }

  predicate HasIn(c: Cell) {
    c.Flagged? && c.has
  }

  // ----- encoding

  function Join(a: Option<seq<byte>>, b: Option<seq<byte>>): Option<seq<byte>> {
    if a.Some? && b.Some? then Some(a.value + b.value) else None
  }

  function EncTag(wireType: nat, tag: nat): seq<byte> {
    EncVarint(tag * 8 + wireType)
  }

  function WireType(t: LType): nat {
    match t
    case Fixed32 => WT_32BIT
    case Fixed64 => WT_64BIT
    case Varint => WT_VARINT
    case Uvarint => WT_VARINT
    case Svarint => WT_VARINT
    case _ => WT_STRING
  }

  function Prefixed(s: seq<byte>): seq<byte> {
    EncVarint(|s|) + s
  }

  function EncNumber(f: Field, n: int): seq<byte>
    requires n == 0 || Fits(f, n)
  {
    match f.ltype
    case Svarint => EncVarint(ZigZag(n))
    case Fixed32 => ToLittleEndian(n, 4)
    case Fixed64 => ToLittleEndian(n, 8)
    case _ => EncVarint(Word64(n))
  }

  function EncValue(f: Field, v: Value): Option<seq<byte>>
    decreases f, 0
  {
    match f.ltype
    case Bytes(offset) => if |TextIn(v)| + offset > f.dataSize then None else Some(Prefixed(TextIn(v)))
    case String => Some(Prefixed(CString(TextIn(v), f.dataSize)))
    case FixedLengthBytes => Some(Prefixed(FixedText(f, v)))
    case Extension => None
    case Submessage(sub) =>
      (match EncMessage(sub, CellsIn(v))
       case None => None
       case Some(b) => Some(Prefixed(b)))
    case Fixed32 => Some(EncNumber(f, NumberIn(f, v)))
    case Fixed64 => Some(EncNumber(f, NumberIn(f, v)))
    case _ => if !SizeOk(f.dataSize) then None else Some(EncNumber(f, NumberIn(f, v)))
  }

  function EncItems(f: Field, items: seq<Value>): Option<seq<byte>>
    decreases f, 1, |items|
  {
    if items == [] then Some([]) else Join(EncValue(f, items[0]), EncItems(f, items[1..]))
  }

  /** One tagged value. */
  function EncTagged(f: Field, v: Value): Option<seq<byte>>
    decreases f, 1
  {
    Join(Some(EncTag(WireType(f.ltype), f.tag)), EncValue(f, v))
  }

  function EncUnpacked(f: Field, items: seq<Value>): Option<seq<byte>>
    decreases f, 2, |items|
  {
    if items == [] then Some([]) else Join(EncTagged(f, items[0]), EncUnpacked(f, items[1..]))
  }

  function EncArray(f: Field, items: seq<Value>): Option<seq<byte>>
    decreases f, 3
  {
    if items == [] then Some([])
    else if |items| > f.arraySize then None
    else if Packable(f.ltype) then
      match EncItems(f, items)
      case None => None
      case Some(b) => Some(EncTag(WT_STRING, f.tag) + Prefixed(b))
    else EncUnpacked(f, items)
  }

  /** A field without a has flag is left out when its value is zero. */
  predicate IsDefault(f: Field, c: Cell)
    decreases f, 0
  {
    match f.htype
    case Required => false
    case Repeated => ItemsIn(c) == []
    case Oneof => WhichIn(c) == 0
    case Optional =>
      if f.sizeOffset != 0 then !HasIn(c)
      else
        match f.ltype
        case Bytes(_) => TextIn(ValueIn(c)) == []
        case String => TextIn(ValueIn(c)) == [] || TextIn(ValueIn(c))[0] == 0
        case FixedLengthBytes => f.dataSize == 0
        case Submessage(sub) => AllDefault(sub, CellsIn(ValueIn(c)), 0)
        case _ => NumberIn(f, ValueIn(c)) == 0
  }

  predicate AllDefault(d: Descriptor, cells: seq<Cell>, i: nat)
    decreases d, |d.fields| - i
  {
    i >= |d.fields| || (IsDefault(d.fields[i], CellAt(cells, Home(d.fields, i))) && AllDefault(d, cells, i + 1))
  }

  function EncField(f: Field, c: Cell): Option<seq<byte>>
    decreases f, 4
  {
    match f.htype
    case Required => EncTagged(f, ValueIn(c))
    case Optional =>
      var has := if f.sizeOffset != 0 then HasIn(c) else !IsDefault(f, c);
      if has then EncTagged(f, ValueIn(c)) else Some([])
    case Repeated => EncArray(f, ItemsIn(c))
    case Oneof => if WhichIn(c) == f.tag then EncTagged(f, ValueIn(c)) else Some([])
  }

  /** Fields from i on; no extension is registered, so an extension field adds nothing. */
  function EncFrom(d: Descriptor, cells: seq<Cell>, i: nat): Option<seq<byte>>
    decreases d, |d.fields| - i
  {
    if i >= |d.fields| then Some([])
    else
      var f := d.fields[i];
      Join(if f.ltype.Extension? then Some([]) else EncField(f, CellAt(cells, Home(d.fields, i))),
           EncFrom(d, cells, i + 1))
  }

  function EncMessage(d: Descriptor, cells: seq<Cell>): Option<seq<byte>>
    decreases d, |d.fields| + 1
  {
    EncFrom(d, cells, 0)
  }

  // ----- defaults

  function ZeroValue(f: Field): Value {
    match f.ltype
    case Bytes(_) => Text([])
    case String => Text([])
    case FixedLengthBytes => Text(Zeros(f.dataSize))
    case Submessage(_) => Struct([])
    case _ => Number(0)
  }

  /** Unions keep the bytes they had, under no tag. */
  function DefaultCell(f: Field, was: Cell): Cell
    decreases f, 1
  {
    match f.htype
    case Repeated => Counted([])
    case Oneof => Union(0, ValueIn(was))
    case Optional =>
      if f.sizeOffset != 0 then Flagged(false, DefaultValue(f, ValueIn(was))) else Bare(DefaultValue(f, ValueIn(was)))
    case Required => Bare(DefaultValue(f, ValueIn(was)))
  }

  function DefaultValue(f: Field, was: Value): Value
    decreases f, 0
  {
    if f.ltype.Submessage? then Struct(Defaults(f.ltype.sub, CellsIn(was)))
    else if f.dflt.Some? then f.dflt.value
    else ZeroValue(f)
  }

  function Defaults(d: Descriptor, was: seq<Cell>): (cells: seq<Cell>)
    ensures |cells| == |d.fields|
    decreases d
  {
    seq(|d.fields|, i requires 0 <= i < |d.fields| =>
      if JoinsPrevious(d.fields, i) then InUnion else DefaultCell(d.fields[i], CellAt(was, i)))
  }

  // ----- decoding

  datatype TagResult = TagOk(wireType: nat, tag: nat, rest: seq<byte>) | TagEnd | TagError

  /** A zero tag ends the message. */
  function DecTag(s: seq<byte>): (r: TagResult)
    ensures r.TagOk? ==> |r.rest| < |s|
  {
    match DecVarint32(s)
    case None => TagError
    case Some((v, rest)) => if v == 0 then TagEnd else TagOk(v % 8, v / 8, rest)
  }

  function Skip(s: seq<byte>, n: nat): (r: Option<seq<byte>>)
    ensures r.Some? ==> |r.value| <= |s|
  {
    if |s| < n then None else Some(s[n..])
  }

  function DecPrefixed(s: seq<byte>): (r: Option<(seq<byte>, seq<byte>)>)
    ensures r.Some? ==> |r.value.1| < |s|
  {
    match DecVarint32(s)
    case None => None
    case Some((size, rest)) => if |rest| < size then None else Some((rest[..size], rest[size..]))
  }

  function SkipField(wireType: nat, s: seq<byte>): (r: Option<seq<byte>>)
    ensures r.Some? ==> |r.value| <= |s|
  {
    match wireType
    case 0 => (match VarintLength(s) case None => None case Some(n) => Some(s[n..]))
    case 1 => Skip(s, 8)
    case 2 => (match DecPrefixed(s) case None => None case Some((_, rest)) => Some(rest))
    case 5 => Skip(s, 4)
    case _ => None
  }

  function Signed32(w: nat): int
    requires w < TWO32
  {
    if w < 0x8000_0000 then w else w - TWO32
  }

  /** The number a varint stands for in field f, before its range is checked. */
  function FromVarint(f: Field, w: nat): int
    requires w < TWO64
  {
    match f.ltype
    case Varint => if f.dataSize == 8 then Signed64(w) else Signed32(w % 0x1_0000_0000)
    case Svarint => UnZigZag(w)
    case _ => w
  }

  function DecNumber(f: Field, s: seq<byte>): (r: Option<(int, seq<byte>)>)
    ensures r.Some? ==> |r.value.1| < |s|
    ensures r.Some? ==> Fits(f, r.value.0) || !Packable(f.ltype)
  {
    match f.ltype
    case Fixed32 =>
      Pow256Values();
      if |s| < 4 then None else Some((LittleEndian(s[..4]), s[4..]))
    case Fixed64 =>
      Pow256Values();
      if |s| < 8 then None else Some((LittleEndian(s[..8]), s[8..]))
    case _ =>
      match DecVarint(s)
      case None => None
      case Some((w, rest)) =>
        DecVarintWord(s);
        if Fits(f, FromVarint(f, w)) then Some((FromVarint(f, w), rest)) else None
  }

  lemma Pow256Values()
    ensures Pow256(4) == TWO32 && Pow256(8) == TWO64
  {
  }

  lemma DecVarintWord(s: seq<byte>)
    ensures DecVarint(s).Some? ==> DecVarint(s).value.0 < TWO64
  {
    if DecVarint(s).Some? {
      Pow2Values();
      TruncateBound(Groups(s[..VarintLength(s).value]), 64);
    }
  }

  /** was is what the field's memory held: a submessage is merged into it. */
  function DecValue(f: Field, s: seq<byte>, was: Value): (r: Option<(Value, seq<byte>)>)
    ensures r.Some? ==> |r.value.1| < |s|
    decreases f, 0
  {
    if Packable(f.ltype) then
      match DecNumber(f, s)
      case None => None
      case Some((n, rest)) => Some((Number(n), rest))
    else
      match DecPrefixed(s)
      case None => None
      case Some((body, rest)) =>
        match f.ltype
        case Bytes(offset) => if |body| + offset > f.dataSize then None else Some((Text(body), rest))
        case String => if |body| + 1 > f.dataSize then None else Some((Text(body), rest))
        case FixedLengthBytes =>
          if body == [] then Some((Text(Zeros(f.dataSize)), rest))
          else if |body| != f.dataSize then None
          else Some((Text(body), rest))
        case Submessage(sub) =>
          var start := if f.htype.Repeated? then Defaults(sub, CellsIn(was)) else CellsIn(was);
          (match DecMessage(sub, body, start)
           case None => None
           case Some(cells) => Some((Struct(cells), rest)))
        case _ => None
  }

  /** Items follow one another to the end of s. */
  function DecPacked(f: Field, s: seq<byte>, items: seq<Value>): Option<seq<Value>>
    decreases f, 1, |s|
  {
    if s == [] then Some(items)
    else if |items| >= f.arraySize then None
    else
      match DecValue(f, s, ZeroValue(f))
      case None => None
      case Some((v, rest)) => DecPacked(f, rest, items + [v])
  }

  function DecField(f: Field, wireType: nat, s: seq<byte>, c: Cell): (r: Option<(Cell, seq<byte>)>)
    ensures r.Some? ==> |r.value.1| < |s|
    decreases f, 2
  {
    match f.htype
    case Required =>
      (match DecValue(f, s, ValueIn(c))
       case None => None
       case Some((v, rest)) => Some((Bare(v), rest)))
    case Optional =>
      (match DecValue(f, s, ValueIn(c))
       case None => None
       case Some((v, rest)) => Some((if f.sizeOffset != 0 then Flagged(true, v) else Bare(v), rest)))
    case Repeated =>
      if wireType == WT_STRING && Packable(f.ltype) then
        match DecPrefixed(s)
        case None => None
        case Some((body, rest)) =>
          (match DecPacked(f, body, ItemsIn(c))
           case None => None
           case Some(items) => Some((Counted(items), rest)))
      else if |ItemsIn(c)| >= f.arraySize then None
      else
        (match DecValue(f, s, ZeroValue(f))
         case None => None
         case Some((v, rest)) => Some((Counted(ItemsIn(c) + [v]), rest)))
    case Oneof =>
      var was := if f.ltype.Submessage? then Struct(Defaults(f.ltype.sub, [])) else ValueIn(c);
      (match DecValue(f, s, was)
       case None => None
       case Some((v, rest)) => Some((Union(f.tag, v), rest)))
  }

  /** The field with this tag, |fields| if there is none. */
  function FindTag(fields: seq<Field>, tag: nat): (k: nat)
    ensures k <= |fields|
    ensures k < |fields| ==> fields[k].tag == tag && !fields[k].ltype.Extension?
    ensures forall j :: 0 <= j < k ==> fields[j].tag != tag || fields[j].ltype.Extension?
    decreases |fields|
  {
    if fields == [] || (fields[0].tag == tag && !fields[0].ltype.Extension?) then 0
    else
      var k := 1 + FindTag(fields[1..], tag);
      assert forall j :: 1 <= j < k ==> fields[j] == fields[1..][j - 1];
      k
  }

  /** The required fields seen so far, of the first that are tracked. */
  function Mark(fields: seq<Field>, i: nat, seen: set<nat>): set<nat>
    requires i < |fields|
  {
    if fields[i].htype.Required? && RequiredBefore(fields, i) < MAX_REQUIRED_FIELDS
    then seen + {RequiredBefore(fields, i)} else seen
  }

  predicate RequiredSeen(fields: seq<Field>, seen: set<nat>) {
    forall k :: 0 <= k < RequiredBefore(fields, |fields|) && k < MAX_REQUIRED_FIELDS ==> k in seen
  }

  datatype Decoded = Decoded(cells: seq<Cell>, seen: set<nat>)

  /** What one field of the input does; a tag of zero in an empty message meets the terminator. */
  function DecStep(d: Descriptor, t: TagResult, m: Decoded): (r: Option<(Decoded, seq<byte>)>)
    requires t.TagOk?
    ensures r.Some? ==> |r.value.1| <= |t.rest|
    decreases d, 0
  {
    var i := FindTag(d.fields, t.tag);
    if i == |d.fields| then
      if d.fields == [] && t.tag == 0 then None
      else
        match SkipField(t.wireType, t.rest)
        case None => None
        case Some(rest) => Some((m, rest))
    else
      match DecField(d.fields[i], t.wireType, t.rest, CellAt(m.cells, Home(d.fields, i)))
      case None => None
      case Some((c, rest)) =>
        var h := Home(d.fields, i);
        Some((Decoded(if h < |m.cells| then m.cells[h := c] else m.cells, Mark(d.fields, i, m.seen)), rest))
  }

  function Run(d: Descriptor, s: seq<byte>, m: Decoded): Option<Decoded>
    decreases d, 1, |s|
  {
    if s == [] then Some(m)
    else
      var t := DecTag(s);
      if t.TagEnd? then Some(m)
      else if t.TagError? then None
      else
        match DecStep(d, t, m)
        case None => None
        case Some((m', rest)) => Run(d, rest, m')
  }

  /** Decodes s into the memory start. */
  function DecMessage(d: Descriptor, s: seq<byte>, start: seq<Cell>): Option<seq<Cell>>
    decreases d, 2
  {
    match Run(d, s, Decoded(start, {}))
    case None => None
    case Some(m) => if RequiredSeen(d.fields, m.seen) then Some(m.cells) else None
  }
}
