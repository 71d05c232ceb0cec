/** The binary form of events: header, texts, typed parameters in any order, metadata, process state. */
module EventCodec {
  import opened Options
  import opened Bytes
  import opened Codec

  // ---- parameter types ----

  const UNICODE_STRING: nat := 1
  const ANSI_STRING: nat := 2
  const INT8: nat := 3
  const UINT8: nat := 4
  const INT16: nat := 5
  const UINT16: nat := 6
  const INT32: nat := 7
  const UINT32: nat := 8
  const INT64: nat := 9
  const UINT64: nat := 10
  const FLOAT: nat := 11
  const DOUBLE: nat := 12
  const BOOL: nat := 13
  const BINARY: nat := 14
  const SID: nat := 17
  const PID: nat := 18
  const TID: nat := 19
  const WBEM_SID: nat := 20
  const PORT: nat := 21
  const IPV4: nat := 23
  const IPV6: nat := 24
  const TIME: nat := 25
  const SLICE: nat := 26
  const ENUM: nat := 27
  const DOS_PATH: nat := 30
  const PATH: nat := 31
  const STATUS: nat := 32
  const KEY: nat := 33
  const FLAGS: nat := 34
  const FLAGS64: nat := 35
  const ADDRESS: nat := 36
  const HANDLE_TYPE: nat := 37

  /** How a value looks on the wire; integers carry their width in bytes. Types without a case write nothing. */
  datatype Kind =
    | Textual | Unsigned(width: nat) | Signed(width: nat) | Boolean | Octets(width: nat) | Fraction(width: nat)
    | Sliced | Opaque | Silent

  /** The type stored in the capture. */
  function CaptureType(t: nat): (r: nat) {
    if t == HANDLE_TYPE || t == DOS_PATH || t == KEY then UNICODE_STRING else t
  }

  /** The type switch of the encoder. */
  function Written(t: nat): (k: Kind) {
    if t in {ANSI_STRING, UNICODE_STRING, KEY, PATH, DOS_PATH, HANDLE_TYPE} then Textual
    else if t == UINT8 then Unsigned(1)
    else if t == INT8 then Signed(1)
    else if t in {UINT16, PORT} then Unsigned(2)
    else if t == INT16 then Signed(2)
    else if t in {UINT32, STATUS, ENUM, FLAGS} then Unsigned(4)
    else if t == INT32 then Signed(4)
    else if t in {UINT64, ADDRESS, FLAGS64} then Unsigned(8)
    else if t == INT64 then Signed(8)
    else if t == DOUBLE then Fraction(4)
    else if t == FLOAT then Fraction(8)
    else if t == IPV4 then Octets(4)
    else if t == IPV6 then Octets(16)
    else if t in {PID, TID} then Unsigned(4)
    else if t == BOOL then Boolean
    else if t == TIME then Textual
    else if t == SLICE then Sliced
    else if t in {BINARY, SID, WBEM_SID} then Opaque
    else Silent
  }

  /** The type switch of the decoder. */
  function Expected(t: nat): (k: Kind) {
    if t in {ANSI_STRING, UNICODE_STRING, PATH} then Textual
    else if t in {UINT64, ADDRESS, FLAGS64} then Unsigned(8)
    else if t == INT64 then Signed(8)
    else if t == DOUBLE then Fraction(8)
    else if t == FLOAT then Fraction(4)
    else if t == IPV4 then Octets(4)
    else if t == IPV6 then Octets(16)
    else if t in {PID, TID} then Unsigned(4)
    else if t == INT32 then Signed(4)
    else if t in {UINT32, ENUM, FLAGS, STATUS} then Unsigned(4)
    else if t in {UINT16, PORT} then Unsigned(2)
    else if t == INT16 then Signed(2)
    else if t == UINT8 then Unsigned(1)
    else if t == INT8 then Signed(1)
    else if t == BOOL then Boolean
    else if t == TIME then Textual
    else if t == SLICE then Sliced
    else if t in {BINARY, SID, WBEM_SID} then Opaque
    else Silent
  }

  /**
   The decoder looks for what the encoder wrote, except that the widths of the two floating-point types are swapped.
   */
  lemma SwitchesAgree(t: nat)
    ensures Expected(CaptureType(t)) == Written(t) <==> t != FLOAT && t != DOUBLE
  {
  }

  /** Types that share a layout keep their own number in the capture, except that three are stored as texts (1). */
  lemma CaptureTypeExactly(t: nat)
    ensures CaptureType(t) == if t in {30, 33, 37} then 1 else t
  {
  }

  /** What the encoder writes for the types by number. */
  lemma WrittenExactly(t: nat)
    ensures Written(t).Textual? <==> t in {1, 2, 25, 30, 31, 33, 37}
    ensures Written(t).Unsigned?
            <==> t in {4, 6, 8, 10, 18, 19, 21, 27, 32, 34, 35, 36}
    ensures Written(t).Unsigned?
            ==> Written(t).width == if t == 4 then 1 else if t in {6, 21} then 2 else if t in {10, 35, 36} then 8 else 4
    ensures Written(t) == Signed(1) <==> t == 3
    ensures Written(t) == Signed(2) <==> t == 5
    ensures Written(t) == Signed(4) <==> t == 7
    ensures Written(t) == Signed(8) <==> t == 9
    ensures Written(t) == Octets(4) <==> t == 23
    ensures Written(t) == Octets(16) <==> t == 24
    ensures Written(t) == Fraction(8) <==> t == 11
    ensures Written(t) == Fraction(4) <==> t == 12
    ensures Written(t).Boolean? <==> t == 13
    ensures Written(t).Sliced? <==> t == 26
    ensures Written(t).Opaque? <==> t in {14, 17, 20}
  {
  }

  /** Paths, keys and handle types are their rendered text, times their RFC 3339 text, fractions their bit pattern. */
  datatype Value =
    | Str(text: ByteString) | Num(number: int) | Truth(truth: bool) | Address(octets: ByteString) | Bits(bits: nat)
    | Strings(items: seq<ByteString>) | Addresses(addresses: seq<nat>) | Blob(data: ByteString)

  datatype Param = Param(typ: nat, name: ByteString, value: Value)

  // ---- the layout ----

  const SLICE_STRINGS: Byte := 115
  const SLICE_ADDRESSES: Byte := 56

  /** Two's complement. */
  function Complement(n: int, width: nat): (v: nat) {
    n % Capacity(width)
  }

  function ValueBytes(k: Kind, v: Value): ByteString {
    match (k, v)
    case (Textual, Str(s)) => Text(s)
    case (Unsigned(w), Num(n)) => WriteUint(Complement(n, w), w)
    case (Signed(w), Num(n)) => WriteUint(Complement(n, w), w)
    case (Boolean, Truth(t)) => Flag(t)
    case (Octets(_), Address(a)) => a
    case (Fraction(w), Bits(n)) => WriteUint(n, w)
    case (Sliced, Strings(xs)) => [SLICE_STRINGS] + (U16(|xs|) + Concat(xs, Text))
    case (Sliced, Addresses(xs)) => [SLICE_ADDRESSES] + (U16(|xs|) + Concat(xs, U64))
    case (Opaque, Blob(d)) => U32(|d|) + d
    case _ => []
  }

  function ParamBytes(p: Param): ByteString {
    U16(CaptureType(p.typ)) + (Text(p.name) + ValueBytes(Written(p.typ), p.value))
  }

  datatype Pair = Pair(key: ByteString, value: ByteString)

  function PairBytes(t: Pair): ByteString {
    Text(t.key) + Text(t.value)
  }

  /**
   Parameters and metadata are maps; they are listed here in the order in which the encoder visits them.
   `state` is the serialised process state where the event carries one.
   */
  datatype Event = Event(
    seqNo: nat, pid: nat, tid: nat, typ: ByteString, cpu: Byte,
    name: ByteString, category: ByteString, description: ByteString, host: ByteString, timestamp: ByteString,
    params: seq<Param>, metadata: seq<Pair>, state: Option<ByteString>)

  const PROCESS_SECTION: Byte := 1
  const PROCESS_SEC_V4: Byte := 4

  function State(e: Event): ByteString {
    if e.state.Some? then e.state.value else []
  }

  function SectionHeader(size: nat): ByteString {
    [PROCESS_SECTION, PROCESS_SEC_V4] + (U32(0) + U32(size))
  }

  // Each of the following is the layout from one field to the end.

  function FromSection(e: Event): ByteString {
    SectionHeader(|State(e)|) + State(e)
  }

  function FromMetadata(e: Event): ByteString {
    U16(|e.metadata|) + (Concat(e.metadata, PairBytes) + FromSection(e))
  }

  function FromParams(e: Event): ByteString {
    U16(|e.params|) + (Concat(e.params, ParamBytes) + FromMetadata(e))
  }

  function FromTexts(e: Event): ByteString {
    Text(e.name) + (Text(e.category) + (Text(e.description) + (Text(e.host) + (Text(e.timestamp) + FromParams(e)))))
  }

  function Layout(e: Event): ByteString {
    U64(e.seqNo) + (U32(e.pid) + (U32(e.tid) + (e.typ + ([e.cpu] + FromTexts(e)))))
  }

  // ---- writing ----

  /** The value's dynamic type is the one its parameter type calls for; the encoder panics otherwise. */
  predicate Typed(k: Kind, v: Value) {
    match k
    case Textual => v.Str?
    case Unsigned(w) => v.Num? && 0 <= v.number < Capacity(w)
    case Signed(w) => v.Num? && 0 <= 2 * v.number + Capacity(w) < 2 * Capacity(w)
    case Boolean => v.Truth?
    case Octets(w) => v.Address? && |v.octets| == w
    case Fraction(w) => v.Bits? && v.bits < Capacity(w)
    case Sliced => v.Strings? || v.Addresses?
    case Opaque => v.Blob?
    case Silent => true
  }

  method MarshalTexts(b: ByteString, e: Event) returns (r: ByteString)
    ensures r + FromParams(e) == b + FromTexts(e)
  {
    hide Text, FromParams;
    r := b + Text(e.name);
    r := r + Text(e.category);
    r := r + Text(e.description);
    r := r + Text(e.host);
    r := r + Text(e.timestamp);
  }

  method MarshalHeader(e: Event) returns (b: ByteString)
    ensures b + FromTexts(e) == Layout(e)
  {
    hide U64, U32, FromTexts;
    b := [];
    b := b + U64(e.seqNo);
    b := b + U32(e.pid);
    b := b + U32(e.tid);
    b := b + e.typ;
    b := b + [e.cpu];
  }

  method MarshalRaw(e: Event) returns (b: ByteString)
    requires forall p :: p in e.params ==> Typed(Written(p.typ), p.value)
    ensures b == Layout(e)
  {
    hide Layout, FromTexts, SectionHeader, Concat, U16;
    b := MarshalHeader(e);
    b := MarshalTexts(b, e);
    b := MarshalList(b, e.params, ParamBytes, FromMetadata(e));
    b := MarshalList(b, e.metadata, PairBytes, FromSection(e));
    if e.state.Some? {
      b := b + SectionHeader(|e.state.value|);
      b := b + e.state.value;
    } else {
      b := b + SectionHeader(0);
    }
  }

  // ---- reading values ----

  /** Lengths and counts fit their 16-bit and 32-bit prefixes. */
  predicate FitsValue(v: Value) {
    match v
    case Str(s) => FitsText(s)
    case Strings(xs) => |xs| < LIMIT16 && forall i :: 0 <= i < |xs| ==> FitsText(xs[i])
    case Addresses(xs) => |xs| < LIMIT16 && forall i :: 0 <= i < |xs| ==> xs[i] < LIMIT64
    case Blob(d) => |d| < LIMIT32
    case _ => true
  }

  function Zeros(n: nat): (r: seq<nat>)
    ensures |r| == n && forall i :: 0 <= i < n ==> r[i] == 0
  {
    seq(n, _ => 0)
  }

  /**
   What the decoder makes of a value that the byte `next` follows. Texts, numbers, truth values and addresses come
   back. Byte blobs are read two bytes early, the items of a string slice one byte late; memory addresses are skipped.
   */
  predicate SeenAs(got: Value, sent: Value, next: Byte) {
    match sent
    case Blob(d) => got == Blob(Early(d))
    case Addresses(xs) => got == Addresses(Zeros(|xs|))
    case Strings(xs) =>
      got.Strings? && |got.items| == |xs| && forall i :: 0 <= i < |xs| ==> got.items[i] == Late(xs, i, next)
    case _ => got == sent
  }

  /** The low byte of a number comes first on the wire. */
  function LowByte(n: nat): Byte {
    n % 256
  }

  /** The byte behind an item: the next item's length begins there, or whatever comes after the slice. */
  function ByteBehind(xs: seq<ByteString>, i: nat, next: Byte): Byte {
    if i + 1 < |xs| then LowByte(|xs[i + 1]|) else next
  }

  /** The item without its first byte, and the byte behind it. */
  function Late(xs: seq<ByteString>, i: nat, next: Byte): ByteString
    requires i < |xs|
  {
    if xs[i] == [] then [] else xs[i][1..] + [ByteBehind(xs, i, next)]
  }

  /** As many bytes as the blob has, from the middle of its length prefix. */
  function Early(d: ByteString): ByteString {
    (U32(|d|) + d)[2..2 + |d|]
  }

  /** The kinds for which the decoder advances by what was written. */
  predicate Framed(k: Kind) {
    !k.Fraction? && !k.Silent?
  }

  function SignedOf(v: nat, width: nat): (n: int) {
    if 2 * v < Capacity(width) then v else v - Capacity(width)
  }

  lemma SignSurvives(n: int, width: nat)
    requires 0 <= 2 * n + Capacity(width) < 2 * Capacity(width)
    ensures SignedOf(Complement(n, width), width) == n
  {
    var c := Capacity(width);
    if n >= 0 {
      ModUnique(n, c, 0, n);
    } else {
      ModUnique(n, c, -1, n + c);
    }
  }

  /** A value of kind `k` lies ahead, and after it at least the section header. */
  predicate ValueAhead(b: ByteString, at: nat, k: Kind, v: Value, rest: ByteString) {
    && |b| < LIMIT32 && Ahead(b, at, ValueBytes(k, v) + rest) && |rest| >= 10
    && Typed(k, v) && FitsValue(v)
  }

  /** The outcome of reading one value: `None` when the decoder panics, no value where it would store nil. */
  datatype Read = Read(value: Option<Value>, size: nat)

  predicate ReadsBack(r: Option<Read>, b: ByteString, at: nat, k: Kind, v: Value, rest: ByteString) {
    && r.Some? && r.value.value.Some? && rest != [] && SeenAs(r.value.value.value, v, rest[0])
    && r.value.size == |ValueBytes(k, v)| && at + r.value.size <= |b| && Ahead(b, at + r.value.size, rest)
  }

  method ReadString(b: ByteString, at: nat, ghost v: Value, ghost rest: ByteString) returns (r: Option<Read>)
    ensures ValueAhead(b, at, Textual, v, rest) ==> ReadsBack(r, b, at, Textual, v, rest)
  {
    hide TakeUint, TakeText, Text, Wrap32;
    WrapSmall();
    if ValueAhead(b, at, Textual, v, rest) {
      TextAt(b, at, v.text, rest);
      TextSize(v.text);
    }
    var l := TakeUint(b, Wrap32(at), 2);
    if l.None? || Wrap32(at + 2) > |b| {
      return None;
    }
    if Wrap32(at + 2) == |b| {
      return Some(Read(None, 2 + l.value));
    }
    var text := TakeText(b, Wrap32(at + 2), l.value);
    r := if text.None? then None else Some(Read(Some(Str(text.value)), 2 + l.value));
  }

  method ReadUnsigned(b: ByteString, at: nat, width: nat, ghost v: Value, ghost rest: ByteString)
    returns (r: Option<Read>)
    ensures ValueAhead(b, at, Unsigned(width), v, rest) ==> ReadsBack(r, b, at, Unsigned(width), v, rest)
  {
    hide TakeUint, Wrap32, Ahead;
    WrapSmall();
    if ValueAhead(b, at, Unsigned(width), v, rest) {
      ModUnique(v.number, Capacity(width), 0, v.number);
      UintAt(b, at, v.number, width, rest);
    }
    var n := TakeUint(b, Wrap32(at), width);
    r := if n.None? then None else Some(Read(Some(Num(n.value)), width));
  }

  method ReadSigned(b: ByteString, at: nat, width: nat, ghost v: Value, ghost rest: ByteString)
    returns (r: Option<Read>)
    ensures ValueAhead(b, at, Signed(width), v, rest) ==> ReadsBack(r, b, at, Signed(width), v, rest)
  {
    hide TakeUint, Wrap32, Ahead, Complement, SignedOf;
    WrapSmall();
    if ValueAhead(b, at, Signed(width), v, rest) {
      SignSurvives(v.number, width);
      ComplementFits(v.number, width);
      UintAt(b, at, Complement(v.number, width), width, rest);
    }
    var n := TakeUint(b, Wrap32(at), width);
    r := if n.None? then None else Some(Read(Some(Num(SignedOf(n.value, width))), width));
  }

  lemma ComplementFits(n: int, width: nat)
    ensures Complement(n, width) < Capacity(width)
  {
  }

  method ReadBoolean(b: ByteString, at: nat, ghost v: Value, ghost rest: ByteString) returns (r: Option<Read>)
    ensures ValueAhead(b, at, Boolean, v, rest) ==> ReadsBack(r, b, at, Boolean, v, rest)
  {
    hide Wrap32, Ahead;
    WrapSmall();
    if ValueAhead(b, at, Boolean, v, rest) {
      FlagAt(b, at, v.truth, rest);
    }
    if Wrap32(at) >= |b| {
      return None;
    }
    r := Some(Read(Some(Truth(b[Wrap32(at)] == 1)), 1));
  }

  method ReadOctets(b: ByteString, at: nat, width: nat, ghost v: Value, ghost rest: ByteString)
    returns (r: Option<Read>)
    ensures ValueAhead(b, at, Octets(width), v, rest) ==> ReadsBack(r, b, at, Octets(width), v, rest)
  {
    hide Wrap32, Ahead;
    WrapSmall();
    if ValueAhead(b, at, Octets(width), v, rest) {
      Advance(b, at, v.octets, rest);
    }
    if Wrap32(at) + width > |b| {
      return None;
    }
    r := Some(Read(Some(Address(b[Wrap32(at)..Wrap32(at) + width])), width));
  }

  lemma BlobAt(b: ByteString, at: nat, d: ByteString, rest: ByteString)
    requires |d| < LIMIT32 && |rest| >= 10 && Ahead(b, at, (U32(|d|) + d) + rest)
    ensures TakeUint(b, at, 4) == Some(|d|) && at + 4 + |d| < |b| && b[at + 2..at + 2 + |d|] == Early(d)
    ensures Ahead(b, at + 4 + |d|, rest)
  {
    hide U32, TakeUint;
    Assoc(U32(|d|), d, rest);
    U32At(b, at, |d|, d + rest);
    var x := U32(|d|) + d;
    U32Size(|d|);
    Advance(b, at, x, rest);
    assert b[at + 2..at + 2 + |d|] == b[at..at + |x|][2..2 + |d|];
  }

  lemma U32Size(n: nat)
    ensures |U32(n)| == 4
  {
  }

  method ReadBlob(b: ByteString, at: nat, ghost v: Value, ghost rest: ByteString) returns (r: Option<Read>)
    ensures ValueAhead(b, at, Opaque, v, rest) ==> ReadsBack(r, b, at, Opaque, v, rest)
  {
    hide Wrap32, Ahead, TakeUint, Early, U32;
    WrapSmall();
    if ValueAhead(b, at, Opaque, v, rest) {
      BlobAt(b, at, v.data, rest);
      U32Size(|v.data|);
    }
    var l := TakeUint(b, Wrap32(at), 4);
    var from := Wrap32(at + 2);
    if l.None? || from > |b| {
      return None;
    }
    if from == |b| {
      return Some(Read(None, 4 + l.value));
    }
    if from + l.value > |b| {
      return None;
    }
    r := Some(Read(Some(Blob(b[from..from + l.value])), 4 + l.value));
  }

  // ---- reading slices ----

  /** A text read one byte late. */
  lemma LateAt(b: ByteString, at: nat, s: ByteString, tail: ByteString)
    requires Ahead(b, at, Text(s) + tail) && |tail| >= 2
    ensures TakeText(b, at + 3, |s|) == Some(if s == [] then [] else s[1..] + [tail[0]])
  {
    hide U16;
    U16Size(|s|);
    var x := Text(s) + tail;
    assert |x| == 2 + |s| + |tail|;
    assert b[at + 3..at + 3 + |s|] == b[at..][3..3 + |s|];
    assert x[3..3 + |s|] == if s == [] then [] else s[1..] + [tail[0]];
  }

  lemma BehindItem(xs: seq<ByteString>, n: nat, rest: ByteString)
    requires n < |xs| && |rest| >= 10
    ensures var tail := Concat(xs[n + 1..], Text) + rest;
            |tail| >= 10 && tail[0] == ByteBehind(xs, n, rest[0])
  {
    if n + 1 < |xs| {
      StartsLow(|xs[n + 1]|);
    }
  }

  lemma StartsLow(n: nat)
    ensures |U16(n)| == 2 && U16(n)[0] == LowByte(n)
  {
  }

  /** One round of the string loop, which reads the length in place and the text one byte late. */
  method ReadItem(b: ByteString, at: nat, o: nat, ghost xs: seq<ByteString>, ghost n: nat, ghost rest: ByteString)
    returns (r: Option<ByteString>, off: nat)
    ensures ItemsAhead(b, at + 3 + o, xs, n, Text, rest) && n < |xs| && FitsText(xs[n]) && |rest| >= 10
            ==> && r == Some(Late(xs, n, rest[0])) && off == o + 2 + |xs[n]|
                && ItemsAhead(b, at + 3 + off, xs, n + 1, Text, rest)
  {
    hide Concat, Text, TakeUint, TakeText, Wrap32;
    WrapSmall();
    if ItemsAhead(b, at + 3 + o, xs, n, Text, rest) && n < |xs| && FitsText(xs[n]) && |rest| >= 10 {
      ListNext(b, at + 3 + o, xs, n, Text, rest);
      TextAt(b, at + 3 + o, xs[n], Concat(xs[n + 1..], Text) + rest);
      BehindItem(xs, n, rest);
      LateAt(b, at + 3 + o, xs[n], Concat(xs[n + 1..], Text) + rest);
    }
    var size := TakeUint(b, Wrap32(at + 3 + o), 2);
    if size.None? {
      return None, 0;
    }
    r := TakeText(b, Wrap32(at + 6 + o), size.value);
    off := Wrap32(o + 2 + size.value);
  }

  lemma {:induction false} TextsSize(xs: seq<ByteString>, n: nat)
    requires n < |xs|
    ensures |Concat(xs[..n + 1], Text)| == |Concat(xs[..n], Text)| + 2 + |xs[n]|
  {
    ConcatNext(xs, n, Text);
    TextSize(xs[n]);
  }

  method ReadItems(b: ByteString, at: nat, l: nat, ghost xs: seq<ByteString>, ghost rest: ByteString)
    returns (r: Option<seq<ByteString>>, off: nat)
    ensures && ItemsAhead(b, at + 3, xs, 0, Text, rest) && FitsValue(Strings(xs)) && |rest| >= 10 && l == |xs|
            ==> && r.Some? && SeenAs(Strings(r.value), Strings(xs), rest[0]) && off == |Concat(xs, Text)|
                && Ahead(b, at + 3 + off, rest)
  {
    hide ItemsAhead, Ahead, FitsText, Text, Late;
    ghost var good := ItemsAhead(b, at + 3, xs, 0, Text, rest) && FitsValue(Strings(xs)) && |rest| >= 10 && l == |xs|;
    var items: seq<ByteString> := [];
    off := 0;
    ConcatEnds(xs, Text);
    for n := 0 to l
      invariant good ==> |items| == n && forall i :: 0 <= i < n ==> items[i] == Late(xs, i, rest[0])
      invariant good ==> off == |Concat(xs[..n], Text)|
      invariant good ==> ItemsAhead(b, at + 3 + off, xs, n, Text, rest)
    {
      hide Concat;
      if good {
        TextsSize(xs, n);
      }
      var item;
      item, off := ReadItem(b, at, off, xs, n, rest);
      if item.None? {
        return None, 0;
      }
      items := items + [item.value];
    }
    r := Some(items);
    if good {
      ListEnds(b, at + 3 + off, xs, Text, rest);
    }
  }

  /** One round of the address loop, which skips over an address without keeping it. */
  method SkipAddress(b: ByteString, at: nat, o: nat, ghost xs: seq<nat>, ghost n: nat, ghost rest: ByteString)
    returns (ok: bool, off: nat)
    ensures ItemsAhead(b, at + 3 + o, xs, n, U64, rest) && n < |xs| && xs[n] < LIMIT64 && |rest| >= 10
            ==> ok && off == o + 8 && ItemsAhead(b, at + 3 + off, xs, n + 1, U64, rest)
  {
    hide Concat, U64, Wrap32;
    WrapSmall();
    if ItemsAhead(b, at + 3 + o, xs, n, U64, rest) && n < |xs| && xs[n] < LIMIT64 {
      ListNext(b, at + 3 + o, xs, n, U64, rest);
      U64At(b, at + 3 + o, xs[n], Concat(xs[n + 1..], U64) + rest);
    }
    ok := TakeUint(b, Wrap32(at + 6 + o), 8).Some?;
    off := Wrap32(o + 8);
  }

  lemma AddressesSize(xs: seq<nat>, n: nat)
    requires n < |xs|
    ensures |Concat(xs[..n + 1], U64)| == |Concat(xs[..n], U64)| + 8
  {
    ConcatNext(xs, n, U64);
  }

  method SkipAddresses(b: ByteString, at: nat, l: nat, ghost xs: seq<nat>, ghost rest: ByteString)
    returns (ok: bool, off: nat)
    ensures && ItemsAhead(b, at + 3, xs, 0, U64, rest) && FitsValue(Addresses(xs)) && |rest| >= 10 && l == |xs|
            ==> && ok && off == |Concat(xs, U64)| && Ahead(b, at + 3 + off, rest)
  {
    hide ItemsAhead, Ahead, U64;
    ghost var good := ItemsAhead(b, at + 3, xs, 0, U64, rest) && FitsValue(Addresses(xs)) && |rest| >= 10 && l == |xs|;
    ok, off := true, 0;
    ConcatEnds(xs, U64);
    for n := 0 to l
      invariant good ==> ok && off == |Concat(xs[..n], U64)| && ItemsAhead(b, at + 3 + off, xs, n, U64, rest)
    {
      hide Concat;
      if good {
        AddressesSize(xs, n);
      }
      ok, off := SkipAddress(b, at, off, xs, n, rest);
      if !ok {
        return;
      }
    }
    if good {
      ListEnds(b, at + 3 + off, xs, U64, rest);
    }
  }

  /** A slice opens with the kind of its items and their count. */
  lemma SliceOpens<T>(b: ByteString, at: nat, tag: Byte, xs: seq<T>, enc: T -> ByteString, rest: ByteString)
    requires |b| < LIMIT32 && |xs| < LIMIT16 && Ahead(b, at, ([tag] + (U16(|xs|) + Concat(xs, enc))) + rest)
    ensures at < |b| && b[at] == tag && TakeUint(b, at + 1, 2) == Some(|xs|) && at + 3 <= |b|
    ensures ItemsAhead(b, at + 3, xs, 0, enc, rest)
    ensures |[tag] + (U16(|xs|) + Concat(xs, enc))| == 3 + |Concat(xs, enc)|
  {
    hide U16, Concat, TakeUint;
    Assoc([tag], U16(|xs|) + Concat(xs, enc), rest);
    Assoc(U16(|xs|), Concat(xs, enc), rest);
    Advance(b, at, [tag], U16(|xs|) + (Concat(xs, enc) + rest));
    assert b[at] == b[at..at + 1][0];
    U16At(b, at + 1, |xs|, Concat(xs, enc) + rest);
    ConcatEnds(xs, enc);
    U16Size(|xs|);
  }

  lemma U16Size(n: nat)
    ensures |U16(n)| == 2
  {
  }

  lemma SliceAt(b: ByteString, at: nat, v: Value, rest: ByteString)
    requires ValueAhead(b, at, Sliced, v, rest)
    ensures at + 3 <= |b|
    ensures v.Strings? ==>
              && b[at] == SLICE_STRINGS && TakeUint(b, at + 1, 2) == Some(|v.items|)
              && ItemsAhead(b, at + 3, v.items, 0, Text, rest)
              && |ValueBytes(Sliced, v)| == 3 + |Concat(v.items, Text)|
    ensures v.Addresses? ==>
              && b[at] == SLICE_ADDRESSES && TakeUint(b, at + 1, 2) == Some(|v.addresses|)
              && ItemsAhead(b, at + 3, v.addresses, 0, U64, rest)
              && |ValueBytes(Sliced, v)| == 3 + |Concat(v.addresses, U64)|
  {
    hide Concat, Ahead, ItemsAhead, TakeUint, U16, U64, Text, FitsText;
    if v.Strings? {
      SliceOpens(b, at, SLICE_STRINGS, v.items, Text, rest);
    } else {
      SliceOpens(b, at, SLICE_ADDRESSES, v.addresses, U64, rest);
    }
  }

  method ReadSlice(b: ByteString, at: nat, ghost v: Value, ghost rest: ByteString) returns (r: Option<Read>)
    ensures ValueAhead(b, at, Sliced, v, rest) ==> ReadsBack(r, b, at, Sliced, v, rest)
  {
    hide Concat, ItemsAhead, TakeUint, Text, U64, Wrap32, ValueBytes, FitsText, SeenAs;
    WrapSmall();
    if ValueAhead(b, at, Sliced, v, rest) {
      SliceAt(b, at, v, rest);
    }
    var l := TakeUint(b, Wrap32(at + 1), 2);
    if Wrap32(at) >= |b| || l.None? {
      return None;
    }
    if b[Wrap32(at)] == SLICE_STRINGS {
      var items, off := ReadItems(b, at, l.value, if v.Strings? then v.items else [], rest);
      return if items.None? then None else Some(Read(Some(Strings(items.value)), 3 + off));
    }
    if b[Wrap32(at)] == SLICE_ADDRESSES {
      ghost var xs := if v.Addresses? then v.addresses else [];
      var ok, off := SkipAddresses(b, at, l.value, xs, rest);
      ZerosSeen(xs, if rest == [] then 0 else rest[0]);
      return if !ok then None else Some(Read(Some(Addresses(Zeros(l.value))), 3 + off));
    }
    r := Some(Read(None, 3));
  }

  lemma ZerosSeen(xs: seq<nat>, next: Byte)
    ensures SeenAs(Addresses(Zeros(|xs|)), Addresses(xs), next)
  {
  }

  // ---- reading parameters ----

  /** The values of floating-point types are skipped at the width the decoder expects. */
  method ReadValue(b: ByteString, at: nat, k: Kind, ghost v: Value, ghost rest: ByteString) returns (r: Option<Read>)
    ensures ValueAhead(b, at, k, v, rest) && Framed(k) ==> ReadsBack(r, b, at, k, v, rest)
    ensures r.Some? && k.Fraction? ==> r.value.size == k.width
  {
    hide ValueAhead, ReadsBack, TakeUint;
    match k
    case Textual => r := ReadString(b, at, v, rest);
    case Unsigned(w) => r := ReadUnsigned(b, at, w, v, rest);
    case Signed(w) => r := ReadSigned(b, at, w, v, rest);
    case Boolean => r := ReadBoolean(b, at, v, rest);
    case Octets(w) => r := ReadOctets(b, at, w, v, rest);
    case Fraction(w) =>
      var n := TakeUint(b, Wrap32(at), w);
      r := if n.None? then None else Some(Read(Some(Bits(n.value)), w));
    case Sliced => r := ReadSlice(b, at, v, rest);
    case Opaque => r := ReadBlob(b, at, v, rest);
    case Silent => r := Some(Read(None, 0));
  }

  predicate FitsParam(p: Param) {
    && p.typ < LIMIT16 && FitsText(p.name)
    && Typed(Written(p.typ), p.value) && FitsValue(p.value) && Framed(Written(p.typ))
  }

  lemma FramedAgree(t: nat)
    requires Framed(Written(t))
    ensures Expected(CaptureType(t)) == Written(t)
  {
    SwitchesAgree(t);
  }

  lemma ParamOpens(b: ByteString, at: nat, p: Param, rest: ByteString)
    requires |b| < LIMIT32 && FitsParam(p) && |rest| >= 10 && Ahead(b, at, ParamBytes(p) + rest)
    ensures TakeUint(b, at, 2) == Some(CaptureType(p.typ))
    ensures TakeUint(b, at + 2, 2) == Some(|p.name|) && TakeText(b, at + 4, |p.name|) == Some(p.name)
    ensures at + 4 + |p.name| <= |b| && ValueAhead(b, at + 4 + |p.name|, Written(p.typ), p.value, rest)
    ensures Expected(CaptureType(p.typ)) == Written(p.typ)
  {
    FramedAgree(p.typ);
    hide Ahead, U16, Text, TakeUint, TakeText, ValueBytes, Written, Expected, Typed, FitsValue;
    var value := ValueBytes(Written(p.typ), p.value);
    assert CaptureType(p.typ) < LIMIT16;
    Assoc(U16(CaptureType(p.typ)), Text(p.name) + value, rest);
    Assoc(Text(p.name), value, rest);
    U16At(b, at, CaptureType(p.typ), Text(p.name) + (value + rest));
    TextAt(b, at + 2, p.name, value + rest);
  }

  lemma TakenSize(b: ByteString, at: nat, length: nat)
    ensures TakeText(b, at, length).Some? ==> |TakeText(b, at, length).value| == length
  {
  }

  /** How far the parameter loop moves on for a parameter. */
  function Skipped(p: Param): nat {
    var k := Expected(CaptureType(p.typ));
    if k.Silent? then 0 else 4 + |p.name| + if k.Fraction? then k.width else |ValueBytes(k, p.value)|
  }

  /** The loop stays on the encoder's tracks exactly when the type is known and is not a floating-point number. */
  lemma SkippedExactly(p: Param)
    requires Typed(Written(p.typ), p.value)
    ensures Skipped(p) == |ParamBytes(p)| <==> Framed(Written(p.typ))
  {
    SwitchesAgree(p.typ);
    TextSize(p.name);
    U16Size(CaptureType(p.typ));
    hide U16, Text, Concat, U64, U32;
  }

  datatype Captured = Captured(typ: nat, value: Value)

  /** One round of the parameter loop: 16 bytes of fixed fields precede the first parameter's value. */
  method ReadParam(b: ByteString, base: nat, po: nat, ghost p: Param, ghost rest: ByteString)
    returns (r: Option<(ByteString, nat, Option<Value>)>, poffset: nat)
    ensures |b| < LIMIT32 && FitsParam(p) && |rest| >= 10 && Ahead(b, base + 12 + po, ParamBytes(p) + rest)
            ==> && r.Some? && r.value.0 == p.name && r.value.1 == CaptureType(p.typ)
                && r.value.2.Some? && SeenAs(r.value.2.value, p.value, rest[0])
                && Ahead(b, base + 12 + poffset, rest)
    ensures r.Some? && Expected(r.value.1).Fraction?
            ==> poffset == Wrap32(po + |r.value.0| + 4 + Expected(r.value.1).width)
    ensures r.Some? && Expected(r.value.1).Silent? ==> poffset == po
  {
    hide Ahead, ParamBytes, TakeUint, TakeText, ValueBytes, ValueAhead, Written, Expected, SeenAs, Wrap32, FitsText,
      Typed, FitsValue, CaptureType;
    WrapSmall();
    if |b| < LIMIT32 && FitsParam(p) && |rest| >= 10 && Ahead(b, base + 12 + po, ParamBytes(p) + rest) {
      ParamOpens(b, base + 12 + po, p, rest);
    }
    var typ := TakeUint(b, Wrap32(base + 12 + po), 2);
    var l := TakeUint(b, Wrap32(base + 14 + po), 2);
    if typ.None? || l.None? {
      return None, 0;
    }
    var name := TakeText(b, Wrap32(base + 16 + po), l.value);
    if name.None? {
      return None, 0;
    }
    TakenSize(b, Wrap32(base + 16 + po), l.value);
    var value := ReadValue(b, base + 16 + l.value + po, Expected(typ.value), p.value, rest);
    if value.None? {
      return None, 0;
    }
    poffset := if Expected(typ.value).Silent? then po else Wrap32(po + l.value + 4 + value.value.size);
    r := Some((name.value, typ.value, value.value.value));
  }

  /** The byte behind a parameter: the next one's type begins there, or whatever comes after the last. */
  function ByteAfter(ps: seq<Param>, i: nat, end: Byte): Byte {
    if i + 1 < |ps| then LowByte(CaptureType(ps[i + 1].typ)) else end
  }

  /** The first `n` parameters are there, each under its name and capture type, and no others. */
  ghost predicate Reproduces(got: map<ByteString, Captured>, ps: seq<Param>, n: nat, end: Byte)
    requires n <= |ps|
  {
    && (forall name :: name in got ==> exists i :: 0 <= i < n && ps[i].name == name)
    && forall i :: 0 <= i < n ==>
         && ps[i].name in got && got[ps[i].name].typ == CaptureType(ps[i].typ)
         && SeenAs(got[ps[i].name].value, ps[i].value, ByteAfter(ps, i, end))
  }

  lemma ReproducesNext(got: map<ByteString, Captured>, ps: seq<Param>, n: nat, end: Byte, value: Value)
    requires n < |ps| && Reproduces(got, ps, n, end) && SeenAs(value, ps[n].value, ByteAfter(ps, n, end))
    requires forall i, j :: 0 <= i < j < |ps| ==> ps[i].name != ps[j].name
    ensures Reproduces(got[ps[n].name := Captured(CaptureType(ps[n].typ), value)], ps, n + 1, end)
  {
    hide SeenAs, CaptureType, ByteAfter;
  }

  lemma BehindParam(ps: seq<Param>, n: nat, rest: ByteString)
    requires n < |ps| && |rest| >= 10
    ensures var tail := Concat(ps[n + 1..], ParamBytes) + rest;
            |tail| >= 10 && tail[0] == ByteAfter(ps, n, rest[0])
  {
    hide U16, Text, ValueBytes, CaptureType;
    if n + 1 < |ps| {
      StartsLow(CaptureType(ps[n + 1].typ));
    }
  }

  predicate FitsParams(ps: seq<Param>) {
    && |ps| < LIMIT16 && (forall i :: 0 <= i < |ps| ==> FitsParam(ps[i]))
    && (forall i, j :: 0 <= i < j < |ps| ==> ps[i].name != ps[j].name)
  }

  method ReadListedParam(b: ByteString, base: nat, po: nat, ghost ps: seq<Param>, ghost n: nat, ghost rest: ByteString)
    returns (r: Option<(ByteString, nat, Option<Value>)>, poffset: nat)
    ensures ItemsAhead(b, base + 12 + po, ps, n, ParamBytes, rest) && n < |ps| && FitsParam(ps[n]) && |rest| >= 10
            ==> && r.Some? && r.value.0 == ps[n].name && r.value.1 == CaptureType(ps[n].typ)
                && r.value.2.Some? && SeenAs(r.value.2.value, ps[n].value, ByteAfter(ps, n, rest[0]))
                && ItemsAhead(b, base + 12 + poffset, ps, n + 1, ParamBytes, rest)
  {
    hide Concat, ParamBytes, Ahead, FitsParam, SeenAs, CaptureType;
    ghost var p, tail := Param(0, [], Bits(0)), rest;
    if ItemsAhead(b, base + 12 + po, ps, n, ParamBytes, rest) && n < |ps| && |rest| >= 10 {
      ListNext(b, base + 12 + po, ps, n, ParamBytes, rest);
      BehindParam(ps, n, rest);
      p, tail := ps[n], Concat(ps[n + 1..], ParamBytes) + rest;
    }
    r, poffset := ReadParam(b, base, po, p, tail);
  }

  method ReadParams(b: ByteString, base: nat, ghost ps: seq<Param>, ghost rest: ByteString)
    returns (r: Option<map<ByteString, Captured>>, poffset: nat)
    ensures ListAhead(b, base + 10, ps, ParamBytes, rest) && FitsParams(ps) && |rest| >= 10
            ==> r.Some? && Reproduces(r.value, ps, |ps|, rest[0]) && Ahead(b, base + 12 + poffset, rest)
  {
    hide ListAhead, ItemsAhead, FitsParam, Ahead, TakeUint, ParamBytes, SeenAs, CaptureType;
    ghost var good := ListAhead(b, base + 10, ps, ParamBytes, rest) && FitsParams(ps) && |rest| >= 10;
    if good {
      ListBegins(b, base + 10, ps, ParamBytes, rest);
    }
    poffset := 0;
    var nparams := TakeUint(b, Wrap32(base + 10), 2);
    if nparams.None? {
      return None, 0;
    }
    var got: map<ByteString, Captured> := map[];
    for n := 0 to nparams.value
      invariant good ==> nparams.value == |ps| && Reproduces(got, ps, n, rest[0])
      invariant good ==> ItemsAhead(b, base + 12 + poffset, ps, n, ParamBytes, rest)
    {
      hide Reproduces;
      var p;
      p, poffset := ReadListedParam(b, base, poffset, ps, n, rest);
      if p.None? {
        return None, 0;
      }
      if p.value.2.Some? {
        if good {
          ReproducesNext(got, ps, n, rest[0], p.value.2.value);
        }
        got := got[p.value.0 := Captured(p.value.1, p.value.2.value)];
      }
    }
    r := Some(got);
    if good {
      assert ps[..|ps|] == ps;
      ListEnds(b, base + 12 + poffset, ps, ParamBytes, rest);
    }
  }

  // ---- reading metadata ----

  predicate FitsPair(t: Pair) {
    FitsText(t.key) && FitsText(t.value)
  }

  lemma PairAt(b: ByteString, at: nat, t: Pair, rest: ByteString)
    requires FitsPair(t) && rest != [] && Ahead(b, at, PairBytes(t) + rest)
    ensures TakeUint(b, at, 2) == Some(|t.key|) && TakeText(b, at + 2, |t.key|) == Some(t.key)
    ensures TakeUint(b, at + 2 + |t.key|, 2) == Some(|t.value|)
    ensures TakeText(b, at + 4 + |t.key|, |t.value|) == Some(t.value)
    ensures at + 4 + |t.key| + |t.value| <= |b| && Ahead(b, at + 4 + |t.key| + |t.value|, rest)
  {
    hide Ahead, TakeUint, TakeText;
    Assoc(Text(t.key), Text(t.value), rest);
    TextAt(b, at, t.key, Text(t.value) + rest);
    TextAt(b, at + 2 + |t.key|, t.value, rest);
  }

  /** One round of the metadata loop. */
  method ReadPair(b: ByteString, base: nat, mo: nat, ghost ts: seq<Pair>, ghost n: nat, ghost rest: ByteString)
    returns (r: Option<Pair>, moffset: nat)
    ensures ItemsAhead(b, base + 14 + mo, ts, n, PairBytes, rest) && n < |ts| && FitsPair(ts[n]) && rest != []
            ==> r == Some(ts[n]) && ItemsAhead(b, base + 14 + moffset, ts, n + 1, PairBytes, rest)
  {
    hide Concat, PairBytes, TakeUint, TakeText, Wrap32, FitsPair, Ahead;
    WrapSmall();
    if ItemsAhead(b, base + 14 + mo, ts, n, PairBytes, rest) && n < |ts| && FitsPair(ts[n]) && rest != [] {
      ListNext(b, base + 14 + mo, ts, n, PairBytes, rest);
      PairAt(b, base + 14 + mo, ts[n], Concat(ts[n + 1..], PairBytes) + rest);
    }
    var klen := TakeUint(b, Wrap32(base + 14 + mo), 2);
    if klen.None? {
      return None, 0;
    }
    var key := TakeText(b, Wrap32(base + 16 + mo), klen.value);
    var vlen := TakeUint(b, Wrap32(base + 16 + klen.value + mo), 2);
    if key.None? || vlen.None? {
      return None, 0;
    }
    var value := TakeText(b, Wrap32(base + 18 + klen.value + mo), vlen.value);
    if value.None? {
      return None, 0;
    }
    moffset := Wrap32(mo + klen.value + vlen.value + 4);
    r := Some(Pair(key.value, value.value));
  }

  /** The tags in the order in which they are stored; one with an empty key is passed over. */
  function Tags(ts: seq<Pair>): map<ByteString, ByteString> {
    if ts == [] then map[]
    else
      var t := ts[|ts| - 1];
      var rest := Tags(ts[..|ts| - 1]);
      if t.key != [] then rest[t.key := t.value] else rest
  }

  lemma TagsNext(ts: seq<Pair>, n: nat)
    requires n < |ts|
    ensures Tags(ts[..n + 1]) == if ts[n].key != [] then Tags(ts[..n])[ts[n].key := ts[n].value] else Tags(ts[..n])
  {
    assert ts[..n + 1][..n] == ts[..n];
  }

  /** The stored tags were sent, and have a key. */
  lemma {:induction false} TagsSent(ts: seq<Pair>)
    ensures forall key :: key in Tags(ts) ==> key != [] && Pair(key, Tags(ts)[key]) in ts
  {
    if ts != [] {
      TagsSent(ts[..|ts| - 1]);
      assert ts == ts[..|ts| - 1] + [ts[|ts| - 1]];
    }
  }

  /** With distinct keys, every tag that has a key is stored. */
  lemma {:induction false} TagsStored(ts: seq<Pair>, i: nat)
    requires forall i, j :: 0 <= i < j < |ts| ==> ts[i].key != ts[j].key
    requires i < |ts| && ts[i].key != []
    ensures ts[i].key in Tags(ts) && Tags(ts)[ts[i].key] == ts[i].value
  {
    if i < |ts| - 1 {
      TagsStored(ts[..|ts| - 1], i);
    }
  }

  predicate FitsTags(ts: seq<Pair>) {
    |ts| < LIMIT16 && forall i :: 0 <= i < |ts| ==> FitsPair(ts[i])
  }

  method ReadMetadata(b: ByteString, base: nat, ghost ts: seq<Pair>, ghost rest: ByteString)
    returns (r: Option<map<ByteString, ByteString>>, moffset: nat)
    ensures ListAhead(b, base + 12, ts, PairBytes, rest) && FitsTags(ts) && rest != []
            ==> r == Some(Tags(ts)) && Ahead(b, base + 14 + moffset, rest)
  {
    hide ListAhead, ItemsAhead, FitsPair, Ahead, TakeUint, PairBytes;
    ghost var good := ListAhead(b, base + 12, ts, PairBytes, rest) && FitsTags(ts) && rest != [];
    if good {
      ListBegins(b, base + 12, ts, PairBytes, rest);
    }
    moffset := 0;
    var ntags := TakeUint(b, Wrap32(base + 12), 2);
    if ntags.None? {
      return None, 0;
    }
    var tags: map<ByteString, ByteString> := map[];
    for n := 0 to ntags.value
      invariant good ==> ntags.value == |ts| && tags == Tags(ts[..n])
      invariant good ==> ItemsAhead(b, base + 14 + moffset, ts, n, PairBytes, rest)
    {
      hide Tags;
      if good {
        TagsNext(ts, n);
      }
      var t;
      t, moffset := ReadPair(b, base, moffset, ts, n, rest);
      if t.None? {
        return None, 0;
      }
      if t.value.key != [] {
        tags := tags[t.value.key := t.value.value];
      }
    }
    r := Some(tags);
    if good {
      assert ts[..|ts|] == ts;
      ListEnds(b, base + 14 + moffset, ts, PairBytes, rest);
    }
  }

  // ---- the whole event ----

  const EVT_SEC_V1: nat := 1
  const EVT_SEC_V2: nat := 2

  /** What a capture gives back; the process state comes with the version of its section. */
  datatype Restored = Restored(
    head: Head, texts: Texts, params: map<ByteString, Captured>, metadata: map<ByteString, ByteString>,
    state: Option<(nat, ByteString)>)

  datatype Head = Head(seqNo: nat, pid: nat, tid: nat, typ: ByteString, cpu: Byte)

  datatype Texts = Texts(
    name: ByteString, category: ByteString, description: ByteString, host: ByteString, timestamp: ByteString)

  /** Types have 18 bytes; the first version of the format left out the last. */
  predicate FitsHead(e: Event) {
    e.seqNo < LIMIT64 && e.pid < LIMIT32 && e.tid < LIMIT32 && 17 <= |e.typ| <= 18
  }

  function FullType(typ: ByteString): ByteString {
    if |typ| == 17 then typ + [0] else typ
  }

  predicate FitsTexts(e: Event) {
    FitsText(e.name) && FitsText(e.category) && FitsText(e.description) && FitsText(e.host) && FitsText(e.timestamp)
  }

  /** Every length and count fits its field, every parameter is well typed, and none is a floating-point number. */
  predicate Fits(e: Event) {
    FitsHead(e) && FitsTexts(e) && FitsParams(e.params) && FitsTags(e.metadata)
  }

  lemma HeadAt(e: Event)
    requires FitsHead(e)
    ensures var b := Layout(e);
            && TakeUint(b, 0, 8) == Some(e.seqNo)
            && TakeUint(b, 8, 4) == Some(e.pid) && TakeUint(b, 12, 4) == Some(e.tid)
            && var idx := 16 + |e.typ|;
            && 33 <= idx <= 34 && idx < |b| && b[16..idx] == e.typ && b[idx] == e.cpu && Ahead(b, idx + 1, FromTexts(e))
  {
    hide U64, U32, Ahead, FromTexts, TakeUint;
    var b := Layout(e);
    Start(b);
    var rest := e.typ + ([e.cpu] + FromTexts(e));
    U64At(b, 0, e.seqNo, U32(e.pid) + (U32(e.tid) + rest));
    U32At(b, 8, e.pid, U32(e.tid) + rest);
    U32At(b, 12, e.tid, rest);
    Advance(b, 16, e.typ, [e.cpu] + FromTexts(e));
    var idx := 16 + |e.typ|;
    Advance(b, idx, [e.cpu], FromTexts(e));
    assert b[idx] == b[idx..idx + 1][0];
  }

  lemma NonEmpty(e: Event)
    ensures |FromSection(e)| >= 10 && |FromMetadata(e)| >= 10 && |FromParams(e)| >= 10
    ensures FromMetadata(e)[0] == LowByte(|e.metadata|)
  {
    hide Concat;
    StartsLow(|e.metadata|);
  }

  /** `idx` is where the type ends: captures of the first version have one byte less of it. */
  method ReadHead(b: ByteString, idx: nat, ghost e: Event) returns (r: Option<Head>)
    requires 16 <= idx <= 34 <= |b|
    ensures FitsHead(e) && b == Layout(e) && idx == 16 + |e.typ|
            ==> r == Some(Head(e.seqNo, e.pid, e.tid, FullType(e.typ), e.cpu)) && Ahead(b, idx + 1, FromTexts(e))
  {
    hide Ahead, Layout, FromTexts, TakeUint;
    if FitsHead(e) && b == Layout(e) {
      HeadAt(e);
    }
    var seqNo, pid, tid := TakeUint(b, 0, 8), TakeUint(b, 8, 4), TakeUint(b, 12, 4);
    if idx >= |b| || seqNo.None? || pid.None? || tid.None? {
      return None;
    }
    var typ := b[16..idx] + seq(34 - idx, _ => 0);
    assert idx == 34 ==> typ == b[16..34];
    assert idx == 33 ==> typ == b[16..33] + [0];
    r := Some(Head(seqNo.value, pid.value, tid.value, typ, b[idx]));
  }

  method ReadTexts(b: ByteString, idx: nat, ghost e: Event) returns (r: Option<Texts>, offset: nat)
    ensures |b| < LIMIT32 && FitsTexts(e) && Ahead(b, idx, FromTexts(e))
            ==> && r == Some(Texts(e.name, e.category, e.description, e.host, e.timestamp))
                && Ahead(b, idx + 10 + offset, FromParams(e))
  {
    hide Ahead, Text, FromParams, FitsText, Wrap32;
    WrapSmall();
    NonEmpty(e);
    ghost var last := Text(e.timestamp) + FromParams(e);
    ghost var third := Text(e.description) + (Text(e.host) + last);
    var name := ReadText(b, idx, e.name, Text(e.category) + third);
    if name.None? {
      return None, 0;
    }
    offset := |name.value|;
    var category := ReadText(b, idx + 2 + offset, e.category, third);
    if category.None? {
      return None, 0;
    }
    offset := Wrap32(offset + |category.value|);
    var description := ReadText(b, idx + 4 + offset, e.description, Text(e.host) + last);
    if description.None? {
      return None, 0;
    }
    offset := Wrap32(offset + |description.value|);
    var host := ReadText(b, idx + 6 + offset, e.host, last);
    if host.None? {
      return None, 0;
    }
    offset := Wrap32(offset + |host.value|);
    var timestamp, l := ReadTime(b, idx + 8 + offset, e.timestamp, FromParams(e));
    if timestamp.None? {
      return None, 0;
    }
    offset := Wrap32(offset + l);
    r := Some(Texts(name.value, category.value, description.value, host.value, timestamp.value));
  }

  lemma SectionAt(b: ByteString, at: nat, e: Event)
    requires |b| < LIMIT32 && Ahead(b, at, FromSection(e))
    ensures at + 10 <= |b| && b[at + 1] == PROCESS_SEC_V4 && TakeUint(b, at + 6, 4) == Some(|State(e)|)
    ensures b[at + 10..] == State(e)
  {
    hide U32, TakeUint;
    var tag := [PROCESS_SECTION, PROCESS_SEC_V4];
    assert FromSection(e) == tag + (U32(0) + (U32(|State(e)|) + State(e)));
    Advance(b, at, tag, U32(0) + (U32(|State(e)|) + State(e)));
    assert b[at + 1] == b[at..at + 2][1];
    U32At(b, at + 2, 0, U32(|State(e)|) + State(e));
    U32At(b, at + 6, |State(e)|, State(e));
  }

  lemma PaddingUnseen(b: ByteString, pad: ByteString, at: nat, width: nat)
    requires at + width <= |b|
    ensures TakeUint(b + pad, at, width) == TakeUint(b, at, width)
  {
    assert (b + pad)[at..at + width] == b[at..at + width];
  }

  /** The section header is copied from what is left, which may be less than ten bytes. */
  method ReadState(b: ByteString, at: nat, ghost e: Event) returns (r: Option<Option<(nat, ByteString)>>)
    ensures |b| < LIMIT32 && Ahead(b, at, FromSection(e))
            ==> r == Some(if State(e) == [] then None else Some((PROCESS_SEC_V4, State(e))))
    ensures r.Some? && r.value.Some? ==>
              && Wrap32(at) <= |b| && Wrap32(at + 10) <= |b|
              && r.value.value == (VersionAt(b, Wrap32(at)) as nat, b[Wrap32(at + 10)..])
  {
    hide TakeUint, Wrap32, FromSection;
    WrapSmall();
    if |b| < LIMIT32 && Ahead(b, at, FromSection(e)) {
      SectionAt(b, at, e);
    }
    var from := Wrap32(at);
    if from > |b| {
      return None;
    }
    var pad: ByteString := [0, 0, 0, 0, 0, 0, 0, 0, 0, 0];
    var padded := b + pad;
    if from + 10 <= |b| {
      PaddingUnseen(b, pad, from + 6, 4);
    }
    var size := TakeUint(padded, from + 6, 4);
    if size == Some(0) {
      return Some(None);
    }
    if Wrap32(at + 10) > |b| {
      return None;
    }
    r := Some(Some((padded[from + 1], b[Wrap32(at + 10)..])));
  }

  /** Everything comes back, values as `SeenAs` says, whatever the order and mix of the parameters. */
  ghost predicate Recovers(got: Restored, e: Event) {
    && got.head == Head(e.seqNo, e.pid, e.tid, FullType(e.typ), e.cpu)
    && got.texts == Texts(e.name, e.category, e.description, e.host, e.timestamp)
    && Reproduces(got.params, e.params, |e.params|, LowByte(|e.metadata|)) && got.metadata == Tags(e.metadata)
    && got.state == if State(e) == [] then None else Some((PROCESS_SEC_V4, State(e)))
  }

  /** Whether the process state can be decoded, given the version of its section and its bytes. */
  type StateDecoder = (nat, ByteString) -> bool

  /** What becomes of an encoded event: an undecodable process state is an error, otherwise everything comes back. */
  ghost predicate Restores(r: Outcome<Restored>, e: Event, readable: StateDecoder) {
    if State(e) != [] && !readable(PROCESS_SEC_V4, State(e)) then r.Failed? else r.Parsed? && Recovers(r.value, e)
  }

  /** The version byte of a section header, zero where the buffer ends before it. */
  function VersionAt(b: ByteString, at: nat): Byte {
    if at + 1 < |b| then b[at + 1] else 0
  }

  /** Somewhere in the buffer lies a section whose body cannot be decoded in its version. */
  ghost predicate HasUnreadable(b: ByteString, readable: StateDecoder) {
    exists at: nat :: at <= |b| && Wrap32(at + 10) <= |b| && !readable(VersionAt(b, at), b[Wrap32(at + 10)..])
  }

  lemma FoundUnreadable(b: ByteString, at: nat, readable: StateDecoder)
    requires Wrap32(at) <= |b| && Wrap32(at + 10) <= |b|
    requires !readable(VersionAt(b, Wrap32(at)), b[Wrap32(at + 10)..])
    ensures HasUnreadable(b, readable)
  {
    hide VersionAt;
    assert Wrap32(Wrap32(at) + 10) == Wrap32(at + 10);
    var i := Wrap32(at);
    assert i <= |b| && !readable(VersionAt(b, i), b[Wrap32(i + 10)..]);
  }

  /** The parts after the texts. */
  method ReadBody(b: ByteString, base: nat, head: Head, texts: Texts, readable: StateDecoder, ghost e: Event)
    returns (r: Outcome<Restored>)
    ensures |b| < LIMIT32 && Fits(e) && Ahead(b, base + 10, FromParams(e))
            && head == Head(e.seqNo, e.pid, e.tid, FullType(e.typ), e.cpu)
            && texts == Texts(e.name, e.category, e.description, e.host, e.timestamp)
            ==> Restores(r, e, readable)
    ensures r.Failed? ==> HasUnreadable(b, readable)
  {
    hide FitsHead, FitsTexts, FitsParam, FitsPair, Ahead, U16, Concat, ParamBytes, PairBytes, FromSection, Tags,
      Reproduces,
      State, Wrap32, VersionAt, HasUnreadable;
    NonEmpty(e);
    var params, poffset := ReadParams(b, base, e.params, FromMetadata(e));
    if params.None? {
      return Panicked;
    }
    var offset := base + poffset;
    var metadata, moffset := ReadMetadata(b, offset, e.metadata, FromSection(e));
    if metadata.None? {
      return Panicked;
    }
    offset := offset + moffset;
    var state := ReadState(b, 14 + offset, e);
    if state.None? {
      return Panicked;
    }
    if state.value.Some? && !readable(state.value.value.0, state.value.value.1) {
      FoundUnreadable(b, 14 + offset, readable);
      return Failed;
    }
    r := Parsed(Restored(head, texts, params.value, metadata.value, state.value));
  }

  /** Reads `b`; when the encoder wrote it from `e`, the event comes back. Unknown versions panic. */
  method NewFromCapture(b: ByteString, ver: nat, readable: StateDecoder, ghost e: Event) returns (r: Outcome<Restored>)
    ensures |b| < 34 ==> r.Failed?
    ensures r.Failed? ==> |b| < 34 || HasUnreadable(b, readable)
    ensures |b| < LIMIT32 && Fits(e) && b == Layout(e) && (if |e.typ| == 17 then ver == 1 else ver == 2)
            ==> Restores(r, e, readable)
  {
    hide Ahead, Layout, FromTexts, FromParams, FitsHead, FitsTexts, FitsParams, FitsTags, Restores;
    if FitsHead(e) {
      HeadAt(e);
    }
    if |b| < 34 {
      return Failed;
    }
    if ver != EVT_SEC_V1 && ver != EVT_SEC_V2 {
      return Panicked;
    }
    var idx := if ver == EVT_SEC_V1 then 33 else 34;
    var head := ReadHead(b, idx, e);
    if head.None? {
      return Panicked;
    }
    var texts, offset := ReadTexts(b, idx + 1, e);
    if texts.None? {
      return Panicked;
    }
    r := ReadBody(b, idx + 1 + offset, head.value, texts.value, readable, e);
  }

  /** Writing and reading again, in one call. */
  method CaptureRoundTrip(e: Event, readable: StateDecoder) returns (r: Outcome<Restored>)
    requires forall p :: p in e.params ==> Typed(Written(p.typ), p.value)
    ensures |Layout(e)| < LIMIT32 && Fits(e) && |e.typ| == 18
            ==> Restores(r, e, readable) && (r.Parsed? ==> r.value.head.typ == e.typ)
  {
    var b := MarshalRaw(e);
    r := NewFromCapture(b, EVT_SEC_V2, readable, e);
  }

  /** Which byte blobs survive being read two bytes early: those that repeat the upper half of their own length. */
  lemma BlobSurvives(d: ByteString, next: Byte)
    requires |d| < LIMIT32
    ensures SeenAs(Blob(d), Blob(d), next) <==> forall i :: 0 <= i < |d| ==> d[i] == U32(|d|)[2 + i % 2]
  {
    hide U32;
    U32Size(|d|);
    var x := U32(|d|);
    assert forall i :: 0 <= i < |d| ==> Early(d)[i] == (x + d)[i + 2];
    if SeenAs(Blob(d), Blob(d), next) {
      Periodic(d, x, |d|);
    }
    if forall i :: 0 <= i < |d| ==> d[i] == x[2 + i % 2] {
      forall i | 0 <= i < |d|
        ensures d[i] == Early(d)[i]
      {
        assert i >= 2 ==> d[i - 2] == x[2 + (i - 2) % 2];
      }
      assert d == Early(d);
    }
  }

  lemma {:induction false} Periodic(d: ByteString, x: ByteString, n: nat)
    requires |x| == 4 && n <= |d| && forall i :: 0 <= i < |d| ==> d[i] == (x + d)[i + 2]
    ensures forall i :: 0 <= i < n ==> d[i] == x[2 + i % 2]
  {
    if n > 0 {
      Periodic(d, x, n - 1);
      assert d[n - 1] == (x + d)[n + 1];
    }
  }

  /** A short blob, such as a security identifier, survives only when it is all zeros. */
  lemma ShortBlobSurvives(d: ByteString, next: Byte)
    requires |d| < LIMIT16
    ensures SeenAs(Blob(d), Blob(d), next) <==> forall i :: 0 <= i < |d| ==> d[i] == 0
  {
    BlobSurvives(d, next);
    UpperHalf(|d|);
    hide U32, SeenAs;
  }

  lemma UpperHalf(n: nat)
    requires n < LIMIT16
    ensures U32(n)[2] == 0 && U32(n)[3] == 0
  {
    assert WriteUint(n, 4)[1..] == WriteUint(n / 256, 3);
    assert WriteUint(n / 256, 3)[1..] == WriteUint(n / 65536, 2);
    assert WriteUint(n / 65536, 2)[1..] == WriteUint(0, 1);
  }

  /** A string slice survives being read one byte late exactly when every item just repeats the byte behind it. */
  lemma SliceSurvives(xs: seq<ByteString>, next: Byte)
    ensures SeenAs(Strings(xs), Strings(xs), next) <==>
              forall i, k :: 0 <= i < |xs| && 0 <= k < |xs[i]| ==> xs[i][k] == ByteBehind(xs, i, next)
  {
    hide ByteBehind;
    forall i | 0 <= i < |xs|
      ensures xs[i] == Late(xs, i, next) <==> forall k :: 0 <= k < |xs[i]| ==> xs[i][k] == ByteBehind(xs, i, next)
    {
      ShiftFixes(xs[i], ByteBehind(xs, i, next));
    }
  }

  lemma ShiftFixes(x: ByteString, c: Byte)
    ensures x != [] ==> (x == x[1..] + [c] <==> forall k :: 0 <= k < |x| ==> x[k] == c)
  {
    if x != [] && x == x[1..] + [c] {
      AllTheLast(x, c, 0);
    }
  }

  lemma {:induction false} AllTheLast(x: ByteString, c: Byte, n: nat)
    requires x != [] && x == x[1..] + [c] && n <= |x|
    ensures forall k :: n <= k < |x| ==> x[k] == c
    decreases |x| - n
  {
    if n < |x| {
      AllTheLast(x, c, n + 1);
      assert x[n] == (x[1..] + [c])[n];
    }
  }
}
