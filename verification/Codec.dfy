/**
 What the two binary formats share: fixed-width integers and length-prefixed texts, written in a row and read by
 offset.
 */
module Codec {
  import opened Options
  import opened Bytes

  const LIMIT16: nat := 0x1_0000
  const LIMIT32: nat := 0x1_0000_0000
  const LIMIT64: nat := 0x1_0000_0000_0000_0000

  // ---- writing ----

  /** The source converts lengths with `uint16`, which drops the high bits. */
  function U16(v: nat): ByteString { WriteUint(v % LIMIT16, 2) }

  function U32(v: nat): ByteString { WriteUint(v % LIMIT32, 4) }

  function U64(v: nat): ByteString { WriteUint(v % LIMIT64, 8) }

  function Flag(v: bool): ByteString { [if v then 1 else 0] }

  function Text(s: ByteString): ByteString { U16(|s|) + s }

  lemma TextSize(s: ByteString)
    ensures |Text(s)| == 2 + |s|
  {
  }

  /** The encodings of a list, one after the other. */
  function Concat<T>(xs: seq<T>, enc: T -> ByteString): ByteString {
    if xs == [] then [] else enc(xs[0]) + Concat(xs[1..], enc)
  }

  lemma {:induction false} ConcatSnoc<T>(xs: seq<T>, x: T, enc: T -> ByteString)
    ensures Concat(xs + [x], enc) == Concat(xs, enc) + enc(x)
  {
    if xs == [] {
      assert ([x])[1..] == [];
      assert xs + [x] == [x];
    } else {
      assert (xs + [x])[1..] == xs[1..] + [x];
      ConcatSnoc(xs[1..], x, enc);
    }
  }

  lemma ConcatNext<T>(xs: seq<T>, i: nat, enc: T -> ByteString)
    requires i < |xs|
    ensures Concat(xs[..i + 1], enc) == Concat(xs[..i], enc) + enc(xs[i])
    ensures Concat(xs[i..], enc) == enc(xs[i]) + Concat(xs[i + 1..], enc)
  {
    assert xs[..i + 1] == xs[..i] + [xs[i]];
    ConcatSnoc(xs[..i], xs[i], enc);
    assert xs[i..][1..] == xs[i + 1..];
  }

  lemma ConcatEnds<T>(xs: seq<T>, enc: T -> ByteString)
    ensures Concat(xs[..0], enc) == [] && Concat(xs[|xs|..], enc) == []
    ensures xs[..|xs|] == xs && xs[0..] == xs
  {
  }

  /** Appends every element of a list to the buffer. */
  method AppendAll<T>(b: ByteString, xs: seq<T>, enc: T -> ByteString) returns (r: ByteString)
    ensures r == b + Concat(xs, enc)
  {
    r := b;
    ConcatEnds(xs, enc);
    for i := 0 to |xs|
      invariant r == b + Concat(xs[..i], enc)
    {
      ConcatNext(xs, i, enc);
      assert b + Concat(xs[..i], enc) + enc(xs[i]) == b + (Concat(xs[..i], enc) + enc(xs[i]));
      hide Concat;
      r := r + enc(xs[i]);
    }
  }

  /** A length-prefixed list. */
  method MarshalList<T>(b: ByteString, xs: seq<T>, enc: T -> ByteString, ghost rest: ByteString) returns (r: ByteString)
    ensures r + rest == b + (U16(|xs|) + (Concat(xs, enc) + rest))
  {
    hide U16, Concat;
    r := b + U16(|xs|);
    r := AppendAll(r, xs, enc);
  }

  // ---- reading ----

  /** A decoder returns an error or panics on bytes that the encoder does not produce. */
  datatype Outcome<+T> = Parsed(value: T) | Failed | Panicked

  /** Offsets are 32-bit numbers. */
  function Wrap32(n: nat): nat { n % LIMIT32 }

  lemma WrapSmall()
    ensures forall n: nat :: n < LIMIT32 ==> Wrap32(n) == n
  {
  }

  /** Reading past the end of the slice panics. */
  function TakeUint(b: ByteString, at: nat, width: nat): Option<nat> {
    if at + width <= |b| then Some(ReadUint(b[at..at + width])) else None
  }

  /**
   Taking the address of the first byte panics when nothing is left, even for an empty text. Bytes beyond
   the slice, which the source would take from whatever follows in memory, are outside this model.
   */
  function TakeText(b: ByteString, at: nat, length: nat): Option<ByteString> {
    if at < |b| && at + length <= |b| then Some(b[at..at + length]) else None
  }

  /** What lies ahead of offset `at`. */
  predicate Ahead(b: ByteString, at: nat, rest: ByteString) {
    at <= |b| && b[at..] == rest
  }

  lemma Start(b: ByteString)
    ensures Ahead(b, 0, b)
  {
  }

  lemma Advance(b: ByteString, at: nat, x: ByteString, rest: ByteString)
    requires Ahead(b, at, x + rest)
    ensures at + |x| <= |b| && b[at..at + |x|] == x
    ensures Ahead(b, at + |x|, rest)
  {
    assert b[at..][..|x|] == x && b[at..][|x|..] == rest;
  }

  lemma Assoc(x: ByteString, y: ByteString, rest: ByteString)
    ensures (x + y) + rest == x + (y + rest)
  {
  }

  lemma Nothing(x: ByteString)
    ensures [] + x == x && x + [] == x
  {
  }

  lemma UintAt(b: ByteString, at: nat, v: nat, width: nat, rest: ByteString)
    requires Ahead(b, at, WriteUint(v, width) + rest) && v < Capacity(width)
    ensures TakeUint(b, at, width) == Some(v)
    ensures at + width <= |b| && Ahead(b, at + width, rest)
  {
    Advance(b, at, WriteUint(v, width), rest);
    ReadBack(v, width);
    ModUnique(v, Capacity(width), 0, v);
  }

  lemma U16At(b: ByteString, at: nat, v: nat, rest: ByteString)
    requires Ahead(b, at, U16(v) + rest) && v < LIMIT16
    ensures TakeUint(b, at, 2) == Some(v) && at + 2 <= |b| && Ahead(b, at + 2, rest)
  {
    hide WriteUint, TakeUint, Ahead;
    Capacities();
    UintAt(b, at, v, 2, rest);
  }

  lemma U32At(b: ByteString, at: nat, v: nat, rest: ByteString)
    requires Ahead(b, at, U32(v) + rest) && v < LIMIT32
    ensures TakeUint(b, at, 4) == Some(v) && at + 4 <= |b| && Ahead(b, at + 4, rest)
  {
    hide WriteUint, TakeUint, Ahead;
    Capacities();
    UintAt(b, at, v, 4, rest);
  }

  lemma U64At(b: ByteString, at: nat, v: nat, rest: ByteString)
    requires Ahead(b, at, U64(v) + rest) && v < LIMIT64
    ensures TakeUint(b, at, 8) == Some(v) && at + 8 <= |b| && Ahead(b, at + 8, rest)
  {
    hide WriteUint, TakeUint, Ahead;
    Capacities();
    UintAt(b, at, v, 8, rest);
  }

  lemma FlagAt(b: ByteString, at: nat, v: bool, rest: ByteString)
    requires Ahead(b, at, Flag(v) + rest)
    ensures at < |b| && b[at] == (if v then 1 else 0) && Ahead(b, at + 1, rest)
  {
    Advance(b, at, Flag(v), rest);
    assert b[at] == b[at..at + 1][0];
  }

  /** A text is readable unless it is empty and nothing follows it. */
  lemma TextAt(b: ByteString, at: nat, s: ByteString, rest: ByteString)
    requires Ahead(b, at, Text(s) + rest) && |s| < LIMIT16
    ensures TakeUint(b, at, 2) == Some(|s|)
    ensures TakeText(b, at + 2, |s|) == if s == [] && rest == [] then None else Some(s)
    ensures at + 2 + |s| <= |b| && Ahead(b, at + 2 + |s|, rest)
  {
    hide U16;
    Assoc(U16(|s|), s, rest);
    U16At(b, at, |s|, s + rest);
    Advance(b, at + 2, s, rest);
  }

  /** A text of the layout is short enough for its 16-bit length. */
  predicate FitsText(s: ByteString) {
    |s| < LIMIT16
  }

  /** A length-prefixed list lies ahead. */
  predicate ListAhead<T>(b: ByteString, at: nat, xs: seq<T>, enc: T -> ByteString, rest: ByteString) {
    |b| < LIMIT32 && |xs| < LIMIT16 && Ahead(b, at, U16(|xs|) + (Concat(xs, enc) + rest))
  }

  /** After `i` elements the others and what follows lie ahead. */
  predicate ItemsAhead<T>(b: ByteString, at: nat, xs: seq<T>, i: nat, enc: T -> ByteString, rest: ByteString) {
    |b| < LIMIT32 && i <= |xs| && Ahead(b, at, Concat(xs[i..], enc) + rest)
  }

  lemma ListBegins<T>(b: ByteString, at: nat, xs: seq<T>, enc: T -> ByteString, rest: ByteString)
    requires ListAhead(b, at, xs, enc, rest)
    ensures TakeUint(b, Wrap32(at), 2) == Some(|xs|) && ItemsAhead(b, at + 2, xs, 0, enc, rest)
  {
    hide Concat, U16;
    U16At(b, at, |xs|, Concat(xs, enc) + rest);
    ConcatEnds(xs, enc);
  }

  lemma ListEnds<T>(b: ByteString, at: nat, xs: seq<T>, enc: T -> ByteString, rest: ByteString)
    requires ItemsAhead(b, at, xs, |xs|, enc, rest)
    ensures Ahead(b, at, rest)
  {
    ConcatEnds(xs, enc);
    Nothing(rest);
  }

  /** The next element of the list lies ahead, and after it the others. */
  lemma ListNext<T>(b: ByteString, at: nat, xs: seq<T>, i: nat, enc: T -> ByteString, rest: ByteString)
    requires ItemsAhead(b, at, xs, i, enc, rest) && i < |xs|
    ensures Ahead(b, at, enc(xs[i]) + (Concat(xs[i + 1..], enc) + rest))
  {
    hide Ahead;
    ConcatNext(xs, i, enc);
    Assoc(enc(xs[i]), Concat(xs[i + 1..], enc), rest);
  }

  /** A length and the text it announces. */
  method ReadText(b: ByteString, at: nat, ghost s: ByteString, ghost rest: ByteString) returns (r: Option<ByteString>)
    ensures |b| < LIMIT32 && FitsText(s) && Ahead(b, at, Text(s) + rest)
            ==> && r == (if s == [] && rest == [] then None else Some(s))
                && at + 2 + |s| <= |b| && Ahead(b, at + 2 + |s|, rest)
  {
    hide TakeUint, TakeText, Ahead, Wrap32, Text;
    WrapSmall();
    if |b| < LIMIT32 && FitsText(s) && Ahead(b, at, Text(s) + rest) {
      TextAt(b, at, s, rest);
    }
    var l := TakeUint(b, Wrap32(at), 2);
    if l.None? {
      return None;
    }
    r := TakeText(b, Wrap32(at + 2), l.value);
  }

  /** A time is only read when something is left of the buffer. */
  function TakeTime(b: ByteString, at: nat, length: nat): Option<ByteString> {
    if at == |b| then Some([]) else TakeText(b, at, length)
  }

  method ReadTime(b: ByteString, at: nat, ghost s: ByteString, ghost rest: ByteString)
    returns (r: Option<ByteString>, length: nat)
    ensures |b| < LIMIT32 && FitsText(s) && rest != [] && Ahead(b, at, Text(s) + rest)
            ==> r == Some(s) && length == |s| && at + 2 + |s| < |b| && Ahead(b, at + 2 + |s|, rest)
  {
    hide TakeUint, TakeText, Text, Wrap32;
    WrapSmall();
    if |b| < LIMIT32 && FitsText(s) && Ahead(b, at, Text(s) + rest) {
      TextAt(b, at, s, rest);
    }
    var l := TakeUint(b, Wrap32(at), 2);
    if l.None? {
      return None, 0;
    }
    length := l.value;
    r := TakeTime(b, Wrap32(at + 2), length);
  }
}
