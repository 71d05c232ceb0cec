/**
 Sequence join links: the values by which the events of a sequence rule are stitched together,
 how two of them compare, and the hexadecimal key that stands for several of them.
 */
module Links {
  import opened Bytes

  /** The integer types of the source; `Int` and `Uint` are 64 bits wide. */
  datatype Kind =
    | Uint8 | Uint16 | Uint32 | Uint64 | Int8 | Int16 | Int32 | Int64 | Int | Uint
  {
    function Width(): nat {
      match this
      case Uint8 | Int8 => 1
      case Uint16 | Int16 => 2
      case Uint32 | Int32 => 4
      case Uint64 | Int64 | Int | Uint => 8
    }

    predicate Signed() {
      Int8? || Int16? || Int32? || Int64? || Int?
    }

    /** The kinds the link comparison has a case for. */
    predicate Comparable() {
      Uint8? || Uint16? || Uint32? || Uint64? || Int? || Uint?
    }

    predicate Holds(n: int) {
      if Signed() then 0 <= 2 * n + Capacity(Width()) < 2 * Capacity(Width()) else 0 <= n < Capacity(Width())
    }
  }

  /** A value of dynamic type. `Nil` is the missing value, `Other` any type without a case of its own. */
  datatype Link =
    | Nil
    | Str(s: string)
    | Num(kind: Kind, n: int)
    | Ip(address: ByteString)
    | Other(tag: nat)

  /** What an event can carry: links are map keys, which addresses, being byte slices, cannot be. */
  type MapKey = l: Link | !l.Ip? witness Nil

  /** Case folding and UTF-8 encoding of single characters. */
  datatype Unicode = Unicode(fold: char -> char, utf8: char -> ByteString)

  predicate EqualFold(u: Unicode, s: string, t: string) {
    |s| == |t| && forall i :: 0 <= i < |s| ==> u.fold(s[i]) == u.fold(t[i])
  }

  const V4_IN_V6_PREFIX: ByteString := [0, 0, 0, 0, 0, 0, 0, 0, 0, 0, 0xff, 0xff]

  /** An IPv4 address equals its IPv4-mapped IPv6 form. */
  predicate IpEqual(x: ByteString, y: ByteString) {
    if |x| == |y| then x == y
    else if |x| == 4 && |y| == 16 then y[..12] == V4_IN_V6_PREFIX && x == y[12..]
    else if |x| == 16 && |y| == 4 then x[..12] == V4_IN_V6_PREFIX && x[12..] == y
    else false
  }

  predicate CompareLink(u: Unicode, lhs: Link, rhs: Link) {
    match lhs
    case Str(v) => rhs.Str? && EqualFold(u, v, rhs.s)
    case Num(k, v) => k.Comparable() && rhs.Num? && rhs.kind == k && rhs.n == v
    case Ip(v) => rhs.Ip? && IpEqual(v, rhs.address)
    case _ => false
  }

  lemma {:induction false} CompareSymmetric(u: Unicode, a: Link, b: Link)
    ensures CompareLink(u, a, b) <==> CompareLink(u, b, a)
  {
    if a.Ip? && b.Ip? {
      IpSymmetric(a.address, b.address);
    }
  }

  lemma IpSymmetric(x: ByteString, y: ByteString)
    ensures IpEqual(x, y) <==> IpEqual(y, x)
  {
  }

  lemma CompareTransitive(u: Unicode, a: Link, b: Link, c: Link)
    requires CompareLink(u, a, b) && CompareLink(u, b, c)
    ensures CompareLink(u, a, c)
  {
    if a.Ip? {
      IpTransitive(a.address, b.address, c.address);
    }
  }

  lemma IpTransitive(x: ByteString, y: ByteString, z: ByteString)
    requires IpEqual(x, y) && IpEqual(y, z)
    ensures IpEqual(x, z)
  {
    if |x| == 16 && |y| == 4 && |z| == 16 {
      assert x == x[..12] + x[12..];
      assert z == z[..12] + z[12..];
    }
  }

  /**
   Integers are compared for the kinds that process, thread and object ids have, and only within a kind; the narrow
   signed kinds never join, not even with themselves.
   */
  lemma NumbersJoinExactly(u: Unicode, k: Kind, n: int, j: Kind, m: int)
    ensures CompareLink(u, Num(k, n), Num(j, m))
            <==> k == j && n == m && k in {Uint8, Uint16, Uint32, Uint64, Int, Uint}
  {
  }

  /** Values of different types, missing values and types without a case never join. */
  lemma TypesApart(u: Unicode, a: Link, b: Link)
    ensures CompareLink(u, a, b) ==> (a.Str? && b.Str?) || (a.Num? && b.Num?) || (a.Ip? && b.Ip?)
  {
  }

  /** Strings join up to folding, character by character. */
  lemma StringsJoinExactly(u: Unicode, s: string, t: string)
    ensures CompareLink(u, Str(s), Str(t)) <==> |s| == |t| && forall i :: 0 <= i < |s| ==> u.fold(s[i]) == u.fold(t[i])
  {
  }

  /** `lhs` equals one of the links in `rhs`. */
  predicate LinksTo(u: Unicode, lhs: Link, rhs: set<Link>) {
    exists v :: v in rhs && CompareLink(u, lhs, v)
  }

  /** Some link on the left equals some link on the right. */
  predicate LinksJoin(u: Unicode, lhs: set<Link>, rhs: set<Link>) {
    exists v :: v in lhs && LinksTo(u, v, rhs)
  }

  /** Two sets of links that each hold a link equal to `v` join: the step that carries joins across slots. */
  lemma JoinThrough(u: Unicode, v: Link, lhs: set<Link>, rhs: set<Link>)
    requires LinksTo(u, v, lhs) && LinksTo(u, v, rhs)
    ensures LinksJoin(u, lhs, rhs)
  {
    var a :| a in lhs && CompareLink(u, v, a);
    var b :| b in rhs && CompareLink(u, v, b);
    CompareSymmetric(u, v, a);
    CompareTransitive(u, a, v, b);
  }

  /** Searches the links of an event, which come in no particular order. */
  method CompareSeqLink(u: Unicode, lhs: Link, rhs: set<Link>) returns (found: bool)
    ensures found == LinksTo(u, lhs, rhs)
  {
    if lhs.Nil? {
      return false;
    }
    var rest := rhs;
    while rest != {}
      invariant rest <= rhs
      invariant forall v :: v in rhs - rest ==> !CompareLink(u, lhs, v)
      decreases |rest|
    {
      var v :| v in rest;
      if CompareLink(u, lhs, v) {
        return true;
      }
      rest := rest - {v};
    }
    return false;
  }

  method CompareSeqLinks(u: Unicode, lhs: set<Link>, rhs: set<Link>) returns (found: bool)
    ensures found == LinksJoin(u, lhs, rhs)
  {
    var rest := lhs;
    while rest != {}
      invariant rest <= lhs
      invariant forall v :: v in lhs - rest ==> !LinksTo(u, v, rhs)
      decreases |rest|
    {
      var v :| v in rest;
      var hit := CompareSeqLink(u, v, rhs);
      if hit {
        return true;
      }
      rest := rest - {v};
    }
    return false;
  }

  // ---- the key of a compound link ----

  function Utf8(u: Unicode, s: string): ByteString {
    if s == "" then [] else u.utf8(s[0]) + Utf8(u, s[1..])
  }

  /** The bytes one value contributes to the key; negative integers are written in two's complement. */
  function FieldBytes(u: Unicode, v: Link): ByteString {
    match v
    case Num(k, n) => WriteUint(n % Capacity(k.Width()), k.Width())
    case Str(s) => Utf8(u, s)
    case Ip(a) => a
    case _ => []
  }

  function AllFieldBytes(u: Unicode, values: seq<Link>): ByteString {
    if values == [] then [] else FieldBytes(u, values[0]) + AllFieldBytes(u, values[1..])
  }

  function HexChar(d: nat): char
    requires d < 16
  {
    HexDigit(d) as char
  }

  function Hex(b: ByteString): (h: string)
    ensures |h| == 2 * |b|
  {
    if b == [] then "" else [HexChar(b[0] / 16), HexChar(b[0] % 16)] + Hex(b[1..])
  }

  /** Every byte is two lower-case digits, the high half first. */
  lemma HexOfByte(b: Byte, rest: ByteString)
    ensures Hex([b] + rest) == ["0123456789abcdef"[b / 16], "0123456789abcdef"[b % 16]] + Hex(rest)
  {
    HexDigits(b / 16);
    HexDigits(b % 16);
    assert ([b] + rest)[1..] == rest;
  }

  method HashFields(u: Unicode, values: seq<Link>) returns (key: string)
    ensures key == Hex(AllFieldBytes(u, values))
  {
    var buf: ByteString := [];
    for i := 0 to |values|
      invariant buf == AllFieldBytes(u, values[..i])
    {
      BytesSnoc(u, values[..i], values[i]);
      assert values[..i] + [values[i]] == values[..i + 1];
      buf := buf + FieldBytes(u, values[i]);
    }
    assert values[..|values|] == values;
    key := Hex(buf);
  }

  lemma {:induction false} BytesSnoc(u: Unicode, values: seq<Link>, v: Link)
    ensures AllFieldBytes(u, values + [v]) == AllFieldBytes(u, values) + FieldBytes(u, v)
  {
    if values == [] {
      assert ([] + [v])[1..] == [];
    } else {
      assert (values + [v])[1..] == values[1..] + [v];
      BytesSnoc(u, values[1..], v);
    }
  }

  /** The link of an event: the field itself, or the key of all fields when there are several. */
  function LinkId(u: Unicode, values: seq<Link>): Link {
    if |values| == 1 then values[0] else Str(Hex(AllFieldBytes(u, values)))
  }

  /** A join on a single field compares the fields themselves, case and all types included. */
  lemma SingleLinkIsField(u: Unicode, x: Link, y: Link)
    ensures CompareLink(u, LinkId(u, [x]), LinkId(u, [y])) <==> CompareLink(u, x, y)
  {
  }

  /** Folding leaves the sixteen digits apart, as simple Unicode folding does. */
  ghost predicate KeepsHexDigits(u: Unicode) {
    forall i, j :: 0 <= i < j < 16 ==> u.fold(HexChar(i)) != u.fold(HexChar(j))
  }

  lemma HexHead(u: Unicode, a: ByteString, b: ByteString)
    requires KeepsHexDigits(u) && a != [] && b != [] && EqualFold(u, Hex(a), Hex(b))
    ensures a[0] == b[0]
  {
    var x, y := Hex(a), Hex(b);
    assert u.fold(x[0]) == u.fold(y[0]) && u.fold(x[1]) == u.fold(y[1]);
    assert a[0] / 16 == b[0] / 16;
    assert a[0] % 16 == b[0] % 16;
  }

  lemma HexTail(u: Unicode, a: ByteString, b: ByteString)
    requires a != [] && b != [] && EqualFold(u, Hex(a), Hex(b))
    ensures EqualFold(u, Hex(a[1..]), Hex(b[1..]))
  {
    var x, y := Hex(a), Hex(b);
    var s, t := Hex(a[1..]), Hex(b[1..]);
    forall i | 0 <= i < |s|
      ensures u.fold(s[i]) == u.fold(t[i])
    {
      assert s[i] == x[i + 2] && t[i] == y[i + 2];
    }
  }

  lemma {:induction false} HexInjective(u: Unicode, a: ByteString, b: ByteString)
    requires KeepsHexDigits(u)
    ensures EqualFold(u, Hex(a), Hex(b)) <==> a == b
  {
    if EqualFold(u, Hex(a), Hex(b)) && a != [] && b != [] {
      HexHead(u, a, b);
      HexTail(u, a, b);
      HexInjective(u, a[1..], b[1..]);
      assert a == [a[0]] + a[1..] && b == [b[0]] + b[1..];
    }
  }

  lemma WriteInjective(v: nat, w: nat, width: nat)
    requires v < Capacity(width) && w < Capacity(width)
    ensures WriteUint(v, width) == WriteUint(w, width) <==> v == w
  {
    ReadBack(v, width);
    ReadBack(w, width);
    ModUnique(v, Capacity(width), 0, v);
    ModUnique(w, Capacity(width), 0, w);
  }

  /** Values whose encodings have the same length position by position. */
  predicate SameShape(u: Unicode, xs: seq<Link>, ys: seq<Link>) {
    |xs| == |ys| && forall i :: 0 <= i < |xs| ==> |FieldBytes(u, xs[i])| == |FieldBytes(u, ys[i])|
  }

  lemma {:induction false} BytesSplit(u: Unicode, xs: seq<Link>, ys: seq<Link>)
    requires SameShape(u, xs, ys)
    ensures AllFieldBytes(u, xs) == AllFieldBytes(u, ys)
            <==> forall i :: 0 <= i < |xs| ==> FieldBytes(u, xs[i]) == FieldBytes(u, ys[i])
  {
    if xs != [] {
      BytesSplit(u, xs[1..], ys[1..]);
      var f, g := FieldBytes(u, xs[0]), FieldBytes(u, ys[0]);
      var r, t := AllFieldBytes(u, xs[1..]), AllFieldBytes(u, ys[1..]);
      assert (f + r)[..|f|] == f && (f + r)[|f|..] == r;
      assert (g + t)[..|g|] == g && (g + t)[|g|..] == t;
      forall i | 0 <= i < |xs|
        ensures i > 0 ==> xs[i] == xs[1..][i - 1] && ys[i] == ys[1..][i - 1]
      {
      }
    }
  }

  /** Compound links over integers of fixed kinds compare equal exactly when every component is equal. */
  lemma {:induction false} CompoundLinkRefinesComponents(u: Unicode, xs: seq<Link>, ys: seq<Link>)
    requires KeepsHexDigits(u)
    requires |xs| == |ys| && |xs| != 1
    requires forall i :: 0 <= i < |xs| ==> xs[i].Num? && xs[i].kind.Holds(xs[i].n)
    requires forall i :: 0 <= i < |ys| ==> ys[i].Num? && ys[i].kind.Holds(ys[i].n) && ys[i].kind == xs[i].kind
    ensures CompareLink(u, LinkId(u, xs), LinkId(u, ys)) <==> xs == ys
  {
    HexInjective(u, AllFieldBytes(u, xs), AllFieldBytes(u, ys));
    BytesSplit(u, xs, ys);
    forall i | 0 <= i < |xs|
      ensures FieldBytes(u, xs[i]) == FieldBytes(u, ys[i]) <==> xs[i] == ys[i]
    {
      NumInjective(u, xs[i], ys[i]);
    }
  }

  lemma NumInjective(u: Unicode, x: Link, y: Link)
    requires x.Num? && y.Num? && x.kind == y.kind && x.kind.Holds(x.n) && y.kind.Holds(y.n)
    ensures FieldBytes(u, x) == FieldBytes(u, y) <==> x == y
  {
    var c := Capacity(x.kind.Width());
    ModShift(x.n, c);
    ModShift(y.n, c);
    WriteInjective(x.n % c, y.n % c, x.kind.Width());
  }

  lemma ModShift(n: int, c: nat)
    requires c > 0 && 0 <= n + c && n < c
    ensures n % c == if n < 0 then n + c else n
  {
    if n < 0 {
      ModUnique(n, c, -1, n + c);
    } else {
      ModUnique(n, c, 0, n);
    }
  }

  /** Without fixed widths the key forgets where one component ends and the next begins. */
  lemma StringComponentsCollide(u: Unicode)
    requires u.utf8('a') == [97] && u.utf8('b') == [98] && u.utf8('c') == [99]
    ensures var xs, ys := [Str("ab"), Str("c")], [Str("a"), Str("bc")];
            xs != ys && CompareLink(u, LinkId(u, xs), LinkId(u, ys))
  {
    Utf8Cons(u, 'a', "");
    Utf8Cons(u, 'b', "");
    Utf8Cons(u, 'c', "");
    Utf8Cons(u, 'a', "b");
    Utf8Cons(u, 'b', "c");
    BytesCons(u, Str("c"), []);
    BytesCons(u, Str("bc"), []);
    BytesCons(u, Str("ab"), [Str("c")]);
    BytesCons(u, Str("a"), [Str("bc")]);
    assert "ab" == ['a'] + "b" && "bc" == ['b'] + "c";
    assert [Str("ab"), Str("c")] == [Str("ab")] + [Str("c")];
    assert [Str("a"), Str("bc")] == [Str("a")] + [Str("bc")];
    assert AllFieldBytes(u, [Str("ab"), Str("c")]) == [97, 98, 99];
    assert AllFieldBytes(u, [Str("a"), Str("bc")]) == [97, 98, 99];
    assert |"ab"| != |"a"|;
  }

  lemma Utf8Cons(u: Unicode, c: char, s: string)
    ensures Utf8(u, [c] + s) == u.utf8(c) + Utf8(u, s)
  {
    assert ([c] + s)[1..] == s;
  }

  lemma BytesCons(u: Unicode, v: Link, values: seq<Link>)
    ensures AllFieldBytes(u, [v] + values) == FieldBytes(u, v) + AllFieldBytes(u, values)
  {
    assert ([v] + values)[1..] == values;
  }

  /** In general the keys agree exactly when the concatenated encodings do. */
  lemma CompoundLinkCollisions(u: Unicode, xs: seq<Link>, ys: seq<Link>)
    requires KeepsHexDigits(u) && |xs| != 1 && |ys| != 1
    ensures CompareLink(u, LinkId(u, xs), LinkId(u, ys)) <==> AllFieldBytes(u, xs) == AllFieldBytes(u, ys)
  {
    HexInjective(u, AllFieldBytes(u, xs), AllFieldBytes(u, ys));
  }
}
