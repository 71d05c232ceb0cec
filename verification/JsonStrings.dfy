/** Strings in JSON: the escapes of section 7 of RFC 8259, byte by byte. */
module JsonStrings {
  import opened Options
  import opened Bytes

  /** Bytes that stand for themselves: all but control characters, the quote and the backslash. */
  predicate Safe(b: Byte) {
    b > 31 && b != 34 && b != 92
  }

  function EscapeByte(b: Byte): ByteString {
    if Safe(b) then [b]
    else if b == 92 || b == 34 then [92, b]
    else if b == 10 then [92, 110]
    else if b == 13 then [92, 114]
    else if b == 9 then [92, 116]
    else [92, 117, 48, 48, HexDigit(b / 16), HexDigit(b % 16)]
  }

  /** No byte takes more room than it must: two for the escapes with a letter of their own, six for the others. */
  lemma EscapesExactly(b: Byte)
    ensures EscapeByte(b) == [b] <==> b >= 32 && b != 34 && b != 92
    ensures |EscapeByte(b)| == if b in {9, 10, 13, 34, 92} then 2 else if b < 32 then 6 else 1
  {
  }

  function Escape(s: ByteString): ByteString {
    if s == [] then [] else EscapeByte(s[0]) + Escape(s[1..])
  }

  lemma {:induction false} EscapeSafe(s: ByteString)
    requires forall i :: 0 <= i < |s| ==> Safe(s[i])
    ensures Escape(s) == s
  {
    if s != [] {
      EscapeSafe(s[1..]);
    }
  }

  lemma {:induction false} EscapeSplit(s: ByteString, i: nat)
    requires i <= |s|
    ensures Escape(s) == Escape(s[..i]) + Escape(s[i..])
  {
    if i > 0 {
      EscapeSplit(s[1..], i - 1);
      assert s[..i][0] == s[0] && s[..i][1..] == s[1..][..i - 1];
      assert s[1..][i - 1..] == s[i..];
    } else {
      assert s[..0] == [] && s[0..] == s;
    }
  }

  lemma EscapeAppend(a: ByteString, b: ByteString)
    ensures Escape(a + b) == Escape(a) + Escape(b)
  {
    EscapeSplit(a + b, |a|);
    assert (a + b)[..|a|] == a && (a + b)[|a|..] == b;
  }

  lemma EscapeOne(b: Byte)
    ensures Escape([b]) == EscapeByte(b)
  {
    assert [b][1..] == [];
  }

  lemma EscapeNothing(s: ByteString, i: nat)
    requires i <= |s|
    ensures Escape(s[i..i]) == []
  {
    assert s[i..i] == [];
  }

  /** A run of safe bytes followed by one that is not. */
  lemma RunThenOne(s: ByteString, i: nat, start: nat, at: nat)
    requires i <= start <= at < |s| && forall j :: start <= j < at ==> Safe(s[j])
    ensures Escape(s[i..at + 1]) == Escape(s[i..start]) + s[start..at] + EscapeByte(s[at])
  {
    hide Escape, EscapeByte;
    assert s[i..at + 1] == s[i..start] + s[start..at] + [s[at]];
    EscapeAppend(s[i..start] + s[start..at], [s[at]]);
    EscapeAppend(s[i..start], s[start..at]);
    EscapeSafe(s[start..at]);
    EscapeOne(s[at]);
  }

  lemma Tail(s: ByteString, i: nat, start: nat)
    requires i <= start <= |s| && forall j :: start <= j < |s| ==> Safe(s[j])
    ensures Escape(s[i..]) == Escape(s[i..start]) + s[start..]
  {
    hide Escape;
    assert s[i..] == s[i..start] + s[start..];
    EscapeAppend(s[i..start], s[start..]);
    EscapeSafe(s[start..]);
  }

  // ---- reading a string body ----

  function HexValue(c: Byte): Option<nat> {
    if 48 <= c <= 57 then Some(c - 48)
    else if 97 <= c <= 102 then Some(c - 87)
    else if 65 <= c <= 70 then Some(c - 55)
    else None
  }

  /** The byte a `u` escape with two leading zeros stands for; code points beyond ASCII are not single bytes. */
  function Hex4(s: ByteString): Option<Byte>
    requires |s| == 4
  {
    var hi, lo := HexValue(s[2]), HexValue(s[3]);
    if s[0] == 48 && s[1] == 48 && hi.Some? && lo.Some? && hi.value < 8 then Some(16 * hi.value + lo.value) else None
  }

  /** The byte behind the two-character escapes. */
  function Short(c: Byte): Option<Byte> {
    if c == 34 || c == 92 || c == 47 then Some(c)
    else if c == 98 then Some(8)
    else if c == 102 then Some(12)
    else if c == 110 then Some(10)
    else if c == 114 then Some(13)
    else if c == 116 then Some(9)
    else None
  }

  /** Reads the first character of a body: the byte it stands for and how many bytes it takes. */
  function ReadChar(s: ByteString): Option<(Byte, nat)>
    requires s != []
  {
    if Safe(s[0]) then Some((s[0], 1))
    else if s[0] != 92 || |s| < 2 then None
    else if s[1] == 117 then
      if |s| < 6 then None
      else
        match Hex4(s[2..6])
        case None => None
        case Some(b) => Some((b, 6))
    else
      match Short(s[1])
      case None => None
      case Some(b) => Some((b, 2))
  }

  /** Reads a whole body; a raw control byte, a bare quote or a broken escape makes it fail. */
  function Unescape(s: ByteString): Option<ByteString>
    decreases |s|
  {
    if s == [] then Some([])
    else
      match ReadChar(s)
      case None => None
      case Some((b, n)) =>
        if n > |s| || n == 0 then None
        else
          match Unescape(s[n..])
          case None => None
          case Some(rest) => Some([b] + rest)
  }

  lemma ReadEscaped(b: Byte, rest: ByteString)
    ensures ReadChar(EscapeByte(b) + rest) == Some((b, |EscapeByte(b)|))
  {
    var s := EscapeByte(b) + rest;
    assert forall i :: 0 <= i < |EscapeByte(b)| ==> s[i] == EscapeByte(b)[i];
    if |EscapeByte(b)| == 6 {
      assert s[2..6] == [48, 48, HexDigit(b / 16), HexDigit(b % 16)];
    }
  }

  lemma UnescapeNext(b: Byte, rest: ByteString, read: ByteString)
    requires Unescape(rest) == Some(read)
    ensures Unescape(EscapeByte(b) + rest) == Some([b] + read)
  {
    ReadEscaped(b, rest);
    EscapeByteSize(b);
    hide EscapeByte, ReadChar;
    assert (EscapeByte(b) + rest)[|EscapeByte(b)|..] == rest;
  }

  lemma EscapeByteSize(b: Byte)
    ensures |EscapeByte(b)| > 0
  {
  }

  /** Reading the escaped string gives the string back, so it holds no raw control byte and no bare quote. */
  lemma {:induction false} EscapeReadsBack(s: ByteString)
    ensures Unescape(Escape(s)) == Some(s)
  {
    if s != [] {
      hide Unescape, EscapeByte;
      EscapeReadsBack(s[1..]);
      UnescapeNext(s[0], Escape(s[1..]), s[1..]);
      assert s == [s[0]] + s[1..];
    }
  }

  /** How many backslashes stand directly before position `i`. */
  function Backslashes(s: ByteString, i: nat): nat
    requires i <= |s|
  {
    if i == 0 || s[i - 1] != 92 then 0 else 1 + Backslashes(s, i - 1)
  }

  lemma {:induction false} BackslashesOf(p: ByteString, t: ByteString, i: nat)
    requires i <= |p|
    ensures Backslashes(p + t, i) == Backslashes(p, i)
  {
    if i > 0 {
      BackslashesOf(p, t, i - 1);
    }
  }

  /** A whole escape ends with an even number of backslashes, and the quote in one has an odd number before it. */
  lemma EscapeBalanced(p: ByteString, b: Byte, rest: ByteString)
    requires Backslashes(p, |p|) % 2 == 0
    ensures var t := EscapeByte(b);
            && Backslashes(p + t, |p + t|) % 2 == 0
            && (forall k :: 0 <= k < |t| && t[k] == 34 ==> Backslashes(p + (t + rest), |p| + k) % 2 == 1)
  {
    var t := EscapeByte(b);
    BackslashesOf(p, t, |p|);
    BackslashesOf(p, t + rest, |p|);
    var whole := p + (t + rest);
    if Safe(b) {
      assert (p + t)[|p|] == b;
    } else {
      assert whole[|p|] == 92 && (p + t)[|p|] == 92;
      assert Backslashes(whole, |p| + 1) == 1 + Backslashes(whole, |p|);
      assert Backslashes(p + t, |p| + 1) == 1 + Backslashes(p + t, |p|);
    }
  }

  /** No byte of the body is a control character, and a quote only ever follows a backslash. */
  lemma {:induction false} EscapeIsClean(s: ByteString, i: nat)
    requires i < |Escape(s)|
    ensures Escape(s)[i] > 31
    ensures Escape(s)[i] == 34 ==> i > 0 && Escape(s)[i - 1] == 92
  {
    var n := |EscapeByte(s[0])|;
    if i >= n {
      EscapeIsClean(s[1..], i - n);
      assert Escape(s)[i] == Escape(s[1..])[i - n];
      assert i > n ==> Escape(s)[i - 1] == Escape(s[1..])[i - 1 - n];
    } else {
      assert Escape(s)[i] == EscapeByte(s[0])[i];
      assert i > 0 ==> Escape(s)[i - 1] == EscapeByte(s[0])[i - 1];
    }
  }

  lemma EscapeHead(s: ByteString)
    requires s != []
    ensures Escape(s) == EscapeByte(s[0]) + Escape(s[1..])
  {
  }

  lemma QuoteInHead(p: ByteString, b: Byte, rest: ByteString, i: nat)
    requires Backslashes(p, |p|) % 2 == 0 && i < |EscapeByte(b)| && (EscapeByte(b) + rest)[i] == 34
    ensures Backslashes(p + (EscapeByte(b) + rest), |p| + i) % 2 == 1
  {
    EscapeBalanced(p, b, rest);
    hide EscapeByte, Backslashes;
    assert EscapeByte(b)[i] == 34;
  }

  lemma {:induction false} QuotesAreEscapedAfter(p: ByteString, s: ByteString, i: nat)
    requires Backslashes(p, |p|) % 2 == 0 && i < |Escape(s)| && Escape(s)[i] == 34
    ensures Backslashes(p + Escape(s), |p| + i) % 2 == 1
    decreases |s|
  {
    if s != [] {
      hide *;
      var t, rest := EscapeByte(s[0]), Escape(s[1..]);
      EscapeHead(s);
      if i < |t| {
        QuoteInHead(p, s[0], rest, i);
      } else {
        EscapeBalanced(p, s[0], rest);
        Behind(t, rest, i);
        QuotesAreEscapedAfter(p + t, s[1..], i - |t|);
        Rebase(p, t, rest, i);
      }
    }
  }

  lemma Behind(t: ByteString, rest: ByteString, i: nat)
    requires |t| <= i < |t + rest|
    ensures (t + rest)[i] == rest[i - |t|]
  {
  }

  lemma Assoc(p: ByteString, t: ByteString, rest: ByteString)
    ensures p + t + rest == p + (t + rest)
  {
  }

  lemma Rebase(p: ByteString, t: ByteString, rest: ByteString, i: nat)
    requires |t| <= i <= |t + rest|
    ensures Backslashes(p + (t + rest), |p| + i) == Backslashes(p + t + rest, |p + t| + (i - |t|))
  {
    hide Backslashes;
    Assoc(p, t, rest);
  }

  /** Every quote in the body is escaped: the number of backslashes before it is odd. */
  lemma QuotesAreEscaped(s: ByteString, i: nat)
    requires i < |Escape(s)| && Escape(s)[i] == 34
    ensures Backslashes(Escape(s), i) % 2 == 1
  {
    QuotesAreEscapedAfter([], s, i);
    assert [] + Escape(s) == Escape(s);
  }
}
